/** The proxy's route table: rebuilt from the registry, sorted, scanned in order. */
module Proxy {
  import opened Core
  import opened Text
  import Registry

  /** One match candidate: an exact name, or the base under which any deeper name matches. */
  datatype Entry = Entry(fqdn: string, wildcard: bool, depth: nat, alloc: Allocation)

  datatype Target = Target(alloc: Allocation, backend: Backend)

  // ---- what an allocation serves, without the table

  /** The first route bound to exactly this listener. */
  function FirstOn(routes: seq<Route>, port: int): Option<Backend> {
    if routes == [] then None
    else if routes[0].listen == port then Some(routes[0].backend) else FirstOn(routes[1..], port)
  }

  /** The last route on the default listeners. */
  function LastDefault(routes: seq<Route>): Option<Backend> {
    if routes == [] then None
    else if routes[|routes| - 1].listen == 0 then Some(routes[|routes| - 1].backend)
    else LastDefault(routes[..|routes| - 1])
  }

  /** A listener's own route, else on 80 and 443 the default route. */
  function RouteFor(routes: seq<Route>, port: int): Option<Backend> {
    if FirstOn(routes, port).Some? then FirstOn(routes, port)
    else if port == 443 || port == 80 then LastDefault(routes) else None
  }

  /** The route that answers a port: the first on exactly that listener, or, when there is none and the port is 80
      or 443, the last on the default listeners. */
  ghost predicate Chosen(listens: seq<int>, port: int, i: nat)
    requires i < |listens|
  {
    || (listens[i] == port && forall j :: 0 <= j < i ==> listens[j] != port)
    || ((forall j :: 0 <= j < |listens| ==> listens[j] != port) && (port == 443 || port == 80)
        && listens[i] == 0 && forall j :: i < j < |listens| ==> listens[j] != 0)
  }

  function Listeners(routes: seq<Route>): seq<int> {
    seq(|routes|, i requires 0 <= i < |routes| => routes[i].listen)
  }

  lemma RouteForMeans(routes: seq<Route>, port: int)
    ensures forall i :: 0 <= i < |routes| && Chosen(Listeners(routes), port, i) ==>
              RouteFor(routes, port) == Some(routes[i].backend)
    ensures RouteFor(routes, port).Some? ==>
              exists i :: 0 <= i < |routes| && Chosen(Listeners(routes), port, i)
                          && routes[i].backend == RouteFor(routes, port).value
    ensures forall i, j ::
              0 <= i < j < |routes| ==> !(Chosen(Listeners(routes), port, i) && Chosen(Listeners(routes), port, j))
  {
    FirstOnMeans(routes, port);
    LastDefaultMeans(routes);
    if FirstOn(routes, port).Some? {
      var i :| 0 <= i < |routes| && routes[i].listen == port && (forall j :: 0 <= j < i ==> routes[j].listen != port)
               && FirstOn(routes, port) == Some(routes[i].backend);
      assert Chosen(Listeners(routes), port, i);
    } else if (port == 443 || port == 80) && LastDefault(routes).Some? {
      var i :| 0 <= i < |routes| && routes[i].listen == 0
               && (forall j :: i < j < |routes| ==> routes[j].listen != 0)
               && LastDefault(routes) == Some(routes[i].backend);
      assert Chosen(Listeners(routes), port, i);
    }
  }

  lemma {:induction false} FirstOnMeans(routes: seq<Route>, port: int)
    ensures FirstOn(routes, port) == None <==> forall i :: 0 <= i < |routes| ==> routes[i].listen != port
    ensures FirstOn(routes, port).Some? ==>
              exists i :: 0 <= i < |routes| && routes[i].listen == port
                          && (forall j :: 0 <= j < i ==> routes[j].listen != port)
                          && FirstOn(routes, port) == Some(routes[i].backend)
  {
    if routes != [] && routes[0].listen != port {
      var rest := routes[1..];
      FirstOnMeans(rest, port);
      assert forall i :: 0 <= i < |rest| ==> rest[i] == routes[i + 1];
      if FirstOn(rest, port).Some? {
        var i :| 0 <= i < |rest| && rest[i].listen == port && (forall j :: 0 <= j < i ==> rest[j].listen != port)
                 && FirstOn(rest, port) == Some(rest[i].backend);
        assert routes[i + 1].listen == port;
        forall j | 0 <= j < i + 1
          ensures routes[j].listen != port
        {
          assert j > 0 ==> rest[j - 1] == routes[j];
        }
      } else {
        forall i | 0 <= i < |routes|
          ensures routes[i].listen != port
        {
          assert i > 0 ==> rest[i - 1] == routes[i];
        }
      }
    }
  }

  lemma {:induction false} LastDefaultMeans(routes: seq<Route>)
    ensures LastDefault(routes) == None <==> forall i :: 0 <= i < |routes| ==> routes[i].listen != 0
    ensures LastDefault(routes).Some? ==>
              exists i :: 0 <= i < |routes| && routes[i].listen == 0
                          && (forall j :: i < j < |routes| ==> routes[j].listen != 0)
                          && LastDefault(routes) == Some(routes[i].backend)
  {
    if routes != [] && routes[|routes| - 1].listen != 0 {
      var front := routes[..|routes| - 1];
      LastDefaultMeans(front);
      assert forall i :: 0 <= i < |front| ==> front[i] == routes[i];
      if LastDefault(front).Some? {
        var i :| 0 <= i < |front| && front[i].listen == 0 && (forall j :: i < j < |front| ==> front[j].listen != 0)
                 && LastDefault(front) == Some(front[i].backend);
        assert routes[i].listen == 0;
      }
    }
  }

  function ExactName(a: Allocation): Option<string> {
    if HasPrefix(a.name, "*.") then None else Some(Fqdn(a.name, a.zone))
  }

  function WildcardBase(a: Allocation): Option<string> {
    if HasPrefix(a.name, "*.") then Some(Fqdn(TrimPrefix(a.name, "*."), a.zone))
    else if a.spec.wildcard then Some(Fqdn(a.name, a.zone)) else None
  }

  predicate Under(host: string, base: string) {
    HasSuffix(host, "." + base)
  }

  predicate Serves(a: Allocation, host: string, port: int) {
    && a.state == Active && RouteFor(a.spec.routes, port).Some?
    && (ExactName(a) == Some(host) || (WildcardBase(a).Some? && Under(host, WildcardBase(a).value)))
  }

  /** What a row serves, by its columns: its own name, and what is below it for a wildcard; a starred label stands
      for what is below only. */
  lemma ServesMeans(a: Allocation, host: string, port: int)
    ensures Serves(a, host, port) <==>
              && a.state == Active
              && (exists i :: 0 <= i < |a.spec.routes| && Chosen(Listeners(a.spec.routes), port, i))
              && if |a.name| >= 2 && a.name[0] == '*' && a.name[1] == '.'
                 then exists l :: host == l + ("." + Fqdn(a.name[2..], a.zone))
                 else
                   var name := Fqdn(a.name, a.zone);
                   host == name || (a.spec.wildcard && exists l :: host == l + ("." + name))
  {
    hide Chosen, Listeners, Fqdn, RouteFor;
    RouteForMeans(a.spec.routes, port);
    assert HasPrefix(a.name, "*.") <==> |a.name| >= 2 && a.name[0] == '*' && a.name[1] == '.';
    UnderMeans(host, if HasPrefix(a.name, "*.") then Fqdn(a.name[2..], a.zone) else Fqdn(a.name, a.zone));
  }

  lemma UnderMeans(host: string, base: string)
    ensures Under(host, base) <==> exists l :: host == l + ("." + base)
  {
    if Under(host, base) {
      SuffixSplit(host, "." + base);
    }
    if l :| host == l + ("." + base) {
      SuffixOfConcat(l, "." + base);
    }
  }

  /** How closely an allocation names a host: exactly, or by a base, the longer the closer. */
  function Closeness(a: Allocation, host: string): int {
    if ExactName(a) == Some(host) then |host|
    else if WildcardBase(a).Some? then |WildcardBase(a).value| else -1
  }

  // ---- the table

  /** The entries of one allocation; without routes there is nothing to serve. */
  function EntriesOf(a: Allocation): seq<Entry> {
    if a.spec.routes == [] then []
    else if HasPrefix(a.name, "*.") then
      var f := Fqdn(TrimPrefix(a.name, "*."), a.zone); [Entry(f, true, Count(f, '.'), a)]
    else
      var f := Fqdn(a.name, a.zone);
      [Entry(f, false, Count(f, '.'), a)] + if a.spec.wildcard then [Entry(f, true, Count(f, '.'), a)] else []
  }

  predicate Less(x: Entry, y: Entry) {
    if x.wildcard != y.wildcard then !x.wildcard else x.depth > y.depth
  }

  ghost predicate Sorted(es: seq<Entry>) {
    forall i, j :: 0 <= i < j < |es| ==> !Less(es[j], es[i])
  }

  predicate Matches(e: Entry, host: string) {
    if e.wildcard then Under(host, e.fqdn) else host == e.fqdn
  }

  predicate Answers(e: Entry, host: string, port: int) {
    Matches(e, host) && RouteFor(e.alloc.spec.routes, port).Some?
  }

  /** The table holds the entries of the active rows, and nothing else. */
  ghost predicate Built(es: seq<Entry>, rows: map<Key, Allocation>) {
    && Sorted(es)
    && forall e :: e in es <==> exists k <- rows :: rows[k].state == Active && e in EntriesOf(rows[k])
  }

  /** The host as looked up: no final dot, lower case, no port (an IPv6 bracket is not a port). */
  function CleanHost(raw: string): string {
    var host := Lower(TrimSuffix(raw, "."));
    var i := LastIndex(host, ':');
    if i >= 0 && ']' !in host[i..] then host[..i] else host
  }

  /** What a lookup of this host and port finds: the target of the first entry that answers. */
  function Lookup(es: seq<Entry>, host: string, port: int): Option<Target> {
    if es == [] then None
    else if Answers(es[0], host, port) then Some(Target(es[0].alloc, RouteFor(es[0].alloc.spec.routes, port).value))
    else Lookup(es[1..], host, port)
  }

  lemma {:induction false} LookupFirst(es: seq<Entry>, host: string, port: int)
    ensures Lookup(es, host, port) == None <==> forall e :: e in es ==> !Answers(e, host, port)
    ensures forall i :: 0 <= i < |es| && FirstAnswer(es, i, host, port) ==>
              Lookup(es, host, port) == Some(Target(es[i].alloc, RouteFor(es[i].alloc.spec.routes, port).value))
    ensures Lookup(es, host, port).Some? ==> exists i :: 0 <= i < |es| && FirstAnswer(es, i, host, port)
  {
    hide Answers, RouteFor;
    if es != [] {
      LookupFirst(es[1..], host, port);
      if Answers(es[0], host, port) {
        assert FirstAnswer(es, 0, host, port);
      } else {
        assert es == [es[0]] + es[1..];
        forall i | 0 <= i < |es| && FirstAnswer(es, i, host, port)
          ensures FirstAnswer(es[1..], i - 1, host, port)
        {
        }
        if Lookup(es, host, port).Some? {
          var i :| 0 <= i < |es[1..]| && FirstAnswer(es[1..], i, host, port);
          assert FirstAnswer(es, i + 1, host, port);
        }
      }
    }
  }

  /** A zone whose spelling survives the cleaning: no final dot, and nothing that reads like a port. */
  predicate Plain(zone: string) {
    var i := LastIndex(zone, ':');
    !HasSuffix(zone, ".") && (i >= 0 ==> ']' in zone[i..])
  }

  lemma CleanShortens(raw: string)
    ensures |CleanHost(raw)| <= |TrimSuffix(raw, ".")|
  {
  }

  lemma CleanUndotted(host: string)
    requires IsLower(host) && !HasSuffix(host, ".")
    ensures var i := LastIndex(host, ':'); CleanHost(host) == if i >= 0 && ']' !in host[i..] then host[..i] else host
  {
    LowerOfLower(host);
  }

  /** A hostname of a zone is looked up as it is written exactly when the zone is plain. */
  lemma CleanIffPlain(prefix: string, zone: string)
    requires zone != "" && IsLower(prefix) && IsLower(zone) && ':' !in prefix && ']' !in prefix
    ensures CleanHost(prefix + zone) == prefix + zone <==> Plain(zone)
  {
    hide CleanHost, LastIndex, Lower;
    var host := prefix + zone;
    assert host[|host| - 1] == zone[|zone| - 1];
    if HasSuffix(zone, ".") {
      assert HasSuffix(host, ".");
      CleanShortens(host);
    } else {
      CleanUndotted(host);
      LastIndexAbsent(zone, ':');
      LastIndexPrefix(prefix, zone, ':');
      var i := LastIndex(zone, ':');
      if i >= 0 {
        assert host[|prefix| + i..] == zone[i..];
      }
    }
  }

  lemma {:induction false} LastIndexPrefix(s: string, t: string, c: char)
    requires c !in s
    ensures LastIndex(s + t, c) == if c in t then |s| + LastIndex(t, c) else -1
  {
    LastIndexAbsent(t, c);
    if t == [] {
      assert s + t == s;
      LastIndexAbsent(s, c);
    } else {
      assert (s + t)[..|s + t| - 1] == s + t[..|t| - 1];
      LastIndexPrefix(s, t[..|t| - 1], c);
      LastIndexAbsent(t[..|t| - 1], c);
      assert t == t[..|t| - 1] + [t[|t| - 1]];
    }
  }

  /** A port changes nothing about what is looked up, except that it keeps a final dot from being cut. */
  lemma PortIgnored(host: string, port: string)
    requires ':' !in host && ']' !in port && ':' !in port && '.' !in port && port != ""
    ensures CleanHost(host + ":" + port) == Lower(host)
    ensures CleanHost(host + ":" + port) == CleanHost(host) <==> !HasSuffix(host, ".")
  {
    var raw := host + ":" + port;
    assert raw[|raw| - 1] == port[|port| - 1];
    assert TrimSuffix(raw, ".") == raw;
    var low, tail := Lower(raw), Lower(port);
    assert low == (Lower(host) + ":") + tail;
    LowerKeeps(port, ':');
    LowerKeeps(port, ']');
    LastIndexConcat(Lower(host) + ":", tail, ':');
    assert low[|host|..] == ":" + tail;
    LowerKeeps(host, ':');
    LastIndexAbsent(Lower(host), ':');
  }

  lemma LowerKeeps(s: string, c: char)
    requires c !in s && !('a' <= c <= 'z')
    ensures c !in Lower(s)
  {
  }

  /** Bases of one host at one depth are one name, so deeper is the same as longer. */
  lemma DepthIsLength(host: string, f: string, g: string)
    requires Under(host, f) && Under(host, g)
    ensures Count(f, '.') < Count(g, '.') <==> |f| < |g|
    ensures (Count(f, '.') == Count(g, '.') <==> f == g) && (|f| == |g| <==> f == g)
  {
    hide Under, Count;
    if |f| < |g| {
      ShorterIsShallower(host, f, g);
    } else if |g| < |f| {
      ShorterIsShallower(host, g, f);
    } else {
      SameLengthSameBase(host, f, g);
    }
  }

  lemma SameLengthSameBase(host: string, f: string, g: string)
    requires Under(host, f) && Under(host, g) && |f| == |g|
    ensures f == g
  {
    assert f == ("." + f)[1..] && g == ("." + g)[1..];
  }

  lemma ShorterIsShallower(host: string, f: string, g: string)
    requires Under(host, f) && Under(host, g) && |f| < |g|
    ensures Count(f, '.') < Count(g, '.')
  {
    SuffixesNest(host, "." + f, "." + g);
    assert HasSuffix(g, "." + f) by {
      assert g[|g| - |"." + f|..] == ("." + g)[|g| + 1 - |"." + f|..];
    }
    var x := TrimSuffix(g, "." + f);
    SuffixSplit(g, "." + f);
    CountConcat(x, "." + f, '.');
    CountConcat(".", f, '.');
  }

  /** An allocation serves a host on a port exactly when one of its entries answers. */
  lemma EntriesServe(a: Allocation, host: string, port: int)
    requires a.state == Active
    ensures Serves(a, host, port) <==> exists e :: e in EntriesOf(a) && Answers(e, host, port)
  {
    if Serves(a, host, port) {
      assert a.spec.routes != [];
      if ExactName(a) == Some(host) {
        assert EntriesOf(a)[0] in EntriesOf(a) && Answers(EntriesOf(a)[0], host, port);
      } else {
        var e := EntriesOf(a)[|EntriesOf(a)| - 1];
        assert e in EntriesOf(a) && Answers(e, host, port);
      }
    }
  }

  /** The name by which an allocation serves a host. */
  function MatchedName(a: Allocation, host: string): string {
    if ExactName(a) == Some(host) || WildcardBase(a) == None then host else WildcardBase(a).value
  }

  /** An entry that answers says how close its allocation is: exact entries fully, wildcard ones by their base. */
  lemma EntryCloseness(e: Entry, host: string, port: int)
    requires e in EntriesOf(e.alloc) && Answers(e, host, port)
    ensures Closeness(e.alloc, host) == |e.fqdn| && MatchedName(e.alloc, host) == e.fqdn
    ensures e.wildcard <==> |e.fqdn| < |host|
  {
    if e.wildcard {
      assert |"." + e.fqdn| <= |host|;
    }
  }

  lemma OrderIsCloseness(e: Entry, f: Entry, host: string, port: int)
    requires e in EntriesOf(e.alloc) && f in EntriesOf(f.alloc)
    requires Answers(e, host, port) && Answers(f, host, port) && !Less(f, e)
    ensures |f.fqdn| <= |e.fqdn| && (|f.fqdn| == |e.fqdn| ==> f.fqdn == e.fqdn)
  {
    EntryCloseness(e, host, port);
    EntryCloseness(f, host, port);
    if e.wildcard && f.wildcard {
      DepthIsLength(host, e.fqdn, f.fqdn);
    }
  }

  ghost predicate FirstAnswer(es: seq<Entry>, i: nat, host: string, port: int)
    requires i < |es|
  {
    Answers(es[i], host, port) && forall j :: 0 <= j < i ==> !Answers(es[j], host, port)
  }

  /** `a` serves the host at least as closely as `b`, and if no more closely then by the same name. */
  ghost predicate Closest(a: Allocation, b: Allocation, host: string, port: int) {
    && Serves(a, host, port) && Closeness(b, host) <= Closeness(a, host)
    && (Closeness(b, host) == Closeness(a, host) ==> MatchedName(b, host) == MatchedName(a, host))
  }

  /** The sorted scan refines the unsorted meaning: it hits exactly when an active row serves the host, the
      winner is a closest row (exact first, then longest base), and rows tied with it serve by the same name. */
  lemma ScanRefinesServes(es: seq<Entry>, rows: map<Key, Allocation>, host: string, port: int)
    requires Built(es, rows)
    ensures (exists e :: e in es && Answers(e, host, port)) <==> (exists k <- rows :: Serves(rows[k], host, port))
    ensures forall i, k ::
              (0 <= i < |es| && FirstAnswer(es, i, host, port) && k in rows && Serves(rows[k], host, port)) ==>
                Closest(es[i].alloc, rows[k], host, port)
  {
    hide Answers, Serves, EntriesOf, Closeness, MatchedName, Less;
    forall k | k in rows && rows[k].state == Active
      ensures Serves(rows[k], host, port) <==> exists e :: e in EntriesOf(rows[k]) && Answers(e, host, port)
    {
      EntriesServe(rows[k], host, port);
    }
    forall e | e in es
      ensures exists k <- rows :: rows[k] == e.alloc && e.alloc.state == Active && e in EntriesOf(e.alloc)
    {
      var k :| k in rows && rows[k].state == Active && e in EntriesOf(rows[k]);
      EntryOwner(rows[k], e);
    }
    forall k | k in rows && Serves(rows[k], host, port)
      ensures rows[k].state == Active
    {
      ServesActive(rows[k], host, port);
    }
    forall i, k | 0 <= i < |es| && FirstAnswer(es, i, host, port) && k in rows && Serves(rows[k], host, port)
      ensures Closest(es[i].alloc, rows[k], host, port)
    {
      assert es[i] in es;
      EntriesServe(es[i].alloc, host, port);
      var f :| f in EntriesOf(rows[k]) && Answers(f, host, port);
      EntryOwner(rows[k], f);
      assert f in es;
      var j :| 0 <= j < |es| && es[j] == f;
      if j == i {
        SelfOrder(f);
      }
      OrderIsCloseness(es[i], f, host, port);
      EntryCloseness(es[i], host, port);
      EntryCloseness(f, host, port);
    }
  }

  lemma EntryOwner(a: Allocation, e: Entry)
    requires e in EntriesOf(a)
    ensures e.alloc == a
  {
  }

  lemma ServesActive(a: Allocation, host: string, port: int)
    requires Serves(a, host, port)
    ensures a.state == Active
  {
  }

  lemma SelfOrder(e: Entry)
    ensures !Less(e, e)
  {
  }

  class Table {
    var entries: seq<Entry>

    constructor ()
      ensures entries == []
    {
      entries := [];
    }

    /** Any sort will do: only the order of the comparison is promised. */
    method SortEntries(es: seq<Entry>) returns (r: seq<Entry>)
      ensures Sorted(r) && multiset(r) == multiset(es)
    {
      r := [];
      for i := 0 to |es|
        invariant Sorted(r) && multiset(r) == multiset(es[..i])
      {
        r := InsertSorted(r, es[i]);
        assert es[..i + 1] == es[..i] + [es[i]];
      }
      assert es[..|es|] == es;
    }

    method InsertSorted(r: seq<Entry>, e: Entry) returns (s: seq<Entry>)
      requires Sorted(r)
      ensures Sorted(s) && multiset(s) == multiset(r) + multiset{e}
    {
      var i := 0;
      while i < |r| && !Less(e, r[i])
        invariant i <= |r|
        invariant forall j :: 0 <= j < i ==> !Less(e, r[j])
      {
        i := i + 1;
      }
      s := r[..i] + [e] + r[i..];
      assert r == r[..i] + r[i..];
      forall j | i <= j < |r|
        ensures !Less(r[j], e)
      {
        assert !Less(r[j], r[i]);
      }
    }

    method BuildEntries(allocs: seq<Allocation>) returns (es: seq<Entry>)
      ensures forall e :: e in es <==> exists j :: 0 <= j < |allocs| && e in EntriesOf(allocs[j])
    {
      es := [];
      for i := 0 to |allocs|
        invariant forall e :: e in es <==> exists j :: 0 <= j < i && e in EntriesOf(allocs[j])
      {
        var a := allocs[i];
        ghost var before := es;
        if a.spec.routes != [] {
          var name, wildcardLabel := a.name, HasPrefix(a.name, "*.");
          if wildcardLabel {
            name := TrimPrefix(name, "*.");
          }
          var fqdn := Fqdn(name, a.zone);
          var e := Entry(fqdn, wildcardLabel, Count(fqdn, '.'), a);
          es := es + [e];
          if !wildcardLabel && a.spec.wildcard {
            es := es + [Entry(fqdn, true, e.depth, a)];
          }
        }
        assert es == before + EntriesOf(a);
      }
    }

    /** Active rows with routes become entries; the table is swapped whole. */
    method Rebuild(store: Registry.Store)
      requires Keyed(store.rows)
      modifies this
      ensures Built(entries, store.rows)
    {
      var allocs := store.ListAllocations(Filter(None, Some(Active), None, false));
      var es := BuildEntries(allocs);
      var sorted := SortEntries(es);
      forall e
        ensures e in sorted <==> exists k <- store.rows ::
                  store.rows[k].state == Active && e in EntriesOf(store.rows[k])
      {
        hide EntriesOf;
        assert e in sorted <==> e in multiset(sorted);
        assert e in es <==> e in multiset(es);
        if e in es {
          var j :| 0 <= j < |allocs| && e in EntriesOf(allocs[j]);
          assert allocs[j] in allocs;
        }
        if exists k <- store.rows :: store.rows[k].state == Active && e in EntriesOf(store.rows[k]) {
          var k :| k in store.rows && store.rows[k].state == Active && e in EntriesOf(store.rows[k]);
          assert store.rows[k] in allocs;
        }
      }
      entries := sorted;
    }

    /** The backend of one allocation for a listener: the scan keeps the last default as a fallback. */
    static method RouteOn(routes: seq<Route>, port: int) returns (r: Option<Backend>)
      ensures r == RouteFor(routes, port)
      ensures forall i :: 0 <= i < |routes| && Chosen(Listeners(routes), port, i) ==> r == Some(routes[i].backend)
      ensures r.Some? ==> exists i :: 0 <= i < |routes| && Chosen(Listeners(routes), port, i)
    {
      hide Chosen, Listeners;
      RouteForMeans(routes, port);
      var fallback: Option<Backend> := None;
      for i := 0 to |routes|
        invariant FirstOn(routes, port) == FirstOn(routes[i..], port)
        invariant fallback == if port == 443 || port == 80 then LastDefault(routes[..i]) else None
      {
        if routes[i].listen == port {
          return Some(routes[i].backend);
        }
        assert routes[i..][1..] == routes[i + 1..];
        assert routes[..i + 1][..i] == routes[..i];
        if routes[i].listen == 0 && (port == 443 || port == 80) {
          fallback := Some(routes[i].backend);
        }
      }
      assert routes[..|routes|] == routes;
      return fallback;
    }

    /** The first entry that answers; `ScanRefinesServes` says what that means for the registry. */
    method Resolve(raw: string, port: int) returns (r: Option<Target>)
      ensures r == None <==> forall e :: e in entries ==> !Answers(e, CleanHost(raw), port)
      ensures r == Lookup(entries, CleanHost(raw), port)
      ensures r.Some? ==> exists i :: 0 <= i < |entries| && FirstAnswer(entries, i, CleanHost(raw), port)
                                      && r == Some(Target(entries[i].alloc,
                                                          RouteFor(entries[i].alloc.spec.routes, port).value))
      ensures r.Some? ==> var routes := r.value.alloc.spec.routes;
                          exists i :: 0 <= i < |routes| && Chosen(Listeners(routes), port, i)
                                      && r.value.backend == routes[i].backend
    {
      hide Chosen, Listeners;
      var host := CleanHost(raw);
      LookupFirst(entries, host, port);
      for i := 0 to |entries|
        invariant forall j :: 0 <= j < i ==> !Answers(entries[j], host, port)
      {
        var e := entries[i];
        if e.wildcard {
          if !HasSuffix(host, "." + e.fqdn) {
            continue;
          }
        } else if host != e.fqdn {
          continue;
        }
        var b := RouteOn(e.alloc.spec.routes, port);
        if b.Some? {
          assert entries[i] in entries && Answers(entries[i], host, port);
          return Some(Target(e.alloc, b.value));
        }
      }
      return None;
    }
  }
}

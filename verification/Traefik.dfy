/** The Traefik writer: active rows with a service backend become managed routes. */
module Traefik {
  import opened Core
  import opened Text
  import opened DesiredState
  import Registry
  import Rec = Reconciler
  import Sh = Shadow
  import opened Routes

  const MIN_PRIORITY := 10

  datatype IrService = IrService(name: string, port: int)
  datatype IrRoute = IrRoute(rule: string, kind: string, priority: int, services: seq<IrService>)
  datatype IrSpec = IrSpec(entryPoints: seq<string>, routes: seq<IrRoute>)

  // ---- names

  predicate Safe(c: char) {
    'a' <= c <= 'z' || '0' <= c <= '9' || c == '-'
  }

  function SkipUnsafe(s: string): (r: string)
    ensures |r| <= |s|
  {
    if s == "" || Safe(s[0]) then s else SkipUnsafe(s[1..])
  }

  /** Every run of unsafe characters becomes one hyphen. */
  function Sanitized(s: string): string
    decreases |s|
  {
    if s == "" then ""
    else if Safe(s[0]) then [s[0]] + Sanitized(s[1..])
    else "-" + Sanitized(SkipUnsafe(s[1..]))
  }

  function TrimDashes(s: string): string
    decreases |s|
  {
    if s != "" && s[0] == '-' then TrimDashes(s[1..])
    else if s != "" && s[|s| - 1] == '-' then TrimDashes(s[..|s| - 1])
    else s
  }

  function Shorten(s: string): string {
    if |s| > 63 then s[..63] else s
  }

  function RouteName(zone: string, name: string): string {
    var l := if TrimPrefix(name, "*.") == "@" then "apex" else TrimPrefix(name, "*.");
    TrimDashes(Shorten("gerry-" + Sanitized(Lower(zone + "-" + l))))
  }

  lemma DotIsDash(b: string)
    requires b != "" && Safe(b[0])
    ensures Sanitized("." + b) == Sanitized("-" + b)
  {
    assert ("." + b)[1..] == b && ("-" + b)[1..] == b;
    assert SkipUnsafe(b) == b;
  }

  /** After a safe character only the sanitized form of the rest matters. */
  lemma {:induction false} SanitizedTail(a: string, t: string, u: string)
    requires a != "" && Safe(a[|a| - 1]) && Sanitized(t) == Sanitized(u)
    ensures Sanitized(a + t) == Sanitized(a + u)
    decreases |a|
  {
    hide Safe;
    assert (a + t)[1..] == a[1..] + t && (a + u)[1..] == a[1..] + u;
    if |a| == 1 {
      assert a[1..] + t == t && a[1..] + u == u;
    } else if Safe(a[0]) {
      SanitizedTail(a[1..], t, u);
    } else {
      SkipKeeps(a[1..], t);
      SkipKeeps(a[1..], u);
      SanitizedTail(SkipUnsafe(a[1..]), t, u);
    }
  }

  /** Skipping stops before the last character of a string that ends in a safe one. */
  lemma {:induction false} SkipKeeps(a: string, tail: string)
    requires a != "" && Safe(a[|a| - 1])
    ensures SkipUnsafe(a + tail) == SkipUnsafe(a) + tail && SkipUnsafe(a) != ""
    ensures SkipUnsafe(a)[|SkipUnsafe(a)| - 1] == a[|a| - 1]
  {
    if !Safe(a[0]) {
      assert (a + tail)[1..] == a[1..] + tail;
      SkipKeeps(a[1..], tail);
    }
  }

  /** A dot and a hyphen between safe characters look the same. */
  lemma DotOrDash(zone: string, a: string, b: string)
    requires a != "" && Safe(a[|a| - 1]) && b != "" && Safe(b[0])
    ensures Sanitized(Lower(zone + "-" + (a + "." + b))) == Sanitized(Lower(zone + "-" + (a + "-" + b)))
  {
    hide Sanitized;
    var l, t := Lower(zone + "-" + a), Lower(b);
    assert l[|l| - 1] == LowerChar(a[|a| - 1]) && t[0] == LowerChar(b[0]);
    assert Lower(zone + "-" + (a + "." + b)) == l + ("." + t);
    assert Lower(zone + "-" + (a + "-" + b)) == l + ("-" + t);
    DotIsDash(t);
    SanitizedTail(l, "." + t, "-" + t);
  }

  /** Route names are lossy: a label with a dot and the same label with a hyphen in its place share one name, in
      any zone. */
  lemma RouteNamesCollide(zone: string, a: string, b: string)
    requires a != "" && Safe(a[|a| - 1]) && b != "" && Safe(b[0]) && !HasPrefix(a + "." + b, "*.")
             && !HasPrefix(a + "-" + b, "*.")
    ensures a + "." + b != a + "-" + b && RouteName(zone, a + "." + b) == RouteName(zone, a + "-" + b)
  {
    hide Sanitized, Lower, TrimDashes, Shorten, Safe;
    assert (a + "." + b)[|a|] == '.' && (a + "-" + b)[|a|] == '-';
    DotOrDash(zone, a, b);
    assert |a + "." + b| > 1 && |a + "-" + b| > 1;
  }

  /** Whatever the zone and the label, the name is one that the cluster takes. */
  lemma RouteNameShape(zone: string, name: string)
    ensures var n := RouteName(zone, name);
            && |n| <= 63 && (forall i :: 0 <= i < |n| ==> 'a' <= n[i] <= 'z' || '0' <= n[i] <= '9' || n[i] == '-')
            && (n != "" ==> n[0] != '-' && n[|n| - 1] != '-')
  {
    hide Sanitized, TrimDashes;
    var l := if TrimPrefix(name, "*.") == "@" then "apex" else TrimPrefix(name, "*.");
    var clean := Sanitized(Lower(zone + "-" + l));
    SanitizedSafe(Lower(zone + "-" + l));
    TrimmedSafe(Shorten("gerry-" + clean));
  }

  lemma {:induction false} SanitizedSafe(s: string)
    ensures forall i :: 0 <= i < |Sanitized(s)| ==> Safe(Sanitized(s)[i])
    decreases |s|
  {
    if s != "" {
      SanitizedSafe(if Safe(s[0]) then s[1..] else SkipUnsafe(s[1..]));
    }
  }

  lemma {:induction false} TrimmedSafe(s: string)
    requires forall i :: 0 <= i < |s| ==> Safe(s[i])
    ensures var n := TrimDashes(s);
            && |n| <= |s| && (forall i :: 0 <= i < |n| ==> Safe(n[i]))
            && (n != "" ==> n[0] != '-' && n[|n| - 1] != '-')
    decreases |s|
  {
    if s != "" && s[0] == '-' {
      TrimmedSafe(s[1..]);
    } else if s != "" && s[|s| - 1] == '-' {
      TrimmedSafe(s[..|s| - 1]);
    }
  }

  /** The name of a short row whose zone and label are made of letters, digits, hyphens and dots with none beside
      another: both, with hyphens for dots. A star is dropped, and the zone itself is called "apex". */
  lemma RouteNameIs(zone: string, name: string)
    requires var l := if name == "@" || name == "*.@" then "apex" else if HasPrefix(name, "*.") then name[2..]
             else name;
             var s := zone + "-" + l;
             && |s| <= 57 && s[|s| - 1] != '-' && s[|s| - 1] != '.'
             && (forall i :: 0 <= i < |s| ==>
                   'a' <= s[i] <= 'z' || '0' <= s[i] <= '9' || s[i] == '-' || s[i] == '.')
             && forall i :: 0 < i < |s| ==> s[i - 1] != '.' || s[i] != '.'
    ensures var l := if name == "@" || name == "*.@" then "apex" else if HasPrefix(name, "*.") then name[2..] else name;
            RouteName(zone, name) == "gerry-" + Hyphened(zone + "-" + l)
  {
    hide Sanitized, TrimDashes;
    var l := if name == "@" || name == "*.@" then "apex" else if HasPrefix(name, "*.") then name[2..] else name;
    assert l == if TrimPrefix(name, "*.") == "@" then "apex" else TrimPrefix(name, "*.") by {
      assert HasPrefix(name, "*.") && name[2..] == "@" ==> name == "*.@";
    }
    var s := zone + "-" + l;
    LowerOfLower(s);
    SanitizedHyphened(s);
    NothingTrimmed("gerry-" + Hyphened(s));
  }

  function Hyphened(s: string): string {
    seq(|s|, i requires 0 <= i < |s| => if s[i] == '.' then '-' else s[i])
  }

  lemma {:induction false} SanitizedHyphened(s: string)
    requires forall i :: 0 <= i < |s| ==> Safe(s[i]) || s[i] == '.'
    requires forall i :: 0 < i < |s| ==> Safe(s[i - 1]) || Safe(s[i])
    ensures Sanitized(s) == Hyphened(s)
    decreases |s|
  {
    if s != "" {
      var rest := s[1..];
      assert forall i :: 0 <= i < |rest| ==> rest[i] == s[i + 1];
      assert rest != "" && !Safe(s[0]) ==> Safe(s[1]);
      SanitizedHyphened(rest);
      assert Hyphened(s) == [if s[0] == '.' then '-' else s[0]] + Hyphened(rest);
      assert !Safe(s[0]) ==> SkipUnsafe(rest) == rest;
    }
  }

  lemma NothingTrimmed(s: string)
    requires s != "" && s[0] != '-' && s[|s| - 1] != '-'
    ensures TrimDashes(s) == s
  {
  }

  // ---- what a row wants

  function FirstService(routes: seq<Route>): Option<Backend> {
    if routes == [] then None
    else if routes[0].backend.Service? then Some(routes[0].backend) else FirstService(routes[1..])
  }

  function EscapeDots(s: string): string {
    if s == "" then "" else (if s[0] == '.' then "\\." else [s[0]]) + EscapeDots(s[1..])
  }

  function Rule(a: Allocation): string {
    if a.spec.wildcard || HasPrefix(a.name, "*.") then
      var base := TrimPrefix(a.fqdn, "*.");
      "Host(`" + base + "`) || HostRegexp(`^[a-z0-9-]+\\." + EscapeDots(base) + "$`)"
    else "Host(`" + a.fqdn + "`)"
  }

  // ---- what a rule says

  /** A character that stands for itself in a rule. */
  predicate Literal(c: char) {
    c !in "\\`^$+*?()|[]{}"
  }

  predicate Literals(s: string) {
    forall i :: 0 <= i < |s| ==> Literal(s[i])
  }

  /** A regular expression of single characters: a backslash takes the next one as it is, and a dot is any. */
  predicate Spells(re: string, t: string) {
    if re == "" then t == ""
    else if re[0] == '\\' && |re| > 1 then t != "" && t[0] == re[1] && Spells(re[2..], t[1..])
    else t != "" && (re[0] == '.' || t[0] == re[0]) && Spells(re[1..], t[1..])
  }

  /** A label as the class of the rule's expression admits it. */
  predicate InClass(l: string) {
    l != "" && forall i :: 0 <= i < |l| ==> 'a' <= l[i] <= 'z' || '0' <= l[i] <= '9' || l[i] == '-'
  }

  /** The hosts that a rule admits, read from its text: a host by name, and perhaps one label in front of an
      expression. */
  ghost predicate Admits(rule: string, host: string) {
    || (exists name :: '`' !in name && rule == "Host(`" + name + "`)" && host == name)
    || (exists name, re :: '`' !in name && '`' !in re
                           && rule == "Host(`" + name + "`) || HostRegexp(`^[a-z0-9-]+\\." + re + "$`)"
                           && (host == name
                               || exists l, t :: InClass(l) && host == l + ("." + t) && Spells(re, t)))
  }

  /** The base of a row's rule: its name, without the star. */
  function Base(a: Allocation): string {
    if (a.spec.wildcard || (|a.name| >= 2 && a.name[..2] == "*.")) && |a.fqdn| >= 2 && a.fqdn[..2] == "*."
    then a.fqdn[2..] else a.fqdn
  }

  /** A row's rule admits its own name and, for a wildcard or a starred label, the hosts one label below; nothing
      else. */
  lemma RuleMeans(a: Allocation, host: string)
    requires Literals(Base(a))
    ensures Admits(Rule(a), host) <==>
              || host == Base(a)
              || ((a.spec.wildcard || (|a.name| >= 2 && a.name[..2] == "*."))
                  && exists l :: l != "" && host == l + ("." + Base(a))
                                 && forall i ::
                                      0 <= i < |l| ==> 'a' <= l[i] <= 'z' || '0' <= l[i] <= '9' || l[i] == '-')
  {
    hide Spells, EscapeDots;
    var base := Base(a);
    assert '`' !in base by {
      assert forall i :: 0 <= i < |base| ==> Literal(base[i]);
    }
    if a.spec.wildcard || HasPrefix(a.name, "*.") {
      assert TrimPrefix(a.fqdn, "*.") == base;
      WildcardRule(base, host);
    } else {
      ExactRule(base, host);
    }
  }

  /** What stands before the first quote. */
  lemma Quoted(head: string, a: string, x: string, b: string, y: string)
    requires '`' !in a && '`' !in b && x != "" && y != "" && x[0] == '`' && y[0] == '`'
    requires (head + a) + x == (head + b) + y
    ensures a == b && x == y
  {
    var whole := (head + a) + x;
    assert whole[|head|..] == a + x && whole[|head|..] == b + y;
    assert x == ['`'] + x[1..] && y == ['`'] + y[1..];
    assert a + x == a + ['`'] + x[1..] && b + y == b + ['`'] + y[1..];
    SplitsOnce(a, x[1..], b, y[1..], '`');
  }

  const MIDDLE := "`) || HostRegexp(`^[a-z0-9-]+\\."

  lemma ExactRule(base: string, host: string)
    requires '`' !in base
    ensures Admits("Host(`" + base + "`)", host) <==> host == base
  {
    var rule := "Host(`" + base + "`)";
    forall name | '`' !in name && rule == "Host(`" + name + "`)"
      ensures name == base
    {
      Quoted("Host(`", base, "`)", name, "`)");
    }
    forall name, re | '`' !in name && rule == "Host(`" + name + MIDDLE + re + "$`)"
      ensures false
    {
      assert rule == ("Host(`" + name) + (MIDDLE + re + "$`)");
      Quoted("Host(`", base, "`)", name, MIDDLE + re + "$`)");
    }
  }

  lemma WildcardRule(base: string, host: string)
    requires Literals(base) && '`' !in base
    ensures Admits("Host(`" + base + MIDDLE + EscapeDots(base) + "$`)", host) <==>
              host == base || exists l :: InClass(l) && host == l + ("." + base)
  {
    hide InClass;
    var re := EscapeDots(base);
    EscapedQuotes(base);
    var rule := "Host(`" + base + MIDDLE + re + "$`)";
    forall name: string, other: string
      ensures '`' !in name ==> rule != "Host(`" + name + "`)"
      ensures '`' !in name && '`' !in other && rule == "Host(`" + name + MIDDLE + other + "$`)" ==>
                name == base && other == re
    {
      if '`' !in name {
        WildcardReads(base, re, name, other);
      }
    }
    forall t
      ensures Spells(re, t) <==> t == base
    {
      EscapedSpells(base, t);
    }
    if l :| InClass(l) && host == l + ("." + base) {
      assert Spells(re, base);
    }
  }

  lemma WildcardReads(base: string, re: string, name: string, other: string)
    requires '`' !in base && '`' !in name
    ensures var rule := "Host(`" + base + MIDDLE + re + "$`)";
            && rule != "Host(`" + name + "`)"
            && (rule == "Host(`" + name + MIDDLE + other + "$`)" ==> name == base && other == re)
  {
    var rule, tail := "Host(`" + base + MIDDLE + re + "$`)", MIDDLE + re + "$`)";
    assert rule == ("Host(`" + base) + tail;
    if rule == "Host(`" + name + "`)" {
      Quoted("Host(`", base, tail, name, "`)");
    }
    if rule == "Host(`" + name + MIDDLE + other + "$`)" {
      var last := MIDDLE + other + "$`)";
      assert rule == ("Host(`" + name) + last;
      Quoted("Host(`", base, tail, name, last);
      assert re == tail[|MIDDLE|..|tail| - 3] && other == last[|MIDDLE|..|last| - 3];
    }
  }

  lemma {:induction false} EscapedQuotes(s: string)
    requires '`' !in s
    ensures '`' !in EscapeDots(s)
  {
    if s != "" {
      assert s == [s[0]] + s[1..];
      EscapedQuotes(s[1..]);
    }
  }

  lemma {:induction false} EscapedSpells(s: string, t: string)
    requires Literals(s)
    ensures Spells(EscapeDots(s), t) <==> s == t
  {
    if s != "" {
      var re, rest := EscapeDots(s), EscapeDots(s[1..]);
      assert Literal(s[0]);
      if t != "" {
        EscapedSpells(s[1..], t[1..]);
        assert s == [s[0]] + s[1..] && t == [t[0]] + t[1..];
      }
      if s[0] == '.' {
        assert re[2..] == rest;
      } else {
        assert re[1..] == rest;
      }
    }
  }

  /** The managed route of a row: nothing without a service backend. */
  function Desired(a: Allocation, entryPoints: seq<string>): Option<Want<IrSpec>> {
    match FirstService(a.spec.routes)
    case Some(Service(ns, name, port)) =>
      Some(Want(ns + "/" + RouteName(a.zone, a.name),
                IrSpec(if entryPoints == [] then ["websecure"] else entryPoints,
                       [IrRoute(Rule(a), "Rule", if a.spec.priority < MIN_PRIORITY then MIN_PRIORITY
                                else a.spec.priority,
                                [IrService(name, port)])])))
    case _ => None
  }

  /** The first route to a service in the cluster. */
  ghost predicate Backing(a: Allocation, i: nat) {
    i < |a.spec.routes| && a.spec.routes[i].backend.Service?
    && forall j :: 0 <= j < i ==> !a.spec.routes[j].backend.Service?
  }

  lemma {:induction false} FirstServiceIs(routes: seq<Route>)
    ensures FirstService(routes).Some? <==> exists i :: 0 <= i < |routes| && routes[i].backend.Service?
    ensures FirstService(routes).Some? ==>
              exists i :: 0 <= i < |routes| && routes[i].backend.Service?
                          && (forall j :: 0 <= j < i ==> !routes[j].backend.Service?)
                          && FirstService(routes) == Some(routes[i].backend)
  {
    if routes != [] && !routes[0].backend.Service? {
      var rest := routes[1..];
      FirstServiceIs(rest);
      assert forall i :: 0 <= i < |rest| ==> rest[i] == routes[i + 1];
      if i :| 0 <= i < |rest| && rest[i].backend.Service? && (forall j :: 0 <= j < i ==> !rest[j].backend.Service?)
              && FirstService(rest) == Some(rest[i].backend) {
        assert routes[i + 1].backend.Service?;
        forall j | 0 <= j < i + 1
          ensures !routes[j].backend.Service?
        {
          assert j > 0 ==> rest[j - 1] == routes[j];
        }
      }
      if i :| 0 <= i < |routes| && routes[i].backend.Service? {
        assert rest[i - 1].backend.Service?;
      }
    }
  }

  /** What a row wants, by its columns: one route to its first service backend, with a priority that is at least
      the minimum, on the given entry points or the secure one. */
  lemma DesiredMeans(a: Allocation, eps: seq<string>)
    ensures Desired(a, eps).Some? <==> exists i: nat :: Backing(a, i)
    ensures forall i: nat :: Backing(a, i) ==>
              var b := a.spec.routes[i].backend;
              Desired(a, eps) == Some(Want(b.namespace + "/" + RouteName(a.zone, a.name),
                                           IrSpec(if |eps| == 0 then ["websecure"] else eps,
                                                  [IrRoute(Rule(a), "Rule",
                                                           if a.spec.priority < 10 then 10 else a.spec.priority,
                                                           [IrService(b.name, b.port)])])))
  {
    hide RouteName, Rule;
    FirstServiceIs(a.spec.routes);
    if FirstService(a.spec.routes).Some? {
      var i :| 0 <= i < |a.spec.routes| && a.spec.routes[i].backend.Service?
               && (forall j :: 0 <= j < i ==> !a.spec.routes[j].backend.Service?)
               && FirstService(a.spec.routes) == Some(a.spec.routes[i].backend);
      assert Backing(a, i);
      forall j: nat | Backing(a, j)
        ensures j == i
      {
      }
    } else {
      forall j: nat
        ensures !Backing(a, j)
      {
      }
    }
  }

  function Wish(eps: seq<string>): Allocation -> Option<Want<IrSpec>> {
    a => Desired(a, eps)
  }

  // ---- drift

  function Kindless(r: IrRoute): IrRoute {
    r.(kind := "")
  }

  /** Equal but for the routes' kind: a changed kind is not drift. */
  predicate SameSpec(a: IrSpec, b: IrSpec) {
    a.entryPoints == b.entryPoints && |a.routes| == |b.routes|
    && forall i :: 0 <= i < |a.routes| ==> Kindless(a.routes[i]) == Kindless(b.routes[i])
  }

  method SpecEqual(a: IrSpec, b: IrSpec) returns (equal: bool)
    ensures equal <==> SameSpec(a, b)
  {
    if |a.routes| != |b.routes| || |a.entryPoints| != |b.entryPoints| {
      return false;
    }
    for i := 0 to |a.entryPoints|
      invariant a.entryPoints[..i] == b.entryPoints[..i]
    {
      if a.entryPoints[i] != b.entryPoints[i] {
        return false;
      }
    }
    assert a.entryPoints[..|a.entryPoints|] == a.entryPoints && b.entryPoints[..|a.entryPoints|] == b.entryPoints;
    for i := 0 to |a.routes|
      invariant forall j :: 0 <= j < i ==> Kindless(a.routes[j]) == Kindless(b.routes[j])
    {
      var ra, rb := a.routes[i], b.routes[i];
      if ra.rule != rb.rule || ra.priority != rb.priority || |ra.services| != |rb.services| {
        return false;
      }
      for j := 0 to |ra.services|
        invariant ra.services[..j] == rb.services[..j]
      {
        if ra.services[j] != rb.services[j] {
          return false;
        }
      }
      assert ra.services[..|ra.services|] == ra.services && rb.services[..|ra.services|] == rb.services;
    }
    return true;
  }

  // ---- the pass

  function PassOf(desired: map<string, IrSpec>, fails: Rec.Write -> bool): Rec.Pass<IrSpec> {
    Rec.Pass(desired, (a, b) => SameSpec(a, b), name => name, fails)
  }

  /** One pass: the registry's desired map, then the shared algorithm. */
  method Reconcile(store: Registry.Store, cluster: Rec.Cluster<IrSpec>, zones: seq<string>, eps: seq<string>,
                   fails: Rec.Write -> bool)
    returns (desired: map<string, IrSpec>)
    requires Keyed(store.rows)
    modifies cluster
    ensures Wanted(store.rows, zones, Wish(eps), desired)
    ensures Rec.Passed(old(cluster.objects), PassOf(desired, fails), cluster.objects)
  {
    desired := BuildDesired(store, zones, Wish(eps));
    cluster.Reconcile(PassOf(desired, fails));
  }

  /** After a pass without failures, a row in scope with a route name of its own, not held by a hand-written
      object, has a managed route with its spec, and further passes leave the cluster alone. */
  lemma RowsAreRouted(rows: map<Key, Allocation>, zones: seq<string>, eps: seq<string>, desired: map<string, IrSpec>,
                      k: Key,
                      before: map<string, Rec.Obj<IrSpec>>, p: Rec.Pass<IrSpec>, after: map<string, Rec.Obj<IrSpec>>,
                      q: Rec.Pass<IrSpec>, later: map<string, Rec.Obj<IrSpec>>)
    requires Wanted(rows, zones, Wish(eps), desired) && k in rows && InScope(rows[k], zones)
             && Desired(rows[k], eps).Some?
    requires forall l <- rows :: l != k && InScope(rows[l], zones) && Desired(rows[l], eps).Some? ==>
               Desired(rows[l], eps).value.key != Desired(rows[k], eps).value.key
    requires p == PassOf(desired, p.fails) && q == p.(fails := q.fails) && (forall w :: !p.fails(w))
    requires forall id <- before :: before[id].name == id
    requires Rec.Passed(before, p, after) && Rec.Passed(after, q, later)
    ensures var want := Desired(rows[k], eps).value;
            || (want.key in before && !before[want.key].marked)
            || (want.key in after && after[want.key].marked && SameSpec(after[want.key].spec, want.spec))
    ensures later == after
  {
    hide Desired, InScope, Rec.Passed, SameSpec;
    WantedAlone(rows, zones, Wish(eps), desired, k);
    PassFacts(desired, p);
    Rec.ClusterSettles(before, p, after, q, later);
  }

  /** What such a row's managed route says: it goes to the row's first service backend, above all else of a lower
      priority, and admits the row's name and, for a wildcard or a starred label, the hosts one label below, and no
      other. */
  lemma RoutedRow(a: Allocation, eps: seq<string>, i: nat, spec: IrSpec, host: string)
    requires Backing(a, i) && Literals(Base(a)) && Desired(a, eps).Some? && SameSpec(spec, Desired(a, eps).value.spec)
    ensures spec.entryPoints == (if |eps| == 0 then ["websecure"] else eps) && |spec.routes| == 1
    ensures spec.routes[0].services == [IrService(a.spec.routes[i].backend.name, a.spec.routes[i].backend.port)]
    ensures spec.routes[0].priority >= 10 && spec.routes[0].priority >= a.spec.priority
            && (spec.routes[0].priority == 10 || spec.routes[0].priority == a.spec.priority)
    ensures Admits(spec.routes[0].rule, host) <==>
              || host == Base(a)
              || ((a.spec.wildcard || (|a.name| >= 2 && a.name[..2] == "*."))
                  && exists l :: l != "" && host == l + ("." + Base(a))
                                 && forall i ::
                                      0 <= i < |l| ==> 'a' <= l[i] <= 'z' || '0' <= l[i] <= '9' || l[i] == '-')
  {
    hide Admits, Rule, Literals, InClass, Desired;
    DesiredMeans(a, eps);
    RuleMeans(a, host);
    assert Kindless(spec.routes[0]) == Kindless(Desired(a, eps).value.spec.routes[0]);
  }

  lemma PassFacts(desired: map<string, IrSpec>, p: Rec.Pass<IrSpec>)
    requires p == PassOf(desired, p.fails)
    ensures Rec.Reflexive(p) && Rec.OwnIds(p) && (forall name :: p.ids(name) == name) && p.desired == desired
    ensures forall a, b :: p.same(a, b) <==> SameSpec(a, b)
  {
  }

  // ---- priorities

  /** The cluster's view of a route that the writer made. */
  predicate Sights(r: ObservedRoute, a: Allocation, eps: seq<string>) {
    Desired(a, eps).Some? && r.priority == Desired(a, eps).value.spec.routes[0].priority
  }

  /** When every catch-all over the zone stays below the minimum priority, no managed route is ever reported; a
      managed route that is reported names a catch-all that reaches the minimum. */
  lemma ManagedNotShadowed(zone: string, routes: seq<ObservedRoute>, ca: ObservedRoute, r: ObservedRoute,
                           h: HostPattern,
                           a: Allocation, eps: seq<string>)
    requires Sights(r, a, eps) && Sh.Shadowed(zone, routes, ca, r, h)
    ensures Sh.CatchesAll(ca, zone) && ca in routes && ca.EffectivePriority() >= MIN_PRIORITY
            && ca.EffectivePriority() >= a.spec.priority
  {
  }
}

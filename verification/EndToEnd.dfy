/** From a manifest to the proxy: a declared hostname resolves to its own service's backend. */
module EndToEnd {
  import opened Core
  import opened Text
  import opened Apply
  import opened ApplyTheorems
  import M = Manifest
  import N = Normalize
  import P = Proxy

  // ---- who wins a host

  /** The row under `k` serves the host, and any other row that does serves it less closely. */
  ghost predicate Winner(rows: map<Key, Allocation>, k: Key, host: string, port: int) {
    && k in rows && P.Serves(rows[k], host, port)
    && forall l <- rows ::
         l != k && P.Serves(rows[l], host, port) ==> P.Closeness(rows[l], host) < P.Closeness(rows[k], host)
  }

  /** Some entry of the table answers, and the first to do so belongs to the row under `k`. */
  ghost predicate Resolves(es: seq<P.Entry>, rows: map<Key, Allocation>, k: Key, host: string, port: int) {
    k in rows && exists i :: 0 <= i < |es| && P.FirstAnswer(es, i, host, port) && es[i].alloc == rows[k]
  }

  lemma {:induction false} FirstExists(es: seq<P.Entry>, n: nat, host: string, port: int) returns (i: nat)
    requires n < |es| && P.Answers(es[n], host, port)
    ensures i < |es| && P.FirstAnswer(es, i, host, port)
  {
    i := 0;
    while !P.Answers(es[i], host, port)
      invariant i <= n && forall j :: 0 <= j < i ==> !P.Answers(es[j], host, port)
      decreases n - i
    {
      i := i + 1;
    }
  }

  lemma WinnerResolves(es: seq<P.Entry>, rows: map<Key, Allocation>, k: Key, host: string, port: int)
    requires P.Built(es, rows) && Keyed(rows) && Winner(rows, k, host, port)
    ensures Resolves(es, rows, k, host, port)
  {
    hide P.Answers, P.Serves, P.EntriesOf, P.Closeness, P.MatchedName, P.Sorted;
    P.ScanRefinesServes(es, rows, host, port);
    var e :| e in es && P.Answers(e, host, port);
    var n :| 0 <= n < |es| && es[n] == e;
    var i := FirstExists(es, n, host, port);
    assert P.Closest(es[i].alloc, rows[k], host, port);
    assert es[i] in es;
    var l :| l in rows && rows[l].state == Active && es[i] in P.EntriesOf(rows[l]);
    P.EntryOwner(rows[l], es[i]);
  }

  /** The row that a lookup finds serves the host. */
  lemma FoundServes(es: seq<P.Entry>, rows: map<Key, Allocation>, k: Key, host: string, port: int)
    requires P.Built(es, rows) && Resolves(es, rows, k, host, port)
    ensures P.Serves(rows[k], host, port)
  {
    hide P.Answers, P.Serves, P.EntriesOf, P.Sorted;
    var i :| 0 <= i < |es| && P.FirstAnswer(es, i, host, port) && es[i].alloc == rows[k];
    assert es[i] in es;
    var l :| l in rows && rows[l].state == Active && es[i] in P.EntriesOf(rows[l]);
    P.EntryOwner(rows[l], es[i]);
    P.EntriesServe(rows[k], host, port);
  }

  /** What a lookup finds: a row, and the backend of its route for the port. */
  lemma FoundIsResolved(es: seq<P.Entry>, rows: map<Key, Allocation>, k: Key, host: string, port: int)
    requires k in rows
    ensures var found := P.Lookup(es, host, port);
            && (found.Some? && found.value.alloc == rows[k] <==> Resolves(es, rows, k, host, port))
            && (Resolves(es, rows, k, host, port) ==>
                  P.RouteFor(rows[k].spec.routes, port) == Some(found.value.backend))
  {
    hide P.RouteFor, P.Matches;
    P.LookupFirst(es, host, port);
  }

  // ---- exact hosts

  /** No other zone has a row by this name, and every label of the zone is a label. */
  ghost predicate Unshared(rows: map<Key, Allocation>, zone: string, host: string) {
    forall k <- rows :: (k.zone != zone ==> P.ExactName(rows[k]) != Some(host)) && (k.zone == zone ==> k.name != "")
  }

  lemma ExactWins(rows: map<Key, Allocation>, k: Key, host: string, port: int)
    requires Keyed(rows) && k in rows && Unshared(rows, k.zone, host)
    requires rows[k].state == Active && P.ExactName(rows[k]) == Some(host)
             && P.RouteFor(rows[k].spec.routes, port).Some?
    ensures Winner(rows, k, host, port)
  {
    hide P.RouteFor;
    forall l | l in rows && l != k && P.Serves(rows[l], host, port)
      ensures P.Closeness(rows[l], host) < P.Closeness(rows[k], host)
    {
      if P.ExactName(rows[l]) == Some(host) {
        FqdnInjective(l.name, k.name, k.zone);
        assert false;
      }
      assert P.WildcardBase(rows[l]).Some? && P.Under(host, P.WildcardBase(rows[l]).value);
      assert |"." + P.WildcardBase(rows[l]).value| <= |host|;
    }
  }

  /** What a manifest writes for a host, and the name its label stands for, are the same; "@." before the zone is
      the exception. */
  lemma LabelOfHost(zone: string, written: string)
    requires M.LabelFor(zone, written).Some? && !M.LabelFor(zone, written).value.1
    requires M.LabelFor(zone, written).value.0 != ""
    ensures var host, name := Lower(TrimSpace(written)), M.LabelFor(zone, written).value.0;
            && (Fqdn(name, zone) == host <==> host != "@." + zone) && !HasPrefix(name, "*.")
  {
    var host, name := Lower(TrimSpace(written)), M.LabelFor(zone, written).value.0;
    if host != zone {
      SuffixSplit(host, "." + zone);
      assert host == name + ("." + zone) == name + "." + zone;
    }
  }

  /** The claim behind a declared hostname. */
  lemma ClaimOf(m: M.Manifest, env: M.Resolver, claims: seq<M.Claim>, service: string, i: nat) returns (c: M.Claim)
    requires M.Compiled(m, env, claims, m.services.Keys) && !M.Defective(m, env)
    requires M.Routed(m, service) && i < |m.services[service].hostnames|
    ensures c in claims && c.zone == m.zone && M.LabelFor(m.zone, m.services[service].hostnames[i]).Some?
    ensures c.name == M.LabelFor(m.zone, m.services[service].hostnames[i]).value.0
    ensures M.RoutesOf(m.services[service], m.OwnerRef(service), env).Some?
    ensures c.spec.routes == M.RoutesOf(m.services[service], m.OwnerRef(service), env).value
    ensures M.LabelFor(m.zone, m.services[service].hostnames[i]).value.1 ==> c.spec.wildcard
  {
    hide M.RoutesOf, M.LabelFor;
    assert M.InZone(m.zone, m.services[service]);
    var name := M.LabelFor(m.zone, m.services[service].hostnames[i]).value.0;
    assert M.Declares(m.zone, m.services[service], name);
    c :| c in claims && c.service == service && c.name == name;
  }

  /** The row of a claim by a label in normal form after a successful run: its spec, and active unless a row that
      was not active was taken over. */
  lemma RowOf(x: Run, c: M.Claim)
    requires Regular(x) && x.reply.Applied? && c in x.claims && Plainly(x.u, c)
    ensures Keyed(x.after.rows) && KeyFor(c) in x.after.rows && x.after.rows[KeyFor(c)].spec == c.spec
    ensures x.after.rows[KeyFor(c)].state == Active
            <==> (KeyFor(c) in x.before.rows ==> x.before.rows[KeyFor(c)].state == Active)
  {
    hide M.Compiled, M.Accepted, Final, ValidRows, Replied, Landing, Plainly;
    RunFinal(x);
    ApplyExact(x);
    PlainlySettled(x, c);
    LandingValid(x);
    FinalValid(x);
    DeclaredStays(x, c);
    ValidKeyed(x.after.rows, x.after.nextId);
  }

  /** What precedes the zone in a declared hostname never reads like a port, so only the zone's spelling matters. */
  lemma CleanDeclared(name: string, zone: string, u: N.Unicode)
    requires N.Normal(name, Platform, u) == N.Ok(name) && zone != "" && IsLower(zone)
    ensures P.CleanHost(Fqdn(name, zone)) == Fqdn(name, zone) <==> P.Plain(zone)
    ensures |P.CleanHost(Fqdn(name, zone))| <= |Fqdn(name, zone)|
  {
    hide P.Plain, P.CleanHost, N.Normal, TrimSuffix;
    NormalNonempty(name, u);
    N.LabelChars(name, Platform, u);
    var prefix := if name == "@" then "" else name + ".";
    assert prefix + zone == Fqdn(name, zone);
    PrefixChars(name);
    P.CleanIffPlain(prefix, zone);
    CleanNoLonger(Fqdn(name, zone));
  }

  lemma PrefixChars(name: string)
    requires forall i :: 0 <= i < |name| ==> N.LabelChar(name[i])
    ensures IsLower(name + ".") && ':' !in name + "." && ']' !in name + "."
  {
  }

  lemma CleanNoLonger(host: string)
    ensures |P.CleanHost(host)| <= |host|
  {
    P.CleanShortens(host);
  }

  lemma UnderIsLonger(host: string, base: string)
    ensures P.Under(host, base) ==> |base| < |host|
  {
  }

  /** The row of an exact hostname serves what is looked up for it in a plain zone only. */
  lemma ServesIff(a: Allocation, host: string, port: int)
    requires P.ExactName(a) == Some(host) && |P.CleanHost(host)| <= |host|
    ensures P.Serves(a, P.CleanHost(host), port)
            <==> P.CleanHost(host) == host && a.state == Active && P.RouteFor(a.spec.routes, port).Some?
  {
    hide P.RouteFor, P.CleanHost;
    UnderIsLonger(P.CleanHost(host), host);
  }

  /** A lookup finds the row that a run left under a key. */
  ghost predicate Found(x: Run, es: seq<P.Entry>, k: Key, looked: string, port: int) {
    var found := P.Lookup(es, looked, port);
    k in x.after.rows && found.Some? && found.value.alloc == x.after.rows[k]
  }

  ghost predicate SomeDeclared(x: Run, service: string, port: int)
    requires service in x.m.services
  {
    exists b :: Declared(x.m.services[service], x.m.OwnerRef(service), x.env, port, b)
  }

  /** The row under a key holds the service's routes. */
  predicate HoldsRoutes(x: Run, service: string, k: Key)
    requires service in x.m.services
  {
    var routes := M.RoutesOf(x.m.services[service], x.m.OwnerRef(service), x.env);
    k in x.after.rows && routes == Some(x.after.rows[k].spec.routes)
  }

  /** No inactive row was found under the label: taking a row over does not activate it. */
  predicate NoneInactive(x: Run, k: Key) {
    k in x.before.rows ==> x.before.rows[k].state == Active
  }

  /** The hostname's label is written in normal form. */
  predicate PlainLabel(x: Run, written: string) {
    M.LabelFor(x.m.zone, written).Some? ==>
      var name := M.LabelFor(x.m.zone, written).value.0;
      N.Normal(name, Platform, x.u) == N.Ok(name)
  }

  /** What the proxy finds for a hostname that a service declares, looked up as it is written: the row under its label,
      and a backend the service declares for the port. It does so exactly when the zone is plain, no inactive row was
      found under the label, and the service declares a backend for the port. */
  lemma DeclaredHostResolves(x: Run, es: seq<P.Entry>, service: string, i: nat, port: int)
    requires Regular(x) && x.reply.Applied?
    requires P.Built(es, x.after.rows) && M.Routed(x.m, service) && i < |x.m.services[service].hostnames|
    requires PlainLabel(x, x.m.services[service].hostnames[i])
    requires var host := Lower(TrimSpace(x.m.services[service].hostnames[i]));
             !HasPrefix(host, "*.") && host != "@." + x.m.zone && Unshared(x.after.rows, x.m.zone, host)
    ensures M.LabelFor(x.m.zone, x.m.services[service].hostnames[i]).Some?
    ensures HoldsRoutes(x, service, Key(x.m.zone, M.LabelFor(x.m.zone, x.m.services[service].hostnames[i]).value.0))
    ensures var host := Lower(TrimSpace(x.m.services[service].hostnames[i]));
            var k := Key(x.m.zone, M.LabelFor(x.m.zone, x.m.services[service].hostnames[i]).value.0);
            && (Found(x, es, k, P.CleanHost(host), port)
                <==> P.Plain(x.m.zone) && NoneInactive(x, k) && SomeDeclared(x, service, port))
            && (Found(x, es, k, P.CleanHost(host), port) ==>
                  Declared(x.m.services[service], x.m.OwnerRef(service), x.env, port,
                           P.Lookup(es, P.CleanHost(host), port).value.backend))
  {
    hide N.Normal, M.Compiled, M.Defective, M.Accepted, M.RoutesOf, ValidRows, Steps, P.Built, P.RouteFor,
      P.FirstAnswer,
      Unshared, P.CleanHost, P.Plain, P.Lookup, Declared, P.Serves;
    var host := Lower(TrimSpace(x.m.services[service].hostnames[i]));
    var c := ClaimOf(x.m, x.env, x.claims, service, i);
    RowOf(x, c);
    var k := KeyFor(c);
    NormalNonempty(c.name, x.u);
    LabelOfHost(x.m.zone, x.m.services[service].hostnames[i]);
    ZoneNamed(x.m, service);
    LowerZone(x.m.zone, x.m.services[service].hostnames[i]);
    CleanDeclared(c.name, x.m.zone, x.u);
    AnswerIsDeclared(x.m.services[service], x.m.OwnerRef(service), x.env, port);
    ServesIff(x.after.rows[k], host, port);
    FoundIsResolved(es, x.after.rows, k, P.CleanHost(host), port);
    if P.Serves(x.after.rows[k], P.CleanHost(host), port) {
      ExactWins(x.after.rows, k, host, port);
      WinnerResolves(es, x.after.rows, k, host, port);
    }
    if Resolves(es, x.after.rows, k, P.CleanHost(host), port) {
      FoundServes(es, x.after.rows, k, P.CleanHost(host), port);
    }
  }

  lemma ZoneNamed(m: M.Manifest, service: string)
    requires M.Accepted(m) && M.Routed(m, service)
    ensures m.zone != ""
  {
  }

  /** A zone that some hostname belongs to is in lower case. */
  lemma LowerZone(zone: string, written: string)
    requires M.LabelFor(zone, written).Some?
    ensures IsLower(zone)
  {
    var h := Lower(TrimSpace(written));
    var base := TrimPrefix(h, "*.");
    assert IsLower(base);
    if base != zone {
      SuffixSplit(base, "." + zone);
      assert forall j :: 0 <= j < |zone| ==> zone[j] == base[|base| - |zone| + j];
    }
  }

  lemma NormalNonempty(name: string, u: N.Unicode)
    requires N.Normal(name, Platform, u) == N.Ok(name)
    ensures name != ""
  {
  }

  // ---- hosts under a wildcard

  /** No other row serves the host by a name as long as the base: no deeper claim, and no exact one. */
  ghost predicate Nearest(rows: map<Key, Allocation>, k: Key, base: string, host: string, port: int) {
    forall l <- rows :: l != k && P.Serves(rows[l], host, port) ==> P.Closeness(rows[l], host) < |base|
  }

  lemma WildcardWins(rows: map<Key, Allocation>, k: Key, host: string, port: int)
    requires k in rows && KeyOf(rows[k]) == k && rows[k].state == Active && rows[k].spec.wildcard
             && !HasPrefix(k.name, "*.")
    requires P.Under(host, Fqdn(k.name, k.zone)) && P.RouteFor(rows[k].spec.routes, port).Some?
    requires Nearest(rows, k, Fqdn(k.name, k.zone), host, port)
    ensures Winner(rows, k, host, port)
  {
    hide P.RouteFor;
    assert |"." + Fqdn(k.name, k.zone)| <= |host|;
  }

  /** The row of a wildcard serves what is under its base. */
  lemma WildcardServesIff(a: Allocation, host: string, port: int)
    requires !HasPrefix(a.name, "*.") && a.spec.wildcard && host != Fqdn(a.name, a.zone)
    ensures P.Serves(a, host, port)
            <==> P.Under(host, Fqdn(a.name, a.zone)) && a.state == Active && P.RouteFor(a.spec.routes, port).Some?
  {
    hide P.RouteFor;
  }

  /** What the proxy finds for a host, however it is written, below a wildcard that a service declares, with no
      deeper or exact claim serving the port: the service's row and a backend it declares, exactly when what is
      looked up is below the base, no inactive row was found under the label, and the service declares a backend
      for the port. */
  lemma DeclaredWildcardResolves(x: Run, es: seq<P.Entry>, service: string, i: nat, raw: string, port: int)
    requires Regular(x) && x.reply.Applied?
    requires P.Built(es, x.after.rows) && M.Routed(x.m, service) && i < |x.m.services[service].hostnames|
    requires PlainLabel(x, x.m.services[service].hostnames[i])
    requires M.LabelFor(x.m.zone, x.m.services[service].hostnames[i]).Some? ==>
               var (name, wildcard) := M.LabelFor(x.m.zone, x.m.services[service].hostnames[i]).value;
               && wildcard && !HasPrefix(name, "*.") && P.CleanHost(raw) != Fqdn(name, x.m.zone)
               && Nearest(x.after.rows, Key(x.m.zone, name), Fqdn(name, x.m.zone), P.CleanHost(raw), port)
    ensures M.LabelFor(x.m.zone, x.m.services[service].hostnames[i]).Some?
    ensures HoldsRoutes(x, service, Key(x.m.zone, M.LabelFor(x.m.zone, x.m.services[service].hostnames[i]).value.0))
    ensures var name := M.LabelFor(x.m.zone, x.m.services[service].hostnames[i]).value.0;
            var k := Key(x.m.zone, name);
            && (Found(x, es, k, P.CleanHost(raw), port)
                <==>
                && P.Under(P.CleanHost(raw), Fqdn(name, x.m.zone)) && NoneInactive(x, k)
                && SomeDeclared(x, service, port))
            && (Found(x, es, k, P.CleanHost(raw), port) ==>
                  Declared(x.m.services[service], x.m.OwnerRef(service), x.env, port,
                           P.Lookup(es, P.CleanHost(raw), port).value.backend))
  {
    hide N.Normal, M.Compiled, M.Defective, M.Accepted, M.RoutesOf, M.LabelFor, ValidRows, Steps, P.Built, P.RouteFor,
      P.FirstAnswer, Nearest, P.CleanHost, P.Lookup, Declared, P.Serves;
    var c := ClaimOf(x.m, x.env, x.claims, service, i);
    RowOf(x, c);
    var k, host := KeyFor(c), P.CleanHost(raw);
    AnswerIsDeclared(x.m.services[service], x.m.OwnerRef(service), x.env, port);
    WildcardServesIff(x.after.rows[k], host, port);
    FoundIsResolved(es, x.after.rows, k, host, port);
    if P.Serves(x.after.rows[k], host, port) {
      WildcardWins(x.after.rows, k, host, port);
      WinnerResolves(es, x.after.rows, k, host, port);
    }
    if Resolves(es, x.after.rows, k, host, port) {
      FoundServes(es, x.after.rows, k, host, port);
    }
  }

  // ---- backends

  /** The listeners that a service declares, in order. */
  function Listens(s: M.Service): seq<int> {
    if s.routes != [] then seq(|s.routes|, i requires 0 <= i < |s.routes| => s.routes[i].listen)
    else if s.listen == [] then [0] else s.listen
  }

  /** The backend that a service declares for a port: that of the first route on exactly this listener, else on 80
      and 443 of the last on the default ones, or its one backend when it has a listener for the port. */
  ghost predicate Declared(s: M.Service, owner: string, env: M.Resolver, port: int, b: Backend) {
    exists i :: 0 <= i < |Listens(s)| && P.Chosen(Listens(s), port, i)
                && M.Backs(if s.routes != [] then s.routes[i].choice else s.choice, owner, env, b)
  }

  /** A service answers on a port exactly when it declares a backend for it, and with that backend. */
  lemma AnswerIsDeclared(s: M.Service, owner: string, env: M.Resolver, port: int)
    requires M.RoutesOf(s, owner, env).Some?
    ensures var answer := P.RouteFor(M.RoutesOf(s, owner, env).value, port);
            forall b :: answer == Some(b) <==> Declared(s, owner, env, port, b)
  {
    hide M.RoutesOf, P.RouteFor, Declared;
    forall b
      ensures P.RouteFor(M.RoutesOf(s, owner, env).value, port) == Some(b) <==> Declared(s, owner, env, port, b)
    {
      AnswerIs(s, owner, env, port, b);
    }
  }

  lemma AnswerIs(s: M.Service, owner: string, env: M.Resolver, port: int, b: Backend)
    requires M.RoutesOf(s, owner, env).Some?
    ensures P.RouteFor(M.RoutesOf(s, owner, env).value, port) == Some(b) <==> Declared(s, owner, env, port, b)
  {
    hide M.RoutesOf, M.Backs, P.RouteFor, P.Chosen;
    var routes := M.RoutesOf(s, owner, env).value;
    M.RoutesAre(s, owner, env, routes);
    P.RouteForMeans(routes, port);
    assert P.Listeners(routes) == Listens(s);
    forall i | 0 <= i < |routes|
      ensures M.Backs(if s.routes != [] then s.routes[i].choice else s.choice, owner, env, b)
              <==> routes[i].backend == b
    {
      var c := if s.routes != [] then s.routes[i].choice else s.choice;
      M.BackendIs(c, owner, env, b);
      M.BackendIs(c, owner, env, routes[i].backend);
    }
    if i :| 0 <= i < |Listens(s)| && P.Chosen(Listens(s), port, i)
            && M.Backs(if s.routes != [] then s.routes[i].choice else s.choice, owner, env, b) {
      assert routes[i].backend == b;
    }
  }
}

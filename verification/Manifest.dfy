/** A project manifest and its compilation into allocation claims. */
module Manifest {
  import opened Core
  import opened Text
  import Catalog
  import Ports

  datatype SupervisedSpec = SupervisedSpec(cmd: string, dir: string, portPool: string)
  datatype DockerSpec = DockerSpec(network: string, host: string, port: int)

  /** The backend fields of a service or of one of its routes; at most one should be used. */
  datatype Choice = Choice(address: string, portPool: string, supervised: Option<SupervisedSpec>,
                           docker: Option<DockerSpec>)

  datatype RouteSpec = RouteSpec(listen: int, choice: Choice)

  datatype Service = Service(hostnames: seq<string>, listen: seq<int>, choice: Choice, routes: seq<RouteSpec>,
                             dev: string,
                             catalogOnly: bool)

  datatype Manifest = Manifest(project: string, workspace: string, environment: string, zone: string,
                               services: map<string, Service>, resources: nat)
  {
    function RoutingProject(): string {
      if workspace == "" then project else project + "@" + workspace
    }

    function OwnerRef(service: string): string {
      RoutingProject() + "/" + service
    }

    predicate ManagesRoutes() {
      (exists s <- services :: !services[s].catalogOnly) || (services == map[] && resources == 0)
    }
  }

  /** Port grants by pool and owner, and the reading of a number after a colon. */
  datatype Resolver = Resolver(port: (string, string) -> Option<int>, number: string -> Option<int>)

  /** What the machine answers: bind tests, unless they are off, and the reading of numbers. */
  datatype Machine = Machine(bind: int -> bool, skipBind: bool, number: string -> Option<int>)

  /** The port tables as a resolver. */
  function EnvOf(grants: map<Ports.Slot, Ports.Grant>, number: string -> Option<int>): Resolver {
    Resolver((pool, owner) => if Ports.Slot(pool, owner) in grants then Some(grants[Ports.Slot(pool, owner)].value)
             else None,
             number)
  }

  /** A later resolver that still gives every answer the earlier one gave. */
  ghost predicate Extends(env: Resolver, later: Resolver) {
    && later.number == env.number
    && forall pool, owner :: env.port(pool, owner).Some? ==> later.port(pool, owner) == env.port(pool, owner)
  }

  /** Grants are sticky: as long as rows keep their values, the tables go on giving the answers they gave. */
  lemma GrantsStick(before: map<Ports.Slot, Ports.Grant>, after: map<Ports.Slot, Ports.Grant>,
                    number: string -> Option<int>)
    requires Ports.Grown(before, after)
    ensures Extends(EnvOf(before, number), EnvOf(after, number))
  {
    forall pool, owner | EnvOf(before, number).port(pool, owner).Some?
      ensures EnvOf(after, number).port(pool, owner) == EnvOf(before, number).port(pool, owner)
    {
      assert Ports.Slot(pool, owner) in before;
    }
  }

  // ---- the one-backend rule

  function Bit(b: bool): nat {
    if b then 1 else 0
  }

  function ServiceChoices(c: Choice): nat {
    Bit(c.address != "") + Bit(c.supervised.Some?)
    + Bit(c.portPool != "" && c.address == "" && c.supervised == None) + Bit(c.docker.Some?)
  }

  function RouteChoices(c: Choice): nat {
    Bit(c.address != "") + Bit(c.supervised.Some?) + Bit(c.docker.Some?)
    + Bit(c.portPool != "" && c.address == "" && c.supervised == None && c.docker == None)
  }

  const NO_CHOICE := Choice("", "", None, None)

  predicate AcceptedService(s: Service) {
    if s.catalogOnly then
      s.hostnames == [] && s.listen == [] && s.routes == [] && s.choice == NO_CHOICE && s.dev == ""
    else
      && s.hostnames != []
      && if s.routes != [] then
           && ServiceChoices(s.choice) == 0
           && forall i :: 0 <= i < |s.routes| ==> RouteChoices(s.routes[i].choice) == 1
         else ServiceChoices(s.choice) == 1
  }

  predicate AcceptedServices(m: Manifest) {
    forall s <- m.services :: AcceptedService(m.services[s])
  }

  /** What the parser lets through, of the fields modelled here. */
  predicate Accepted(m: Manifest) {
    && m.project != ""
    && (m.workspace != "" ==> Catalog.ValidId(m.workspace) && '@' !in m.project)
    && (m.environment != "" ==> Catalog.ValidId(m.environment))
    && (m.zone == "" ==>
          !(exists s <- m.services :: !m.services[s].catalogOnly) && (m.services != map[] || m.resources > 0))
    && AcceptedServices(m)
  }

  /** Counts a service's backends; a port pool counts when it stands alone. */
  method CountService(c: Choice) returns (n: nat)
    ensures n == ServiceChoices(c)
  {
    n := 0;
    if c.address != "" {
      n := n + 1;
    }
    if c.supervised.Some? {
      n := n + 1;
    }
    if c.portPool != "" && c.address == "" && c.supervised == None {
      n := n + 1;
    }
    if c.docker.Some? {
      n := n + 1;
    }
  }

  method CheckService(s: Service) returns (ok: bool)
    ensures ok <==> AcceptedService(s)
  {
    if s.catalogOnly {
      return s.hostnames == [] && s.choice == NO_CHOICE && s.routes == [] && s.dev == "" && s.listen == [];
    }
    if s.hostnames == [] {
      return false;
    }
    var n := CountService(s.choice);
    if s.routes == [] {
      return n == 1;
    }
    for i := 0 to |s.routes|
      invariant forall j :: 0 <= j < i ==> RouteChoices(s.routes[j].choice) == 1
    {
      if RouteChoices(s.routes[i].choice) != 1 {
        return false;
      }
    }
    return n == 0;
  }

  /** The parser's rules, after decoding. */
  method Check(m: Manifest) returns (ok: bool)
    ensures ok <==> Accepted(m)
  {
    hide AcceptedService;
    if m.project == "" || (m.workspace != "" && (!Catalog.ValidId(m.workspace) || '@' in m.project)) {
      return false;
    }
    if m.environment != "" && !Catalog.ValidId(m.environment) {
      return false;
    }
    var routed := exists s <- m.services :: !m.services[s].catalogOnly;
    if m.zone == "" && (routed || (m.services == map[] && m.resources == 0)) {
      return false;
    }
    var todo := m.services.Keys;
    while todo != {}
      invariant todo <= m.services.Keys
      invariant forall s :: s in m.services && s !in todo ==> AcceptedService(m.services[s])
      decreases todo
    {
      var s: string :| s in todo;
      todo := todo - {s};
      var good := CheckService(m.services[s]);
      if !good {
        return false;
      }
    }
    return true;
  }

  /** Two manifests that may prune each other's rows: the routing project tells project and workspace apart, except
      from a project without a workspace whose name is written like the two joined. */
  lemma RoutingProjectsMeet(m: Manifest, n: Manifest)
    requires Accepted(m) && Accepted(n)
    ensures m.RoutingProject() == n.RoutingProject() <==>
              || (m.project == n.project && m.workspace == n.workspace)
              || (m.workspace != "" && n.workspace == "" && n.project == m.project + "@" + m.workspace)
              || (n.workspace != "" && m.workspace == "" && m.project == n.project + "@" + n.workspace)
  {
    hide AcceptedServices, Catalog.ValidId;
    if m.workspace != "" && n.workspace != "" && m.RoutingProject() == n.RoutingProject() {
      SplitsOnce(m.project, m.workspace, n.project, n.workspace, '@');
    }
  }

  // ---- backends

  /** Host and port of an address; no colon means port 80. */
  function SplitAddr(addr: string, number: string -> Option<int>): Option<(string, int)> {
    var i := LastIndex(addr, ':');
    if i < 0 then Some((addr, 80))
    else match number(addr[i + 1..])
      case None => None
      case Some(port) => Some((addr[..i], port))
  }

  function BackendFrom(c: Choice, ownerRef: string, env: Resolver): Option<Backend> {
    if c.docker.Some? then Some(Docker(c.docker.value.network, c.docker.value.host, c.docker.value.port))
    else if c.address != "" then
      match SplitAddr(c.address, env.number)
      case None => None
      case Some(hp) => Some(Address(hp.0, hp.1))
    else if c.supervised.Some? then
      Some(Supervised(c.supervised.value.cmd, c.supervised.value.dir, c.supervised.value.portPool))
    else if c.portPool != "" then
      match env.port(c.portPool, ownerRef)
      case None => None
      case Some(p) => Some(Address("@local", p))
    else None
  }

  /** What an address says: a host alone stands for port 80, else the number follows the last colon. */
  ghost predicate Reads(addr: string, number: string -> Option<int>, host: string, port: int) {
    if ':' !in addr then host == addr && port == 80
    else exists digits :: ':' !in digits && addr == host + ":" + digits && number(digits) == Some(port)
  }

  /** The backend that a choice declares, by its columns: a container, a process or an address as written, or the
      port that its owner holds in the pool. */
  ghost predicate Backs(c: Choice, ownerRef: string, env: Resolver, b: Backend) {
    match b
    case Docker(network, host, port) => c.docker == Some(DockerSpec(network, host, port))
    case Supervised(cmd, dir, pool) =>
      c.docker == None && c.address == "" && c.supervised == Some(SupervisedSpec(cmd, dir, pool))
    case Address(host, port) =>
      && c.docker == None
      && if c.address != "" then Reads(c.address, env.number, host, port)
         else
           c.supervised == None && c.portPool != "" && host == "@local" && env.port(c.portPool, ownerRef) == Some(port)
    case Service(_, _, _) => false
  }

  lemma AddressIs(addr: string, number: string -> Option<int>)
    ensures forall host, port :: SplitAddr(addr, number) == Some((host, port)) <==> Reads(addr, number, host, port)
  {
    LastIndexAbsent(addr, ':');
    if ':' in addr {
      var i := LastIndex(addr, ':');
      LastIndexIs(addr, ':');
      assert addr == addr[..i] + ":" + addr[i + 1..];
      forall host: string, digits: string | ':' !in digits && addr == host + ":" + digits
        ensures host == addr[..i] && digits == addr[i + 1..]
      {
        LastIndexConcat(host + ":", digits, ':');
        assert (host + ":") + digits == addr && (host + ":")[|host|] == ':';
      }
    }
  }

  /** What is built is what is declared. */
  lemma BackendIs(c: Choice, ownerRef: string, env: Resolver, b: Backend)
    ensures BackendFrom(c, ownerRef, env) == Some(b) <==> Backs(c, ownerRef, env, b)
  {
    hide SplitAddr, Reads;
    AddressIs(c.address, env.number);
  }

  /** The same on port tables: a pool choice is the value of its owner's row. */
  lemma BackendOnTables(c: Choice, ownerRef: string, grants: map<Ports.Slot, Ports.Grant>,
                        number: string -> Option<int>)
    requires c.docker == None && c.address == "" && c.supervised == None && c.portPool != ""
    ensures var slot := Ports.Slot(c.portPool, ownerRef);
            BackendFrom(c, ownerRef, EnvOf(grants, number))
            == if slot in grants then Some(Address("@local", grants[slot].value)) else None
  {
  }

  /** An accepted choice names one backend: a service's, or a route's. A pool beside a container counts for a service
      only. */
  lemma OneChoice(c: Choice)
    ensures ServiceChoices(c) == 1 <==>
              || (c.address != "" && c.supervised == None && c.docker == None)
              || (c.address == "" && c.supervised.Some? && c.docker == None)
              || (c.address == "" && c.supervised == None && c.docker.Some? && c.portPool == "")
              || (c.address == "" && c.supervised == None && c.docker == None && c.portPool != "")
    ensures RouteChoices(c) == 1 <==>
              || (c.address != "" && c.supervised == None && c.docker == None)
              || (c.address == "" && c.supervised.Some? && c.docker == None)
              || (c.address == "" && c.supervised == None && c.docker.Some?)
              || (c.address == "" && c.supervised == None && c.docker == None && c.portPool != "")
    ensures ServiceChoices(c) == 0 <==> c.address == "" && c.supervised == None && c.docker == None && c.portPool == ""
  {
  }

  /** What the parser lets through, service by service: a hostname at least, and one backend, for the service or
      for each of its routes; or, for the catalog alone, nothing at all. */
  lemma AcceptedMeans(m: Manifest)
    ensures Accepted(m) <==>
              && m.project != ""
              && (m.workspace != "" ==> Catalog.ValidId(m.workspace) && '@' !in m.project)
              && (m.environment != "" ==> Catalog.ValidId(m.environment))
              && (m.zone == "" ==>
                    (forall s <- m.services :: m.services[s].catalogOnly) && (|m.services| > 0 || m.resources > 0))
              && forall s <- m.services ::
                   var v := m.services[s];
                   if v.catalogOnly then
                     |v.hostnames| == 0 && |v.listen| == 0 && |v.routes| == 0 && v.choice == Choice("", "", None, None)
                     && v.dev == ""
                   else if |v.routes| == 0 then |v.hostnames| > 0 && ServiceChoices(v.choice) == 1
                   else
                     |v.hostnames| > 0 && v.choice == Choice("", "", None, None)
                     && forall i :: 0 <= i < |v.routes| ==> RouteChoices(v.routes[i].choice) == 1
  {
    hide Catalog.ValidId, RouteChoices;
    assert |m.services| == 0 <==> m.services == map[];
  }

  /** And that is the one built: the order of the cases never matters. It fails only for an address that cannot be
      read or a port that was not granted. */
  lemma AcceptedChoiceIsUsed(c: Choice, ownerRef: string, env: Resolver)
    requires ServiceChoices(c) == 1 || RouteChoices(c) == 1
    ensures BackendFrom(c, ownerRef, env) == None <==>
              || (c.address != "" && forall host, port :: !Reads(c.address, env.number, host, port))
              || (c.address == "" && c.supervised == None && c.docker == None && env.port(c.portPool, ownerRef) == None)
    ensures BackendFrom(c, ownerRef, env).Some? ==>
              var b := BackendFrom(c, ownerRef, env).value;
              && (c.docker.Some? ==> b == Docker(c.docker.value.network, c.docker.value.host, c.docker.value.port))
              && (c.supervised.Some? ==>
                    b == Supervised(c.supervised.value.cmd, c.supervised.value.dir, c.supervised.value.portPool))
              && (c.address != "" ==> b.Address? && Reads(c.address, env.number, b.host, b.port))
              && (c.docker == None && c.supervised == None && c.address == "" ==>
                    Some(b) == match env.port(c.portPool, ownerRef)
                               case None => None
                               case Some(port) => Some(Address("@local", port)))
  {
    hide Reads, SplitAddr;
    AddressIs(c.address, env.number);
  }

  /** The routes of a service: its own, or the shorthand on each listener (0 when none is given). */
  function Listens(s: Service): seq<int> {
    if s.listen == [] then [0] else s.listen
  }

  function RouteList(routes: seq<RouteSpec>, ownerRef: string, env: Resolver): Option<seq<Route>> {
    if routes == [] then Some([])
    else
      var before, b := RouteList(routes[..|routes| - 1], ownerRef, env),
                       BackendFrom(routes[|routes| - 1].choice, ownerRef, env);
      if before == None || b == None then None
      else Some(before.value + [Route(routes[|routes| - 1].listen, b.value)])
  }

  function RoutesOf(s: Service, ownerRef: string, env: Resolver): Option<seq<Route>> {
    if s.routes != [] then RouteList(s.routes, ownerRef, env)
    else
      match BackendFrom(s.choice, ownerRef, env)
      case None => None
      case Some(b) => Some(seq(|Listens(s)|, i requires 0 <= i < |Listens(s)| => Route(Listens(s)[i], b)))
  }

  lemma {:induction false} RouteListIs(specs: seq<RouteSpec>, ownerRef: string, env: Resolver, routes: seq<Route>)
    ensures RouteList(specs, ownerRef, env) == Some(routes) <==>
              |routes| == |specs|
              && forall i :: 0 <= i < |specs| ==>
                   routes[i].listen == specs[i].listen && Backs(specs[i].choice, ownerRef, env, routes[i].backend)
  {
    hide Backs, BackendFrom;
    if specs != [] {
      var n := |specs| - 1;
      forall b
        ensures BackendFrom(specs[n].choice, ownerRef, env) == Some(b) <==> Backs(specs[n].choice, ownerRef, env, b)
      {
        BackendIs(specs[n].choice, ownerRef, env, b);
      }
      if |routes| == |specs| {
        RouteListIs(specs[..n], ownerRef, env, routes[..n]);
        assert routes == routes[..n] + [routes[n]];
        assert forall i :: 0 <= i < n ==> specs[..n][i] == specs[i] && routes[..n][i] == routes[i];
      } else if RouteList(specs[..n], ownerRef, env).Some? {
        RouteListIs(specs[..n], ownerRef, env, RouteList(specs[..n], ownerRef, env).value);
      }
    }
  }

  /** A service's routes, one by one: its own, each on its listener with its own backend, or the one backend of the
      service on each of its listeners, or on the default ones. */
  lemma RoutesAre(s: Service, ownerRef: string, env: Resolver, routes: seq<Route>)
    ensures RoutesOf(s, ownerRef, env) == Some(routes) <==>
              if s.routes != [] then
                |routes| == |s.routes|
                && forall i :: 0 <= i < |routes| ==>
                     routes[i].listen == s.routes[i].listen
                     && Backs(s.routes[i].choice, ownerRef, env, routes[i].backend)
              else
                exists b :: Backs(s.choice, ownerRef, env, b)
                            && if s.listen == [] then routes == [Route(0, b)]
                               else
                                 |routes| == |s.listen|
                                 && forall i :: 0 <= i < |routes| ==> routes[i] == Route(s.listen[i], b)
  {
    hide Backs, BackendFrom;
    if s.routes != [] {
      RouteListIs(s.routes, ownerRef, env, routes);
    } else {
      forall b
        ensures BackendFrom(s.choice, ownerRef, env) == Some(b) <==> Backs(s.choice, ownerRef, env, b)
      {
        BackendIs(s.choice, ownerRef, env, b);
      }
      if b :| Backs(s.choice, ownerRef, env, b) {
        assert RoutesOf(s, ownerRef, env).Some?;
        var all := RoutesOf(s, ownerRef, env).value;
        if routes == all && s.listen == [] {
          assert all == [Route(0, b)];
        }
      }
    }
  }

  // ---- hostnames

  /** The label a declared hostname claims, and whether it claims everything below it. */
  function LabelFor(zone: string, host: string): Option<(string, bool)> {
    var h := Lower(TrimSpace(host));
    var wildcard, base := HasPrefix(h, "*."), TrimPrefix(h, "*.");
    if base == zone then Some(("@", wildcard))
    else if HasSuffix(base, "." + zone) then Some((TrimSuffix(base, "." + zone), wildcard))
    else None
  }

  /** The label of a hostname, once trimmed and in lower case: what stands between "*.", if that is there, and the
      zone, or "@" for the zone itself. */
  lemma LabelMeans(zone: string, host: string, name: string, wildcard: bool)
    ensures LabelFor(zone, host) == Some((name, wildcard)) <==>
              var h := Lower(TrimSpace(host));
              && (wildcard <==> |h| >= 2 && h[0] == '*' && h[1] == '.')
              && var base := if wildcard then h[2..] else h;
                 if base == zone then name == "@" else base == name + ("." + zone)
  {
    var h := Lower(TrimSpace(host));
    SuffixIff(TrimPrefix(h, "*."), name, "." + zone);
    assert HasPrefix(h, "*.") <==> |h| >= 2 && h[0] == '*' && h[1] == '.';
  }

  predicate InZone(zone: string, s: Service) {
    forall i :: 0 <= i < |s.hostnames| ==> LabelFor(zone, s.hostnames[i]).Some?
  }

  predicate Declares(zone: string, s: Service, name: string) {
    exists i ::
             0 <= i < |s.hostnames| && LabelFor(zone, s.hostnames[i]).Some?
             && LabelFor(zone, s.hostnames[i]).value.0 == name
  }

  predicate DeclaresWildcard(zone: string, s: Service, name: string) {
    exists i :: 0 <= i < |s.hostnames| && LabelFor(zone, s.hostnames[i]) == Some((name, true))
  }

  datatype Claim = Claim(zone: string, name: string, project: string, ownerRef: string, service: string, spec: Spec)

  predicate Routed(m: Manifest, service: string) {
    service in m.services && !m.services[service].catalogOnly
  }

  /** The claim a routed service makes for one of its labels. */
  function ClaimFor(m: Manifest, service: string, name: string, routes: seq<Route>): Claim
    requires service in m.services
  {
    Claim(m.zone, name, m.RoutingProject(), m.OwnerRef(service), service,
          Spec(routes, DeclaresWildcard(m.zone, m.services[service], name), 0))
  }

  /** Why a manifest has no claims. */
  ghost predicate Defective(m: Manifest, env: Resolver) {
    || (exists s <- m.services :: Routed(m, s) && RoutesOf(m.services[s], m.OwnerRef(s), env) == None)
    || (exists s <- m.services :: Routed(m, s) && !InZone(m.zone, m.services[s]))
    || (exists s, t, name :: Routed(m, s) && Routed(m, t) && s != t
                             && Declares(m.zone, m.services[s], name) && Declares(m.zone, m.services[t], name))
  }

  /** The claims of the services in `done`: one per declared label, none for anything else. */
  ghost predicate Compiled(m: Manifest, env: Resolver, claims: seq<Claim>, done: set<string>) {
    && (forall c :: c in claims ==>
          c.service in done && Routed(m, c.service) && Declares(m.zone, m.services[c.service], c.name)
          && RoutesOf(m.services[c.service], m.OwnerRef(c.service), env).Some?
          && c == ClaimFor(m, c.service, c.name, RoutesOf(m.services[c.service], m.OwnerRef(c.service), env).value))
    && (forall s, name :: s in done && Routed(m, s) && Declares(m.zone, m.services[s], name) ==>
          exists c :: c in claims && c.service == s && c.name == name)
    && (forall i, j :: 0 <= i < j < |claims| ==> claims[i].name != claims[j].name)
  }

  /** The claims of a compiled manifest, by their columns: each is a routed service's, for one of its hostnames,
      with that service's routes, and is a wildcard if the service writes one for that label; and each hostname of
      a routed service has its claim. */
  lemma ClaimsAre(m: Manifest, env: Resolver, claims: seq<Claim>)
    requires Compiled(m, env, claims, m.services.Keys)
    ensures forall c :: c in claims ==>
              && c.service in m.services && !m.services[c.service].catalogOnly
              && c.zone == m.zone
              && c.project == (if m.workspace == "" then m.project else m.project + "@" + m.workspace)
              && c.ownerRef == c.project + "/" + c.service
              && c.spec.priority == 0 && RoutesOf(m.services[c.service], c.ownerRef, env) == Some(c.spec.routes)
              && (exists i :: 0 <= i < |m.services[c.service].hostnames|
                              && LabelFor(m.zone, m.services[c.service].hostnames[i]).Some?
                              && LabelFor(m.zone, m.services[c.service].hostnames[i]).value.0 == c.name)
              && (c.spec.wildcard <==>
                    exists i :: 0 <= i < |m.services[c.service].hostnames|
                                && LabelFor(m.zone, m.services[c.service].hostnames[i]) == Some((c.name, true)))
    ensures forall s, i :: s in m.services && !m.services[s].catalogOnly && 0 <= i < |m.services[s].hostnames|
                           && LabelFor(m.zone, m.services[s].hostnames[i]).Some? ==>
              exists c ::
                       c in claims && c.service == s && c.name == LabelFor(m.zone, m.services[s].hostnames[i]).value.0
  {
    hide LabelFor, RoutesOf;
    forall s, i | s in m.services && !m.services[s].catalogOnly && 0 <= i < |m.services[s].hostnames|
                  && LabelFor(m.zone, m.services[s].hostnames[i]).Some?
      ensures exists c ::
                c in claims && c.service == s && c.name == LabelFor(m.zone, m.services[s].hostnames[i]).value.0
    {
      assert Routed(m, s) && Declares(m.zone, m.services[s], LabelFor(m.zone, m.services[s].hostnames[i]).value.0);
    }
  }

  // ---- the compiler

  lemma {:induction false} RouteListExtends(routes: seq<RouteSpec>, owner: string, env: Resolver, later: Resolver)
    requires Extends(env, later) && RouteList(routes, owner, env).Some?
    ensures RouteList(routes, owner, later) == RouteList(routes, owner, env)
  {
    if routes != [] {
      RouteListExtends(routes[..|routes| - 1], owner, env, later);
    }
  }

  lemma RoutesExtend(s: Service, owner: string, env: Resolver, later: Resolver)
    requires Extends(env, later) && RoutesOf(s, owner, env).Some?
    ensures RoutesOf(s, owner, later) == RoutesOf(s, owner, env)
  {
    if s.routes != [] {
      RouteListExtends(s.routes, owner, env, later);
    }
  }

  /** One backend; a port pool is claimed from on the spot. */
  method BuildBackend(c: Choice, project: string, ownerRef: string, ports: Ports.Tables, at: Machine)
    returns (r: Option<Backend>)
    requires ports.Valid()
    modifies ports`grants
    ensures ports.Valid() && Ports.Grown(old(ports.grants), ports.grants)
    ensures r == BackendFrom(c, ownerRef, EnvOf(ports.grants, at.number))
  {
    hide Ports.Used, Ports.P.Grantable, Ports.P.Safe, Ports.Stands, Ports.InPool, Ports.P.Outcome;
    if c.docker.Some? {
      return Some(Docker(c.docker.value.network, c.docker.value.host, c.docker.value.port));
    }
    if c.address != "" {
      var hp := SplitAddr(c.address, at.number);
      return if hp == None then None else Some(Address(hp.value.0, hp.value.1));
    }
    if c.supervised.Some? {
      return Some(Supervised(c.supervised.value.cmd, c.supervised.value.dir, c.supervised.value.portPool));
    }
    if c.portPool == "" {
      return None;
    }
    if c.portPool in ports.pools {
      ports.IdleSafe(c.portPool);
    }
    NothingIsCalm(c.portPool, ports);
    var answer, h := ports.Claim(c.portPool, project, ownerRef, at.bind, at.skipBind, [],
                                 Ports.Idle(ports.grants, c.portPool), 0);
    return if answer.Granted? then Some(Address("@local", answer.value)) else None;
  }

  lemma NothingIsCalm(pool: string, ports: Ports.Tables)
    ensures Ports.Calm([]) && (pool in ports.pools ==> Ports.ScriptOk(ports.pools[pool], []))
  {
  }

  method ServiceRoutes(s: Service, project: string, ownerRef: string, ports: Ports.Tables, at: Machine)
    returns (r: Option<seq<Route>>)
    requires ports.Valid()
    modifies ports`grants
    ensures ports.Valid() && Ports.Grown(old(ports.grants), ports.grants)
    ensures r == RoutesOf(s, ownerRef, EnvOf(ports.grants, at.number))
  {
    hide BackendFrom, EnvOf, Extends;
    if s.routes != [] {
      r := RouteLoop(s.routes, project, ownerRef, ports, at);
      return;
    }
    var backend := BuildBackend(s.choice, project, ownerRef, ports, at);
    if backend == None {
      return None;
    }
    var listens := if s.listen == [] then [0] else s.listen;
    var routes: seq<Route> := [];
    for i := 0 to |listens|
      invariant |routes| == i && forall j :: 0 <= j < i ==> routes[j] == Route(listens[j], backend.value)
    {
      routes := routes + [Route(listens[i], backend.value)];
    }
    ghost var env := EnvOf(ports.grants, at.number);
    assert listens == Listens(s) && routes == RoutesOf(s, ownerRef, env).value;
    return Some(routes);
  }

  method RouteLoop(specs: seq<RouteSpec>, project: string, ownerRef: string, ports: Ports.Tables, at: Machine)
    returns (r: Option<seq<Route>>)
    requires ports.Valid()
    modifies ports`grants
    ensures ports.Valid() && Ports.Grown(old(ports.grants), ports.grants)
    ensures r == RouteList(specs, ownerRef, EnvOf(ports.grants, at.number))
  {
    hide BackendFrom, EnvOf, Extends;
    var routes: seq<Route> := [];
    for i := 0 to |specs|
      invariant ports.Valid() && Ports.Grown(old(ports.grants), ports.grants)
      invariant RouteList(specs[..i], ownerRef, EnvOf(ports.grants, at.number)) == Some(routes)
    {
      ghost var before := ports.grants;
      var backend := BuildBackend(specs[i].choice, project, ownerRef, ports, at);
      GrantsStick(before, ports.grants, at.number);
      RouteListExtends(specs[..i], ownerRef, EnvOf(before, at.number), EnvOf(ports.grants, at.number));
      assert specs[..i + 1][..i] == specs[..i];
      if backend == None {
        RouteListFails(specs, i + 1, ownerRef, EnvOf(ports.grants, at.number));
        return None;
      }
      routes := routes + [Route(specs[i].listen, backend.value)];
    }
    assert specs[..|specs|] == specs;
    return Some(routes);
  }

  lemma {:induction false} RouteListFails(routes: seq<RouteSpec>, n: nat, ownerRef: string, env: Resolver)
    requires n <= |routes| && RouteList(routes[..n], ownerRef, env) == None
    ensures RouteList(routes, ownerRef, env) == None
  {
    if n == |routes| {
      assert routes[..n] == routes;
    } else {
      assert routes[..|routes| - 1][..n] == routes[..n];
      RouteListFails(routes[..|routes| - 1], n, ownerRef, env);
    }
  }

  /** The labels of the first `n` hostnames, in order of first mention, with their wildcard bits. */
  ghost predicate Grouped(zone: string, hosts: seq<string>, n: nat, slots: map<string, bool>, order: seq<string>)
    requires n <= |hosts|
  {
    && (forall i :: 0 <= i < n ==> LabelFor(zone, hosts[i]).Some? && LabelFor(zone, hosts[i]).value.0 in slots)
    && (forall l :: l in slots <==> l in order)
    && (forall l <- slots :: exists i :: 0 <= i < n && LabelFor(zone, hosts[i]).value.0 == l)
    && (forall l <- slots :: slots[l] <==> exists i :: 0 <= i < n && LabelFor(zone, hosts[i]) == Some((l, true)))
    && (forall i, j :: 0 <= i < j < |order| ==> order[i] != order[j])
  }

  /** "x" and "*.x" merge into one slot. */
  method Group(zone: string, s: Service) returns (r: Option<(map<string, bool>, seq<string>)>)
    ensures r.Some? <==> InZone(zone, s)
    ensures r.Some? ==> Grouped(zone, s.hostnames, |s.hostnames|, r.value.0, r.value.1)
  {
    hide LabelFor;
    var slots: map<string, bool>, order: seq<string> := map[], [];
    for i := 0 to |s.hostnames|
      invariant Grouped(zone, s.hostnames, i, slots, order)
    {
      var l := LabelFor(zone, s.hostnames[i]);
      if l == None {
        return None;
      }
      var (name, wildcard) := l.value;
      if name !in slots {
        slots, order := slots[name := false], order + [name];
      }
      if wildcard {
        slots := slots[name := true];
      }
    }
    return Some((slots, order));
  }

  /** Everything but the routes of a service's claims, for those of its labels that were taken up. */
  ghost predicate Emitted(m: Manifest, service: string, routes: seq<Route>, labels: seq<string>, out: seq<Claim>)
    requires service in m.services
  {
    |out| == |labels| && forall i :: 0 <= i < |labels| ==> out[i] == ClaimFor(m, service, labels[i], routes)
  }

  /** The claims of one service, unless another service has one of its labels. */
  method Emit(m: Manifest, service: string, routes: seq<Route>, slots: map<string, bool>, order: seq<string>,
              taken: set<string>)
    returns (r: Option<seq<Claim>>)
    requires service in m.services
    requires Grouped(m.zone, m.services[service].hostnames, |m.services[service].hostnames|, slots, order)
    ensures r == None <==> exists l :: l in order && l in taken
    ensures r.Some? ==> Emitted(m, service, routes, order, r.value)
  {
    hide LabelFor;
    var out: seq<Claim> := [];
    for i := 0 to |order|
      invariant forall j :: 0 <= j < i ==> order[j] !in taken
      invariant Emitted(m, service, routes, order[..i], out)
    {
      var name := order[i];
      if name in taken {
        return None;
      }
      assert name in order;
      assert slots[name] == DeclaresWildcard(m.zone, m.services[service], name);
      out := out + [Claim(m.zone, name, m.RoutingProject(), m.OwnerRef(service), service,
                          Spec(routes, slots[name], 0))];
    }
    assert order[..|order|] == order;
    return Some(out);
  }

  /** `taken` holds the labels of the claims so far. */
  ghost predicate Taken(claims: seq<Claim>, taken: set<string>) {
    forall l :: l in taken <==> exists c :: c in claims && c.name == l
  }

  lemma CompiledStep(m: Manifest, env: Resolver, claims: seq<Claim>, done: set<string>, service: string,
                     routes: seq<Route>,
                     slots: map<string, bool>, order: seq<string>, taken: set<string>, out: seq<Claim>)
    requires Compiled(m, env, claims, done) && Taken(claims, taken) && Routed(m, service)
    requires Grouped(m.zone, m.services[service].hostnames, |m.services[service].hostnames|, slots, order)
    requires Emitted(m, service, routes, order, out) && !(exists l :: l in order && l in taken)
    requires RoutesOf(m.services[service], m.OwnerRef(service), env) == Some(routes)
    ensures Compiled(m, env, claims + out, done + {service})
    ensures Taken(claims + out, taken + set l | l in order)
  {
    hide LabelFor, RoutesOf, ClaimFor;
    var all := claims + out;
    forall c | c in out
      ensures c == ClaimFor(m, service, c.name, routes) && c.service == service && c.name in order
      ensures Declares(m.zone, m.services[service], c.name)
    {
      var i :| 0 <= i < |out| && out[i] == c;
      ClaimNames(m, service, order[i], routes);
      assert order[i] in slots;
    }
    forall name | Declares(m.zone, m.services[service], name)
      ensures exists c :: c in all && c.service == service && c.name == name
    {
      assert name in order;
      var i :| 0 <= i < |order| && order[i] == name;
      ClaimNames(m, service, name, routes);
      assert out[i] in all;
    }
    forall l | l in order
      ensures exists c :: c in all && c.name == l
    {
      var i :| 0 <= i < |order| && order[i] == l;
      ClaimNames(m, service, l, routes);
      assert out[i] in all;
    }
    forall i, j | 0 <= i < j < |all|
      ensures all[i].name != all[j].name
    {
      if i < |claims| <= j {
        assert all[i] in claims && all[i].name in taken;
        assert all[j] in out;
      } else if |claims| <= i {
        ClaimNames(m, service, order[i - |claims|], routes);
        ClaimNames(m, service, order[j - |claims|], routes);
      }
    }
  }

  lemma ClaimNames(m: Manifest, service: string, name: string, routes: seq<Route>)
    requires service in m.services
    ensures ClaimFor(m, service, name, routes).name == name && ClaimFor(m, service, name, routes).service == service
  {
  }

  lemma ClashIsDefect(m: Manifest, env: Resolver, claims: seq<Claim>, done: set<string>, taken: set<string>,
                      service: string,
                      slots: map<string, bool>, order: seq<string>)
    requires Compiled(m, env, claims, done) && Taken(claims, taken) && Routed(m, service) && service !in done
    requires Grouped(m.zone, m.services[service].hostnames, |m.services[service].hostnames|, slots, order)
    requires exists l :: l in order && l in taken
    ensures Defective(m, env)
  {
    hide LabelFor, RoutesOf, ClaimFor;
    var l :| l in order && l in taken;
    var c :| c in claims && c.name == l;
    assert l in slots && Declares(m.zone, m.services[service], l);
    assert Routed(m, c.service) && c.service != service && Declares(m.zone, m.services[c.service], l);
  }

  lemma CompiledIsSound(m: Manifest, env: Resolver, claims: seq<Claim>)
    requires Compiled(m, env, claims, m.services.Keys)
    requires forall s ::
               Routed(m, s) ==> InZone(m.zone, m.services[s]) && RoutesOf(m.services[s], m.OwnerRef(s), env).Some?
    ensures !Defective(m, env)
  {
    hide LabelFor, RoutesOf, ClaimFor;
    forall s, t, name | Routed(m, s) && Routed(m, t) && Declares(m.zone, m.services[s], name)
           && Declares(m.zone, m.services[t], name)
      ensures s == t
    {
      var c :| c in claims && c.service == s && c.name == name;
      var d :| d in claims && d.service == t && d.name == name;
      var i, j :| 0 <= i < |claims| && 0 <= j < |claims| && claims[i] == c && claims[j] == d;
    }
  }

  /** What was compiled with fewer grants is compiled with more. */
  lemma CompiledExtends(m: Manifest, env: Resolver, later: Resolver, claims: seq<Claim>, done: set<string>)
    requires Extends(env, later) && Compiled(m, env, claims, done)
    ensures Compiled(m, later, claims, done)
  {
    hide LabelFor, RoutesOf, ClaimFor, Declares, Extends;
    forall c | c in claims
      ensures RoutesOf(m.services[c.service], m.OwnerRef(c.service), later)
              == RoutesOf(m.services[c.service], m.OwnerRef(c.service), env)
    {
      RoutesExtend(m.services[c.service], m.OwnerRef(c.service), env, later);
    }
  }

  /** The routed services of `done` have all their routes and hosts. */
  ghost predicate Routable(m: Manifest, env: Resolver, done: set<string>) {
    forall s ::
             s in done && Routed(m, s) ==>
               InZone(m.zone, m.services[s]) && RoutesOf(m.services[s], m.OwnerRef(s), env).Some?
  }

  lemma RoutableExtends(m: Manifest, env: Resolver, later: Resolver, done: set<string>)
    requires Extends(env, later) && Routable(m, env, done)
    ensures Routable(m, later, done)
  {
    hide LabelFor, RoutesOf, InZone, Extends;
    forall s | s in done && Routed(m, s)
      ensures RoutesOf(m.services[s], m.OwnerRef(s), later).Some?
    {
      RoutesExtend(m.services[s], m.OwnerRef(s), env, later);
    }
  }

  /** Flattens a manifest into claims, in some order of its services, claiming ports on the way. Two services may
      not share a label. The result is what the manifest compiles to on the port tables as the compilation leaves
      them. */
  method Claims(m: Manifest, ports: Ports.Tables, at: Machine) returns (r: Option<seq<Claim>>)
    requires ports.Valid()
    modifies ports`grants
    ensures ports.Valid() && Ports.Grown(old(ports.grants), ports.grants)
    ensures r == None <==> Defective(m, EnvOf(ports.grants, at.number))
    ensures r.Some? ==> Compiled(m, EnvOf(ports.grants, at.number), r.value, m.services.Keys)
  {
    hide LabelFor, RoutesOf, ClaimFor, EnvOf, Extends, Compiled, Routable, Grouped, Emitted, InZone, Defective;
    var out: seq<Claim> := [];
    var taken: set<string> := {};
    var todo := m.services.Keys;
    NothingCompiled(m, EnvOf(ports.grants, at.number));
    while todo != {}
      invariant todo <= m.services.Keys && ports.Valid() && Ports.Grown(old(ports.grants), ports.grants)
      invariant Compiled(m, EnvOf(ports.grants, at.number), out, m.services.Keys - todo) && Taken(out, taken)
      invariant Routable(m, EnvOf(ports.grants, at.number), m.services.Keys - todo)
      decreases todo
    {
      var service: string :| service in todo;
      var s := m.services[service];
      ghost var done, before := m.services.Keys - todo, ports.grants;
      todo := todo - {service};
      assert m.services.Keys - todo == done + {service};
      if s.catalogOnly {
        CatalogStep(m, EnvOf(ports.grants, at.number), out, done, service);
        continue;
      }
      var routes := ServiceRoutes(s, m.RoutingProject(), m.OwnerRef(service), ports, at);
      ghost var env := EnvOf(ports.grants, at.number);
      GrantsStick(before, ports.grants, at.number);
      CompiledExtends(m, EnvOf(before, at.number), env, out, done);
      RoutableExtends(m, EnvOf(before, at.number), env, done);
      if routes == None {
        NoRoutesIsDefect(m, env, service);
        return None;
      }
      var grouped := Group(m.zone, s);
      if grouped == None {
        OutsideIsDefect(m, env, service);
        return None;
      }
      var (slots, order) := grouped.value;
      var claims := Emit(m, service, routes.value, slots, order, taken);
      if claims == None {
        ClashIsDefect(m, env, out, done, taken, service, slots, order);
        return None;
      }
      CompiledStep(m, env, out, done, service, routes.value, slots, order, taken, claims.value);
      RoutableStep(m, env, done, service);
      out, taken := out + claims.value, taken + set l | l in order;
    }
    assert m.services.Keys - todo == m.services.Keys;
    RoutableAll(m, EnvOf(ports.grants, at.number));
    CompiledIsSound(m, EnvOf(ports.grants, at.number), out);
    return Some(out);
  }

  lemma NothingCompiled(m: Manifest, env: Resolver)
    ensures Compiled(m, env, [], m.services.Keys - m.services.Keys)
            && Routable(m, env, m.services.Keys - m.services.Keys)
  {
  }

  lemma CatalogStep(m: Manifest, env: Resolver, out: seq<Claim>, done: set<string>, service: string)
    requires Compiled(m, env, out, done) && Routable(m, env, done) && !Routed(m, service)
    ensures Compiled(m, env, out, done + {service}) && Routable(m, env, done + {service})
  {
    hide LabelFor, RoutesOf, ClaimFor, InZone, Declares;
  }

  lemma RoutableStep(m: Manifest, env: Resolver, done: set<string>, service: string)
    requires Routable(m, env, done) && Routed(m, service) && InZone(m.zone, m.services[service])
    requires RoutesOf(m.services[service], m.OwnerRef(service), env).Some?
    ensures Routable(m, env, done + {service})
  {
    hide RoutesOf, InZone;
  }

  lemma RoutableAll(m: Manifest, env: Resolver)
    requires Routable(m, env, m.services.Keys)
    ensures forall s ::
              Routed(m, s) ==> InZone(m.zone, m.services[s]) && RoutesOf(m.services[s], m.OwnerRef(s), env).Some?
  {
    hide RoutesOf, InZone;
  }

  lemma NoRoutesIsDefect(m: Manifest, env: Resolver, service: string)
    requires Routed(m, service) && RoutesOf(m.services[service], m.OwnerRef(service), env) == None
    ensures Defective(m, env)
  {
    hide RoutesOf, InZone, Declares;
  }

  lemma OutsideIsDefect(m: Manifest, env: Resolver, service: string)
    requires Routed(m, service) && !InZone(m.zone, m.services[service])
    ensures Defective(m, env)
  {
    hide RoutesOf, InZone, Declares;
  }
}

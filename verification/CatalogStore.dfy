/** The catalog tables: one transaction per bundle, immutable identities and capability versions. */
module CatalogStore {
  import opened Core
  import opened Catalog

  datatype Data =
    | App(app: Application)
    | Svc(service: Service)
    | Cap(capability: Capability)
    | Dep(deployment: Deployment)
    | Res(resource: Resource)

  datatype EntryKind = ApplicationKind | ServiceKind | CapabilityKind | DeploymentKind | ResourceKind

  /** The primary key. */
  datatype EntryId = EntryId(kind: EntryKind, id: string)

  /** A row: its application and natural key are written once, with the row; only the data is replaced. */
  datatype Row = Row(app: string, naturalKey: Option<string>, data: Data)

  type Entries = map<EntryId, Row>

  function IdOf(d: Data): EntryId {
    match d
    case App(a) => EntryId(ApplicationKind, a.id)
    case Svc(s) => EntryId(ServiceKind, s.id)
    case Cap(c) => EntryId(CapabilityKind, VersionKey(c))
    case Dep(d) => EntryId(DeploymentKind, d.id)
    case Res(r) => EntryId(ResourceKind, r.id)
  }

  function NaturalKey(d: Data): Option<string> {
    match d
    case Svc(s) => NonEmpty(s.key)
    case Res(r) => Some(r.environment + "/" + r.workspace + "/" + r.key)
    case _ => None
  }

  function Logo(d: Data): string {
    match d
    case App(a) => a.display.logo
    case Svc(s) => s.display.logo
    case Res(r) => r.display.logo
    case _ => ""
  }

  /** A change that publication may not make: of a capability, or of an identity field. */
  predicate Clashes(was: Data, now: Data) {
    match (was, now)
    case (App(a), App(b)) => a.project != b.project
    case (Svc(s), Svc(t)) => s.applicationId != t.applicationId || s.key != t.key
    case (Cap(c), Cap(d)) => c != d
    case (Dep(d), Dep(e)) =>
      || d.applicationId != e.applicationId || d.serviceId != e.serviceId || d.environment != e.environment
      || d.workspace != e.workspace || d.zone != e.zone || d.ownerRef != e.ownerRef
    case (Res(r), Res(s)) =>
      r.applicationId != s.applicationId || r.key != s.key || r.environment != s.environment
      || r.workspace != s.workspace
    case _ => true
  }

  predicate At(e: Entries, kind: EntryKind, id: string, app: string) {
    EntryId(kind, id) in e && e[EntryId(kind, id)].app == app
  }

  predicate KeyTaken(e: Entries, kind: EntryKind, app: string, naturalKey: Option<string>) {
    naturalKey.Some? && exists k <- e :: k.kind == kind && e[k].app == app && e[k].naturalKey == naturalKey
  }

  /** The capability version a deployment selects has been published by its application. */
  predicate Selects(e: Entries, app: string, d: Data) {
    d.Dep? && d.deployment.capabilityVersion != "" ==>
      At(e, CapabilityKind, d.deployment.serviceId + "/" + d.deployment.capabilityVersion, app)
  }

  /** One upsert, with the checks before it; nothing when the transaction is to be rolled back. */
  function Put(e: Entries, assets: set<string>, app: string, d: Data): Option<Entries> {
    var k := IdOf(d);
    if (Logo(d) != "" && Logo(d) !in assets) || !Selects(e, app, d) then None
    else if k in e then
      if Clashes(e[k].data, d) then None else Some(e[k := e[k].(data := d)])
      else if KeyTaken(e, k.kind, app, NaturalKey(d)) then None
    else Some(e[k := Row(app, NaturalKey(d), d)])
  }

  function Puts(e: Entries, assets: set<string>, app: string, items: seq<Data>): Option<Entries> {
    if items == [] then Some(e)
    else
      match Puts(e, assets, app, items[..|items| - 1])
      case None => None
      case Some(f) => Put(f, assets, app, items[|items| - 1])
  }

  lemma {:induction false} PutsFail(e: Entries, assets: set<string>, app: string, items: seq<Data>, n: nat)
    requires n <= |items| && Puts(e, assets, app, items[..n]) == None
    ensures Puts(e, assets, app, items) == None
  {
    if n == |items| {
      assert items[..n] == items;
    } else {
      assert items[..|items| - 1][..n] == items[..n];
      PutsFail(e, assets, app, items[..|items| - 1], n);
    }
  }

  function Services(b: Bundle): seq<Data> {
    seq(|b.services|, i requires 0 <= i < |b.services| => Svc(b.services[i]))
  }

  function Capabilities(b: Bundle): seq<Data> {
    seq(|b.capabilities|, i requires 0 <= i < |b.capabilities| => Cap(b.capabilities[i]))
  }

  function Deployments(b: Bundle): seq<Data> {
    seq(|b.deployments|, i requires 0 <= i < |b.deployments| => Dep(b.deployments[i]))
  }

  function Resources(b: Bundle): seq<Data> {
    seq(|b.resources|, i requires 0 <= i < |b.resources| => Res(b.resources[i]))
  }

  function Then(e: Option<Entries>, assets: set<string>, app: string, items: seq<Data>): Option<Entries> {
    if e == None then None else Puts(e.value, assets, app, items)
  }

  /** What a bundle's transaction would commit. */
  function Published(e: Entries, assets: set<string>, b: Bundle): Option<Entries> {
    var id := b.application.id;
    var apps := Puts(e, assets, id, [App(b.application)]);
    var services := Then(apps, assets, id, Services(b));
    var capabilities := Then(services, assets, id, Capabilities(b));
    var deployments := Then(capabilities, assets, id, Deployments(b));
    Then(deployments, assets, id, Resources(b))
  }

  function Deactivated(e: Entries, id: string): Entries {
    var k := EntryId(DeploymentKind, id);
    if k in e && e[k].data.Dep? then e[k := e[k].(data := Dep(e[k].data.deployment.(lifecycle := Inactive)))] else e
  }

  // ---- what the tables keep

  /** Every reference of a row leads to a row of the same application. */
  predicate Linked(e: Entries, row: Row) {
    match row.data
    case App(a) => row.app == a.id
    case Svc(s) => row.app == s.applicationId && At(e, ApplicationKind, row.app, row.app)
    case Cap(c) => At(e, ServiceKind, c.serviceId, row.app) && ValidId(c.serviceId) && ValidId(c.version)
    case Dep(d) =>
      && row.app == d.applicationId && At(e, ApplicationKind, row.app, row.app)
      && At(e, ServiceKind, d.serviceId, row.app) && ValidId(d.serviceId)
         && (d.capabilityVersion != "" ==> ValidId(d.capabilityVersion))
      && Selects(e, row.app, row.data)
    case Res(r) =>
      && row.app == r.applicationId && At(e, ApplicationKind, row.app, row.app)
      && forall id <- r.serviceIds :: At(e, ServiceKind, id, row.app)
  }

  /** Rows sit under their ids, carry their natural keys, no natural key twice in an application, and no reference
      dangles. */
  ghost predicate Sound(e: Entries) {
    && (forall k <- e :: IdOf(e[k].data) == k && NaturalKey(e[k].data) == e[k].naturalKey && Linked(e, e[k]))
    && (forall k, l | k in e && l in e && k.kind == l.kind && e[k].app == e[l].app && e[k].naturalKey.Some? ::
          e[k].naturalKey == e[l].naturalKey ==> k == l)
  }

  /** Rows are never lost, and never change application, natural key or identity; capabilities never change at all. */
  ghost predicate Evolves(e: Entries, f: Entries) {
    forall k <- e ::
             k in f && f[k].app == e[k].app && f[k].naturalKey == e[k].naturalKey && !Clashes(e[k].data, f[k].data)
  }

  lemma EvolvesRefl(e: Entries)
    ensures Evolves(e, e)
  {
  }

  lemma EvolvesTrans(e: Entries, f: Entries, g: Entries)
    requires Evolves(e, f) && Evolves(f, g)
    ensures Evolves(e, g)
  {
    forall k | k in e
      ensures !Clashes(e[k].data, g[k].data)
    {
      assert !Clashes(e[k].data, f[k].data) && !Clashes(f[k].data, g[k].data);
    }
  }

  lemma LinkedKept(e: Entries, f: Entries, row: Row)
    requires Evolves(e, f) && Linked(e, row)
    ensures Linked(f, row)
  {
    hide Clashes;
  }

  /** An item whose references, the selected version apart, are already there. */
  predicate Fits(e: Entries, app: string, d: Data) {
    match d
    case App(a) => a.id == app
    case Svc(s) => s.applicationId == app && At(e, ApplicationKind, app, app)
    case Cap(c) => At(e, ServiceKind, c.serviceId, app) && ValidId(c.serviceId) && ValidId(c.version)
    case Dep(d) =>
      && d.applicationId == app && At(e, ApplicationKind, app, app) && At(e, ServiceKind, d.serviceId, app)
         && ValidId(d.serviceId)
      && (d.capabilityVersion != "" ==> ValidId(d.capabilityVersion))
    case Res(r) => r.applicationId == app && At(e, ApplicationKind, app, app)
                   && forall id <- r.serviceIds :: At(e, ServiceKind, id, app)
  }

  lemma FitsKept(e: Entries, f: Entries, app: string, d: Data)
    requires Evolves(e, f) && Fits(e, app, d)
    ensures Fits(f, app, d)
  {
    hide Clashes;
  }

  lemma FitsLinked(e: Entries, app: string, d: Data)
    requires Fits(e, app, d) && Selects(e, app, d)
    ensures Linked(e, Row(app, NaturalKey(d), d))
  {
  }

  /** Replacing data that does not clash: the row keeps its id, natural key and, as it fits, its application. */
  lemma SameRow(e: Entries, app: string, d: Data)
    requires Sound(e) && Fits(e, app, d) && IdOf(d) in e && !Clashes(e[IdOf(d)].data, d)
    ensures e[IdOf(d)].app == app && e[IdOf(d)].naturalKey == NaturalKey(d)
  {
    var row := e[IdOf(d)];
    assert Linked(e, row);
  }

  lemma PutEvolves(e: Entries, assets: set<string>, app: string, d: Data)
    requires Sound(e) && Fits(e, app, d) && Put(e, assets, app, d).Some?
    ensures Evolves(e, Put(e, assets, app, d).value) && At(Put(e, assets, app, d).value, IdOf(d).kind, IdOf(d).id, app)
  {
    hide Fits, Linked;
    if IdOf(d) in e {
      SameRow(e, app, d);
    }
    forall k | k in e
      ensures k == IdOf(d) || !Clashes(e[k].data, e[k].data)
    {
      NoSelfClash(e[k].data);
    }
  }

  lemma NoSelfClash(d: Data)
    ensures !Clashes(d, d)
  {
  }

  lemma PutSound(e: Entries, assets: set<string>, app: string, d: Data)
    requires Sound(e) && Fits(e, app, d) && Put(e, assets, app, d).Some?
    ensures Sound(Put(e, assets, app, d).value)
  {
    hide Fits, Linked, Clashes, Selects;
    var f := Put(e, assets, app, d).value;
    PutEvolves(e, assets, app, d);
    FitsKept(e, f, app, d);
    FitsLinked(e, app, d);
    if IdOf(d) in e {
      SameRow(e, app, d);
    }
    LinkedKept(e, f, Row(app, NaturalKey(d), d));
    forall k | k in f
      ensures IdOf(f[k].data) == k && NaturalKey(f[k].data) == f[k].naturalKey && Linked(f, f[k])
    {
      if k != IdOf(d) {
        LinkedKept(e, f, e[k]);
      }
    }
  }

  /** A list of items that fit lands whole: sound tables stay sound, and every item is there under its application. */
  lemma {:induction false} PutsSound(e: Entries, assets: set<string>, app: string, items: seq<Data>)
    requires Sound(e) && (forall d :: d in items ==> Fits(e, app, d)) && Puts(e, assets, app, items).Some?
    ensures Sound(Puts(e, assets, app, items).value) && Evolves(e, Puts(e, assets, app, items).value)
    ensures forall d :: d in items ==> At(Puts(e, assets, app, items).value, IdOf(d).kind, IdOf(d).id, app)
  {
    hide Fits, Sound, Evolves, Put;
    if items == [] {
      EvolvesRefl(e);
    } else {
      var front, d := items[..|items| - 1], items[|items| - 1];
      assert items == front + [d];
      PutsSound(e, assets, app, front);
      var f := Puts(e, assets, app, front).value;
      FitsKept(e, f, app, d);
      PutSound(f, assets, app, d);
      PutEvolves(f, assets, app, d);
      var g := Puts(e, assets, app, items).value;
      EvolvesTrans(e, f, g);
      forall x | x in front
        ensures At(g, IdOf(x).kind, IdOf(x).id, app)
      {
        AtKept(f, g, IdOf(x).kind, IdOf(x).id, app);
      }
    }
  }

  lemma AtKept(e: Entries, f: Entries, kind: EntryKind, id: string, app: string)
    requires Evolves(e, f) && At(e, kind, id, app)
    ensures At(f, kind, id, app)
  {
  }

  /** A transaction leaves the tables sound, and only adds and replaces. */
  lemma PublishSound(e: Entries, assets: set<string>, b: Bundle, o: Oracle)
    requires Sound(e) && WellFormed(b, o) && Published(e, assets, b).Some?
    ensures Sound(Published(e, assets, b).value) && Evolves(e, Published(e, assets, b).value)
  {
    hide Sound, Evolves, Fits, Puts, Distinct, At, ValidDisplay;
    var app := b.application.id;
    var apps := [App(b.application)];
    assert Fits(e, app, App(b.application)) by {
      AppFits(e, b);
    }
    PutsSound(e, assets, app, apps);
    var e1 := Puts(e, assets, app, apps).value;
    assert App(b.application) in apps;
    ServicesFit(e1, b, o);
    PutsSound(e1, assets, app, Services(b));
    var e2 := Puts(e1, assets, app, Services(b)).value;
    AtKept(e1, e2, ApplicationKind, app, app);
    CapabilitiesFit(e2, b, o);
    PutsSound(e2, assets, app, Capabilities(b));
    var e3 := Puts(e2, assets, app, Capabilities(b)).value;
    AllKept(e2, e3, b);
    DeploymentsFit(e3, b, o);
    PutsSound(e3, assets, app, Deployments(b));
    var e4 := Puts(e3, assets, app, Deployments(b)).value;
    AllKept(e3, e4, b);
    ResourcesFit(e4, b, o);
    PutsSound(e4, assets, app, Resources(b));
    EvolvesTrans(e, e1, e2);
    EvolvesTrans(e, e2, e3);
    EvolvesTrans(e, e3, e4);
    EvolvesTrans(e, e4, Published(e, assets, b).value);
  }

  /** The bundle's application and services are in the tables. */
  ghost predicate Based(e: Entries, b: Bundle) {
    At(e, ApplicationKind, b.application.id, b.application.id)
    && forall d :: d in Services(b) ==> At(e, IdOf(d).kind, IdOf(d).id, b.application.id)
  }

  lemma AllKept(e: Entries, f: Entries, b: Bundle)
    requires Evolves(e, f) && Based(e, b)
    ensures Based(f, b)
  {
  }

  lemma AppFits(e: Entries, b: Bundle)
    ensures Fits(e, b.application.id, App(b.application))
  {
  }

  lemma ServicesFit(e: Entries, b: Bundle, o: Oracle)
    requires WellFormed(b, o) && At(e, ApplicationKind, b.application.id, b.application.id)
    ensures forall d :: d in Services(b) ==> Fits(e, b.application.id, d)
  {
    hide Distinct, ValidDisplay, ValidId, AllIds;
    forall d | d in Services(b)
      ensures Fits(e, b.application.id, d)
    {
      var i :| 0 <= i < |b.services| && d == Svc(b.services[i]);
      assert ValidService(b.services[i], b, o);
    }
  }

  lemma ServiceAt(e: Entries, b: Bundle, id: string)
    requires Based(e, b) && id in ServiceIds(b.services)
    ensures At(e, ServiceKind, id, b.application.id)
  {
    var i :| 0 <= i < |b.services| && b.services[i].id == id;
    assert Services(b)[i] in Services(b);
  }

  lemma ServiceValid(b: Bundle, o: Oracle, id: string)
    requires WellFormed(b, o) && id in ServiceIds(b.services)
    ensures ValidId(id)
  {
    hide Distinct, ValidDisplay;
    var i :| 0 <= i < |b.services| && b.services[i].id == id;
    assert ValidService(b.services[i], b, o);
  }

  lemma CapabilitiesFit(e: Entries, b: Bundle, o: Oracle)
    requires WellFormed(b, o) && Based(e, b)
    ensures forall d :: d in Capabilities(b) ==> Fits(e, b.application.id, d)
  {
    hide Distinct, ValidDisplay, Based, ValidId, AllIds, ServiceIds;
    forall d | d in Capabilities(b)
      ensures Fits(e, b.application.id, d)
    {
      var i :| 0 <= i < |b.capabilities| && d == Cap(b.capabilities[i]);
      ServiceAt(e, b, d.capability.serviceId);
      ServiceValid(b, o, d.capability.serviceId);
    }
  }

  lemma DeploymentsFit(e: Entries, b: Bundle, o: Oracle)
    requires WellFormed(b, o) && Based(e, b)
    ensures forall d :: d in Deployments(b) ==> Fits(e, b.application.id, d)
  {
    hide Distinct, ValidDisplay, ValidId, AllIds, ServiceIds;
    forall d | d in Deployments(b)
      ensures Fits(e, b.application.id, d)
    {
      var i :| 0 <= i < |b.deployments| && d == Dep(b.deployments[i]);
      ServiceAt(e, b, d.deployment.serviceId);
      ServiceValid(b, o, d.deployment.serviceId);
    }
  }

  lemma ResourcesFit(e: Entries, b: Bundle, o: Oracle)
    requires WellFormed(b, o) && Based(e, b)
    ensures forall d :: d in Resources(b) ==> Fits(e, b.application.id, d)
  {
    hide Distinct, ValidDisplay, ValidId, AllIds, ServiceIds;
    forall d | d in Resources(b)
      ensures Fits(e, b.application.id, d)
    {
      var i :| 0 <= i < |b.resources| && d == Res(b.resources[i]);
      forall id | id in d.resource.serviceIds
        ensures At(e, ServiceKind, id, b.application.id)
      {
        ServiceAt(e, b, id);
      }
    }
  }

  lemma DeactivateSound(e: Entries, id: string)
    requires Sound(e)
    ensures Sound(Deactivated(e, id)) && Evolves(e, Deactivated(e, id))
  {
    var k, f := EntryId(DeploymentKind, id), Deactivated(e, id);
    forall l | l in e
      ensures !Clashes(e[l].data, f[l].data)
    {
      NoSelfClash(e[l].data);
    }
    assert Evolves(e, f);
    forall l | l in e
      ensures Linked(f, f[l])
    {
      LinkedKept(e, f, e[l]);
    }
  }

  // ---- runs

  datatype Op = Apply(bundle: Bundle, assets: set<string>) | Deactivate(id: string)

  /** The tables after one call; a refused bundle changes nothing. */
  ghost function Performed(e: Entries, op: Op, o: Oracle): Entries {
    match op
    case Apply(b, assets) => if WellFormed(b, o) && Published(e, assets, b).Some? then Published(e, assets, b).value
    else e
    case Deactivate(id) => Deactivated(e, id)
  }

  /** The tables after a sequence of calls. */
  ghost function Ran(e: Entries, ops: seq<Op>, o: Oracle): Entries {
    if ops == [] then e else Performed(Ran(e, ops[..|ops| - 1], o), ops[|ops| - 1], o)
  }

  lemma StepSound(e: Entries, op: Op, o: Oracle)
    requires Sound(e)
    ensures Sound(Performed(e, op, o)) && Evolves(e, Performed(e, op, o))
  {
    hide Sound, Evolves, WellFormed, Deactivated, Published;
    match op
    case Apply(b, assets) =>
      EvolvesRefl(e);
      if WellFormed(b, o) && Published(e, assets, b).Some? {
        PublishSound(e, assets, b, o);
      }
    case Deactivate(id) => DeactivateSound(e, id);
  }

  /** Over every sequence of publications and deactivations, refused ones included: the tables stay sound, and
      between any two points of the run no row is lost, no identity changes, and no capability changes at all. */
  lemma {:induction false} RunKeeps(ops: seq<Op>, n: nat, o: Oracle)
    requires n <= |ops|
    ensures Sound(Ran(map[], ops, o)) && Evolves(Ran(map[], ops[..n], o), Ran(map[], ops, o))
  {
    hide Sound, Evolves, Performed;
    if n == |ops| {
      assert ops[..n] == ops;
      EvolvesRefl(Ran(map[], ops, o));
      if ops != [] {
        RunKeeps(ops[..|ops| - 1], |ops| - 1, o);
        StepSound(Ran(map[], ops[..|ops| - 1], o), ops[|ops| - 1], o);
      } else {
        NoneSound();
      }
    } else {
      var front := ops[..|ops| - 1];
      assert front[..n] == ops[..n];
      RunKeeps(front, n, o);
      StepSound(Ran(map[], front, o), ops[|ops| - 1], o);
      EvolvesTrans(Ran(map[], ops[..n], o), Ran(map[], front, o), Ran(map[], ops, o));
    }
  }

  lemma NoneSound()
    ensures Sound(map[])
  {
  }

  /** What that says of a capability and of the other identities. */
  lemma NothingRepublished(ops: seq<Op>, n: nat, o: Oracle, k: EntryId)
    requires n <= |ops| && k in Ran(map[], ops[..n], o)
    ensures k in Ran(map[], ops, o)
    ensures var was, now := Ran(map[], ops[..n], o)[k], Ran(map[], ops, o)[k];
            && IdOf(now.data) == IdOf(was.data) == k && NaturalKey(now.data) == NaturalKey(was.data) == now.naturalKey
            && now.app == was.app && (was.data.Cap? ==> now == was)
            && match was.data
               case App(a) => now.data.App? && now.data.app.project == a.project
               case Svc(s) =>
                 now.data.Svc? && now.data.service.applicationId == s.applicationId && now.data.service.key == s.key
               case Cap(c) => now.data == Cap(c)
               case Dep(d) =>
                 && now.data.Dep?
                 && var e := now.data.deployment;
                    && e.applicationId == d.applicationId && e.serviceId == d.serviceId && e.zone == d.zone
                    && e.environment == d.environment && e.workspace == d.workspace && e.ownerRef == d.ownerRef
               case Res(r) =>
                 && now.data.Res?
                 && var q := now.data.resource;
                    && q.applicationId == r.applicationId && q.key == r.key && q.environment == r.environment
                    && q.workspace == r.workspace
  {
    hide Ran;
    RunKeeps(ops, n, o);
    RunKeeps(ops[..n], n, o);
    assert ops[..n][..n] == ops[..n];
  }

  // ---- one upsert, and one bundle, by their columns

  /** When an item is refused: its logo was not imported, the version it selects is not its application's, it
      changes what a row with its id may not change, or it is new and its key is another's in the application. */
  lemma PutRefused(e: Entries, assets: set<string>, app: string, d: Data)
    ensures var logo := match d
                        case App(a) => a.display.logo
                        case Svc(s) => s.display.logo
                        case Res(r) => r.display.logo
                        case _ => "";
            var unpublished := d.Dep? && d.deployment.capabilityVersion != ""
                               && var v := EntryId(CapabilityKind,
                                                   d.deployment.serviceId + "/" + d.deployment.capabilityVersion);
                                  v !in e || e[v].app != app;
            var fixed := match d
                         case App(a) => EntryId(ApplicationKind, a.id) in e ==>
                           e[EntryId(ApplicationKind, a.id)].data.App?
                           && e[EntryId(ApplicationKind, a.id)].data.app.project == a.project
                         case Svc(s) => EntryId(ServiceKind, s.id) in e ==>
                           e[EntryId(ServiceKind, s.id)].data.Svc?
                           && e[EntryId(ServiceKind, s.id)].data.service.applicationId == s.applicationId
                           && e[EntryId(ServiceKind, s.id)].data.service.key == s.key
                         case Cap(c) => EntryId(CapabilityKind, c.serviceId + "/" + c.version) in e ==>
                           e[EntryId(CapabilityKind, c.serviceId + "/" + c.version)].data == Cap(c)
                         case Dep(d) => EntryId(DeploymentKind, d.id) in e ==>
                           && e[EntryId(DeploymentKind, d.id)].data.Dep?
                           && var was := e[EntryId(DeploymentKind, d.id)].data.deployment;
                              && was.applicationId == d.applicationId && was.serviceId == d.serviceId
                              && was.environment == d.environment && was.workspace == d.workspace
                              && was.zone == d.zone && was.ownerRef == d.ownerRef
                         case Res(r) => EntryId(ResourceKind, r.id) in e ==>
                           && e[EntryId(ResourceKind, r.id)].data.Res?
                           && var was := e[EntryId(ResourceKind, r.id)].data.resource;
                              && was.applicationId == r.applicationId && was.key == r.key
                              && was.environment == r.environment && was.workspace == r.workspace;
            var taken := match d
                         case Svc(s) =>
                           s.key != "" && EntryId(ServiceKind, s.id) !in e
                           && exists k <- e ::
                                k.kind == ServiceKind && e[k].app == app && e[k].naturalKey == Some(s.key)
                         case Res(r) =>
                           EntryId(ResourceKind, r.id) !in e
                           && exists k <- e :: k.kind == ResourceKind && e[k].app == app
                                               && e[k].naturalKey == Some(r.environment + "/" + r.workspace + "/"
                                                                          + r.key)
                         case _ => false;
            Put(e, assets, app, d) == None <==> (logo != "" && logo !in assets) || unpublished || !fixed || taken
  {
  }

  /** In sound tables two services of an application never share a key, and two resources of an application never share
      environment, workspace and key. */
  lemma KeysUnique(e: Entries, k: EntryId, l: EntryId)
    requires Sound(e) && k in e && l in e && e[k].app == e[l].app && k != l
    ensures e[k].data.Svc? && e[l].data.Svc? && e[k].data.service.key != "" ==>
              e[k].data.service.key != e[l].data.service.key
    ensures e[k].data.Res? && e[l].data.Res? ==>
              var q, r := e[k].data.resource, e[l].data.resource;
              q.environment != r.environment || q.workspace != r.workspace || q.key != r.key
  {
    hide Linked;
    assert IdOf(e[k].data) == k && IdOf(e[l].data) == l;
  }

  ghost predicate OwnIds(items: seq<Data>) {
    forall i, j :: 0 <= i < j < |items| ==> IdOf(items[i]) != IdOf(items[j])
  }

  ghost predicate Among(items: seq<Data>, k: EntryId) {
    exists d :: d in items && IdOf(d) == k
  }

  ghost predicate LogosIn(items: seq<Data>, assets: set<string>) {
    forall d :: d in items ==> Logo(d) == "" || Logo(d) in assets
  }

  /** A list of items with ids of their own that goes through is stored, each item as it is, and no other row
      changes. */
  lemma {:induction false} PutsStored(e: Entries, assets: set<string>, app: string, items: seq<Data>)
    requires OwnIds(items) && Puts(e, assets, app, items).Some?
    ensures var f := Puts(e, assets, app, items).value;
            && (forall d :: d in items ==> IdOf(d) in f && f[IdOf(d)].data == d)
            && (forall k :: !Among(items, k) ==> (k in f <==> k in e) && (k in e ==> f[k] == e[k]))
            && LogosIn(items, assets)
  {
    hide Put, IdOf, Logo;
    if items != [] {
      var front, d := items[..|items| - 1], items[|items| - 1];
      assert items == front + [d];
      PutsStored(e, assets, app, front);
      var f := Puts(e, assets, app, front).value;
      PutStored(f, assets, app, d);
      forall x | x in front
        ensures IdOf(x) != IdOf(d)
      {
        var i :| 0 <= i < |front| && front[i] == x;
        assert items[i] == x;
      }
      forall k | !Among(items, k)
        ensures !Among(front, k) && k != IdOf(d)
      {
        assert d in items;
        assert forall x :: x in front ==> x in items;
      }
    }
  }

  lemma PutStored(e: Entries, assets: set<string>, app: string, d: Data)
    requires Put(e, assets, app, d).Some?
    ensures var f := Put(e, assets, app, d).value;
            && IdOf(d) in f && f[IdOf(d)].data == d && f.Keys == e.Keys + {IdOf(d)}
            && (forall k :: k in e && k != IdOf(d) ==> f[k] == e[k])
            && (Logo(d) == "" || Logo(d) in assets)
  {
    hide Clashes, Selects, NaturalKey, KeyTaken, Logo;
  }

  /** All the items of a bundle. */
  function ItemsOf(b: Bundle): seq<Data> {
    [App(b.application)] + Services(b) + Capabilities(b) + Deployments(b) + Resources(b)
  }

  /** A bundle goes through as one list. */
  lemma PublishedIs(e: Entries, assets: set<string>, b: Bundle)
    ensures Published(e, assets, b) == Puts(e, assets, b.application.id, ItemsOf(b))
  {
    hide Put;
    var id, apps := b.application.id, [App(b.application)];
    PutsConcat(e, assets, id, apps, Services(b));
    PutsConcat(e, assets, id, apps + Services(b), Capabilities(b));
    PutsConcat(e, assets, id, apps + Services(b) + Capabilities(b), Deployments(b));
    PutsConcat(e, assets, id, apps + Services(b) + Capabilities(b) + Deployments(b), Resources(b));
  }

  lemma {:induction false} PutsConcat(e: Entries, assets: set<string>, app: string, a: seq<Data>, b: seq<Data>)
    ensures Puts(e, assets, app, a + b) == Then(Puts(e, assets, app, a), assets, app, b)
  {
    hide Put;
    if b == [] {
      assert a + b == a;
    } else {
      assert (a + b)[..|a + b| - 1] == a + b[..|b| - 1];
      PutsConcat(e, assets, app, a, b[..|b| - 1]);
    }
  }

  ghost predicate OfKinds(items: seq<Data>, kinds: set<EntryKind>) {
    forall d :: d in items ==> IdOf(d).kind in kinds
  }

  lemma OwnConcat(a: seq<Data>, b: seq<Data>, kinds: set<EntryKind>, others: set<EntryKind>)
    requires OwnIds(a) && OwnIds(b) && OfKinds(a, kinds) && OfKinds(b, others) && kinds !! others
    ensures OwnIds(a + b) && OfKinds(a + b, kinds + others)
  {
    hide IdOf;
    var all := a + b;
    forall i, j | 0 <= i < j < |all|
      ensures IdOf(all[i]) != IdOf(all[j])
    {
      if i < |a| <= j {
        assert all[i] in a && all[j] in b;
      }
    }
  }

  /** The ids of a well-formed bundle differ kind by kind. */
  lemma BundleIds(b: Bundle, o: Oracle)
    requires WellFormed(b, o)
    ensures OwnIds(ItemsOf(b))
  {
    hide ValidDisplay, PartsValid, Distinct, OwnIds, OfKinds;
    StagesOwn(b, o);
    var apps := [App(b.application)];
    OwnConcat(apps, Services(b), {ApplicationKind}, {ServiceKind});
    OwnConcat(apps + Services(b), Capabilities(b), {ApplicationKind} + {ServiceKind}, {CapabilityKind});
    OwnConcat(apps + Services(b) + Capabilities(b), Deployments(b), {ApplicationKind} + {ServiceKind}
              + {CapabilityKind},
              {DeploymentKind});
    OwnConcat(apps + Services(b) + Capabilities(b) + Deployments(b), Resources(b),
              {ApplicationKind} + {ServiceKind} + {CapabilityKind} + {DeploymentKind}, {ResourceKind});
  }

  lemma StagesOwn(b: Bundle, o: Oracle)
    requires WellFormed(b, o)
    ensures OwnIds([App(b.application)]) && OfKinds([App(b.application)], {ApplicationKind})
    ensures OwnIds(Services(b)) && OfKinds(Services(b), {ServiceKind})
    ensures OwnIds(Capabilities(b)) && OfKinds(Capabilities(b), {CapabilityKind})
    ensures OwnIds(Deployments(b)) && OfKinds(Deployments(b), {DeploymentKind})
    ensures OwnIds(Resources(b)) && OfKinds(Resources(b), {ResourceKind})
  {
    hide ValidDisplay, PartsValid, VersionKey;
    var first := [b.application.id] + ServiceIds(b.services);
    DistinctParts(first + DeploymentIds(b.deployments), ResourceIds(b.resources));
    DistinctParts(first, DeploymentIds(b.deployments));
    DistinctParts([b.application.id], ServiceIds(b.services));
    forall i, j | 0 <= i < j < |b.services|
      ensures b.services[i].id != b.services[j].id
    {
      assert ServiceIds(b.services)[i] != ServiceIds(b.services)[j];
    }
    forall i, j | 0 <= i < j < |b.deployments|
      ensures b.deployments[i].id != b.deployments[j].id
    {
      assert DeploymentIds(b.deployments)[i] != DeploymentIds(b.deployments)[j];
    }
    forall i, j | 0 <= i < j < |b.resources|
      ensures b.resources[i].id != b.resources[j].id
    {
      assert ResourceIds(b.resources)[i] != ResourceIds(b.resources)[j];
    }
    forall i, j | 0 <= i < j < |b.capabilities|
      ensures VersionKey(b.capabilities[i]) != VersionKey(b.capabilities[j])
    {
      assert VersionKeys(b.capabilities)[i] != VersionKeys(b.capabilities)[j];
    }
  }

  lemma DistinctParts(s: seq<string>, t: seq<string>)
    requires Distinct(s + t)
    ensures Distinct(s) && Distinct(t)
  {
    DistinctPrefix(s, t);
    forall i, j | 0 <= i < j < |t|
      ensures t[i] != t[j]
    {
      assert (s + t)[|s| + i] == t[i] && (s + t)[|s| + j] == t[j];
    }
  }

  /** What a publication stores: the application and every part of the bundle, each as it is under its id, with all
      logos imported; no other row changes. */
  lemma BundleStored(e: Entries, assets: set<string>, b: Bundle, o: Oracle)
    requires WellFormed(b, o) && Published(e, assets, b).Some?
    ensures var f := Published(e, assets, b).value;
            && Holds(f, EntryId(ApplicationKind, b.application.id), App(b.application))
            && (forall s :: s in b.services ==> Holds(f, EntryId(ServiceKind, s.id), Svc(s)))
            && (forall c :: c in b.capabilities ==>
                  Holds(f, EntryId(CapabilityKind, c.serviceId + "/" + c.version), Cap(c)))
            && (forall d :: d in b.deployments ==> Holds(f, EntryId(DeploymentKind, d.id), Dep(d)))
            && (forall r :: r in b.resources ==> Holds(f, EntryId(ResourceKind, r.id), Res(r)))
    ensures forall k :: !Among(ItemsOf(b), k) ==>
              (k in Published(e, assets, b).value <==> k in e) && (k in e ==> Published(e, assets, b).value[k] == e[k])
    ensures (b.application.display.logo != "" ==> b.application.display.logo in assets)
            && (forall s :: s in b.services && s.display.logo != "" ==> s.display.logo in assets)
            && (forall r :: r in b.resources && r.display.logo != "" ==> r.display.logo in assets)
  {
    hide WellFormed, Puts, Published, OwnIds, Among;
    PublishedIs(e, assets, b);
    BundleIds(b, o);
    PutsStored(e, assets, b.application.id, ItemsOf(b));
    ItemsIn(b);
    var items := ItemsOf(b);
    forall s | s in b.services
      ensures Svc(s) in items
    {
    }
    forall c | c in b.capabilities
      ensures Cap(c) in items
    {
    }
    forall d | d in b.deployments
      ensures Dep(d) in items
    {
    }
    forall r | r in b.resources
      ensures Res(r) in items
    {
    }
  }

  ghost predicate Holds(e: Entries, k: EntryId, d: Data) {
    k in e && e[k].data == d
  }

  lemma ItemsIn(b: Bundle)
    ensures App(b.application) in ItemsOf(b)
    ensures forall s :: s in b.services ==> Svc(s) in ItemsOf(b)
    ensures forall c :: c in b.capabilities ==> Cap(c) in ItemsOf(b)
    ensures forall d :: d in b.deployments ==> Dep(d) in ItemsOf(b)
    ensures forall r :: r in b.resources ==> Res(r) in ItemsOf(b)
  {
    assert App(b.application) in [App(b.application)];
    forall s | s in b.services
      ensures Svc(s) in Services(b)
    {
      var i :| 0 <= i < |b.services| && b.services[i] == s;
      assert Services(b)[i] == Svc(s);
    }
    forall c | c in b.capabilities
      ensures Cap(c) in Capabilities(b)
    {
      var i :| 0 <= i < |b.capabilities| && b.capabilities[i] == c;
      assert Capabilities(b)[i] == Cap(c);
    }
    forall d | d in b.deployments
      ensures Dep(d) in Deployments(b)
    {
      var i :| 0 <= i < |b.deployments| && b.deployments[i] == d;
      assert Deployments(b)[i] == Dep(d);
    }
    forall r | r in b.resources
      ensures Res(r) in Resources(b)
    {
      var i :| 0 <= i < |b.resources| && b.resources[i] == r;
      assert Resources(b)[i] == Res(r);
    }
  }

  class Store {
    var entries: Entries
    var assets: set<string>

    constructor ()
      ensures entries == map[] && assets == {}
    {
      entries, assets := map[], {};
    }

    method PutAsset(id: string)
      modifies this`assets
      ensures assets == old(assets) + {id}
    {
      assets := assets + {id};
    }

    /** The selected version is looked up among the rows of the application. */
    method CapabilityPublished(work: Entries, app: string, d: Data) returns (ok: bool)
      ensures ok <==> Selects(work, app, d)
    {
      if !d.Dep? || d.deployment.capabilityVersion == "" {
        return true;
      }
      var k := EntryId(CapabilityKind, d.deployment.serviceId + "/" + d.deployment.capabilityVersion);
      return k in work && work[k].app == app;
    }

    method PutEntry(work: Entries, app: string, d: Data) returns (r: Option<Entries>)
      ensures r == Put(work, assets, app, d)
    {
      hide Selects;
      if Logo(d) != "" && Logo(d) !in assets {
        return None;
      }
      var published := CapabilityPublished(work, app, d);
      if !published {
        return None;
      }
      var k := IdOf(d);
      if k in work {
        if Clashes(work[k].data, d) {
          return None;
        }
        return Some(work[k := work[k].(data := d)]);
      }
      if KeyTaken(work, k.kind, app, NaturalKey(d)) {
        return None;
      }
      return Some(work[k := Row(app, NaturalKey(d), d)]);
    }

    method PutAll(work: Entries, app: string, items: seq<Data>) returns (r: Option<Entries>)
      ensures r == Puts(work, assets, app, items)
    {
      hide Put;
      r := Some(work);
      for i := 0 to |items|
        invariant r == Puts(work, assets, app, items[..i]) && r.Some?
      {
        assert items[..i + 1][..i] == items[..i];
        r := PutEntry(r.value, app, items[i]);
        if r == None {
          PutsFail(work, assets, app, items, i + 1);
          return;
        }
      }
      assert items[..|items|] == items;
    }

    /** One application's metadata, in one transaction: all of it or nothing. Without `commit` it only says whether
        it would have gone through. */
    method ApplyCatalog(b: Bundle, o: Oracle, commit: bool) returns (ok: bool)
      modifies this`entries
      ensures ok <==> WellFormed(b, o) && Published(old(entries), assets, b).Some?
      ensures entries == if ok && commit then Published(old(entries), assets, b).value else old(entries)
    {
      hide WellFormed, Puts;
      var valid := Validate(b, o);
      if !valid {
        return false;
      }
      var id := b.application.id;
      var work := PutAll(entries, id, [App(b.application)]);
      if work.Some? {
        work := PutAll(work.value, id, Services(b));
      }
      if work.Some? {
        work := PutAll(work.value, id, Capabilities(b));
      }
      if work.Some? {
        work := PutAll(work.value, id, Deployments(b));
      }
      if work.Some? {
        work := PutAll(work.value, id, Resources(b));
      }
      if work == None {
        return false;
      }
      if commit {
        entries := work.value;
      }
      return true;
    }

    method DeactivateDeployment(id: string) returns (found: bool)
      requires Sound(entries)
      modifies this`entries
      ensures found <==> EntryId(DeploymentKind, id) in old(entries)
      ensures entries == Deactivated(old(entries), id) && Sound(entries)
    {
      var k := EntryId(DeploymentKind, id);
      if k !in entries {
        return false;
      }
      DeactivateSound(entries, id);
      assert IdOf(entries[k].data) == k;
      entries := entries[k := entries[k].(data := Dep(entries[k].data.deployment.(lifecycle := Inactive)))];
      return true;
    }
  }
}

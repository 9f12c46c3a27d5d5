/** Snapshots of the catalog, and the join that lists what may be entered. */
module CatalogAccess {
  import opened Core
  import opened Text
  import opened Catalog
  import opened CatalogStore

  datatype Snapshot = Snapshot(applications: seq<Application>, services: seq<Service>, capabilities: seq<Capability>,
                               deployments: seq<Deployment>, resources: seq<Resource>)

  datatype Entry = Entry(application: Application, service: Service, deployment: Deployment, capability: Capability)

  // ---- snapshots

  predicate InScope(row: Row, application: string) {
    application == "" || row.app == application
  }

  /** Some row in scope, outside `todo`, holds this. */
  ghost predicate Among(e: Entries, application: string, todo: set<EntryId>, d: Data) {
    exists k <- e :: k !in todo && InScope(e[k], application) && e[k].data == d
  }

  /** Each row in scope once, in the list of its kind, and nothing else. */
  ghost predicate Shows(s: Snapshot, e: Entries, application: string, todo: set<EntryId>) {
    && (forall a :: a in s.applications <==> Among(e, application, todo, App(a)))
    && (forall v :: v in s.services <==> Among(e, application, todo, Svc(v)))
    && (forall c :: c in s.capabilities <==> Among(e, application, todo, Cap(c)))
    && (forall d :: d in s.deployments <==> Among(e, application, todo, Dep(d)))
    && (forall r :: r in s.resources <==> Among(e, application, todo, Res(r)))
    && (forall i, j :: 0 <= i < j < |s.deployments| ==> s.deployments[i].id != s.deployments[j].id)
  }

  function Shown(s: Snapshot, d: Data): Snapshot {
    match d
    case App(a) => s.(applications := s.applications + [a])
    case Svc(v) => s.(services := s.services + [v])
    case Cap(c) => s.(capabilities := s.capabilities + [c])
    case Dep(d) => s.(deployments := s.deployments + [d])
    case Res(r) => s.(resources := s.resources + [r])
  }

  lemma AmongStep(e: Entries, application: string, todo: set<EntryId>, k: EntryId)
    requires k in todo && k in e
    ensures forall d ::
              Among(e, application, todo - {k}, d)
              <==> Among(e, application, todo, d) || (InScope(e[k], application) && e[k].data == d)
  {
    hide InScope;
    forall d | Among(e, application, todo, d)
      ensures Among(e, application, todo - {k}, d)
    {
      var l :| l in e && l !in todo && InScope(e[l], application) && e[l].data == d;
      assert l !in todo - {k};
    }
    if InScope(e[k], application) {
      assert k !in todo - {k};
      assert Among(e, application, todo - {k}, e[k].data);
    }
  }

  lemma ShowsStep(s: Snapshot, e: Entries, application: string, todo: set<EntryId>, k: EntryId)
    requires Sound(e) && Shows(s, e, application, todo) && k in todo && k in e
    ensures Shows(if InScope(e[k], application) then Shown(s, e[k].data) else s, e, application, todo - {k})
  {
    hide Linked, NaturalKey, InScope, Among, Sound;
    AmongStep(e, application, todo, k);
    if InScope(e[k], application) && e[k].data.Dep? {
      forall d | d in s.deployments
        ensures d.id != e[k].data.deployment.id
      {
        OneId(e, application, todo, k, d);
      }
    }
  }

  lemma OneId(e: Entries, application: string, todo: set<EntryId>, k: EntryId, d: Deployment)
    requires Sound(e) && k in e && k in todo && e[k].data.Dep? && Among(e, application, todo, Dep(d))
    ensures d.id != e[k].data.deployment.id
  {
    hide Linked, NaturalKey, InScope;
    var l :| l in e && l !in todo && InScope(e[l], application) && e[l].data == Dep(d);
    assert IdOf(e[l].data) == l && IdOf(e[k].data) == k;
  }

  /** The rows of one application, or of all. */
  method Snap(store: Store, application: string) returns (s: Snapshot)
    requires Sound(store.entries)
    ensures Shows(s, store.entries, application, {})
    ensures forall d :: Lists(s, d) <==> exists k <- store.entries ::
                          store.entries[k].data == d && (application == "" || store.entries[k].app == application)
  {
    hide Sound, Shows;
    s := Snapshot([], [], [], [], []);
    var e := store.entries;
    var todo := e.Keys;
    ShowsNone(e, application);
    while todo != {}
      invariant todo <= e.Keys && Shows(s, e, application, todo)
      decreases todo
    {
      var k: EntryId :| k in todo;
      ShowsStep(s, e, application, todo, k);
      todo := todo - {k};
      if application == "" || e[k].app == application {
        s := Shown(s, e[k].data);
      }
    }
    ShowsMeans(s, e, application);
  }

  /** The snapshot has this in the list of its kind. */
  predicate Lists(s: Snapshot, d: Data) {
    match d
    case App(a) => a in s.applications
    case Svc(v) => v in s.services
    case Cap(c) => c in s.capabilities
    case Dep(d) => d in s.deployments
    case Res(r) => r in s.resources
  }

  lemma ShowsMeans(s: Snapshot, e: Entries, application: string)
    requires Shows(s, e, application, {})
    ensures forall d :: Lists(s, d) <==> exists k <- e ::
                          e[k].data == d && (application == "" || e[k].app == application)
  {
    forall d
      ensures Lists(s, d) <==> Among(e, application, {}, d)
    {
      hide Among;
    }
  }

  lemma ShowsNone(e: Entries, application: string)
    ensures Shows(Snapshot([], [], [], [], []), e, application, e.Keys)
  {
  }

  // ---- the join

  predicate Enabled(d: Deployment, environment: string, workspace: string) {
    d.environment == environment && d.workspace == workspace && d.lifecycle == Registered && d.capabilityVersion != ""
  }

  /** The enabled deployments, in order. */
  function EnabledOf(ds: seq<Deployment>, environment: string, workspace: string): seq<Deployment> {
    if ds == [] then []
    else EnabledOf(ds[..|ds| - 1], environment, workspace)
         + if Enabled(ds[|ds| - 1], environment, workspace) then [ds[|ds| - 1]] else []
  }

  function Inherited(own: string, parent: string): string {
    if own == "" then parent else own
  }

  /** A display with its gaps filled from the parent's; own links win. */
  function InheritDisplay(d: Display, parent: Display): Display {
    Display(Inherited(d.name, parent.name), Inherited(d.description, parent.description),
            Inherited(d.logo, parent.logo),
            Inherited(d.icon, parent.icon), Inherited(d.color, parent.color), parent.links + d.links)
  }

  /** Gaps are filled from the parent, and of two links by one name the own wins. */
  lemma InheritMeans(d: Display, parent: Display)
    ensures var r := InheritDisplay(d, parent);
            && r.name == (if d.name == "" then parent.name else d.name)
            && r.description == (if d.description == "" then parent.description else d.description)
            && r.logo == (if d.logo == "" then parent.logo else d.logo)
            && r.icon == (if d.icon == "" then parent.icon else d.icon)
            && r.color == (if d.color == "" then parent.color else d.color)
            && (forall l :: l in r.links <==> l in d.links || l in parent.links)
            && forall l <- r.links :: r.links[l] == if l in d.links then d.links[l] else parent.links[l]
  {
  }

  method Inherit(d: Display, parent: Display) returns (r: Display)
    ensures r == InheritDisplay(d, parent)
  {
    r := d;
    if r.name == "" {
      r := r.(name := parent.name);
    }
    if r.description == "" {
      r := r.(description := parent.description);
    }
    if r.logo == "" {
      r := r.(logo := parent.logo);
    }
    if r.icon == "" {
      r := r.(icon := parent.icon);
    }
    if r.color == "" {
      r := r.(color := parent.color);
    }
    var links: map<string, string> := map[];
    links := CopyInto(links, parent.links);
    links := CopyInto(links, d.links);
    assert map[] + parent.links + d.links == parent.links + d.links;
    r := r.(links := links);
  }

  method CopyInto(m: map<string, string>, more: map<string, string>) returns (r: map<string, string>)
    ensures r == m + more
  {
    r := m;
    var todo := more.Keys;
    while todo != {}
      invariant todo <= more.Keys
      invariant r == m + (more - todo)
      decreases todo
    {
      var k: string :| k in todo;
      todo := todo - {k};
      r := r[k := more[k]];
    }
    assert more - todo == more;
  }

  /** The entry of a deployment: its own application, service and selected capability version, with inherited
      display. */
  ghost predicate EntryFor(x: Entry, d: Deployment, s: Snapshot) {
    && x.deployment == d && x.application in s.applications && x.application.id == d.applicationId
    && x.capability in s.capabilities && VersionKey(x.capability) == d.serviceId + "/" + d.capabilityVersion
    && exists v ::
         v in s.services && v.id == d.serviceId
         && x.service == v.(display := InheritDisplay(v.display, x.application.display))
  }

  predicate Joins(s: Snapshot, d: Deployment) {
    && (exists i :: 0 <= i < |s.applications| && s.applications[i].id == d.applicationId)
    && (exists i :: 0 <= i < |s.services| && s.services[i].id == d.serviceId)
    && (exists i ::
          0 <= i < |s.capabilities| && VersionKey(s.capabilities[i]) == d.serviceId + "/" + d.capabilityVersion)
  }

  function Joined(s: Snapshot, ds: seq<Deployment>): seq<Deployment> {
    if ds == [] then []
    else Joined(s, ds[..|ds| - 1]) + if Joins(s, ds[|ds| - 1]) then [ds[|ds| - 1]] else []
  }

  /** The last application, service or capability under a key is the one indexed. */
  method IndexApplications(s: Snapshot) returns (m: map<string, Application>)
    ensures forall id :: id in m <==> exists i :: 0 <= i < |s.applications| && s.applications[i].id == id
    ensures forall id <- m :: m[id] in s.applications && m[id].id == id
  {
    m := map[];
    for i := 0 to |s.applications|
      invariant forall id :: id in m <==> exists j :: 0 <= j < i && s.applications[j].id == id
      invariant forall id <- m :: m[id] in s.applications && m[id].id == id
    {
      m := m[s.applications[i].id := s.applications[i]];
    }
  }

  method IndexServices(s: Snapshot) returns (m: map<string, Service>)
    ensures forall id :: id in m <==> exists i :: 0 <= i < |s.services| && s.services[i].id == id
    ensures forall id <- m :: m[id] in s.services && m[id].id == id
  {
    m := map[];
    for i := 0 to |s.services|
      invariant forall id :: id in m <==> exists j :: 0 <= j < i && s.services[j].id == id
      invariant forall id <- m :: m[id] in s.services && m[id].id == id
    {
      m := m[s.services[i].id := s.services[i]];
    }
  }

  method IndexCapabilities(s: Snapshot) returns (m: map<string, Capability>)
    ensures forall key :: key in m <==> exists i :: 0 <= i < |s.capabilities| && VersionKey(s.capabilities[i]) == key
    ensures forall key <- m :: m[key] in s.capabilities && VersionKey(m[key]) == key
  {
    hide VersionKey;
    m := map[];
    for i := 0 to |s.capabilities|
      invariant forall key :: key in m <==> exists j :: 0 <= j < i && VersionKey(s.capabilities[j]) == key
      invariant forall key <- m :: m[key] in s.capabilities && VersionKey(m[key]) == key
    {
      m := m[VersionKey(s.capabilities[i]) := s.capabilities[i]];
    }
  }

  ghost predicate EntriesFor(result: seq<Entry>, ds: seq<Deployment>, s: Snapshot) {
    |result| == |ds| && forall i :: 0 <= i < |ds| ==> EntryFor(result[i], ds[i], s)
  }

  /** The three indexes hold what the snapshot lists, by id or version key. */
  ghost predicate Indexed(s: Snapshot, apps: map<string, Application>, services: map<string, Service>, caps: map<string,
                          Capability>) {
    && (forall id :: id in apps <==> exists i :: 0 <= i < |s.applications| && s.applications[i].id == id)
    && (forall id <- apps :: apps[id] in s.applications && apps[id].id == id)
    && (forall id :: id in services <==> exists i :: 0 <= i < |s.services| && s.services[i].id == id)
    && (forall id <- services :: services[id] in s.services && services[id].id == id)
    && (forall key :: key in caps <==> exists i :: 0 <= i < |s.capabilities| && VersionKey(s.capabilities[i]) == key)
    && (forall key <- caps :: caps[key] in s.capabilities && VersionKey(caps[key]) == key)
  }

  method Index(s: Snapshot) returns (apps: map<string, Application>, services: map<string, Service>, caps: map<string,
                                     Capability>)
    ensures Indexed(s, apps, services, caps)
  {
    hide VersionKey;
    apps := IndexApplications(s);
    services := IndexServices(s);
    caps := IndexCapabilities(s);
  }

  /** One enabled deployment: its entry, or nothing when a part of it is not in the snapshot. */
  method Join(s: Snapshot, d: Deployment, apps: map<string, Application>, services: map<string, Service>,
              caps: map<string, Capability>)
    returns (r: Option<Entry>)
    requires Indexed(s, apps, services, caps)
    ensures r.Some? <==> Joins(s, d)
    ensures r.Some? ==> EntryFor(r.value, d, s)
  {
    hide VersionKey;
    if d.applicationId !in apps || d.serviceId !in services || d.serviceId + "/" + d.capabilityVersion !in caps {
      return None;
    }
    var a, v := apps[d.applicationId], services[d.serviceId];
    var display := Inherit(v.display, a.display);
    return Some(Entry(a, v.(display := display), d, caps[d.serviceId + "/" + d.capabilityVersion]));
  }

  /** On any snapshot: the enabled deployments whose application, service and version are in it, in order. */
  method Access(s: Snapshot, environment: string, workspace: string) returns (result: seq<Entry>)
    ensures EntriesFor(result, Joined(s, EnabledOf(s.deployments, environment, workspace)), s)
    ensures forall i :: 0 <= i < |result| ==>
              var d := result[i].deployment;
              d in s.deployments && d.environment == environment && d.workspace == workspace
              && d.lifecycle == Registered && d.capabilityVersion != ""
  {
    hide EntryFor, Joins, Indexed, Joined, EnabledOf, Enabled;
    var apps, services, caps := Index(s);
    result := [];
    JoinedNone(s, environment, workspace);
    for i := 0 to |s.deployments|
      invariant EntriesFor(result, Joined(s, EnabledOf(s.deployments[..i], environment, workspace)), s)
    {
      var d := s.deployments[i];
      JoinedStep(s, environment, workspace, i);
      if !Enabled(d, environment, workspace) {
        continue;
      }
      var x := Join(s, d, apps, services, caps);
      if x.Some? {
        result := result + [x.value];
      }
    }
    assert s.deployments[..|s.deployments|] == s.deployments;
    EntriesEntered(result, s, environment, workspace);
  }

  /** Whatever the snapshot, only deployments of this environment and workspace that are registered, with a version, are
      listed. */
  lemma EntriesEntered(result: seq<Entry>, s: Snapshot, environment: string, workspace: string)
    requires EntriesFor(result, Joined(s, EnabledOf(s.deployments, environment, workspace)), s)
    ensures forall i :: 0 <= i < |result| ==>
              var d := result[i].deployment;
              d in s.deployments && d.environment == environment && d.workspace == workspace
              && d.lifecycle == Registered && d.capabilityVersion != ""
  {
    hide Joins;
    var ds := Joined(s, EnabledOf(s.deployments, environment, workspace));
    JoinedFrom(s, EnabledOf(s.deployments, environment, workspace));
    EnabledMeans(s.deployments, environment, workspace);
    forall i | 0 <= i < |result|
      ensures result[i].deployment in ds
    {
      assert EntryFor(result[i], ds[i], s);
    }
  }

  lemma {:induction false} JoinedFrom(s: Snapshot, ds: seq<Deployment>)
    ensures forall d :: d in Joined(s, ds) ==> d in ds
  {
    hide Joins;
    if ds != [] {
      JoinedFrom(s, ds[..|ds| - 1]);
    }
  }

  lemma JoinedNone(s: Snapshot, environment: string, workspace: string)
    ensures Joined(s, EnabledOf(s.deployments[..0], environment, workspace)) == []
  {
  }

  lemma JoinedStep(s: Snapshot, environment: string, workspace: string, i: nat)
    requires i < |s.deployments|
    ensures var ds, d := s.deployments, s.deployments[i];
            Joined(s, EnabledOf(ds[..i + 1], environment, workspace))
            == Joined(s, EnabledOf(ds[..i], environment, workspace)) + if Enabled(d, environment, workspace)
            && Joins(s, d) then [d] else []
  {
    hide Joins, Enabled;
    var ds, d := s.deployments, s.deployments[i];
    assert ds[..i + 1][..i] == ds[..i];
    var before := EnabledOf(ds[..i], environment, workspace);
    if Enabled(d, environment, workspace) {
      assert (before + [d])[..|before|] == before;
    } else {
      assert before + [] == before;
    }
  }

  // ---- the join is total

  /** Ids hold no slash, so a version key names one service and one version. */
  lemma KeyUnambiguous(service: string, version: string, service': string, version': string)
    requires ValidId(service) && ValidId(service') && service + "/" + version == service' + "/" + version'
    ensures service == service' && version == version'
  {
    SplitsOnce(service, version, service', version', '/');
  }

  /** A row in scope bears its id, holds its links, and is shown. */
  lemma RowShown(s: Snapshot, e: Entries, application: string, k: EntryId)
    requires Sound(e) && Shows(s, e, application, {}) && k in e && InScope(e[k], application)
    ensures IdOf(e[k].data) == k && Linked(e, e[k])
    ensures match e[k].data
            case App(a) => a in s.applications
            case Svc(v) => v in s.services
            case Cap(c) => c in s.capabilities
            case Dep(d) => d in s.deployments
            case Res(r) => r in s.resources
  {
    hide NaturalKey, Linked, InScope, IdOf;
  }

  /** The row behind a deployment that is shown. */
  lemma ShownRow(s: Snapshot, e: Entries, application: string, d: Deployment) returns (k: EntryId)
    requires Shows(s, e, application, {}) && d in s.deployments
    ensures k in e && InScope(e[k], application) && e[k].data == Dep(d)
  {
    hide InScope;
    k :| k in e && InScope(e[k], application) && e[k].data == Dep(d);
  }

  /** In sound tables an enabled deployment always joins, within its own application's snapshot as within the full
      one. */
  lemma EnabledJoins(s: Snapshot, e: Entries, application: string, d: Deployment)
    requires Sound(e) && Shows(s, e, application, {}) && d in s.deployments && d.capabilityVersion != ""
    ensures Joins(s, d)
  {
    hide NaturalKey, ValidId, Sound, Shows;
    var k := ShownRow(s, e, application, d);
    RowShown(s, e, application, k);
    RowShown(s, e, application, EntryId(ApplicationKind, d.applicationId));
    RowShown(s, e, application, EntryId(ServiceKind, d.serviceId));
    RowShown(s, e, application, EntryId(CapabilityKind, d.serviceId + "/" + d.capabilityVersion));
  }

  lemma {:induction false} AllJoin(s: Snapshot, ds: seq<Deployment>)
    requires forall d :: d in ds ==> Joins(s, d)
    ensures Joined(s, ds) == ds
  {
    hide Joins;
    if ds != [] {
      AllJoin(s, ds[..|ds| - 1]);
      assert ds == ds[..|ds| - 1] + [ds[|ds| - 1]];
    }
  }

  /** The enabled deployments, by their columns. */
  lemma {:induction false} EnabledMeans(ds: seq<Deployment>, environment: string, workspace: string)
    ensures forall d :: d in EnabledOf(ds, environment, workspace) <==>
              && d in ds && d.environment == environment && d.workspace == workspace
              && d.lifecycle == Registered && d.capabilityVersion != ""
  {
    if ds != [] {
      EnabledMeans(ds[..|ds| - 1], environment, workspace);
      assert ds == ds[..|ds| - 1] + [ds[|ds| - 1]];
    }
  }

  /** They are in the order of the list. */
  lemma {:induction false} EnabledOrder(ds: seq<Deployment>, environment: string, workspace: string, i: nat, j: nat)
    requires i < j < |EnabledOf(ds, environment, workspace)|
    ensures Precedes(ds, EnabledOf(ds, environment, workspace)[i], EnabledOf(ds, environment, workspace)[j])
  {
    hide Enabled, Precedes;
    var n := |ds| - 1;
    var front, before := ds[..n], EnabledOf(ds[..n], environment, workspace);
    assert ds == front + [ds[n]];
    if j < |before| {
      EnabledOrder(front, environment, workspace, i, j);
      PrecedesSnoc(front, ds[n], before[i], before[j]);
    } else {
      EnabledMeans(front, environment, workspace);
      assert before[i] in before;
      PrecedesLast(front, ds[n], before[i]);
    }
  }

  /** The one comes before the other in the list. */
  ghost predicate Precedes(ds: seq<Deployment>, c: Deployment, d: Deployment) {
    exists p, q :: 0 <= p < q < |ds| && ds[p] == c && ds[q] == d
  }

  lemma PrecedesSnoc(ds: seq<Deployment>, x: Deployment, c: Deployment, d: Deployment)
    requires Precedes(ds, c, d)
    ensures Precedes(ds + [x], c, d)
  {
    var p, q :| 0 <= p < q < |ds| && ds[p] == c && ds[q] == d;
    assert (ds + [x])[p] == c && (ds + [x])[q] == d;
  }

  lemma PrecedesLast(ds: seq<Deployment>, x: Deployment, c: Deployment)
    requires c in ds
    ensures Precedes(ds + [x], c, x)
  {
    var p :| 0 <= p < |ds| && ds[p] == c;
    assert (ds + [x])[p] == c && (ds + [x])[|ds|] == x;
  }

  lemma {:induction false} EnabledFrom(ds: seq<Deployment>, environment: string, workspace: string)
    ensures forall d :: d in EnabledOf(ds, environment, workspace) <==> d in ds && Enabled(d, environment, workspace)
  {
    hide Enabled;
    if ds != [] {
      EnabledFrom(ds[..|ds| - 1], environment, workspace);
      assert ds == ds[..|ds| - 1] + [ds[|ds| - 1]];
    }
  }

  /** What the join returns on a snapshot of sound tables: exactly one entry per registered deployment with a
      selected version in this environment and workspace, none dropped, each with the rows it names, all of one
      application. */
  lemma AccessTotal(s: Snapshot, e: Entries, application: string, environment: string, workspace: string,
                    result: seq<Entry>)
    requires Sound(e) && Shows(s, e, application, {})
    requires EntriesFor(result, Joined(s, EnabledOf(s.deployments, environment, workspace)), s)
    ensures EntriesFor(result, EnabledOf(s.deployments, environment, workspace), s)
    ensures forall i :: 0 <= i < |result| ==>
              var x := result[i];
              && x.application.id == x.deployment.applicationId == x.service.applicationId
              && x.service.id == x.deployment.serviceId == x.capability.serviceId
              && x.capability.version == x.deployment.capabilityVersion
    ensures forall d :: d in s.deployments && d.environment == environment && d.workspace == workspace
                        && d.lifecycle == Registered && d.capabilityVersion != "" <==>
              exists i :: 0 <= i < |result| && result[i].deployment == d
    ensures forall i, j :: 0 <= i < j < |result| ==>
              result[i].deployment.id != result[j].deployment.id
              && Precedes(s.deployments, result[i].deployment, result[j].deployment)
  {
    hide Shows, Sound, EntriesFor, Joined, EnabledOf, Precedes;
    EachOnce(s, e, application, environment, workspace, result);
    AllAgree(s, e, application, environment, workspace, result);
  }

  lemma AllAgree(s: Snapshot, e: Entries, application: string, environment: string, workspace: string,
                 result: seq<Entry>)
    requires Sound(e) && Shows(s, e, application, {})
    requires EntriesFor(result, Joined(s, EnabledOf(s.deployments, environment, workspace)), s)
    ensures EntriesFor(result, EnabledOf(s.deployments, environment, workspace), s)
    ensures forall i :: 0 <= i < |result| ==> Agrees(result[i])
  {
    hide Shows, Sound, EntryFor, Joins;
    EnabledFrom(s.deployments, environment, workspace);
    forall d | d in EnabledOf(s.deployments, environment, workspace)
      ensures Joins(s, d)
    {
      EnabledJoins(s, e, application, d);
    }
    AllJoin(s, EnabledOf(s.deployments, environment, workspace));
    forall i | 0 <= i < |result|
      ensures Agrees(result[i])
    {
      var d := EnabledOf(s.deployments, environment, workspace)[i];
      assert d in EnabledOf(s.deployments, environment, workspace);
      EntryAgrees(s, e, application, d, result[i]);
    }
  }

  lemma EachOnce(s: Snapshot, e: Entries, application: string, environment: string, workspace: string,
                 result: seq<Entry>)
    requires Sound(e) && Shows(s, e, application, {})
    requires EntriesFor(result, Joined(s, EnabledOf(s.deployments, environment, workspace)), s)
    ensures forall d :: d in s.deployments && d.environment == environment && d.workspace == workspace
                        && d.lifecycle == Registered && d.capabilityVersion != "" <==>
              exists i :: 0 <= i < |result| && result[i].deployment == d
    ensures forall i, j :: 0 <= i < j < |result| ==>
              result[i].deployment.id != result[j].deployment.id
              && Precedes(s.deployments, result[i].deployment, result[j].deployment)
  {
    hide Sound, Joins, Among;
    var es := EnabledOf(s.deployments, environment, workspace);
    EnabledFrom(s.deployments, environment, workspace);
    EnabledMeans(s.deployments, environment, workspace);
    forall d | d in es
      ensures Joins(s, d)
    {
      EnabledJoins(s, e, application, d);
    }
    AllJoin(s, es);
    forall i | 0 <= i < |result|
      ensures result[i].deployment == es[i] && es[i] in es
    {
      assert EntryFor(result[i], es[i], s);
    }
    forall i, j | 0 <= i < j < |result|
      ensures result[i].deployment.id != result[j].deployment.id
              && Precedes(s.deployments, result[i].deployment, result[j].deployment)
    {
      EnabledOrder(s.deployments, environment, workspace, i, j);
    }
  }

  /** Once a deployment is deactivated, no snapshot of the tables lists it. */
  lemma DeactivatedNotEntered(s: Snapshot, e: Entries, id: string, application: string, environment: string,
                              workspace: string, result: seq<Entry>)
    requires Sound(e) && Shows(s, Deactivated(e, id), application, {})
    requires EntriesFor(result, Joined(s, EnabledOf(s.deployments, environment, workspace)), s)
    ensures forall i :: 0 <= i < |result| ==> result[i].deployment.id != id
  {
    hide Sound, Joined, EnabledOf, InScope;
    var f := Deactivated(e, id);
    DeactivateSound(e, id);
    EntriesEntered(result, s, environment, workspace);
    forall i | 0 <= i < |result|
      ensures result[i].deployment.id != id
    {
      var k := ShownRow(s, f, application, result[i].deployment);
      RowShown(s, f, application, k);
      DeactivatedRow(e, id);
    }
  }

  lemma DeactivatedRow(e: Entries, id: string)
    requires Sound(e)
    ensures var f, k := Deactivated(e, id), EntryId(DeploymentKind, id);
            forall l :: l in f && IdOf(f[l].data) == l && f[l].data.Dep? && f[l].data.deployment.id == id ==>
              f[l].data.deployment.lifecycle == Inactive
  {
  }

  /** The parts of an entry name each other. */
  predicate Agrees(x: Entry) {
    && x.application.id == x.deployment.applicationId == x.service.applicationId
    && x.service.id == x.deployment.serviceId == x.capability.serviceId
       && x.capability.version == x.deployment.capabilityVersion
  }

  lemma EntryAgrees(s: Snapshot, e: Entries, application: string, d: Deployment, x: Entry)
    requires Sound(e) && Shows(s, e, application, {}) && d in s.deployments && EntryFor(x, d, s)
    ensures Agrees(x)
  {
    hide NaturalKey, ValidId;
    var k :| k in e && InScope(e[k], application) && e[k].data == Dep(d);
    assert Linked(e, e[k]);
    var l :| l in e && InScope(e[l], application) && e[l].data == Cap(x.capability);
    assert Linked(e, e[l]);
    KeyUnambiguous(x.capability.serviceId, x.capability.version, d.serviceId, d.capabilityVersion);
    var v :| v in s.services && v.id == d.serviceId
        && x.service == v.(display := InheritDisplay(v.display, x.application.display));
    var n :| n in e && InScope(e[n], application) && e[n].data == Svc(v);
    assert Linked(e, e[n]) && IdOf(e[n].data) == n;
  }
}

/** The catalog contract: identities and capability definitions, and what a bundle must satisfy to be published. */
module Catalog {
  import opened Core
  import opened Text

  datatype Display = Display(name: string, description: string, logo: string, icon: string, color: string,
                             links: map<string, string>)

  datatype Application = Application(id: string, project: string, display: Display)
  datatype Service = Service(id: string, applicationId: string, key: string, role: string, display: Display)
  datatype Capability = Capability(serviceId: string, version: string, entryPermission: string,
                                   permissions: map<string, string>, roles: map<string, seq<string>>)
  datatype HttpCheck = HttpCheck(id: string, definition: string)
  datatype Lifecycle = Registered | Inactive | OtherLifecycle
  datatype Deployment = Deployment(checks: seq<HttpCheck>, id: string, applicationId: string, serviceId: string,
                                   environment: string, workspace: string, zone: string, ownerRef: string,
                                   hostnames: seq<string>, launchUrl: string, capabilityVersion: string,
                                   lifecycle: Lifecycle)
  datatype Resource = Resource(id: string, applicationId: string, key: string, kind: string, environment: string,
                               workspace: string,
                               provider: string, nativeId: string, display: Display, serviceIds: seq<string>)
  datatype Bundle = Bundle(schemaVersion: int, application: Application, services: seq<Service>,
                           capabilities: seq<Capability>,
                           deployments: seq<Deployment>, resources: seq<Resource>)

  /** The checks this model does not look into: URLs and HTTP check definitions. */
  datatype Oracle = Oracle(webUrl: string -> bool, check: HttpCheck -> bool)

  predicate IdStart(c: char) {
    'a' <= c <= 'z' || 'A' <= c <= 'Z' || '0' <= c <= '9'
  }

  predicate ValidId(id: string) {
    0 < |id| <= 160 && IdStart(id[0])
    && forall i :: 0 <= i < |id| ==> IdStart(id[i]) || id[i] == '.' || id[i] == '_' || id[i] == ':' || id[i] == '-'
  }

  predicate Hex(s: string) {
    forall i :: 0 <= i < |s| ==> 'a' <= s[i] <= 'f' || '0' <= s[i] <= '9'
  }

  predicate ValidAssetId(id: string) {
    HasPrefix(id, "sha256:") && |id| == 71 && Hex(id[7..])
  }

  predicate ValidColor(s: string) {
    |s| == 7 && s[0] == '#' && Hex(Lower(s[1..]))
  }

  predicate ValidDisplay(d: Display, o: Oracle) {
    && TrimSpace(d.name) != "" && |d.name| <= 160 && |d.description| <= 4096
    && (d.logo != "" ==> ValidAssetId(d.logo)) && (d.icon != "" ==> ValidId(d.icon))
       && (d.color != "" ==> ValidColor(d.color))
    && forall l <- d.links :: |l| <= 80 && o.webUrl(d.links[l])
  }

  // ---- what each part of a bundle must satisfy

  predicate ValidService(s: Service, b: Bundle, o: Oracle) {
    ValidId(s.id) && TrimSpace(s.key) != "" && |s.key| <= 160 && s.applicationId == b.application.id
    && ValidDisplay(s.display, o)
  }

  predicate ValidRole(role: string, granted: seq<string>, c: Capability) {
    && TrimSpace(role) != "" && |role| <= 100 && |granted| <= 200 && (forall p <- granted :: p in c.permissions)
    && (granted != [] ==> c.entryPermission in granted)
  }

  predicate ValidCapability(c: Capability) {
    && ValidId(c.version) && 0 < |c.permissions| <= 200 && c.entryPermission in c.permissions
    && (forall p <- c.permissions :: ValidId(p) && TrimSpace(c.permissions[p]) != "" && |c.permissions[p]| <= 300)
    && forall r <- c.roles :: ValidRole(r, c.roles[r], c)
  }

  predicate ValidDeployment(d: Deployment, b: Bundle, o: Oracle) {
    && |d.checks| <= 20 && (forall i :: 0 <= i < |d.checks| ==> o.check(d.checks[i]))
    && ValidId(d.id) && d.applicationId == b.application.id && ValidId(d.environment)
       && (d.workspace != "" ==> ValidId(d.workspace))
    && d.lifecycle != OtherLifecycle && (d.launchUrl != "" ==> o.webUrl(d.launchUrl))
    && (d.capabilityVersion != "" ==> ValidId(d.capabilityVersion))
  }

  predicate ValidResource(r: Resource, b: Bundle, o: Oracle) {
    && ValidId(r.id) && ValidId(r.key) && r.applicationId == b.application.id && ValidId(r.kind)
       && ValidId(r.environment)
    && (r.workspace != "" ==> ValidId(r.workspace)) && ValidDisplay(r.display, o)
  }

  function VersionKey(c: Capability): string {
    c.serviceId + "/" + c.version
  }

  function ServiceIds(ss: seq<Service>): seq<string> {
    seq(|ss|, i requires 0 <= i < |ss| => ss[i].id)
  }

  function ServiceKeys(ss: seq<Service>): seq<string> {
    seq(|ss|, i requires 0 <= i < |ss| => ss[i].key)
  }

  function VersionKeys(cs: seq<Capability>): seq<string> {
    seq(|cs|, i requires 0 <= i < |cs| => VersionKey(cs[i]))
  }

  function DeploymentIds(ds: seq<Deployment>): seq<string> {
    seq(|ds|, i requires 0 <= i < |ds| => ds[i].id)
  }

  function ResourceIds(rs: seq<Resource>): seq<string> {
    seq(|rs|, i requires 0 <= i < |rs| => rs[i].id)
  }

  function CheckIds(ds: seq<Deployment>): seq<string> {
    if ds == [] then []
    else CheckIds(ds[..|ds| - 1])
         + seq(|ds[|ds| - 1].checks|, i requires 0 <= i < |ds[|ds| - 1].checks| => ds[|ds| - 1].checks[i].id)
  }

  ghost predicate Distinct(s: seq<string>) {
    forall i, j :: 0 <= i < j < |s| ==> s[i] != s[j]
  }

  /** The ids of a bundle, which share one space. */
  function AllIds(b: Bundle): seq<string> {
    [b.application.id] + ServiceIds(b.services) + DeploymentIds(b.deployments) + ResourceIds(b.resources)
  }

  /** What a bundle must satisfy: each part well formed, references inside the bundle, no id, key, version or check
      twice. */
  ghost predicate WellFormed(b: Bundle, o: Oracle) {
    && b.schemaVersion == 1 && ValidId(b.application.id) && TrimSpace(b.application.project) != ""
       && |b.application.project| <= 160
    && ValidDisplay(b.application.display, o)
    && |b.services| <= 200 && |b.deployments| <= 400 && |b.resources| <= 500 && |b.capabilities| <= 200
    && PartsValid(b, o)
    && Distinct(AllIds(b)) && Distinct(ServiceKeys(b.services)) && Distinct(VersionKeys(b.capabilities))
       && Distinct(CheckIds(b.deployments))
  }

  // ---- the same, by the columns

  lemma DisplayMeans(d: Display, o: Oracle)
    ensures ValidDisplay(d, o) <==>
              && TrimSpace(d.name) != "" && |d.name| <= 160 && |d.description| <= 4096
              && (d.logo == ""
                  || (|d.logo| == 71 && d.logo[..7] == "sha256:"
                      && forall i :: 7 <= i < 71 ==> 'a' <= d.logo[i] <= 'f' || '0' <= d.logo[i] <= '9'))
              && (d.icon == "" || ValidId(d.icon))
              && (d.color == ""
                  || (|d.color| == 7 && d.color[0] == '#'
                      && forall i :: 1 <= i < 7 ==>
                           'a' <= d.color[i] <= 'f' || 'A' <= d.color[i] <= 'F' || '0' <= d.color[i] <= '9'))
              && forall l <- d.links :: |l| <= 80 && o.webUrl(d.links[l])
  {
    hide TrimSpace, ValidId;
    if |d.logo| == 71 {
      assert Hex(d.logo[7..]) <==> forall i :: 7 <= i < 71 ==> 'a' <= d.logo[i] <= 'f' || '0' <= d.logo[i] <= '9' by {
        HexFrom(d.logo, 7);
      }
    }
    if |d.color| == 7 {
      ColorDigits(d.color);
    }
  }

  lemma HexFrom(s: string, n: nat)
    requires n <= |s|
    ensures Hex(s[n..]) <==> forall i :: n <= i < |s| ==> 'a' <= s[i] <= 'f' || '0' <= s[i] <= '9'
  {
    var t := s[n..];
    assert forall i :: n <= i < |s| ==> s[i] == t[i - n];
  }

  lemma ColorDigits(s: string)
    requires |s| == 7
    ensures Hex(Lower(s[1..])) <==>
              forall i :: 1 <= i < 7 ==> 'a' <= s[i] <= 'f' || 'A' <= s[i] <= 'F' || '0' <= s[i] <= '9'
  {
    var t := Lower(s[1..]);
    assert forall i :: 1 <= i < 7 ==> t[i - 1] == LowerChar(s[i]);
  }

  /** An identity: up to 160 letters, digits, dots, colons, hyphens and underscores, a letter or digit first. */
  lemma IdMeans(id: string)
    ensures ValidId(id) <==>
              && 1 <= |id| <= 160 && id[0] !in "._:-"
              && forall c :: c in id ==> 'a' <= c <= 'z' || 'A' <= c <= 'Z' || '0' <= c <= '9' || c in "._:-"
  {
    assert forall i :: 0 <= i < |id| ==> id[i] in id;
    assert forall c :: c in "._:-" <==> c == '.' || c == '_' || c == ':' || c == '-';
  }

  /** What a bundle must satisfy, part by part. */
  lemma WellFormedMeans(b: Bundle, o: Oracle)
    ensures WellFormed(b, o) <==>
              && b.schemaVersion == 1
              && ValidId(b.application.id) && TrimSpace(b.application.project) != "" && |b.application.project| <= 160
              && ValidDisplay(b.application.display, o)
              && |b.services| <= 200 && |b.deployments| <= 400 && |b.resources| <= 500 && |b.capabilities| <= 200
              && (forall s <- b.services ::
                    ValidId(s.id) && TrimSpace(s.key) != "" && |s.key| <= 160 && s.applicationId == b.application.id
                    && ValidDisplay(s.display, o))
              && (forall c <- b.capabilities :: HasService(b, c.serviceId) && Enters(c))
              && (forall d <- b.deployments ::
                    && HasService(b, d.serviceId)
                    && ValidId(d.id) && d.applicationId == b.application.id && ValidId(d.environment)
                    && (d.workspace == "" || ValidId(d.workspace))
                    && (d.lifecycle == Registered || d.lifecycle == Inactive)
                    && (d.launchUrl == "" || o.webUrl(d.launchUrl))
                    && (d.capabilityVersion == "" || ValidId(d.capabilityVersion))
                    && |d.checks| <= 20 && forall i :: 0 <= i < |d.checks| ==> o.check(d.checks[i]))
              && (forall r <- b.resources ::
                    && (forall id <- r.serviceIds :: HasService(b, id))
                    && ValidId(r.id) && ValidId(r.key) && r.applicationId == b.application.id && ValidId(r.kind)
                    && ValidId(r.environment) && (r.workspace == "" || ValidId(r.workspace))
                    && ValidDisplay(r.display, o))
              && Unshared(b)
  {
    hide ValidId, ValidDisplay, Distinct, AllIds, ServiceKeys, VersionKeys, CheckIds, Unshared, ValidCapability, Enters;
    UnsharedIff(b);
    forall c | c in b.capabilities
      ensures ValidCapability(c) <==> Enters(c)
    {
      CapabilityMeans(c);
    }
    forall id
      ensures id in ServiceIds(b.services) <==> HasService(b, id)
    {
      ServiceHas(b, id);
    }
  }

  /** The bundle has this service. */
  ghost predicate HasService(b: Bundle, id: string) {
    exists i :: 0 <= i < |b.services| && b.services[i].id == id
  }

  lemma ServiceHas(b: Bundle, id: string)
    ensures id in ServiceIds(b.services) <==> HasService(b, id)
  {
    if HasService(b, id) {
      var i :| 0 <= i < |b.services| && b.services[i].id == id;
      assert ServiceIds(b.services)[i] == id;
    }
  }

  /** A capability one can enter: its permissions are named and described, the one for entry is among them, and
      each role grants some of them, the one for entry included, or none. */
  ghost predicate Enters(c: Capability) {
    && ValidId(c.version) && 1 <= |c.permissions| <= 200 && c.entryPermission in c.permissions
    && (forall p <- c.permissions ::
          ValidId(p) && TrimSpace(c.permissions[p]) != "" && |c.permissions[p]| <= 300)
    && (forall r <- c.roles ::
          && TrimSpace(r) != "" && |r| <= 100 && |c.roles[r]| <= 200
          && (forall i :: 0 <= i < |c.roles[r]| ==> c.roles[r][i] in c.permissions)
          && (|c.roles[r]| == 0 || exists i :: 0 <= i < |c.roles[r]| && c.roles[r][i] == c.entryPermission))
  }

  lemma CapabilityMeans(c: Capability)
    ensures ValidCapability(c) <==> Enters(c)
  {
    hide ValidId, TrimSpace;
    forall r | r in c.roles
      ensures ValidRole(r, c.roles[r], c) <==>
                && TrimSpace(r) != "" && |r| <= 100 && |c.roles[r]| <= 200
                && (forall i :: 0 <= i < |c.roles[r]| ==> c.roles[r][i] in c.permissions)
                && (|c.roles[r]| == 0 || exists i :: 0 <= i < |c.roles[r]| && c.roles[r][i] == c.entryPermission)
    {
    }
  }

  /** No two parts share an id, no two services a key, no two capabilities a service and a version, and no two
      checks an id. */
  ghost predicate Unshared(b: Bundle) {
    && (forall s <- b.services :: s.id != b.application.id)
    && (forall d <- b.deployments :: d.id != b.application.id && forall s <- b.services :: s.id != d.id)
    && (forall r <- b.resources ::
          && r.id != b.application.id && (forall s <- b.services :: s.id != r.id)
          && forall d <- b.deployments :: d.id != r.id)
    && (forall i, j :: 0 <= i < j < |b.services| ==>
          b.services[i].id != b.services[j].id && b.services[i].key != b.services[j].key)
    && (forall i, j :: 0 <= i < j < |b.deployments| ==> b.deployments[i].id != b.deployments[j].id)
    && (forall i, j :: 0 <= i < j < |b.resources| ==> b.resources[i].id != b.resources[j].id)
    && (forall i, j :: 0 <= i < j < |b.capabilities| ==>
          b.capabilities[i].serviceId + "/" + b.capabilities[i].version
          != b.capabilities[j].serviceId + "/" + b.capabilities[j].version)
    && ChecksApart(b.deployments)
  }

  ghost predicate ChecksApart(ds: seq<Deployment>) {
    forall d, e, i, j | 0 <= d <= e < |ds| && 0 <= i < |ds[d].checks| && 0 <= j < |ds[e].checks| ::
      d < e || i < j ==> ds[d].checks[i].id != ds[e].checks[j].id
  }

  ghost predicate Disjoint(s: seq<string>, t: seq<string>) {
    forall i, j :: 0 <= i < |s| && 0 <= j < |t| ==> s[i] != t[j]
  }

  lemma DistinctConcat(s: seq<string>, t: seq<string>)
    ensures Distinct(s + t) <==> Distinct(s) && Distinct(t) && Disjoint(s, t)
  {
    var all := s + t;
    if Distinct(all) {
      forall i, j | 0 <= i < j < |s|
        ensures s[i] != s[j]
      {
        assert all[i] == s[i] && all[j] == s[j];
      }
      forall i, j | 0 <= i < j < |t|
        ensures t[i] != t[j]
      {
        assert all[|s| + i] == t[i] && all[|s| + j] == t[j];
      }
      forall i, j | 0 <= i < |s| && 0 <= j < |t|
        ensures s[i] != t[j]
      {
        assert all[i] == s[i] && all[|s| + j] == t[j];
      }
    }
  }

  lemma UnsharedIff(b: Bundle)
    ensures Unshared(b) <==>
              Distinct(AllIds(b)) && Distinct(ServiceKeys(b.services)) && Distinct(VersionKeys(b.capabilities))
              && Distinct(CheckIds(b.deployments))
  {
    hide ChecksApart, CheckIds, Distinct, Disjoint;
    IdsIff(b);
    KeysIff(b);
    ChecksIff(b.deployments);
  }

  lemma IdsIff(b: Bundle)
    ensures Distinct(AllIds(b)) <==>
              && (forall s <- b.services :: s.id != b.application.id)
              && (forall d <- b.deployments :: d.id != b.application.id && forall s <- b.services :: s.id != d.id)
              && (forall r <- b.resources ::
                    && r.id != b.application.id && (forall s <- b.services :: s.id != r.id)
                    && forall d <- b.deployments :: d.id != r.id)
              && (forall i, j :: 0 <= i < j < |b.services| ==> b.services[i].id != b.services[j].id)
              && (forall i, j :: 0 <= i < j < |b.deployments| ==> b.deployments[i].id != b.deployments[j].id)
              && (forall i, j :: 0 <= i < j < |b.resources| ==> b.resources[i].id != b.resources[j].id)
  {
    hide Distinct, Disjoint;
    var app, ss, ds, rs := [b.application.id], ServiceIds(b.services), DeploymentIds(b.deployments),
                           ResourceIds(b.resources);
    DistinctConcat(app, ss);
    DistinctConcat(app + ss, ds);
    DistinctConcat(app + ss + ds, rs);
    DisjointConcat(app, ss, ds);
    DisjointConcat(app + ss, ds, rs);
    DisjointConcat(app, ss, rs);
    OneDistinct(b.application.id);
    ListsDistinct(b);
    ListsDisjoint(b);
  }

  lemma OneDistinct(id: string)
    ensures Distinct([id])
  {
  }

  lemma DisjointConcat(s: seq<string>, t: seq<string>, u: seq<string>)
    ensures Disjoint(s + t, u) <==> Disjoint(s, u) && Disjoint(t, u)
  {
    if Disjoint(s + t, u) {
      forall i, j | 0 <= i < |s| && 0 <= j < |u|
        ensures s[i] != u[j]
      {
        assert (s + t)[i] == s[i];
      }
      forall i, j | 0 <= i < |t| && 0 <= j < |u|
        ensures t[i] != u[j]
      {
        assert (s + t)[|s| + i] == t[i];
      }
    }
  }

  lemma ListsDistinct(b: Bundle)
    ensures Distinct(ServiceIds(b.services)) <==>
              forall i, j :: 0 <= i < j < |b.services| ==> b.services[i].id != b.services[j].id
    ensures Distinct(DeploymentIds(b.deployments)) <==>
              forall i, j :: 0 <= i < j < |b.deployments| ==> b.deployments[i].id != b.deployments[j].id
    ensures Distinct(ResourceIds(b.resources)) <==>
              forall i, j :: 0 <= i < j < |b.resources| ==> b.resources[i].id != b.resources[j].id
  {
    var ss, ds, rs := ServiceIds(b.services), DeploymentIds(b.deployments), ResourceIds(b.resources);
    assert forall i :: 0 <= i < |b.services| ==> b.services[i].id == ss[i];
    assert forall i :: 0 <= i < |b.deployments| ==> b.deployments[i].id == ds[i];
    assert forall i :: 0 <= i < |b.resources| ==> b.resources[i].id == rs[i];
  }

  lemma ListsDisjoint(b: Bundle)
    ensures var app, ss, ds, rs := [b.application.id], ServiceIds(b.services), DeploymentIds(b.deployments),
                                   ResourceIds(b.resources);
            && (Disjoint(app, ss) <==> forall s <- b.services :: s.id != b.application.id)
            && (Disjoint(app, ds) <==> forall d <- b.deployments :: d.id != b.application.id)
            && (Disjoint(app, rs) <==> forall r <- b.resources :: r.id != b.application.id)
            && (Disjoint(ss, ds) <==> forall d <- b.deployments :: forall s <- b.services :: s.id != d.id)
            && (Disjoint(ss, rs) <==> forall r <- b.resources :: forall s <- b.services :: s.id != r.id)
            && (Disjoint(ds, rs) <==> forall r <- b.resources :: forall d <- b.deployments :: d.id != r.id)
  {
    hide Disjoint;
    var app, ss, ds, rs := [b.application.id], ServiceIds(b.services), DeploymentIds(b.deployments),
                           ResourceIds(b.resources);
    DisjointIn(app, ss);
    DisjointIn(app, ds);
    DisjointIn(app, rs);
    DisjointIn(ss, ds);
    DisjointIn(ss, rs);
    DisjointIn(ds, rs);
    assert forall x :: x in app <==> x == b.application.id;
    IdsIn(b);
  }

  lemma IdsIn(b: Bundle)
    ensures forall s :: s in b.services ==> s.id in ServiceIds(b.services)
    ensures forall d :: d in b.deployments ==> d.id in DeploymentIds(b.deployments)
    ensures forall r :: r in b.resources ==> r.id in ResourceIds(b.resources)
    ensures forall x :: x in ServiceIds(b.services) ==> exists s :: s in b.services && s.id == x
    ensures forall x :: x in DeploymentIds(b.deployments) ==> exists d :: d in b.deployments && d.id == x
    ensures forall x :: x in ResourceIds(b.resources) ==> exists r :: r in b.resources && r.id == x
  {
    forall s | s in b.services
      ensures s.id in ServiceIds(b.services)
    {
      var i :| 0 <= i < |b.services| && b.services[i] == s;
      assert ServiceIds(b.services)[i] == s.id;
    }
    forall d | d in b.deployments
      ensures d.id in DeploymentIds(b.deployments)
    {
      var i :| 0 <= i < |b.deployments| && b.deployments[i] == d;
      assert DeploymentIds(b.deployments)[i] == d.id;
    }
    forall r | r in b.resources
      ensures r.id in ResourceIds(b.resources)
    {
      var i :| 0 <= i < |b.resources| && b.resources[i] == r;
      assert ResourceIds(b.resources)[i] == r.id;
    }
  }

  lemma DisjointIn(s: seq<string>, t: seq<string>)
    ensures Disjoint(s, t) <==> forall x :: x in s ==> x !in t
  {
    if Disjoint(s, t) {
      forall x | x in s
        ensures x !in t
      {
        var i :| 0 <= i < |s| && s[i] == x;
      }
    } else {
      var i, j :| 0 <= i < |s| && 0 <= j < |t| && s[i] == t[j];
      assert s[i] in s && s[i] in t;
    }
  }

  lemma KeysIff(b: Bundle)
    ensures Distinct(ServiceKeys(b.services)) <==>
              forall i, j :: 0 <= i < j < |b.services| ==> b.services[i].key != b.services[j].key
    ensures Distinct(VersionKeys(b.capabilities)) <==>
              forall i, j :: 0 <= i < j < |b.capabilities| ==>
                b.capabilities[i].serviceId + "/" + b.capabilities[i].version
                != b.capabilities[j].serviceId + "/" + b.capabilities[j].version
  {
    var ks, vs := ServiceKeys(b.services), VersionKeys(b.capabilities);
    assert forall i :: 0 <= i < |b.services| ==> b.services[i].key == ks[i];
    assert forall i :: 0 <= i < |b.capabilities| ==>
                         b.capabilities[i].serviceId + "/" + b.capabilities[i].version == vs[i];
  }

  lemma {:induction false} ChecksIff(ds: seq<Deployment>)
    ensures Distinct(CheckIds(ds)) <==> ChecksApart(ds)
  {
    hide Distinct, Disjoint;
    if ds == [] {
      NoChecks();
    } else {
      var front, last := ds[..|ds| - 1], ds[|ds| - 1];
      assert ds == front + [last];
      var ids := seq(|last.checks|, i requires 0 <= i < |last.checks| => last.checks[i].id);
      ChecksIff(front);
      DistinctConcat(CheckIds(front), ids);
      ChecksWithin(last, ids);
      ChecksDisjoint(front, last, ids);
      ChecksSnoc(front, last);
    }
  }

  lemma NoChecks()
    ensures Distinct(CheckIds([]))
  {
  }

  lemma ChecksWithin(d: Deployment, ids: seq<string>)
    requires |ids| == |d.checks| && forall i :: 0 <= i < |ids| ==> ids[i] == d.checks[i].id
    ensures Distinct(ids) <==> forall i, j :: 0 <= i < j < |d.checks| ==> d.checks[i].id != d.checks[j].id
  {
    assert forall i :: 0 <= i < |ids| ==> d.checks[i].id == ids[i];
  }

  ghost predicate Clear(ds: seq<Deployment>, last: Deployment) {
    forall d, i, j | 0 <= d < |ds| && 0 <= i < |ds[d].checks| && 0 <= j < |last.checks| ::
      ds[d].checks[i].id != last.checks[j].id
  }

  lemma {:induction false} ChecksDisjoint(ds: seq<Deployment>, last: Deployment, ids: seq<string>)
    requires |ids| == |last.checks| && forall i :: 0 <= i < |ids| ==> ids[i] == last.checks[i].id
    ensures Disjoint(CheckIds(ds), ids) <==> Clear(ds, last)
  {
    if ds != [] {
      var front, d := ds[..|ds| - 1], ds[|ds| - 1];
      assert ds == front + [d];
      ChecksDisjoint(front, last, ids);
      var own := seq(|d.checks|, i requires 0 <= i < |d.checks| => d.checks[i].id);
      DisjointConcat(CheckIds(front), own, ids);
      OwnDisjoint(d, own, last, ids);
      ClearSnoc(front, d, last);
    }
  }

  lemma OwnDisjoint(d: Deployment, own: seq<string>, last: Deployment, ids: seq<string>)
    requires |own| == |d.checks| && forall i :: 0 <= i < |own| ==> own[i] == d.checks[i].id
    requires |ids| == |last.checks| && forall i :: 0 <= i < |ids| ==> ids[i] == last.checks[i].id
    ensures Disjoint(own, ids) <==>
              forall i, j :: 0 <= i < |d.checks| && 0 <= j < |last.checks| ==> d.checks[i].id != last.checks[j].id
  {
    assert forall i :: 0 <= i < |own| ==> d.checks[i].id == own[i];
    assert forall i :: 0 <= i < |ids| ==> last.checks[i].id == ids[i];
  }

  lemma ClearSnoc(front: seq<Deployment>, d: Deployment, last: Deployment)
    ensures Clear(front + [d], last) <==>
              Clear(front, last)
              && forall i, j :: 0 <= i < |d.checks| && 0 <= j < |last.checks| ==> d.checks[i].id != last.checks[j].id
  {
    var ds := front + [d];
    assert forall e :: 0 <= e < |front| ==> front[e] == ds[e];
    assert ds[|front|] == d;
  }

  lemma ChecksSnoc(front: seq<Deployment>, last: Deployment)
    ensures ChecksApart(front + [last]) <==>
              && ChecksApart(front) && Clear(front, last)
              && forall i, j :: 0 <= i < j < |last.checks| ==> last.checks[i].id != last.checks[j].id
  {
    var ds := front + [last];
    assert forall e :: 0 <= e < |front| ==> front[e] == ds[e];
    assert ds[|front|] == last;
  }

  // ---- the scan

  lemma DistinctSnoc(s: seq<string>, x: string)
    ensures Distinct(s + [x]) <==> Distinct(s) && x !in s
  {
    if Distinct(s + [x]) {
      forall i, j | 0 <= i < j < |s|
        ensures s[i] != s[j]
      {
        assert (s + [x])[i] != (s + [x])[j];
      }
      forall i | 0 <= i < |s|
        ensures s[i] != x
      {
        assert (s + [x])[i] != (s + [x])[|s|];
      }
    }
  }

  /** A duplicate in a prefix is a duplicate. */
  lemma DistinctPrefix(s: seq<string>, t: seq<string>)
    requires Distinct(s + t)
    ensures Distinct(s)
  {
    forall i, j | 0 <= i < j < |s|
      ensures s[i] != s[j]
    {
      assert (s + t)[i] == s[i] && (s + t)[j] == s[j];
    }
  }

  function ToSet(s: seq<string>): set<string> {
    set x | x in s
  }

  /** The scan behind every duplicate check: what was seen before rejects. */
  method AllDistinct(ids: seq<string>) returns (ok: bool)
    ensures ok <==> Distinct(ids)
  {
    hide Distinct;
    ok := true;
    var seen: set<string> := {};
    var i := 0;
    NoneDistinct();
    while ok && i < |ids|
      invariant i <= |ids| && (ok <==> Distinct(ids[..i]))
      invariant ok ==> seen == ToSet(ids[..i])
      decreases |ids| - i, ok
    {
      assert ids[..i + 1] == ids[..i] + [ids[i]];
      DistinctSnoc(ids[..i], ids[i]);
      ok := ids[i] !in seen;
      seen := seen + {ids[i]};
      i := i + 1;
    }
    assert ids == ids[..i] + ids[i..];
    if ok {
      assert ids[..i] == ids;
    } else if Distinct(ids) {
      DistinctPrefix(ids[..i], ids[i..]);
      assert false;
    }
  }

  lemma NoneDistinct()
    ensures Distinct([])
  {
  }

  method ValidateCapability(c: Capability) returns (ok: bool)
    ensures ok <==> ValidCapability(c)
  {
    if !ValidId(c.version) || |c.permissions| == 0 || |c.permissions| > 200 || c.entryPermission !in c.permissions {
      return false;
    }
    var todo := c.permissions.Keys;
    while todo != {}
      invariant todo <= c.permissions.Keys
      invariant forall p ::
                  p in c.permissions && p !in todo ==>
                    ValidId(p) && TrimSpace(c.permissions[p]) != "" && |c.permissions[p]| <= 300
      decreases todo
    {
      var p :| p in todo;
      todo := todo - {p};
      if !ValidId(p) || TrimSpace(c.permissions[p]) == "" || |c.permissions[p]| > 300 {
        return false;
      }
    }
    todo := c.roles.Keys;
    while todo != {}
      invariant todo <= c.roles.Keys
      invariant forall r :: r in c.roles && r !in todo ==> ValidRole(r, c.roles[r], c)
      decreases todo
    {
      var r :| r in todo;
      todo := todo - {r};
      var good := ValidateRole(r, c.roles[r], c);
      if !good {
        return false;
      }
    }
    return true;
  }

  method ValidateRole(role: string, granted: seq<string>, c: Capability) returns (ok: bool)
    ensures ok <==> ValidRole(role, granted, c)
  {
    if TrimSpace(role) == "" || |role| > 100 || |granted| > 200 {
      return false;
    }
    var entry := false;
    for i := 0 to |granted|
      invariant forall j :: 0 <= j < i ==> granted[j] in c.permissions
      invariant entry <==> c.entryPermission in granted[..i]
    {
      if granted[i] !in c.permissions {
        return false;
      }
      entry := entry || granted[i] == c.entryPermission;
    }
    return granted == [] || entry;
  }

  /** The parts of a bundle on their own, without the ids they must not share. */
  ghost predicate PartsValid(b: Bundle, o: Oracle) {
    && (forall s <- b.services :: ValidService(s, b, o))
    && (forall c <- b.capabilities :: ValidCapability(c) && c.serviceId in ServiceIds(b.services))
    && (forall d <- b.deployments :: ValidDeployment(d, b, o) && d.serviceId in ServiceIds(b.services))
    && (forall r <- b.resources :: ValidResource(r, b, o) && forall id <- r.serviceIds :: id in ServiceIds(b.services))
  }

  method ValidateParts(b: Bundle, o: Oracle) returns (ok: bool)
    ensures ok <==> PartsValid(b, o)
  {
    hide ValidService, ValidCapability, ValidDeployment, ValidResource, ServiceIds;
    var services := ToSet(ServiceIds(b.services));
    for i := 0 to |b.services|
      invariant forall j :: 0 <= j < i ==> ValidService(b.services[j], b, o)
    {
      if !ValidService(b.services[i], b, o) {
        return false;
      }
    }
    for i := 0 to |b.capabilities|
      invariant forall j :: 0 <= j < i ==> ValidCapability(b.capabilities[j]) && b.capabilities[j].serviceId in services
    {
      var good := ValidateCapability(b.capabilities[i]);
      if !good || b.capabilities[i].serviceId !in services {
        return false;
      }
    }
    for i := 0 to |b.deployments|
      invariant forall j ::
                  0 <= j < i ==> ValidDeployment(b.deployments[j], b, o) && b.deployments[j].serviceId in services
    {
      if !ValidDeployment(b.deployments[i], b, o) || b.deployments[i].serviceId !in services {
        return false;
      }
    }
    for i := 0 to |b.resources|
      invariant forall j ::
                  0 <= j < i ==>
                    && ValidResource(b.resources[j], b, o)
                    && forall id <- b.resources[j].serviceIds :: id in services
    {
      if !ValidResource(b.resources[i], b, o) || exists id <- b.resources[i].serviceIds :: id !in services {
        return false;
      }
    }
    return true;
  }

  /** Accepts exactly the well-formed bundles. */
  method Validate(b: Bundle, o: Oracle) returns (ok: bool)
    ensures ok <==> WellFormed(b, o)
  {
    hide ValidDisplay, Distinct, PartsValid, AllIds, ServiceKeys, VersionKeys, CheckIds, ValidId;
    if b.schemaVersion != 1 || !ValidId(b.application.id) || TrimSpace(b.application.project) == ""
       || |b.application.project| > 160 {
      return false;
    }
    if !ValidDisplay(b.application.display, o) || |b.services| > 200 || |b.deployments| > 400 || |b.resources| > 500
       || |b.capabilities| > 200 {
      return false;
    }
    ok := ValidateParts(b, o);
    if !ok {
      return;
    }
    ok := AllDistinct(AllIds(b));
    if ok {
      ok := AllDistinct(ServiceKeys(b.services));
    }
    if ok {
      ok := AllDistinct(VersionKeys(b.capabilities));
    }
    if ok {
      ok := AllDistinct(CheckIds(b.deployments));
    }
  }
}

/** Records shared by the models: hostname allocations (a `name` is the source's label), their specs, and the
    tables that hold them. */
module Core {
  import opened Text

  datatype Option<+T> = None | Some(value: T)

  datatype Kind = Tenant | Platform | Reserved | Blocked
  datatype Source = Api | Crd | FromManifest | Observed | Seed
  datatype State = Pending | Active | Suspended | Releasing | Released | Failed

  /** What an allocation points at. */
  datatype Backend =
    | Service(namespace: string, name: string, port: int)
    | Address(host: string, port: int)
    | Supervised(cmd: string, dir: string, portPool: string)
    | Docker(network: string, host: string, port: int)

  /** One listener bound to one backend; `listen == 0` stands for the default listeners 80 and 443. */
  datatype Route = Route(listen: int, backend: Backend)

  datatype Spec = Spec(routes: seq<Route>, wildcard: bool, priority: int)

  const NO_SPEC := Spec([], false, 0)

  /** Cluster sightings and the evidence of absence gathered since the last one. Times are nanoseconds. */
  datatype Observation = Observation(
    lastSeenAt: Option<int>, missingSince: Option<int>, missing: int, ownerUid: string)

  datatype Allocation = Allocation(
    id: int, zone: string, project: string, name: string, fqdn: string,
    kind: Kind, source: Source, ownerRef: string, ownerKind: string,
    state: State, spec: Spec, observation: Option<Observation>, labels: map<string, string>,
    expiresAt: Option<int>, updatedAt: int)

  datatype Zone = Zone(name: string, dev: bool, policy: string)

  /** The unique key of the allocations table. */
  datatype Key = Key(zone: string, name: string)

  datatype Action = Create | Rename | RetireMissing

  /** A row of the audit table. */
  datatype Event = Event(subject: int, actor: string, action: Action, payload: Option<Allocation>, at: int)

  /** The registry tables that the models read. `nextId` is the sequence behind allocation ids. */
  datatype Table = Table(zones: map<string, Zone>, rows: map<Key, Allocation>, nextId: int)

  function KeyOf(a: Allocation): Key {
    Key(a.zone, a.name)
  }

  /** Rows sit under their unique key. */
  ghost predicate Keyed(rows: map<Key, Allocation>) {
    forall k <- rows :: KeyOf(rows[k]) == k
  }

  ghost predicate KeyedEdits(edits: map<Key, Option<Allocation>>) {
    forall k <- edits :: edits[k].Some? ==> KeyOf(edits[k].value) == k
  }

  /** Ids, too, are unique, and below the sequence. */
  ghost predicate ValidRows(rows: map<Key, Allocation>, nextId: int) {
    && Keyed(rows)
    && (forall k <- rows :: rows[k].id < nextId)
    && (forall k, l | k in rows && l in rows :: rows[k].id == rows[l].id ==> k == l)
  }

  lemma ValidKeyed(rows: map<Key, Allocation>, nextId: int)
    requires ValidRows(rows, nextId)
    ensures Keyed(rows)
  {
  }

  /** The table after other transactions' writes: `edits` maps a key to its new row, or to nothing. */
  function Overlay(rows: map<Key, Allocation>, edits: map<Key, Option<Allocation>>): map<Key, Allocation> {
    map k | k in rows.Keys + edits.Keys && (k in edits ==> edits[k].Some?) ::
      if k in edits then edits[k].value else rows[k]
  }

  /** A list query; absent fields do not filter. */
  datatype Filter = Filter(zone: Option<string>, state: Option<State>, project: Option<string>, excludeReleased: bool)

  /** An empty filter field is an absent one. */
  function NonEmpty(s: string): Option<string> {
    if s == "" then None else Some(s)
  }

  predicate Lists(f: Filter, a: Allocation) {
    && (f.zone.Some? ==> a.zone == f.zone.value)
    && (f.state.Some? ==> a.state == f.state.value)
    && (f.state == None && f.excludeReleased ==> a.state != Released)
    && (f.project.Some? ==> a.project == f.project.value)
  }

  /** An insert: the sequence supplies the id. */
  function Insert(t: Table, a: Allocation): Table {
    t.(rows := t.rows[KeyOf(a) := a.(id := t.nextId)], nextId := t.nextId + 1)
  }

  /** Fully qualified name of a label in a zone; "@" is the zone apex. */
  function Fqdn(name: string, zone: string): string {
    if name == "@" || name == "" then zone else name + "." + zone
  }

  /** Rows carry the name of their label. */
  ghost predicate NamedRows(rows: map<Key, Allocation>) {
    Keyed(rows) && forall k <- rows :: k.name != "" && rows[k].fqdn == Fqdn(k.name, k.zone)
  }

  /** Inverse of `Fqdn` for an exact host; nothing when the host is outside the zone. */
  function LabelForZone(rawHost: string, zone: string): Option<string> {
    var host := Lower(rawHost);
    if host == zone then Some("@")
    else if HasSuffix(host, "." + zone) then Some(TrimSuffix(host, "." + zone))
    else None
  }

  lemma LabelRoundTrip(name: string, zone: string)
    requires name != "" && IsLower(name) && IsLower(zone)
    ensures LabelForZone(Fqdn(name, zone), zone) == Some(name)
  {
    LowerOfLower(Fqdn(name, zone));
    if name != "@" {
      assert name + "." + zone == name + ("." + zone);
      SuffixOfConcat(name, "." + zone);
    }
  }

  /** The way back fails for exactly two hosts, whose label would be "@" or empty. */
  lemma HostRoundTrip(host: string, zone: string)
    requires IsLower(host) && LabelForZone(host, zone).Some?
    ensures Fqdn(LabelForZone(host, zone).value, zone) == host
            <==> host != "@." + zone && host != "." + zone
  {
    LowerOfLower(host);
    if host != zone {
      SuffixSplit(host, "." + zone);
      var name := TrimSuffix(host, "." + zone);
      assert name + "." + zone == name + ("." + zone);
    }
  }

  /** Within one zone two different labels never share a name. */
  lemma FqdnInjective(name: string, other: string, zone: string)
    requires name != "" && other != "" && Fqdn(name, zone) == Fqdn(other, zone)
    ensures name == other
  {
    if name != "@" && other != "@" {
      assert name == Fqdn(name, zone)[..|Fqdn(name, zone)| - |zone| - 1];
      assert other == Fqdn(other, zone)[..|Fqdn(other, zone)| - |zone| - 1];
    }
  }
}

/** The observer's cycle over all managed zones: import, then apply the scan; any error fails the cycle. */
module Observer {
  import opened Core
  import opened Routes
  import opened Sightings
  import O = Observation
  import Registry
  import P = Pagination

  const SECOND := 1_000_000_000

  datatype Config = Config(zones: seq<string>, autoRegister: bool, retireMissing: bool, grace: int, interval: int)
  {
    function Grace(): int { if grace <= 0 then 300 * SECOND else grace }
    function Interval(): int { if interval <= 0 then 60 * SECOND else interval }
  }

  /** What the database does to one zone of one cycle: statements answered while importing, the wall clock,
      other transactions' commits, and statements answered inside the scan's transaction. */
  datatype ZoneIo = ZoneIo(calls: nat, wall: int, edits: map<Key, Option<Allocation>>, txCalls: nat)

  /** A fresh absence window starts after startup, a failed scan, a clock step or a gap. */
  predicate Reset(cfg: Config, lastSuccess: Option<int>, now: int) {
    lastSuccess == None || now < lastSuccess.value || now - lastSuccess.value > 2 * cfg.Interval()
  }

  datatype Import = Import(table: Table, left: nat, ok: bool, seen: map<string, string>)

  function NewRow(zone: string, s: Sight, wall: int): Allocation {
    Allocation(0, zone, "", s.name, Fqdn(s.name, zone), Platform, Observed, s.owner.ref, s.owner.kind, Active,
               NO_SPEC, None, map["observed-service" := s.owner.service], None, wall)
  }

  /** One sighting: skip actuator output and second owners, look the label up, create it when unknown. */
  function ImportSight(g: Import, zone: string, s: Sight, create: bool, wall: int): Import {
    if !g.ok || s.managed || (s.name in g.seen && g.seen[s.name] != s.owner.ref) then g
    else if g.left == 0 then g.(ok := false)
    else
      var h := g.(seen := g.seen[s.name := s.owner.ref], left := g.left - 1);
      if Key(zone, s.name) in g.table.rows || !create then h
      else if h.left == 0 then h.(ok := false)
      else h.(table := Insert(g.table, NewRow(zone, s, wall)), left := h.left - 1)
  }

  function Imported(g: Import, zone: string, sights: seq<Sight>, create: bool, wall: int): Import {
    if sights == [] then g
    else ImportSight(Imported(g, zone, sights[..|sights| - 1], create, wall), zone, sights[|sights| - 1], create, wall)
  }

  datatype Outcome = Outcome(table: Table, ok: bool)

  function ScanOf(cfg: Config, zone: string, routes: seq<ObservedRoute>, now: int, reset: bool): O.Scan {
    O.Scan(Present(SightsOf(routes, |routes|, zone)), now, cfg.Grace(), cfg.retireMissing, reset)
  }

  /** The transaction on table `t`, all rows considered. */
  function Applied(t: Table, zone: string, scan: O.Scan, io: ZoneIo): Outcome {
    var found := Overlay(t.rows, io.edits);
    if io.txCalls < 3 + O.Statements(t.rows, found, zone, scan, t.rows.Keys)
      then Outcome(t.(rows := found), false)
    else Outcome(t.(rows := O.Swept(t.rows, found, zone, scan, t.rows.Keys)), true)
  }

  function ZonePass(t: Table, cfg: Config, zone: string, routes: seq<ObservedRoute>, now: int, reset: bool, io: ZoneIo)
    : Outcome
  {
    if io.calls == 0 || zone !in t.zones then Outcome(t, false)
    else
      var sights := SightsOf(routes, |routes|, zone);
      var g := Imported(Import(t, io.calls - 1, true, map[]), zone, sights, cfg.autoRegister, io.wall);
      if !g.ok then Outcome(g.table, false)
      else if !cfg.autoRegister then Outcome(g.table, true)
      else Applied(g.table, zone, ScanOf(cfg, zone, routes, now, reset), io)
  }

  /** The first `n` zones of a cycle, in order, up to the first that fails. */
  function Cycle(t: Table, cfg: Config, n: nat, routes: seq<ObservedRoute>, now: int, reset: bool, io: seq<ZoneIo>)
    : Outcome
    requires n <= |cfg.zones| == |io|
  {
    if n == 0 then Outcome(t, true)
    else
      var before := Cycle(t, cfg, n - 1, routes, now, reset, io);
      if !before.ok then before else ZonePass(before.table, cfg, cfg.zones[n - 1], routes, now, reset, io[n - 1])
  }

  ghost predicate KeyedIo(io: seq<ZoneIo>) {
    forall i :: 0 <= i < |io| ==> KeyedEdits(io[i].edits)
  }

  lemma {:induction false} FailedImportStops(g: Import, zone: string, sights: seq<Sight>, n: nat, create: bool,
                                             wall: int)
    requires n <= |sights| && !Imported(g, zone, sights[..n], create, wall).ok
    ensures Imported(g, zone, sights, create, wall) == Imported(g, zone, sights[..n], create, wall)
    decreases |sights|
  {
    if n == |sights| {
      assert sights[..n] == sights;
    } else {
      assert sights[..|sights| - 1][..n] == sights[..n];
      FailedImportStops(g, zone, sights[..|sights| - 1], n, create, wall);
    }
  }

  lemma {:induction false} FailedCycleStops(t: Table, cfg: Config, n: nat, m: nat, routes: seq<ObservedRoute>, now: int,
                                            reset: bool, io: seq<ZoneIo>)
    requires n <= m <= |cfg.zones| == |io| && !Cycle(t, cfg, n, routes, now, reset, io).ok
    ensures Cycle(t, cfg, m, routes, now, reset, io) == Cycle(t, cfg, n, routes, now, reset, io)
  {
    if n < m {
      FailedCycleStops(t, cfg, n, m - 1, routes, now, reset, io);
    }
  }

  lemma {:induction false} ImportedConcat(g: Import, zone: string, a: seq<Sight>, b: seq<Sight>, create: bool,
                                          wall: int)
    ensures Imported(g, zone, a + b, create, wall)
            == Imported(Imported(g, zone, a, create, wall), zone, b, create, wall)
  {
    if b == [] {
      assert a + b == a;
    } else {
      assert (a + b)[..|a + b| - 1] == a + b[..|b| - 1];
      ImportedConcat(g, zone, a, b[..|b| - 1], create, wall);
    }
  }

  lemma {:induction false} FailedRoutesStop(g: Import, routes: seq<ObservedRoute>, n: nat, m: nat, zone: string,
                                            create: bool, wall: int)
    requires n <= m <= |routes| && !Imported(g, zone, SightsOf(routes, n, zone), create, wall).ok
    ensures Imported(g, zone, SightsOf(routes, m, zone), create, wall)
            == Imported(g, zone, SightsOf(routes, n, zone), create, wall)
  {
    if n < m {
      FailedRoutesStop(g, routes, n, m - 1, zone, create, wall);
      var sights := SightsOf(routes, m, zone);
      assert sights[..|SightsOf(routes, m - 1, zone)|] == SightsOf(routes, m - 1, zone);
      FailedImportStops(g, zone, sights, |SightsOf(routes, m - 1, zone)|, create, wall);
    }
  }

  lemma {:induction false} HostsPrefix(r: ObservedRoute, n: nat, m: nat, zone: string)
    requires n <= m <= |r.hosts|
    ensures HostSights(r, n, zone) <= HostSights(r, m, zone)
  {
    if n < m {
      HostsPrefix(r, n, m - 1, zone);
    }
  }

  lemma {:induction false} ImportedKeyed(g: Import, zone: string, sights: seq<Sight>, create: bool, wall: int)
    requires Keyed(g.table.rows)
    ensures Keyed(Imported(g, zone, sights, create, wall).table.rows)
    ensures forall k <- g.table.rows :: k in Imported(g, zone, sights, create, wall).table.rows
              && Imported(g, zone, sights, create, wall).table.rows[k] == g.table.rows[k]
    ensures Imported(g, zone, sights, create, wall).table.zones == g.table.zones
  {
    if sights != [] {
      ImportedKeyed(g, zone, sights[..|sights| - 1], create, wall);
    }
  }

  lemma ImportedSnoc(g: Import, zone: string, a: seq<Sight>, s: Sight, create: bool, wall: int)
    ensures Imported(g, zone, a + [s], create, wall)
            == ImportSight(Imported(g, zone, a, create, wall), zone, s, create, wall)
  {
    hide ImportSight;
    assert (a + [s])[..|a|] == a;
  }

  lemma HostStart(g: Import, m: map<string, O.Owner>, r: ObservedRoute, zone: string, create: bool, wall: int)
    ensures Imported(g, zone, HostSights(r, 0, zone), create, wall) == g
    ensures PresentFrom(m, HostSights(r, 0, zone)) == m
  {
  }

  /** What the sights of one more host add: nothing, or one import and one note of presence. */
  lemma HostStep(g: Import, m: map<string, O.Owner>, r: ObservedRoute, j: nat, zone: string, create: bool, wall: int)
    requires j < |r.hosts|
    ensures LabelOf(r.hosts[j], zone) == None ==> HostSights(r, j + 1, zone) == HostSights(r, j, zone)
    ensures LabelOf(r.hosts[j], zone).Some? ==>
              var before, after := HostSights(r, j, zone), HostSights(r, j + 1, zone);
              var s := Sight(LabelOf(r.hosts[j], zone).value, O.Owner(r.Ref(), r.kind, r.uid, r.service), r.managed);
              && Imported(g, zone, after, create, wall)
                 == ImportSight(Imported(g, zone, before, create, wall), zone, s, create, wall)
              && PresentFrom(m, after) == NotePresent(PresentFrom(m, before), s)
  {
    hide ImportSight, NotePresent, LabelOf;
    var before, here := HostSights(r, j, zone), SightOf(r, r.hosts[j], zone);
    if LabelOf(r.hosts[j], zone).Some? {
      ImportedSnoc(g, zone, before, here[0], create, wall);
      PresentSnoc(m, before, here[0]);
      assert here == [here[0]];
    } else {
      assert before + here == before;
    }
  }

  lemma FailedHostStops(g: Import, r: ObservedRoute, n: nat, zone: string, create: bool, wall: int)
    requires n <= |r.hosts| && !Imported(g, zone, HostSights(r, n, zone), create, wall).ok
    ensures Imported(g, zone, HostSights(r, |r.hosts|, zone), create, wall)
            == Imported(g, zone, HostSights(r, n, zone), create, wall)
  {
    var sights := HostSights(r, |r.hosts|, zone);
    HostsPrefix(r, n, |r.hosts|, zone);
    assert sights[..|HostSights(r, n, zone)|] == HostSights(r, n, zone);
    FailedImportStops(g, zone, sights, |HostSights(r, n, zone)|, create, wall);
  }

  /** An import that the database lets through, of a label that no row has: with auto-registration its first
      unmanaged sight becomes a row of the observer's, and without it, or without such a sight, there is none. */
  lemma {:induction false} ImportedRow(t: Table, left: nat, zone: string, sights: seq<Sight>, create: bool, wall: int,
                                       name: string)
    requires Imported(Import(t, left, true, map[]), zone, sights, create, wall).ok && Key(zone, name) !in t.rows
    ensures var h := Imported(Import(t, left, true, map[]), zone, sights, create, wall);
            && (Key(zone, name) in h.table.rows ==>
                  create && exists i :: 0 <= i < |sights| && First(sights, i, name)
                                        && MadeFor(h.table.rows[Key(zone, name)], zone, sights[i], wall))
            && (create ==> forall i :: 0 <= i < |sights| && First(sights, i, name) ==> Key(zone, name) in h.table.rows)
            && (name in h.seen <==> exists i :: 0 <= i < |sights| && First(sights, i, name))
            && (forall i :: 0 <= i < |sights| && First(sights, i, name) ==>
                  name in h.seen && h.seen[name] == sights[i].owner.ref)
  {
    hide First, MadeFor, ImportSight;
    if sights != [] {
      var front, s, k := sights[..|sights| - 1], sights[|sights| - 1], Key(zone, name);
      assert sights == front + [s];
      var g := Imported(Import(t, left, true, map[]), zone, front, create, wall);
      var h := ImportSight(g, zone, s, create, wall);
      FirstSnoc(front, s, name);
      OkBefore(g, zone, s, create, wall);
      ImportedRow(t, left, zone, front, create, wall, name);
      SightStep(g, zone, s, create, wall, k);
      if k in g.table.rows {
        var i :| 0 <= i < |front| && First(front, i, name) && MadeFor(g.table.rows[k], zone, front[i], wall);
        assert First(sights, i, name) && sights[i] == front[i];
      }
      if exists i :: 0 <= i < |front| && First(front, i, name) {
        var i :| 0 <= i < |front| && First(front, i, name);
        assert First(sights, i, name);
      }
      forall i | 0 <= i < |sights| && First(sights, i, name)
        ensures i < |front| ==> First(front, i, name) && sights[i] == front[i]
        ensures i == |front| ==> name !in g.seen
      {
      }
      if name in h.seen && name !in g.seen {
        assert First(sights, |front|, name);
      }
    }
  }

  lemma OkBefore(g: Import, zone: string, s: Sight, create: bool, wall: int)
    ensures ImportSight(g, zone, s, create, wall).ok ==> g.ok
  {
  }

  /** What one sight adds, seen from one label. */
  lemma SightStep(g: Import, zone: string, s: Sight, create: bool, wall: int, k: Key)
    requires k.zone == zone && ImportSight(g, zone, s, create, wall).ok
    requires (k in g.table.rows ==> k.name in g.seen) && (create && k.name in g.seen ==> k in g.table.rows)
    ensures var h := ImportSight(g, zone, s, create, wall);
            && g.ok && (k in g.table.rows ==> k in h.table.rows && h.table.rows[k] == g.table.rows[k])
            && (k.name in h.seen <==> k.name in g.seen || (s.name == k.name && !s.managed))
            && (k.name in g.seen ==> h.seen[k.name] == g.seen[k.name])
            && (k.name in h.seen && k.name !in g.seen ==> h.seen[k.name] == s.owner.ref)
            && (k in h.table.rows && k !in g.table.rows ==>
                  create && s.name == k.name && !s.managed && k.name !in g.seen
                  && MadeFor(h.table.rows[k], zone, s, wall))
            && (s.name == k.name && !s.managed && k.name !in g.seen && create ==> k in h.table.rows)
  {
    hide Fqdn;
  }

  /** The first unmanaged sight of a label. */
  ghost predicate First(sights: seq<Sight>, i: nat, name: string)
    requires i < |sights|
  {
    sights[i].name == name && !sights[i].managed
    && forall j :: 0 <= j < i ==> sights[j].name != name || sights[j].managed
  }

  /** The row of a sight, by its columns: active, of the platform, without routes, and owned by the route seen. */
  ghost predicate MadeFor(row: Allocation, zone: string, s: Sight, wall: int) {
    row == Allocation(row.id, zone, "", s.name, Fqdn(s.name, zone), Platform, Observed, s.owner.ref, s.owner.kind,
                      Active,
                      Spec([], false, 0), None, map["observed-service" := s.owner.service], None, wall)
  }

  lemma FirstSnoc(front: seq<Sight>, s: Sight, name: string)
    ensures forall i :: 0 <= i < |front| ==> (First(front + [s], i, name) <==> First(front, i, name))
    ensures First(front + [s], |front|, name) <==>
              s.name == name && !s.managed && forall i :: 0 <= i < |front| ==> !First(front, i, name)
  {
    var all := front + [s];
    forall i | 0 <= i < |front|
      ensures First(all, i, name) <==> First(front, i, name)
    {
      assert forall j :: 0 <= j <= i ==> all[j] == front[j];
    }
    if s.name == name && !s.managed && !First(all, |front|, name) {
      var i := 0;
      while front[i].name != name || front[i].managed
        invariant 0 <= i < |front|
        invariant exists j :: i <= j < |front| && front[j].name == name && !front[j].managed
        invariant forall j :: 0 <= j < i ==> front[j].name != name || front[j].managed
        decreases |front| - i
      {
        i := i + 1;
      }
      assert First(front, i, name);
    }
  }

  class Watcher {
    const cfg: Config
    const store: Registry.Store
    var lastSuccess: Option<int>

    constructor (cfg: Config, store: Registry.Store)
      ensures this.cfg == cfg && this.store == store && lastSuccess == None
    {
      this.cfg, this.store, lastSuccess := cfg, store, None;
    }

    /** One sighting's database work. */
    method ImportOne(zone: string, s: Sight, left: nat, seen: map<string, string>, wall: int)
      returns (ok: bool, left': nat, seen': map<string, string>)
      modifies store`rows, store`nextId, store`events
      ensures Import(store.Tables(), left', ok, seen')
              == ImportSight(Import(old(store.Tables()), left, true, seen), zone, s, cfg.autoRegister, wall)
    {
      ok, left', seen' := true, left, seen;
      if s.managed {
        return;
      }
      if s.name in seen && seen[s.name] != s.owner.ref {
        return;
      }
      if left == 0 {
        return false, left, seen;
      }
      left', seen' := left - 1, seen[s.name := s.owner.ref];
      if Key(zone, s.name) !in store.rows && cfg.autoRegister {
        if left' == 0 {
          ok := false;
          return;
        }
        left' := left' - 1;
        var row := store.CreateAllocation(NewRow(zone, s, wall), wall);
      }
    }

    /** The hosts of one route: presence first, then the import. */
    method ImportRoute(zone: string, r: ObservedRoute, present: map<string, O.Owner>, left: nat, seen: map<string,
                       string>,
                       wall: int)
      returns (ok: bool, present': map<string, O.Owner>, left': nat, seen': map<string, string>)
      modifies store`rows, store`nextId, store`events
      ensures var sights := HostSights(r, |r.hosts|, zone);
              && Import(store.Tables(), left', ok, seen')
                 == Imported(Import(old(store.Tables()), left, true, seen), zone, sights, cfg.autoRegister, wall)
              && (ok ==> present' == PresentFrom(present, sights))
    {
      hide ImportSight, Imported, PresentFrom, NotePresent, HostSights, SightOf, LabelOf;
      ok, present', left', seen' := true, present, left, seen;
      ghost var start := Import(store.Tables(), left, true, seen);
      HostStart(start, present, r, zone, cfg.autoRegister, wall);
      var j := 0;
      while ok && j < |r.hosts|
        invariant j <= |r.hosts|
        invariant ok ==> present' == PresentFrom(present, HostSights(r, j, zone))
        invariant Import(store.Tables(), left', ok, seen')
                  == Imported(start, zone, HostSights(r, j, zone), cfg.autoRegister, wall)
      {
        HostStep(start, present, r, j, zone, cfg.autoRegister, wall);
        var l := LabelOf(r.hosts[j], zone);
        if l.Some? {
          var s := Sight(l.value, O.Owner(r.Ref(), r.kind, r.uid, r.service), r.managed);
          present' := NotePresent(present', s);
          ok, left', seen' := ImportOne(zone, s, left', seen', wall);
        }
        j := j + 1;
      }
      if !ok {
        FailedHostStops(start, r, j, zone, cfg.autoRegister, wall);
      }
    }

    /** Import and scan of one zone. */
    method ReconcileZone(zone: string, routes: seq<ObservedRoute>, now: int, reset: bool, io: ZoneIo) returns (ok: bool)
      requires Keyed(store.rows) && KeyedEdits(io.edits)
      modifies store`rows, store`nextId, store`events
      ensures Outcome(store.Tables(), ok) == ZonePass(old(store.Tables()), cfg, zone, routes, now, reset, io)
      ensures Keyed(store.rows)
    {
      hide ImportSight, NotePresent, HostSights, O.Swept, O.Statements, O.Retirees, O.Waiting, O.Audits, Overlay;
      if io.calls == 0 || zone !in store.zones {
        return false;
      }
      ghost var start := Import(store.Tables(), io.calls - 1, true, map[]);
      var left: nat, seen := io.calls - 1, map[];
      var present: map<string, O.Owner> := map[];
      ImportedKeyed(start, zone, SightsOf(routes, |routes|, zone), cfg.autoRegister, io.wall);
      var ok1, i := true, 0;
      while ok1 && i < |routes|
        invariant i <= |routes|
        invariant ok1 ==> present == Present(SightsOf(routes, i, zone))
        invariant Import(store.Tables(), left, ok1, seen)
                  == Imported(start, zone, SightsOf(routes, i, zone), cfg.autoRegister, io.wall)
      {
        ghost var here := HostSights(routes[i], |routes[i].hosts|, zone);
        ImportedConcat(start, zone, SightsOf(routes, i, zone), here, cfg.autoRegister, io.wall);
        PresentConcat(map[], SightsOf(routes, i, zone), here);
        ok1, present, left, seen := ImportRoute(zone, routes[i], present, left, seen, io.wall);
        i := i + 1;
      }
      if !ok1 {
        FailedRoutesStop(start, routes, i, |routes|, zone, cfg.autoRegister, io.wall);
        return false;
      }
      if cfg.autoRegister {
        var scan := O.Scan(present, now, cfg.Grace(), cfg.retireMissing, reset);
        O.SweptKeyed(store.rows, io.edits, zone, scan);
        var r := store.ReconcileObservations(zone, scan, io.edits, io.txCalls);
        return r.Some?;
      }
      return true;
    }

    /** One cycle. An error anywhere forgets the last success, so the next cycle starts fresh windows. */
    method Reconcile(routes: seq<ObservedRoute>, now: int, io: seq<ZoneIo>) returns (ok: bool)
      requires |io| == |cfg.zones| && Keyed(store.rows) && KeyedIo(io)
      modifies this`lastSuccess, store`rows, store`nextId, store`events
      ensures Outcome(store.Tables(), ok)
              == Cycle(old(store.Tables()), cfg, |cfg.zones|, routes, now, Reset(cfg, old(lastSuccess), now), io)
      ensures lastSuccess == if ok then Some(now) else None
      ensures Keyed(store.rows)
    {
      hide ZonePass;
      var reset := lastSuccess == None || now < lastSuccess.value || now - lastSuccess.value > 2 * cfg.Interval();
      for i := 0 to |cfg.zones|
        invariant Outcome(store.Tables(), true) == Cycle(old(store.Tables()), cfg, i, routes, now, reset, io)
        invariant Keyed(store.rows)
      {
        var ok1 := ReconcileZone(cfg.zones[i], routes, now, reset, io[i]);
        if !ok1 {
          FailedCycleStops(old(store.Tables()), cfg, i + 1, |cfg.zones|, routes, now, reset, io);
          lastSuccess := None;
          return false;
        }
      }
      lastSuccess := Some(now);
      return true;
    }

    /** Fetch both resources, then reconcile: without two whole lists nothing is touched and success is forgotten. */
    method Sync(ingressRoutes: P.Server, ingresses: P.Server, ghost tokens: set<string>, now: int, io: seq<ZoneIo>)
      returns (ok: bool)
      requires P.Bounded(ingressRoutes, tokens) && P.Bounded(ingresses, tokens)
      requires |io| == |cfg.zones| && Keyed(store.rows) && KeyedIo(io)
      modifies this`lastSuccess, store`rows, store`nextId, store`events
      ensures (forall ps :: !P.Complete(ingressRoutes, ps)) || (forall qs :: !P.Complete(ingresses, qs)) ==>
                !ok && store.Tables() == old(store.Tables()) && lastSuccess == None
      ensures forall ps, qs :: P.Complete(ingressRoutes, ps) && P.Complete(ingresses, qs) ==>
                && Outcome(store.Tables(), ok)
                   == Cycle(old(store.Tables()), cfg, |cfg.zones|, P.Items(ps) + P.Items(qs), now,
                            Reset(cfg, old(lastSuccess), now), io)
                && lastSuccess == if ok then Some(now) else None
      ensures Keyed(store.rows)
    {
      hide Cycle, P.Complete, P.Items;
      var first := P.FetchList(ingressRoutes, tokens);
      if first == None {
        lastSuccess := None;
        return false;
      }
      var second := P.FetchList(ingresses, tokens);
      if second == None {
        lastSuccess := None;
        return false;
      }
      ok := Reconcile(first.value + second.value, now, io);
    }
  }
}

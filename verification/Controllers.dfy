/** Four controllers on one registry: manifest apply, the container-label watcher, the custom-resource ingester and
    the cluster observer. Each pass is one step; any interleaving is a run. */
module Controllers {
  import opened Core
  import opened Routes
  import S = Sightings
  import M = Manifest
  import A = Allocations
  import Ap = Apply
  import AT = ApplyTheorems
  import T = Takeover
  import W = OwnedRows
  import D = DockerLabels
  import C = CrdIngest
  import B = Observer
  import O = Observation

  datatype Class = OfManifest | OfDocker | OfCrd | OfObserver

  /** Whose row it is. A manifest answers for all rows that no other controller made. */
  function ClassOf(a: Allocation): Class {
    if a.ownerKind == D.OWNER_KIND then OfDocker
    else if a.ownerKind == C.OWNER_KIND then OfCrd
    else if a.source == Observed then OfObserver
    else OfManifest
  }

  /** A row made by a controller other than the manifest bears its marks: one of `refs` as its owner reference, and no
      project. */
  predicate Marked(a: Allocation, refs: string -> bool) {
    && (a.ownerKind == D.OWNER_KIND || a.ownerKind == C.OWNER_KIND ==> W.Own(a, refs))
    && (a.source == Observed ==> Seen(a, refs))
  }

  predicate Seen(a: Allocation, refs: string -> bool) {
    refs(a.ownerRef) && a.project == "" && a.ownerKind != D.OWNER_KIND && a.ownerKind != C.OWNER_KIND
  }

  ghost predicate Separate(rows: map<Key, Allocation>, refs: string -> bool) {
    forall k <- rows :: Marked(rows[k], refs)
  }

  /** The marks of two classes never meet in a row. */
  lemma MarksExclude(a: Allocation, refs: string -> bool)
    requires Marked(a, refs)
    ensures a.ownerKind == D.OWNER_KIND <==> ClassOf(a) == OfDocker
    ensures a.ownerKind == C.OWNER_KIND <==> ClassOf(a) == OfCrd
    ensures a.source == Observed <==> ClassOf(a) == OfObserver
    ensures ClassOf(a) != OfManifest ==> a.project == "" && refs(a.ownerRef)
  {
  }

  /** A pass of one class: other rows stay and none of them appears. */
  ghost predicate OnlyOwn(before: map<Key, Allocation>, after: map<Key, Allocation>, own: Class) {
    && (forall k <- before :: ClassOf(before[k]) != own ==> k in after && after[k] == before[k])
    && (forall k <- after :: ClassOf(after[k]) != own ==> k in before && after[k] == before[k])
  }

  // ---- the owner-kind controllers

  /** A confined pass touches its own class only. */
  lemma OwnerKindPass(before: map<Key, Allocation>, after: map<Key, Allocation>, docker: bool, refs: string -> bool)
    requires Separate(before, refs)
    requires W.Confined(before, after, if docker then D.OWNER_KIND else C.OWNER_KIND, refs)
    ensures Separate(after, refs) && OnlyOwn(before, after, if docker then OfDocker else OfCrd)
  {
    hide W.Own, Seen;
    var kind := if docker then D.OWNER_KIND else C.OWNER_KIND;
    assert W.AllOwn(before, kind, refs);
    forall k | k in before
      ensures ClassOf(before[k]) != (if docker then OfDocker else OfCrd) ==> before[k].ownerKind != kind
    {
      MarksExclude(before[k], refs);
    }
    forall k | k in after
      ensures Marked(after[k], refs)
      ensures ClassOf(after[k]) != (if docker then OfDocker else OfCrd) ==> after[k].ownerKind != kind
    {
      if after[k].ownerKind == kind {
        OwnIsMarked(after[k], refs);
      }
      MarksExclude(after[k], refs);
    }
  }

  lemma OwnIsMarked(a: Allocation, refs: string -> bool)
    requires W.Own(a, refs)
    ensures Marked(a, refs)
  {
  }

  // ---- the manifest

  /** No row of another controller is taken over. */
  ghost predicate Spares(x: Ap.Run) {
    forall k <- x.before.rows :: ClassOf(x.before.rows[k]) != OfManifest ==> !T.Takes(x, k)
  }

  /** A run of the manifest handler, by whatever labels and with whatever reply, touches only rows of its class if
      and only if it takes over no row of another controller. */
  lemma ManifestPass(x: Ap.Run, refs: string -> bool)
    requires M.Accepted(x.m) && Ap.Replied(x) && ValidRows(x.before.rows, x.before.nextId)
             && Separate(x.before.rows, refs)
    ensures OnlyOwn(x.before.rows, x.after.rows, OfManifest) <==> Spares(x)
    ensures Spares(x) ==> Separate(x.after.rows, refs)
  {
    hide Ap.Replied, M.Accepted, ValidRows, Marked, T.Takes;
    forall k | k in x.before.rows && ClassOf(x.before.rows[k]) != OfManifest
      ensures k in x.after.rows && x.after.rows[k] == x.before.rows[k] <==> !T.Takes(x, k)
    {
      MarksExclude(x.before.rows[k], refs);
      AT.ProjectNamed(x.m);
      T.TakesIff(x, k);
    }
    forall k | k in x.after.rows
      ensures ClassOf(x.after.rows[k]) == if k in x.before.rows then ClassOf(x.before.rows[k]) else OfManifest
      ensures ClassOf(x.after.rows[k]) == OfManifest ==> Marked(x.after.rows[k], refs)
    {
      if k in x.before.rows {
        MarksExclude(x.before.rows[k], refs);
      }
      T.RunKinds(x, k);
      if ClassOf(x.after.rows[k]) == OfManifest {
        PlainIsMarked(x.after.rows[k], refs);
      }
    }
  }

  lemma PlainIsMarked(a: Allocation, refs: string -> bool)
    requires ClassOf(a) == OfManifest
    ensures Marked(a, refs)
  {
  }

  // ---- the observer

  /** The observer's rows are seen; the others are as they were. */
  ghost predicate Watched(before: map<Key, Allocation>, after: map<Key, Allocation>, refs: string -> bool) {
    && (forall k <- before :: before[k].source != Observed ==> k in after && after[k] == before[k])
    && (forall k <- after ::
          if after[k].source != Observed then k in before && after[k] == before[k] else Seen(after[k], refs))
  }

  predicate Sighted(owner: O.Owner, refs: string -> bool) {
    refs(owner.ref) && owner.kind != D.OWNER_KIND && owner.kind != C.OWNER_KIND
  }

  predicate OwnRoutes(routes: seq<ObservedRoute>, refs: string -> bool) {
    forall r <- routes :: refs(r.Ref()) && r.kind != D.OWNER_KIND && r.kind != C.OWNER_KIND
  }

  lemma {:induction false} HostsSighted(r: ObservedRoute, n: nat, zone: string, refs: string -> bool)
    requires n <= |r.hosts| && OwnRoutes([r], refs)
    ensures forall s :: s in S.HostSights(r, n, zone) ==> Sighted(s.owner, refs)
  {
    assert r in [r];
    if n > 0 {
      HostsSighted(r, n - 1, zone, refs);
    }
  }

  lemma {:induction false} SightsSighted(routes: seq<ObservedRoute>, n: nat, zone: string, refs: string -> bool)
    requires n <= |routes| && OwnRoutes(routes, refs)
    ensures forall s :: s in S.SightsOf(routes, n, zone) ==> Sighted(s.owner, refs)
  {
    if n > 0 {
      SightsSighted(routes, n - 1, zone, refs);
      assert routes[n - 1] in routes;
      HostsSighted(routes[n - 1], |routes[n - 1].hosts|, zone, refs);
    }
  }

  lemma {:induction false} PresentSighted(sights: seq<S.Sight>, refs: string -> bool)
    requires forall s :: s in sights ==> Sighted(s.owner, refs)
    ensures forall l <- S.Present(sights) :: Sighted(S.Present(sights)[l], refs)
  {
    if sights != [] {
      var front, s := sights[..|sights| - 1], sights[|sights| - 1];
      PresentSighted(front, refs);
      assert s in sights && S.Present(sights) == S.NotePresent(S.Present(front), s);
    }
  }

  lemma {:induction false} ImportWatched(g: B.Import, zone: string, sights: seq<S.Sight>, create: bool, wall: int,
                                         refs: string -> bool)
    requires ValidRows(g.table.rows, g.table.nextId) && Watched(g.table.rows, g.table.rows, refs)
    requires forall s :: s in sights ==> Sighted(s.owner, refs)
    ensures var h := B.Imported(g, zone, sights, create, wall);
            Watched(g.table.rows, h.table.rows, refs) && ValidRows(h.table.rows, h.table.nextId)
  {
    hide Watched, ValidRows, B.ImportSight;
    if sights != [] {
      var front, s := sights[..|sights| - 1], sights[|sights| - 1];
      ImportWatched(g, zone, front, create, wall, refs);
      ImportOneWatched(g.table.rows, B.Imported(g, zone, front, create, wall), zone, s, create, wall, refs);
    }
  }

  lemma ImportOneWatched(before: map<Key, Allocation>, g: B.Import, zone: string, s: S.Sight, create: bool, wall: int,
                         refs: string -> bool)
    requires ValidRows(g.table.rows, g.table.nextId) && Watched(before, g.table.rows, refs) && Sighted(s.owner, refs)
    ensures var h := B.ImportSight(g, zone, s, create, wall);
            Watched(before, h.table.rows, refs) && ValidRows(h.table.rows, h.table.nextId)
  {
  }

  lemma SweptRow(t: Table, zone: string, scan: O.Scan, refs: string -> bool, k: Key)
    requires forall l <- scan.seen :: Sighted(scan.seen[l], refs)
    requires k in O.Swept(t.rows, t.rows, zone, scan, t.rows.Keys)
             && (t.rows[k].source == Observed ==> Seen(t.rows[k], refs))
    ensures var a := O.Swept(t.rows, t.rows, zone, scan, t.rows.Keys)[k];
            && a.source == t.rows[k].source && a.id == t.rows[k].id && KeyOf(a) == KeyOf(t.rows[k])
            && (a.source != Observed ==> a == t.rows[k]) && (a.source == Observed ==> Seen(a, refs))
  {
    hide O.Missed, O.EvidenceOf, O.Ripe;
  }

  lemma SweptWatched(before: map<Key, Allocation>, t: Table, zone: string, scan: O.Scan, refs: string -> bool)
    requires ValidRows(t.rows, t.nextId) && Watched(before, t.rows, refs)
    requires forall l <- scan.seen :: Sighted(scan.seen[l], refs)
    ensures var rows := O.Swept(t.rows, t.rows, zone, scan, t.rows.Keys);
            Watched(before, rows, refs) && ValidRows(rows, t.nextId)
  {
    hide O.Swept, Seen, Sighted;
    var rows := O.Swept(t.rows, t.rows, zone, scan, t.rows.Keys);
    SweptKeys(t.rows, zone, scan);
    forall k | k in rows
      ensures rows[k].source == t.rows[k].source && rows[k].id == t.rows[k].id && KeyOf(rows[k]) == KeyOf(t.rows[k])
      ensures rows[k].source != Observed ==> rows[k] == t.rows[k]
      ensures rows[k].source == Observed ==> Seen(rows[k], refs)
    {
      SweptRow(t, zone, scan, refs, k);
    }
  }

  lemma SweptKeys(rows: map<Key, Allocation>, zone: string, scan: O.Scan)
    ensures O.Swept(rows, rows, zone, scan, rows.Keys).Keys <= rows.Keys
    ensures forall k <- rows :: rows[k].source != Observed ==> k in O.Swept(rows, rows, zone, scan, rows.Keys)
  {
    hide O.Due;
  }

  /** No other commits while the observer runs: its pass is one step. */
  ghost predicate Undisturbed(io: seq<B.ZoneIo>) {
    forall i :: 0 <= i < |io| ==> io[i].edits == map[]
  }

  lemma ZoneWatched(before: map<Key, Allocation>, t: Table, cfg: B.Config, zone: string, routes: seq<ObservedRoute>,
                    now: int, reset: bool,
                    io: B.ZoneIo, refs: string -> bool)
    requires ValidRows(t.rows, t.nextId) && Watched(before, t.rows, refs) && OwnRoutes(routes, refs)
             && io.edits == map[]
    ensures var u := B.ZonePass(t, cfg, zone, routes, now, reset, io).table;
            Watched(before, u.rows, refs) && ValidRows(u.rows, u.nextId)
  {
    hide Watched, ValidRows, O.Swept, O.Statements, B.Imported, S.SightsOf, S.Present, Sighted;
    if io.calls > 0 && zone in t.zones {
      var sights := S.SightsOf(routes, |routes|, zone);
      SightsSighted(routes, |routes|, zone, refs);
      PresentSighted(sights, refs);
      var start := B.Import(t, io.calls - 1, true, map[]);
      WatchedSelf(before, t.rows, refs);
      ImportWatched(start, zone, sights, cfg.autoRegister, io.wall, refs);
      var g := B.Imported(start, zone, sights, cfg.autoRegister, io.wall);
      WatchedTrans(before, t.rows, g.table.rows, refs);
      NoEdits(g.table.rows, io.edits);
      SweptWatched(before, g.table, zone, B.ScanOf(cfg, zone, routes, now, reset), refs);
    }
  }

  lemma NoEdits(rows: map<Key, Allocation>, edits: map<Key, Option<Allocation>>)
    requires edits == map[]
    ensures Overlay(rows, edits) == rows
  {
  }

  lemma WatchedSelf(before: map<Key, Allocation>, rows: map<Key, Allocation>, refs: string -> bool)
    requires Watched(before, rows, refs)
    ensures Watched(rows, rows, refs)
  {
  }

  lemma WatchedTrans(a: map<Key, Allocation>, b: map<Key, Allocation>, c: map<Key, Allocation>, refs: string -> bool)
    requires Watched(a, b, refs) && Watched(b, c, refs)
    ensures Watched(a, c, refs)
  {
  }

  lemma {:induction false} CycleWatched(t: Table, cfg: B.Config, n: nat, routes: seq<ObservedRoute>, now: int,
                                        reset: bool,
                                        io: seq<B.ZoneIo>, refs: string -> bool)
    requires n <= |cfg.zones| == |io| && Undisturbed(io) && OwnRoutes(routes, refs)
    requires ValidRows(t.rows, t.nextId) && Watched(t.rows, t.rows, refs)
    ensures var u := B.Cycle(t, cfg, n, routes, now, reset, io).table;
            Watched(t.rows, u.rows, refs) && ValidRows(u.rows, u.nextId)
  {
    hide Watched, ValidRows, B.ZonePass;
    if n > 0 {
      CycleWatched(t, cfg, n - 1, routes, now, reset, io, refs);
      var b := B.Cycle(t, cfg, n - 1, routes, now, reset, io);
      if b.ok {
        ZoneWatched(t.rows, b.table, cfg, cfg.zones[n - 1], routes, now, reset, io[n - 1], refs);
      }
    }
  }

  /** An observer cycle touches its own class only. */
  lemma ObserverPass(t: Table, cfg: B.Config, routes: seq<ObservedRoute>, now: int, reset: bool, io: seq<B.ZoneIo>,
                     refs: string -> bool)
    requires |cfg.zones| == |io| && Undisturbed(io) && OwnRoutes(routes, refs)
    requires ValidRows(t.rows, t.nextId) && Separate(t.rows, refs)
    ensures var u := B.Cycle(t, cfg, |cfg.zones|, routes, now, reset, io).table;
            Separate(u.rows, refs) && OnlyOwn(t.rows, u.rows, OfObserver) && ValidRows(u.rows, u.nextId)
  {
    hide ValidRows, B.Cycle, W.Own, Seen;
    CycleWatched(t, cfg, |cfg.zones|, routes, now, reset, io, refs);
    var u := B.Cycle(t, cfg, |cfg.zones|, routes, now, reset, io).table;
    forall k | k in t.rows
      ensures ClassOf(t.rows[k]) != OfObserver ==> t.rows[k].source != Observed
    {
      MarksExclude(t.rows[k], refs);
    }
    forall k | k in u.rows
      ensures Marked(u.rows[k], refs)
      ensures ClassOf(u.rows[k]) != OfObserver ==> u.rows[k].source != Observed
    {
      if u.rows[k].source == Observed {
        SeenIsMarked(u.rows[k], refs);
      }
      MarksExclude(u.rows[k], refs);
    }
  }

  lemma SeenIsMarked(a: Allocation, refs: string -> bool)
    requires Seen(a, refs)
    ensures Marked(a, refs)
  {
  }

  // ---- runs

  datatype Pass =
    | Applied(run: Ap.Run)
    | Labelled(config: A.Config, want: seq<D.Labeled>, zones: seq<Zone>, wall: int)
    | Ingested(config: A.Config, wanted: seq<C.Reservation>, wall: int)
    | Watching(cfg: B.Config, routes: seq<ObservedRoute>, now: int, reset: bool, io: seq<B.ZoneIo>)

  function ClassFor(p: Pass): Class {
    match p
    case Applied(_) => OfManifest
    case Labelled(_, _, _, _) => OfDocker
    case Ingested(_, _, _) => OfCrd
    case Watching(_, _, _, _, _) => OfObserver
  }

  /** One controller's whole pass, with owner references among `refs` for all but the manifest. */
  ghost predicate Step(t: Table, p: Pass, after: Table, refs: string -> bool) {
    match p
    case Applied(x) => M.Accepted(x.m) && Ap.Replied(x) && x.before == t && x.after == after
    case Labelled(c, want, zones, wall) =>
      && A.Configured(c) && (forall i :: i in D.ItemsOf(want, zones) ==> refs(i.ownerRef))
      && after == W.Passed(t, c, D.OWNER_KIND, D.ItemsOf(want, zones), D.Desired(want), wall)
    case Ingested(c, wanted, wall) =>
      && A.Configured(c) && (forall i :: i in C.ItemsOf(wanted) ==> refs(i.ownerRef))
      && after == W.Passed(t, c, C.OWNER_KIND, C.ItemsOf(wanted), C.Desired(wanted), wall)
    case Watching(cfg, routes, now, reset, io) =>
      && |cfg.zones| == |io| && Undisturbed(io) && OwnRoutes(routes, refs)
      && after == B.Cycle(t, cfg, |cfg.zones|, routes, now, reset, io).table
  }

  ghost predicate Polite(p: Pass) {
    p.Applied? ==> Spares(p.run)
  }

  lemma OwnerKindStep(t: Table, c: A.Config, items: seq<W.Item>, desired: Allocation -> bool, wall: int, docker: bool,
                      refs: string -> bool)
    requires A.Configured(c) && ValidRows(t.rows, t.nextId) && Separate(t.rows, refs)
             && forall i :: i in items ==> refs(i.ownerRef)
    ensures var after := W.Passed(t, c, if docker then D.OWNER_KIND else C.OWNER_KIND, items, desired, wall);
            && ValidRows(after.rows, after.nextId) && Separate(after.rows, refs)
            && OnlyOwn(t.rows, after.rows, if docker then OfDocker else OfCrd)
  {
    hide ValidRows, Separate, OnlyOwn, W.Confined, W.SyncedAll, W.Kept;
    var kind := if docker then D.OWNER_KIND else C.OWNER_KIND;
    W.PassValid(t, c, kind, items, desired, wall);
    W.PassConfined(t, c, kind, items, desired, wall, refs);
    OwnerKindPass(t.rows, W.Passed(t, c, kind, items, desired, wall).rows, docker, refs);
  }

  lemma StepSeparate(t: Table, p: Pass, after: Table, refs: string -> bool)
    requires ValidRows(t.rows, t.nextId) && Separate(t.rows, refs) && Step(t, p, after, refs)
    ensures ValidRows(after.rows, after.nextId)
    ensures OnlyOwn(t.rows, after.rows, ClassFor(p)) <==> Polite(p)
    ensures Polite(p) ==> Separate(after.rows, refs)
  {
    hide ValidRows, Separate, OnlyOwn, Ap.Replied, M.Accepted, W.Passed, B.Cycle, Undisturbed, OwnRoutes, D.ItemsOf,
      C.ItemsOf, Spares;
    match p
    case Applied(x) =>
      ManifestPass(x, refs);
      T.RunValid(x);
    case Labelled(c, want, zones, wall) =>
      OwnerKindStep(t, c, D.ItemsOf(want, zones), D.Desired(want), wall, true, refs);
    case Ingested(c, wanted, wall) =>
      OwnerKindStep(t, c, C.ItemsOf(wanted), C.Desired(wanted), wall, false, refs);
    case Watching(cfg, routes, now, reset, io) => ObserverPass(t, cfg, routes, now, reset, io, refs);
  }

  /** A run: `tables[i + 1]` is what the i-th pass left. */
  ghost predicate Run(tables: seq<Table>, passes: seq<Pass>, refs: string -> bool) {
    |tables| == |passes| + 1 && forall i :: 0 <= i < |passes| ==> Step(tables[i], passes[i], tables[i + 1], refs)
  }

  ghost predicate Start(t: Table, refs: string -> bool) {
    ValidRows(t.rows, t.nextId) && Separate(t.rows, refs)
  }

  /** As long as no manifest run takes over a row of another controller, rows keep their marks. */
  lemma {:induction false} StaySeparate(tables: seq<Table>, passes: seq<Pass>, refs: string -> bool, i: nat)
    requires Run(tables, passes, refs) && i < |tables| && Start(tables[0], refs)
    requires forall n :: 0 <= n < i ==> Polite(passes[n])
    ensures Start(tables[i], refs)
  {
    hide ValidRows, Separate, Step, Polite;
    if i > 0 {
      StaySeparate(tables, passes, refs, i - 1);
      StepSeparate(tables[i - 1], passes[i - 1], tables[i], refs);
    }
  }

  /** In a run of whole passes, in any order, every pass edits, adds and deletes rows of its own class only, if and
      only if no manifest run takes over a row that another controller made. */
  lemma NoInterference(tables: seq<Table>, passes: seq<Pass>, refs: string -> bool)
    requires Run(tables, passes, refs) && Start(tables[0], refs)
    ensures (forall i :: 0 <= i < |passes| ==> OnlyOwn(tables[i].rows, tables[i + 1].rows, ClassFor(passes[i])))
            <==> (forall i :: 0 <= i < |passes| ==> Polite(passes[i]))
  {
    hide Start, OnlyOwn, Step, Polite;
    PoliteWhile(tables, passes, refs, |passes|);
  }

  lemma {:induction false} PoliteWhile(tables: seq<Table>, passes: seq<Pass>, refs: string -> bool, n: nat)
    requires Run(tables, passes, refs) && n <= |passes| && Start(tables[0], refs)
    ensures (forall i :: 0 <= i < n ==> OnlyOwn(tables[i].rows, tables[i + 1].rows, ClassFor(passes[i])))
            <==> (forall i :: 0 <= i < n ==> Polite(passes[i]))
  {
    hide ValidRows, Separate, OnlyOwn, Step, Polite;
    if n > 0 {
      PoliteWhile(tables, passes, refs, n - 1);
      if forall i :: 0 <= i < n - 1 ==> Polite(passes[i]) {
        StaySeparate(tables, passes, refs, n - 1);
        StepSeparate(tables[n - 1], passes[n - 1], tables[n], refs);
      }
    }
  }

  /** So it is when the manifests' owner references are told apart from the others'. */
  lemma ReferencesApart(tables: seq<Table>, passes: seq<Pass>, refs: string -> bool, i: nat)
    requires Run(tables, passes, refs) && i < |passes| && Start(tables[0], refs)
    requires forall n, c :: 0 <= n < |passes| && passes[n].Applied? && c in passes[n].run.claims ==> !refs(c.ownerRef)
    ensures Start(tables[i], refs) && Polite(passes[i])
  {
    hide ValidRows, Separate, Step, Polite;
    ApartWhile(tables, passes, refs, i);
    StaySeparate(tables, passes, refs, i);
    ApartStep(tables[i], passes[i], tables[i + 1], refs);
  }

  lemma {:induction false} ApartWhile(tables: seq<Table>, passes: seq<Pass>, refs: string -> bool, n: nat)
    requires Run(tables, passes, refs) && n <= |passes| && Start(tables[0], refs)
    requires forall n, c :: 0 <= n < |passes| && passes[n].Applied? && c in passes[n].run.claims ==> !refs(c.ownerRef)
    ensures forall i :: 0 <= i < n ==> Polite(passes[i])
  {
    hide Start, Step, Polite;
    if n > 0 {
      ApartWhile(tables, passes, refs, n - 1);
      StaySeparate(tables, passes, refs, n - 1);
      ApartStep(tables[n - 1], passes[n - 1], tables[n], refs);
    }
  }

  lemma ApartStep(t: Table, p: Pass, after: Table, refs: string -> bool)
    requires Start(t, refs) && Step(t, p, after, refs)
    requires p.Applied? ==> forall c :: c in p.run.claims ==> !refs(c.ownerRef)
    ensures Polite(p)
  {
    hide ValidRows, Marked, Ap.Replied, M.Accepted, ClassOf, AT.Reach, AT.Finds;
    if p.Applied? {
      forall k | k in t.rows && ClassOf(t.rows[k]) != OfManifest
        ensures !T.Takes(p.run, k)
      {
        MarksExclude(t.rows[k], refs);
        assert forall i :: 0 <= i < |p.run.claims| ==> p.run.claims[i] in p.run.claims;
      }
    }
  }

  ghost predicate Unchanged(tables: seq<Table>, i: nat, j: nat, k: Key)
    requires i <= j < |tables| && k in tables[i].rows
  {
    forall n :: i <= n <= j ==> k in tables[n].rows && tables[n].rows[k] == tables[i].rows[k]
  }

  /** A stretch of a run in which a row's own controller takes no step: manifest runs are those of other projects. */
  ghost predicate Away(passes: seq<Pass>, i: nat, j: nat, row: Allocation)
    requires i <= j <= |passes|
  {
    forall n :: i <= n < j ==>
      if passes[n].Applied? then row.project != passes[n].run.m.RoutingProject()
         else ClassFor(passes[n]) != ClassOf(row)
  }

  /** A row outlives, unchanged, a stretch in which its own controller takes no step, if and only if no manifest
      run of the stretch takes it. */
  lemma {:induction false} RowsOutlive(tables: seq<Table>, passes: seq<Pass>, refs: string -> bool, i: nat, j: nat,
                                       k: Key)
    requires Run(tables, passes, refs) && i <= j < |tables| && Start(tables[0], refs)
    requires (forall n :: 0 <= n < j ==> Polite(passes[n])) && k in tables[i].rows
             && Away(passes, i, j, tables[i].rows[k])
    ensures Unchanged(tables, i, j, k) <==>
              forall n :: i <= n < j && passes[n].Applied? ==> !T.Takes(passes[n].run, k)
  {
    hide ValidRows, Separate, Step, ClassOf, Polite, T.Takes;
    if i < j {
      RowsOutlive(tables, passes, refs, i, j - 1, k);
      if Unchanged(tables, i, j - 1, k) {
        StaySeparate(tables, passes, refs, j - 1);
        StepLeaves(tables[j - 1], passes[j - 1], tables[j], refs, k);
      }
    }
  }

  lemma StepLeaves(t: Table, p: Pass, after: Table, refs: string -> bool, k: Key)
    requires Start(t, refs) && Step(t, p, after, refs) && Polite(p) && k in t.rows
    requires if p.Applied? then t.rows[k].project != p.run.m.RoutingProject() else ClassFor(p) != ClassOf(t.rows[k])
    ensures k in after.rows && after.rows[k] == t.rows[k] <==> p.Applied? ==> !T.Takes(p.run, k)
  {
    hide ValidRows, Separate, Ap.Replied, M.Accepted, W.Passed, B.Cycle, Undisturbed, OwnRoutes, D.ItemsOf, C.ItemsOf,
      Polite, T.Takes, ClassOf;
    if p.Applied? {
      T.TakesIff(p.run, k);
    } else {
      StepSeparate(t, p, after, refs);
    }
  }
}

/** Whole observer histories: what a retirement proves about the scans before it. The code keeps a last
    success, a window start and a counter; the history variable `Marks` keeps every scan's outcome. */
module Lifecycle {
  import opened Core
  import opened Routes
  import opened Sightings
  import opened Observer
  import O = Observation

  datatype Sys = Sys(table: Table, lastSuccess: Option<int>)

  /** Restart and ScanFailed forget the last success; Scan is a cycle over a whole list at some clock value;
      Elsewhere is any work by other writers between cycles. */
  datatype Step =
    | Restart
    | ScanFailed
    | Scan(routes: seq<ObservedRoute>, now: int, io: seq<ZoneIo>)
    | Elsewhere(zones: map<string, Zone>, edits: map<Key, Option<Allocation>>)

  /** A step by which no other writer touches row `k`. */
  ghost predicate Legal(cfg: Config, k: Key, e: Step) {
    match e
    case Scan(_, _, io) => |io| == |cfg.zones| && KeyedIo(io) && forall i :: 0 <= i < |io| ==> k !in io[i].edits
    case Elsewhere(_, edits) => KeyedEdits(edits) && k !in edits
    case _ => true
  }

  function CycleOf(cfg: Config, s: Sys, e: Step): Outcome
    requires e.Scan? && |e.io| == |cfg.zones|
  {
    Cycle(s.table, cfg, |cfg.zones|, e.routes, e.now, Reset(cfg, s.lastSuccess, e.now), e.io)
  }

  ghost function Next(cfg: Config, k: Key, s: Sys, e: Step): Sys
    requires Legal(cfg, k, e)
  {
    match e
    case Scan(_, now, _) =>
      var o := CycleOf(cfg, s, e);
      Sys(o.table, if o.ok then Some(now) else None)
    case Elsewhere(zones, edits) => s.(table := s.table.(zones := zones, rows := Overlay(s.table.rows, edits)))
    case _ => s.(lastSuccess := None)
  }

  ghost predicate LegalRun(cfg: Config, k: Key, h: seq<Step>) {
    forall i :: 0 <= i < |h| ==> Legal(cfg, k, h[i])
  }

  ghost function Run(cfg: Config, k: Key, s: Sys, h: seq<Step>): Sys
    requires LegalRun(cfg, k, h)
  {
    if h == [] then s else Next(cfg, k, Run(cfg, k, s, h[..|h| - 1]), h[|h| - 1])
  }

  /** How a step looks from row `k`: a broken cycle, a complete cycle that saw the host, or one that did not. */
  datatype Mark = Broken | Seen(at: int) | Absent(at: int)

  predicate Sighted(k: Key, routes: seq<ObservedRoute>) {
    k.name in Present(SightsOf(routes, |routes|, k.zone))
  }

  ghost function MarkOf(cfg: Config, k: Key, s: Sys, e: Step): seq<Mark>
    requires Legal(cfg, k, e)
  {
    match e
    case Elsewhere(_, _) => []
    case Scan(routes, now, _) =>
      if !CycleOf(cfg, s, e).ok then [Broken] else if Sighted(k, routes) then [Seen(now)] else [Absent(now)]
    case _ => [Broken]
  }

  ghost function Marks(cfg: Config, k: Key, s: Sys, h: seq<Step>): seq<Mark>
    requires LegalRun(cfg, k, h)
  {
    if h == [] then []
    else Marks(cfg, k, s, h[..|h| - 1]) + MarkOf(cfg, k, Run(cfg, k, s, h[..|h| - 1]), h[|h| - 1])
  }

  /** A scan at `t` goes on from the last mark: complete, clock not back, gap at most two intervals. */
  predicate Continues(cfg: Config, marks: seq<Mark>, t: int) {
    marks != [] && !marks[|marks| - 1].Broken?
    && marks[|marks| - 1].at <= t <= marks[|marks| - 1].at + 2 * cfg.Interval()
  }

  /** Times of the current unbroken run of absences. */
  function Streak(cfg: Config, marks: seq<Mark>): seq<int>
    decreases |marks|, 0
  {
    if marks == [] || !marks[|marks| - 1].Absent? then []
    else Extend(cfg, marks[..|marks| - 1], marks[|marks| - 1].at)
  }

  /** The run of absences that an absence at `t` ends. */
  function Extend(cfg: Config, marks: seq<Mark>, t: int): seq<int>
    decreases |marks|, 1
  {
    if Continues(cfg, marks, t) then Streak(cfg, marks) + [t] else [t]
  }

  /** The counter a streak leaves when the zone is listed `m` times. */
  function StreakTally(cfg: Config, m: nat, marks: seq<Mark>): nat
    decreases |marks|, 0
  {
    if marks == [] || !marks[|marks| - 1].Absent? then 0
    else Tally(cfg, m, marks[..|marks| - 1], marks[|marks| - 1].at, m)
  }

  /** The counter within a cycle at `t`, after `j` transactions of the zone: a reset window counts once. */
  function Tally(cfg: Config, m: nat, marks: seq<Mark>, t: int, j: nat): nat
    decreases |marks|, 1
  {
    if Continues(cfg, marks, t) then StreakTally(cfg, m, marks) + j else 1
  }

  function Listed(zones: seq<string>, n: nat, zone: string): nat
    requires n <= |zones|
  {
    if n == 0 then 0 else Listed(zones, n - 1, zone) + if zones[n - 1] == zone then 1 else 0
  }

  // ---- one cycle, seen from one row

  predicate Watched(a: Allocation, k: Key) {
    O.Selected(a, k.zone) && O.Passive(a) && a.name == k.name
  }

  function RowAt(t: Table, k: Key): Option<Allocation> {
    if k in t.rows then Some(t.rows[k]) else None
  }

  /** One committed transaction of the row's zone. */
  function Commit(r: Option<Allocation>, scan: O.Scan): Option<Allocation> {
    if r == None || O.Due(r.value, scan) then None
    else Some(O.Stamped(r.value, O.Noted(r.value, scan), scan.now))
  }

  function Commits(r: Option<Allocation>, scan: O.Scan, j: nat): Option<Allocation> {
    if j == 0 then r else Commit(Commits(r, scan, j - 1), scan)
  }

  /** Committed transactions of zone `z` among the first `n` zones of a cycle. */
  function Done(t: Table, cfg: Config, n: nat, routes: seq<ObservedRoute>, now: int, reset: bool, io: seq<ZoneIo>,
                z: string): nat
    requires n <= |cfg.zones| == |io|
  {
    if n == 0 then 0
    else Done(t, cfg, n - 1, routes, now, reset, io, z)
         + if Cycle(t, cfg, n, routes, now, reset, io).ok && cfg.zones[n - 1] == z then 1 else 0
  }

  /** Import creates rows only for labels it sights, in its own zone, and never changes a row. */
  lemma {:induction false} ImportFrame(g: Import, zone: string, sights: seq<Sight>, create: bool, wall: int, k: Key)
    ensures var rows := Imported(g, zone, sights, create, wall).table.rows;
            && (k in g.table.rows ==> k in rows && rows[k] == g.table.rows[k])
            && (k in rows && k !in g.table.rows ==>
                  k.zone == zone && k.name in Present(sights) && Watched(rows[k], k)
                  && O.EvidenceOf(rows[k]) == O.Evidence(None, 0))
  {
    if sights != [] {
      ImportFrame(g, zone, sights[..|sights| - 1], create, wall, k);
    }
  }

  lemma AppliedRow(t: Table, zone: string, scan: O.Scan, io: ZoneIo, k: Key)
    requires Keyed(t.rows) && k !in io.edits && (k in t.rows ==> Watched(t.rows[k], k))
    ensures RowAt(Applied(t, zone, scan, io).table, k)
            == if zone == k.zone && Applied(t, zone, scan, io).ok then Commit(RowAt(t, k), scan) else RowAt(t, k)
  {
    hide O.Statements, O.Noted, O.Due, O.Stamped;
    var found := Overlay(t.rows, io.edits);
    assert k in found <==> k in t.rows;
    if k in t.rows {
      assert O.Hits(t.rows, found, k, zone) <==> zone == k.zone;
    }
  }

  lemma CommitRow(a: Allocation, scan: O.Scan, k: Key)
    requires Watched(a, k)
    ensures Commit(Some(a), scan).Some? ==> Watched(Commit(Some(a), scan).value, k)
    ensures k.name in scan.seen ==>
              Commit(Some(a), scan).Some? && O.EvidenceOf(Commit(Some(a), scan).value) == O.Evidence(None, 0)
    ensures k.name !in scan.seen ==>
              var e := O.Missed(O.EvidenceOf(a), scan.now, scan.reset);
              if scan.retire && O.Ripe(e, scan.now, scan.grace) then Commit(Some(a), scan) == None
              else Commit(Some(a), scan).Some? && O.EvidenceOf(Commit(Some(a), scan).value) == e
  {
  }

  /** Either the sighting cleared the evidence, or nothing was committed and nothing changed. */
  predicate Cleared(before: Option<Allocation>, after: Option<Allocation>, committed: bool) {
    && (before.Some? ==> after.Some?)
    && (after.Some? ==> O.EvidenceOf(after.value) == O.Evidence(None, 0) || (!committed && after == before))
  }

  lemma ZonePassRow(t: Table, cfg: Config, zone: string, routes: seq<ObservedRoute>, now: int, reset: bool, io: ZoneIo,
                    k: Key)
    requires Keyed(t.rows) && KeyedEdits(io.edits) && k !in io.edits && cfg.autoRegister
    requires k in t.rows ==> Watched(t.rows[k], k)
    ensures var o := ZonePass(t, cfg, zone, routes, now, reset, io);
            && Keyed(o.table.rows) && (k in o.table.rows ==> Watched(o.table.rows[k], k))
            && (!Sighted(k, routes) ==>
                  RowAt(o.table, k) == if o.ok && zone == k.zone
                                       then Commit(RowAt(t, k), ScanOf(cfg, k.zone, routes, now, reset))
                                       else RowAt(t, k))
            && (Sighted(k, routes) ==> Cleared(RowAt(t, k), RowAt(o.table, k), o.ok && zone == k.zone))
  {
    hide O.Statements, O.Noted, O.Due, O.Stamped, O.Swept;
    if io.calls > 0 && zone in t.zones {
      var sights := SightsOf(routes, |routes|, zone);
      var start := Import(t, io.calls - 1, true, map[]);
      ImportFrame(start, zone, sights, true, io.wall, k);
      ImportedKeyed(start, zone, sights, true, io.wall);
      var g := Imported(start, zone, sights, true, io.wall);
      if g.ok {
        var scan := ScanOf(cfg, zone, routes, now, reset);
        AppliedRow(g.table, zone, scan, io, k);
        O.SweptKeyed(g.table.rows, io.edits, zone, scan);
        if k in g.table.rows {
          CommitRow(g.table.rows[k], scan, k);
        }
      }
    }
  }

  lemma {:induction false} CycleRow(t: Table, cfg: Config, n: nat, routes: seq<ObservedRoute>, now: int, reset: bool,
                                    io: seq<ZoneIo>, k: Key)
    requires n <= |cfg.zones| == |io| && Keyed(t.rows) && KeyedIo(io) && cfg.autoRegister
    requires forall i :: 0 <= i < |io| ==> k !in io[i].edits
    requires k in t.rows ==> Watched(t.rows[k], k)
    ensures var o, j := Cycle(t, cfg, n, routes, now, reset, io), Done(t, cfg, n, routes, now, reset, io, k.zone);
            && Keyed(o.table.rows) && (k in o.table.rows ==> Watched(o.table.rows[k], k))
            && (!Sighted(k, routes) ==>
                  RowAt(o.table, k) == Commits(RowAt(t, k), ScanOf(cfg, k.zone, routes, now, reset), j))
            && (Sighted(k, routes) ==> Cleared(RowAt(t, k), RowAt(o.table, k), j > 0))
            && j <= Listed(cfg.zones, n, k.zone) && (o.ok ==> j == Listed(cfg.zones, n, k.zone))
  {
    hide ZonePass, Sighted, ScanOf, Commit, Watched, O.EvidenceOf;
    if n > 0 {
      CycleRow(t, cfg, n - 1, routes, now, reset, io, k);
      var before := Cycle(t, cfg, n - 1, routes, now, reset, io);
      if before.ok {
        ZonePassRow(before.table, cfg, cfg.zones[n - 1], routes, now, reset, io[n - 1], k);
      }
    }
  }

  /** A run of commits that all miss the host: one window start, one counter, retired as soon as both are due. */
  lemma {:induction false} AbsentCommits(a: Allocation, scan: O.Scan, j: nat, k: Key)
    requires Watched(a, k) && k.name !in scan.seen && j > 0 && scan.grace > 0
    requires !scan.reset && O.EvidenceOf(a).since.Some? ==> O.EvidenceOf(a).since.value <= scan.now
    ensures var e, after := O.EvidenceOf(a), Commits(Some(a), scan, j);
            var start := if scan.reset || e.since == None then scan.now else e.since.value;
            var count := if scan.reset then 1 else if e.since == None then j else e.count + j;
            && (after == None <==> scan.retire && count >= 3 && scan.now - start >= scan.grace)
            && (after.Some? ==> Watched(after.value, k) && O.EvidenceOf(after.value) == O.Evidence(Some(start), count))
  {
    hide O.Due, O.Noted, O.Stamped, Commit, O.EvidenceOf;
    if j > 1 {
      AbsentCommits(a, scan, j - 1, k);
      var before := Commits(Some(a), scan, j - 1);
      if before.Some? {
        CommitRow(before.value, scan, k);
      } else {
        assert Commit(None, scan) == None by {
          CommitNone(scan);
        }
      }
    } else {
      assert Commits(Some(a), scan, 0) == Some(a);
      CommitRow(a, scan, k);
    }
  }

  lemma CommitNone(scan: O.Scan)
    ensures Commit(None, scan) == None
  {
  }

  lemma {:induction false} CommitsOfNone(scan: O.Scan, j: nat)
    ensures Commits(None, scan, j) == None
  {
    if j > 0 {
      CommitsOfNone(scan, j - 1);
    }
  }

  // ---- histories

  ghost predicate Times(cfg: Config, ts: seq<int>) {
    forall i :: 0 < i < |ts| ==> ts[i - 1] <= ts[i] <= ts[i - 1] + 2 * cfg.Interval()
  }

  /** The last marks of the history are absences at the times `ts`. */
  ghost predicate EndsWith(marks: seq<Mark>, ts: seq<int>) {
    |ts| <= |marks| && forall i :: 0 <= i < |ts| ==> marks[|marks| - |ts| + i] == Absent(ts[i])
  }

  /** A streak reads off consecutive absences at the end of the history, evenly enough spaced. */
  lemma {:induction false} StreakShape(cfg: Config, marks: seq<Mark>)
    ensures EndsWith(marks, Streak(cfg, marks)) && Times(cfg, Streak(cfg, marks))
    ensures Streak(cfg, marks) == [] <==> marks == [] || !marks[|marks| - 1].Absent?
  {
    hide EndsWith, Times, Continues;
    if marks != [] && marks[|marks| - 1].Absent? {
      var n := |marks| - 1;
      StreakShape(cfg, marks[..n]);
      ExtendEnds(cfg, marks[..n], marks[n].at, Streak(cfg, marks[..n]));
      assert marks[..n] + [marks[n]] == marks;
    } else {
      assert EndsWith(marks, []) && Times(cfg, []) by {
        EmptyShape(cfg, marks);
      }
    }
  }

  lemma EmptyShape(cfg: Config, marks: seq<Mark>)
    ensures EndsWith(marks, []) && Times(cfg, [])
  {
  }

  lemma ExtendEnds(cfg: Config, marks: seq<Mark>, t: int, ts: seq<int>)
    requires EndsWith(marks, ts) && Times(cfg, ts)
    ensures EndsWith(marks + [Absent(t)], [t]) && Times(cfg, [t])
    ensures Continues(cfg, marks, t) ==> EndsWith(marks + [Absent(t)], ts + [t]) && Times(cfg, ts + [t])
  {
    if Continues(cfg, marks, t) && ts != [] {
      assert marks[|marks| - |ts| + (|ts| - 1)] == Absent(ts[|ts| - 1]);
    }
  }

  lemma {:induction false} SpanBound(cfg: Config, ts: seq<int>)
    requires ts != [] && Times(cfg, ts)
    ensures 0 <= ts[|ts| - 1] - ts[0] <= 2 * cfg.Interval() * (|ts| - 1)
  {
    if |ts| > 1 {
      var n := |ts| - 1;
      assert Times(cfg, ts[..n]);
      SpanBound(cfg, ts[..n]);
      assert 2 * cfg.Interval() * n == 2 * cfg.Interval() * (n - 1) + 2 * cfg.Interval();
    }
  }

  /** The run of absences a scan at `t` would end: spacing, and the marks it stands on. */
  lemma ExtendShape(cfg: Config, marks: seq<Mark>, t: int)
    ensures var ts := Extend(cfg, marks, t);
            ts != [] && Times(cfg, ts) && EndsWith(marks, ts[..|ts| - 1]) && ts[|ts| - 1] == t
  {
    StreakShape(cfg, marks);
    var ts := Streak(cfg, marks);
    ExtendEnds(cfg, marks, t, ts);
    assert (ts + [t])[..|ts|] == ts;
  }

  /** What the stored evidence means, given the history. */
  ghost predicate Refines(cfg: Config, k: Key, s: Sys, marks: seq<Mark>) {
    && Keyed(s.table.rows) && (k in s.table.rows ==> Watched(s.table.rows[k], k))
    && s.lastSuccess == (if marks == [] || marks[|marks| - 1].Broken? then None else Some(marks[|marks| - 1].at))
    && (s.lastSuccess.Some? && k in s.table.rows ==>
          var ts := Streak(cfg, marks);
          O.EvidenceOf(s.table.rows[k])
          == if ts == [] then O.Evidence(None, 0)
             else O.Evidence(Some(ts[0]), StreakTally(cfg, Listed(cfg.zones, |cfg.zones|, k.zone), marks)))
  }

  /** Watching starts with a fresh process; the row, if present, may carry any stored evidence. */
  ghost predicate Fresh(cfg: Config, k: Key, s: Sys) {
    && s.lastSuccess == None && cfg.autoRegister && Keyed(s.table.rows)
    && (k in s.table.rows ==> Watched(s.table.rows[k], k))
    && Listed(cfg.zones, |cfg.zones|, k.zone) > 0
  }

  lemma StreakTallyEmpty(cfg: Config, m: nat, marks: seq<Mark>)
    ensures Streak(cfg, marks) == [] ==> StreakTally(cfg, m, marks) == 0
  {
    StreakShape(cfg, marks);
  }

  /** The reset rule reads exactly the last mark, and a window that goes on did not start in the future. */
  lemma ResetIffBroken(cfg: Config, k: Key, s: Sys, marks: seq<Mark>, now: int)
    requires Refines(cfg, k, s, marks)
    ensures Reset(cfg, s.lastSuccess, now) <==> !Continues(cfg, marks, now)
    ensures Reset(cfg, s.lastSuccess, now) <==>
              || s.lastSuccess == None || now < s.lastSuccess.value
              || now - s.lastSuccess.value > 2 * if cfg.interval <= 0 then 60 * SECOND else cfg.interval
    ensures Continues(cfg, marks, now) && Streak(cfg, marks) != [] ==> Streak(cfg, marks)[0] <= now
  {
    StreakShape(cfg, marks);
    var ts := Streak(cfg, marks);
    if ts != [] {
      SpanBound(cfg, ts);
      assert marks[|marks| - |ts| + (|ts| - 1)] == Absent(ts[|ts| - 1]);
    }
  }

  /** A scan that misses the host, in one step. */
  lemma AbsentScan(cfg: Config, k: Key, s: Sys, e: Step, marks: seq<Mark>)
    requires Legal(cfg, k, e) && e.Scan? && Refines(cfg, k, s, marks) && cfg.autoRegister && !Sighted(k, e.routes)
    requires k in s.table.rows
    ensures var m := Listed(cfg.zones, |cfg.zones|, k.zone);
            var j := Done(s.table, cfg, |cfg.zones|, e.routes, e.now, Reset(cfg, s.lastSuccess, e.now), e.io, k.zone);
            var ts, after := Extend(cfg, marks, e.now), RowAt(Next(cfg, k, s, e).table, k);
            && (after == None <==>
                  j > 0 && cfg.retireMissing && Tally(cfg, m, marks, e.now, j) >= 3 && e.now - ts[0] >= cfg.Grace())
            && (after.Some? && j > 0 ==>
                  O.EvidenceOf(after.value) == O.Evidence(Some(ts[0]), Tally(cfg, m, marks, e.now, j)))
  {
    hide Cycle, Done, Commit, O.EvidenceOf, Watched, Streak, StreakTally, Reset, Continues, Keyed, Listed;
    var reset := Reset(cfg, s.lastSuccess, e.now);
    var j := Done(s.table, cfg, |cfg.zones|, e.routes, e.now, reset, e.io, k.zone);
    var scan := ScanOf(cfg, k.zone, e.routes, e.now, reset);
    CycleRow(s.table, cfg, |cfg.zones|, e.routes, e.now, reset, e.io, k);
    ResetIffBroken(cfg, k, s, marks, e.now);
    StreakTallyEmpty(cfg, Listed(cfg.zones, |cfg.zones|, k.zone), marks);
    if j > 0 {
      assert !reset ==> s.lastSuccess.Some? by {
        ResetKnown(cfg, s.lastSuccess, e.now);
      }
      AbsentCommits(s.table.rows[k], scan, j, k);
    }
  }

  lemma ResetKnown(cfg: Config, lastSuccess: Option<int>, now: int)
    ensures !Reset(cfg, lastSuccess, now) ==> lastSuccess.Some?
  {
  }

  /** One step keeps the meaning of the stored evidence. */
  lemma RefinesStep(cfg: Config, k: Key, s: Sys, e: Step, marks: seq<Mark>)
    requires Legal(cfg, k, e) && Refines(cfg, k, s, marks) && cfg.autoRegister
    requires Listed(cfg.zones, |cfg.zones|, k.zone) > 0
    ensures Refines(cfg, k, Next(cfg, k, s, e), marks + MarkOf(cfg, k, s, e))
  {
    if e.Scan? {
      ScanKeeps(cfg, k, s, e, marks);
    } else if e.Elsewhere? {
      assert marks + [] == marks;
    }
  }

  lemma ScanKeeps(cfg: Config, k: Key, s: Sys, e: Step, marks: seq<Mark>)
    requires Legal(cfg, k, e) && e.Scan? && Refines(cfg, k, s, marks) && cfg.autoRegister
    requires Listed(cfg.zones, |cfg.zones|, k.zone) > 0
    ensures Refines(cfg, k, Next(cfg, k, s, e), marks + MarkOf(cfg, k, s, e))
  {
    hide Cycle, Done, Commits, O.EvidenceOf, Watched, Keyed, Continues, Listed, Reset, Sighted, ScanOf;
    var reset := Reset(cfg, s.lastSuccess, e.now);
    var all := |cfg.zones|;
    CycleRow(s.table, cfg, all, e.routes, e.now, reset, e.io, k);
    var next := marks + MarkOf(cfg, k, s, e);
    assert next[..|marks|] == marks;
    if !Sighted(k, e.routes) {
      if k in s.table.rows {
        AbsentScan(cfg, k, s, e, marks);
        ExtendShape(cfg, marks, e.now);
      } else {
        CommitsOfNone(ScanOf(cfg, k.zone, e.routes, e.now, reset),
                      Done(s.table, cfg, all, e.routes, e.now, reset, e.io, k.zone));
      }
    }
  }

  lemma {:induction false} RunRefines(cfg: Config, k: Key, s: Sys, h: seq<Step>)
    requires Fresh(cfg, k, s) && LegalRun(cfg, k, h)
    ensures Refines(cfg, k, Run(cfg, k, s, h), Marks(cfg, k, s, h))
  {
    if h != [] {
      var n := |h| - 1;
      RunRefines(cfg, k, s, h[..n]);
      RefinesStep(cfg, k, Run(cfg, k, s, h[..n]), h[n], Marks(cfg, k, s, h[..n]));
    }
  }

  // ---- what the documentation promises

  lemma {:induction false} TallyOnce(cfg: Config, marks: seq<Mark>)
    ensures StreakTally(cfg, 1, marks) == |Streak(cfg, marks)|
  {
    if marks != [] {
      TallyOnce(cfg, marks[..|marks| - 1]);
    }
  }

  /** The row leaves the table in this step. */
  ghost predicate Retired(cfg: Config, k: Key, s: Sys, e: Step)
    requires Legal(cfg, k, e)
  {
    k in s.table.rows && k !in Next(cfg, k, s, e).table.rows
  }

  /** The zone's transaction committed in the cycle, even if the cycle failed later. */
  ghost predicate Committed(cfg: Config, k: Key, s: Sys, e: Step)
    requires Legal(cfg, k, e) && e.Scan?
  {
    Done(s.table, cfg, |cfg.zones|, e.routes, e.now, Reset(cfg, s.lastSuccess, e.now), e.io, k.zone) > 0
  }

  /** After a complete cycle the counter is the length of the current run of absences and the window start is
      its first time, whatever the row carried when the process started. */
  lemma CounterRefinesHistory(cfg: Config, k: Key, s: Sys, h: seq<Step>)
    requires Fresh(cfg, k, s) && LegalRun(cfg, k, h) && Listed(cfg.zones, |cfg.zones|, k.zone) == 1
    requires Run(cfg, k, s, h).lastSuccess.Some? && k in Run(cfg, k, s, h).table.rows
    ensures var e, ts := O.EvidenceOf(Run(cfg, k, s, h).table.rows[k]), Streak(cfg, Marks(cfg, k, s, h));
            e.count == |ts| && e.since == if ts == [] then None else Some(ts[0])
  {
    RunRefines(cfg, k, s, h);
    TallyOnce(cfg, Marks(cfg, k, s, h));
  }

  /** Retirement comes at exactly the first committed scan that makes three absences spanning the grace period. */
  lemma RetiredExactlyWhen(cfg: Config, k: Key, s: Sys, h: seq<Step>, e: Step)
    requires Fresh(cfg, k, s) && LegalRun(cfg, k, h) && Legal(cfg, k, e)
    requires Listed(cfg.zones, |cfg.zones|, k.zone) == 1 && k in Run(cfg, k, s, h).table.rows
    ensures var now := Run(cfg, k, s, h);
            Retired(cfg, k, now, e) <==>
            && cfg.retireMissing && e.Scan? && !Sighted(k, e.routes) && Committed(cfg, k, now, e)
            && var ts := Extend(cfg, Marks(cfg, k, s, h), e.now);
               |ts| >= 3 && e.now - ts[0] >= if cfg.grace <= 0 then 300 * SECOND else cfg.grace
  {
    hide Cycle, Done, Watched, Keyed, Listed, Sighted, Reset;
    RunRefines(cfg, k, s, h);
    var now, marks := Run(cfg, k, s, h), Marks(cfg, k, s, h);
    TallyOnce(cfg, marks);
    if e.Scan? {
      var reset := Reset(cfg, now.lastSuccess, e.now);
      CycleRow(now.table, cfg, |cfg.zones|, e.routes, e.now, reset, e.io, k);
      if !Sighted(k, e.routes) {
        AbsentScan(cfg, k, now, e, marks);
      }
    }
  }

  /** A row that leaves was missed by this scan, and its evidence was ripe. */
  lemma RetiringScan(cfg: Config, k: Key, s: Sys, marks: seq<Mark>, e: Step)
    requires Refines(cfg, k, s, marks) && cfg.autoRegister && Legal(cfg, k, e) && Retired(cfg, k, s, e)
    ensures e.Scan? && !Sighted(k, e.routes) && e.now - Extend(cfg, marks, e.now)[0] >= cfg.Grace()
    ensures var m := Listed(cfg.zones, |cfg.zones|, k.zone); exists j ::
              0 < j <= m && Tally(cfg, m, marks, e.now, j) >= 3
  {
    hide Done, Watched, Keyed, Listed, Sighted, Reset, Extend, Tally;
    if e.Scan? {
      var reset := Reset(cfg, s.lastSuccess, e.now);
      CycleRow(s.table, cfg, |cfg.zones|, e.routes, e.now, reset, e.io, k);
      if !Sighted(k, e.routes) {
        AbsentScan(cfg, k, s, e, marks);
      }
    }
  }

  /** Every retirement rests on consecutive complete scans that all missed the host, with no failure, restart,
      backward clock or gap over two intervals between them, spanning at least the grace period. */
  lemma RetirementEvidence(cfg: Config, k: Key, s: Sys, h: seq<Step>, e: Step)
    requires Fresh(cfg, k, s) && LegalRun(cfg, k, h) && Legal(cfg, k, e)
    requires Retired(cfg, k, Run(cfg, k, s, h), e)
    ensures e.Scan? && !Sighted(k, e.routes)
    ensures var marks := Marks(cfg, k, s, h); var ts := Extend(cfg, marks, e.now);
            && |ts| >= 2 && EndsWith(marks, ts[..|ts| - 1]) && Times(cfg, ts) && ts[|ts| - 1] == e.now
            && cfg.Grace() <= e.now - ts[0] <= 2 * cfg.Interval() * (|ts| - 1)
            && (Listed(cfg.zones, |cfg.zones|, k.zone) == 1 || cfg.Grace() > 2 * cfg.Interval() ==> |ts| >= 3)
            // Unset, the grace period is five minutes and the interval one.
            && (if cfg.grace <= 0 then 300 * SECOND else cfg.grace) <= e.now - ts[0]
               <= 2 * (if cfg.interval <= 0 then 60 * SECOND else cfg.interval) * (|ts| - 1)
  {
    hide Run, Marks, Refines, Listed, Sighted, EndsWith, Times, Retired;
    RunRefines(cfg, k, s, h);
    var marks := Marks(cfg, k, s, h);
    RetiringScan(cfg, k, Run(cfg, k, s, h), marks, e);
    TallyOnce(cfg, marks);
    ExtendShape(cfg, marks, e.now);
    SpanBound(cfg, Extend(cfg, marks, e.now));
  }
}

/** The documentation promises three successful scans before a retirement. The zone list is used as configured,
    so a zone listed twice is scanned twice per cycle: this module says exactly when the promise holds. */
module RepeatedZones {
  import opened Core
  import opened Observer
  import opened Lifecycle
  import O = Observation
  import S = Sightings

  ghost predicate ThreeScans(cfg: Config, k: Key) {
    forall s, h, e ::
             Fresh(cfg, k, s) && LegalRun(cfg, k, h) && Legal(cfg, k, e) && Retired(cfg, k, Run(cfg, k, s, h), e) ==>
      |Extend(cfg, Marks(cfg, k, s, h), e.now)| >= 3
  }

  function HealthyIo(cfg: Config): seq<ZoneIo> {
    seq(|cfg.zones|, i => ZoneIo(1, 0, map[], 5))
  }

  function KnownZones(cfg: Config): map<string, Zone> {
    map z | z in cfg.zones :: Zone(z, false, "")
  }

  function ObservedRow(k: Key): Allocation {
    Allocation(1, k.zone, "", k.name, Fqdn(k.name, k.zone), Platform, Observed, "", "", Active, NO_SPEC, None, map[],
               None, 0)
  }

  lemma SmallTransaction(rows: map<Key, Allocation>, zone: string, scan: O.Scan)
    requires |rows| <= 1
    ensures Overlay(rows, map[]) == rows
    ensures O.Statements(rows, rows, zone, scan, rows.Keys) <= 2
    ensures |O.Swept(rows, rows, zone, scan, rows.Keys)| <= 1
  {
    hide O.Noted, O.Due, O.Stamped, O.Hits, O.Swept, O.Retires, O.Candidate;
    assert Overlay(rows, map[]) == rows;
    O.Conservation(rows, rows, zone, scan, rows.Keys);
    O.SubsetSize(O.Found(rows, zone, rows.Keys), rows.Keys);
    O.SubsetSize(O.Retirees(rows, rows, zone, scan, rows.Keys), rows.Keys);
  }

  lemma HealthyPass(cfg: Config, t: Table, zone: string, now: int, reset: bool)
    requires zone in t.zones && |t.rows| <= 1
    ensures var o := ZonePass(t, cfg, zone, [], now, reset, ZoneIo(1, 0, map[], 5));
            o.ok && o.table.zones == t.zones && |o.table.rows| <= 1
  {
    hide O.Statements, O.Swept, Overlay;
    SmallTransaction(t.rows, zone, ScanOf(cfg, zone, [], now, reset));
  }

  lemma {:induction false} HealthyCycle(cfg: Config, t: Table, n: nat, now: int, reset: bool)
    requires n <= |cfg.zones| && t.zones == KnownZones(cfg) && |t.rows| <= 1
    ensures var o := Cycle(t, cfg, n, [], now, reset, HealthyIo(cfg));
            o.ok && o.table.zones == t.zones && |o.table.rows| <= 1
  {
    hide ZonePass;
    if n > 0 {
      HealthyCycle(cfg, t, n - 1, now, reset);
      var before := Cycle(t, cfg, n - 1, [], now, reset, HealthyIo(cfg));
      HealthyPass(cfg, before.table, cfg.zones[n - 1], now, reset);
    }
  }

  /** Two scans are enough when the zone is listed twice and two intervals cover the grace period. */
  lemma TwoScansRetire(cfg: Config, k: Key) returns (s: Sys, h: seq<Step>, e: Step)
    requires cfg.autoRegister && cfg.retireMissing && Listed(cfg.zones, |cfg.zones|, k.zone) >= 2
    requires cfg.Grace() <= 2 * cfg.Interval()
    ensures Fresh(cfg, k, s) && LegalRun(cfg, k, h) && Legal(cfg, k, e) && Retired(cfg, k, Run(cfg, k, s, h), e)
    ensures |Extend(cfg, Marks(cfg, k, s, h), e.now)| == 2
  {
    hide Cycle, Done, Listed, HealthyIo, ScanOf, O.EvidenceOf;
    s := Sys(Table(KnownZones(cfg), map[k := ObservedRow(k)], 2), None);
    var first := Step.Scan([], 0, HealthyIo(cfg));
    e := Step.Scan([], cfg.Grace(), HealthyIo(cfg));
    HealthyIoLegal(cfg, k);
    h := [first];
    assert h[..0] == [];
    assert Run(cfg, k, s, []) == s && Marks(cfg, k, s, []) == [];
    var reset := Reset(cfg, None, 0);
    HealthyCycle(cfg, s.table, |cfg.zones|, 0, reset);
    CycleRow(s.table, cfg, |cfg.zones|, [], 0, reset, HealthyIo(cfg), k);
    AbsentScan(cfg, k, s, first, []);
    var mid := Next(cfg, k, s, first);
    assert Run(cfg, k, s, h) == mid && Marks(cfg, k, s, h) == [Absent(0)];
    RunRefines(cfg, k, s, h);
    HealthyCycle(cfg, mid.table, |cfg.zones|, e.now, Reset(cfg, mid.lastSuccess, e.now));
    CycleRow(mid.table, cfg, |cfg.zones|, [], e.now, Reset(cfg, mid.lastSuccess, e.now), HealthyIo(cfg), k);
    AbsentScan(cfg, k, mid, e, [Absent(0)]);
    assert [Absent(0)][..0] == [];
  }

  lemma HealthyIoLegal(cfg: Config, k: Key)
    ensures |HealthyIo(cfg)| == |cfg.zones| && KeyedIo(HealthyIo(cfg))
    ensures forall i :: 0 <= i < |HealthyIo(cfg)| ==> k !in HealthyIo(cfg)[i].edits
  {
  }

  /** Every retirement rests on three scans exactly when the zone is listed once or the grace period exceeds
      two polling intervals. */
  lemma ThreeScansIff(cfg: Config, k: Key)
    requires cfg.autoRegister && cfg.retireMissing && Listed(cfg.zones, |cfg.zones|, k.zone) > 0
    ensures ThreeScans(cfg, k) <==> Listed(cfg.zones, |cfg.zones|, k.zone) == 1 || cfg.Grace() > 2 * cfg.Interval()
  {
    if Listed(cfg.zones, |cfg.zones|, k.zone) == 1 || cfg.Grace() > 2 * cfg.Interval() {
      forall s, h, e | Fresh(cfg, k, s) && LegalRun(cfg, k, h) && Legal(cfg, k, e)
             && Retired(cfg, k, Run(cfg, k, s, h), e)
        ensures |Extend(cfg, Marks(cfg, k, s, h), e.now)| >= 3
      {
        RetirementEvidence(cfg, k, s, h, e);
      }
    } else {
      var s, h, e := TwoScansRetire(cfg, k);
    }
  }
}

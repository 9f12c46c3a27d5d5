/** What one successful cluster scan does to one observer-owned row, and to the whole table. */
module Observation {
  import opened Core

  datatype Owner = Owner(ref: string, kind: string, uid: string, service: string)

  /** One complete scan of a zone: the labels present, the clock, and the retirement settings. */
  datatype Scan = Scan(seen: map<string, Owner>, now: int, grace: int, retire: bool, reset: bool)

  datatype Counts = Counts(missing: int, retired: int)

  predicate Selected(a: Allocation, zone: string) {
    a.zone == zone && a.source == Observed && a.kind == Platform && a.state == Active
  }

  /** Rows with routing intent or an expiry are never touched by the observer. */
  predicate Passive(a: Allocation) {
    a.spec.routes == [] && a.expiresAt == None
  }

  predicate Candidate(snap: map<Key, Allocation>, k: Key, zone: string) {
    k in snap && Selected(snap[k], zone) && Passive(snap[k])
  }

  /** The guard on every write: the row found now is the one the snapshot read. */
  predicate Hits(snap: map<Key, Allocation>, found: map<Key, Allocation>, k: Key, zone: string) {
    && Candidate(snap, k, zone)
    && k in found && found[k].id == snap[k].id
    && Selected(found[k], zone) && found[k].updatedAt == snap[k].updatedAt
  }

  /** Absence evidence alone: window start and counter. */
  datatype Evidence = Evidence(since: Option<int>, count: int)

  function EvidenceOf(a: Allocation): Evidence {
    match a.observation
    case None => Evidence(None, 0)
    case Some(o) => Evidence(o.missingSince, o.missing)
  }

  function Missed(e: Evidence, now: int, reset: bool): Evidence {
    if reset || e.since == None || now < e.since.value
      then Evidence(Some(now), 1)
    else Evidence(e.since, e.count + 1)
  }

  predicate Ripe(e: Evidence, now: int, grace: int) {
    grace > 0 && e.count >= 3 && e.since.Some? && now - e.since.value >= grace
  }

  /** The row as the scan leaves it in memory. */
  function Noted(a: Allocation, scan: Scan): Allocation {
    var o := if a.observation.Some? then a.observation.value else Observation(None, None, 0, "");
    if a.name in scan.seen then
      var owner := scan.seen[a.name];
      a.(observation := Some(Observation(Some(scan.now), None, 0, owner.uid)),
         ownerRef := owner.ref, ownerKind := owner.kind,
         labels := a.labels["observed-service" := owner.service])
    else
      var e := Missed(EvidenceOf(a), scan.now, scan.reset);
      a.(observation := Some(o.(missingSince := e.since, missing := e.count)))
  }

  predicate Due(a: Allocation, scan: Scan) {
    && a.name !in scan.seen && scan.retire
    && Ripe(Missed(EvidenceOf(a), scan.now, scan.reset), scan.now, scan.grace)
  }

  /** The columns an unretired row gets; everything else stays as found. */
  function Stamped(row: Allocation, noted: Allocation, now: int): Allocation {
    row.(observation := noted.observation, labels := noted.labels,
         ownerRef := noted.ownerRef, ownerKind := noted.ownerKind, updatedAt := now)
  }

  predicate Retires(snap: map<Key, Allocation>, found: map<Key, Allocation>, k: Key, zone: string, scan: Scan) {
    Hits(snap, found, k, zone) && Due(snap[k], scan)
  }

  /** The table after the rows in `done` were written; `found` is what the writes meet. */
  function Swept(snap: map<Key, Allocation>, found: map<Key, Allocation>, zone: string, scan: Scan, done: set<Key>)
    : map<Key, Allocation>
  {
    map k | k in found && !(k in done && Retires(snap, found, k, zone, scan)) ::
      if k in done && Hits(snap, found, k, zone)
        then Stamped(found[k], Noted(snap[k], scan), scan.now)
      else found[k]
  }

  function Retirees(snap: map<Key, Allocation>, found: map<Key, Allocation>, zone: string, scan: Scan, done: set<Key>)
    : set<Key>
  {
    set k | k in done && Retires(snap, found, k, zone, scan)
  }

  function Waiting(snap: map<Key, Allocation>, zone: string, scan: Scan, done: set<Key>): set<Key> {
    set k | k in done && Waits(snap, k, zone, scan)
  }

  function RetireEvent(a: Allocation, scan: Scan): Event {
    Event(a.id, "kubernetes-observer", RetireMissing, Some(Noted(a, scan)), scan.now)
  }

  /** `log` is the retirement event of each key in `order`, which lists `gone` without repetition. */
  ghost predicate Lists(order: seq<Key>, log: seq<Event>, snap: map<Key, Allocation>, scan: Scan, gone: set<Key>) {
    && |order| == |log|
    && (forall i, j :: 0 <= i < j < |order| ==> order[i] != order[j])
    && (forall k :: k in order <==> k in gone)
    && (forall i :: 0 <= i < |order| ==> order[i] in snap && log[i] == RetireEvent(snap[order[i]], scan))
  }

  /** `log` holds exactly one retirement event for each key in `gone`, with the row's final contents. */
  ghost predicate Audits(log: seq<Event>, snap: map<Key, Allocation>, scan: Scan, gone: set<Key>) {
    exists order: seq<Key> :: Lists(order, log, snap, scan, gone)
  }

  /** Statements one row costs: nothing when skipped, one update or delete, one more for the audit event. */
  function Cost(snap: map<Key, Allocation>, found: map<Key, Allocation>, k: Key, zone: string, scan: Scan): nat {
    if !Candidate(snap, k, zone) then 0
    else if Retires(snap, found, k, zone, scan) then 2 else 1
  }

  function Statements(snap: map<Key, Allocation>, found: map<Key, Allocation>, zone: string, scan: Scan, done: set<Key>)
    : nat {
    |Found(snap, zone, done)| + |Retirees(snap, found, zone, scan, done)|
  }

  /** A transaction in flight: its view of the table, its audit events, the counters, the statements left. */
  datatype Tx = Tx(work: map<Key, Allocation>, log: seq<Event>, missing: nat, retired: nat, left: nat)

  /** The transaction's variables after the rows in `done`. */
  ghost predicate Tallied(tx: Tx, snap: map<Key, Allocation>, found: map<Key, Allocation>, zone: string, scan: Scan,
                          done: set<Key>, calls: nat)
  {
    && tx.left + Statements(snap, found, zone, scan, done) == calls
    && tx.work == Swept(snap, found, zone, scan, done)
    && tx.missing == |Waiting(snap, zone, scan, done)|
    && tx.retired == |Retirees(snap, found, zone, scan, done)|
  }

  ghost predicate Progress(tx: Tx, order: seq<Key>, snap: map<Key, Allocation>, found: map<Key, Allocation>,
                           zone: string, scan: Scan, done: set<Key>, calls: nat)
  {
    && Tallied(tx, snap, found, zone, scan, done, calls)
    && Lists(order, tx.log, snap, scan, Retirees(snap, found, zone, scan, done))
  }

  predicate Waits(snap: map<Key, Allocation>, k: Key, zone: string, scan: Scan) {
    Candidate(snap, k, zone) && k.name !in scan.seen && !Due(snap[k], scan)
  }

  /** One row's effect on the transaction, when the connection survives it. */
  function Written(tx: Tx, snap: map<Key, Allocation>, found: map<Key, Allocation>, k: Key, zone: string, scan: Scan)
    : Tx
    requires k in snap && tx.left >= Cost(snap, found, k, zone, scan)
  {
    var retires := Retires(snap, found, k, zone, scan);
    Tx(if retires then tx.work - {k}
       else if Hits(snap, found, k, zone)
       then tx.work[k := Stamped(found[k], Noted(snap[k], scan), scan.now)] else tx.work,
       if retires then tx.log + [RetireEvent(snap[k], scan)] else tx.log,
       if Waits(snap, k, zone, scan) then tx.missing + 1 else tx.missing,
       if retires then tx.retired + 1 else tx.retired,
       tx.left - Cost(snap, found, k, zone, scan))
  }

  lemma ProgressStart(snap: map<Key, Allocation>, found: map<Key, Allocation>, zone: string, scan: Scan, calls: nat)
    returns (order: seq<Key>)
    ensures Progress(Tx(found, [], 0, 0, calls), order, snap, found, zone, scan, {}, calls)
  {
    order := [];
  }

  lemma ProgressStep(tx: Tx, order: seq<Key>, snap: map<Key, Allocation>, found: map<Key, Allocation>,
                     zone: string, scan: Scan, done: set<Key>, calls: nat, k: Key)
    returns (order': seq<Key>)
    requires Progress(tx, order, snap, found, zone, scan, done, calls)
    requires k in snap && KeyOf(snap[k]) == k && k !in done && tx.left >= Cost(snap, found, k, zone, scan)
    ensures Progress(Written(tx, snap, found, k, zone, scan),
                     order', snap, found, zone, scan, done + {k}, calls)
  {
    hide Tallied, Noted, Stamped, Due, Waits, RetireEvent, Retirees, Lists;
    TalliedStep(tx, snap, found, zone, scan, done, calls, k);
    RetireesStep(snap, found, zone, scan, done, k);
    order' := order;
    if Retires(snap, found, k, zone, scan) {
      ListsStep(order, tx.log, snap, scan, Retirees(snap, found, zone, scan, done), k);
      order' := order + [k];
    } else {
      assert Retirees(snap, found, zone, scan, done + {k}) == Retirees(snap, found, zone, scan, done);
    }
  }

  lemma TalliedStep(tx: Tx, snap: map<Key, Allocation>, found: map<Key, Allocation>, zone: string, scan: Scan,
                    done: set<Key>, calls: nat, k: Key)
    requires Tallied(tx, snap, found, zone, scan, done, calls)
    requires k in snap && k !in done && tx.left >= Cost(snap, found, k, zone, scan)
    ensures Tallied(Written(tx, snap, found, k, zone, scan), snap, found, zone, scan, done + {k}, calls)
  {
    hide Noted, Stamped, Due, Waits, RetireEvent, Swept, Retirees, Waiting, Statements, Cost, Hits, Retires;
    StatementsStep(snap, found, zone, scan, done, k);
    RetireesStep(snap, found, zone, scan, done, k);
    WaitingStep(snap, zone, scan, done, k);
    SweptStep(snap, found, zone, scan, done, k);
  }

  lemma StatementsStep(snap: map<Key, Allocation>, found: map<Key, Allocation>, zone: string, scan: Scan,
                       done: set<Key>, k: Key)
    requires k in snap && k !in done
    ensures Statements(snap, found, zone, scan, done + {k}) == Statements(snap, found, zone, scan, done)
            + Cost(snap, found, k, zone, scan)
  {
    hide Due, Found, Retirees, Candidate;
    FoundStep(snap, zone, done, k);
    RetireesStep(snap, found, zone, scan, done, k);
  }

  lemma SweptKeyed(rows: map<Key, Allocation>, edits: map<Key, Option<Allocation>>, zone: string, scan: Scan)
    requires Keyed(rows) && KeyedEdits(edits)
    ensures Keyed(Overlay(rows, edits)) && Keyed(Swept(rows, Overlay(rows, edits), zone, scan, rows.Keys))
  {
  }

  /** Conservation: every row found is still there or was retired, never both. */
  lemma Conservation(snap: map<Key, Allocation>, found: map<Key, Allocation>, zone: string, scan: Scan, done: set<Key>)
    ensures var rows, gone := Swept(snap, found, zone, scan, done), Retirees(snap, found, zone, scan, done);
            rows.Keys + gone == found.Keys && rows.Keys !! gone && |found| == |rows| + |gone|
  {
    var rows, gone := Swept(snap, found, zone, scan, done), Retirees(snap, found, zone, scan, done);
    assert rows.Keys + gone == found.Keys;
    assert |rows.Keys + gone| == |rows.Keys| + |gone|;
  }

  function Found(snap: map<Key, Allocation>, zone: string, done: set<Key>): set<Key> {
    set k | k in done && Candidate(snap, k, zone)
  }

  lemma SweptStep(snap: map<Key, Allocation>, found: map<Key, Allocation>, zone: string, scan: Scan, done: set<Key>,
                  k: Key)
    requires k !in done
    ensures Swept(snap, found, zone, scan, done + {k})
            == var rows := Swept(snap, found, zone, scan, done);
               if Retires(snap, found, k, zone, scan) then rows - {k}
               else if Hits(snap, found, k, zone) then rows[k := Stamped(found[k], Noted(snap[k], scan), scan.now)]
               else rows
  {
    hide Noted, Stamped, Due;
  }

  lemma ListsStep(order: seq<Key>, log: seq<Event>, snap: map<Key, Allocation>, scan: Scan, gone: set<Key>, k: Key)
    requires Lists(order, log, snap, scan, gone) && k in snap && k !in gone
    ensures Lists(order + [k], log + [RetireEvent(snap[k], scan)], snap, scan, gone + {k})
  {
    var next := order + [k];
    assert forall q :: q in next <==> q in order || q == k;
  }

  lemma FoundStep(snap: map<Key, Allocation>, zone: string, done: set<Key>, k: Key)
    requires k !in done
    ensures Found(snap, zone, done + {k}) == Found(snap, zone, done) + if Candidate(snap, k, zone) then {k} else {}
    ensures k !in Found(snap, zone, done)
  {
  }

  lemma RetireesStep(snap: map<Key, Allocation>, found: map<Key, Allocation>, zone: string, scan: Scan, done: set<Key>,
                     k: Key)
    requires k !in done
    ensures Retirees(snap, found, zone, scan, done + {k})
            == Retirees(snap, found, zone, scan, done) + if Retires(snap, found, k, zone, scan) then {k} else {}
    ensures k !in Retirees(snap, found, zone, scan, done)
  {
  }

  lemma WaitingStep(snap: map<Key, Allocation>, zone: string, scan: Scan, done: set<Key>, k: Key)
    requires k !in done
    ensures Waiting(snap, zone, scan, done + {k})
            == Waiting(snap, zone, scan, done)
               + if Waits(snap, k, zone, scan) then {k} else {}
    ensures k !in Waiting(snap, zone, scan, done)
  {
  }

  lemma Monotone(snap: map<Key, Allocation>, found: map<Key, Allocation>, zone: string, scan: Scan, done: set<Key>,
                 k: Key)
    requires done <= snap.Keys && k in snap && k !in done
    ensures Statements(snap, found, zone, scan, done) + Cost(snap, found, k, zone, scan)
            <= Statements(snap, found, zone, scan, snap.Keys)
  {
    FoundStep(snap, zone, done, k);
    RetireesStep(snap, found, zone, scan, done, k);
    SubsetSize(Found(snap, zone, done + {k}), Found(snap, zone, snap.Keys));
    SubsetSize(Retirees(snap, found, zone, scan, done + {k}), Retirees(snap, found, zone, scan, snap.Keys));
  }

  lemma SubsetSize<T>(small: set<T>, big: set<T>)
    requires small <= big
    ensures |small| <= |big|
  {
    assert big == small + (big - small);
  }

  // ---- one row, by its columns

  /** A scan does not touch a row, and neither retires nor reports it, if what the snapshot read under its key is not an
      active, observed platform row of the zone without routes and expiry, or is not what the write meets. Only in the
      second case can it be counted as missing. */
  lemma SkippedRow(snap: map<Key, Allocation>, found: map<Key, Allocation>, zone: string, scan: Scan, k: Key)
    requires || k !in snap
             || snap[k].zone != zone || snap[k].source != Observed || snap[k].kind != Platform
                || snap[k].state != Active
             || snap[k].spec.routes != [] || snap[k].expiresAt.Some?
             || k !in found
             || found[k].id != snap[k].id || found[k].updatedAt != snap[k].updatedAt
             || found[k].zone != zone || found[k].source != Observed || found[k].kind != Platform
             || found[k].state != Active
    ensures k in Swept(snap, found, zone, scan, snap.Keys) <==> k in found
    ensures k in found ==> Swept(snap, found, zone, scan, snap.Keys)[k] == found[k]
    ensures k !in Retirees(snap, found, zone, scan, snap.Keys)
    ensures || k !in snap
            || snap[k].zone != zone || snap[k].source != Observed || snap[k].kind != Platform || snap[k].state != Active
            || snap[k].spec.routes != [] || snap[k].expiresAt.Some? ==>
              k !in Waiting(snap, zone, scan, snap.Keys)
  {
    hide Due, Noted;
  }

  /** When the window of a row's absences started, and how many scans it spans, once one more scan has missed it. */
  function WindowStart(a: Allocation, scan: Scan): int {
    if scan.reset || a.observation == None || a.observation.value.missingSince == None
       || scan.now < a.observation.value.missingSince.value
    then scan.now else a.observation.value.missingSince.value
  }

  function Absences(a: Allocation, scan: Scan): int {
    if scan.reset || a.observation == None || a.observation.value.missingSince == None
       || scan.now < a.observation.value.missingSince.value
    then 1 else a.observation.value.missing + 1
  }

  /** Every other row is written: seen, it names its owner and holds no evidence; missed three times over the grace
      period, it is retired if the scan retires; missed otherwise, it holds the evidence and is counted as missing. */
  lemma WrittenRow(snap: map<Key, Allocation>, found: map<Key, Allocation>, zone: string, scan: Scan, k: Key)
    requires k in snap && k in found && KeyOf(snap[k]) == k
    requires snap[k].zone == zone && snap[k].source == Observed && snap[k].kind == Platform && snap[k].state == Active
    requires snap[k].spec.routes == [] && snap[k].expiresAt == None
    requires found[k].id == snap[k].id && found[k].updatedAt == snap[k].updatedAt && found[k].zone == zone
    requires found[k].source == Observed && found[k].kind == Platform && found[k].state == Active
    ensures var rows := Swept(snap, found, zone, scan, snap.Keys);
            var gone, missing := Retirees(snap, found, zone, scan, snap.Keys), Waiting(snap, zone, scan, snap.Keys);
            var since, count := WindowStart(snap[k], scan), Absences(snap[k], scan);
            if k.name in scan.seen then
              && k !in gone && k !in missing && k in rows
              && var owner := scan.seen[k.name];
                 rows[k] == found[k].(observation := Some(Observation(Some(scan.now), None, 0, owner.uid)),
                                      ownerRef := owner.ref, ownerKind := owner.kind, updatedAt := scan.now,
                                      labels := snap[k].labels["observed-service" := owner.service])
            else if scan.retire && scan.grace > 0 && count >= 3 && scan.now - since >= scan.grace then
              k in gone && k !in missing && k !in rows
            else
              && k !in gone && k in missing && k in rows
              && rows[k] == found[k].(observation := Some(Evident(snap[k], since, count)), labels := snap[k].labels,
                                      ownerRef := snap[k].ownerRef, ownerKind := snap[k].ownerKind,
                                      updatedAt := scan.now)
  {
  }

  /** The audit holds one event for each retired row, by its id and with its contents as the scan leaves them, and none
      for any other. */
  lemma AuditedOnce(log: seq<Event>, snap: map<Key, Allocation>, nextId: int, found: map<Key, Allocation>, zone: string,
                    scan: Scan, k: Key)
    requires ValidRows(snap, nextId) && k in snap
    requires Audits(log, snap, scan, Retirees(snap, found, zone, scan, snap.Keys))
    ensures k !in Retirees(snap, found, zone, scan, snap.Keys) ==> forall e <- log :: e.subject != snap[k].id
    ensures k in Retirees(snap, found, zone, scan, snap.Keys) ==>
              var row := snap[k].(observation := Some(Evident(snap[k], WindowStart(snap[k], scan),
                                                              Absences(snap[k], scan))));
              && (forall e <- log :: e.subject == snap[k].id ==>
                    e == Event(snap[k].id, "kubernetes-observer", RetireMissing, Some(row), scan.now))
              && exists i :: 0 <= i < |log| && log[i].subject == snap[k].id
                             && forall j :: 0 <= j < |log| && log[j].subject == snap[k].id ==> j == i
  {
    hide Noted, RetireEvent, Missed, Ripe, Hits, WindowStart, Absences, Evident;
    var gone := Retirees(snap, found, zone, scan, snap.Keys);
    var order: seq<Key> :| Lists(order, log, snap, scan, gone);
    forall i | 0 <= i < |log|
      ensures log[i].subject == snap[k].id <==> order[i] == k
    {
      EventOf(snap[order[i]], scan);
    }
    if k in gone {
      MissedEvent(snap[k], scan);
      var i :| 0 <= i < |order| && order[i] == k;
    }
  }

  lemma EventOf(a: Allocation, scan: Scan)
    ensures RetireEvent(a, scan).subject == a.id
  {
    hide Noted;
  }

  lemma MissedEvent(a: Allocation, scan: Scan)
    requires a.name !in scan.seen
    ensures RetireEvent(a, scan) == Event(a.id, "kubernetes-observer", RetireMissing,
                                          Some(a.(observation := Some(Evident(a, WindowStart(a, scan),
                                                                              Absences(a, scan))))),
                                          scan.now)
  {
  }

  function Evident(a: Allocation, since: int, count: int): Observation {
    if a.observation == None then Observation(None, Some(since), count, "")
    else Observation(a.observation.value.lastSeenAt, Some(since), count, a.observation.value.ownerUid)
  }
}

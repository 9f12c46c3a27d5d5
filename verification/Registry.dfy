/** The SQL store: its tables as fields, each statement or transaction as one method. */
module Registry {
  import opened Core
  import O = Observation

  /** The rows after an update by id: label, kind and source are not written. */
  function Patched(rows: map<Key, Allocation>, a: Allocation, wall: int): map<Key, Allocation> {
    map k | k in rows ::
      if rows[k].id != a.id then rows[k]
      else rows[k].(state := a.state, spec := a.spec, observation := a.observation, labels := a.labels,
                    expiresAt := a.expiresAt, ownerRef := a.ownerRef, ownerKind := a.ownerKind,
                    project := a.project, updatedAt := wall)
  }

  function Without(rows: map<Key, Allocation>, id: int): map<Key, Allocation> {
    map k | k in rows && rows[k].id != id :: rows[k]
  }

  function Moved(a: Allocation, name: string, fqdn: string, wall: int): Allocation {
    a.(name := name, fqdn := fqdn, updatedAt := wall)
  }

  predicate Expired(a: Allocation, now: int) {
    a.state == Pending && a.expiresAt.Some? && a.expiresAt.value < now
  }

  function Unexpired(rows: map<Key, Allocation>, now: int): map<Key, Allocation> {
    map k | k in rows && !Expired(rows[k], now) :: rows[k]
  }

  /** A row written back after a read changes in place, and no other row does. */
  lemma PatchOne(rows: map<Key, Allocation>, nextId: int, k: Key, a: Allocation, wall: int)
    requires ValidRows(rows, nextId) && k in rows && a.id == rows[k].id
    requires a == rows[k].(state := a.state, spec := a.spec, observation := a.observation, labels := a.labels,
                           expiresAt := a.expiresAt, ownerRef := a.ownerRef, ownerKind := a.ownerKind, project :=
                             a.project)
    ensures Patched(rows, a, wall) == rows[k := a.(updatedAt := wall)]
    ensures ValidRows(Patched(rows, a, wall), nextId)
  {
    var after := Patched(rows, a, wall);
    assert forall l :: l in rows && l != k ==> after[l] == rows[l];
    assert after == rows[k := a.(updatedAt := wall)];
  }

  /** Deleting by id deletes one row. */
  lemma DeleteOne(rows: map<Key, Allocation>, nextId: int, k: Key)
    requires ValidRows(rows, nextId) && k in rows
    ensures Without(rows, rows[k].id) == rows - {k} && ValidRows(rows - {k}, nextId)
  {
    assert forall l :: l in rows && l != k ==> rows[l].id != rows[k].id;
  }

  /** The same, while rows go one by one. */
  lemma DeleteAmong(rows: map<Key, Allocation>, nextId: int, now: map<Key, Allocation>, gone: set<Key>, row: Allocation)
    requires ValidRows(now, nextId) && now == rows - gone && KeyOf(row) !in gone && KeyOf(row) in rows
             && rows[KeyOf(row)] == row
    ensures Without(now, row.id) == now - {KeyOf(row)} == rows - (gone + {KeyOf(row)})
    ensures ValidRows(now - {KeyOf(row)}, nextId) && KeyOf(row) in now && now[KeyOf(row)] == row
  {
    DeleteOne(now, nextId, KeyOf(row));
  }

  class Store {
    var zones: map<string, Zone>
    var rows: map<Key, Allocation>
    var nextId: int
    var events: seq<Event>

    constructor ()
      ensures rows == map[] && zones == map[] && events == []
    {
      zones, rows, nextId, events := map[], map[], 1, [];
    }

    function Tables(): Table
      reads this
    {
      Table(zones, rows, nextId)
    }

    /** The rows a query lists, each once; callers may not rely on the order. */
    method ListAllocations(f: Filter) returns (r: seq<Allocation>)
      requires Keyed(rows)
      ensures forall a :: a in r <==> KeyOf(a) in rows && rows[KeyOf(a)] == a && Lists(f, a)
      ensures forall i, j :: 0 <= i < j < |r| ==> r[i] != r[j]
    {
      r := [];
      var todo := rows.Keys;
      while todo != {}
        invariant todo <= rows.Keys
        invariant forall a :: a in r <==> KeyOf(a) in rows && KeyOf(a) !in todo && rows[KeyOf(a)] == a && Lists(f, a)
        invariant forall i, j :: 0 <= i < j < |r| ==> r[i] != r[j]
        decreases todo
      {
        var k: Key :| k in todo;
        todo := todo - {k};
        if Lists(f, rows[k]) {
          r := r + [rows[k]];
        }
      }
    }

    /** One guarded insert: the unique key decides, and a taken label changes nothing. */
    method CreateAllocation(a: Allocation, wall: int) returns (r: Option<Allocation>)
      modifies this`rows, this`nextId, this`events
      ensures if KeyOf(a) in old(rows)
              then r == None && Tables() == old(Tables()) && events == old(events)
              else
                && r == Some(a.(id := old(nextId), updatedAt := wall))
                && Tables() == Insert(old(Tables()), a.(updatedAt := wall))
                && events == old(events) + [Event(old(nextId), a.ownerRef, Create, None, wall)]
    {
      if KeyOf(a) in rows {
        return None;
      }
      var row := a.(id := nextId, updatedAt := wall);
      rows, nextId := rows[KeyOf(a) := row], nextId + 1;
      events := events + [Event(row.id, a.ownerRef, Create, None, wall)];
      return Some(row);
    }

    /** A zone is written once. */
    method EnsureZone(z: Zone)
      modifies this`zones
      ensures zones == if z.name in old(zones) then old(zones) else old(zones)[z.name := z]
    {
      if z.name !in zones {
        zones := zones[z.name := z];
      }
    }

    method GetZone(name: string) returns (r: Option<Zone>)
      ensures r == if name in zones then Some(zones[name]) else None
    {
      r := if name in zones then Some(zones[name]) else None;
    }

    method GetAllocationByLabel(zone: string, name: string) returns (r: Option<Allocation>)
      ensures r == if Key(zone, name) in rows then Some(rows[Key(zone, name)]) else None
    {
      r := if Key(zone, name) in rows then Some(rows[Key(zone, name)]) else None;
    }

    method GetAllocation(id: int) returns (r: Option<Allocation>)
      requires Keyed(rows)
      ensures r == None <==> forall k <- rows :: rows[k].id != id
      ensures r.Some? ==> KeyOf(r.value) in rows && rows[KeyOf(r.value)] == r.value && r.value.id == id
    {
      if k: Key :| k in rows && rows[k].id == id {
        return Some(rows[k]);
      }
      return None;
    }

    /** Overwrites the mutable columns of the row with this id, if it is still there. */
    method UpdateAllocation(a: Allocation, wall: int)
      modifies this`rows
      ensures rows == Patched(old(rows), a, wall)
    {
      rows := Patched(rows, a, wall);
    }

    method DeleteAllocation(id: int)
      modifies this`rows
      ensures rows == Without(old(rows), id)
    {
      rows := Without(rows, id);
    }

    /** The unique key that guards claims guards renames: a taken label changes nothing, and neither does an
        unknown id. */
    method RenameAllocation(id: int, name: string, fqdn: string, wall: int) returns (ok: bool)
      requires ValidRows(rows, nextId)
      modifies this`rows, this`events
      ensures (forall k <- old(rows) :: old(rows)[k].id != id) ==> !ok && rows == old(rows) && events == old(events)
      ensures forall k :: k in old(rows) && old(rows)[k].id == id ==>
                (ok <==> Key(k.zone, name) !in old(rows) || name == k.name)
                && rows == (if ok then (old(rows) - {k})[Key(k.zone, name) := Moved(old(rows)[k], name, fqdn, wall)]
                            else old(rows))
                && events == (if ok then old(events) + [Event(id, old(rows)[k].ownerRef, Rename, None, wall)]
                              else old(events))
    {
      ok := false;
      if k: Key :| k in rows && rows[k].id == id {
        var row, to := rows[k], Key(k.zone, name);
        ok := to !in rows || to == k;
        if ok {
          rows := (rows - {k})[to := Moved(row, name, fqdn, wall)];
          events := events + [Event(id, row.ownerRef, Rename, None, wall)];
        }
      }
    }

    /** Deletes the expired holds. */
    method ReapExpiredHolds(now: int) returns (n: nat)
      modifies this`rows
      ensures forall k :: k in rows <==>
                            && k in old(rows)
                            && !(old(rows)[k].state == Pending && old(rows)[k].expiresAt.Some?
                                 && old(rows)[k].expiresAt.value < now)
      ensures (forall k <- rows :: rows[k] == old(rows)[k]) && n == |old(rows)| - |rows|
    {
      ghost var before := rows;
      var kept := Unexpired(rows, now);
      assert kept.Keys <= rows.Keys;
      O.SubsetSize(kept.Keys, rows.Keys);
      n := |rows| - |kept|;
      rows := kept;
    }

    /** The scan's effect on one row in memory, and whether the row is to be retired. */
    method NoteScan(row: Allocation, scan: O.Scan) returns (a: Allocation, due: bool)
      ensures a == O.Noted(row, scan) && due == O.Due(row, scan)
    {
      a, due := row, false;
      var observation := if row.observation.Some? then row.observation.value else Observation(None, None, 0, "");
      if a.name in scan.seen {
        var owner := scan.seen[a.name];
        observation := Observation(Some(scan.now), None, 0, owner.uid);
        a := a.(ownerRef := owner.ref, ownerKind := owner.kind,
                labels := a.labels["observed-service" := owner.service]);
      } else {
        if scan.reset || observation.missingSince == None || scan.now < observation.missingSince.value {
          observation := observation.(missingSince := Some(scan.now), missing := 0);
        }
        observation := observation.(missing := observation.missing + 1);
        due := scan.retire && scan.grace > 0 && observation.missing >= 3
               && scan.now - observation.missingSince.value >= scan.grace;
      }
      a := a.(observation := Some(observation));
    }

    /** The loop body for one row of the snapshot; false when the connection fails under it. */
    method WriteRow(tx: O.Tx, snap: map<Key, Allocation>, found: map<Key, Allocation>, k: Key, zone: string,
                    scan: O.Scan)
      returns (ok: bool, tx': O.Tx)
      requires k in snap && KeyOf(snap[k]) == k
      ensures ok <==> tx.left >= O.Cost(snap, found, k, zone, scan)
      ensures ok ==> tx' == O.Written(tx, snap, found, k, zone, scan)
    {
      ok, tx' := true, tx;
      var a := snap[k];
      if !O.Selected(a, zone) || a.spec.routes != [] || a.expiresAt != None {
        return;
      }
      var due;
      a, due := NoteScan(a, scan);
      if tx.left == 0 {
        return false, tx;
      }
      tx' := tx'.(left := tx'.left - 1);
      var hit := k in found && found[k].id == snap[k].id && O.Selected(found[k], zone)
                 && found[k].updatedAt == snap[k].updatedAt;
      if due {
        if hit {
          if tx'.left == 0 {
            return false, tx;
          }
          var event := Event(a.id, "kubernetes-observer", RetireMissing, Some(a), scan.now);
          tx' := O.Tx(tx.work - {k}, tx.log + [event], tx.missing, tx.retired + 1, tx'.left - 1);
        }
        return;
      }
      if a.name !in scan.seen {
        tx' := tx'.(missing := tx.missing + 1);
      }
      if hit {
        tx' := tx'.(work := tx.work[k := O.Stamped(found[k], a, scan.now)]);
      }
    }

    /** The row loop of the transaction. */
    method WriteRows(snap: map<Key, Allocation>, found: map<Key, Allocation>, zone: string, scan: O.Scan, calls: nat)
      returns (r: Option<O.Tx>)
      requires Keyed(snap)
      ensures r.Some? <==> calls >= O.Statements(snap, found, zone, scan, snap.Keys)
      ensures r.Some? ==> exists order :: O.Progress(r.value, order, snap, found, zone, scan, snap.Keys, calls)
    {
      hide O.Swept, O.Lists, O.Waiting, O.Written;
      var tx := O.Tx(found, [], 0, 0, calls);
      var done: set<Key> := {};
      ghost var order := O.ProgressStart(snap, found, zone, scan, calls);
      while snap.Keys - done != {}
        invariant done <= snap.Keys
        invariant O.Progress(tx, order, snap, found, zone, scan, done, calls)
        decreases snap.Keys - done
      {
        var k: Key :| k in snap.Keys - done;
        O.Monotone(snap, found, zone, scan, done, k);
        var ok, tx' := WriteRow(tx, snap, found, k, zone, scan);
        if !ok {
          return None;
        }
        order := O.ProgressStep(tx, order, snap, found, zone, scan, done, calls, k);
        tx, done := tx', done + {k};
      }
      assert done == snap.Keys;
      return Some(tx);
    }

    /** Applies one complete scan of a zone in a transaction. `edits` are the changes other transactions
        commit between the snapshot and the writes; the connection survives `calls` statements. */
    method ReconcileObservations(zone: string, scan: O.Scan, edits: map<Key, Option<Allocation>>, calls: nat)
      returns (r: Option<O.Counts>)
      requires Keyed(rows)
      modifies this`rows, this`events
      ensures var snap, found, all := old(rows), Overlay(old(rows), edits), old(rows).Keys;
              var gone := O.Retirees(snap, found, zone, scan, all);
              if calls < 3 + O.Statements(snap, found, zone, scan, all)
                then r == None && rows == found && events == old(events)
              else
                && r == Some(O.Counts(|O.Waiting(snap, zone, scan, all)|, |gone|))
                && rows == O.Swept(snap, found, zone, scan, all)
                && |events| >= |old(events)| && events[..|old(events)|] == old(events)
                && O.Audits(events[|old(events)|..], snap, scan, gone)
    {
      var snap := rows;
      rows := Overlay(rows, edits);
      if calls < 3 {
        return None;
      }
      var tx := WriteRows(snap, rows, zone, scan, calls - 3);
      if tx == None {
        return None;
      }
      rows, events := tx.value.work, events + tx.value.log;
      assert events[|old(events)|..] == tx.value.log;
      return Some(O.Counts(tx.value.missing, tx.value.retired));
    }
  }
}

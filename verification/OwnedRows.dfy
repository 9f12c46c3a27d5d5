/** A controller that owns the rows of one owner kind: it claims or updates what is wanted, and releases its own
    rows that are wanted no more. The container-label watcher and the custom-resource ingester share it. */
module OwnedRows {
  import opened Core
  import A = Allocations
  import R = Registry

  /** One wanted name. `settled` says whether a row of ours needs no update. */
  datatype Item = Item(zone: string, name: string, kind: Kind, ownerRef: string, spec: Spec,
                       settled: Allocation -> bool)

  function RequestFor(i: Item, ownerKind: string): A.Request {
    A.Request(i.zone, i.name, Some(i.kind), Some(FromManifest), "", i.ownerRef, ownerKind, i.spec, map[], false, 0)
  }

  // ---- what a pass does

  /** Somebody else's row is left alone; ours is updated unless it is settled; a free name is claimed. */
  function Synced(t: Table, c: A.Config, ownerKind: string, i: Item, wall: int): Table
    requires A.Configured(c)
  {
    var k, req := Key(i.zone, i.name), RequestFor(i, ownerKind);
    if k in t.rows then
      if t.rows[k].ownerKind != ownerKind || i.settled(t.rows[k]) then t
      else t.(rows := t.rows[k := t.rows[k].(spec := i.spec, ownerRef := i.ownerRef, updatedAt := wall)])
    else if i.zone == "" || i.name == "" || i.zone !in t.zones
            || A.Refusal(t, c, i.zone, i.name, Some(i.kind), FromManifest).Some? then t
    else Insert(t, A.Requested(req, t.zones[i.zone], A.N.Normal(i.name, i.kind, c.unicode).name, c,
                               wall).(updatedAt := wall))
  }

  function SyncedAll(t: Table, c: A.Config, ownerKind: string, items: seq<Item>, wall: int): Table
    requires A.Configured(c)
  {
    if items == [] then t
    else Synced(SyncedAll(t, c, ownerKind, items[..|items| - 1], wall), c, ownerKind, items[|items| - 1], wall)
  }

  predicate Unwanted(a: Allocation, ownerKind: string, desired: Allocation -> bool) {
    a.ownerKind == ownerKind && a.state != Released && !desired(a)
  }

  /** What the release loop leaves. Released rows are not listed. */
  function Kept(rows: map<Key, Allocation>, ownerKind: string, desired: Allocation -> bool): map<Key, Allocation> {
    map k | k in rows && !Unwanted(rows[k], ownerKind, desired) :: rows[k]
  }

  /** A row that does what an item asks. */
  predicate Fulfils(a: Allocation, i: Item) {
    i.settled(a) || (a.spec == i.spec && a.ownerRef == i.ownerRef)
  }

  /** The name is held by another owner kind, or is ours and does what the item asks. */
  predicate Served(t: Table, ownerKind: string, i: Item) {
    Key(i.zone, i.name) in t.rows
    && (t.rows[Key(i.zone, i.name)].ownerKind == ownerKind ==> Fulfils(t.rows[Key(i.zone, i.name)], i))
  }

  /** An item that can be claimed: a registered zone, and a label in normal form. */
  predicate Claimable(t: Table, c: A.Config, i: Item) {
    i.zone != "" && i.zone in t.zones && A.N.Normal(i.name, i.kind, c.unicode) == A.N.Ok(i.name)
  }

  function NameOf(i: Item): Key {
    Key(i.zone, i.name)
  }

  /** Some item of the same name, from the j-th on, is served. */
  ghost predicate ServedFrom(t: Table, ownerKind: string, items: seq<Item>, j: nat)
    requires j < |items|
  {
    exists l :: j <= l < |items| && NameOf(items[l]) == NameOf(items[j]) && Served(t, ownerKind, items[l])
  }

  /** Every name that can be claimed is held once all items have been dealt with, by another owner kind, or by a
      row of ours that does what the last item of that name asks: no wanted name is skipped. */
  lemma {:induction false} AllServed(t: Table, c: A.Config, ownerKind: string, items: seq<Item>, wall: int)
    requires A.Configured(c) && forall j :: 0 <= j < |items| ==> Claimable(t, c, items[j])
    ensures var u := SyncedAll(t, c, ownerKind, items, wall);
            u.zones == t.zones && forall j :: 0 <= j < |items| ==> ServedFrom(u, ownerKind, items, j)
    ensures forall j :: 0 <= j < |items| && (forall l :: j < l < |items| ==> NameOf(items[l]) != NameOf(items[j])) ==>
              Served(SyncedAll(t, c, ownerKind, items, wall), ownerKind, items[j])
  {
    hide A.N.Normal, Synced, Served, NameOf, ServedFrom, Claimable;
    if items != [] {
      var front, i := items[..|items| - 1], items[|items| - 1];
      assert items == front + [i];
      AllServed(t, c, ownerKind, front, wall);
      var before := SyncedAll(t, c, ownerKind, front, wall);
      assert Claimable(before, c, i) by {
        SameZones(t, before, c, i);
      }
      SyncedServes(before, c, ownerKind, i, wall);
      forall j | 0 <= j < |items|
        ensures ServedFrom(Synced(before, c, ownerKind, i, wall), ownerKind, items, j)
      {
        ServedSnoc(before, Synced(before, c, ownerKind, i, wall), ownerKind, front, i, j);
      }
    }
    forall j | 0 <= j < |items| && (forall l :: j < l < |items| ==> NameOf(items[l]) != NameOf(items[j]))
      ensures Served(SyncedAll(t, c, ownerKind, items, wall), ownerKind, items[j])
    {
      LastServed(SyncedAll(t, c, ownerKind, items, wall), ownerKind, items, j);
    }
  }

  lemma SameZones(t: Table, u: Table, c: A.Config, i: Item)
    requires t.zones == u.zones && Claimable(t, c, i)
    ensures Claimable(u, c, i)
  {
    hide A.N.Normal;
  }

  lemma LastServed(u: Table, ownerKind: string, items: seq<Item>, j: nat)
    requires j < |items| && ServedFrom(u, ownerKind, items, j)
    requires forall l :: j < l < |items| ==> NameOf(items[l]) != NameOf(items[j])
    ensures Served(u, ownerKind, items[j])
  {
    hide Served;
  }

  lemma ServedSnoc(before: Table, after: Table, ownerKind: string, front: seq<Item>, i: Item, j: nat)
    requires j <= |front| && Served(after, ownerKind, i)
    requires j < |front| ==> ServedFrom(before, ownerKind, front, j)
    requires forall k :: k in before.rows && k != NameOf(i) ==> k in after.rows && after.rows[k] == before.rows[k]
    ensures ServedFrom(after, ownerKind, front + [i], j)
  {
    hide Served;
    var items := front + [i];
    assert items[|front|] == i;
    if NameOf(items[j]) != NameOf(i) {
      assert front[j] == items[j];
      var l :| j <= l < |front| && NameOf(front[l]) == NameOf(front[j]) && Served(before, ownerKind, front[l]);
      assert front[l] == items[l];
      StaysServed(before, after, ownerKind, items[l], NameOf(i));
    }
  }

  lemma StaysServed(before: Table, after: Table, ownerKind: string, i: Item, k: Key)
    requires Served(before, ownerKind, i) && NameOf(i) != k
    requires forall l :: l in before.rows && l != k ==> l in after.rows && after.rows[l] == before.rows[l]
    ensures Served(after, ownerKind, i)
  {
  }

  lemma SyncedServes(t: Table, c: A.Config, ownerKind: string, i: Item, wall: int)
    requires A.Configured(c) && Claimable(t, c, i)
    ensures var u := Synced(t, c, ownerKind, i, wall);
            && u.zones == t.zones && Served(u, ownerKind, i)
            && forall k :: k in t.rows && k != NameOf(i) ==> k in u.rows && u.rows[k] == t.rows[k]
  {
    hide A.N.Normal;
    assert i.name != "" by {
      EmptyNotNormal(i.name, i.kind, c.unicode);
    }
  }

  lemma EmptyNotNormal(name: string, kind: Kind, u: A.N.Unicode)
    requires A.N.Normal(name, kind, u).Ok?
    ensures name != ""
  {
  }

  /** What one item does, by its columns: a row of another owner kind, or one that is settled, stays; ours
      otherwise gets the item's spec and owner; and a label without a row gets an active row with what the item
      says. */
  lemma SyncedMeans(t: Table, c: A.Config, ownerKind: string, i: Item, wall: int)
    requires A.Configured(c) && Claimable(t, c, i)
    ensures var k, u := Key(i.zone, i.name), Synced(t, c, ownerKind, i, wall);
            if k !in t.rows then
              u == Table(t.zones,
                         t.rows[k := Allocation(t.nextId, i.zone, "", i.name, Fqdn(i.name, i.zone), i.kind,
                                                FromManifest,
                                                i.ownerRef, ownerKind, Active, i.spec, None, map[], None, wall)],
                         t.nextId + 1)
            else if t.rows[k].ownerKind != ownerKind || i.settled(t.rows[k]) then u == t
            else u == t.(rows := t.rows[k := t.rows[k].(spec := i.spec, ownerRef := i.ownerRef, updatedAt := wall)])
  {
    hide A.N.Normal;
    EmptyNotNormal(i.name, i.kind, c.unicode);
  }

  // ---- when a pass changes nothing

  /** The table after a whole pass. */
  function Passed(t: Table, c: A.Config, ownerKind: string, items: seq<Item>, desired: Allocation -> bool, wall: int)
    : Table
    requires A.Configured(c)
  {
    var u := SyncedAll(t, c, ownerKind, items, wall);
    u.(rows := Kept(u.rows, ownerKind, desired))
  }

  /** There is nothing to do for the item: its row is somebody else's or settled, or its claim is refused. */
  predicate Idle(t: Table, c: A.Config, ownerKind: string, i: Item)
    requires A.Configured(c)
  {
    if NameOf(i) in t.rows then
      t.rows[NameOf(i)].ownerKind == ownerKind ==> i.settled(t.rows[NameOf(i)])
    else
      i.zone == "" || i.name == "" || i.zone !in t.zones
      || A.Refusal(t, c, i.zone, i.name, Some(i.kind), FromManifest).Some?
  }

  /** No row was written at this time. */
  ghost predicate Newer(t: Table, later: int) {
    forall k <- t.rows :: t.rows[k].updatedAt != later
  }

  /** A row was claimed, or one that was there has been written. */
  ghost predicate Stirred(before: Table, after: Table, later: int) {
    after.nextId > before.nextId || exists k :: k in before.rows && k in after.rows && after.rows[k].updatedAt == later
  }

  lemma SyncedStirs(before: Table, t: Table, c: A.Config, ownerKind: string, i: Item, later: int)
    requires A.Configured(c) && t.nextId >= before.nextId
    ensures var u := Synced(t, c, ownerKind, i, later);
            && u.nextId >= t.nextId && (Stirred(before, t, later) ==> Stirred(before, u, later))
            && if Idle(t, c, ownerKind, i) then u == t else Stirred(t, u, later)
  {
    hide A.N.Normal;
    var u := Synced(t, c, ownerKind, i, later);
    if Stirred(before, t, later) && u.nextId == before.nextId {
      var k :| k in before.rows && k in t.rows && t.rows[k].updatedAt == later;
      assert k in u.rows && u.rows[k].updatedAt == later;
    }
    if u.nextId == t.nextId && !Idle(t, c, ownerKind, i) {
      assert NameOf(i) in t.rows && u.rows[NameOf(i)].updatedAt == later;
    }
  }

  lemma {:induction false} SyncedAllStirs(t: Table, c: A.Config, ownerKind: string, items: seq<Item>, later: int)
    requires A.Configured(c)
    ensures var u := SyncedAll(t, c, ownerKind, items, later);
            && u.nextId >= t.nextId
            && if forall j :: 0 <= j < |items| ==> Idle(t, c, ownerKind, items[j]) then u == t else Stirred(t, u, later)
  {
    hide Synced, Idle, Stirred;
    if items != [] {
      var front, i := items[..|items| - 1], items[|items| - 1];
      SyncedAllStirs(t, c, ownerKind, front, later);
      SyncedStirs(t, SyncedAll(t, c, ownerKind, front, later), c, ownerKind, i, later);
      if forall j :: 0 <= j < |front| ==> Idle(t, c, ownerKind, front[j]) {
        assert (forall j :: 0 <= j < |items| ==> Idle(t, c, ownerKind, items[j])) <==> Idle(t, c, ownerKind, i) by {
          assert forall j :: 0 <= j < |front| ==> items[j] == front[j];
        }
      } else {
        var j :| 0 <= j < |front| && !Idle(t, c, ownerKind, front[j]);
        assert items[j] == front[j];
      }
    }
  }

  /** Whatever the items: a pass over a table without unwanted rows, at a time of its own, changes nothing if and
      only if there is nothing to do for any item. */
  lemma PassStableIff(t: Table, c: A.Config, ownerKind: string, items: seq<Item>, desired: Allocation -> bool,
                      later: int)
    requires A.Configured(c) && forall k <- t.rows :: !Unwanted(t.rows[k], ownerKind, desired)
    ensures (forall j :: 0 <= j < |items| ==> Idle(t, c, ownerKind, items[j])) ==>
              Passed(t, c, ownerKind, items, desired, later) == t
    ensures Newer(t, later) && Passed(t, c, ownerKind, items, desired, later) == t ==>
              forall j :: 0 <= j < |items| ==> Idle(t, c, ownerKind, items[j])
  {
    hide Idle, Unwanted;
    SyncedAllStirs(t, c, ownerKind, items, later);
    var u := SyncedAll(t, c, ownerKind, items, later);
    if u == t {
      assert Kept(t.rows, ownerKind, desired) == t.rows;
    }
    if Newer(t, later) && Stirred(t, u, later) && u.nextId == t.nextId {
      var k :| k in t.rows && k in u.rows && u.rows[k].updatedAt == later;
      assert k in Kept(u.rows, ownerKind, desired) ==> Kept(u.rows, ownerKind, desired)[k] == u.rows[k];
    }
  }

  /** An item whose name has no row, whose claim goes through, and whose row nobody wants: every pass claims it and
      releases it again. */
  lemma ClaimedAndReleased(t: Table, c: A.Config, ownerKind: string, i: Item, desired: Allocation -> bool, wall: int)
    requires A.Configured(c) && forall k <- t.rows :: !Unwanted(t.rows[k], ownerKind, desired)
    requires !Idle(t, c, ownerKind, i) && NameOf(i) !in t.rows
    requires !desired(A.Requested(RequestFor(i, ownerKind), t.zones[i.zone], A.N.Normal(i.name, i.kind, c.unicode).name,
                                  c,
                                  wall).(id := t.nextId, updatedAt := wall))
    ensures Passed(t, c, ownerKind, [i], desired, wall) == t.(nextId := t.nextId + 1)
  {
    hide A.N.Normal;
    assert [i][..0] == [] && SyncedAll(t, c, ownerKind, [], wall) == t;
    var u := SyncedAll(t, c, ownerKind, [i], wall);
    assert u == Synced(t, c, ownerKind, i, wall);
    assert Kept(u.rows, ownerKind, desired) == t.rows;
  }

  // ---- a second pass

  /** A row that does what the item asks needs no update, and a row that carries the item's name is wanted. */
  ghost predicate Lasting(i: Item, desired: Allocation -> bool) {
    && (forall a: Allocation :: Fulfils(a, i) ==> i.settled(a))
    && (forall a: Allocation :: KeyOf(a) == NameOf(i) && a.fqdn == Fqdn(i.name, i.zone) ==> desired(a))
  }

  /** The same rows need no update. */
  ghost predicate Alike(i: Item, l: Item) {
    forall a: Allocation :: i.settled(a) <==> l.settled(a)
  }

  /** No row needs no update for two items unless they are alike. */
  ghost predicate Sharp(items: seq<Item>) {
    forall j, l, a: Allocation :: 0 <= j < |items| && 0 <= l < |items| && items[j].settled(a) && items[l].settled(a) ==>
      Alike(items[j], items[l])
  }

  /** Another owner kind has the name. */
  predicate Held(t: Table, ownerKind: string, k: Key) {
    k in t.rows && t.rows[k].ownerKind != ownerKind
  }

  /** Items with one name ask for the same, or another owner kind holds the name. */
  ghost predicate Agreeing(t: Table, ownerKind: string, items: seq<Item>) {
    forall j, l :: 0 <= j < |items| && 0 <= l < |items| && NameOf(items[j]) == NameOf(items[l]) ==>
      Alike(items[j], items[l]) || Held(t, ownerKind, NameOf(items[j]))
  }

  lemma SyncedNamed(t: Table, c: A.Config, ownerKind: string, i: Item, wall: int)
    requires A.Configured(c) && Claimable(t, c, i) && NamedRows(t.rows)
    ensures NamedRows(Synced(t, c, ownerKind, i, wall).rows)
  {
    hide A.N.Normal, Fqdn;
    EmptyNotNormal(i.name, i.kind, c.unicode);
  }

  lemma {:induction false} SyncedAllNamed(t: Table, c: A.Config, ownerKind: string, items: seq<Item>, wall: int)
    requires A.Configured(c) && NamedRows(t.rows) && forall j :: 0 <= j < |items| ==> Claimable(t, c, items[j])
    ensures NamedRows(SyncedAll(t, c, ownerKind, items, wall).rows)
  {
    hide A.N.Normal, Synced, NamedRows;
    if items != [] {
      var front := items[..|items| - 1];
      SyncedAllNamed(t, c, ownerKind, front, wall);
      AllServed(t, c, ownerKind, front, wall);
      SyncedNamed(SyncedAll(t, c, ownerKind, front, wall), c, ownerKind, items[|items| - 1], wall);
    }
  }

  /** What a pass leaves under an item's name: a row of another kind, the one that held it before, or one of ours
      that is settled for some item of that name. */
  lemma NameAfter(t: Table, c: A.Config, ownerKind: string, items: seq<Item>, desired: Allocation -> bool, wall: int,
                  j: nat)
    returns (l: nat)
    requires A.Configured(c) && NamedRows(t.rows) && j < |items|
    requires forall j :: 0 <= j < |items| ==> Claimable(t, c, items[j]) && Lasting(items[j], desired)
    ensures l < |items| && NameOf(items[l]) == NameOf(items[j])
    ensures var once := Passed(t, c, ownerKind, items, desired, wall);
            && NameOf(items[j]) in once.rows
            && (Held(once, ownerKind, NameOf(items[j])) <==> Held(t, ownerKind, NameOf(items[j])))
            && (Held(t, ownerKind, NameOf(items[j])) ==> once.rows[NameOf(items[j])] == t.rows[NameOf(items[j])])
            && (!Held(t, ownerKind, NameOf(items[j])) ==> items[l].settled(once.rows[NameOf(items[j])]))
  {
    hide A.N.Normal, Synced, Fulfils, Claimable, SyncedAll;
    AllServed(t, c, ownerKind, items, wall);
    SyncedAllNamed(t, c, ownerKind, items, wall);
    var u := SyncedAll(t, c, ownerKind, items, wall);
    assert ServedFrom(u, ownerKind, items, j);
    l :| j <= l < |items| && NameOf(items[l]) == NameOf(items[j]) && Served(u, ownerKind, items[l]);
    ServedIsSettled(u, ownerKind, items[l], desired);
    SyncedAllConfined(t, c, ownerKind, items, wall, _ => true);
  }

  lemma ServedIsSettled(u: Table, ownerKind: string, i: Item, desired: Allocation -> bool)
    requires NamedRows(u.rows) && Served(u, ownerKind, i) && Lasting(i, desired)
    ensures NameOf(i) in Kept(u.rows, ownerKind, desired)
    ensures u.rows[NameOf(i)].ownerKind == ownerKind ==> i.settled(u.rows[NameOf(i)])
  {
    hide Fqdn;
  }

  /** A second pass for the same items changes nothing when items of one name agree, and only then, unless it is
      made at the very time of the first or of a row. */
  lemma SecondPassIff(t: Table, c: A.Config, ownerKind: string, items: seq<Item>, desired: Allocation -> bool,
                      wall: int, later: int)
    requires A.Configured(c) && NamedRows(t.rows) && Sharp(items)
    requires forall j :: 0 <= j < |items| ==> Claimable(t, c, items[j]) && Lasting(items[j], desired)
    ensures var once := Passed(t, c, ownerKind, items, desired, wall);
            && (Agreeing(t, ownerKind, items) ==> Passed(once, c, ownerKind, items, desired, later) == once)
            && (wall != later && Newer(t, later) && Passed(once, c, ownerKind, items, desired, later) == once ==>
                  Agreeing(t, ownerKind, items))
  {
    hide A.N.Normal, Synced, Fulfils, Claimable, Lasting, Passed, NamedRows, Alike, Newer;
    var once := Passed(t, c, ownerKind, items, desired, wall);
    if wall != later && Newer(t, later) {
      PassedNewer(t, c, ownerKind, items, desired, wall, later);
    }
    NothingUnwanted(t, c, ownerKind, items, desired, wall);
    PassStableIff(once, c, ownerKind, items, desired, later);
    forall j | 0 <= j < |items|
      ensures Agreeing(t, ownerKind, items) ==> Idle(once, c, ownerKind, items[j])
    {
      var l := NameAfter(t, c, ownerKind, items, desired, wall, j);
      if Agreeing(t, ownerKind, items) && !Held(t, ownerKind, NameOf(items[j])) {
        AlikeSettled(items[j], items[l], once.rows[NameOf(items[j])]);
      }
    }
    if forall j :: 0 <= j < |items| ==> Idle(once, c, ownerKind, items[j]) {
      forall j, m | 0 <= j < |items| && 0 <= m < |items| && NameOf(items[j]) == NameOf(items[m])
                    && !Held(t, ownerKind, NameOf(items[j]))
        ensures Alike(items[j], items[m])
      {
        var l := NameAfter(t, c, ownerKind, items, desired, wall, j);
        assert Idle(once, c, ownerKind, items[j]) && Idle(once, c, ownerKind, items[m]);
      }
    }
  }

  lemma PassedNewer(t: Table, c: A.Config, ownerKind: string, items: seq<Item>, desired: Allocation -> bool, wall: int,
                    later: int)
    requires A.Configured(c) && wall != later && Newer(t, later)
    ensures Newer(Passed(t, c, ownerKind, items, desired, wall), later)
  {
    hide SyncedAll, Unwanted;
    SyncedAllNewer(t, c, ownerKind, items, wall, later);
  }

  lemma {:induction false} SyncedAllNewer(t: Table, c: A.Config, ownerKind: string, items: seq<Item>, wall: int,
                                          later: int)
    requires A.Configured(c) && wall != later && Newer(t, later)
    ensures Newer(SyncedAll(t, c, ownerKind, items, wall), later)
  {
    hide A.Refusal, A.N.Normal;
    if items != [] {
      SyncedAllNewer(t, c, ownerKind, items[..|items| - 1], wall, later);
    }
  }

  lemma AlikeSettled(i: Item, l: Item, a: Allocation)
    requires Alike(i, l)
    ensures i.settled(a) <==> l.settled(a)
  {
  }

  lemma NothingUnwanted(t: Table, c: A.Config, ownerKind: string, items: seq<Item>, desired: Allocation -> bool,
                        wall: int)
    requires A.Configured(c)
    ensures var once := Passed(t, c, ownerKind, items, desired, wall);
            forall k <- once.rows :: !Unwanted(once.rows[k], ownerKind, desired)
  {
    hide SyncedAll, Unwanted;
  }

  // ---- whose rows it touches

  /** A row as such a controller makes it. */
  predicate Own(a: Allocation, refs: string -> bool) {
    a.source == FromManifest && a.project == "" && refs(a.ownerRef)
  }

  /** Rows of other kinds are not touched and none appears; rows of this kind stay such as the controller makes them. */
  ghost predicate Confined(before: map<Key, Allocation>, after: map<Key, Allocation>, ownerKind: string,
                           refs: string -> bool) {
    && (forall k <- before :: before[k].ownerKind != ownerKind ==> k in after && after[k] == before[k])
    && (forall k <- after :: after[k].ownerKind != ownerKind ==> k in before && after[k] == before[k])
    && (AllOwn(before, ownerKind, refs) ==> AllOwn(after, ownerKind, refs))
  }

  ghost predicate AllOwn(rows: map<Key, Allocation>, ownerKind: string, refs: string -> bool) {
    forall k <- rows :: rows[k].ownerKind == ownerKind ==> Own(rows[k], refs)
  }

  lemma ConfinedTrans(a: map<Key, Allocation>, b: map<Key, Allocation>, c: map<Key, Allocation>, ownerKind: string,
                      refs: string -> bool)
    requires Confined(a, b, ownerKind, refs) && Confined(b, c, ownerKind, refs)
    ensures Confined(a, c, ownerKind, refs)
  {
    hide AllOwn;
  }

  lemma ConfinedSame(a: map<Key, Allocation>, ownerKind: string, refs: string -> bool)
    ensures Confined(a, a, ownerKind, refs)
  {
  }

  lemma ConfinedWrite(before: map<Key, Allocation>, k: Key, a: Allocation, ownerKind: string, refs: string -> bool)
    requires k in before ==> before[k].ownerKind == ownerKind
    requires a.ownerKind == ownerKind
    requires AllOwn(before, ownerKind, refs) ==> Own(a, refs)
    ensures Confined(before, before[k := a], ownerKind, refs)
  {
    hide Own;
  }

  lemma SyncedConfined(t: Table, c: A.Config, ownerKind: string, i: Item, wall: int, refs: string -> bool)
    requires A.Configured(c) && refs(i.ownerRef)
    ensures Confined(t.rows, Synced(t, c, ownerKind, i, wall).rows, ownerKind, refs)
  {
    hide A.N.Normal, Confined;
    var u := Synced(t, c, ownerKind, i, wall);
    ConfinedSame(t.rows, ownerKind, refs);
    var k, req := Key(i.zone, i.name), RequestFor(i, ownerKind);
    if k in t.rows {
      if t.rows[k].ownerKind == ownerKind {
        ConfinedUpdate(t.rows, k, i, wall, ownerKind, refs);
      }
    } else if i.zone != "" && i.name != "" && i.zone in t.zones
    && A.Refusal(t, c, i.zone, i.name, Some(i.kind), FromManifest) == None {
      var row := A.Requested(req, t.zones[i.zone], A.N.Normal(i.name, i.kind, c.unicode).name, c,
                             wall).(updatedAt := wall, id := t.nextId);
      ConfinedWrite(t.rows, KeyOf(row), row, ownerKind, refs);
    }
  }

  lemma ConfinedUpdate(rows: map<Key, Allocation>, k: Key, i: Item, wall: int, ownerKind: string, refs: string -> bool)
    requires k in rows && rows[k].ownerKind == ownerKind && refs(i.ownerRef)
    ensures Confined(rows, rows[k := rows[k].(spec := i.spec, ownerRef := i.ownerRef, updatedAt := wall)], ownerKind,
                     refs)
  {
    ConfinedWrite(rows, k, rows[k].(spec := i.spec, ownerRef := i.ownerRef, updatedAt := wall), ownerKind, refs);
  }

  /** A whole pass stays among rows of its owner kind. */
  lemma {:induction false} PassConfined(t: Table, c: A.Config, ownerKind: string, items: seq<Item>,
                                        desired: Allocation -> bool, wall: int,
                                        refs: string -> bool)
    requires A.Configured(c) && forall j :: 0 <= j < |items| ==> refs(items[j].ownerRef)
    ensures Confined(t.rows, Kept(SyncedAll(t, c, ownerKind, items, wall).rows, ownerKind, desired), ownerKind, refs)
  {
    hide Confined, Synced, Kept;
    SyncedAllConfined(t, c, ownerKind, items, wall, refs);
    var rows := SyncedAll(t, c, ownerKind, items, wall).rows;
    KeptConfined(rows, ownerKind, desired, refs);
    ConfinedTrans(t.rows, rows, Kept(rows, ownerKind, desired), ownerKind, refs);
  }

  lemma {:induction false} SyncedAllConfined(t: Table, c: A.Config, ownerKind: string, items: seq<Item>, wall: int,
                                             refs: string -> bool)
    requires A.Configured(c) && forall j :: 0 <= j < |items| ==> refs(items[j].ownerRef)
    ensures Confined(t.rows, SyncedAll(t, c, ownerKind, items, wall).rows, ownerKind, refs)
  {
    hide Confined, Synced;
    if items == [] {
      ConfinedSame(t.rows, ownerKind, refs);
    } else {
      var front := items[..|items| - 1];
      SyncedAllConfined(t, c, ownerKind, front, wall, refs);
      var before := SyncedAll(t, c, ownerKind, front, wall);
      SyncedConfined(before, c, ownerKind, items[|items| - 1], wall, refs);
      ConfinedTrans(t.rows, before.rows, SyncedAll(t, c, ownerKind, items, wall).rows, ownerKind, refs);
    }
  }

  lemma KeptConfined(rows: map<Key, Allocation>, ownerKind: string, desired: Allocation -> bool, refs: string -> bool)
    ensures Confined(rows, Kept(rows, ownerKind, desired), ownerKind, refs)
  {
    hide Own;
  }

  class Controller {
    const alloc: A.Alloc
    const ownerKind: string

    constructor (alloc: A.Alloc, ownerKind: string)
      ensures this.alloc == alloc && this.ownerKind == ownerKind
    {
      this.alloc, this.ownerKind := alloc, ownerKind;
    }

    ghost predicate Valid()
      reads alloc.store
    {
      && A.Configured(alloc.config) && ValidRows(alloc.store.rows, alloc.store.nextId)
      && forall z <- alloc.store.zones :: alloc.store.zones[z].name == z
    }

    /** One wanted name. */
    method SyncItem(i: Item, wall: int)
      requires Valid()
      modifies alloc.store`rows, alloc.store`nextId, alloc.store`events
      ensures Valid() && alloc.store.Tables() == Synced(old(alloc.store.Tables()), alloc.config, ownerKind, i, wall)
    {
      hide A.N.Normal, A.Requested;
      ghost var before := alloc.store.Tables();
      var existing := alloc.store.GetAllocationByLabel(i.zone, i.name);
      if existing.Some? {
        var row := existing.value;
        if row.ownerKind != ownerKind || i.settled(row) {
          return;
        }
        var a := row.(spec := i.spec, ownerRef := i.ownerRef);
        R.PatchOne(before.rows, alloc.store.nextId, KeyOf(row), a, wall);
        alloc.store.UpdateAllocation(a, wall);
        return;
      }
      if i.zone != "" && i.name != "" {
        var answer := alloc.ClaimHostname(RequestFor(i, ownerKind), wall);
        if answer.Claimed? {
          ClaimedValid(before, alloc.config, RequestFor(i, ownerKind), wall);
        }
      }
    }

    /** The second loop: our rows that nobody wants any more go. */
    method ReleaseGone(desired: Allocation -> bool, wall: int)
      requires Valid()
      modifies alloc.store`rows
      ensures Valid() && alloc.store.rows == Kept(old(alloc.store.rows), ownerKind, desired)
    {
      hide ValidRows, R.Without;
      ValidKeyed(alloc.store.rows, alloc.store.nextId);
      var ours := alloc.store.ListAllocations(Filter(None, None, None, true));
      ghost var before, gone := alloc.store.rows, {};
      assert before - {} == before;
      for i := 0 to |ours|
        invariant Valid() && alloc.store.rows == before - gone && gone <= before.Keys
        invariant forall k ::
                    k in gone <==> k in before && Unwanted(before[k], ownerKind, desired) && before[k] !in ours[i..]
      {
        var a := ours[i];
        assert a in ours && ours[i..] == [a] + ours[i + 1..];
        if a.ownerKind == ownerKind && !desired(a) {
          R.DeleteAmong(before, alloc.store.nextId, alloc.store.rows, gone, a);
          var ok := alloc.Release(a.id, wall);
          gone := gone + {KeyOf(a)};
        }
      }
      assert alloc.store.rows == Kept(before, ownerKind, desired);
    }

    /** One pass: every item in order, then the release loop. */
    method Sync(items: seq<Item>, desired: Allocation -> bool, wall: int)
      requires Valid()
      modifies alloc.store`rows, alloc.store`nextId, alloc.store`events
      ensures Valid()
      ensures alloc.store.Tables() == Passed(old(alloc.store.Tables()), alloc.config, ownerKind, items, desired, wall)
    {
      hide ValidRows, Synced;
      ghost var before := alloc.store.Tables();
      for j := 0 to |items|
        invariant Valid() && alloc.store.Tables() == SyncedAll(before, alloc.config, ownerKind, items[..j], wall)
      {
        assert items[..j + 1][..j] == items[..j];
        SyncItem(items[j], wall);
      }
      assert items[..|items|] == items;
      ReleaseGone(desired, wall);
    }
  }

  lemma {:induction false} PassValid(t: Table, c: A.Config, ownerKind: string, items: seq<Item>,
                                     desired: Allocation -> bool, wall: int)
    requires A.Configured(c) && ValidRows(t.rows, t.nextId)
    ensures var u := Passed(t, c, ownerKind, items, desired, wall);
            ValidRows(u.rows, u.nextId)
  {
    hide SyncedAll, Unwanted;
    SyncedAllValid(t, c, ownerKind, items, wall);
  }

  lemma {:induction false} SyncedAllValid(t: Table, c: A.Config, ownerKind: string, items: seq<Item>, wall: int)
    requires A.Configured(c) && ValidRows(t.rows, t.nextId)
    ensures var u := SyncedAll(t, c, ownerKind, items, wall);
            ValidRows(u.rows, u.nextId)
  {
    hide ValidRows, Synced;
    if items != [] {
      SyncedAllValid(t, c, ownerKind, items[..|items| - 1], wall);
      SyncedValid(SyncedAll(t, c, ownerKind, items[..|items| - 1], wall), c, ownerKind, items[|items| - 1], wall);
    }
  }

  lemma SyncedValid(t: Table, c: A.Config, ownerKind: string, i: Item, wall: int)
    requires A.Configured(c) && ValidRows(t.rows, t.nextId)
    ensures var u := Synced(t, c, ownerKind, i, wall);
            ValidRows(u.rows, u.nextId)
  {
    hide A.N.Normal, A.Refusal, A.Requested, Insert;
    if NameOf(i) !in t.rows && !Idle(t, c, ownerKind, i) {
      ClaimedValid(t, c, RequestFor(i, ownerKind), wall);
    }
  }

  lemma ClaimedValid(t: Table, c: A.Config, req: A.Request, wall: int)
    requires A.Configured(c) && req.zone in t.zones && ValidRows(t.rows, t.nextId)
    requires A.Refusal(t, c, req.zone, req.name, req.kind, A.SourceOf(req)) == None
    ensures var z := t.zones[req.zone];
            var u := Insert(t, A.Requested(req, z, A.N.Normal(req.name, A.KindOf(z, req.kind), c.unicode).name, c,
                                           wall).(updatedAt := wall));
            ValidRows(u.rows, u.nextId)
  {
    hide A.N.Normal;
  }
}

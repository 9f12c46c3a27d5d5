/** The custom-resource ingester: a row for every hostname reservation of the cluster. */
module CrdIngest {
  import opened Core
  import A = Allocations
  import W = OwnedRows

  const OWNER_KIND := "crd"

  datatype Reservation = Reservation(namespace: string, name: string, zone: string, host: string, kind: Option<Kind>,
                                     ownerRef: string,
                                     routes: seq<Route>, wildcard: bool)
  {
    function Owner(): string {
      if ownerRef == "" then namespace + "/" + name else ownerRef
    }

    function SpecOf(): Spec {
      Spec(routes, wildcard, 0)
    }
  }

  function ItemFor(r: Reservation): W.Item {
    W.Item(r.zone, r.host, if r.kind.Some? then r.kind.value else Platform, r.Owner(), r.SpecOf(),
           (a: Allocation) => a.ownerRef == r.Owner() && a.spec == r.SpecOf())
  }

  predicate Wanted(a: Allocation, rs: seq<Reservation>) {
    exists i :: 0 <= i < |rs| && rs[i].zone + "/" + rs[i].host == a.zone + "/" + a.name
  }

  function Desired(rs: seq<Reservation>): Allocation -> bool {
    a => Wanted(a, rs)
  }

  function ItemsOf(rs: seq<Reservation>): (items: seq<W.Item>)
    ensures |items| == |rs| && forall i :: 0 <= i < |rs| ==> items[i] == ItemFor(rs[i])
  {
    if rs == [] then [] else ItemsOf(rs[..|rs| - 1]) + [ItemFor(rs[|rs| - 1])]
  }

  lemma ItemLasts(rs: seq<Reservation>, j: nat)
    requires j < |rs|
    ensures W.Lasting(ItemFor(rs[j]), Desired(rs))
  {
  }

  /** Reservations of one label ask for the same, or somebody else holds it. */
  ghost predicate Agree(t: Table, rs: seq<Reservation>) {
    forall q, r :: q in rs && r in rs && q.zone == r.zone && q.host == r.host ==>
      (q.Owner() == r.Owner() && q.SpecOf() == r.SpecOf()) || W.Held(t, OWNER_KIND, Key(q.zone, q.host))
  }

  lemma AlikeIff(q: Reservation, r: Reservation)
    ensures W.Alike(ItemFor(q), ItemFor(r)) <==> q.Owner() == r.Owner() && q.SpecOf() == r.SpecOf()
    ensures forall a: Allocation :: ItemFor(q).settled(a) && ItemFor(r).settled(a) ==>
              q.Owner() == r.Owner() && q.SpecOf() == r.SpecOf()
  {
    var a := Allocation(0, "", "", "", "", Platform, FromManifest, q.Owner(), "", Active, q.SpecOf(), None, map[], None,
                        0);
    assert ItemFor(q).settled(a);
    assert ItemFor(r).settled(a) <==> q.Owner() == r.Owner() && q.SpecOf() == r.SpecOf();
  }

  lemma ItemsSharp(rs: seq<Reservation>)
    ensures W.Sharp(ItemsOf(rs))
  {
    hide W.Alike, ItemFor;
    var items := ItemsOf(rs);
    forall j, n, a: Allocation | 0 <= j < |items| && 0 <= n < |items| && items[j].settled(a) && items[n].settled(a)
      ensures W.Alike(items[j], items[n])
    {
      AlikeIff(rs[j], rs[n]);
    }
  }

  lemma AgreeingIff(t: Table, rs: seq<Reservation>)
    ensures W.Agreeing(t, OWNER_KIND, ItemsOf(rs)) <==> Agree(t, rs)
  {
    hide W.Alike, W.Held;
    var items := ItemsOf(rs);
    forall j, n | 0 <= j < |rs| && 0 <= n < |rs|
      ensures W.Alike(items[j], items[n]) <==> rs[j].Owner() == rs[n].Owner() && rs[j].SpecOf() == rs[n].SpecOf()
      ensures W.NameOf(items[j]) == Key(rs[j].zone, rs[j].host)
    {
      AlikeIff(rs[j], rs[n]);
    }
  }

  /** While the same reservations stand, the next pass changes nothing if reservations of one label agree, and only
      then, unless it is made at the very time of the last or of a row. Their labels are in normal form. */
  lemma SyncTwice(t: Table, c: A.Config, rs: seq<Reservation>, wall: int, later: int)
    requires A.Configured(c) && NamedRows(t.rows) && forall j :: 0 <= j < |rs| ==> W.Claimable(t, c, ItemFor(rs[j]))
    ensures var once := W.Passed(t, c, OWNER_KIND, ItemsOf(rs), Desired(rs), wall);
            var twice := W.Passed(once, c, OWNER_KIND, ItemsOf(rs), Desired(rs), later);
            && (Agree(t, rs) ==> twice == once)
            && (wall != later && W.Newer(t, later) && twice == once ==> Agree(t, rs))
  {
    hide W.Claimable, W.Passed, W.Lasting, NamedRows, ItemFor, Agree, W.Agreeing, W.Sharp, W.Newer;
    forall j | 0 <= j < |rs|
      ensures W.Lasting(ItemFor(rs[j]), Desired(rs))
    {
      ItemLasts(rs, j);
    }
    ItemsSharp(rs);
    AgreeingIff(t, rs);
    W.SecondPassIff(t, c, OWNER_KIND, ItemsOf(rs), Desired(rs), wall, later);
  }

  /** What a pass leaves, by its columns: a reserved label is somebody else's, as it was, or its row has the owner
      and the spec of a reservation of it; and a row of the ingester that is not released is reserved. */
  lemma {:induction false} ReservationsServed(t: Table, c: A.Config, rs: seq<Reservation>, wall: int)
    requires A.Configured(c) && NamedRows(t.rows) && forall j :: 0 <= j < |rs| ==> W.Claimable(t, c, ItemFor(rs[j]))
    ensures var once := W.Passed(t, c, OWNER_KIND, ItemsOf(rs), Desired(rs), wall);
            && (forall r :: r in rs ==>
                  && Key(r.zone, r.host) in once.rows
                  && if Key(r.zone, r.host) in t.rows && t.rows[Key(r.zone, r.host)].ownerKind != "crd"
                     then once.rows[Key(r.zone, r.host)] == t.rows[Key(r.zone, r.host)]
                     else Granted(once.rows[Key(r.zone, r.host)], rs, r.zone, r.host))
            && (forall k <- once.rows ::
                  once.rows[k].ownerKind == "crd" && once.rows[k].state != Released ==>
                    exists r :: r in rs
                                && r.zone + "/" + r.host == once.rows[k].zone + "/" + once.rows[k].name)
  {
    hide W.Lasting, W.Claimable, W.Passed, NamedRows, Granted;
    var once := W.Passed(t, c, OWNER_KIND, ItemsOf(rs), Desired(rs), wall);
    forall j | 0 <= j < |rs|
      ensures W.Lasting(ItemsOf(rs)[j], Desired(rs)) && W.Claimable(t, c, ItemsOf(rs)[j])
    {
      ItemLasts(rs, j);
    }
    forall r | r in rs
      ensures Key(r.zone, r.host) in once.rows
      ensures W.Held(t, OWNER_KIND, Key(r.zone, r.host)) ==>
                once.rows[Key(r.zone, r.host)] == t.rows[Key(r.zone, r.host)]
      ensures !W.Held(t, OWNER_KIND, Key(r.zone, r.host)) ==>
                Granted(once.rows[Key(r.zone, r.host)], rs, r.zone, r.host)
    {
      var j :| 0 <= j < |rs| && rs[j] == r;
      var n := W.NameAfter(t, c, OWNER_KIND, ItemsOf(rs), Desired(rs), wall, j);
      if !W.Held(t, OWNER_KIND, Key(r.zone, r.host)) {
        SettledGranted(rs, n, once.rows[Key(r.zone, r.host)]);
      }
    }
    W.NothingUnwanted(t, c, OWNER_KIND, ItemsOf(rs), Desired(rs), wall);
    forall k | k in once.rows && once.rows[k].ownerKind == "crd" && once.rows[k].state != Released
      ensures exists r :: r in rs && r.zone + "/" + r.host == once.rows[k].zone + "/" + once.rows[k].name
    {
      assert Desired(rs)(once.rows[k]);
      var i :| 0 <= i < |rs| && rs[i].zone + "/" + rs[i].host == once.rows[k].zone + "/" + once.rows[k].name;
      assert rs[i] in rs;
    }
  }

  /** The row is what some reservation of the label asks for: its owner, or failing that its namespace and name, and its
      routes. */
  ghost predicate Granted(a: Allocation, rs: seq<Reservation>, zone: string, host: string) {
    exists q :: q in rs && q.zone == zone && q.host == host
                && a.ownerRef == (if q.ownerRef == "" then q.namespace + "/" + q.name else q.ownerRef)
                && a.spec == Spec(q.routes, q.wildcard, 0)
  }

  lemma SettledGranted(rs: seq<Reservation>, n: nat, a: Allocation)
    requires n < |rs| && ItemFor(rs[n]).settled(a)
    ensures Granted(a, rs, rs[n].zone, rs[n].host)
  {
    assert rs[n] in rs;
  }

  /** The row that a reservation gets whose label has none: an active row of the ingester, of the kind asked for,
      or of the platform. */
  lemma FreshReservation(t: Table, c: A.Config, r: Reservation, wall: int)
    requires A.Configured(c) && W.Claimable(t, c, ItemFor(r)) && Key(r.zone, r.host) !in t.rows
    ensures var u := W.Synced(t, c, OWNER_KIND, ItemFor(r), wall);
            u.rows == t.rows[Key(r.zone, r.host) :=
              Allocation(t.nextId, r.zone, "", r.host, Fqdn(r.host, r.zone),
                         if r.kind == None then Platform else r.kind.value, FromManifest,
                         if r.ownerRef == "" then r.namespace + "/" + r.name else r.ownerRef, "crd", Active,
                         Spec(r.routes, r.wildcard, 0), None, map[], None, wall)]
  {
    hide W.Claimable, W.Synced;
    W.SyncedMeans(t, c, OWNER_KIND, ItemFor(r), wall);
  }

  /** Every reservation is dealt with, in order, then our rows that nothing reserves go. A reservation that lost
      its label stays unfulfilled: only rows of this owner kind change. */
  method Sync(c: W.Controller, rs: seq<Reservation>, wall: int, ghost refs: string -> bool)
    requires c.Valid() && c.ownerKind == OWNER_KIND && forall i :: 0 <= i < |rs| ==> refs(rs[i].Owner())
    modifies c.alloc.store`rows, c.alloc.store`nextId, c.alloc.store`events
    ensures c.Valid() && W.Confined(old(c.alloc.store.rows), c.alloc.store.rows, OWNER_KIND, refs)
    ensures c.alloc.store.Tables()
            == W.Passed(old(c.alloc.store.Tables()), c.alloc.config, OWNER_KIND, ItemsOf(rs), Desired(rs), wall)
  {
    hide W.Confined, W.SyncedAll, W.Kept;
    var items: seq<W.Item> := [];
    for i := 0 to |rs|
      invariant items == ItemsOf(rs[..i])
    {
      assert rs[..i + 1][..i] == rs[..i];
      items := items + [ItemFor(rs[i])];
    }
    assert rs[..|rs|] == rs;
    W.PassConfined(c.alloc.store.Tables(), c.alloc.config, OWNER_KIND, items, Desired(rs), wall, refs);
    c.Sync(items, Desired(rs), wall);
  }
}

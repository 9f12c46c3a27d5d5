/** The container-label watcher: a hostname for every labelled container, in the zone it belongs to. */
module DockerLabels {
  import opened Core
  import opened Text
  import A = Allocations
  import W = OwnedRows

  const OWNER_KIND := "docker-label"

  /** A container with its labels, defaults filled in. */
  datatype Labeled = Labeled(container: string, hostname: string, network: string, port: int)

  // ---- zones

  predicate Belongs(host: string, zone: string) {
    host == zone || (zone != "" && HasSuffix(host, "." + zone))
  }

  /** The zone is registered and the host belongs to it, and to no longer one. */
  predicate Longest(host: string, zones: seq<Zone>, zone: string) {
    && (exists z <- zones :: z.name == zone) && Belongs(host, zone)
    && forall z <- zones :: Belongs(host, z.name) ==> |z.name| <= |zone|
  }

  function LabelIn(host: string, zone: string): string {
    if host == zone then "@" else TrimSuffix(host, "." + zone)
  }

  /** There is only one such zone, in whatever order the zones are listed. */
  lemma LongestUnique(host: string, zones: seq<Zone>, others: seq<Zone>, zone: string, other: string)
    requires Longest(host, zones, zone) && Longest(host, others, other)
    requires forall z :: z in zones <==> z in others
    ensures zone == other
  {
    SameLength(host, zone, other);
  }

  lemma SameLength(host: string, zone: string, other: string)
    requires Belongs(host, zone) && Belongs(host, other) && |zone| == |other|
    ensures zone == other
  {
    if host != zone && host != other {
      assert zone == ("." + zone)[1..] && other == ("." + other)[1..];
    }
  }

  /** A split host rejoins, but for the two spellings whose label would be "@" or empty. */
  lemma SplitRejoins(host: string, zone: string)
    requires IsLower(host) && Belongs(host, zone)
    ensures Fqdn(LabelIn(host, zone), zone) == host <==> host != "@." + zone && host != "." + zone
  {
    LowerOfLower(host);
    HostRoundTrip(host, zone);
  }

  /** The longest zone so far, zone by zone. */
  function ZoneOf(host: string, zones: seq<Zone>): Option<string> {
    if zones == [] then None
    else
      var before, z := ZoneOf(host, zones[..|zones| - 1]), zones[|zones| - 1].name;
      if Belongs(host, z) && (before == None || |z| > |before.value|) then Some(z) else before
  }

  lemma {:induction false} ZoneOfLongest(host: string, zones: seq<Zone>)
    ensures ZoneOf(host, zones) == None <==> forall z <- zones :: !Belongs(host, z.name)
    ensures ZoneOf(host, zones).Some? ==> Longest(host, zones, ZoneOf(host, zones).value)
  {
    hide Belongs;
    if zones != [] {
      var front, last := zones[..|zones| - 1], zones[|zones| - 1];
      ZoneOfLongest(host, front);
      assert zones == front + [last];
    }
  }

  function Split(host: string, zones: seq<Zone>): Option<(string, string)> {
    match ZoneOf(host, zones)
    case None => None
    case Some(zone) => Some((zone, LabelIn(host, zone)))
  }

  /** A scan with a best so far; an exact match ends it. */
  method SplitByZones(host: string, zones: seq<Zone>) returns (r: Option<(string, string)>)
    ensures r == None <==> forall z <- zones :: !Belongs(host, z.name)
    ensures r.Some? ==> Longest(host, zones, r.value.0) && r.value.1 == LabelIn(host, r.value.0)
    ensures r == Split(host, zones)
  {
    ZoneOfLongest(host, zones);
    var best := "";
    for i := 0 to |zones|
      invariant best == "" ==> forall z <- zones[..i] :: !Belongs(host, z.name)
      invariant best != "" ==> Longest(host, zones[..i], best) && host != best
    {
      var z := zones[i];
      assert z in zones && zones[..i + 1] == zones[..i] + [z];
      if host == z.name {
        assert Longest(host, zones, host);
        LongestUnique(host, zones, zones, host, ZoneOf(host, zones).value);
        return Some((z.name, "@"));
      }
      if HasSuffix(host, "." + z.name) && |z.name| > |best| {
        best := z.name;
      }
    }
    assert zones[..|zones|] == zones;
    if best == "" {
      return None;
    }
    LongestUnique(host, zones, zones, best, ZoneOf(host, zones).value);
    return Some((best, TrimSuffix(host, "." + best)));
  }

  // ---- the pass

  function SpecFor(l: Labeled): Spec {
    Spec([Route(0, Docker(l.network, l.container, l.port))], false, 0)
  }

  predicate BackendMatches(a: Allocation, l: Labeled) {
    |a.spec.routes| == 1 && a.spec.routes[0].backend == Docker(l.network, l.container, l.port)
  }

  function ItemFor(l: Labeled, zone: string, name: string): W.Item {
    W.Item(zone, name, Platform, "docker:" + l.container, SpecFor(l), a => BackendMatches(a, l))
  }

  function Refs(): string -> bool {
    r => HasPrefix(r, "docker:")
  }

  predicate Wanted(a: Allocation, want: seq<Labeled>) {
    exists i :: 0 <= i < |want| && want[i].hostname == a.fqdn
  }

  function Desired(want: seq<Labeled>): Allocation -> bool {
    a => Wanted(a, want)
  }

  /** The items of the containers whose hostname belongs to a zone. */
  function ItemsOf(want: seq<Labeled>, zones: seq<Zone>): seq<W.Item> {
    if want == [] then []
    else
      var l := want[|want| - 1];
      ItemsOf(want[..|want| - 1], zones)
      + match Split(l.hostname, zones)
        case None => []
        case Some((zone, name)) => [ItemFor(l, zone, name)]
  }

  lemma {:induction false} ItemRefs(want: seq<Labeled>, zones: seq<Zone>)
    ensures forall i :: i in ItemsOf(want, zones) ==> Refs()(i.ownerRef)
  {
    if want != [] {
      ItemRefs(want[..|want| - 1], zones);
      assert HasPrefix("docker:" + want[|want| - 1].container, "docker:");
    }
  }

  /** An item whose hostname rejoins lasts: an updated row matches its container, and its name is the hostname. */
  lemma ItemLasts(l: Labeled, zone: string, name: string, want: seq<Labeled>)
    requires l in want && Fqdn(name, zone) == l.hostname
    ensures W.Lasting(ItemFor(l, zone, name), Desired(want))
  {
    var i :| 0 <= i < |want| && want[i] == l;
  }

  lemma {:induction false} ItemsLast(want: seq<Labeled>, zones: seq<Zone>, all: seq<Labeled>)
    requires forall l :: l in want ==> l in all && Rejoins(l, zones)
    ensures forall i :: i in ItemsOf(want, zones) ==> W.Lasting(i, Desired(all))
  {
    hide W.Lasting, Split, Rejoins;
    if want != [] {
      var front, l := want[..|want| - 1], want[|want| - 1];
      ItemsLast(front, zones, all);
      assert l in want;
      if Split(l.hostname, zones).Some? {
        RejoinsFqdn(l, zones);
        ItemLasts(l, Split(l.hostname, zones).value.0, Split(l.hostname, zones).value.1, all);
      }
    }
  }

  /** The hostname is in lower case, and is not one of the two spellings that do not rejoin. */
  predicate Rejoins(l: Labeled, zones: seq<Zone>) {
    && IsLower(l.hostname)
    && match ZoneOf(l.hostname, zones)
       case None => true
       case Some(zone) => l.hostname != "@." + zone && l.hostname != "." + zone
  }

  lemma RejoinsFqdn(l: Labeled, zones: seq<Zone>)
    requires Rejoins(l, zones) && Split(l.hostname, zones).Some?
    ensures Fqdn(Split(l.hostname, zones).value.1, Split(l.hostname, zones).value.0) == l.hostname
  {
    ZoneOfLongest(l.hostname, zones);
    SplitRejoins(l.hostname, ZoneOf(l.hostname, zones).value);
  }

  // ---- the next pass

  predicate SameBackend(l: Labeled, m: Labeled) {
    l.container == m.container && l.network == m.network && l.port == m.port
  }

  /** Containers with one hostname, of some zone, are reached the same way, or somebody else holds that name. */
  ghost predicate Agree(t: Table, want: seq<Labeled>, zones: seq<Zone>) {
    forall l, m :: l in want && m in want && l.hostname == m.hostname && Split(l.hostname, zones).Some? ==>
      SameBackend(l, m) || W.Held(t, OWNER_KIND, NameFor(l, zones))
  }

  function NameFor(l: Labeled, zones: seq<Zone>): Key
    requires Split(l.hostname, zones).Some?
  {
    Key(Split(l.hostname, zones).value.0, Split(l.hostname, zones).value.1)
  }

  /** The item is this container's. */
  ghost predicate From(i: W.Item, l: Labeled, zones: seq<Zone>) {
    Split(l.hostname, zones).Some? && i == ItemFor(l, NameFor(l, zones).zone, NameFor(l, zones).name)
  }

  lemma {:induction false} ItemsFrom(want: seq<Labeled>, zones: seq<Zone>)
    ensures forall i :: i in ItemsOf(want, zones) ==> exists l :: l in want && From(i, l, zones)
    ensures forall l :: l in want && Split(l.hostname, zones).Some? ==>
              ItemFor(l, NameFor(l, zones).zone, NameFor(l, zones).name) in ItemsOf(want, zones)
  {
    hide Split, ItemFor;
    if want != [] {
      var front, l := want[..|want| - 1], want[|want| - 1];
      assert want == front + [l];
      ItemsFrom(front, zones);
      forall i | i in ItemsOf(want, zones)
        ensures exists l :: l in want && From(i, l, zones)
      {
        if i !in ItemsOf(front, zones) {
          assert From(i, l, zones);
        }
      }
    }
  }

  lemma AlikeIff(i: W.Item, j: W.Item, l: Labeled, m: Labeled, zones: seq<Zone>)
    requires From(i, l, zones) && From(j, m, zones)
    ensures W.Alike(i, j) <==> SameBackend(l, m)
    ensures forall a: Allocation :: i.settled(a) && j.settled(a) ==> SameBackend(l, m)
  {
    hide Split;
    var a := Allocation(0, "", "", "", "", Platform, FromManifest, "", "", Active, SpecFor(l), None, map[], None, 0);
    assert i.settled(a);
    assert j.settled(a) <==> SameBackend(l, m);
  }

  lemma ItemsSharp(want: seq<Labeled>, zones: seq<Zone>)
    ensures W.Sharp(ItemsOf(want, zones))
  {
    hide W.Alike, From, Split, ItemsOf;
    var items := ItemsOf(want, zones);
    ItemsFrom(want, zones);
    forall j, n, a: Allocation | 0 <= j < |items| && 0 <= n < |items| && items[j].settled(a) && items[n].settled(a)
      ensures W.Alike(items[j], items[n])
    {
      assert items[j] in items && items[n] in items;
      var l :| l in want && From(items[j], l, zones);
      var m :| m in want && From(items[n], m, zones);
      AlikeIff(items[j], items[n], l, m, zones);
    }
  }

  lemma SameHostname(l: Labeled, m: Labeled, zones: seq<Zone>)
    requires Rejoins(l, zones) && Rejoins(m, zones) && Split(l.hostname, zones).Some? && Split(m.hostname, zones).Some?
    ensures NameFor(l, zones) == NameFor(m, zones) <==> l.hostname == m.hostname
  {
    hide Rejoins, Split;
    RejoinsFqdn(l, zones);
    RejoinsFqdn(m, zones);
  }

  lemma FromNamed(i: W.Item, l: Labeled, zones: seq<Zone>)
    requires From(i, l, zones)
    ensures Split(l.hostname, zones).Some? && W.NameOf(i) == NameFor(l, zones)
  {
    hide Split;
  }

  lemma AgreeingIff(t: Table, want: seq<Labeled>, zones: seq<Zone>)
    requires forall l :: l in want ==> Rejoins(l, zones)
    ensures W.Agreeing(t, OWNER_KIND, ItemsOf(want, zones)) <==> Agree(t, want, zones)
  {
    hide W.Alike, From, Split, ItemsOf, Rejoins, W.NameOf, NameFor, SameBackend, W.Held;
    var items := ItemsOf(want, zones);
    ItemsFrom(want, zones);
    forall j, n | 0 <= j < |items| && 0 <= n < |items| && W.NameOf(items[j]) == W.NameOf(items[n])
      ensures Agree(t, want, zones) ==> W.Alike(items[j], items[n]) || W.Held(t, OWNER_KIND, W.NameOf(items[j]))
    {
      assert items[j] in items && items[n] in items;
      var l :| l in want && From(items[j], l, zones);
      var m :| m in want && From(items[n], m, zones);
      FromNamed(items[j], l, zones);
      FromNamed(items[n], m, zones);
      SameHostname(l, m, zones);
      AlikeIff(items[j], items[n], l, m, zones);
    }
    forall l, m | l in want && m in want && l.hostname == m.hostname && Split(l.hostname, zones).Some?
      ensures W.Agreeing(t, OWNER_KIND, items) ==> SameBackend(l, m) || W.Held(t, OWNER_KIND, NameFor(l, zones))
    {
      var i := ItemFor(l, NameFor(l, zones).zone, NameFor(l, zones).name);
      var k := ItemFor(m, NameFor(m, zones).zone, NameFor(m, zones).name);
      assert i in items && k in items;
      assert From(i, l, zones) && From(k, m, zones) by {
        ItemIsFrom(l, zones);
        ItemIsFrom(m, zones);
      }
      FromNamed(i, l, zones);
      FromNamed(k, m, zones);
      SameHostname(l, m, zones);
      AlikeIff(i, k, l, m, zones);
      var j :| 0 <= j < |items| && items[j] == i;
      var n :| 0 <= n < |items| && items[n] == k;
    }
  }

  lemma ItemIsFrom(l: Labeled, zones: seq<Zone>)
    requires Split(l.hostname, zones).Some?
    ensures From(ItemFor(l, NameFor(l, zones).zone, NameFor(l, zones).name), l, zones)
  {
  }

  /** While the same containers run, the next pass changes nothing if containers with one hostname agree, and only
      then, unless it is made at the very time of the last or of a row. Their hostnames rejoin and their labels are
      in normal form. */
  lemma SyncTwice(t: Table, c: A.Config, want: seq<Labeled>, zones: seq<Zone>, wall: int, later: int)
    requires A.Configured(c) && NamedRows(t.rows) && (forall l :: l in want ==> Rejoins(l, zones))
    requires forall i :: i in ItemsOf(want, zones) ==> W.Claimable(t, c, i)
    ensures var once := W.Passed(t, c, OWNER_KIND, ItemsOf(want, zones), Desired(want), wall);
            var twice := W.Passed(once, c, OWNER_KIND, ItemsOf(want, zones), Desired(want), later);
            && (Agree(t, want, zones) ==> twice == once)
            && (wall != later && W.Newer(t, later) && twice == once ==> Agree(t, want, zones))
  {
    hide W.Lasting, W.Claimable, W.Passed, NamedRows, Rejoins, Agree, W.Agreeing, W.Sharp, W.Newer;
    ItemsLast(want, zones, want);
    ItemsSharp(want, zones);
    AgreeingIff(t, want, zones);
    W.SecondPassIff(t, c, OWNER_KIND, ItemsOf(want, zones), Desired(want), wall, later);
  }

  /** What a pass leaves, by its columns: a container's hostname is somebody else's, as it was, or is routed to a
      container of that hostname and to nothing else; and a row of the watcher that is not released is some
      container's hostname. */
  lemma {:induction false} ContainersServed(t: Table, c: A.Config, want: seq<Labeled>, zones: seq<Zone>, wall: int)
    requires A.Configured(c) && NamedRows(t.rows) && (forall l :: l in want ==> Rejoins(l, zones))
    requires forall i :: i in ItemsOf(want, zones) ==> W.Claimable(t, c, i)
    ensures var once := W.Passed(t, c, OWNER_KIND, ItemsOf(want, zones), Desired(want), wall);
            && (forall l :: l in want && Split(l.hostname, zones).Some? ==>
                  && NameFor(l, zones) in once.rows
                  && if NameFor(l, zones) in t.rows && t.rows[NameFor(l, zones)].ownerKind != "docker-label"
                     then once.rows[NameFor(l, zones)] == t.rows[NameFor(l, zones)]
                     else Reaches(once.rows[NameFor(l, zones)], want, l.hostname))
            && (forall k <- once.rows ::
                  once.rows[k].ownerKind == "docker-label" && once.rows[k].state != Released ==>
                    exists l :: l in want && l.hostname == once.rows[k].fqdn)
  {
    hide W.Lasting, W.Claimable, W.Passed, NamedRows, Rejoins, Split, ItemsOf, From, Reaches, NameFor;
    var items, once := ItemsOf(want, zones), W.Passed(t, c, OWNER_KIND, ItemsOf(want, zones), Desired(want), wall);
    ItemsFrom(want, zones);
    ItemsLast(want, zones, want);
    forall l | l in want && Split(l.hostname, zones).Some?
      ensures NameFor(l, zones) in once.rows
      ensures W.Held(t, OWNER_KIND, NameFor(l, zones)) ==> once.rows[NameFor(l, zones)] == t.rows[NameFor(l, zones)]
      ensures !W.Held(t, OWNER_KIND, NameFor(l, zones)) ==> Reaches(once.rows[NameFor(l, zones)], want, l.hostname)
    {
      var i := ItemFor(l, NameFor(l, zones).zone, NameFor(l, zones).name);
      var j :| 0 <= j < |items| && items[j] == i;
      var n := W.NameAfter(t, c, OWNER_KIND, items, Desired(want), wall, j);
      assert items[n] in items;
      var m :| m in want && From(items[n], m, zones);
      ItemIsFrom(l, zones);
      FromNamed(i, l, zones);
      FromNamed(items[n], m, zones);
      SameHostname(l, m, zones);
      if !W.Held(t, OWNER_KIND, NameFor(l, zones)) {
        SettledReaches(items[n], m, zones, once.rows[NameFor(l, zones)], want);
      }
    }
    forall l | l in want && Split(l.hostname, zones).Some?
      ensures W.Held(t, OWNER_KIND, NameFor(l, zones)) <==>
                NameFor(l, zones) in t.rows && t.rows[NameFor(l, zones)].ownerKind != "docker-label"
    {
      HeldMeans(t, NameFor(l, zones));
    }
    W.NothingUnwanted(t, c, OWNER_KIND, items, Desired(want), wall);
  }

  lemma HeldMeans(t: Table, k: Key)
    ensures W.Held(t, OWNER_KIND, k) <==> k in t.rows && t.rows[k].ownerKind != "docker-label"
  {
  }

  /** The row goes to a container of this hostname, and nowhere else. */
  ghost predicate Reaches(a: Allocation, want: seq<Labeled>, hostname: string) {
    exists m :: m in want && m.hostname == hostname && |a.spec.routes| == 1
                && a.spec.routes[0].backend == Docker(m.network, m.container, m.port)
  }

  lemma SettledReaches(i: W.Item, m: Labeled, zones: seq<Zone>, a: Allocation, want: seq<Labeled>)
    requires From(i, m, zones) && m in want && i.settled(a)
    ensures Reaches(a, want, m.hostname)
  {
    hide Split, NameFor;
  }

  /** The row that a container gets whose hostname has none: an active platform row of the watcher, with one
      default route. */
  lemma FreshContainer(t: Table, c: A.Config, l: Labeled, zone: string, name: string, wall: int)
    requires A.Configured(c) && W.Claimable(t, c, ItemFor(l, zone, name)) && Key(zone, name) !in t.rows
    ensures var u := W.Synced(t, c, OWNER_KIND, ItemFor(l, zone, name), wall);
            u.rows == t.rows[Key(zone, name) :=
              Allocation(t.nextId, zone, "", name, Fqdn(name, zone), Platform, FromManifest, "docker:" + l.container,
                         "docker-label", Active,
                         Spec([Route(0, Docker(l.network, l.container, l.port))], false, 0), None, map[], None, wall)]
  {
    hide W.Claimable, W.Synced;
    W.SyncedMeans(t, c, OWNER_KIND, ItemFor(l, zone, name), wall);
  }

  /** One pass over the containers that run now: every item is dealt with, in order, then our rows that no
      container wants go. Only rows of this owner kind change. */
  method Sync(c: W.Controller, want: seq<Labeled>, zones: seq<Zone>, wall: int)
    requires c.Valid() && c.ownerKind == OWNER_KIND
    modifies c.alloc.store`rows, c.alloc.store`nextId, c.alloc.store`events
    ensures c.Valid() && W.Confined(old(c.alloc.store.rows), c.alloc.store.rows, OWNER_KIND, Refs())
    ensures c.alloc.store.Tables()
            == W.Passed(old(c.alloc.store.Tables()), c.alloc.config, OWNER_KIND, ItemsOf(want, zones), Desired(want),
                        wall)
  {
    hide W.Confined, Split, W.SyncedAll, W.Kept;
    var items: seq<W.Item> := [];
    for i := 0 to |want|
      invariant items == ItemsOf(want[..i], zones)
      invariant c.Valid() && c.alloc.store.Tables() == old(c.alloc.store.Tables())
    {
      assert want[..i + 1][..i] == want[..i];
      var split := SplitByZones(want[i].hostname, zones);
      if split.Some? {
        items := items + [ItemFor(want[i], split.value.0, split.value.1)];
      }
    }
    assert want[..|want|] == want;
    ItemRefs(want, zones);
    W.PassConfined(c.alloc.store.Tables(), c.alloc.config, OWNER_KIND, items, Desired(want), wall, Refs());
    c.Sync(items, Desired(want), wall);
  }
}

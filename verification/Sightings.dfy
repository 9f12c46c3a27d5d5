/** From the routes of one complete list to the labels present in a zone, in list order. */
module Sightings {
  import opened Core
  import opened Routes
  import O = Observation

  /** A label seen, by which route, and whether the actuator wrote that route. */
  datatype Sight = Sight(name: string, owner: O.Owner, managed: bool)

  function SightOf(r: ObservedRoute, h: HostPattern, zone: string): seq<Sight> {
    var l := LabelOf(h, zone);
    if l == None then [] else [Sight(l.value, O.Owner(r.Ref(), r.kind, r.uid, r.service), r.managed)]
  }

  /** The sights of one route's first `n` hosts. */
  function HostSights(r: ObservedRoute, n: nat, zone: string): seq<Sight>
    requires n <= |r.hosts|
  {
    if n == 0 then [] else HostSights(r, n - 1, zone) + SightOf(r, r.hosts[n - 1], zone)
  }

  /** The sights of the first `n` routes. */
  function SightsOf(routes: seq<ObservedRoute>, n: nat, zone: string): seq<Sight>
    requires n <= |routes|
  {
    if n == 0 then [] else SightsOf(routes, n - 1, zone) + HostSights(routes[n - 1], |routes[n - 1].hosts|, zone)
  }

  /** A later unmanaged route replaces the owner noted; a managed one only fills a gap. */
  function NotePresent(m: map<string, O.Owner>, s: Sight): map<string, O.Owner> {
    if s.name !in m || !s.managed then m[s.name := s.owner] else m
  }

  /** The presence map the observer builds. */
  function PresentFrom(m: map<string, O.Owner>, sights: seq<Sight>): map<string, O.Owner> {
    if sights == [] then m
    else NotePresent(PresentFrom(m, sights[..|sights| - 1]), sights[|sights| - 1])
  }

  function Present(sights: seq<Sight>): map<string, O.Owner> {
    PresentFrom(map[], sights)
  }

  lemma PresentSnoc(m: map<string, O.Owner>, a: seq<Sight>, s: Sight)
    ensures PresentFrom(m, a + [s]) == NotePresent(PresentFrom(m, a), s)
  {
    assert (a + [s])[..|a|] == a;
  }

  lemma {:induction false} PresentConcat(m: map<string, O.Owner>, a: seq<Sight>, b: seq<Sight>)
    ensures PresentFrom(m, a + b) == PresentFrom(PresentFrom(m, a), b)
  {
    if b == [] {
      assert a + b == a;
    } else {
      assert (a + b)[..|a + b| - 1] == a + b[..|b| - 1];
      PresentConcat(m, a, b[..|b| - 1]);
    }
  }

  ghost predicate Served(routes: seq<ObservedRoute>, zone: string, name: string) {
    exists i, j :: 0 <= i < |routes| && 0 <= j < |routes[i].hosts| && LabelOf(routes[i].hosts[j], zone) == Some(name)
  }

  /** Nothing else decides presence: any route with a matching host counts, whoever owns it. */
  lemma {:induction false} PresentIffServed(routes: seq<ObservedRoute>, zone: string, name: string)
    ensures name in Present(SightsOf(routes, |routes|, zone)) <==> Served(routes, zone, name)
  {
    PresentKeys(SightsOf(routes, |routes|, zone), name);
    SightsServed(routes, |routes|, zone, name);
    if Served(routes, zone, name) {
      var i, j :| 0 <= i < |routes| && 0 <= j < |routes[i].hosts| && LabelOf(routes[i].hosts[j], zone) == Some(name);
      ServedSights(routes, |routes|, i, j, zone);
    }
  }

  lemma {:induction false} PresentKeys(sights: seq<Sight>, name: string)
    ensures name in Present(sights) <==> exists i :: 0 <= i < |sights| && sights[i].name == name
  {
    if sights != [] {
      var n := |sights| - 1;
      PresentKeys(sights[..n], name);
      if name in Present(sights) && name in Present(sights[..n]) {
        var i :| 0 <= i < n && sights[..n][i].name == name;
        assert sights[i].name == name;
      } else if name in Present(sights) {
        assert sights[n].name == name;
      }
      if exists i :: 0 <= i < |sights| && sights[i].name == name {
        var i :| 0 <= i < |sights| && sights[i].name == name;
        if i < n {
          assert sights[..n][i].name == name;
        }
      }
    }
  }

  lemma {:induction false} HostSightsServed(r: ObservedRoute, n: nat, zone: string, name: string)
    requires n <= |r.hosts|
    ensures forall i :: 0 <= i < |HostSights(r, n, zone)| && HostSights(r, n, zone)[i].name == name ==>
              exists j :: 0 <= j < n && LabelOf(r.hosts[j], zone) == Some(name)
  {
    if n > 0 {
      HostSightsServed(r, n - 1, zone, name);
      assert LabelOf(r.hosts[n - 1], zone) == Some(name) ==> exists j ::
               0 <= j < n && LabelOf(r.hosts[j], zone) == Some(name);
    }
  }

  lemma {:induction false} SightsServed(routes: seq<ObservedRoute>, n: nat, zone: string, name: string)
    requires n <= |routes|
    ensures forall i :: 0 <= i < |SightsOf(routes, n, zone)| && SightsOf(routes, n, zone)[i].name == name ==>
              Served(routes, zone, name)
  {
    if n > 0 {
      SightsServed(routes, n - 1, zone, name);
      HostSightsServed(routes[n - 1], |routes[n - 1].hosts|, zone, name);
      var before, here := SightsOf(routes, n - 1, zone), HostSights(routes[n - 1], |routes[n - 1].hosts|, zone);
      var all: seq<Sight> := before + here;
      forall i | 0 <= i < |all| && all[i].name == name
        ensures Served(routes, zone, name)
      {
        if i >= |before| {
          assert here[i - |before|].name == name;
        }
      }
    }
  }

  lemma {:induction false} ServedSights(routes: seq<ObservedRoute>, n: nat, i: nat, j: nat, zone: string)
    requires i < n <= |routes| && j < |routes[i].hosts| && LabelOf(routes[i].hosts[j], zone).Some?
    ensures exists s :: s in SightsOf(routes, n, zone) && s.name == LabelOf(routes[i].hosts[j], zone).value
  {
    if i == n - 1 {
      ServedHost(routes[i], |routes[i].hosts|, j, zone);
      var s :| s in HostSights(routes[i], |routes[i].hosts|, zone) && s.name == LabelOf(routes[i].hosts[j], zone).value;
      assert s in SightsOf(routes, n, zone);
    } else {
      ServedSights(routes, n - 1, i, j, zone);
      var s :| s in SightsOf(routes, n - 1, zone) && s.name == LabelOf(routes[i].hosts[j], zone).value;
      assert s in SightsOf(routes, n, zone);
    }
  }

  lemma {:induction false} ServedHost(r: ObservedRoute, n: nat, j: nat, zone: string)
    requires j < n <= |r.hosts| && LabelOf(r.hosts[j], zone).Some?
    ensures exists s :: s in HostSights(r, n, zone) && s.name == LabelOf(r.hosts[j], zone).value
  {
    if j == n - 1 {
      assert SightOf(r, r.hosts[j], zone)[0] in HostSights(r, n, zone);
    } else {
      ServedHost(r, n - 1, j, zone);
      var s :| s in HostSights(r, n - 1, zone) && s.name == LabelOf(r.hosts[j], zone).value;
      assert s in HostSights(r, n, zone);
    }
  }

  /** The owner noted for a label: its last unmanaged route, or its first route when all are managed. */
  lemma {:induction false} PresentOwner(sights: seq<Sight>, i: nat)
    requires i < |sights|
    requires if sights[i].managed
             then forall j :: 0 <= j < |sights| && sights[j].name == sights[i].name ==> sights[j].managed && i <= j
             else forall j :: i < j < |sights| && sights[j].name == sights[i].name ==> sights[j].managed
    ensures sights[i].name in Present(sights) && Present(sights)[sights[i].name] == sights[i].owner
  {
    var n := |sights| - 1;
    if i < n {
      PresentOwner(sights[..n], i);
    } else if sights[i].managed {
      PresentKeys(sights[..n], sights[i].name);
    }
  }

  /** A sight says who made it: its route, by reference, kind, identity and service, and whether the route is
      managed. */
  lemma {:induction false} SightsAre(routes: seq<ObservedRoute>, n: nat, zone: string)
    requires n <= |routes|
    ensures forall s :: s in SightsOf(routes, n, zone) ==>
              exists r, h :: r in routes && h in r.hosts && LabelOf(h, zone) == Some(s.name)
                             && s.owner == O.Owner(r.namespace + "/" + r.name, r.kind, r.uid, r.service)
                             && s.managed == r.managed
  {
    hide LabelOf;
    if n > 0 {
      SightsAre(routes, n - 1, zone);
      HostSightsAre(routes[n - 1], |routes[n - 1].hosts|, zone);
    }
  }

  lemma {:induction false} HostSightsAre(r: ObservedRoute, n: nat, zone: string)
    requires n <= |r.hosts|
    ensures forall s :: s in HostSights(r, n, zone) ==>
              exists h :: h in r.hosts && LabelOf(h, zone) == Some(s.name)
                          && s.owner == O.Owner(r.namespace + "/" + r.name, r.kind, r.uid, r.service)
                          && s.managed == r.managed
  {
    hide LabelOf;
    if n > 0 {
      HostSightsAre(r, n - 1, zone);
      assert r.hosts[n - 1] in r.hosts;
    }
  }
}

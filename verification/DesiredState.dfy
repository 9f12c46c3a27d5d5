/** The desired map of a writer: what each active row of its zones wants, by key. The three writers share this loop. */
module DesiredState {
  import opened Core
  import Registry

  datatype Want<+S> = Want(key: string, spec: S)

  /** Active rows of the configured zones. */
  predicate InScope(a: Allocation, zones: seq<string>) {
    exists zone <- zones :: Lists(Filter(NonEmpty(zone), Some(Active), None, false), a)
  }

  /** Active rows of a zone that is listed; an empty zone stands for all. */
  lemma InScopeMeans(a: Allocation, zones: seq<string>)
    ensures InScope(a, zones) <==>
              a.state == Active && exists i :: 0 <= i < |zones| && (zones[i] == "" || zones[i] == a.zone)
  {
    if i :| 0 <= i < |zones| && (zones[i] == "" || zones[i] == a.zone) {
      assert zones[i] in zones;
    }
  }

  /** The desired map has an entry for each row in scope that wants one, and each entry is some such row's. */
  ghost predicate Wanted<S(!new)>(rows: map<Key, Allocation>, zones: seq<string>, want: Allocation -> Option<Want<S>>,
                                  desired: map<string, S>) {
    && (forall k <- rows :: InScope(rows[k], zones) && want(rows[k]).Some? ==> want(rows[k]).value.key in desired)
    && (forall key <- desired ::
          exists k <- rows :: InScope(rows[k], zones) && want(rows[k]) == Some(Want(key, desired[key])))
  }

  /** A row whose key no other row wants gets its own entry. */
  lemma WantedAlone<S(!new)>(rows: map<Key, Allocation>, zones: seq<string>, want: Allocation -> Option<Want<S>>,
                             desired: map<string, S>, k: Key)
    requires Wanted(rows, zones, want, desired) && k in rows && InScope(rows[k], zones) && want(rows[k]).Some?
    requires forall l <- rows ::
               l != k && InScope(rows[l], zones) && want(rows[l]).Some? ==>
                 want(rows[l]).value.key != want(rows[k]).value.key
    ensures want(rows[k]).value.key in desired && desired[want(rows[k]).value.key] == want(rows[k]).value.spec
  {
    hide InScope;
    var key := want(rows[k]).value.key;
    var l :| l in rows && InScope(rows[l], zones) && want(rows[l]) == Some(Want(key, desired[key]));
  }

  lemma WantedStep<S(!new)>(rows: map<Key, Allocation>, zones: seq<string>, zone: string,
                            want: Allocation -> Option<Want<S>>,
                            before: map<string, S>, allocs: seq<Allocation>, desired: map<string, S>)
    requires Keyed(rows) && Wanted(rows, zones, want, before)
    requires forall a ::
               a in allocs <==>
                 && KeyOf(a) in rows && rows[KeyOf(a)] == a
                 && Lists(Filter(NonEmpty(zone), Some(Active), None, false), a)
    requires Added(want, before, allocs, |allocs|, desired)
    ensures Wanted(rows, zones + [zone], want, desired)
  {
    hide Lists;
    forall a
      ensures InScope(a, zones + [zone])
              <==> InScope(a, zones) || Lists(Filter(NonEmpty(zone), Some(Active), None, false), a)
    {
      assert forall z :: z in zones + [zone] <==> z in zones || z == zone;
    }
    forall k | k in rows && InScope(rows[k], zones + [zone]) && want(rows[k]).Some?
      ensures want(rows[k]).value.key in desired
    {
      if !InScope(rows[k], zones) {
        assert rows[k] in allocs;
      }
    }
    forall key | key in desired
      ensures exists k <- rows :: InScope(rows[k], zones + [zone]) && want(rows[k]) == Some(Want(key, desired[key]))
    {
      if key in before && desired[key] == before[key] {
        var k :| k in rows && InScope(rows[k], zones) && want(rows[k]) == Some(Want(key, before[key]));
      } else {
        var j :| 0 <= j < |allocs| && want(allocs[j]) == Some(Want(key, desired[key]));
        assert allocs[j] in allocs;
        assert rows[KeyOf(allocs[j])] == allocs[j];
      }
    }
  }

  /** The map once the wants of the first `n` rows have been added. */
  ghost predicate Added<S(!new)>(want: Allocation -> Option<Want<S>>, before: map<string, S>, allocs: seq<Allocation>,
                                   n: nat, desired: map<string, S>)
    requires n <= |allocs|
  {
    && (forall key :: key in before ==> key in desired)
    && (forall j :: 0 <= j < n && want(allocs[j]).Some? ==> want(allocs[j]).value.key in desired)
    && (forall key <- desired ::
          (key in before && desired[key] == before[key])
          || exists j :: 0 <= j < n && want(allocs[j]) == Some(Want(key, desired[key])))
  }

  method BuildDesired<S(!new)>(store: Registry.Store, zones: seq<string>, want: Allocation -> Option<Want<S>>)
    returns (desired: map<string, S>)
    requires Keyed(store.rows)
    ensures Wanted(store.rows, zones, want, desired)
  {
    desired := map[];
    for i := 0 to |zones|
      invariant Wanted(store.rows, zones[..i], want, desired)
    {
      var allocs := store.ListAllocations(Filter(NonEmpty(zones[i]), Some(Active), None, false));
      ghost var before := desired;
      for j := 0 to |allocs|
        invariant Added(want, before, allocs, j, desired)
      {
        var w := want(allocs[j]);
        if w.Some? {
          desired := desired[w.value.key := w.value.spec];
        }
      }
      WantedStep(store.rows, zones[..i], zones[i], want, before, allocs, desired);
      assert zones[..i] + [zones[i]] == zones[..i + 1];
    }
    assert zones[..|zones|] == zones;
  }
}

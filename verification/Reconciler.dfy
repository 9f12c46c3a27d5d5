/** One pass of a cluster or DNS reconciler: list the marked objects, delete, repair and create towards a desired map.
    The Traefik, Gateway API and Cloudflare writers share it. */
module Reconciler {
  /** An object at the provider. Only marked ones are listed; `spec` is what the drift check compares. */
  datatype Obj<S> = Obj(name: string, marked: bool, spec: S)

  /** A write of a pass, each attempted at most once: by object id, or for a create by name. */
  datatype Write = Delete(id: string) | Repair(id: string) | Create(name: string)

  /** What a pass runs with: the wanted specs by name, the drift check, the id a new object gets, and which writes
      fail. */
  datatype Pass<!S> = Pass(desired: map<string, S>, same: (S, S) -> bool, ids: string -> string, fails: Write -> bool)

  // ---- discrepancies

  /** A difference between the provider and the desired map, and the write that would settle it. */
  predicate Stray<S>(objs: map<string, Obj<S>>, p: Pass<S>, id: string) {
    id in objs && objs[id].marked && objs[id].name !in p.desired
  }

  predicate Drifted<S>(objs: map<string, Obj<S>>, p: Pass<S>, id: string) {
    id in objs && objs[id].marked && objs[id].name in p.desired && !p.same(objs[id].spec, p.desired[objs[id].name])
  }

  ghost predicate Missing<S>(objs: map<string, Obj<S>>, p: Pass<S>, name: string) {
    name in p.desired && forall id <- objs :: objs[id].marked ==> objs[id].name != name
  }

  ghost predicate Open<S(!new)>(objs: map<string, Obj<S>>, p: Pass<S>, w: Write) {
    match w
    case Delete(id) => Stray(objs, p, id)
    case Repair(id) => Drifted(objs, p, id)
    case Create(name) => Missing(objs, p, name)
  }

  // ---- the pass

  /** The objects after the deletes and repairs. */
  function Repaired<S>(objs: map<string, Obj<S>>, p: Pass<S>): map<string, Obj<S>> {
    map id | id in objs && !(Stray(objs, p, id) && !p.fails(Delete(id))) ::
      if Drifted(objs, p, id) && !p.fails(Repair(id)) then Obj(objs[id].name, true, p.desired[objs[id].name])
      else objs[id]
  }

  /** A create goes through unless it fails or its id is in use. */
  ghost predicate Creates<S(!new)>(objs: map<string, Obj<S>>, p: Pass<S>, name: string) {
    Missing(objs, p, name) && !p.fails(Create(name)) && p.ids(name) !in Repaired(objs, p)
  }

  /** New objects get ids of their own. */
  ghost predicate OwnIds<S(!new)>(p: Pass<S>) {
    forall a, b :: p.ids(a) == p.ids(b) ==> a == b
  }

  /** The objects after a pass. */
  ghost predicate Passed<S(!new)>(before: map<string, Obj<S>>, p: Pass<S>, after: map<string, Obj<S>>) {
    && (forall id :: id in Repaired(before, p) ==> id in after && after[id] == Repaired(before, p)[id])
    && (forall name ::
          Creates(before, p, name) ==> p.ids(name) in after && after[p.ids(name)] == Obj(name, true, p.desired[name]))
    && (forall id ::
          id in after && id !in Repaired(before, p) ==> exists name :: Creates(before, p, name) && p.ids(name) == id)
  }

  ghost predicate Reflexive<S(!new)>(p: Pass<S>) {
    forall s :: p.same(s, s)
  }

  /** Unmarked objects are neither changed nor made. */
  lemma UnmarkedUntouched<S(!new)>(before: map<string, Obj<S>>, p: Pass<S>, after: map<string, Obj<S>>, id: string)
    requires Passed(before, p, after)
    ensures id in before && !before[id].marked ==> id in after && after[id] == before[id]
    ensures id in after && !after[id].marked ==> id in before && before[id] == after[id]
  {
  }

  /** Discrepancies never grow: one is open after a pass exactly when it was open before, and its write failed or, for a
      create, found its id in use. */
  lemma OpenAfter<S(!new)>(before: map<string, Obj<S>>, p: Pass<S>, after: map<string, Obj<S>>, w: Write)
    requires Passed(before, p, after) && Reflexive(p) && OwnIds(p)
    ensures Open(after, p, w) <==>
              Open(before, p, w) && (p.fails(w) || (w.Create? && p.ids(w.name) in Repaired(before, p)))
  {
    match w
    case Delete(id) => OpenDelete(before, p, after, id);
    case Repair(id) => OpenDelete(before, p, after, id);
    case Create(name) => OpenCreate(before, p, after, name);
  }

  lemma OpenDelete<S(!new)>(before: map<string, Obj<S>>, p: Pass<S>, after: map<string, Obj<S>>, id: string)
    requires Passed(before, p, after) && Reflexive(p) && OwnIds(p)
    ensures Stray(after, p, id) <==> Stray(before, p, id) && p.fails(Delete(id))
    ensures Drifted(after, p, id) <==> Drifted(before, p, id) && p.fails(Repair(id))
  {
    if id in after && id !in Repaired(before, p) {
      var name :| Creates(before, p, name) && p.ids(name) == id;
    }
  }

  lemma OpenCreate<S(!new)>(before: map<string, Obj<S>>, p: Pass<S>, after: map<string, Obj<S>>, name: string)
    requires Passed(before, p, after)
    ensures Missing(after, p, name) <==>
              Missing(before, p, name) && (p.fails(Create(name)) || p.ids(name) in Repaired(before, p))
  {
    if Missing(before, p, name) {
      forall id | id in after && id !in Repaired(before, p) && after[id].name == name
        ensures Creates(before, p, name)
      {
        var other :| Creates(before, p, other) && p.ids(other) == id;
      }
    } else if name in p.desired {
      var id :| id in before && before[id].marked && before[id].name == name;
      assert id in Repaired(before, p) && Repaired(before, p)[id].marked && Repaired(before, p)[id].name == name;
      assert after[id].name == name && after[id].marked;
    }
  }

  /** A pass whose writes all go through settles everything but names whose id an unmarked object holds, or, at a
      provider that picks ids, that another object got. */
  lemma Converges<S(!new)>(before: map<string, Obj<S>>, p: Pass<S>, after: map<string, Obj<S>>)
    requires Passed(before, p, after) && Reflexive(p) && OwnIds(p) && forall w :: !p.fails(w)
    ensures forall w ::
              Open(after, p, w) ==> w.Create? && Missing(before, p, w.name) && p.ids(w.name) in Repaired(before, p)
    ensures forall id <- after ::
              after[id].marked ==> after[id].name in p.desired && p.same(after[id].spec, p.desired[after[id].name])
    ensures forall name <- p.desired ::
              (exists id :: id in after && after[id].marked && after[id].name == name)
              || p.ids(name) in Repaired(before, p)
  {
    forall w | Open(after, p, w)
      ensures w.Create? && Missing(before, p, w.name) && p.ids(w.name) in Repaired(before, p)
    {
      OpenAfter(before, p, after, w);
    }
    forall id | id in after && after[id].marked
      ensures after[id].name in p.desired && p.same(after[id].spec, p.desired[after[id].name])
    {
      OpenDelete(before, p, after, id);
      assert !p.fails(Delete(id)) && !p.fails(Repair(id));
    }
    forall name | name in p.desired && Missing(after, p, name)
      ensures p.ids(name) in Repaired(before, p)
    {
      OpenCreate(before, p, after, name);
      assert !p.fails(Create(name));
    }
  }

  /** A pass changes nothing exactly when every open discrepancy's write fails or is blocked. So after a pass that
      settled everything it could, the next one writes nothing that goes through. */
  lemma QuietIff<S(!new)>(before: map<string, Obj<S>>, p: Pass<S>, after: map<string, Obj<S>>)
    requires Passed(before, p, after) && Reflexive(p) && OwnIds(p)
    ensures after == before <==>
              forall w :: Open(before, p, w) ==> p.fails(w) || (w.Create? && p.ids(w.name) in Repaired(before, p))
  {
    if after == before {
      forall w | Open(before, p, w)
        ensures p.fails(w) || (w.Create? && p.ids(w.name) in Repaired(before, p))
      {
        OpenAfter(before, p, after, w);
      }
    }
    if forall w :: Open(before, p, w) ==> p.fails(w) || (w.Create? && p.ids(w.name) in Repaired(before, p)) {
      forall id | id in before
        ensures id in Repaired(before, p) && Repaired(before, p)[id] == before[id]
      {
        assert Open(before, p, Delete(id)) <==> Stray(before, p, id);
        assert Open(before, p, Repair(id)) <==> Drifted(before, p, id);
      }
      forall name
        ensures !Creates(before, p, name)
      {
        assert Open(before, p, Create(name)) <==> Missing(before, p, name);
      }
      assert after == before;
    }
  }

  /** A later pass towards the same desired map. */
  ghost predicate SameGoal<S(!new)>(p: Pass<S>, q: Pass<S>) {
    q.desired == p.desired && q.same == p.same
  }

  /** In a cluster an object's id is its name. */
  ghost predicate Named<S(!new)>(objs: map<string, Obj<S>>, p: Pass<S>) {
    (forall id <- objs :: objs[id].name == id) && forall name :: p.ids(name) == name
  }

  lemma ClusterMatches<S(!new)>(before: map<string, Obj<S>>, p: Pass<S>, after: map<string, Obj<S>>)
    requires Passed(before, p, after) && Reflexive(p) && Named(before, p) && forall w :: !p.fails(w)
    ensures forall name <- p.desired ::
              name in after && (if name in before && !before[name].marked then after[name] == before[name]
                                else after[name].marked && p.same(after[name].spec, p.desired[name]))
    ensures forall id <- after :: after[id].marked ==> id in p.desired
  {
    hide Reflexive;
    NamedAfter(before, p, after);
    Converges(before, p, after);
    forall name | name in p.desired
      ensures name in after
    {
      if p.ids(name) in Repaired(before, p) {
        assert name in after;
      }
    }
  }

  /** What an earlier pass could not settle, for want of the name, a later one cannot settle either. */
  lemma ClusterQuiet<S(!new)>(before: map<string, Obj<S>>, p: Pass<S>, after: map<string, Obj<S>>, q: Pass<S>,
                              later: map<string, Obj<S>>)
    requires Passed(before, p, after) && Reflexive(p) && Named(before, p) && forall w :: !p.fails(w)
    requires Passed(after, q, later) && SameGoal(p, q) && forall name :: q.ids(name) == name
    ensures later == after
  {
    hide Passed;
    ClusterMatches(before, p, after);
    Converges(before, p, after);
    NamedAfter(before, p, after);
    forall w | Open(after, q, w)
      ensures w.Create? && q.ids(w.name) in Repaired(after, q)
    {
      assert Open(after, p, w);
      assert w.name in after && !after[w.name].marked;
    }
    QuietIff(after, q, later);
  }

  /** In a cluster, after a pass without failures the managed objects are the desired map, but for names that unmarked
      objects hold; and every later pass, failing or not, changes nothing. */
  lemma ClusterSettles<S(!new)>(before: map<string, Obj<S>>, p: Pass<S>, after: map<string, Obj<S>>, q: Pass<S>,
                                later: map<string, Obj<S>>)
    requires Passed(before, p, after) && Reflexive(p) && Named(before, p) && forall w :: !p.fails(w)
    requires Passed(after, q, later) && SameGoal(p, q) && forall name :: q.ids(name) == name
    ensures forall name <- p.desired ::
              name in after && (if name in before && !before[name].marked then after[name] == before[name]
                                else after[name].marked && p.same(after[name].spec, p.desired[name]))
    ensures forall id <- after :: after[id].marked ==> id in p.desired
    ensures later == after && Named(after, q)
  {
    hide Passed, Reflexive;
    ClusterMatches(before, p, after);
    ClusterQuiet(before, p, after, q, later);
    NamedAfter(before, p, after);
  }

  lemma NamedAfter<S(!new)>(before: map<string, Obj<S>>, p: Pass<S>, after: map<string, Obj<S>>)
    requires Passed(before, p, after) && Named(before, p)
    ensures forall id <- after :: after[id].name == id
  {
    forall id | id in after && id !in Repaired(before, p)
      ensures after[id].name == id
    {
      var name :| Creates(before, p, name) && p.ids(name) == id;
    }
  }

  /** Where the provider picks fresh ids, nothing is blocked: a pass without failures settles everything. */
  lemma ZoneSettles<S(!new)>(before: map<string, Obj<S>>, p: Pass<S>, after: map<string, Obj<S>>, q: Pass<S>,
                             later: map<string, Obj<S>>)
    requires Passed(before, p, after) && Reflexive(p) && OwnIds(p) && forall w :: !p.fails(w)
    requires forall name :: p.ids(name) !in before
    requires Passed(after, q, later) && SameGoal(p, q) && OwnIds(q)
    ensures forall w :: !Open(after, p, w)
    ensures later == after
  {
    Converges(before, p, after);
    QuietIff(after, q, later);
    forall w
      ensures Open(after, q, w) ==> Open(after, p, w)
    {
    }
  }

  /** The objects once those in `done` have been dealt with. */
  function Partly<S>(objs: map<string, Obj<S>>, p: Pass<S>, done: set<string>): map<string, Obj<S>> {
    map id | id in objs && !(id in done && Stray(objs, p, id) && !p.fails(Delete(id))) ::
      if id in done && Drifted(objs, p, id) && !p.fails(Repair(id))
        then Obj(objs[id].name, true, p.desired[objs[id].name])
      else objs[id]
  }

  lemma PartlyStep<S>(objs: map<string, Obj<S>>, p: Pass<S>, done: set<string>, id: string)
    requires id in objs && objs[id].marked && id !in done
    ensures Partly(objs, p, done + {id}) ==
              if objs[id].name !in p.desired then
                if p.fails(Delete(id)) then Partly(objs, p, done) else Partly(objs, p, done) - {id}
                else if !p.same(objs[id].spec, p.desired[objs[id].name]) && !p.fails(Repair(id)) then
                Partly(objs, p, done)[id := Obj(objs[id].name, true, p.desired[objs[id].name])]
              else Partly(objs, p, done)
  {
    var now, next := Partly(objs, p, done), Partly(objs, p, done + {id});
    assert forall i :: i != id ==> (i in next <==> i in now) && (i in now ==> next[i] == now[i]);
    assert id in now && now[id] == objs[id];
  }

  lemma PartlyAll<S>(objs: map<string, Obj<S>>, p: Pass<S>, done: set<string>)
    requires done == set id | id in objs && objs[id].marked
    ensures Partly(objs, p, done) == Repaired(objs, p)
  {
  }

  lemma PartlyNone<S>(objs: map<string, Obj<S>>, p: Pass<S>)
    ensures Partly(objs, p, {}) == objs
  {
  }

  /** The provider. */
  class Cluster<S(!new)> {
    var objects: map<string, Obj<S>>

    constructor (objects: map<string, Obj<S>>)
      ensures this.objects == objects
    {
      this.objects := objects;
    }

    /** The first loop: listed objects are deleted or repaired. `seen` are their names. */
    method RepairListed(p: Pass<S>) returns (seen: set<string>)
      modifies this
      ensures objects == Repaired(old(objects), p)
      ensures forall name ::
                name in seen <==> exists id ::
                  id in old(objects) && old(objects)[id].marked && old(objects)[id].name == name
    {
      hide Partly, Repaired;
      seen := {};
      var before := objects;
      PartlyNone(before, p);
      var listed := set id | id in before && before[id].marked;
      ghost var done: set<string> := {};
      while listed != {}
        invariant done !! listed && done + listed == set id | id in before && before[id].marked
        invariant objects == Partly(before, p, done)
        invariant forall name :: name in seen <==> exists id :: id in done && before[id].name == name
        decreases listed
      {
        var id :| id in listed;
        var ex := before[id];
        PartlyStep(before, p, done, id);
        listed, done := listed - {id}, done + {id};
        seen := seen + {ex.name};
        if ex.name !in p.desired {
          if !p.fails(Delete(id)) {
            objects := objects - {id};
          }
        } else if !p.same(ex.spec, p.desired[ex.name]) {
          if !p.fails(Repair(id)) {
            objects := objects[id := Obj(ex.name, true, p.desired[ex.name])];
          }
        }
      }
      PartlyAll(before, p, done);
    }

    /** The second loop: names not seen are created. */
    method CreateMissing(p: Pass<S>, seen: set<string>)
      requires OwnIds(p)
      modifies this
      ensures forall id :: id in old(objects) ==> id in objects && objects[id] == old(objects)[id]
      ensures forall name ::
                name in p.desired && name !in seen && !p.fails(Create(name)) && p.ids(name) !in old(objects) ==>
                p.ids(name) in objects && objects[p.ids(name)] == Obj(name, true, p.desired[name])
      ensures forall id :: id in objects && id !in old(objects) ==>
                exists name :: name in p.desired && name !in seen && !p.fails(Create(name)) && p.ids(name) == id
    {
      var before := objects;
      var todo := p.desired.Keys;
      while todo != {}
        invariant todo <= p.desired.Keys
        invariant forall id :: id in before ==> id in objects && objects[id] == before[id]
        invariant forall name ::
                    name in p.desired && name !in todo && name !in seen && !p.fails(Create(name))
                    && p.ids(name) !in before ==>
                    p.ids(name) in objects && objects[p.ids(name)] == Obj(name, true, p.desired[name])
        invariant forall id :: id in objects && id !in before ==>
                    exists name ::
                             name in p.desired && name !in todo && name !in seen && !p.fails(Create(name))
                             && p.ids(name) == id
        decreases todo
      {
        var name :| name in todo;
        todo := todo - {name};
        if name in seen {
          continue;
        }
        if !p.fails(Create(name)) && p.ids(name) !in objects {
          objects := objects[p.ids(name) := Obj(name, true, p.desired[name])];
        }
      }
    }

    method Reconcile(p: Pass<S>)
      requires OwnIds(p)
      modifies this
      ensures Passed(old(objects), p, objects)
    {
      ghost var before := objects;
      var seen := RepairListed(p);
      forall name
        ensures Missing(before, p, name) <==> name in p.desired && name !in seen
      {
      }
      CreateMissing(p, seen);
    }
  }
}

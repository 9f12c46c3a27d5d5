/** The port tables, and the claim that runs against them while others insert and release rows and calls may fail. */
module Ports {
  import opened Core
  import P = PortProtocol

  /** Unique key of a grant; the value is the pool's other unique key. */
  datatype Slot = Slot(pool: string, owner: string)
  datatype Grant = Grant(project: string, value: int, foreign: bool)

  /** What others do to the table: an insert, or a release. */
  datatype Edit = Insert(owner: string, value: int) | Release(owner: string)

  /** One database call of a claim: the edits that come before it, and whether it fails. */
  datatype Turn = Turn(edits: seq<Edit>, fails: bool)

  const QUIET := Turn([], false)

  datatype Answer = Granted(value: int, foreign: bool) | NoPool | Exhausted | Failed

  function TurnAt(script: seq<Turn>, i: nat): Turn {
    if i < |script| then script[i] else QUIET
  }

  /** Only inserts, and no failures. */
  predicate CalmTurn(turn: Turn) {
    !turn.fails && forall i :: 0 <= i < |turn.edits| ==> turn.edits[i].Insert?
  }

  predicate Calm(script: seq<Turn>) {
    forall i :: 0 <= i < |script| ==> CalmTurn(script[i])
  }

  predicate TurnOk(p: P.Pool, turn: Turn) {
    forall i :: 0 <= i < |turn.edits| && turn.edits[i].Insert? ==> P.Grantable(p, turn.edits[i].value)
  }

  /** Others, too, insert grantable values only. */
  predicate ScriptOk(p: P.Pool, script: seq<Turn>) {
    forall i :: 0 <= i < |script| ==> TurnOk(p, script[i])
  }

  /** One pool's rows as the protocol sees them. */
  function InPool(grants: map<Slot, Grant>, pool: string): map<string, int> {
    map s | s in grants && s.pool == pool :: s.owner := grants[s].value
  }

  predicate Used(grants: map<Slot, Grant>, pool: string, value: int) {
    exists s <- grants :: s.pool == pool && grants[s].value == value
  }

  lemma UsedIsValue(grants: map<Slot, Grant>, pool: string, value: int)
    ensures Used(grants, pool, value) <==> value in InPool(grants, pool).Values
  {
    var m := InPool(grants, pool);
    if Used(grants, pool, value) {
      var s :| s in grants && s.pool == pool && grants[s].value == value;
      assert m[s.owner] == value;
    }
    if value in m.Values {
      var o :| o in m && m[o] == value;
      assert Slot(pool, o) in grants && grants[Slot(pool, o)].value == value;
    }
  }

  lemma UsedAre(grants: map<Slot, Grant>, pool: string)
    ensures forall v: int :: v in InPool(grants, pool).Values <==> Used(grants, pool, v)
  {
    forall v: int
      ensures v in InPool(grants, pool).Values <==> Used(grants, pool, v)
    {
      UsedIsValue(grants, pool, v);
    }
  }

  lemma InPoolUpdate(grants: map<Slot, Grant>, pool: string, owner: string, g: Grant)
    ensures InPool(grants[Slot(pool, owner) := g], pool) == InPool(grants, pool)[owner := g.value]
    ensures owner in InPool(grants, pool) <==> Slot(pool, owner) in grants
    ensures owner in InPool(grants, pool) ==> InPool(grants, pool)[owner] == grants[Slot(pool, owner)].value
  {
    var before, after := InPool(grants, pool), InPool(grants[Slot(pool, owner) := g], pool);
    assert forall o :: o in after <==> Slot(pool, o) in grants[Slot(pool, owner) := g];
    assert forall o :: o in before <==> Slot(pool, o) in grants;
  }

  lemma PickSkip(p: P.Pool, used: set<int>, free: int -> bool, v: int)
    ensures P.Pick(p, used, free, v)
            == if v > p.last then None
               else if v !in p.avoid && v !in used && free(v) then Some(v) else P.Pick(p, used, free, v + 1)
  {
  }

  /** A bind test that can be switched off. */
  function Free(skipBind: bool, bind: int -> bool): int -> bool {
    v => skipBind || bind(v)
  }

  // ---- the claim as a run of the protocol

  /** What a claim leaves alone: rows of other pools, and, when others only insert, every row's value. */
  ghost predicate Since(w: View, before: map<Slot, Grant>, after: map<Slot, Grant>) {
    Beside(before, after, w.pool) && (w.calm ==> Grown(before, after))
  }

  lemma SinceTrans(w: View, a: map<Slot, Grant>, b: map<Slot, Grant>, c: map<Slot, Grant>)
    requires Since(w, a, b) && Since(w, b, c)
    ensures Since(w, a, c)
  {
  }

  lemma SinceSelf(w: View, a: map<Slot, Grant>)
    ensures Since(w, a, a)
  {
  }

  lemma SinceSlot(w: View, before: map<Slot, Grant>, after: map<Slot, Grant>)
    requires Since(w, before, after) && w.calm && Slot(w.pool, w.owner) in before
    ensures Slot(w.pool, w.owner) in after
  {
  }

  /** The owner's own row appears, or is marked. */
  lemma SinceOwn(w: View, before: map<Slot, Grant>, row: Grant)
    requires Slot(w.pool, w.owner) in before ==> before[Slot(w.pool, w.owner)].value == row.value
    ensures Since(w, before, before[Slot(w.pool, w.owner) := row])
  {
  }

  function ResultOf(a: Answer): P.Result {
    match a
    case Granted(v, _) => P.Granted(v)
    case Failed => P.Result.Failed
    case _ => P.Exhausted
  }

  /** A claim under way: its pool and owner, its id and the state in which it began, its bind test, and whether others
      only insert and no call fails. */
  datatype View = View(p: P.Pool, pool: string, owner: string, id: nat, s: P.State, free: int -> bool, calm: bool)

  /** The steps `h` lead the protocol from where the claim began to the table as it is, with the claim in this phase. */
  ghost predicate Stands(w: View, h: seq<P.Step>, grants: map<Slot, Grant>, phase: P.Phase) {
    var t := P.RunFrom(w.p, w.s, h);
    && t.grants == InPool(grants, w.pool) && w.id in t.claims && Mine(w, t, t.claims[w.id], phase)
  }

  ghost predicate Mine(w: View, t: P.State, c: P.Claim, phase: P.Phase) {
    && c.owner == w.owner && c.phase == phase && c.since == w.s.releases
    && (forall v :: v in c.squatted ==> !w.free(v))
    && (w.calm ==> c.skipped == {} && t.releases == w.s.releases)
  }

  /** The state of a pool that nobody claims from. */
  function Idle(grants: map<Slot, Grant>, pool: string): P.State {
    P.State(InPool(grants, pool), map[], map[], 0)
  }

  lemma Begins(w: View, grants: map<Slot, Grant>)
    requires w.s.grants == InPool(grants, w.pool) && w.id !in w.s.claims
    ensures Stands(w, [P.Begin(w.id, w.owner)], grants, P.Sticky)
  {
    P.RunSnoc(w.p, w.s, [], P.Begin(w.id, w.owner));
    assert [] + [P.Begin(w.id, w.owner)] == [P.Begin(w.id, w.owner)];
  }

  /** One action of the claim. */
  lemma Acts(w: View, h: seq<P.Step>, grants: map<Slot, Grant>, phase: P.Phase, free: bool, after: map<Slot, Grant>,
             next: P.Phase) returns (g: seq<P.Step>)
    requires Stands(w, h, grants, phase) && (phase.Walk? ==> free == w.free(phase.at))
    requires forall c: P.Claim, t: P.State ::
               t.grants == InPool(grants, w.pool) && c.owner == w.owner && c.phase == phase ==>
                 P.Advance(w.p, t, c, free).0 == InPool(after, w.pool) && P.Advance(w.p, t, c, free).1.phase == next
    ensures Stands(w, g, after, next)
  {
    hide P.Advance, InPool;
    var t := P.RunFrom(w.p, w.s, h);
    g := h + [P.Act(w.id, free)];
    P.RunSnoc(w.p, w.s, h, P.Act(w.id, free));
    AdvanceKeeps(w.p, t, t.claims[w.id], free);
  }

  lemma AdvanceKeeps(p: P.Pool, s: P.State, c: P.Claim, free: bool)
    ensures var d := P.Advance(p, s, c, free).1;
            && d.owner == c.owner && d.since == c.since && d.skipped == c.skipped
            && d.squatted == if c.phase.Walk? && !free && d.phase == P.Walk(c.phase.at + 1, c.phase.used)
                                && c.phase.at !in p.avoid && c.phase.at !in c.phase.used
                             then c.squatted + {c.phase.at} else c.squatted
  {
  }

  /** A call of the claim fails. */
  lemma Fails(w: View, h: seq<P.Step>, grants: map<Slot, Grant>, phase: P.Phase, next: P.Phase) returns (g: seq<P.Step>)
    requires Stands(w, h, grants, phase) && !w.calm
    requires match phase
             case Walk(v, used) => v <= w.p.last && v !in w.p.avoid && v !in used && next == P.Done(P.Result.Failed)
             case Recheck(v, used) => next == P.Walk(v + 1, used)
             case Done(_) => false
             case _ => next == P.Done(P.Result.Failed)
    ensures Stands(w, g, grants, next)
  {
    hide P.Fail, InPool;
    var t := P.RunFrom(w.p, w.s, h);
    g := h + [P.Error(w.id)];
    P.RunSnoc(w.p, w.s, h, P.Error(w.id));
    FailKeeps(w.p, t, t.claims[w.id]);
  }

  lemma FailKeeps(p: P.Pool, s: P.State, c: P.Claim)
    requires !c.phase.Done? && (c.phase.Walk? ==> P.Tries(p, c))
    ensures var d := P.Fail(p, s, c);
            && d.owner == c.owner && d.since == c.since && d.squatted == c.squatted
            && d.phase == if c.phase.Recheck? then P.Walk(c.phase.at + 1, c.phase.used) else P.Done(P.Result.Failed)
  {
  }

  /** Steps of others: the claim stays where it is. */
  lemma Others(w: View, h: seq<P.Step>, grants: map<Slot, Grant>, phase: P.Phase, g: seq<P.Step>, after: map<Slot,
               Grant>)
    requires Stands(w, h, grants, phase)
    requires var t, u := P.RunFrom(w.p, w.s, h), P.RunFrom(w.p, P.RunFrom(w.p, w.s, h), g);
             && u.grants == InPool(after, w.pool) && (w.calm ==> u.releases == t.releases)
             && w.id in u.claims && u.claims[w.id] == t.claims[w.id]
    ensures Stands(w, h + g, after, phase)
  {
    P.RunConcat(w.p, w.s, h, g);
  }

  lemma InPoolRelease(grants: map<Slot, Grant>, pool: string, owner: string)
    ensures InPool(grants - {Slot(pool, owner)}, pool) == InPool(grants, pool) - {owner}
  {
    var before, after := InPool(grants, pool), InPool(grants - {Slot(pool, owner)}, pool);
    assert forall o :: o in after <==> Slot(pool, o) in grants - {Slot(pool, owner)};
    assert forall o :: o in before <==> Slot(pool, o) in grants;
  }

  /** A row that another process inserts. */
  lemma InsertedBy(w: View, h: seq<P.Step>, grants: map<Slot, Grant>, phase: P.Phase, owner: string, v: int)
    returns (g: seq<P.Step>)
    requires Stands(w, h, grants, phase) && P.Grantable(w.p, v)
    requires Slot(w.pool, owner) !in grants && !Used(grants, w.pool, v)
    ensures Stands(w, g, grants[Slot(w.pool, owner) := Grant("", v, false)], phase)
  {
    hide Mine, P.Grantable;
    UsedIsValue(grants, w.pool, v);
    InPoolUpdate(grants, w.pool, owner, Grant("", v, false));
    var rival := P.RivalRun(w.p, P.RunFrom(w.p, w.s, h), owner, v);
    Others(w, h, grants, phase, rival, grants[Slot(w.pool, owner) := Grant("", v, false)]);
    g := h + rival;
  }

  /** A row that another process releases. */
  lemma ReleasedBy(w: View, h: seq<P.Step>, grants: map<Slot, Grant>, phase: P.Phase, owner: string)
    returns (g: seq<P.Step>)
    requires Stands(w, h, grants, phase) && !w.calm
    ensures Stands(w, g, grants - {Slot(w.pool, owner)}, phase)
  {
    hide Mine;
    var e := P.Step.Release(owner);
    InPoolRelease(grants, w.pool, owner);
    P.RunSnoc(w.p, P.RunFrom(w.p, w.s, h), [], e);
    assert [] + [e] == [e];
    Others(w, h, grants, phase, [e], grants - {Slot(w.pool, owner)});
    g := h + [e];
  }

  /** The look for the owner's own row: at the start, and after a refused insert. */
  lemma Looks(w: View, h: seq<P.Step>, grants: map<Slot, Grant>, phase: P.Phase) returns (g: seq<P.Step>)
    requires Stands(w, h, grants, phase) && (phase == P.Sticky || phase.Recheck?)
    ensures Stands(w, g, grants,
                   if Slot(w.pool, w.owner) in grants then P.Done(P.Granted(grants[Slot(w.pool, w.owner)].value))
                   else if phase == P.Sticky then P.Snapshot else P.Walk(phase.at + 1, phase.used))
  {
    InPoolUpdate(grants, w.pool, w.owner, Grant("", 0, false));
    g := Acts(w, h, grants, phase, true, grants,
              if Slot(w.pool, w.owner) in grants then P.Done(P.Granted(grants[Slot(w.pool, w.owner)].value))
              else if phase == P.Sticky then P.Snapshot else P.Walk(phase.at + 1, phase.used));
  }

  lemma Snaps(w: View, h: seq<P.Step>, grants: map<Slot, Grant>) returns (g: seq<P.Step>)
    requires Stands(w, h, grants, P.Snapshot)
    ensures Stands(w, g, grants, P.Walk(w.p.first, InPool(grants, w.pool).Values))
  {
    g := Acts(w, h, grants, P.Snapshot, true, grants, P.Walk(w.p.first, InPool(grants, w.pool).Values));
  }

  /** A candidate that is not tried, or the end of the range. */
  lemma Passes(w: View, h: seq<P.Step>, grants: map<Slot, Grant>, v: int, used: set<int>) returns (g: seq<P.Step>)
    requires Stands(w, h, grants, P.Walk(v, used))
    requires v > w.p.last || v in w.p.avoid || v in used || !w.free(v)
    ensures Stands(w, g, grants, if v > w.p.last then P.Done(P.Exhausted) else P.Walk(v + 1, used))
  {
    hide P.Advance, Stands, InPool;
    var next := if v > w.p.last then P.Done(P.Exhausted) else P.Walk(v + 1, used);
    forall c: P.Claim, t: P.State | c.phase == P.Walk(v, used)
      ensures P.Advance(w.p, t, c, w.free(v)).0 == t.grants && P.Advance(w.p, t, c, w.free(v)).1.phase == next
    {
      PassOne(w.p, t, c, v, used, w.free(v));
    }
    g := Acts(w, h, grants, P.Walk(v, used), w.free(v), grants, next);
  }

  lemma PassOne(p: P.Pool, t: P.State, c: P.Claim, v: int, used: set<int>, free: bool)
    requires c.phase == P.Walk(v, used) && (v > p.last || v in p.avoid || v in used || !free)
    ensures P.Advance(p, t, c, free).0 == t.grants
    ensures P.Advance(p, t, c, free).1.phase == if v > p.last then P.Done(P.Exhausted) else P.Walk(v + 1, used)
  {
  }

  /** The insert of a candidate: the owner's row, or a refusal that leads to a second look. */
  lemma Tried(w: View, h: seq<P.Step>, grants: map<Slot, Grant>, v: int, used: set<int>, row: Grant)
    returns (g: seq<P.Step>)
    requires Stands(w, h, grants, P.Walk(v, used))
    requires v <= w.p.last && v !in w.p.avoid && v !in used && w.free(v) && row.value == v
    ensures if Slot(w.pool, w.owner) in grants || Used(grants, w.pool, v) then Stands(w, g, grants, P.Recheck(v, used))
            else Stands(w, g, grants[Slot(w.pool, w.owner) := row], P.Done(P.Granted(v)))
  {
    hide Used;
    UsedIsValue(grants, w.pool, v);
    InPoolUpdate(grants, w.pool, w.owner, row);
    if Slot(w.pool, w.owner) in grants || Used(grants, w.pool, v) {
      g := Acts(w, h, grants, P.Walk(v, used), true, grants, P.Recheck(v, used));
    } else {
      g := Acts(w, h, grants, P.Walk(v, used), true, grants[Slot(w.pool, w.owner) := row], P.Done(P.Granted(v)));
    }
  }

  /** A mark on a row is nothing to the protocol. */
  lemma Marks(w: View, h: seq<P.Step>, grants: map<Slot, Grant>, phase: P.Phase, row: Grant)
    requires Stands(w, h, grants, phase) && Slot(w.pool, w.owner) in grants
    requires row.value == grants[Slot(w.pool, w.owner)].value
    ensures Stands(w, h, grants[Slot(w.pool, w.owner) := row], phase)
  {
    InPoolUpdate(grants, w.pool, w.owner, row);
    assert InPool(grants, w.pool)[w.owner := row.value] == InPool(grants, w.pool);
  }

  /** What the protocol says of a claim that ran out with no release: `skipped` is exactly what was left over. */
  lemma RanOut(w: View, h: seq<P.Step>, grants: map<Slot, Grant>)
    requires Stands(w, h, grants, P.Done(P.Exhausted)) && P.Safe(w.p, w.s)
    requires P.RunFrom(w.p, w.s, h).releases == w.s.releases
    ensures var t := P.RunFrom(w.p, w.s, h);
            && P.Safe(w.p, t) && P.RanOut(t, w.id)
            && (P.AllSpent(w.p, t, w.id) <==> t.claims[w.id].skipped <= InPool(grants, w.pool).Values)
  {
    hide P.Safe;
    var t := P.RunFrom(w.p, w.s, h);
    P.RunFromSafe(w.p, w.s, h);
    P.HonestIff(w.p, t, w.id);
  }

  /** When others only insert and no call fails, every grantable port is taken or fails its bind test. */
  lemma CalmExhausted(w: View, h: seq<P.Step>, grants: map<Slot, Grant>, v: int)
    requires Stands(w, h, grants, P.Done(P.Exhausted)) && w.calm && P.Safe(w.p, w.s) && P.Grantable(w.p, v)
    ensures Used(grants, w.pool, v) || !w.free(v)
  {
    hide P.Safe, Used, P.Grantable;
    RanOut(w, h, grants);
    UsedIsValue(grants, w.pool, v);
  }

  /** Rows of other pools are as they were. */
  ghost predicate Beside(before: map<Slot, Grant>, after: map<Slot, Grant>, pool: string) {
    forall s: Slot :: s.pool != pool ==> (s in after <==> s in before) && (s in before ==> after[s] == before[s])
  }

  /** Rows are only added, and never change their value. */
  ghost predicate Grown(before: map<Slot, Grant>, after: map<Slot, Grant>) {
    forall s <- before :: s in after && after[s].value == before[s].value
  }

  class Tables {
    var pools: map<string, P.Pool>
    var grants: map<Slot, Grant>

    constructor ()
      ensures Valid() && pools == map[] && grants == map[]
    {
      pools, grants := map[], map[];
    }

    /** Both unique keys, and every value grantable in its pool. */
    ghost predicate Valid()
      reads this
    {
      Unique() && forall s <- grants :: s.pool in pools && P.Grantable(pools[s.pool], grants[s].value)
    }

    /** The owner's row is under its slot; a value is granted once in a pool. */
    ghost predicate Unique()
      reads this
    {
      forall s, t | s in grants && t in grants :: s.pool == t.pool && grants[s].value == grants[t].value ==> s == t
    }

    /** A pool is written once. */
    method EnsurePool(name: string, pool: P.Pool) returns (r: P.Pool)
      requires Valid()
      modifies this`pools
      ensures Valid() && pools == (if name in old(pools) then old(pools) else old(pools)[name := pool])
      ensures r == pools[name]
    {
      if name !in pools {
        pools := pools[name := pool];
      }
      r := pools[name];
    }

    /** Refused when the owner has a row or the value is taken. The range is the caller's business. */
    method InsertPort(pool: string, project: string, owner: string, value: int) returns (ok: bool)
      requires Unique()
      modifies this`grants
      ensures Unique()
      ensures ok <==> Slot(pool, owner) !in old(grants) && !Used(old(grants), pool, value)
      ensures grants == if ok then old(grants)[Slot(pool, owner) := Grant(project, value, false)] else old(grants)
      ensures old(Valid()) && pool in pools && P.Grantable(pools[pool], value) ==> Valid()
    {
      ok := Slot(pool, owner) !in grants && !Used(grants, pool, value);
      if ok {
        grants := grants[Slot(pool, owner) := Grant(project, value, false)];
      }
    }

    method ReleasePort(pool: string, owner: string)
      requires Valid()
      modifies this`grants
      ensures Valid() && grants == old(grants) - {Slot(pool, owner)}
    {
      grants := grants - {Slot(pool, owner)};
    }

    /** The tables of a pool that nobody claims from satisfy the protocol's invariant. */
    lemma IdleSafe(pool: string)
      requires Valid() && pool in pools
      ensures P.Safe(pools[pool], Idle(grants, pool))
    {
      var m := InPool(grants, pool);
      assert forall o :: o in m ==> Slot(pool, o) in grants && m[o] == grants[Slot(pool, o)].value;
    }

    /** One edit by another process. */
    method Apply(pool: string, e: Edit, ghost w: View, ghost h: seq<P.Step>, ghost phase: P.Phase)
      returns (ghost g: seq<P.Step>)
      requires Valid() && w.pool == pool && pool in pools && w.p == pools[pool] && Stands(w, h, grants, phase)
      requires if e.Insert? then P.Grantable(w.p, e.value) else !w.calm
      modifies this`grants
      ensures Valid() && Stands(w, g, grants, phase) && Since(w, old(grants), grants)
    {
      hide Stands, P.Grantable, Used;
      g := h;
      match e
      case Insert(owner, v) =>
        ghost var before := grants;
        var ok := InsertPort(pool, "", owner, v);
        if ok {
          g := InsertedBy(w, h, before, phase, owner, v);
        }
      case Release(owner) =>
        g := ReleasedBy(w, h, grants, phase, owner);
        ReleasePort(pool, owner);
    }

    /** What the others do before our next database call. */
    method Interleave(pool: string, turn: Turn, ghost w: View, ghost h: seq<P.Step>, ghost phase: P.Phase)
      returns (ghost g: seq<P.Step>)
      requires Valid() && w.pool == pool && pool in pools && w.p == pools[pool] && Stands(w, h, grants, phase)
      requires TurnOk(w.p, turn) && (w.calm ==> CalmTurn(turn))
      modifies this`grants
      ensures Valid() && Stands(w, g, grants, phase) && Since(w, old(grants), grants) && (w.calm ==> !turn.fails)
      ensures turn == QUIET ==> grants == old(grants)
    {
      hide Stands, P.Grantable;
      g := h;
      for i := 0 to |turn.edits|
        invariant Valid() && Stands(w, g, grants, phase) && Since(w, old(grants), grants)
        invariant turn.edits == [] ==> grants == old(grants)
      {
        g := Apply(pool, turn.edits[i], w, g, phase);
      }
    }

    /** Insert one candidate; a refusal looks for the owner's row again, and no answer means the walk goes on. A second
        look that fails counts as an owner without a row. */
    method TryCandidate(pool: string, project: string, owner: string, v: int, first: Turn, second: Turn,
                        ghost w: View, ghost h: seq<P.Step>, ghost used: set<int>)
      returns (r: Option<Answer>, ghost g: seq<P.Step>)
      requires Valid() && w.pool == pool && w.owner == owner && pool in pools && w.p == pools[pool]
      requires Stands(w, h, grants, P.Walk(v, used)) && P.Grantable(w.p, v) && v !in used && w.free(v)
      requires TurnOk(w.p, first) && TurnOk(w.p, second) && (w.calm ==> CalmTurn(first) && CalmTurn(second))
      modifies this`grants
      ensures Valid() && Since(w, old(grants), grants)
      ensures Stands(w, g, grants, if r == None then P.Walk(v + 1, used) else P.Done(ResultOf(r.value)))
      ensures r.Some? ==> r.value.Granted? || (r.value.Failed? && first.fails)
      ensures r.Some? && r.value.Granted? ==>
                Slot(pool, owner) in grants && grants[Slot(pool, owner)].value == r.value.value
      ensures first == QUIET && Slot(pool, owner) !in old(grants) && !Used(old(grants), pool, v) ==>
                r == Some(Granted(v, false)) && grants == old(grants)[Slot(pool, owner) := Grant(project, v, false)]
    {
      hide Stands, Used, P.Grantable, TurnOk, CalmTurn, Since;
      ghost var start := grants;
      g := Interleave(pool, first, w, h, P.Walk(v, used));
      if first.fails {
        CandidateRange(w.p, v);
        g := Fails(w, g, grants, P.Walk(v, used), P.Done(P.Result.Failed));
        return Some(Answer.Failed), g;
      }
      CandidateRange(w.p, v);
      g := Tried(w, g, grants, v, used, Grant(project, v, false));
      ghost var now := grants;
      var ok := InsertPort(pool, project, owner, v);
      if ok {
        SinceOwn(w, now, Grant(project, v, false));
        SinceTrans(w, start, now, grants);
        return Some(Granted(v, false)), g;
      }
      g := Interleave(pool, second, w, g, P.Recheck(v, used));
      SinceTrans(w, start, now, grants);
      if second.fails {
        g := Fails(w, g, grants, P.Recheck(v, used), P.Walk(v + 1, used));
        return None, g;
      }
      g := Looks(w, g, grants, P.Recheck(v, used));
      if Slot(pool, owner) in grants {
        return Some(Granted(grants[Slot(pool, owner)].value, grants[Slot(pool, owner)].foreign)), g;
      }
      return None, g;
    }

    lemma CandidateRange(p: P.Pool, v: int)
      requires P.Grantable(p, v)
      ensures p.first <= v <= p.last && v !in p.avoid
    {
    }

    /** The candidate walk. `used` is the snapshot. */
    method WalkCandidates(pool: string, project: string, owner: string, free: int -> bool, used: set<int>,
                          script: seq<Turn>, ghost w: View, ghost h: seq<P.Step>)
      returns (r: Answer, ghost g: seq<P.Step>)
      requires Valid() && w.pool == pool && w.owner == owner && pool in pools && w.p == pools[pool] && w.free == free
      requires Stands(w, h, grants, P.Walk(w.p.first, used))
      requires ScriptOk(w.p, script) && (w.calm ==> Calm(script))
      modifies this`grants
      ensures Valid() && Since(w, old(grants), grants)
      ensures r != NoPool && (w.calm ==> !r.Failed?) && Stands(w, g, grants, P.Done(ResultOf(r)))
      ensures r.Granted? ==> Slot(pool, owner) in grants && grants[Slot(pool, owner)].value == r.value
      ensures script == [] && Slot(pool, owner) !in old(grants)
              && (forall v :: v in used <==> Used(old(grants), pool, v)) ==>
                match P.Pick(pools[pool], used, free, pools[pool].first)
                case None => r == Exhausted && grants == old(grants)
                case Some(v) =>
                  r == Granted(v, false) && grants == old(grants)[Slot(pool, owner) := Grant(project, v, false)]
    {
      hide P.Pick, Used, Stands, Since, ScriptOk, Calm, TurnOk, CalmTurn;
      ghost var start := grants;
      SinceSelf(w, grants);
      var slot, p, calls := Slot(pool, owner), pools[pool], 2;
      ghost var solo := script == [] && slot !in grants && forall v :: v in used <==> Used(old(grants), pool, v);
      var v := p.first;
      g := h;
      while v <= p.last
        invariant calls >= 2 && p.first <= v
        invariant Valid() && Since(w, old(grants), grants)
        invariant Stands(w, g, grants, P.Walk(v, used))
        invariant solo ==> grants == old(grants)
        invariant solo ==> P.Pick(p, used, free, p.first) == P.Pick(p, used, free, v)
        decreases p.last + 1 - v
      {
        PickSkip(p, used, free, v);
        if v in p.avoid || v in used || !free(v) {
          g := Passes(w, g, grants, v, used);
          v := v + 1;
          continue;
        }
        var answer;
        TurnsOk(p, script, calls);
        ghost var now := grants;
        answer, g := TryCandidate(pool, project, owner, v, TurnAt(script, calls), TurnAt(script, calls + 1), w, g,
                                  used);
        SinceTrans(w, start, now, grants);
        if answer.Some? {
          return answer.value, g;
        }
        calls := calls + 2;
        v := v + 1;
      }
      PickSkip(p, used, free, v);
      g := Passes(w, g, grants, v, used);
      return Exhausted, g;
    }

    lemma CalmQuiet()
      ensures Calm([])
    {
    }

    lemma TurnsOk(p: P.Pool, script: seq<Turn>, i: nat)
      requires ScriptOk(p, script)
      ensures TurnOk(p, TurnAt(script, i)) && TurnOk(p, TurnAt(script, i + 1))
      ensures Calm(script) ==> CalmTurn(TurnAt(script, i)) && CalmTurn(TurnAt(script, i + 1))
    {
    }

    /** The look for a sticky row, and failing that the walk. */
    method FindOrWalk(pool: string, project: string, owner: string, bind: int -> bool, skipBind: bool,
                      script: seq<Turn>,
                      ghost w: View) returns (r: Answer, ghost h: seq<P.Step>)
      requires Valid() && pool in pools
      requires w == View(pools[pool], pool, owner, w.id, w.s, Free(skipBind, bind), Calm(script))
      requires w.s.grants == InPool(grants, pool) && w.id !in w.s.claims && ScriptOk(w.p, script)
      modifies this`grants
      ensures Valid() && Since(w, old(grants), grants) && Stands(w, h, grants, P.Done(ResultOf(r)))
      ensures r != NoPool && (w.calm ==> !r.Failed?)
      ensures r.Granted? ==> Slot(pool, owner) in grants && grants[Slot(pool, owner)].value == r.value
      ensures w.calm && r == Exhausted ==> Slot(pool, owner) !in old(grants)
      ensures script == [] ==>
                if Slot(pool, owner) in old(grants) then
                  var was := old(grants)[Slot(pool, owner)];
                  var foreign := was.foreign || (!skipBind && !bind(was.value));
                  r == Granted(was.value, foreign)
                  && grants == old(grants)[Slot(pool, owner) := was.(foreign := foreign)]
                else
                  match P.Pick(pools[pool], InPool(old(grants), pool).Values, Free(skipBind, bind), pools[pool].first)
                  case None => r == Exhausted && grants == old(grants)
                  case Some(v) =>
                    r == Granted(v, false) && grants == old(grants)[Slot(pool, owner) := Grant(project, v, false)]
    {
      hide InPool, P.Pick, Used, P.Grantable, Stands, Since, ScriptOk, Calm, TurnOk, CalmTurn;
      ghost var start := grants;
      var slot := Slot(pool, owner);
      TurnsOk(pools[pool], script, 0);
      Begins(w, grants);
      h := Interleave(pool, TurnAt(script, 0), w, [P.Begin(w.id, owner)], P.Sticky);
      if w.calm && slot in start {
        SinceSlot(w, start, grants);
      }
      if TurnAt(script, 0).fails {
        h := Fails(w, h, grants, P.Sticky, P.Done(P.Result.Failed));
        return Answer.Failed, h;
      }
      h := Looks(w, h, grants, P.Sticky);
      if slot in grants {
        r := Granted(grants[slot].value, grants[slot].foreign);
        if !skipBind && !bind(r.value) {
          // The grant stays; only the mark is set.
          Marks(w, h, grants, P.Done(ResultOf(r)), grants[slot].(foreign := true));
          SinceOwn(w, grants, grants[slot].(foreign := true));
          SinceTrans(w, start, grants, grants[slot := grants[slot].(foreign := true)]);
          grants := grants[slot := grants[slot].(foreign := true)];
          r := r.(foreign := true);
        }
        return;
      }
      ghost var looked := grants;
      h := Interleave(pool, TurnAt(script, 1), w, h, P.Snapshot);
      SinceTrans(w, start, looked, grants);
      if TurnAt(script, 1).fails {
        h := Fails(w, h, grants, P.Snapshot, P.Done(P.Result.Failed));
        return Answer.Failed, h;
      }
      h := Snaps(w, h, grants);
      var used := InPool(grants, pool).Values;
      UsedAre(grants, pool);
      ghost var snapped := grants;
      r, h := WalkCandidates(pool, project, owner, Free(skipBind, bind), used, script, w, h);
      SinceTrans(w, start, snapped, grants);
    }

    /** The owner's sticky port, or a new one. `script` is what happens around the claim's database calls; `bind`
        answers the bind tests, all of which pass when `skipBind`. Whatever the script, the claim is a run of the
        protocol, `h`, from any safe state `s` with these rows. */
    method Claim(pool: string, project: string, owner: string, bind: int -> bool, skipBind: bool, script: seq<Turn>,
                 ghost s: P.State, ghost id: nat)
      returns (r: Answer, ghost h: seq<P.Step>)
      requires Valid()
      requires pool in pools ==>
                 P.Safe(pools[pool], s) && s.grants == InPool(grants, pool) && id !in s.claims
                 && ScriptOk(pools[pool], script)
      modifies this`grants
      ensures Valid() && Beside(old(grants), grants, pool) && (Calm(script) ==> Grown(old(grants), grants))
      ensures r == NoPool <==> pool !in pools
      ensures r == NoPool ==> grants == old(grants)
      ensures pool in pools ==>
                Stands(View(pools[pool], pool, owner, id, s, Free(skipBind, bind), Calm(script)), h, grants,
                       P.Done(ResultOf(r)))
      ensures r.Granted? ==> Slot(pool, owner) in grants && grants[Slot(pool, owner)].value == r.value
      ensures Calm(script) ==> !r.Failed?
      ensures Calm(script) && r == Exhausted ==>
                Slot(pool, owner) !in old(grants)
                && forall v :: P.Grantable(pools[pool], v) ==> Used(grants, pool, v) || (!skipBind && !bind(v))
      ensures script == [] && pool in pools ==>
                (ResultOf(r), InPool(grants, pool))
                == P.Outcome(pools[pool], InPool(old(grants), pool), owner, Free(skipBind, bind))
      ensures script == [] ==> forall s <- grants ::
                s != Slot(pool, owner) ==> s in old(grants) && grants[s] == old(grants)[s]
      ensures script == [] && r.Exhausted? ==> Slot(pool, owner) !in grants
      ensures script == [] && pool in pools && Slot(pool, owner) in old(grants) ==>
                var was := old(grants)[Slot(pool, owner)];
                var foreign := was.foreign || (!skipBind && !bind(was.value));
                r == Granted(was.value, foreign) && grants[Slot(pool, owner)] == was.(foreign := foreign)
      ensures script == [] && r.Granted? && Slot(pool, owner) !in old(grants) ==>
                !r.foreign && grants[Slot(pool, owner)] == Grant(project, r.value, false)
    {
      hide InPool, P.Pick, Used, P.Grantable, Stands, P.Safe, ScriptOk, Calm;
      h := [];
      if pool !in pools {
        return NoPool, h;
      }
      ghost var w := View(pools[pool], pool, owner, id, s, Free(skipBind, bind), Calm(script));
      r, h := FindOrWalk(pool, project, owner, bind, skipBind, script, w);
      CalmQuiet();
      InPoolUpdate(old(grants), pool, owner, if Slot(pool, owner) in grants then grants[Slot(pool, owner)]
                   else Grant("", 0, false));
      if Slot(pool, owner) in old(grants) {
        assert InPool(old(grants), pool)[owner := old(grants)[Slot(pool, owner)].value] == InPool(old(grants), pool);
      }
      if r == Exhausted && Calm(script) {
        forall v | P.Grantable(pools[pool], v)
          ensures Used(grants, pool, v) || (!skipBind && !bind(v))
        {
          CalmExhausted(w, h, grants, v);
        }
      }
    }
  }
}

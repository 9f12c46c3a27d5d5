/** Sticky ports in one pool: any number of claims interleaved at database-call granularity, each walking
    with the snapshot it read. The rows are keyed by owner; the second unique key is the value. */
module PortProtocol {
  import opened Core

  datatype Pool = Pool(first: int, last: int, avoid: seq<int>)

  datatype Result = Granted(value: int) | Exhausted | Failed

  /** Where a claim stands: the next database call it makes, or its answer. */
  datatype Phase =
    | Sticky
    | Snapshot
    | Walk(at: int, used: set<int>)
    | Recheck(at: int, used: set<int>)
    | Done(result: Result)

  /** A claim in flight. History: ports whose bind test failed, free ports it passed over because a re-check failed,
      rows it inserted, its owner's release count when it answered, and the pool's release count when it began. */
  datatype Claim = Claim(owner: string, phase: Phase, squatted: set<int>, skipped: set<int>, inserted: nat, epoch: nat,
                         since: nat)

  /** `released` counts releases per owner, `releases` all of them. */
  datatype State = State(grants: map<string, int>, claims: map<nat, Claim>, released: map<string, nat>, releases: nat)

  datatype Step =
    | Begin(id: nat, owner: string)
    | Act(id: nat, free: bool)
    | Error(id: nat)
    | Release(owner: string)

  const EMPTY := State(map[], map[], map[], 0)

  function NewClaim(owner: string, since: nat): Claim {
    Claim(owner, Sticky, {}, {}, 0, 0, since)
  }

  function Epoch(s: State, owner: string): nat {
    if owner in s.released then s.released[owner] else 0
  }

  /** The row table and the claim after its next database call; `free` is the answer of a bind test, if any. */
  function Advance(pool: Pool, s: State, c: Claim, free: bool): (map<string, int>, Claim)
  {
    match c.phase
    case Sticky =>
      if c.owner in s.grants
        then (s.grants, c.(phase := Done(Granted(s.grants[c.owner])), epoch := Epoch(s, c.owner)))
      else (s.grants, c.(phase := Snapshot))
    case Snapshot => (s.grants, c.(phase := Walk(pool.first, s.grants.Values)))
    case Walk(v, used) =>
      if v > pool.last then (s.grants, c.(phase := Done(Exhausted)))
      else if v in pool.avoid || v in used then (s.grants, c.(phase := Walk(v + 1, used)))
      else if !free then (s.grants, c.(phase := Walk(v + 1, used), squatted := c.squatted + {v}))
      else if v in s.grants.Values || c.owner in s.grants then (s.grants, c.(phase := Recheck(v, used)))
      else (s.grants[c.owner := v],
            c.(phase := Done(Granted(v)), inserted := c.inserted + 1, epoch := Epoch(s, c.owner)))
    case Recheck(v, used) =>
      if c.owner in s.grants
        then (s.grants, c.(phase := Done(Granted(s.grants[c.owner])), epoch := Epoch(s, c.owner)))
      else (s.grants, c.(phase := Walk(v + 1, used)))
    case Done(_) => (s.grants, c)
  }

  /** A candidate is inserted, and so costs a database call, once the snapshot and the bind test let it through. */
  predicate Tries(pool: Pool, c: Claim) {
    c.phase.Walk? && c.phase.at <= pool.last && c.phase.at !in pool.avoid && c.phase.at !in c.phase.used
  }

  /** The claim when its next database call fails. Everywhere but at the re-check that ends it; a failed re-check is
      taken for an owner without a row, and the walk goes on. */
  function Fail(pool: Pool, s: State, c: Claim): Claim {
    match c.phase
    case Sticky => c.(phase := Done(Result.Failed))
    case Snapshot => c.(phase := Done(Result.Failed))
    case Walk(_, _) => if Tries(pool, c) then c.(phase := Done(Result.Failed)) else Advance(pool, s, c, true).1
    case Recheck(v, used) =>
      c.(phase := Walk(v + 1, used), skipped := if v in s.grants.Values then c.skipped else c.skipped + {v})
    case Done(_) => c
  }

  function Next(pool: Pool, s: State, e: Step): State {
    match e
    case Begin(id, owner) =>
      if id in s.claims then s else s.(claims := s.claims[id := NewClaim(owner, s.releases)])
    case Act(id, free) =>
      if id !in s.claims then s
      else
        var (grants, c) := Advance(pool, s, s.claims[id], free);
        s.(grants := grants, claims := s.claims[id := c])
    case Error(id) =>
      if id !in s.claims then s else s.(claims := s.claims[id := Fail(pool, s, s.claims[id])])
    case Release(owner) =>
      s.(grants := s.grants - {owner}, released := s.released[owner := Epoch(s, owner) + 1], releases := s.releases + 1)
  }

  function RunFrom(pool: Pool, s: State, h: seq<Step>): State {
    if h == [] then s else Next(pool, RunFrom(pool, s, h[..|h| - 1]), h[|h| - 1])
  }

  function Run(pool: Pool, h: seq<Step>): State {
    RunFrom(pool, EMPTY, h)
  }

  lemma RunSnoc(pool: Pool, s: State, h: seq<Step>, e: Step)
    ensures RunFrom(pool, s, h + [e]) == Next(pool, RunFrom(pool, s, h), e)
  {
    assert (h + [e])[..|h|] == h;
  }

  lemma {:induction false} RunConcat(pool: Pool, s: State, h: seq<Step>, g: seq<Step>)
    ensures RunFrom(pool, s, h + g) == RunFrom(pool, RunFrom(pool, s, h), g)
  {
    if g == [] {
      assert h + g == h;
    } else {
      assert (h + g)[..|h + g| - 1] == h + g[..|g| - 1];
      RunConcat(pool, s, h, g[..|g| - 1]);
    }
  }

  predicate Grantable(pool: Pool, v: int) {
    pool.first <= v <= pool.last && v !in pool.avoid
  }

  /** No value twice; every value from the range and not avoided. */
  ghost predicate Exclusive(pool: Pool, grants: map<string, int>) {
    && (forall o, p | o in grants && p in grants :: grants[o] == grants[p] ==> o == p)
    && (forall o <- grants :: Grantable(pool, grants[o]))
  }

  /** Every grantable value below `v` is granted, failed its bind test, or was passed over by a failed re-check. */
  ghost predicate Spent(pool: Pool, s: State, c: Claim, v: int) {
    forall u :: Grantable(pool, u) && u < v ==> u in c.squatted || u in c.skipped || u in s.grants.Values
  }

  /** What holds of each claim. The second half speaks only of claims that no release has overtaken. */
  ghost predicate Honest(pool: Pool, s: State, c: Claim) {
    && c.since <= s.releases
    && c.inserted == (if c.phase.Done? && c.inserted > 0 then 1 else 0)
    && (c.phase.Done? && c.phase.result.Granted? && c.epoch == Epoch(s, c.owner) ==>
          c.owner in s.grants && s.grants[c.owner] == c.phase.result.value)
    && c.epoch <= Epoch(s, c.owner)
    && (c.since == s.releases && c.skipped != {} ==> c.owner in s.grants)
    && (c.since == s.releases ==>
          match c.phase
          case Walk(v, used) => used <= s.grants.Values && Spent(pool, s, c, v)
          case Recheck(v, used) =>
            used <= s.grants.Values && Spent(pool, s, c, v) && (v in s.grants.Values || c.owner in s.grants)
          case Done(Exhausted) => Spent(pool, s, c, pool.last + 1)
          case _ => true)
  }

  /** Positions of the walk stay in the range, and what it has dealt with lies behind it, each port once. */
  ghost predicate Placed(pool: Pool, c: Claim) {
    && c.squatted !! c.skipped
    && (forall u :: u in c.squatted || u in c.skipped ==> Grantable(pool, u))
    && match c.phase
       case Walk(v, _) => pool.first <= v && forall u :: u in c.squatted || u in c.skipped ==> u < v
       case Recheck(v, used) =>
         Grantable(pool, v) && v !in used && forall u :: u in c.squatted || u in c.skipped ==> u < v
       case Done(_) => true
       case _ => c.squatted == {} && c.skipped == {}
  }

  predicate HasPort(c: Claim) {
    c.phase.Done? && c.phase.result.Granted?
  }

  /** Answers to one owner within one epoch agree. */
  ghost predicate Agree(c: Claim, d: Claim) {
    HasPort(c) && HasPort(d) && c.owner == d.owner && c.epoch == d.epoch ==> c.phase == d.phase
  }

  ghost predicate Safe(pool: Pool, s: State) {
    && Exclusive(pool, s.grants)
    && (forall i, j | i in s.claims && j in s.claims :: Agree(s.claims[i], s.claims[j]))
    && forall id <- s.claims :: Honest(pool, s, s.claims[id]) && Placed(pool, s.claims[id])
  }

  lemma ValuesGrow(grants: map<string, int>, owner: string, v: int)
    requires owner !in grants
    ensures grants.Values <= grants[owner := v].Values && v in grants[owner := v].Values
  {
    var after := grants[owner := v];
    assert after[owner] == v;
    forall x | x in grants.Values
      ensures x in after.Values
    {
      var o :| o in grants && grants[o] == x;
      assert after[o] == x;
    }
  }

  /** An acting claim stays honest itself. */
  lemma ActorHonest(pool: Pool, s: State, c: Claim, free: bool)
    requires Exclusive(pool, s.grants) && Honest(pool, s, c) && Placed(pool, c)
    ensures var (grants, c') := Advance(pool, s, c, free);
            Honest(pool, s.(grants := grants), c') && Placed(pool, c') && Exclusive(pool, grants)
  {
    if c.phase.Walk? && c.owner !in s.grants {
      ValuesGrow(s.grants, c.owner, c.phase.at);
    }
  }

  /** An insert by another owner's claim, or by the same owner's, leaves the others honest. */
  lemma OthersHonest(pool: Pool, s: State, c: Claim, free: bool, other: Claim)
    requires Honest(pool, s, other)
    ensures Honest(pool, s.(grants := Advance(pool, s, c, free).0), other)
  {
    if c.phase.Walk? && c.owner !in s.grants {
      ValuesGrow(s.grants, c.owner, c.phase.at);
    }
  }

  /** A fresh answer agrees with every answer of the current epoch. */
  lemma ActorAgrees(pool: Pool, s: State, c: Claim, free: bool, other: Claim)
    requires Honest(pool, s, c) && Honest(pool, s, other) && Agree(c, other)
    ensures Agree(Advance(pool, s, c, free).1, other)
  {
  }

  lemma ActSafe(pool: Pool, s: State, id: nat, free: bool)
    requires Safe(pool, s) && id in s.claims
    ensures Safe(pool, Next(pool, s, Act(id, free)))
  {
    hide Advance, Honest, Placed, Agree, Exclusive;
    var (grants, c) := Advance(pool, s, s.claims[id], free);
    ActorHonest(pool, s, s.claims[id], free);
    var after := Next(pool, s, Act(id, free));
    SelfAgrees(c);
    forall other | other in s.claims && other != id
      ensures Honest(pool, after, s.claims[other]) && Agree(c, s.claims[other]) && Agree(s.claims[other], c)
    {
      OthersHonest(pool, s, s.claims[id], free, s.claims[other]);
      HonestFrame(pool, s.(grants := grants), after, s.claims[other]);
      ActorAgrees(pool, s, s.claims[id], free, s.claims[other]);
      AgreeSymmetric(c, s.claims[other]);
    }
    HonestFrame(pool, s.(grants := grants), after, c);
  }

  lemma SelfAgrees(c: Claim)
    ensures Agree(c, c)
  {
  }

  lemma AgreeSymmetric(c: Claim, d: Claim)
    ensures Agree(c, d) <==> Agree(d, c)
  {
  }

  lemma HonestFrame(pool: Pool, s: State, t: State, c: Claim)
    requires Honest(pool, s, c) && t == s.(claims := t.claims)
    ensures Honest(pool, t, c)
  {
  }

  lemma NextSafe(pool: Pool, s: State, e: Step)
    requires Safe(pool, s)
    ensures Safe(pool, Next(pool, s, e))
  {
    hide Advance, Fail, Placed;
    match e
    case Act(id, free) =>
      if id in s.claims {
        ActSafe(pool, s, id, free);
      }
    case Begin(id, owner) =>
      BeginPlaced(pool, owner, s.releases);
    case Error(id) =>
      if id in s.claims {
        ErrorSafe(pool, s, id);
      }
    case Release(_) =>
  }

  lemma BeginPlaced(pool: Pool, owner: string, since: nat)
    ensures Placed(pool, NewClaim(owner, since))
  {
  }

  /** A failed call leaves its claim honest: what a failed re-check passes over is on record. */
  lemma FailHonest(pool: Pool, s: State, c: Claim)
    requires Honest(pool, s, c) && Placed(pool, c)
    ensures Honest(pool, s, Fail(pool, s, c)) && Placed(pool, Fail(pool, s, c))
  {
  }

  lemma FailAgrees(pool: Pool, s: State, c: Claim, other: Claim)
    requires Agree(c, other)
    ensures Agree(Fail(pool, s, c), other)
  {
  }

  lemma ErrorSafe(pool: Pool, s: State, id: nat)
    requires Safe(pool, s) && id in s.claims
    ensures Safe(pool, Next(pool, s, Error(id)))
  {
    hide Fail, Honest, Placed, Agree, Exclusive;
    var c := Fail(pool, s, s.claims[id]);
    var after := Next(pool, s, Error(id));
    FailHonest(pool, s, s.claims[id]);
    SelfAgrees(c);
    forall other | other in s.claims
      ensures Honest(pool, after, s.claims[other]) && Agree(c, s.claims[other]) && Agree(s.claims[other], c)
    {
      HonestFrame(pool, s, after, s.claims[other]);
      FailAgrees(pool, s, s.claims[id], s.claims[other]);
      AgreeSymmetric(c, s.claims[other]);
    }
    HonestFrame(pool, s, after, c);
  }

  lemma {:induction false} RunFromSafe(pool: Pool, s: State, h: seq<Step>)
    requires Safe(pool, s)
    ensures Safe(pool, RunFrom(pool, s, h))
  {
    hide Safe, Next;
    if h != [] {
      RunFromSafe(pool, s, h[..|h| - 1]);
      NextSafe(pool, RunFrom(pool, s, h[..|h| - 1]), h[|h| - 1]);
    }
  }

  lemma RunSafe(pool: Pool, h: seq<Step>)
    ensures Safe(pool, Run(pool, h))
  {
    RunFromSafe(pool, EMPTY, h);
  }

  /** Mutual exclusion: in every reachable state values are distinct, in range, and never avoided. */
  lemma PortsExclusive(pool: Pool, h: seq<Step>)
    ensures var grants := Run(pool, h).grants;
            && (forall o, p | o in grants && p in grants && o != p :: grants[o] != grants[p])
            && (forall o <- grants :: pool.first <= grants[o] <= pool.last
                                      && forall i :: 0 <= i < |pool.avoid| ==> pool.avoid[i] != grants[o])
  {
    RunSafe(pool, h);
  }

  /** Stickiness: two claims of one owner answered without a release of that owner in between got one port,
      whether they raced on the first grant or not, and whatever happened later. */
  lemma SameOwnerSamePort(pool: Pool, h: seq<Step>, i: nat, j: nat)
    requires var claims := Run(pool, h).claims;
             && i in claims && j in claims && HasPort(claims[i]) && HasPort(claims[j])
             && claims[i].owner == claims[j].owner && claims[i].epoch == claims[j].epoch
    ensures Run(pool, h).claims[i].phase.result.value == Run(pool, h).claims[j].phase.result.value
  {
    RunSafe(pool, h);
    assert Agree(Run(pool, h).claims[i], Run(pool, h).claims[j]);
  }

  /** A claim that answered "exhausted", with no release since it began. */
  predicate RanOut(s: State, id: nat) {
    id in s.claims && s.claims[id].phase == Done(Exhausted) && s.claims[id].since == s.releases
  }

  /** Every grantable port is granted or failed the claim's own bind test. */
  ghost predicate AllSpent(pool: Pool, s: State, id: nat)
    requires id in s.claims
  {
    forall v :: Grantable(pool, v) ==> v in s.claims[id].squatted || v in s.grants.Values
  }

  /** "Exhausted" against the ports: the ones left over are exactly those that a failed re-check passed over while they
      were free, and that nobody was granted since. */
  lemma LeftOver(pool: Pool, s: State, id: nat, v: int)
    requires Safe(pool, s) && RanOut(s, id)
    ensures Grantable(pool, v) && v !in s.claims[id].squatted && v !in s.grants.Values
            <==> v in s.claims[id].skipped && v !in s.grants.Values
    ensures v in s.claims[id].skipped ==> s.claims[id].owner in s.grants
  {
    assert Honest(pool, s, s.claims[id]) && Placed(pool, s.claims[id]);
  }

  /** "Exhausted" is honest exactly when every free port that a failed re-check passed over was granted since. That is
      so, in particular, when no re-check failed at a free port, and when the owner has no row. */
  lemma ExhaustionHonest(pool: Pool, h: seq<Step>, id: nat)
    requires RanOut(Run(pool, h), id)
    ensures var s := Run(pool, h);
            && (AllSpent(pool, s, id) <==> s.claims[id].skipped <= s.grants.Values)
            && (s.claims[id].skipped == {} || s.claims[id].owner !in s.grants ==> AllSpent(pool, s, id))
  {
    var s := Run(pool, h);
    RunSafe(pool, h);
    HonestIff(pool, s, id);
  }

  lemma HonestIff(pool: Pool, s: State, id: nat)
    requires Safe(pool, s) && RanOut(s, id)
    ensures AllSpent(pool, s, id) <==> s.claims[id].skipped <= s.grants.Values
    ensures s.claims[id].skipped == {} || s.claims[id].owner !in s.grants ==> AllSpent(pool, s, id)
  {
    hide Safe;
    forall v
      ensures Grantable(pool, v) && v !in s.claims[id].squatted && v !in s.grants.Values
              <==> v in s.claims[id].skipped && v !in s.grants.Values
      ensures v in s.claims[id].skipped ==> s.claims[id].owner in s.grants
    {
      LeftOver(pool, s, id, v);
    }
    if AllSpent(pool, s, id) {
      forall v | v in s.claims[id].skipped
        ensures v in s.grants.Values
      {
        assert Grantable(pool, v) ==> v in s.claims[id].squatted || v in s.grants.Values;
      }
    }
  }

  const TWO_PORTS := Pool(1, 2, [])

  /** Two first claims of one owner; the second has won port 1, where the first was refused. */
  function Raced(phase: Phase, skipped: set<int>): State {
    var a := NewClaim("a", 0);
    State(map["a" := 1], map[0 := a.(phase := phase, skipped := skipped),
                             1 := a.(phase := Done(Granted(1)), inserted := 1)],
          map[], 0)
  }

  lemma RaceRun() returns (h: seq<Step>)
    ensures Run(TWO_PORTS, h) == Raced(Recheck(1, {}), {})
  {
    var none: map<string, int>, a, w := map[], NewClaim("a", 0), Walk(1, {});
    assert none.Values == {};
    h := Two(TWO_PORTS, [], Begin(0, "a"), Begin(1, "a"));
    assert Run(TWO_PORTS, h) == State(none, map[0 := a, 1 := a], map[], 0);
    h := Two(TWO_PORTS, h, Act(0, true), Act(1, true));
    assert Run(TWO_PORTS, h) == State(none, map[0 := a.(phase := Snapshot), 1 := a.(phase := Snapshot)], map[], 0);
    h := Two(TWO_PORTS, h, Act(0, true), Act(1, true));
    assert Run(TWO_PORTS, h) == State(none, map[0 := a.(phase := w), 1 := a.(phase := w)], map[], 0);
    h := Two(TWO_PORTS, h, Act(1, true), Act(0, true));
  }

  lemma OneValue()
    ensures Raced(Sticky, {}).grants.Values == {1}
  {
    var grants := Raced(Sticky, {}).grants;
    assert grants["a"] == 1;
    assert forall v :: v in grants.Values ==> v == 1;
  }

  /** The run that shows it: both re-checks of the refused claim fail, so it answers "exhausted" with no release, while
      port 2 is neither granted nor failed a bind test. */
  lemma SwallowedRecheck() returns (h: seq<Step>)
    ensures RanOut(Run(TWO_PORTS, h), 0) && !AllSpent(TWO_PORTS, Run(TWO_PORTS, h), 0)
    ensures Run(TWO_PORTS, h) == Raced(Done(Exhausted), {2})
  {
    OneValue();
    h := RaceRun();
    h := Two(TWO_PORTS, h, Error(0), Act(0, true));
    assert Run(TWO_PORTS, h) == Raced(Recheck(2, {}), {});
    var none: set<int> := {};
    assert none + {2} == {2};
    assert Next(TWO_PORTS, Raced(Recheck(2, {}), {}), Error(0)) == Raced(Walk(3, {}), {2});
    h := Two(TWO_PORTS, h, Error(0), Act(0, true));
    assert Run(TWO_PORTS, h) == Raced(Done(Exhausted), {2});
    assert Grantable(TWO_PORTS, 2);
  }

  /** Two more steps of a run. */
  lemma Two(pool: Pool, h: seq<Step>, d: Step, e: Step) returns (g: seq<Step>)
    ensures g == h + [d] + [e] && Run(pool, g) == Next(pool, Next(pool, Run(pool, h), d), e)
  {
    g := h + [d] + [e];
    RunSnoc(pool, EMPTY, h, d);
    RunSnoc(pool, EMPTY, h + [d], e);
  }

  /** Database calls and skips a claim may still make. */
  function Budget(pool: Pool, c: Claim): nat {
    var span := if pool.last < pool.first then 0 else pool.last - pool.first + 1;
    match c.phase
    case Sticky => 2 * span + 4
    case Snapshot => 2 * span + 3
    case Walk(v, _) => if v > pool.last then 1 else 2 * (pool.last - v + 1) + 2
    case Recheck(v, _) => if v > pool.last then 1 else 2 * (pool.last - v + 1) + 1
    case Done(_) => 0
  }

  /** The walk ends: whatever the others do, each action of an unanswered claim, and each failure of its next database
      call, shrinks its budget; the only row it can insert is its own owner's, once, with its answer. */
  lemma ClaimEnds(pool: Pool, s: State, c: Claim, free: bool)
    requires Placed(pool, c) && !c.phase.Done?
    ensures var (grants, c') := Advance(pool, s, c, free);
            && Budget(pool, c') < Budget(pool, c)
            && (if c'.inserted == c.inserted then grants == s.grants
                else c.owner !in s.grants && c'.inserted == c.inserted + 1 && HasPort(c')
                     && grants == s.grants[c.owner := c'.phase.result.value])
    ensures Budget(pool, Fail(pool, s, c)) < Budget(pool, c)
    ensures Fail(pool, s, c).inserted == c.inserted && !HasPort(Fail(pool, s, c))
  {
  }

  lemma {:induction false} InsertsOnce(pool: Pool, h: seq<Step>, id: nat)
    requires id in Run(pool, h).claims
    ensures Run(pool, h).claims[id].inserted <= 1
    ensures Run(pool, h).claims[id].inserted == 1 ==> Run(pool, h).claims[id].phase.Done?
  {
    RunSafe(pool, h);
    assert Honest(pool, Run(pool, h), Run(pool, h).claims[id]);
  }

  // ---- one claim alone

  /** The first port from `v` on that is grantable, unused and free. */
  function Pick(pool: Pool, used: set<int>, bind: int -> bool, v: int): Option<int>
    decreases pool.last + 1 - v
  {
    if v > pool.last then None
    else if v !in pool.avoid && v !in used && bind(v) then Some(v)
    else Pick(pool, used, bind, v + 1)
  }

  lemma {:induction false} PickLeast(pool: Pool, used: set<int>, bind: int -> bool, v: int)
    requires pool.first <= v
    ensures match Pick(pool, used, bind, v)
            case None => forall u :: v <= u && Grantable(pool, u) ==> u in used || !bind(u)
            case Some(p) => v <= p <= pool.last && p !in pool.avoid && p !in used && bind(p)
                            && forall u :: v <= u < p && Grantable(pool, u) ==> u in used || !bind(u)
    decreases pool.last + 1 - v
  {
    if v <= pool.last {
      PickLeast(pool, used, bind, v + 1);
    }
  }

  /** The claim `id` acts `n` times with nobody in between; `bind` answers the tests. */
  function Alone(pool: Pool, s: State, id: nat, bind: int -> bool, n: nat): State
    decreases n
  {
    if n == 0 || id !in s.claims then s
    else
      var phase := s.claims[id].phase;
      Alone(pool, Next(pool, s, Act(id, if phase.Walk? then bind(phase.at) else true)), id, bind, n - 1)
  }

  /** What a claim with no rivals does: the sticky port, else the least candidate, else nothing. */
  function Outcome(pool: Pool, grants: map<string, int>, owner: string, bind: int -> bool): (Result, map<string, int>) {
    if owner in grants then (Granted(grants[owner]), grants)
    else
      match Pick(pool, grants.Values, bind, pool.first)
      case None => (Exhausted, grants)
      case Some(v) => (Granted(v), grants[owner := v])
  }

  lemma {:induction false} AloneWalk(pool: Pool, s: State, id: nat, bind: int -> bool)
    requires id in s.claims && s.claims[id].phase.Walk? && s.claims[id].owner !in s.grants
    requires s.claims[id].phase.used == s.grants.Values
    ensures exists n: nat :: var t := Alone(pool, s, id, bind, n);
              id in t.claims &&
              match Pick(pool, s.grants.Values, bind, s.claims[id].phase.at)
              case None => t.claims[id].phase == Done(Exhausted) && t.grants == s.grants
              case Some(v) => t.claims[id].phase == Done(Granted(v)) && t.grants == s.grants[s.claims[id].owner := v]
    decreases pool.last + 1 - s.claims[id].phase.at
  {
    var v := s.claims[id].phase.at;
    var next := Next(pool, s, Act(id, bind(v)));
    assert Alone(pool, next, id, bind, 0) == next;
    assert Alone(pool, s, id, bind, 1) == next;
    if v <= pool.last && next.claims[id].phase.Walk? {
      AloneWalk(pool, next, id, bind);
      var n: nat :| var t := Alone(pool, next, id, bind, n);
        id in t.claims &&
        match Pick(pool, s.grants.Values, bind, v + 1)
        case None => t.claims[id].phase == Done(Exhausted) && t.grants == s.grants
        case Some(p) => t.claims[id].phase == Done(Granted(p)) && t.grants == s.grants[s.claims[id].owner := p];
      assert Alone(pool, s, id, bind, n + 1) == Alone(pool, next, id, bind, n);
    }
  }

  /** Undisturbed, the protocol computes `Outcome`. */
  lemma AloneOutcome(pool: Pool, s: State, id: nat, bind: int -> bool)
    requires id in s.claims && s.claims[id].phase == Sticky
    ensures exists n: nat :: var t := Alone(pool, s, id, bind, n);
              id in t.claims && (t.claims[id].phase, t.grants)
                                == (Done(Outcome(pool, s.grants, s.claims[id].owner, bind).0),
                                    Outcome(pool, s.grants, s.claims[id].owner, bind).1)
  {
    var one := Next(pool, s, Act(id, true));
    assert Alone(pool, one, id, bind, 0) == one;
    assert Alone(pool, s, id, bind, 1) == one;
    if s.claims[id].owner !in s.grants {
      var two := Next(pool, one, Act(id, true));
      AloneWalk(pool, two, id, bind);
      var n: nat :| var t := Alone(pool, two, id, bind, n);
        id in t.claims &&
        match Pick(pool, s.grants.Values, bind, pool.first)
        case None => t.claims[id].phase == Done(Exhausted) && t.grants == s.grants
        case Some(p) => t.claims[id].phase == Done(Granted(p)) && t.grants == s.grants[s.claims[id].owner := p];
      assert Alone(pool, one, id, bind, n + 1) == Alone(pool, two, id, bind, n);
      assert Alone(pool, s, id, bind, n + 2) == Alone(pool, one, id, bind, n + 1);
    }
  }

  // ---- a row that appears, as a claim of its own

  /** Ids are never used up. */
  lemma {:induction false} FreshId(ids: set<nat>) returns (j: nat)
    ensures forall i :: i in ids ==> i < j
  {
    if ids == {} {
      j := 0;
    } else {
      var i :| i in ids;
      var k := FreshId(ids - {i});
      j := if i < k then k else i + 1;
      assert forall l :: l in ids ==> l == i || l in ids - {i};
    }
  }

  /** From `at` to a candidate, every bind test failing. */
  lemma {:induction false} WalkTo(pool: Pool, s: State, j: nat, v: int) returns (h: seq<Step>)
    requires j in s.claims && s.claims[j].phase.Walk? && s.claims[j].phase.at <= v <= pool.last
    ensures var t := RunFrom(pool, s, h);
            && j in t.claims && t == s.(claims := s.claims[j := t.claims[j]]) && t.claims[j].owner == s.claims[j].owner
            && t.claims[j].phase == Walk(v, s.claims[j].phase.used)
    decreases v - s.claims[j].phase.at
  {
    if s.claims[j].phase.at == v {
      h := [];
    } else {
      var next := Next(pool, s, Act(j, false));
      assert next == s.(claims := s.claims[j := next.claims[j]]);
      var rest := WalkTo(pool, next, j, v);
      h := [Act(j, false)] + rest;
      assert RunFrom(pool, s, []) == s;
      RunSnoc(pool, s, [], Act(j, false));
      RunConcat(pool, s, [Act(j, false)], rest);
      assert [] + [Act(j, false)] == [Act(j, false)];
    }
  }

  /** Whatever row another process inserts, a claim of its own could have inserted it. */
  lemma RivalRun(pool: Pool, s: State, owner: string, v: int) returns (h: seq<Step>)
    requires owner !in s.grants && v !in s.grants.Values && Grantable(pool, v)
    ensures var t := RunFrom(pool, s, h);
            && t == s.(grants := s.grants[owner := v], claims := t.claims)
            && forall i :: i in s.claims ==> i in t.claims && t.claims[i] == s.claims[i]
  {
    var j := FreshId(s.claims.Keys);
    var begun := [Begin(j, owner), Act(j, true), Act(j, true)];
    var c := NewClaim(owner, s.releases);
    var s1 := s.(claims := s.claims[j := c.(phase := Walk(pool.first, s.grants.Values))]);
    RunSnoc(pool, s, [], Begin(j, owner));
    RunSnoc(pool, s, [Begin(j, owner)], Act(j, true));
    RunSnoc(pool, s, [Begin(j, owner), Act(j, true)], Act(j, true));
    assert [] + [Begin(j, owner)] == [Begin(j, owner)];
    assert [Begin(j, owner)] + [Act(j, true)] == [Begin(j, owner), Act(j, true)];
    assert [Begin(j, owner), Act(j, true)] + [Act(j, true)] == begun;
    assert RunFrom(pool, s, begun) == s1;
    var walked := WalkTo(pool, s1, j, v);
    h := begun + walked + [Act(j, true)];
    RunConcat(pool, s, begun, walked);
    RunSnoc(pool, s, begun + walked, Act(j, true));
  }
}

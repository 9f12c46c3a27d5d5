/** What applying a manifest means for the registry, by whatever labels: exact, framed, repeatable. */
module ApplyTheorems {
  import opened Core
  import opened Apply
  import M = Manifest
  import N = Normalize

  function KeyFor(c: M.Claim): Key {
    Key(c.zone, c.name)
  }

  function Keys(claims: seq<M.Claim>): set<Key> {
    set c | c in claims :: KeyFor(c)
  }

  /** The label as written is free for the claim to take or take over. */
  predicate Open(t: Table, c: M.Claim) {
    KeyFor(c) in t.rows ==> Owns(t.rows[KeyFor(c)], c)
  }

  /** Where the claim would insert: its label in normal form. */
  function Target(u: N.Unicode, c: M.Claim): (k: Option<Key>)
    ensures k.Some? ==> k.value.zone == c.zone
  {
    match N.Normal(c.name, Platform, u)
    case Err(_) => None
    case Ok(name) => Some(Key(c.zone, name))
  }

  function Targets(u: N.Unicode, claims: seq<M.Claim>): set<Key> {
    set c | c in claims && Target(u, c).Some? :: Target(u, c).value
  }

  /** The label is written in normal form. */
  predicate Plainly(u: N.Unicode, c: M.Claim) {
    Target(u, c) == Some(KeyFor(c))
  }

  /** The i-th claim finds its label's normal form held, by a row of the table or by an earlier claim. */
  predicate Finds(t: Table, u: N.Unicode, claims: seq<M.Claim>, i: nat)
    requires i < |claims|
  {
    Target(u, claims[i]).Some?
    && (Target(u, claims[i]).value in t.rows || Target(u, claims[i]).value in Targets(u, claims[..i]))
  }

  /** The i-th claim goes through: its label has a normal form, and when that is held, there is a row under the label as
      written, which is the manifest's to take over. */
  predicate Goes(t: Table, u: N.Unicode, claims: seq<M.Claim>, i: nat)
    requires i < |claims|
  {
    && Target(u, claims[i]).Some?
    && (Finds(t, u, claims, i) ==>
          && (KeyFor(claims[i]) in t.rows || KeyFor(claims[i]) in Targets(u, claims[..i]))
          && Open(t, claims[i]))
  }

  /** How many claims come before the first that does not go through. */
  function Reach(t: Table, u: N.Unicode, claims: seq<M.Claim>): (n: nat)
    ensures n <= |claims|
  {
    if claims == [] then 0
    else
      var n := Reach(t, u, claims[..|claims| - 1]);
      if n == |claims| - 1 && Goes(t, u, claims, n) then |claims| else n
  }

  lemma GoesSnoc(t: Table, u: N.Unicode, done: seq<M.Claim>, c: M.Claim, i: nat)
    requires i < |done|
    ensures (done + [c])[..i] == done[..i] && (done + [c])[i] == done[i]
    ensures Finds(t, u, done + [c], i) <==> Finds(t, u, done, i)
    ensures Goes(t, u, done + [c], i) <==> Goes(t, u, done, i)
  {
    hide Target, Targets, Open;
    assert (done + [c])[..i] == done[..i];
  }

  lemma {:induction false} ReachFirst(t: Table, u: N.Unicode, claims: seq<M.Claim>)
    ensures Reach(t, u, claims) == |claims| <==> forall i :: 0 <= i < |claims| ==> Goes(t, u, claims, i)
    ensures forall i :: 0 <= i < Reach(t, u, claims) ==> Goes(t, u, claims, i)
    ensures Reach(t, u, claims) < |claims| ==> !Goes(t, u, claims, Reach(t, u, claims))
  {
    hide Goes;
    if claims != [] {
      var front, c := claims[..|claims| - 1], claims[|claims| - 1];
      assert claims == front + [c];
      ReachFirst(t, u, front);
      forall i | 0 <= i < |front|
        ensures Goes(t, u, claims, i) <==> Goes(t, u, front, i)
      {
        GoesSnoc(t, u, front, c, i);
      }
    }
  }

  // ---- the claims one by one

  /** Claims of one project, in registered zones, no label as written twice. */
  ghost predicate Apart(t: Table, claims: seq<M.Claim>, project: string) {
    && (forall c :: c in claims ==> c.zone != "" && c.zone in t.zones && c.project == project)
    && (forall i, j :: 0 <= i < j < |claims| ==> KeyFor(claims[i]) != KeyFor(claims[j]))
  }

  lemma ApartFront(t: Table, claims: seq<M.Claim>, project: string)
    requires Apart(t, claims, project) && claims != []
    ensures Apart(t, claims[..|claims| - 1], project) && claims[|claims| - 1] in claims
    ensures KeyFor(claims[|claims| - 1]) !in Keys(claims[..|claims| - 1])
  {
    var front := claims[..|claims| - 1];
    forall c | c in front
      ensures c in claims && KeyFor(c) != KeyFor(claims[|claims| - 1])
    {
      var i :| 0 <= i < |front| && front[i] == c;
      assert claims[i] == c;
    }
  }

  /** What is under a key once these claims have gone through. A row of the table is as it was, or taken over by
      the claim of that label, if that found its normal form held; any other row is one that some claim made. */
  ghost predicate At(t: Table, now: Table, u: N.Unicode, done: seq<M.Claim>, wall: int, k: Key) {
    && (k in now.rows <==> k in t.rows || k in Targets(u, done))
    && (k in t.rows && k !in Keys(done) ==> now.rows[k] == t.rows[k])
    && (forall i :: 0 <= i < |done| && KeyFor(done[i]) == k ==> Settles(t, now, u, done, wall, i))
    && (k in now.rows && k !in t.rows ==> exists c :: c in done && Made(now, c, wall, k))
  }

  predicate Made(now: Table, c: M.Claim, wall: int, k: Key) {
    k in now.rows && c.zone == k.zone && now.rows[k] == New(c, k.name, wall).(id := now.rows[k].id)
  }

  /** What the i-th claim leaves under its label as written. */
  predicate Settles(t: Table, now: Table, u: N.Unicode, done: seq<M.Claim>, wall: int, i: nat)
    requires i < |done|
  {
    var c := done[i];
    var k := KeyFor(c);
    if k in t.rows then
      k in now.rows && now.rows[k] == if Finds(t, u, done, i) then Merged(t.rows[k], c, wall) else t.rows[k]
    else Finds(t, u, done, i) || Plainly(u, c) ==> Made(now, c, wall, k)
  }

  lemma AfterIs(p: Progress, u: N.Unicode, c: M.Claim, wall: int)
    requires c.zone != "" && c.zone in p.t.zones
    ensures After(p, u, c, wall) ==
              if Target(u, c) == None then p.(ok := false)
              else if Target(u, c).value !in p.t.rows then
                p.(t := Insert(p.t, New(c, Target(u, c).value.name, wall)), claimed := p.claimed
                   + [Fqdn(c.name, c.zone)])
              else if KeyFor(c) !in p.t.rows || !Owns(p.t.rows[KeyFor(c)], c) then p.(ok := false)
              else p.(t := p.t.(rows := p.t.rows[KeyFor(c) := Merged(p.t.rows[KeyFor(c)], c, wall)]),
                      updated := p.updated + [p.t.rows[KeyFor(c)].fqdn])
  {
    if c.name == "" {
      assert N.Normal("", Platform, u).Err?;
    }
  }

  lemma TargetsSnoc(u: N.Unicode, done: seq<M.Claim>, c: M.Claim)
    ensures Keys(done + [c]) == Keys(done) + {KeyFor(c)}
    ensures Targets(u, done + [c]) == Targets(u, done) + if Target(u, c).Some? then {Target(u, c).value} else {}
  {
    hide Target;
    assert forall d :: d in done + [c] <==> d in done || d == c;
  }

  /** The row in the way is the manifest's if and only if it was so in the table that the run started from, or was not
      there. */
  lemma OwnsThen(t: Table, now: Table, u: N.Unicode, done: seq<M.Claim>, c: M.Claim, wall: int, project: string)
    requires At(t, now, u, done, wall, KeyFor(c)) && KeyFor(c) !in Keys(done) && KeyFor(c) in now.rows
    requires c.project == project && forall d :: d in done ==> d.project == project
    ensures Owns(now.rows[KeyFor(c)], c) <==> Open(t, c)
  {
    hide Target, Targets, Settles;
  }

  /** One claim more, seen from one key. */
  lemma AtStep(t: Table, p: Progress, u: N.Unicode, done: seq<M.Claim>, c: M.Claim, wall: int, project: string, k: Key)
    requires p.t.zones == t.zones && Apart(t, done + [c], project)
    requires At(t, p.t, u, done, wall, k) && At(t, p.t, u, done, wall, KeyFor(c))
    requires Target(u, c).Some? ==> At(t, p.t, u, done, wall, Target(u, c).value)
    ensures var q := After(p, u, c, wall);
            && (if Goes(t, u, done + [c], |done|) then q.ok == p.ok else q == p.(ok := false))
            && q.t.zones == t.zones
            && (Goes(t, u, done + [c], |done|) ==> At(t, q.t, u, done + [c], wall, k))
            && (q.claimed == [] <==>
                  p.claimed == [] && (Goes(t, u, done + [c], |done|) ==> Finds(t, u, done + [c], |done|)))
  {
    hide Target, After, Made, Settles, At, Apart;
    var later := done + [c];
    StepFits(t, p, u, done, c, wall, project);
    if Goes(t, u, later, |done|) {
      AtLater(t, p, u, done, c, wall, project, k);
    }
  }

  lemma StepFits(t: Table, p: Progress, u: N.Unicode, done: seq<M.Claim>, c: M.Claim, wall: int, project: string)
    requires p.t.zones == t.zones && Apart(t, done + [c], project)
    requires At(t, p.t, u, done, wall, KeyFor(c))
    requires Target(u, c).Some? ==> At(t, p.t, u, done, wall, Target(u, c).value)
    ensures var q := After(p, u, c, wall);
            && (if Goes(t, u, done + [c], |done|) then q.ok == p.ok else q == p.(ok := false))
            && q.t.zones == t.zones
            && (q.claimed == [] <==>
                  p.claimed == [] && (Goes(t, u, done + [c], |done|) ==> Finds(t, u, done + [c], |done|)))
  {
    hide Target, After, Made, Settles, Targets, Open;
    var later := done + [c];
    LastApart(t, done, c, project);
    AfterIs(p, u, c, wall);
    assert later[..|done|] == done && later[|done|] == c;
    if KeyFor(c) in p.t.rows {
      OwnsThen(t, p.t, u, done, c, wall, project);
    }
  }

  lemma LastApart(t: Table, done: seq<M.Claim>, c: M.Claim, project: string)
    requires Apart(t, done + [c], project)
    ensures c.zone != "" && c.zone in t.zones && c.project == project && KeyFor(c) !in Keys(done)
    ensures forall d :: d in done ==> d.project == project
  {
    var later := done + [c];
    ApartFront(t, later, project);
    assert later[..|later| - 1] == done && later[|later| - 1] == c;
  }

  lemma AtLater(t: Table, p: Progress, u: N.Unicode, done: seq<M.Claim>, c: M.Claim, wall: int, project: string, k: Key)
    requires p.t.zones == t.zones && Apart(t, done + [c], project) && Goes(t, u, done + [c], |done|)
    requires At(t, p.t, u, done, wall, k) && At(t, p.t, u, done, wall, KeyFor(c))
    requires At(t, p.t, u, done, wall, Target(u, c).value)
    ensures At(t, After(p, u, c, wall).t, u, done + [c], wall, k)
  {
    hide Target, After, Targets, Open, At, Merged, New;
    LastApart(t, done, c, project);
    AfterIs(p, u, c, wall);
    AtHolds(t, p.t, u, done, c, wall);
    assert (done + [c])[..|done|] == done && (done + [c])[|done|] == c;
    if Target(u, c).value !in p.t.rows {
      AtInserted(t, p.t, u, done, c, wall, k);
    } else {
      OwnsThen(t, p.t, u, done, c, wall, project);
      AtMerged(t, p.t, u, done, c, wall, project, k);
    }
  }

  lemma AtHolds(t: Table, now: Table, u: N.Unicode, done: seq<M.Claim>, c: M.Claim, wall: int)
    requires Target(u, c).Some? && At(t, now, u, done, wall, Target(u, c).value) && At(t, now, u, done, wall, KeyFor(c))
    ensures Finds(t, u, done + [c], |done|) <==> Target(u, c).value in now.rows
    ensures KeyFor(c) in now.rows <==> KeyFor(c) in t.rows || KeyFor(c) in Targets(u, done)
  {
    hide Target, Targets, Settles, Made;
    assert (done + [c])[..|done|] == done;
  }

  lemma SettlesStill(t: Table, now: Table, later: Table, u: N.Unicode, done: seq<M.Claim>, c: M.Claim, wall: int,
                     i: nat)
    requires i < |done| && Settles(t, now, u, done, wall, i)
    requires KeyFor(done[i]) in now.rows ==>
               KeyFor(done[i]) in later.rows && later.rows[KeyFor(done[i])] == now.rows[KeyFor(done[i])]
    ensures Settles(t, later, u, done + [c], wall, i)
  {
    hide Target, Targets, Merged, New;
    GoesSnoc(t, u, done, c, i);
  }

  /** A row that stays as it is when a claim for another label lands. */
  lemma AtOther(t: Table, now: Table, later: Table, u: N.Unicode, done: seq<M.Claim>, c: M.Claim, wall: int, k: Key)
    requires At(t, now, u, done, wall, k) && Target(u, c).Some?
    requires k in later.rows <==> k in now.rows || k == Target(u, c).value
    requires k in now.rows ==> later.rows[k] == now.rows[k]
    requires k in later.rows && k !in now.rows ==> Made(later, c, wall, k)
    requires KeyFor(c) == k ==> Settles(t, later, u, done + [c], wall, |done|)
    ensures At(t, later, u, done + [c], wall, k)
  {
    hide Target, Merged, New, Settles, Finds, Targets;
    TargetsSnoc(u, done, c);
    forall i | 0 <= i < |done| && KeyFor(done[i]) == k
      ensures Settles(t, later, u, done + [c], wall, i)
    {
      assert done[i] in done && k in Keys(done);
      SettlesStill(t, now, later, u, done, c, wall, i);
    }
    if k in later.rows && k !in t.rows {
      if k in now.rows {
        var d :| d in done && Made(now, d, wall, k);
        assert d in done + [c] && Made(later, d, wall, k);
      } else {
        assert c in done + [c];
      }
    }
  }

  lemma AtInserted(t: Table, now: Table, u: N.Unicode, done: seq<M.Claim>, c: M.Claim, wall: int, k: Key)
    requires Target(u, c).Some? && Target(u, c).value !in now.rows && KeyFor(c) !in Keys(done)
    requires At(t, now, u, done, wall, k) && At(t, now, u, done, wall, KeyFor(c))
    requires At(t, now, u, done, wall, Target(u, c).value)
    ensures At(t, Insert(now, New(c, Target(u, c).value.name, wall)), u, done + [c], wall, k)
  {
    hide Target, At;
    var later := Insert(now, New(c, Target(u, c).value.name, wall));
    AtHolds(t, now, u, done, c, wall);
    InsertedMade(now, c, wall, Target(u, c).value);
    if KeyFor(c) == k {
      InsertedSettles(t, now, u, done, c, wall);
    }
    AtOther(t, now, later, u, done, c, wall, k);
  }

  lemma InsertedMade(now: Table, c: M.Claim, wall: int, k: Key)
    requires c.zone == k.zone && k !in now.rows
    ensures var later := Insert(now, New(c, k.name, wall));
            && later.rows.Keys == now.rows.Keys + {k} && Made(later, c, wall, k)
            && forall l :: l in now.rows ==> later.rows[l] == now.rows[l]
  {
  }

  lemma InsertedSettles(t: Table, now: Table, u: N.Unicode, done: seq<M.Claim>, c: M.Claim, wall: int)
    requires Target(u, c).Some? && Target(u, c).value !in now.rows && KeyFor(c) !in Keys(done)
    requires At(t, now, u, done, wall, KeyFor(c)) && !Finds(t, u, done + [c], |done|)
    ensures Settles(t, Insert(now, New(c, Target(u, c).value.name, wall)), u, done + [c], wall, |done|)
  {
    hide Target, Targets, Finds;
    InsertedMade(now, c, wall, Target(u, c).value);
  }

  lemma AtMerged(t: Table, now: Table, u: N.Unicode, done: seq<M.Claim>, c: M.Claim, wall: int, project: string, k: Key)
    requires Target(u, c).Some? && Target(u, c).value in now.rows && KeyFor(c) !in Keys(done) && KeyFor(c) in now.rows
    requires At(t, now, u, done, wall, k) && At(t, now, u, done, wall, KeyFor(c))
    requires At(t, now, u, done, wall, Target(u, c).value)
    requires c.project == project && forall d :: d in done ==> d.project == project
    ensures At(t, now.(rows := now.rows[KeyFor(c) := Merged(now.rows[KeyFor(c)], c, wall)]), u, done + [c], wall, k)
  {
    hide Target, At, Targets, Finds, Settles;
    var later := now.(rows := now.rows[KeyFor(c) := Merged(now.rows[KeyFor(c)], c, wall)]);
    AtHolds(t, now, u, done, c, wall);
    MergedSettles(t, now, u, done, c, wall, project);
    if KeyFor(c) == k {
      MergedAt(t, now, u, done, c, wall, project);
    } else {
      AtOther(t, now, later, u, done, c, wall, k);
    }
  }

  lemma MergedMade(t: Table, now: Table, u: N.Unicode, done: seq<M.Claim>, c: M.Claim, wall: int, project: string)
    requires KeyFor(c) !in Keys(done) && KeyFor(c) in now.rows && At(t, now, u, done, wall, KeyFor(c))
    requires c.project == project && forall d :: d in done ==> d.project == project
    ensures var k, later := KeyFor(c), now.(rows := now.rows[KeyFor(c) := Merged(now.rows[KeyFor(c)], c, wall)]);
            if k in t.rows then later.rows[k] == Merged(t.rows[k], c, wall) else Made(later, c, wall, k)
  {
    hide Target, Targets, Settles;
    var k := KeyFor(c);
    if k !in t.rows {
      var d :| d in done && Made(now, d, wall, k);
    }
  }

  lemma MergedSettles(t: Table, now: Table, u: N.Unicode, done: seq<M.Claim>, c: M.Claim, wall: int, project: string)
    requires KeyFor(c) !in Keys(done) && KeyFor(c) in now.rows && At(t, now, u, done, wall, KeyFor(c))
    requires c.project == project && forall d :: d in done ==> d.project == project
    requires Finds(t, u, done + [c], |done|)
    ensures Settles(t, now.(rows := now.rows[KeyFor(c) := Merged(now.rows[KeyFor(c)], c, wall)]), u, done
                    + [c], wall, |done|)
  {
    hide Target, Targets, Finds, At, Made, Merged;
    MergedMade(t, now, u, done, c, wall, project);
    assert (done + [c])[|done|] == c;
  }

  lemma MergedAt(t: Table, now: Table, u: N.Unicode, done: seq<M.Claim>, c: M.Claim, wall: int, project: string)
    requires Target(u, c).Some? && Target(u, c).value in now.rows && KeyFor(c) !in Keys(done) && KeyFor(c) in now.rows
    requires At(t, now, u, done, wall, KeyFor(c))
    requires c.project == project && forall d :: d in done ==> d.project == project
    requires Finds(t, u, done + [c], |done|)
    ensures At(t, now.(rows := now.rows[KeyFor(c) := Merged(now.rows[KeyFor(c)], c, wall)]), u, done
               + [c], wall, KeyFor(c))
  {
    hide Target, Targets, Finds, Made, Merged, Settles;
    var later := now.(rows := now.rows[KeyFor(c) := Merged(now.rows[KeyFor(c)], c, wall)]);
    TargetsSnoc(u, done, c);
    MergedMade(t, now, u, done, c, wall, project);
    MergedSettles(t, now, u, done, c, wall, project);
    forall i | 0 <= i < |done|
      ensures KeyFor((done + [c])[i]) != KeyFor(c)
    {
      assert done[i] in done && (done + [c])[i] == done[i];
    }
    assert c in done + [c];
  }

  /** The run takes its claims up to the first that does not go through, and this is what it leaves under each key. */
  lemma {:induction false} StepsAt(t: Table, u: N.Unicode, claims: seq<M.Claim>, wall: int, project: string, k: Key)
    requires Apart(t, claims, project)
    ensures var p, n := Steps(t, u, claims, wall), Reach(t, u, claims);
            && (p.ok <==> n == |claims|) && p.t.zones == t.zones
            && At(t, p.t, u, claims[..n], wall, k)
            && (p.ok ==> (p.claimed == [] <==> Targets(u, claims) <= t.rows.Keys))
  {
    hide At, After, Goes, Targets, Target;
    if claims == [] {
      AtStart(t, u, wall, k);
    } else {
      var front, c := claims[..|claims| - 1], claims[|claims| - 1];
      ApartFront(t, claims, project);
      StepsAt(t, u, front, wall, project, k);
      var p, n := Steps(t, u, front, wall), Reach(t, u, front);
      assert claims[..n] == front[..n];
      if p.ok {
        assert front[..n] == front && front + [c] == claims == claims[..|claims|];
        StepsAt(t, u, front, wall, project, KeyFor(c));
        if Target(u, c).Some? {
          StepsAt(t, u, front, wall, project, Target(u, c).value);
        }
        AtStep(t, p, u, front, c, wall, project, k);
        if Goes(t, u, claims, |front|) {
          ClaimedSnoc(t, u, front, c);
        }
      }
    }
  }

  lemma AtStart(t: Table, u: N.Unicode, wall: int, k: Key)
    ensures At(t, t, u, [], wall, k) && Targets(u, []) == {}
  {
  }

  lemma ClaimedSnoc(t: Table, u: N.Unicode, done: seq<M.Claim>, c: M.Claim)
    requires Goes(t, u, done + [c], |done|)
    ensures Targets(u, done + [c]) <= t.rows.Keys
            <==> Targets(u, done) <= t.rows.Keys && Finds(t, u, done + [c], |done|)
  {
    hide Target;
    TargetsSnoc(u, done, c);
    assert (done + [c])[..|done|] == done;
  }

  lemma {:induction false} StepsValid(t: Table, u: N.Unicode, claims: seq<M.Claim>, wall: int)
    requires ValidRows(t.rows, t.nextId)
    ensures ValidRows(Steps(t, u, claims, wall).t.rows, Steps(t, u, claims, wall).t.nextId)
  {
    hide N.Normal, After, ValidRows;
    if claims != [] {
      StepsValid(t, u, claims[..|claims| - 1], wall);
      var p := Steps(t, u, claims[..|claims| - 1], wall);
      if p.ok {
        AfterValid(p, u, claims[|claims| - 1], wall);
      }
    }
  }

  // ---- from a manifest to its run

  /** The runs the theorems speak of: an accepted manifest that compiled, on valid tables. */
  ghost predicate Regular(x: Run) {
    M.Accepted(x.m) && ValidRows(x.before.rows, x.before.nextId) && Replied(x) && !x.reply.Invalid?
  }

  ghost predicate NormalLabels(u: N.Unicode, claims: seq<M.Claim>) {
    forall c :: c in claims ==> Plainly(u, c)
  }

  lemma ClaimsApart(m: M.Manifest, env: M.Resolver, t: Table, claims: seq<M.Claim>)
    requires M.Accepted(m) && M.Compiled(m, env, claims, m.services.Keys)
    ensures Apart(Ensured(t, m), claims, m.RoutingProject())
  {
    hide M.RoutesOf, M.LabelFor, M.AcceptedService;
    OneProject(m, env, claims);
    if claims != [] {
      assert claims[0] in claims && M.Routed(m, claims[0].service);
      assert m.ManagesRoutes() && m.zone != "";
    }
    forall i, j | 0 <= i < j < |claims|
      ensures KeyFor(claims[i]) != KeyFor(claims[j])
    {
    }
  }

  /** The claims of a run that go through. */
  function Done(x: Run): seq<M.Claim> {
    x.claims[..Reach(x.before, x.u, x.claims)]
  }

  lemma {:induction false} ReachSame(t: Table, s: Table, u: N.Unicode, claims: seq<M.Claim>)
    requires t.rows == s.rows
    ensures Reach(t, u, claims) == Reach(s, u, claims)
  {
    hide Target, Targets;
    if claims != [] {
      ReachSame(t, s, u, claims[..|claims| - 1]);
    }
  }

  /** What a run leaves under a key before anything is pruned. */
  lemma LandsAt(x: Run, k: Key)
    requires M.Accepted(x.m) && Replied(x) && !x.reply.Invalid?
    ensures var p := Landing(x);
            && (p.ok <==> Done(x) == x.claims) && (p.ok <==> Reach(x.before, x.u, x.claims) == |x.claims|)
            && At(x.before, p.t, x.u, Done(x), x.wall, k)
            && (p.ok ==> (p.claimed == [] <==> Targets(x.u, x.claims) <= x.before.rows.Keys))
  {
    hide Steps, M.Compiled, M.Defective, M.Accepted, Apart, At, Targets;
    ClaimsApart(x.m, x.env, x.before, x.claims);
    var t, n := Ensured(x.before, x.m), Reach(x.before, x.u, x.claims);
    StepsAt(t, x.u, x.claims, x.wall, x.m.RoutingProject(), k);
    ReachSame(x.before, t, x.u, x.claims);
    AtSame(x.before, t, Landing(x).t, x.u, Done(x), x.wall, k);
    assert x.claims[..|x.claims|] == x.claims;
  }

  lemma AtSame(t: Table, s: Table, now: Table, u: N.Unicode, done: seq<M.Claim>, wall: int, k: Key)
    requires t.rows == s.rows && At(s, now, u, done, wall, k)
    ensures At(t, now, u, done, wall, k)
  {
    hide Target, Targets, Made;
  }

  /** A run stops if and only if some claim does not go through. When all labels are written in normal form, that is to
      say that a declared label belongs to somebody else. */
  lemma ApplyStopsIff(x: Run)
    requires Regular(x)
    ensures x.reply.Stopped? <==> exists i :: 0 <= i < |x.claims| && !Goes(x.before, x.u, x.claims, i)
    ensures NormalLabels(x.u, x.claims) ==> (x.reply.Stopped? <==> exists c :: c in x.claims && !Open(x.before, c))
  {
    hide Steps, M.Compiled, M.Accepted, M.Defective, Goes, At, Targets, NormalLabels, Open, ValidRows;
    LandsAt(x, Key("", ""));
    ReachFirst(x.before, x.u, x.claims);
    if NormalLabels(x.u, x.claims) {
      ClaimsApart(x.m, x.env, x.before, x.claims);
      forall i | 0 <= i < |x.claims|
        ensures Goes(x.before, x.u, x.claims, i) <==> Open(x.before, x.claims[i])
      {
        GoesPlainly(x.before, x.u, x.claims, i);
      }
    }
  }

  lemma GoesPlainly(t: Table, u: N.Unicode, claims: seq<M.Claim>, i: nat)
    requires NormalLabels(u, claims) && i < |claims|
    requires forall i, j :: 0 <= i < j < |claims| ==> KeyFor(claims[i]) != KeyFor(claims[j])
    ensures Goes(t, u, claims, i) <==> Open(t, claims[i])
    ensures Finds(t, u, claims, i) <==> KeyFor(claims[i]) in t.rows
  {
    hide Target;
    assert claims[i] in claims;
    forall c | c in claims[..i]
      ensures Target(u, c) == Some(KeyFor(c)) && KeyFor(c) != KeyFor(claims[i])
    {
      var j :| 0 <= j < i && claims[j] == c;
      assert c in claims;
    }
  }

  /** The table a run leaves. */
  function Final(x: Run): map<Key, Allocation> {
    var p := Landing(x);
    if p.ok && Prunes(x) then Pruned(p.t.rows, x.m.zone, x.m.RoutingProject(), Names(x.claims)) else p.t.rows
  }

  lemma RunFinal(x: Run)
    requires Replied(x) && !x.reply.Invalid?
    ensures var p := Landing(x);
            && x.after.rows == Final(x) && x.after.zones == p.t.zones && x.after.nextId == p.t.nextId
            && (x.reply.Applied? <==> p.ok)
            && (x.reply.Applied? ==>
                  && x.reply.claimed == p.claimed
                  && (x.reply.pruned == [] <==> x.after.rows == p.t.rows))
    ensures M.Compiled(x.m, x.env, x.claims, x.m.services.Keys)
  {
    hide M.Compiled, M.Defective, Steps, Ensured;
  }

  lemma ProjectNamed(m: M.Manifest)
    requires M.Accepted(m)
    ensures m.RoutingProject() != ""
  {
  }

  lemma FinalRows(x: Run, k: Key)
    requires M.Accepted(x.m) && k in Landing(x).t.rows && KeyOf(Landing(x).t.rows[k]) == k
    ensures k in Final(x) ==> Final(x)[k] == Landing(x).t.rows[k]
    ensures k !in Final(x) <==>
              && Landing(x).ok && Prunes(x) && k.zone == x.m.zone && k.name !in Names(x.claims)
              && Landing(x).t.rows[k].source == FromManifest
              && Landing(x).t.rows[k].project == x.m.RoutingProject() && Landing(x).t.rows[k].state != Released
  {
    ProjectNamed(x.m);
  }

  lemma FinalValid(x: Run)
    requires ValidRows(Landing(x).t.rows, Landing(x).t.nextId)
    ensures ValidRows(Final(x), Landing(x).t.nextId)
    ensures forall k :: k in Landing(x).t.rows ==> KeyOf(Landing(x).t.rows[k]) == k
    ensures Final(x).Keys <= Landing(x).t.rows.Keys
  {
  }

  lemma DeclaredStays(x: Run, c: M.Claim)
    requires M.Accepted(x.m) && c in x.claims && KeyFor(c) in Landing(x).t.rows
             && KeyOf(Landing(x).t.rows[KeyFor(c)]) == KeyFor(c)
    ensures KeyFor(c) in Final(x) && Final(x)[KeyFor(c)] == Landing(x).t.rows[KeyFor(c)]
  {
    hide Final;
    FinalRows(x, KeyFor(c));
    assert c.name in Names(x.claims);
  }

  /** The row of a claim whose label is written in normal form. */
  lemma PlainlySettled(x: Run, c: M.Claim)
    requires M.Accepted(x.m) && Replied(x) && x.reply.Applied? && c in x.claims && Plainly(x.u, c)
    ensures var k, rows := KeyFor(c), Landing(x).t.rows;
            && k in rows
            && rows[k] == if k in x.before.rows then Merged(x.before.rows[k], c, x.wall)
                          else New(c, c.name, x.wall).(id := rows[k].id)
  {
    hide Steps, M.Compiled, M.Accepted, M.Defective, Target, Targets;
    RunFinal(x);
    LandsAt(x, KeyFor(c));
    var i :| 0 <= i < |x.claims| && x.claims[i] == c;
    assert Settles(x.before, Landing(x).t, x.u, x.claims, x.wall, i);
  }

  /** After a successful run each declared label that is written in normal form holds its spec and owner; if it
      pruned, the zone's manifest rows of the project are declared labels, every one. */
  lemma ApplyExact(x: Run)
    requires Regular(x) && x.reply.Applied?
    ensures ValidRows(x.after.rows, x.after.nextId)
    ensures forall c :: c in x.claims && Plainly(x.u, c) ==>
              && KeyFor(c) in x.after.rows && x.after.rows[KeyFor(c)].spec == c.spec
              && x.after.rows[KeyFor(c)].ownerRef == c.ownerRef
                 && x.after.rows[KeyFor(c)].project == x.m.RoutingProject()
    ensures forall k :: (Prunes(x) && k in x.after.rows && k.zone == x.m.zone && x.after.rows[k].source == FromManifest
                         && x.after.rows[k].project == x.m.RoutingProject() && x.after.rows[k].state != Released) ==>
              k.name in Names(x.claims)
  {
    hide M.Compiled, M.Accepted, Final, ValidRows, Replied, Landing, Target;
    RunFinal(x);
    OneProject(x.m, x.env, x.claims);
    LandingValid(x);
    FinalValid(x);
    forall c | c in x.claims && Plainly(x.u, c)
      ensures KeyFor(c) in x.after.rows && x.after.rows[KeyFor(c)].spec == c.spec
              && x.after.rows[KeyFor(c)].ownerRef == c.ownerRef && x.after.rows[KeyFor(c)].project == c.project
    {
      PlainlySettled(x, c);
      DeclaredStays(x, c);
    }
    forall k | k in x.after.rows
      ensures !(Prunes(x) && k.zone == x.m.zone && k.name !in Names(x.claims) && x.after.rows[k].source == FromManifest
                && x.after.rows[k].project == x.m.RoutingProject() && x.after.rows[k].state != Released)
    {
      FinalRows(x, k);
    }
  }

  lemma LandingValid(x: Run)
    requires ValidRows(x.before.rows, x.before.nextId)
    ensures ValidRows(Landing(x).t.rows, Landing(x).t.nextId)
  {
    hide ValidRows, Steps;
    StepsValid(Ensured(x.before, x.m), x.u, x.claims, x.wall);
  }

  /** The row of such a label, by its columns: a new one is an active platform row of the manifest, and a found one
      keeps all but its spec, its owner and its project. */
  lemma ClaimedRow(x: Run, c: M.Claim)
    requires Regular(x) && x.reply.Applied? && c in x.claims && Plainly(x.u, c)
    ensures var k, project := KeyFor(c), x.m.RoutingProject();
            && k in x.after.rows
            && x.after.rows[k] ==
               if k in x.before.rows then
                 x.before.rows[k].(spec := c.spec, ownerRef := c.ownerRef, project := project, updatedAt := x.wall)
               else
                 Allocation(x.after.rows[k].id, x.m.zone, project, c.name, Fqdn(c.name, x.m.zone), Platform,
                            FromManifest,
                            c.ownerRef, "", Active, c.spec, None, map[], None, x.wall)
  {
    hide M.Compiled, M.Accepted, Final, ValidRows, Replied, Landing, Target;
    RunFinal(x);
    OneProject(x.m, x.env, x.claims);
    LandingValid(x);
    FinalValid(x);
    PlainlySettled(x, c);
    DeclaredStays(x, c);
  }

  /** A run registers its zone, as a development zone under the default policy, unless the zone is there, and
      prunes if it is asked to, when the manifest has a zone and routes, or nothing at all. */
  lemma RunZones(x: Run)
    requires Replied(x)
    ensures var manages := (exists s <- x.m.services :: !x.m.services[s].catalogOnly)
                           || (|x.m.services| == 0 && x.m.resources == 0);
            && (Prunes(x) <==> x.prune && x.m.zone != "" && manages)
            && x.after.zones == if x.m.zone != "" && manages && x.m.zone !in x.before.zones
                                then x.before.zones[x.m.zone := Zone(x.m.zone, true, "default")] else x.before.zones
  {
    hide M.Compiled, M.Defective, Steps;
    if !x.reply.Invalid? {
      StepsZones(Ensured(x.before, x.m), x.u, x.claims, x.wall);
    }
    assert |x.m.services| == 0 <==> x.m.services == map[];
  }

  lemma {:induction false} StepsZones(t: Table, u: N.Unicode, claims: seq<M.Claim>, wall: int)
    ensures Steps(t, u, claims, wall).t.zones == t.zones
  {
    if claims != [] {
      StepsZones(t, u, claims[..|claims| - 1], wall);
    }
  }

  /** The name a reply gives for a label that was found. */
  function FoundName(t: Table, c: M.Claim): string {
    if KeyFor(c) in t.rows then t.rows[KeyFor(c)].fqdn else Fqdn(c.name, c.zone)
  }

  ghost predicate Named(t: Table, u: N.Unicode, claims: seq<M.Claim>, n: nat, finds: bool, name: string)
    requires n <= |claims|
  {
    exists i :: 0 <= i < n && (Finds(t, u, claims, i) <==> finds)
                && name == if finds then FoundName(t, claims[i]) else Fqdn(claims[i].name, claims[i].zone)
  }

  lemma {:induction false} StepsNamed(t: Table, u: N.Unicode, claims: seq<M.Claim>, wall: int, project: string)
    requires Apart(t, claims, project)
    ensures var p, n := Steps(t, u, claims, wall), Reach(t, u, claims);
            forall name :: (name in p.claimed <==> Named(t, u, claims, n, false, name))
                           && (name in p.updated <==> Named(t, u, claims, n, true, name))
  {
    hide At, After, Goes, Target, Finds, Apart;
    if claims != [] {
      var front, c := claims[..|claims| - 1], claims[|claims| - 1];
      ApartFront(t, claims, project);
      StepsNamed(t, u, front, wall, project);
      StepsAt(t, u, front, wall, project, KeyFor(c));
      var p, n := Steps(t, u, front, wall), Reach(t, u, front);
      assert front + [c] == claims;
      forall name, finds
        ensures Named(t, u, claims, n, finds, name) <==> Named(t, u, front, n, finds, name)
      {
        NamedFront(t, u, front, c, n, finds, name);
      }
      if p.ok {
        assert front[..n] == front;
        if Target(u, c).Some? {
          StepsAt(t, u, front, wall, project, Target(u, c).value);
        }
        NamedStep(t, p, u, front, c, wall, project);
        forall name, finds
          ensures Named(t, u, claims, |claims|, finds, name) <==>
                    Named(t, u, claims, |front|, finds, name)
                    || ((Finds(t, u, claims, |front|) <==> finds)
                        && name == if finds then FoundName(t, c) else Fqdn(c.name, c.zone))
        {
        }
      }
    }
  }

  lemma NamedFront(t: Table, u: N.Unicode, front: seq<M.Claim>, c: M.Claim, n: nat, finds: bool, name: string)
    requires n <= |front|
    ensures Named(t, u, front + [c], n, finds, name) <==> Named(t, u, front, n, finds, name)
  {
    hide Finds, FoundName;
    forall i | 0 <= i < n
      ensures (front + [c])[i] == front[i] && (Finds(t, u, front + [c], i) <==> Finds(t, u, front, i))
    {
      GoesSnoc(t, u, front, c, i);
    }
  }

  lemma NamedStep(t: Table, p: Progress, u: N.Unicode, done: seq<M.Claim>, c: M.Claim, wall: int, project: string)
    requires p.t.zones == t.zones && Apart(t, done + [c], project) && p.ok
    requires At(t, p.t, u, done, wall, KeyFor(c))
    requires Target(u, c).Some? ==> At(t, p.t, u, done, wall, Target(u, c).value)
    ensures var q, i := After(p, u, c, wall), |done|;
            if !Goes(t, u, done + [c], i) then q == p.(ok := false)
            else if Finds(t, u, done + [c], i) then q.updated == p.updated + [FoundName(t, c)] && q.claimed == p.claimed
            else q.claimed == p.claimed + [Fqdn(c.name, c.zone)] && q.updated == p.updated
  {
    hide Target, After, Settles, Targets, Open;
    LastApart(t, done, c, project);
    AfterIs(p, u, c, wall);
    assert (done + [c])[..|done|] == done && (done + [c])[|done|] == c;
    if KeyFor(c) in p.t.rows {
      OwnsThen(t, p.t, u, done, c, wall, project);
    }
  }

  /** What a successful run reports: a label whose normal form was free is claimed, and any other is updated. */
  lemma ReplyNames(x: Run)
    requires M.Accepted(x.m) && Replied(x) && x.reply.Applied?
    ensures forall name ::
              && (name in x.reply.claimed <==> Named(x.before, x.u, x.claims, |x.claims|, false, name))
              && (name in x.reply.updated <==> Named(x.before, x.u, x.claims, |x.claims|, true, name))
  {
    hide M.Compiled, M.Accepted, M.Defective, Steps, Finds, Apart, At;
    RunFinal(x);
    ClaimsApart(x.m, x.env, x.before, x.claims);
    LandsAt(x, Key("", ""));
    var t := Ensured(x.before, x.m);
    StepsNamed(t, x.u, x.claims, x.wall, x.m.RoutingProject());
    ReachSame(x.before, t, x.u, x.claims);
    forall name, finds
      ensures Named(t, x.u, x.claims, |x.claims|, finds, name) <==>
                Named(x.before, x.u, x.claims, |x.claims|, finds, name)
    {
      NamedSame(x.before, t, x.u, x.claims, finds, name);
    }
  }

  lemma NamedSame(t: Table, s: Table, u: N.Unicode, claims: seq<M.Claim>, finds: bool, name: string)
    requires t.rows == s.rows
    ensures Named(t, u, claims, |claims|, finds, name) <==> Named(s, u, claims, |claims|, finds, name)
  {
    hide Target, Targets;
  }

  /** What a row of the table, and one that was not there, can have become before anything is pruned. */
  lemma LandingFrame(x: Run, k: Key)
    requires M.Accepted(x.m) && Replied(x) && !x.reply.Invalid?
    ensures k in x.before.rows ==> k in Landing(x).t.rows
    ensures k in x.before.rows && Landing(x).t.rows[k] != x.before.rows[k] ==>
              exists c :: c in x.claims && KeyFor(c) == k && Owns(x.before.rows[k], c)
                          && Landing(x).t.rows[k] == Merged(x.before.rows[k], c, x.wall)
    ensures k in Landing(x).t.rows && k !in x.before.rows ==>
              k in Targets(x.u, x.claims) && exists c :: c in x.claims && Made(Landing(x).t, c, x.wall, k)
  {
    hide M.Compiled, M.Accepted, M.Defective, Replied, Landing, Merged, Made, Owns, Target, Goes, Finds;
    LandsAt(x, k);
    var now := Landing(x).t;
    if k in x.before.rows && k in Keys(Done(x)) {
      var i := DoneIndex(x, k);
      assert Settles(x.before, now, x.u, Done(x), x.wall, i);
      ReachFirst(x.before, x.u, x.claims);
      GoesOpen(x.before, x.u, x.claims, i);
    }
  }

  lemma GoesOpen(t: Table, u: N.Unicode, claims: seq<M.Claim>, i: nat)
    requires i < |claims| && Goes(t, u, claims, i)
    ensures Finds(t, u, claims, i) ==> Open(t, claims[i])
  {
  }

  /** Whatever the reply, a row changes only when a claim takes it over or the run prunes it, and rows appear only as
      the claims of declared labels, in normal form. */
  lemma ApplyFrame(x: Run, k: Key)
    requires Regular(x)
    ensures k in x.before.rows ==>
              || (k in x.after.rows && x.after.rows[k] == x.before.rows[k])
              || (exists c :: c in x.claims && KeyFor(c) == k && Owns(x.before.rows[k], c)
                              && k in x.after.rows && x.after.rows[k] == Merged(x.before.rows[k], c, x.wall))
              || (x.reply.Applied? && Prunes(x) && k.name !in Names(x.claims) && k !in x.after.rows
                  && k.zone == x.m.zone
                  && x.before.rows[k].source == FromManifest && x.before.rows[k].project == x.m.RoutingProject()
                  && x.before.rows[k].state != Released)
    ensures k in x.after.rows && k !in x.before.rows ==>
              k in Targets(x.u, x.claims) && exists c :: c in x.claims && Made(x.after, c, x.wall, k)
  {
    hide M.Compiled, M.Accepted, Final, ValidRows, Replied, Landing, Merged, Owns, Target, Targets;
    RunFinal(x);
    LandingFrame(x, k);
    LandingValid(x);
    FinalValid(x);
    if k in Landing(x).t.rows {
      FinalRows(x, k);
      if k in x.before.rows && Landing(x).t.rows[k] != x.before.rows[k] {
        var c :| c in x.claims && KeyFor(c) == k && Owns(x.before.rows[k], c)
                 && Landing(x).t.rows[k] == Merged(x.before.rows[k], c, x.wall);
        DeclaredStays(x, c);
      }
    }
  }

  lemma DoneIndex(x: Run, k: Key) returns (i: nat)
    requires k in Keys(Done(x))
    ensures i < |Done(x)| && Done(x)[i] == x.claims[i] && KeyFor(x.claims[i]) == k && x.claims[i] in x.claims
    ensures Finds(x.before, x.u, Done(x), i) <==> Finds(x.before, x.u, x.claims, i)
  {
    hide Target, Targets;
    var c :| c in Done(x) && KeyFor(c) == k;
    i :| 0 <= i < |Done(x)| && Done(x)[i] == c;
    assert Done(x)[..i] == x.claims[..i];
  }
}

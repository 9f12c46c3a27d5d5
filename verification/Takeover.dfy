/** Rows that a manifest finds in its way and that are not its own: exactly which of them a run takes over. */
module Takeover {
  import opened Core
  import opened Apply
  import opened ApplyTheorems
  import M = Manifest

  /** A manifest row of the project. */
  predicate Own(row: Allocation, project: string) {
    row.source == FromManifest && row.project == project
  }

  /** The run's i-th claim goes through, names the row's label, carries its owner reference, and finds its normal form
      held. */
  predicate TakesAt(x: Run, k: Key, i: nat)
    requires i < |x.claims|
  {
    && i < Reach(x.before, x.u, x.claims) && KeyFor(x.claims[i]) == k
    && k in x.before.rows && x.claims[i].ownerRef == x.before.rows[k].ownerRef
    && Finds(x.before, x.u, x.claims, i)
  }

  /** The run has such a claim. */
  predicate Takes(x: Run, k: Key) {
    !x.reply.Invalid? && exists i :: 0 <= i < |x.claims| && TakesAt(x, k, i)
  }

  /** In a run by labels written in normal form, a claim that goes through takes every row with its label and its owner
      reference. */
  lemma TakesPlainly(x: Run, k: Key)
    requires M.Accepted(x.m) && Replied(x) && !x.reply.Invalid? && NormalLabels(x.u, x.claims) && k in x.before.rows
    ensures Takes(x, k) <==> exists c :: c in Done(x) && KeyFor(c) == k && c.ownerRef == x.before.rows[k].ownerRef
  {
    hide M.Compiled, M.Accepted, M.Defective, Steps, NormalLabels, Target;
    ClaimsApart(x.m, x.env, x.before, x.claims);
    forall i | 0 <= i < |Done(x)|
      ensures Done(x)[i] == x.claims[i] && x.claims[i] in x.claims
      ensures Finds(x.before, x.u, x.claims, i) <==> KeyFor(x.claims[i]) in x.before.rows
    {
      GoesPlainly(x.before, x.u, x.claims, i);
    }
    if c :| c in Done(x) && KeyFor(c) == k && c.ownerRef == x.before.rows[k].ownerRef {
      var i :| 0 <= i < |Done(x)| && Done(x)[i] == c;
      assert TakesAt(x, k, i);
    }
    if Takes(x, k) {
      var i :| 0 <= i < |x.claims| && TakesAt(x, k, i);
      assert Done(x)[i] in Done(x);
    }
  }

  /** Before anything is pruned, a row that is not the project's own has become the taking claim's, or is as it was. */
  lemma LandingTakes(x: Run, k: Key)
    requires M.Accepted(x.m) && Replied(x) && !x.reply.Invalid?
    requires k in x.before.rows && !Own(x.before.rows[k], x.m.RoutingProject())
    ensures k in Landing(x).t.rows
    ensures forall i :: 0 <= i < |x.claims| && TakesAt(x, k, i) ==>
              Landing(x).t.rows[k] == Merged(x.before.rows[k], x.claims[i], x.wall) && x.claims[i] in x.claims
    ensures !Takes(x, k) ==> Landing(x).t.rows[k] == x.before.rows[k]
  {
    hide M.Compiled, M.Accepted, Replied, Landing, Merged, Made, Target, Goes, Finds;
    RunFinal(x);
    LandsAt(x, k);
    OneProject(x.m, x.env, x.claims);
    ReachFirst(x.before, x.u, x.claims);
    forall i | 0 <= i < |x.claims| && TakesAt(x, k, i)
      ensures Landing(x).t.rows[k] == Merged(x.before.rows[k], x.claims[i], x.wall)
    {
      DoneFinds(x, i);
      assert Settles(x.before, Landing(x).t, x.u, Done(x), x.wall, i);
    }
    if !Takes(x, k) && k in Keys(Done(x)) {
      var i := DoneIndex(x, k);
      assert Settles(x.before, Landing(x).t, x.u, Done(x), x.wall, i);
      GoesOpen(x.before, x.u, x.claims, i);
      assert !TakesAt(x, k, i);
    }
  }

  lemma DoneFinds(x: Run, i: nat)
    requires i < Reach(x.before, x.u, x.claims)
    ensures Done(x)[i] == x.claims[i] && (Finds(x.before, x.u, Done(x), i) <==> Finds(x.before, x.u, x.claims, i))
  {
    hide Target, Targets;
    assert Done(x)[..i] == x.claims[..i];
  }

  /** What a run of the handler does to a row that is not its project's own, whatever the labels and the reply: a
      claim that takes it makes it its own, and without one it is left as it was. */
  lemma TakenOver(x: Run, k: Key)
    requires Regular(x) && k in x.before.rows && !Own(x.before.rows[k], x.m.RoutingProject())
    ensures forall i :: 0 <= i < |x.claims| && TakesAt(x, k, i) ==>
              k in x.after.rows && x.after.rows[k] == Merged(x.before.rows[k], x.claims[i], x.wall)
    ensures !Takes(x, k) ==> k in x.after.rows && x.after.rows[k] == x.before.rows[k]
    ensures NormalLabels(x.u, x.claims) ==>
              (Takes(x, k) <==> exists c :: c in Done(x) && KeyFor(c) == k && c.ownerRef == x.before.rows[k].ownerRef)
    ensures x.reply.Applied? ==> Done(x) == x.claims
  {
    hide M.Compiled, M.Accepted, Replied, Landing, Merged, Final, ValidRows, NormalLabels, Reach, Finds, Target;
    LandingTakes(x, k);
    if NormalLabels(x.u, x.claims) {
      TakesPlainly(x, k);
    }
    LandsAt(x, k);
    RunFinal(x);
    LandingValid(x);
    FinalValid(x);
    FinalRows(x, k);
    forall i | 0 <= i < |x.claims| && TakesAt(x, k, i)
      ensures k in x.after.rows && x.after.rows[k] == Landing(x).t.rows[k]
    {
      DeclaredStays(x, x.claims[i]);
    }
  }

  /** So a row of another project, or of none, is left as it was if and only if the run does not take it. */
  lemma TakesIff(x: Run, k: Key)
    requires M.Accepted(x.m) && Replied(x) && ValidRows(x.before.rows, x.before.nextId)
    requires k in x.before.rows && x.before.rows[k].project != x.m.RoutingProject()
    ensures k in x.after.rows && x.after.rows[k] == x.before.rows[k] <==> !Takes(x, k)
  {
    hide M.Compiled, M.Accepted, M.Defective, Landing, Final, ValidRows, Reach, Finds, Target, TakesAt;
    if !x.reply.Invalid? {
      TakenOver(x, k);
      OneProject(x.m, x.env, x.claims);
      if Takes(x, k) {
        var i :| 0 <= i < |x.claims| && TakesAt(x, k, i);
        assert x.claims[i] in x.claims;
      }
    }
  }

  /** Rows keep their source and owner kind, and new ones are a manifest's. */
  lemma RunKinds(x: Run, k: Key)
    requires M.Accepted(x.m) && Replied(x) && ValidRows(x.before.rows, x.before.nextId) && k in x.after.rows
    ensures if k in x.before.rows
            then x.after.rows[k].source == x.before.rows[k].source
            && x.after.rows[k].ownerKind == x.before.rows[k].ownerKind
            else x.after.rows[k].source == FromManifest && x.after.rows[k].ownerKind == ""
  {
    hide M.Compiled, M.Accepted, M.Defective, Landing, ValidRows, Target, Targets;
    if !x.reply.Invalid? {
      ApplyFrame(x, k);
    }
  }

  /** Runs keep tables valid. */
  lemma RunValid(x: Run)
    requires M.Accepted(x.m) && Replied(x) && ValidRows(x.before.rows, x.before.nextId)
    ensures ValidRows(x.after.rows, x.after.nextId)
  {
    hide M.Compiled, M.Accepted, M.Defective, Landing, Final, ValidRows;
    if !x.reply.Invalid? {
      RunFinal(x);
      LandingValid(x);
      FinalValid(x);
    }
  }
}

/** Applying the same manifest again, another one of the same project, and labels that are not in normal form. */
module ApplyAgain {
  import opened Core
  import opened Apply
  import opened ApplyTheorems
  import M = Manifest
  import N = Normalize
  import Ports

  // ---- the same claims

  /** However the services are ordered, two compilations make the same claims. */
  lemma SameClaims(m: M.Manifest, env: M.Resolver, later: M.Resolver, claims: seq<M.Claim>, again: seq<M.Claim>)
    requires M.Extends(env, later) || M.Extends(later, env)
    requires M.Compiled(m, env, claims, m.services.Keys) && M.Compiled(m, later, again, m.services.Keys)
    ensures forall c :: c in again ==> c in claims
  {
    hide M.RoutesOf, M.Declares, M.ClaimFor;
    forall c | c in again
      ensures c in claims
    {
      var d :| d in claims && d.service == c.service && d.name == c.name;
      if M.Extends(env, later) {
        M.RoutesExtend(m.services[c.service], m.OwnerRef(c.service), env, later);
      } else {
        M.RoutesExtend(m.services[c.service], m.OwnerRef(c.service), later, env);
      }
    }
  }

  // ---- idempotence

  /** Equal rows, times of writing apart. */
  ghost predicate SameRows(rows: map<Key, Allocation>, later: map<Key, Allocation>) {
    rows.Keys == later.Keys && forall k :: k in rows ==> later[k] == rows[k].(updatedAt := later[k].updatedAt)
  }

  predicate SettledRow(row: Allocation, c: M.Claim) {
    row.spec == c.spec && row.ownerRef == c.ownerRef && row.project == c.project
  }

  /** The label is held as written by the claim's row, and its normal form is held. */
  predicate StaysPut(t: Table, u: N.Unicode, c: M.Claim) {
    && Target(u, c).Some? && Target(u, c).value in t.rows
    && KeyFor(c) in t.rows && SettledRow(t.rows[KeyFor(c)], c)
  }

  /** A run on a table where every claim stays put goes through and takes no new row. */
  lemma PutGoes(x: Run)
    requires M.Accepted(x.m) && Replied(x) && !x.reply.Invalid?
    requires forall c :: c in x.claims ==> StaysPut(x.before, x.u, c)
    ensures Landing(x).ok && Landing(x).claimed == [] && SameRows(x.before.rows, Landing(x).t.rows)
  {
    hide M.Accepted, Replied, Landing, Goes, At, Target;
    ReachFirst(x.before, x.u, x.claims);
    forall i | 0 <= i < |x.claims|
      ensures Goes(x.before, x.u, x.claims, i)
    {
      PutStep(x.before, x.u, x.claims, i);
    }
    LandsAt(x, Key("", ""));
    PutTargets(x.before, x.u, x.claims);
    forall k
      ensures At(x.before, Landing(x).t, x.u, x.claims, x.wall, k)
    {
      LandsAt(x, k);
    }
    forall k | k in x.before.rows || k in Landing(x).t.rows
      ensures k in x.before.rows && k in Landing(x).t.rows
      ensures Landing(x).t.rows[k] == x.before.rows[k].(updatedAt := Landing(x).t.rows[k].updatedAt)
    {
      PutRow(x.before, Landing(x).t, x.u, x.claims, x.wall, k);
    }
  }

  lemma PutTargets(t: Table, u: N.Unicode, claims: seq<M.Claim>)
    requires forall c :: c in claims ==> StaysPut(t, u, c)
    ensures Targets(u, claims) <= t.rows.Keys
  {
    hide Target;
  }

  lemma PutStep(t: Table, u: N.Unicode, claims: seq<M.Claim>, i: nat)
    requires i < |claims| && StaysPut(t, u, claims[i])
    ensures Goes(t, u, claims, i)
  {
    hide Target;
  }

  lemma PutRow(t: Table, now: Table, u: N.Unicode, claims: seq<M.Claim>, wall: int, k: Key)
    requires At(t, now, u, claims, wall, k) && forall c :: c in claims ==> StaysPut(t, u, c)
    requires k in t.rows || k in now.rows
    ensures k in t.rows && k in now.rows && now.rows[k] == t.rows[k].(updatedAt := now.rows[k].updatedAt)
  {
    hide Target, Made, Finds;
    if k in t.rows && k in Keys(claims) {
      var c :| c in claims && KeyFor(c) == k;
      var i :| 0 <= i < |claims| && claims[i] == c;
      assert Settles(t, now, u, claims, wall, i);
    }
  }

  /** Nothing is stale, so nothing is pruned. */
  lemma NothingStale(x: Run)
    requires M.Accepted(x.m) && SameRows(x.before.rows, Landing(x).t.rows) && ValidRows(x.before.rows, x.before.nextId)
    requires forall k ::
               (Prunes(x) && k in x.before.rows && k.zone == x.m.zone && x.before.rows[k].source == FromManifest
                          && x.before.rows[k].project == x.m.RoutingProject() && x.before.rows[k].state != Released) ==>
               k.name in Names(x.claims)
    ensures Final(x) == Landing(x).t.rows
  {
    var rows := Landing(x).t.rows;
    forall k | k in rows
      ensures k in Final(x) && Final(x)[k] == rows[k]
    {
      FinalRows(x, k);
    }
    FinalKeys(x);
  }

  lemma FinalKeys(x: Run)
    ensures Final(x).Keys <= Landing(x).t.rows.Keys
  {
  }

  /** A run that takes no new row leaves each label as written in the claim's hands; if no row has changed, it was so
      before. */
  lemma QuietPut(x: Run, c: M.Claim)
    requires Regular(x) && x.reply.Applied? && x.reply.claimed == [] && c in x.claims
    requires SameRows(x.before.rows, x.after.rows)
    ensures StaysPut(x.before, x.u, c)
  {
    hide M.Accepted, Replied, Landing, Final, Target, Goes, ValidRows;
    RunFinal(x);
    LandsAt(x, KeyFor(c));
    LandingValid(x);
    FinalValid(x);
    ReachFirst(x.before, x.u, x.claims);
    var i :| 0 <= i < |x.claims| && x.claims[i] == c;
    QuietStep(x.before, x.u, x.claims, i);
    assert Settles(x.before, Landing(x).t, x.u, x.claims, x.wall, i);
    DeclaredStays(x, c);
  }

  lemma QuietStep(t: Table, u: N.Unicode, claims: seq<M.Claim>, i: nat)
    requires i < |claims| && Goes(t, u, claims, i) && Targets(u, claims) <= t.rows.Keys
    ensures Finds(t, u, claims, i) && KeyFor(claims[i]) in t.rows
    ensures Target(u, claims[i]).Some? && Target(u, claims[i]).value in t.rows
  {
    hide Target;
    assert claims[i] in claims;
    forall k | k in Targets(u, claims[..i])
      ensures k in Targets(u, claims)
    {
      var d :| d in claims[..i] && Target(u, d).Some? && Target(u, d).value == k;
      assert d in claims;
    }
  }

  lemma SameNames(claims: seq<M.Claim>, again: seq<M.Claim>)
    requires (forall c :: c in claims ==> c in again) && (forall c :: c in again ==> c in claims)
    ensures Names(claims) == Names(again)
  {
  }

  /** A later run of the same manifest, on the table that the first one left. */
  ghost predicate Repeats(x: Run, y: Run) {
    y.m == x.m && y.u == x.u && y.prune == x.prune && y.before == x.after && M.Extends(x.env, y.env) && Replied(y)
  }

  /** After a successful run, a second run of the manifest succeeds, claims nothing, prunes nothing, and leaves
      every row as it was but for its time of writing, if and only if every label stays put, as those written in
      normal form do. Ports may be resolved afresh, as long as grants are sticky. */
  lemma ApplyIdempotent(x: Run, y: Run)
    requires Regular(x) && x.reply.Applied? && Repeats(x, y)
    ensures y.reply.Applied? && y.reply.claimed == [] && y.reply.pruned == [] && SameRows(x.after.rows, y.after.rows)
            <==> forall c :: c in x.claims ==> StaysPut(x.after, x.u, c)
    ensures forall c :: c in x.claims && Plainly(x.u, c) ==> StaysPut(x.after, x.u, c)
  {
    hide Replied, Landing, M.Accepted, Final, ValidRows, M.Defective, Target, StaysPut, Pruned;
    SecondCompiles(x, y);
    RunFinal(x);
    RunFinal(y);
    ApplyExact(x);
    SameClaims(x.m, x.env, y.env, x.claims, y.claims);
    SameClaims(x.m, y.env, x.env, y.claims, x.claims);
    SameNames(x.claims, y.claims);
    OneProject(x.m, x.env, x.claims);
    if forall c :: c in x.claims ==> StaysPut(x.after, x.u, c) {
      PutGoes(y);
      NothingStale(y);
    }
    if y.reply.Applied? && y.reply.claimed == [] && SameRows(x.after.rows, y.after.rows) {
      forall c | c in x.claims
        ensures StaysPut(x.after, x.u, c)
      {
        QuietPut(y, c);
      }
    }
    forall c | c in x.claims && Plainly(x.u, c)
      ensures StaysPut(x.after, x.u, c)
    {
      PlainlyPut(x.after, x.u, c);
    }
  }

  lemma PlainlyPut(t: Table, u: N.Unicode, c: M.Claim)
    requires Plainly(u, c) && KeyFor(c) in t.rows && SettledRow(t.rows[KeyFor(c)], c)
    ensures StaysPut(t, u, c)
  {
    hide Target;
  }

  /** The same, for two runs of the server: the port tables supply the resolvers. Between the end of one run and
      the end of the other, rows may be added but keep their values. */
  lemma ApplyTwice(x: Run, y: Run, first: map<Ports.Slot, Ports.Grant>, second: map<Ports.Slot, Ports.Grant>,
                   number: string -> Option<int>)
    requires Regular(x) && x.reply.Applied? && x.env == M.EnvOf(first, number)
    requires y.m == x.m && y.u == x.u && y.prune == x.prune && y.before == x.after && Replied(y)
    requires y.env == M.EnvOf(second, number) && Ports.Grown(first, second)
    ensures y.reply.Applied? && y.reply.claimed == [] && y.reply.pruned == [] && SameRows(x.after.rows, y.after.rows)
            <==> forall c :: c in x.claims ==> StaysPut(x.after, x.u, c)
    ensures forall c :: c in x.claims && Plainly(x.u, c) ==> StaysPut(x.after, x.u, c)
    ensures forall c :: c in y.claims <==> c in x.claims
  {
    hide Regular, Replied, M.EnvOf, M.Extends, StaysPut;
    M.GrantsStick(first, second, number);
    ApplyIdempotent(x, y);
    BothCompiled(x, y);
    SameClaims(x.m, x.env, y.env, x.claims, y.claims);
    SameClaims(x.m, y.env, x.env, y.claims, x.claims);
  }

  lemma BothCompiled(x: Run, y: Run)
    requires Regular(x) && Repeats(x, y) && x.reply.Applied?
    ensures M.Compiled(x.m, x.env, x.claims, x.m.services.Keys) && M.Compiled(y.m, y.env, y.claims, y.m.services.Keys)
  {
    hide M.Compiled, M.Defective, Landing, Ensured;
    SecondCompiles(x, y);
  }

  lemma SecondCompiles(x: Run, y: Run)
    requires Replied(x) && x.reply.Applied? && Repeats(x, y)
    ensures !y.reply.Invalid?
  {
    hide M.RoutesOf, M.Declares, M.InZone, Landing, Ensured, Pruned, M.Compiled;
    forall s | M.Routed(x.m, s)
      ensures M.RoutesOf(x.m.services[s], x.m.OwnerRef(s), y.env).Some?
    {
      assert M.RoutesOf(x.m.services[s], x.m.OwnerRef(s), x.env).Some?;
      M.RoutesExtend(x.m.services[s], x.m.OwnerRef(s), x.env, y.env);
    }
  }

  // ---- manifests of one routing project

  /** Of the project's manifest rows, a pruning run of any manifest of the same routing project leaves in its zone
      exactly those whose labels it declares itself: so two such manifests prune each other's. */
  lemma MeetingPrunes(x: Run, y: Run, k: Key)
    requires Regular(x) && Regular(y) && y.reply.Applied? && Prunes(y) && y.before == x.after
    requires y.m.RoutingProject() == x.m.RoutingProject() && k in x.after.rows && k.zone == y.m.zone
    requires x.after.rows[k].source == FromManifest && x.after.rows[k].project == x.m.RoutingProject()
             && x.after.rows[k].state != Released
    ensures k in y.after.rows <==> k.name in Names(y.claims)
  {
    hide M.Compiled, M.Accepted, Final, ValidRows, Replied, Landing, Merged;
    RunFinal(y);
    LandingFrame(y, k);
    LandingValid(y);
    FinalValid(y);
    FinalRows(y, k);
    OneProject(y.m, y.env, y.claims);
    MergedStill(y, k);
  }

  lemma MergedStill(y: Run, k: Key)
    requires k in y.before.rows && k in Landing(y).t.rows
    requires forall c :: c in y.claims ==> c.project == y.m.RoutingProject()
    requires y.before.rows[k].project == y.m.RoutingProject()
    requires Landing(y).t.rows[k] != y.before.rows[k] ==>
               exists c :: c in y.claims && KeyFor(c) == k && Owns(y.before.rows[k], c)
                           && Landing(y).t.rows[k] == Merged(y.before.rows[k], c, y.wall)
    ensures var row := Landing(y).t.rows[k];
            row.source == y.before.rows[k].source && row.state == y.before.rows[k].state
            && row.project == y.m.RoutingProject()
  {
    hide Landing;
  }

  // ---- labels that are not in normal form

  /** A label is claimed in normal form but kept as written: a label new to the registry is still there when the
      run that claimed it has pruned exactly when the manifest spells some hostname in that normal form. */
  lemma RegisteredIffSpelledNormally(x: Run, c: M.Claim)
    requires Regular(x) && Prunes(x) && x.reply.Applied? && c in x.claims
    requires Target(x.u, c).Some? && Target(x.u, c).value !in x.before.rows
    ensures Target(x.u, c).value in x.after.rows <==> Target(x.u, c).value.name in Names(x.claims)
  {
    hide M.Compiled, Replied, M.Accepted, Final, ValidRows, Landing, Target, Merged, Owns;
    var k := Target(x.u, c).value;
    RunFinal(x);
    OneProject(x.m, x.env, x.claims);
    LandsAt(x, k);
    LandingValid(x);
    FinalValid(x);
    FinalRows(x, k);
    var d :| d in x.claims && Made(Landing(x).t, d, x.wall, k);
  }
}

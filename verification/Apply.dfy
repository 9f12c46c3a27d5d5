/** Applying a manifest: every claim lands in the registry or stops the run, then the project's stale rows go. */
module Apply {
  import opened Core
  import M = Manifest
  import A = Allocations
  import N = Normalize
  import R = Registry
  import Ports

  datatype Reply = Applied(claimed: seq<string>, updated: seq<string>, pruned: seq<string>) | Stopped | Invalid

  // ---- one claim

  function RequestFor(c: M.Claim): A.Request {
    A.Request(c.zone, c.name, Some(Platform), Some(FromManifest), c.project, c.ownerRef, "", c.spec, map[], false, 0)
  }

  /** Whether a manifest plausibly owns a row that is in its way. */
  predicate Owns(row: Allocation, c: M.Claim) {
    row.ownerRef == c.ownerRef || (row.source == FromManifest && row.project == c.project)
  }

  /** The row a claim makes under this label. */
  function New(c: M.Claim, name: string, wall: int): Allocation {
    Allocation(0, c.zone, c.project, name, Fqdn(name, c.zone), Platform, FromManifest, c.ownerRef, "", Active, c.spec,
               None, map[], None, wall)
  }

  /** The row a claim finds, taken over. Its state, kind and source stay. */
  function Merged(row: Allocation, c: M.Claim, wall: int): Allocation {
    row.(spec := c.spec, ownerRef := c.ownerRef, project := c.project, updatedAt := wall)
  }

  datatype Progress = Progress(t: Table, ok: bool, claimed: seq<string>, updated: seq<string>)

  /** Claiming is by normalized label, but the row in the way is looked up by the label as written. */
  function After(p: Progress, u: N.Unicode, c: M.Claim, wall: int): Progress {
    if c.zone == "" || c.name == "" || c.zone !in p.t.zones then p.(ok := false)
    else
      match N.Normal(c.name, Platform, u)
      case Err(_) => p.(ok := false)
      case Ok(name) =>
        var raw := Key(c.zone, c.name);
        if Key(c.zone, name) !in p.t.rows then
          p.(t := Insert(p.t, New(c, name, wall)), claimed := p.claimed + [Fqdn(c.name, c.zone)])
        else if raw !in p.t.rows || !Owns(p.t.rows[raw], c) then p.(ok := false)
        else
          p.(t := p.t.(rows := p.t.rows[raw := Merged(p.t.rows[raw], c, wall)]), updated := p.updated
             + [p.t.rows[raw].fqdn])
  }

  function Steps(t: Table, u: N.Unicode, claims: seq<M.Claim>, wall: int): Progress {
    if claims == [] then Progress(t, true, [], [])
    else
      var before := Steps(t, u, claims[..|claims| - 1], wall);
      if before.ok then After(before, u, claims[|claims| - 1], wall) else before
  }

  lemma {:induction false} StepsStop(t: Table, u: N.Unicode, claims: seq<M.Claim>, wall: int, n: nat)
    requires n <= |claims| && !Steps(t, u, claims[..n], wall).ok
    ensures Steps(t, u, claims, wall) == Steps(t, u, claims[..n], wall)
  {
    if n == |claims| {
      assert claims[..n] == claims;
    } else {
      assert claims[..|claims| - 1][..n] == claims[..n];
      StepsStop(t, u, claims[..|claims| - 1], wall, n);
    }
  }

  lemma AfterValid(p: Progress, u: N.Unicode, c: M.Claim, wall: int)
    requires ValidRows(p.t.rows, p.t.nextId)
    ensures ValidRows(After(p, u, c, wall).t.rows, After(p, u, c, wall).t.nextId)
  {
    hide N.Normal;
  }

  // ---- pruning

  /** A row of the project that the manifest no longer declares; the list query skips released rows. */
  predicate Stale(row: Allocation, zone: string, project: string, keep: set<string>) {
    && Lists(Filter(NonEmpty(zone), None, NonEmpty(project), true), row)
    && row.source == FromManifest && row.name !in keep
  }

  function Pruned(rows: map<Key, Allocation>, zone: string, project: string, keep: set<string>): map<Key, Allocation> {
    map k | k in rows && !Stale(rows[k], zone, project, keep) :: rows[k]
  }

  function Names(claims: seq<M.Claim>): set<string> {
    set c | c in claims :: c.name
  }

  // ---- the run

  function Ensured(t: Table, m: M.Manifest): Table {
    if m.zone != "" && m.ManagesRoutes() && m.zone !in t.zones
      then t.(zones := t.zones[m.zone := Zone(m.zone, true, "default")])
    else t
  }

  /** One run of the handler: what it is given, the claims its manifest compiled to, its reply, and the tables
      before and after. */
  datatype Run = Run(m: M.Manifest, env: M.Resolver, u: N.Unicode, prune: bool, wall: int, before: Table, reply: Reply,
                     claims: seq<M.Claim>, after: Table)

  /** The table after the claims of a run, before anything is pruned. */
  function Landing(x: Run): Progress {
    Steps(Ensured(x.before, x.m), x.u, x.claims, x.wall)
  }

  /** Whether a run prunes when it succeeds. */
  predicate Prunes(x: Run) {
    x.prune && x.m.zone != "" && x.m.ManagesRoutes()
  }

  /** The reply to a manifest and the tables it leaves. */
  ghost predicate Replied(x: Run) {
    if x.reply.Invalid? then M.Defective(x.m, x.env) && x.after == Ensured(x.before, x.m)
    else
      var p := Landing(x);
      && !M.Defective(x.m, x.env) && M.Compiled(x.m, x.env, x.claims, x.m.services.Keys)
      && (x.reply.Stopped? <==> !p.ok)
      && x.after == (if p.ok && Prunes(x)
                      then p.t.(rows := Pruned(p.t.rows, x.m.zone, x.m.RoutingProject(), Names(x.claims))) else p.t)
      && (x.reply.Applied? ==>
            && x.reply.claimed == p.claimed && x.reply.updated == p.updated
            && (x.reply.pruned == [] <==> x.after == p.t))
  }

  lemma OneProject(m: M.Manifest, env: M.Resolver, claims: seq<M.Claim>)
    requires M.Compiled(m, env, claims, m.services.Keys)
    ensures forall c <- claims ::
              c.project == m.RoutingProject() && c.zone == m.zone && c.ownerRef == m.OwnerRef(c.service)
  {
    hide M.RoutesOf, M.LabelFor;
  }

  class Server {
    const alloc: A.Alloc
    const ports: Ports.Tables

    constructor (alloc: A.Alloc, ports: Ports.Tables)
      ensures this.alloc == alloc && this.ports == ports
    {
      this.alloc, this.ports := alloc, ports;
    }

    ghost predicate Valid()
      reads alloc.store
    {
      && A.Configured(alloc.config) && ValidRows(alloc.store.rows, alloc.store.nextId)
      && forall z <- alloc.store.zones :: alloc.store.zones[z].name == z
    }

    /** One claim: insert, update in place, or stop. */
    method ApplyClaim(c: M.Claim, project: string, wall: int, ghost p: Progress)
      returns (ok: bool, claimed: seq<string>, updated: seq<string>)
      requires Valid() && c.project == project && p.t == alloc.store.Tables() && p.ok
      modifies alloc.store`rows, alloc.store`nextId, alloc.store`events
      ensures Valid()
      ensures var q := After(p, alloc.config.unicode, c, wall);
              alloc.store.Tables() == q.t && ok == q.ok && p.claimed + claimed == q.claimed
              && p.updated + updated == q.updated
    {
      hide N.Normal, Insert;
      ok, claimed, updated := true, [], [];
      AfterValid(p, alloc.config.unicode, c, wall);
      if c.zone == "" || c.name == "" {
        return false, [], [];
      }
      var answer := alloc.ClaimHostname(RequestFor(c), wall);
      match answer
      case Claimed(_) =>
        claimed := [Fqdn(c.name, c.zone)];
      case NotFound =>
        ok := false;
      case Rejected(reason, _) =>
        if !reason.Taken? && !reason.ReservedName? {
          return false, [], [];
        }
        var existing := alloc.store.GetAllocationByLabel(c.zone, c.name);
        if existing == None {
          return false, [], [];
        }
        var row := existing.value;
        if row.ownerRef != c.ownerRef && !(row.source == FromManifest && row.project == project) {
          return false, [], [];
        }
        var a := row.(spec := c.spec, ownerRef := c.ownerRef, project := project);
        R.PatchOne(alloc.store.rows, alloc.store.nextId, KeyOf(row), a, wall);
        alloc.store.UpdateAllocation(a, wall);
        updated := [row.fqdn];
    }

    method ApplyClaims(claims: seq<M.Claim>, project: string, wall: int) returns (p: Progress)
      requires Valid() && forall c <- claims :: c.project == project
      modifies alloc.store`rows, alloc.store`nextId, alloc.store`events
      ensures Valid()
      ensures p == Steps(old(alloc.store.Tables()), alloc.config.unicode, claims, wall) && p.t == alloc.store.Tables()
    {
      hide After;
      p := Progress(alloc.store.Tables(), true, [], []);
      ghost var before := p.t;
      var i := 0;
      while p.ok && i < |claims|
        invariant i <= |claims| && Valid()
        invariant p == Steps(before, alloc.config.unicode, claims[..i], wall) && p.t == alloc.store.Tables()
        decreases |claims| - i, p.ok
      {
        assert claims[i] in claims && claims[..i + 1][..i] == claims[..i];
        var ok, claimed, updated := ApplyClaim(claims[i], project, wall, p);
        p := Progress(alloc.store.Tables(), ok, p.claimed + claimed, p.updated + updated);
        i := i + 1;
      }
      assert claims[..|claims|] == claims;
      if !p.ok {
        StepsStop(before, alloc.config.unicode, claims, wall, i);
      }
    }

    method Prune(zone: string, project: string, keep: set<string>, wall: int) returns (pruned: seq<string>)
      requires Valid()
      modifies alloc.store`rows
      ensures Valid()
      ensures alloc.store.rows == Pruned(old(alloc.store.rows), zone, project, keep)
      ensures pruned == [] <==> alloc.store.rows == old(alloc.store.rows)
    {
      hide Lists, ValidRows, R.Without;
      ValidKeyed(alloc.store.rows, alloc.store.nextId);
      var owned := alloc.store.ListAllocations(Filter(NonEmpty(zone), None, NonEmpty(project), true));
      ghost var before, gone := alloc.store.rows, {};
      pruned := [];
      for i := 0 to |owned|
        invariant Valid() && alloc.store.rows == before - gone && gone <= before.Keys
        invariant forall k ::
                    k in gone <==> k in before && Stale(before[k], zone, project, keep) && before[k] !in owned[i..]
        invariant pruned == [] <==> gone == {}
      {
        var a := owned[i];
        assert a in owned && owned[i..] == [a] + owned[i + 1..];
        if a.source == FromManifest && a.name !in keep {
          R.DeleteAmong(before, alloc.store.nextId, alloc.store.rows, gone, a);
          var ok := alloc.Release(a.id, wall);
          if ok {
            pruned := pruned + [a.fqdn];
          }
          gone := gone + {KeyOf(a)};
        }
      }
      assert alloc.store.rows == Pruned(before, zone, project, keep);
    }

    /** The handler: zone, ports, claims, prune. `claims` is what the manifest compiled to on the port grants it
        ended with. */
    method HandleManifestApply(m: M.Manifest, at: M.Machine, prune: bool, wall: int)
      returns (r: Reply, claims: seq<M.Claim>)
      requires Valid() && ports.Valid()
      modifies alloc.store, ports`grants
      ensures Valid() && ports.Valid() && Ports.Grown(old(ports.grants), ports.grants)
      ensures Replied(Run(m, M.EnvOf(ports.grants, at.number), alloc.config.unicode, prune, wall,
                          old(alloc.store.Tables()),
                          r, claims, alloc.store.Tables()))
    {
      hide M.Defective, M.Compiled, After, M.EnvOf;
      claims := [];
      if m.zone != "" && m.ManagesRoutes() {
        alloc.store.EnsureZone(Zone(m.zone, true, "default"));
      }
      var compiled := M.Claims(m, ports, at);
      if compiled == None {
        return Invalid, [];
      }
      claims := compiled.value;
      OneProject(m, M.EnvOf(ports.grants, at.number), claims);
      var p := ApplyClaims(claims, m.RoutingProject(), wall);
      if !p.ok {
        return Stopped, claims;
      }
      var pruned := [];
      if m.zone != "" && m.ManagesRoutes() && prune {
        pruned := Prune(m.zone, m.RoutingProject(), Names(claims), wall);
      }
      return Applied(p.claimed, p.updated, pruned), claims;
    }
  }
}

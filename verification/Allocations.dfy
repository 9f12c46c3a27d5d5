/** The allocation service: availability, claims, holds, renames and releases over the registry. */
module Allocations {
  import opened Core
  import opened Text
  import opened Policies
  import N = Normalize
  import R = Registry

  /** An absent kind or source takes its default. */
  datatype Request = Request(
    zone: string, name: string, kind: Option<Kind>, source: Option<Source>, project: string, ownerRef: string,
    ownerKind: string, spec: Spec, labels: map<string, string>, hold: bool, ttl: int)

  datatype Answer = Claimed(row: Allocation) | Rejected(reason: Reason, suggestions: seq<string>) | NotFound

  datatype Availability = Availability(name: string, available: bool, reason: Option<Reason>, suggestions: seq<string>)

  /** What the service is built with. */
  datatype Config = Config(policies: map<string, Policy>, unicode: N.Unicode, holdTtl: int)

  predicate Configured(c: Config) {
    "default" in c.policies
  }

  function PolicyFor(c: Config, z: Zone): Policy
    requires Configured(c)
  {
    if z.policy in c.policies then c.policies[z.policy] else c.policies["default"]
  }

  /** Development zones have one operator, so a claim without a kind is infrastructure there. */
  function KindOf(z: Zone, kind: Option<Kind>): Kind {
    if kind.Some? then kind.value else if z.dev then Platform else Tenant
  }

  /** Why a claim of this label would be refused. Only the API is held to the policy. */
  function Refusal(t: Table, c: Config, zone: string, name: string, kind: Option<Kind>, source: Source): Option<Reason>
    requires Configured(c) && zone in t.zones
  {
    var k := KindOf(t.zones[zone], kind);
    match N.Normal(name, k, c.unicode)
    case Err(_) => Some(Invalid)
    case Ok(name') =>
      if source == Api && Check(PolicyFor(c, t.zones[zone]), name', k).Some?
        then Check(PolicyFor(c, t.zones[zone]), name', k)
      else if Key(zone, name') in t.rows
        then Some(if t.rows[Key(zone, name')].kind == Tenant then Taken else ReservedName)
      else None
  }

  function SourceOf(req: Request): Source {
    if req.source.Some? then req.source.value else Api
  }

  /** The row a successful claim inserts, but for its id and time. */
  function Requested(req: Request, z: Zone, name: string, c: Config, now: int): Allocation {
    Allocation(0, req.zone, req.project, name, Fqdn(name, req.zone), KindOf(z, req.kind), SourceOf(req), req.ownerRef,
               req.ownerKind,
               if req.hold then Pending else Active, req.spec, None, req.labels,
               if req.hold then Some(now + if req.ttl <= 0 then c.holdTtl else req.ttl) else None, 0)
  }

  // ---- suggestions

  /** The labels among the candidates that a tenant could claim, in order. */
  function Offers(t: Table, c: Config, z: Zone, cs: seq<string>): seq<string>
    requires Configured(c)
  {
    if cs == [] then []
    else
      Offers(t, c, z, cs[..|cs| - 1])
      + match N.Normal(cs[|cs| - 1], Tenant, c.unicode)
        case Err(_) => []
        case Ok(name) => if Check(PolicyFor(c, z), name, Tenant) == None && Key(z.name, name) !in t.rows then [name]
        else []
  }

  lemma {:induction false} OffersGrow(t: Table, c: Config, z: Zone, cs: seq<string>, n: nat)
    requires Configured(c) && n <= |cs|
    ensures Offers(t, c, z, cs[..n]) <= Offers(t, c, z, cs)
  {
    if n == |cs| {
      assert cs[..n] == cs;
    } else {
      assert cs[..|cs| - 1][..n] == cs[..n];
      OffersGrow(t, c, z, cs[..|cs| - 1], n);
    }
  }

  lemma {:induction false} OfferFrom(t: Table, c: Config, z: Zone, cs: seq<string>, name: string)
    requires Configured(c) && name in Offers(t, c, z, cs)
    ensures Check(PolicyFor(c, z), name, Tenant) == None && Key(z.name, name) !in t.rows
    ensures exists raw :: raw in cs && N.Normal(raw, Tenant, c.unicode) == N.Ok(name)
  {
    if name in Offers(t, c, z, cs[..|cs| - 1]) {
      OfferFrom(t, c, z, cs[..|cs| - 1], name);
      var raw :| raw in cs[..|cs| - 1] && N.Normal(raw, Tenant, c.unicode) == N.Ok(name);
      assert raw in cs;
    }
  }

  function AtMost3(s: seq<string>): seq<string> {
    if |s| <= 3 then s else s[..3]
  }

  function SuggestionsFor(t: Table, c: Config, z: Zone, name: string): seq<string>
    requires Configured(c)
  {
    AtMost3(Offers(t, c, z, Short(Candidates(TrimSpace(Lower(name))))))
  }

  // ---- availability

  /** The answer for a label in a registered zone. A released row does not count as taken here. */
  function Checked(t: Table, c: Config, zone: string, raw: string): Availability
    requires Configured(c) && zone in t.zones
  {
    match N.Normal(raw, Tenant, c.unicode)
    case Err(_) => Availability(raw, false, Some(Invalid), [])
    case Ok(name) =>
      var offered := SuggestionsFor(t, c, t.zones[zone], name);
      if Check(PolicyFor(c, t.zones[zone]), name, Tenant).Some? then
        Availability(name, false, Check(PolicyFor(c, t.zones[zone]), name, Tenant), offered)
      else if Key(zone, name) in t.rows && t.rows[Key(zone, name)].state != Released then
        Availability(name, false, Some(if t.rows[Key(zone, name)].kind == Tenant then Taken else ReservedName), offered)
      else Availability(name, true, None, [])
  }

  /** The row that makes the two answers differ. */
  predicate ReleasedRowKept(t: Table, c: Config, zone: string, raw: string)
    requires Configured(c) && zone in t.zones
  {
    match N.Normal(raw, Tenant, c.unicode)
    case Err(_) => false
    case Ok(name) =>
      && Check(PolicyFor(c, t.zones[zone]), name, Tenant) == None
      && Key(zone, name) in t.rows && t.rows[Key(zone, name)].state == Released
  }

  /** Availability and a tenant's claim agree, reason for reason, exactly when the label's row is not a kept
      released one. */
  lemma AvailabilityAgrees(t: Table, c: Config, zone: string, raw: string)
    requires Configured(c) && zone in t.zones
    ensures var a, refusal := Checked(t, c, zone, raw), Refusal(t, c, zone, raw, Some(Tenant), Api);
            && (a.available <==> a.reason == None)
            && (a.reason == refusal <==> !ReleasedRowKept(t, c, zone, raw))
            && (ReleasedRowKept(t, c, zone, raw) ==> a.available && refusal.Some?)
  {
  }

  lemma LowerAscii(s: string)
    requires N.IsAscii(s)
    ensures N.IsAscii(Lower(s))
  {
  }

  lemma {:induction false} TrimAscii(s: string)
    requires N.IsAscii(s)
    ensures N.IsAscii(TrimSpace(s))
  {
    TrimLeftPart(s);
    TrimRightPart(TrimLeft(s));
  }

  lemma {:induction false} TrimLeftPart(s: string)
    ensures exists i :: 0 <= i <= |s| && TrimLeft(s) == s[i..]
  {
    if s != [] && IsSpace(s[0]) {
      TrimLeftPart(s[1..]);
      var i :| 0 <= i <= |s[1..]| && TrimLeft(s[1..]) == s[1..][i..];
      assert TrimLeft(s) == s[i + 1..];
    } else {
      assert TrimLeft(s) == s[0..];
    }
  }

  lemma {:induction false} TrimRightPart(s: string)
    ensures exists i :: 0 <= i <= |s| && TrimRight(s) == s[..i]
  {
    if s != [] && IsSpace(s[|s| - 1]) {
      TrimRightPart(s[..|s| - 1]);
      var i :| 0 <= i <= |s| - 1 && TrimRight(s[..|s| - 1]) == s[..|s| - 1][..i];
      assert TrimRight(s) == s[..i];
    } else {
      assert TrimRight(s) == s[..|s|];
    }
  }

  lemma {:induction false} SplitAscii(s: string)
    requires N.IsAscii(s)
    ensures forall p <- N.Split(s) :: N.IsAscii(p)
  {
    if s != [] {
      SplitAscii(s[1..]);
      var rest := N.Split(s[1..]);
      assert N.IsAscii(rest[0]) && rest[0] in rest;
      forall p | p in N.Split(s)
        ensures N.IsAscii(p)
      {
        if p !in rest {
          assert p == "" || p == [s[0]] + rest[0];
        }
      }
    }
  }

  /** ASCII input is never encoded, so its accepted form is stable. */
  lemma AsciiStable(raw: string, u: N.Unicode)
    requires N.Folds(u) && N.IsAscii(raw) && N.Normal(raw, Tenant, u).Ok?
    ensures N.Normal(N.Normal(raw, Tenant, u).name, Tenant, u) == N.Normal(raw, Tenant, u)
    ensures N.IsAscii(N.Normal(raw, Tenant, u).name)
  {
    TrimAscii(raw);
    var s := TrimPrefix(TrimSpace(raw), "*.");
    LowerAscii(s);
    SplitAscii(Lower(s));
    N.NormalizeIdempotent(raw, Tenant, u);
    NormalAscii(raw, u);
  }

  lemma NormalAscii(raw: string, u: N.Unicode)
    requires N.Normal(raw, Tenant, u).Ok?
    ensures N.IsAscii(N.Normal(raw, Tenant, u).name)
  {
    if TrimSpace(raw) != "@" {
      var body := N.Body(raw, u);
      N.SplitPlain(body);
      N.NormalPartsShape([body], u);
      assert N.Join(N.NormalParts([body], u).0) == N.NormalParts([body], u).0[0];
    }
  }

  lemma {:induction false} ShortFrom(cs: seq<string>, s: string)
    requires s in Short(cs)
    ensures s in cs
  {
    if s in Short(cs[..|cs| - 1]) {
      ShortFrom(cs[..|cs| - 1], s);
    }
  }

  lemma OfferAscii(t: Table, c: Config, z: Zone, name: string, s: string)
    requires Configured(c) && N.Folds(c.unicode) && N.IsAscii(name) && s in SuggestionsFor(t, c, z, name)
    ensures N.Normal(s, Tenant, c.unicode) == N.Ok(s)
    ensures Check(PolicyFor(c, z), s, Tenant) == None && Key(z.name, s) !in t.rows
  {
    hide N.Normal, Check, N.IsAscii;
    var base := TrimSpace(Lower(name));
    OfferFrom(t, c, z, Short(Candidates(base)), s);
    var cand :| cand in Short(Candidates(base)) && N.Normal(cand, Tenant, c.unicode) == N.Ok(s);
    ShortFrom(Candidates(base), cand);
    CandidateAscii(name, cand);
    AsciiStable(cand, c.unicode);
  }

  lemma CandidateAscii(name: string, cand: string)
    requires N.IsAscii(name) && cand in Candidates(TrimSpace(Lower(name)))
    ensures N.IsAscii(cand)
  {
    LowerAscii(name);
    TrimAscii(Lower(name));
  }

  /** Every suggestion, and there are at most three, is a label that is available and can be claimed as it stands. */
  lemma SuggestionsAvailable(t: Table, c: Config, zone: string, raw: string, s: string)
    requires Configured(c) && N.Folds(c.unicode) && zone in t.zones && t.zones[zone].name == zone
    requires s in Checked(t, c, zone, raw).suggestions
    ensures |Checked(t, c, zone, raw).suggestions| <= 3
    ensures Checked(t, c, zone, s) == Availability(s, true, None, [])
    ensures Refusal(t, c, zone, s, Some(Tenant), Api) == None
  {
    hide N.Normal, Check, N.IsAscii, Offers, Short, Candidates;
    NormalAscii(raw, c.unicode);
    OfferAscii(t, c, t.zones[zone], N.Normal(raw, Tenant, c.unicode).name, s);
  }

  // ---- refusals, reason by reason

  /** A label that breaks a policy's rules for kinds or, as a tenant's, its rules for shape. */
  predicate Breaks(p: Policy, name: string, kind: Kind) {
    || (p.allow != {} && kind !in p.allow)
    || (kind == Tenant && name !in p.blocked
        && ((p.minLen > 0 && |name| < p.minLen) || (p.maxLen > 0 && |name| > p.maxLen)
            || (p.pattern.Some? && !p.pattern.value(name))))
  }

  predicate Blocks(p: Policy, name: string, kind: Kind) {
    kind == Tenant && name in p.blocked && (p.allow == {} || kind in p.allow)
  }

  /** When a claim is refused, and for which reason: the label has no normal form; through the API, the zone's
      policy, or failing that the default one, is broken or blocks the label; or the label has a row, a tenant's or
      another's. A claim without a kind is for the platform in a development zone, and for a tenant elsewhere. */
  lemma RefusalMeans(t: Table, c: Config, zone: string, name: string, kind: Option<Kind>, source: Source)
    requires Configured(c) && zone in t.zones
    ensures var z := t.zones[zone];
            var k := if kind.Some? then kind.value else if z.dev then Platform else Tenant;
            var p := c.policies[if z.policy in c.policies then z.policy else "default"];
            var refusal := Refusal(t, c, zone, name, kind, source);
            match N.Normal(name, k, c.unicode)
            case Err(_) => refusal == Some(Invalid)
            case Ok(n) =>
              var breaks, blocks := source == Api && Breaks(p, n, k), source == Api && Blocks(p, n, k);
              var row := Key(zone, n);
              && (refusal == Some(PolicyViolation) <==> breaks)
              && (refusal == Some(BlockedName) <==> blocks)
              && (refusal == Some(Taken) <==> !breaks && !blocks && row in t.rows && t.rows[row].kind == Tenant)
              && (refusal == Some(ReservedName) <==> !breaks && !blocks && row in t.rows && t.rows[row].kind != Tenant)
              && (refusal == None <==> !breaks && !blocks && row !in t.rows)
  {
    hide N.Normal;
  }

  /** Fewer than three suggestions are made only when no other variant can be claimed. */
  lemma SuggestionsComplete(t: Table, c: Config, z: Zone, name: string, raw: string)
    requires Configured(c) && |SuggestionsFor(t, c, z, name)| < 3
    requires raw in Short(Candidates(TrimSpace(Lower(name)))) && N.Normal(raw, Tenant, c.unicode).Ok?
    requires var n := N.Normal(raw, Tenant, c.unicode).name;
             Check(PolicyFor(c, z), n, Tenant) == None && Key(z.name, n) !in t.rows
    ensures N.Normal(raw, Tenant, c.unicode).name in SuggestionsFor(t, c, z, name)
  {
    hide N.Normal, Check, Short, Candidates;
    AllOffered(t, c, z, Short(Candidates(TrimSpace(Lower(name)))), raw);
  }

  lemma {:induction false} AllOffered(t: Table, c: Config, z: Zone, cs: seq<string>, raw: string)
    requires Configured(c) && raw in cs && N.Normal(raw, Tenant, c.unicode).Ok?
    requires var n := N.Normal(raw, Tenant, c.unicode).name;
             Check(PolicyFor(c, z), n, Tenant) == None && Key(z.name, n) !in t.rows
    ensures N.Normal(raw, Tenant, c.unicode).name in Offers(t, c, z, cs)
  {
    hide N.Normal, Check;
    if raw != cs[|cs| - 1] {
      assert cs == cs[..|cs| - 1] + [cs[|cs| - 1]];
      AllOffered(t, c, z, cs[..|cs| - 1], raw);
    }
  }

  // ---- renames

  datatype Renaming = Renamed(row: Allocation) | Refused(reason: Reason) | Missing

  function RenameOf(t: Table, c: Config, k: Key, raw: string, wall: int): Renaming
    requires Configured(c) && k in t.rows && k.zone in t.zones
  {
    var a := t.rows[k];
    match N.Normal(raw, a.kind, c.unicode)
    case Err(_) => Refused(Invalid)
    case Ok(name) =>
      if name == a.name then Renamed(a)
      else if Check(PolicyFor(c, t.zones[k.zone]), name, a.kind).Some?
        then Refused(Check(PolicyFor(c, t.zones[k.zone]), name, a.kind).value)
      else if Key(k.zone, name) in t.rows
        then Refused(if t.rows[Key(k.zone, name)].kind == Tenant then Taken else ReservedName)
      else Renamed(a.(name := name, fqdn := Fqdn(name, k.zone), updatedAt := wall))
  }

  /** A rename is refused for the reason a claim of the same kind through the API would be, the row's own name apart;
      otherwise everything but the name survives, ids stay unique, and the old name is free. */
  lemma RenameLikeClaim(t: Table, c: Config, k: Key, raw: string, wall: int)
    requires Configured(c) && k in t.rows && k.zone in t.zones && ValidRows(t.rows, t.nextId)
    ensures var a, r, refusal :=
      t.rows[k], RenameOf(t, c, k, raw, wall), Refusal(t, c, k.zone, raw, Some(t.rows[k].kind), Api);
            match r
            case Refused(reason) => refusal == Some(reason)
            case Missing => false
            case Renamed(b) =>
              && ((refusal == None && KeyOf(b) !in t.rows) || b == a)
              && N.Normal(raw, a.kind, c.unicode) == N.Ok(b.name)
              && b == (if b.name == a.name then a
                       else a.(name := b.name, fqdn := Fqdn(b.name, k.zone), updatedAt := wall))
              && ValidRows((t.rows - {k})[KeyOf(b) := b], t.nextId)
              && (b != a ==> k !in (t.rows - {k})[KeyOf(b) := b])
  {
    hide N.Normal, Check;
    var r := RenameOf(t, c, k, raw, wall);
    if r.Renamed? {
      RenameKeepsIds(t, k, r.row);
    }
  }

  lemma RenameKeepsIds(t: Table, k: Key, b: Allocation)
    requires k in t.rows && ValidRows(t.rows, t.nextId) && b.id == t.rows[k].id
             && (KeyOf(b) == k || KeyOf(b) !in t.rows)
    ensures ValidRows((t.rows - {k})[KeyOf(b) := b], t.nextId)
  {
  }

  class Alloc {
    const store: R.Store
    const config: Config

    constructor (store: R.Store, config: Config)
      requires Configured(config)
      ensures this.store == store && this.config == config
    {
      this.store, this.config := store, config;
    }

    method FilterAvailable(z: Zone, candidates: seq<string>) returns (out: seq<string>)
      requires Configured(config)
      ensures out == AtMost3(Offers(store.Tables(), config, z, candidates))
    {
      hide N.Normal, Check;
      out := [];
      ghost var t := store.Tables();
      for i := 0 to |candidates|
        invariant out == Offers(t, config, z, candidates[..i]) && |out| < 3
      {
        assert candidates[..i + 1][..i] == candidates[..i];
        var norm := N.Normalize(candidates[i], Tenant, config.unicode);
        if norm.Err? || Check(PolicyFor(config, z), norm.name, Tenant).Some? {
          continue;
        }
        var existing := store.GetAllocationByLabel(z.name, norm.name);
        if existing == None {
          out := out + [norm.name];
        }
        if |out| >= 3 {
          OffersGrow(t, config, z, candidates, i + 1);
          return;
        }
      }
      assert candidates[..|candidates|] == candidates;
    }

    method Alternatives(z: Zone, name: string) returns (out: seq<string>)
      requires Configured(config)
      ensures out == SuggestionsFor(store.Tables(), config, z, name)
    {
      var candidates := Suggest(name);
      out := FilterAvailable(z, candidates);
    }

    /** The answer for one label; nothing when the zone is not registered. */
    method CheckAvailability(zone: string, raw: string) returns (r: Option<Availability>)
      requires Configured(config)
      ensures r == if zone in store.zones then Some(Checked(store.Tables(), config, zone, raw)) else None
    {
      hide N.Normal, Check, Offers, SuggestionsFor;
      var z := store.GetZone(zone);
      if z == None {
        return None;
      }
      var norm := N.Normalize(raw, Tenant, config.unicode);
      if norm.Err? {
        return Some(Availability(raw, false, Some(Invalid), []));
      }
      var refused := Check(PolicyFor(config, z.value), norm.name, Tenant);
      if refused.Some? {
        var offered := Alternatives(z.value, norm.name);
        return Some(Availability(norm.name, false, refused, offered));
      }
      var existing := store.GetAllocationByLabel(zone, norm.name);
      if existing.Some? && existing.value.state != Released {
        var offered := Alternatives(z.value, norm.name);
        var reason := if existing.value.kind != Tenant then ReservedName else Taken;
        return Some(Availability(norm.name, false, Some(reason), offered));
      }
      return Some(Availability(norm.name, true, None, []));
    }

    /** A claim is one insert, or nothing at all. */
    method ClaimHostname(req: Request, now: int) returns (r: Answer)
      requires Configured(config) && forall z <- store.zones :: store.zones[z].name == z
      modifies store`rows, store`nextId, store`events
      ensures req.zone !in store.zones <==> r == NotFound
      ensures req.zone in store.zones ==>
                var t := old(store.Tables());
                match Refusal(t, config, req.zone, req.name, req.kind, SourceOf(req))
                case Some(reason) => r.Rejected? && r.reason == reason
                case None =>
                  var z := t.zones[req.zone];
                  var row := Requested(req, z, N.Normal(req.name, KindOf(z, req.kind), config.unicode).name, config,
                                       now);
                  r == Claimed(row.(id := t.nextId, updatedAt := now))
                  && store.Tables() == Insert(t, row.(updatedAt := now))
      ensures r.Claimed? ==>
                var z := old(store.zones)[req.zone];
                var kind := if req.kind.Some? then req.kind.value else if z.dev then Platform else Tenant;
                var span := if req.ttl <= 0 then config.holdTtl else req.ttl;
                && N.Normal(req.name, kind, config.unicode) == N.Ok(r.row.name)
                && r.row == Allocation(old(store.nextId), req.zone, req.project, r.row.name, Fqdn(r.row.name, req.zone),
                                       kind, if req.source.Some? then req.source.value else Api, req.ownerRef,
                                       req.ownerKind, if req.hold then Pending else Active, req.spec, None, req.labels,
                                       if req.hold then Some(now + span) else None, now)
                && store.rows == old(store.rows)[Key(req.zone, r.row.name) := r.row]
      ensures !r.Claimed? ==> store.Tables() == old(store.Tables()) && store.events == old(store.events)
      ensures r.Claimed? ==> store.events == old(store.events) + [Event(r.row.id, req.ownerRef, Create, None, now)]
      ensures r.Rejected? ==>
                var z := old(store.zones)[req.zone];
                r.suggestions == match N.Normal(req.name, KindOf(z, req.kind), config.unicode)
                                 case Err(_) => []
                                 case Ok(name) => SuggestionsFor(old(store.Tables()), config, z, name)
    {
      hide N.Normal, Check, SuggestionsFor;
      var zone := store.GetZone(req.zone);
      if zone == None {
        return NotFound;
      }
      var z := zone.value;
      var kind := KindOf(z, req.kind);
      var norm := N.Normalize(req.name, kind, config.unicode);
      if norm.Err? {
        return Rejected(Invalid, []);
      }
      var source := SourceOf(req);
      if source == Api {
        var refused := Check(PolicyFor(config, z), norm.name, kind);
        if refused.Some? {
          var offered := Alternatives(z, norm.name);
          return Rejected(refused.value, offered);
        }
      }
      var created := store.CreateAllocation(Requested(req, z, norm.name, config, now), now);
      if created == None {
        var existing := store.GetAllocationByLabel(z.name, norm.name);
        var reason := if existing.Some? && existing.value.kind != Tenant then ReservedName else Taken;
        var offered := Alternatives(z, norm.name);
        return Rejected(reason, offered);
      }
      return Claimed(created.value);
    }

    /** A hold becomes permanent. */
    method Commit(id: int, wall: int) returns (ok: bool)
      requires ValidRows(store.rows, store.nextId)
      modifies store`rows
      ensures ValidRows(store.rows, store.nextId)
      ensures ok <==> exists k <- old(store.rows) :: old(store.rows)[k].id == id && old(store.rows)[k].state == Pending
      ensures !ok ==> store.rows == old(store.rows)
      ensures ok ==> forall k <- old(store.rows) :: old(store.rows)[k].id == id ==>
                store.rows == old(store.rows)[k := old(store.rows)[k].(state := Active, expiresAt := None,
                                                                       updatedAt := wall)]
    {
      var row := store.GetAllocation(id);
      if row == None || row.value.state != Pending {
        return false;
      }
      var a := row.value.(state := Active, expiresAt := None);
      R.PatchOne(store.rows, store.nextId, KeyOf(row.value), a, wall);
      store.UpdateAllocation(a, wall);
      return true;
    }

    /** A hold lasts longer; anything else is left alone. */
    method Renew(id: int, ttl: int, now: int, wall: int) returns (ok: bool)
      requires ValidRows(store.rows, store.nextId)
      modifies store`rows
      ensures ValidRows(store.rows, store.nextId)
      ensures ok <==> exists k <- old(store.rows) ::
                old(store.rows)[k].id == id && old(store.rows)[k].state == Pending && old(store.rows)[k].expiresAt.Some?
      ensures !ok ==> store.rows == old(store.rows)
      ensures ok ==> forall k <- old(store.rows) :: old(store.rows)[k].id == id ==>
                store.rows == old(store.rows)[k := old(store.rows)[k].(
                    expiresAt := Some(now + if ttl <= 0 then config.holdTtl else ttl), updatedAt := wall)]
    {
      var row := store.GetAllocation(id);
      if row == None || row.value.state != Pending || row.value.expiresAt == None {
        return false;
      }
      var a := row.value.(expiresAt := Some(now + if ttl <= 0 then config.holdTtl else ttl));
      R.PatchOne(store.rows, store.nextId, KeyOf(row.value), a, wall);
      store.UpdateAllocation(a, wall);
      return true;
    }

    /** The row goes, and its label is free at once. */
    method Release(id: int, wall: int) returns (ok: bool)
      requires ValidRows(store.rows, store.nextId)
      modifies store`rows
      ensures ok <==> exists k <- old(store.rows) :: old(store.rows)[k].id == id
      ensures store.rows == R.Without(old(store.rows), id)
    {
      var row := store.GetAllocation(id);
      if row == None {
        assert R.Without(store.rows, id) == store.rows;
        return false;
      }
      var k, a := KeyOf(row.value), row.value.(state := Released, expiresAt := None);
      R.PatchOne(store.rows, store.nextId, k, a, wall);
      R.DeleteOne(store.rows, store.nextId, k);
      store.UpdateAllocation(a, wall);
      R.DeleteOne(store.rows, store.nextId, k);
      assert old(store.rows)[k := a.(updatedAt := wall)] - {k} == old(store.rows) - {k};
      store.DeleteAllocation(id);
      return true;
    }

    /** Moves a row to a new label of its zone. Trusted sources are held to the policy here, too. */
    method Rename(id: int, raw: string, wall: int) returns (r: Renaming)
      requires Configured(config) && ValidRows(store.rows, store.nextId)
      modifies store`rows, store`events
      ensures forall k <- old(store.rows) :: old(store.rows)[k].id == id && k.zone in store.zones ==>
                r == RenameOf(old(store.Tables()), config, k, raw, wall)
                && store.rows == (if r.Renamed? then (old(store.rows) - {k})[KeyOf(r.row) := r.row]
                                  else old(store.rows))
      ensures r.Missing? <==> forall k <- old(store.rows) :: old(store.rows)[k].id == id ==> k.zone !in store.zones
    {
      hide N.Normal, Check;
      var row := store.GetAllocation(id);
      if row == None {
        return Missing;
      }
      var zone := store.GetZone(row.value.zone);
      if zone == None {
        return Missing;
      }
      var norm := N.Normalize(raw, row.value.kind, config.unicode);
      if norm.Err? {
        return Refused(Invalid);
      }
      if norm.name == row.value.name {
        assert (store.rows - {KeyOf(row.value)})[KeyOf(row.value) := row.value] == store.rows;
        return Renamed(row.value);
      }
      var refused := Check(PolicyFor(config, zone.value), norm.name, row.value.kind);
      if refused.Some? {
        return Refused(refused.value);
      }
      ghost var moved := R.Moved(row.value, norm.name, Fqdn(norm.name, row.value.zone), wall);
      var ok := store.RenameAllocation(id, norm.name, Fqdn(norm.name, row.value.zone), wall);
      if !ok {
        var existing := store.GetAllocationByLabel(row.value.zone, norm.name);
        return Refused(if existing.Some? && existing.value.kind != Tenant then ReservedName else Taken);
      }
      assert store.rows[KeyOf(moved)] == moved;
      var after := store.GetAllocationByLabel(row.value.zone, norm.name);
      return Renamed(after.value);
    }
  }
}

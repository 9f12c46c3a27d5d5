/** One input for each promise that the code does not keep. The lemmas elsewhere say exactly when it does. */
module Counterexamples {
  import opened Core
  import opened Text
  import opened Apply
  import opened ApplyTheorems
  import A = Allocations
  import B = Observer
  import C = CrdIngest
  import D = DockerLabels
  import E = EndToEnd
  import M = Manifest
  import N = Normalize
  import P = Proxy
  import Q = Policies
  import R = Routes
  import O = Observation
  import S = Supervisor
  import Sights = Sightings
  import T = Takeover
  import W = OwnedRows

  // ---- a manifest with one hostname

  /** Project "p" with a service "s" that has one hostname and the backend web:80. */
  function OneHost(zone: string, host: string): M.Manifest {
    M.Manifest("p", "", "", zone, map["s" := OneService(host)], 0)
  }

  function OneService(host: string): M.Service {
    M.Service([host], [], M.Choice("web", "", None, None), [], "", false)
  }

  const ENV := M.Resolver((_, _) => None, _ => None)

  const WEB := [Route(0, Address("web", 80))]

  function OneClaim(zone: string, name: string): M.Claim {
    M.Claim(zone, name, "p", "p/s", "s", Spec(WEB, false, 0))
  }

  lemma OneRoutes(host: string)
    ensures M.RoutesOf(OneService(host), "p/s", ENV) == Some(WEB) && M.AcceptedService(OneService(host))
  {
    hide LastIndex;
    LastIndexAbsent("web", ':');
    assert M.BackendFrom(OneService(host).choice, "p/s", ENV) == Some(Address("web", 80));
    var routes := M.RoutesOf(OneService(host), "p/s", ENV).value;
    assert |routes| == 1 && routes[0] == WEB[0];
    assert routes == WEB;
  }

  lemma OneHostAccepted(zone: string, host: string)
    requires zone != ""
    ensures M.Accepted(OneHost(zone, host))
    ensures OneHost(zone, host).RoutingProject() == "p" && OneHost(zone, host).OwnerRef("s") == "p/s"
    ensures OneHost(zone, host).ManagesRoutes() && M.Routed(OneHost(zone, host), "s")
    ensures M.RoutesOf(OneService(host), "p/s", ENV) == Some(WEB)
  {
    hide M.RoutesOf, M.AcceptedService;
    OneRoutes(host);
    assert "s" in OneHost(zone, host).services;
  }

  lemma OneHostCompiled(zone: string, host: string, name: string)
    requires zone != "" && M.LabelFor(zone, host) == Some((name, false))
    ensures M.Compiled(OneHost(zone, host), ENV, [OneClaim(zone, name)], OneHost(zone, host).services.Keys)
    ensures !M.Defective(OneHost(zone, host), ENV)
  {
    hide M.LabelFor, M.RoutesOf;
    OneHostAccepted(zone, host);
    var m, c := OneHost(zone, host), OneClaim(zone, name);
    var s := m.services["s"];
    assert s.hostnames[0] == host;
    assert M.Declares(zone, s, name);
    assert forall l :: M.Declares(zone, s, l) ==> l == name;
    assert !M.DeclaresWildcard(zone, s, name);
    assert c == M.ClaimFor(m, "s", name, WEB);
    assert c in [c];
  }

  /** The handler's run of a manifest that compiled to these claims. */
  function RunOf(m: M.Manifest, env: M.Resolver, u: N.Unicode, prune: bool, wall: int, before: Table,
                 claims: seq<M.Claim>): Run {
    var p := Steps(Ensured(before, m), u, claims, wall);
    var after := if p.ok && prune && m.zone != "" && m.ManagesRoutes()
                 then p.t.(rows := Pruned(p.t.rows, m.zone, m.RoutingProject(), Names(claims))) else p.t;
    Run(m, env, u, prune, wall, before,
        if p.ok then Applied(p.claimed, p.updated, if after == p.t then [] else [""]) else Stopped, claims, after)
  }

  lemma RunOfReplied(m: M.Manifest, env: M.Resolver, u: N.Unicode, prune: bool, wall: int, before: Table,
                     claims: seq<M.Claim>)
    requires M.Compiled(m, env, claims, m.services.Keys) && !M.Defective(m, env)
    ensures Replied(RunOf(m, env, u, prune, wall, before, claims))
  {
    hide M.Compiled, M.Defective, Steps, Pruned;
  }

  const NO_TABLE := Table(map[], map[], 1)

  /** Compatibility folding that does nothing, and an encoding of one letter. */
  function OneLetter(encoded: string): N.Unicode {
    N.Unicode(s => s, s => if s == "\U{e9}" then Some(encoded) else None)
  }

  lemma OneStep(t: Table, u: N.Unicode, c: M.Claim, wall: int)
    ensures Steps(t, u, [c], wall) == After(Progress(t, true, [], []), u, c, wall)
  {
    hide After;
    assert [c][..0] == [];
  }

  lemma AppIsNormal(u: N.Unicode)
    requires N.Folds(u)
    ensures N.Normal("app", Platform, u) == N.Ok("app")
  {
    assert N.Starred(false, ["app"]) == "app";
    N.NormalOfStarred(false, ["app"], Platform, u);
  }

  /** A hostname written in lower case, its label, and its zone. */
  lemma LabelIn(name: string, zone: string)
    requires name != "" && zone != "" && IsLower(name) && IsLower(zone)
    requires !IsSpace(name[0]) && name[0] != '*' && !IsSpace(zone[|zone| - 1])
    ensures M.LabelFor(zone, name + "." + zone) == Some((name, false))
    ensures Lower(TrimSpace(name + "." + zone)) == name + "." + zone && !HasPrefix(name + "." + zone, "*.")
  {
    hide TrimSpace, Lower, HasPrefix, TrimPrefix, HasSuffix, TrimSuffix;
    var host := name + "." + zone;
    TrimSpaceFixed(host);
    LowerOfLower(host);
    assert host[0] == name[0];
    NoStar(host);
    assert host == name + ("." + zone) && |host| > |zone|;
    SuffixOfConcat(name, "." + zone);
  }

  lemma NoStar(host: string)
    requires host != "" && host[0] != '*'
    ensures !HasPrefix(host, "*.") && TrimPrefix(host, "*.") == host
  {
  }

  /** The run of such a manifest: one claim. */
  lemma OneRun(zone: string, host: string, name: string, u: N.Unicode, before: Table) returns (x: Run)
    requires zone != "" && M.LabelFor(zone, host) == Some((name, false))
    ensures x.m == OneHost(zone, host) && x.u == u && x.before == before && x.claims == [OneClaim(zone, name)]
    ensures M.Accepted(x.m) && Replied(x) && !x.reply.Invalid? && Prunes(x) && x.m.RoutingProject() == "p"
    ensures x.wall == 0 && x.env == ENV && Names(x.claims) == {name}
    ensures Landing(x) == After(Progress(Ensured(before, x.m), true, [], []), u, OneClaim(zone, name), 0)
  {
    hide M.Compiled, M.Defective, M.Accepted, M.LabelFor, After, Pruned;
    var m, c := OneHost(zone, host), OneClaim(zone, name);
    x := RunOf(m, ENV, u, true, 0, before, [c]);
    OneHostAccepted(zone, host);
    OneHostCompiled(zone, host, name);
    RunOfReplied(m, ENV, u, true, 0, before, [c]);
    OneStep(Ensured(before, m), u, c, 0);
    assert Names([c]) == {name} by {
      assert c in [c];
    }
  }

  /** On an empty table the claim goes through under its normal form, and the run then prunes what it does not
      declare. */
  lemma FreshRun(zone: string, host: string, name: string, normal: string, u: N.Unicode) returns (x: Run)
    requires zone != "" && M.LabelFor(zone, host) == Some((name, false)) && name != ""
    requires N.Normal(name, Platform, u) == N.Ok(normal)
    ensures x.m == OneHost(zone, host) && x.u == u && x.before == NO_TABLE && x.claims == [OneClaim(zone, name)]
    ensures M.Accepted(x.m) && Replied(x) && x.reply.Applied? && x.reply.claimed == [Fqdn(name, zone)]
    ensures var row := New(OneClaim(zone, name), normal, 0).(id := 1);
            x.after.rows == if normal == name then map[Key(zone, normal) := row] else map[]
    ensures x.reply.pruned == [] <==> normal == name
  {
    hide M.Accepted, M.LabelFor, N.Normal, Replied, Landing;
    x := OneRun(zone, host, name, u, NO_TABLE);
    RunFinal(x);
    var row := New(OneClaim(zone, name), normal, 0).(id := 1);
    assert Landing(x).t.rows == map[Key(zone, normal) := row];
    assert Stale(row, zone, "p", {name}) <==> normal != name;
  }

  /** On a table whose one row bears the manifest's owner reference and sits under the label, the run takes the row
      over. */
  lemma TakingRun(zone: string, host: string, name: string, u: N.Unicode, was: Allocation) returns (x: Run)
    requires zone != "" && M.LabelFor(zone, host) == Some((name, false)) && name != ""
    requires N.Normal(name, Platform, u) == N.Ok(name) && KeyOf(was) == Key(zone, name) && was.ownerRef == "p/s"
    ensures x.m == OneHost(zone, host) && x.u == u && x.before.rows == map[KeyOf(was) := was]
            && x.claims == [OneClaim(zone, name)]
    ensures Regular(x) && x.reply.Applied?
    ensures x.after.rows == map[KeyOf(was) := Merged(was, OneClaim(zone, name), 0)]
  {
    hide M.Accepted, M.LabelFor, N.Normal, Replied, Landing;
    x := OneRun(zone, host, name, u, Table(map[], map[KeyOf(was) := was], was.id + 1));
    RunFinal(x);
    var row := Merged(was, OneClaim(zone, name), 0);
    assert Landing(x).t.rows == map[KeyOf(was) := row];
    assert !Stale(row, zone, "p", {name});
  }

  // ---- a row taken over

  const APP := Key("test", "app")

  /** Somebody's pending row with the manifest's owner reference. */
  const PENDING := Allocation(0, "test", "", "app", "app.test", Platform, Api, "p/s", "", Pending, NO_SPEC, None, map[],
                              Some(1), 0)

  /** The run succeeds and takes the row over, and the row stays pending: the declared hostname is not found. */
  lemma PendingTakenOver(u: N.Unicode, es: seq<P.Entry>) returns (x: Run)
    requires N.Folds(u)
    ensures Regular(x) && x.reply.Applied? && x.m == OneHost("test", "app.test") && x.before.rows == map[APP := PENDING]
    ensures APP in x.after.rows && x.after.rows[APP].spec.routes == WEB && x.after.rows[APP].state == Pending
    ensures P.Built(es, x.after.rows) ==> !E.Found(x, es, APP, P.CleanHost("app.test"), 80)
  {
    hide Regular, M.LabelFor, N.Normal, P.CleanHost, P.Lookup, P.Built;
    LabelIn("app", "test");
    assert "app" + "." + "test" == "app.test";
    AppIsNormal(u);
    x := TakingRun("test", "app.test", "app", u, PENDING);
    if P.Built(es, x.after.rows) {
      E.FoundIsResolved(es, x.after.rows, APP, P.CleanHost("app.test"), 80);
      if E.Resolves(es, x.after.rows, APP, P.CleanHost("app.test"), 80) {
        E.FoundServes(es, x.after.rows, APP, P.CleanHost("app.test"), 80);
      }
    }
  }

  // ---- a zone with a final dot

  /** A run on an empty table, so no inactive row is found. It succeeds, and its hostname is not found as it is written:
      the lookup cuts the final dot, and the table keeps it. */
  lemma FinalDotZone(u: N.Unicode, es: seq<P.Entry>) returns (x: Run)
    requires N.Folds(u)
    ensures Regular(x) && x.reply.Applied? && x.m == OneHost("test.", "app.test.") && x.before.rows == map[]
    ensures Key("test.", "app") in x.after.rows && x.after.rows[Key("test.", "app")].state == Active
    ensures !P.Plain("test.") && P.CleanHost("app.test.") == "app.test"
    ensures P.Built(es, x.after.rows) ==> !E.Found(x, es, Key("test.", "app"), P.CleanHost("app.test."), 80)
  {
    hide M.Accepted, M.LabelFor, N.Normal, P.CleanHost, P.Lookup, P.Plain, Replied, P.Built, E.Found;
    LabelIn("app", "test.");
    assert "app" + "." + "test." == "app.test.";
    AppIsNormal(u);
    x := FreshRun("test.", "app.test.", "app", "app", u);
    DottedIsCleaned();
    if P.Built(es, x.after.rows) {
      NotPlainNotFound(x, es, "test.", "app.test.", "app", 80);
    }
  }

  /** No hostname of a zone that is not plain is found as it is written. */
  lemma NotPlainNotFound(x: Run, es: seq<P.Entry>, zone: string, host: string, name: string, port: int)
    requires Regular(x) && x.reply.Applied? && x.m == OneHost(zone, host) && zone != "" && !P.Plain(zone)
    requires M.LabelFor(zone, host) == Some((name, false)) && N.Normal(name, Platform, x.u) == N.Ok(name)
    requires Lower(TrimSpace(host)) == host && !HasPrefix(host, "*.")
    requires host != "@." + zone && E.Unshared(x.after.rows, zone, host) && P.Built(es, x.after.rows)
    ensures !E.Found(x, es, Key(zone, name), P.CleanHost(host), port)
  {
    hide Regular, M.LabelFor, P.CleanHost, P.Plain, P.Lookup, P.Built, E.Unshared, E.Found;
    OneHostAccepted(zone, host);
    assert x.m.services["s"].hostnames[0] == host;
    E.DeclaredHostResolves(x, es, "s", 0, port);
  }

  lemma DottedIsCleaned()
    ensures !P.Plain("test.") && P.CleanHost("app.test.") == "app.test"
  {
    hide P.CleanHost;
    assert "test."[4..] == ".";
    DotIsCut("app.test");
    assert "app.test" + "." == "app.test.";
  }

  lemma DotIsCut(host: string)
    requires IsLower(host) && ':' !in host
    ensures P.CleanHost(host + ".") == host
  {
    SuffixOfConcat(host, ".");
    LowerOfLower(host);
    LastIndexAbsent(host, ':');
  }

  // ---- a label that is not in normal form

  /** A run on an empty table that claims the label in normal form, finds it undeclared, and prunes it. */
  lemma ClaimedAndPruned() returns (x: Run)
    ensures x.m == OneHost("test", "\U{e9}.test") && x.u == OneLetter("xn--9ca") && N.Folds(x.u)
            && x.before.rows == map[]
    ensures M.Accepted(x.m) && Replied(x) && x.reply.Applied? && x.reply.claimed == ["\U{e9}.test"]
    ensures x.reply.pruned != [] && x.after.rows == map[]
  {
    hide M.Accepted, M.LabelFor, N.Normal, Replied;
    LabelIn("\U{e9}", "test");
    assert "\U{e9}" + "." + "test" == "\U{e9}.test";
    LetterEncoded("xn--9ca", Platform);
    x := FreshRun("test", "\U{e9}.test", "\U{e9}", "xn--9ca", OneLetter("xn--9ca"));
  }

  /** What the letter's label normalizes to: whatever it is encoded as, if that is a label or empty. */
  lemma LetterEncoded(encoded: string, kind: Kind)
    requires encoded == "" || N.Ldh(encoded)
    ensures N.Normal("\U{e9}", kind, OneLetter(encoded)) == N.Ok(encoded)
  {
    var u := OneLetter(encoded);
    TrimSpaceFixed("\U{e9}");
    LowerOfLower("\U{e9}");
    N.SplitPlain("\U{e9}");
    assert !N.IsAscii("\U{e9}") && u.idna("\U{e9}") == Some(encoded);
    if encoded != "" {
      assert encoded[|encoded| - 1..] == [encoded[|encoded| - 1]] && encoded[..1] == [encoded[0]];
    }
    assert N.NormalPart("\U{e9}", u) == N.Ok(encoded);
    assert ["\U{e9}"][1..] == [] && [encoded] + [] == [encoded];
    assert N.NormalParts(["\U{e9}"], u) == ([encoded], None);
  }

  // ---- normalizing twice

  /** An encoding that answers with nothing: the first pass accepts what the second rejects. */
  lemma AcceptedThenRejected() returns (u: N.Unicode)
    ensures N.Folds(u) && N.Normal("\U{e9}", Tenant, u) == N.Ok("") && N.Normal("", Tenant, u) == N.Err(N.EmptyLabel)
  {
    u := OneLetter("");
    LetterEncoded("", Tenant);
  }

  // ---- a released row that was kept

  const RELEASED := Allocation(0, "test", "", "app", "app.test", Tenant, Api, "somebody", "", Released, NO_SPEC, None,
                               map[], None, 0)

  const NO_POLICY := Q.Policy(0, 0, None, {}, {})

  /** The label is said to be available, and its claim is refused. */
  lemma AvailableButTaken(u: N.Unicode) returns (t: Table, c: A.Config)
    requires N.Folds(u)
    ensures A.Configured(c) && c.unicode == u && t.zones == map["test" := Zone("test", true, "default")]
    ensures t.rows == map[APP := RELEASED] && ValidRows(t.rows, t.nextId)
    ensures A.Checked(t, c, "test", "app").available
    ensures A.Refusal(t, c, "test", "app", Some(Tenant), Api) == Some(Q.Taken)
  {
    hide N.Normal;
    c := A.Config(map["default" := NO_POLICY], u, 0);
    t := Table(map["test" := Zone("test", true, "default")], map[APP := RELEASED], 1);
    AppIsTenantLabel(u);
  }

  lemma AppIsTenantLabel(u: N.Unicode)
    requires N.Folds(u)
    ensures N.Normal("app", Tenant, u) == N.Ok("app")
  {
    assert N.Starred(false, ["app"]) == "app";
    N.NormalOfStarred(false, ["app"], Tenant, u);
  }

  // ---- a clock that steps back

  const MINUTE := 60_000_000_000

  /** Three crashes of the last minute as the third is recorded, of which the process remembers two: the second, a
      minute after the first, dropped it, and then the clock stepped back. */
  lemma ForgottenCrash() returns (log: seq<S.Event>, now: int)
    ensures log != [] && log[|log| - 1] == S.Failure(now) && !S.Monotone(log)
    ensures |S.Failures(log)| < S.CRASH_THRESHOLD <= |S.Recent(S.Since(log), now)|
  {
    hide S.Recent, S.Failures, S.Since;
    now := 1;
    log := [];
    EmptyLog();
    Crash(log, 0);
    log := log + [S.Failure(0)];
    S.RecentSnoc([], 0, MINUTE);
    Crash(log, MINUTE);
    log := log + [S.Failure(MINUTE)];
    S.RecentSnoc([], MINUTE, 1);
    Crash(log, 1);
    log := log + [S.Failure(1)];
    S.RecentSnoc([], 0, 1);
    S.RecentSnoc([0], MINUTE, 1);
    S.RecentSnoc([0, MINUTE], 1, 1);
    assert [] + [0] == [0] && [0] + [MINUTE] == [0, MINUTE] && [0, MINUTE] + [1] == [0, MINUTE, 1]
           && [] + [MINUTE] == [MINUTE];
    assert log[1].at > log[2].at;
  }

  lemma EmptyLog()
    ensures S.Failures([]) == [] && S.Since([]) == [] && forall now :: S.Recent([], now) == []
  {
  }

  lemma Crash(log: seq<S.Event>, t: int)
    ensures S.Failures(log + [S.Failure(t)]) == S.Recent(S.Failures(log), t) + [t]
    ensures S.Since(log + [S.Failure(t)]) == S.Since(log) + [t]
  {
    assert (log + [S.Failure(t)])[..|log|] == log;
  }

  // ---- exits that were asked for

  /** A boot that is stopped, another before its command has exited, and then that exit. */
  function StoppedRound(b: nat): seq<S.Section> {
    [S.Request(0), S.Halt, S.Request(0), S.Exit(b, 0)]
  }

  lemma StoppedRoundCounts(h: seq<S.Section>)
    requires S.LivedAll(S.UNBORN, h).state == S.Stopped
    ensures var s, t := S.LivedAll(S.UNBORN, h), S.LivedAll(S.UNBORN, h
                                                            + StoppedRound(S.LivedAll(S.UNBORN, h).boot + 1));
            && t.log == s.log + [S.Failure(0)] && t.boot == s.boot + 2
            && t.state == if |S.Failures(t.log)| >= S.CRASH_THRESHOLD then S.Parked else S.Stopped
  {
    hide S.Failures;
    var s := S.LivedAll(S.UNBORN, h);
    S.LivedFour(S.UNBORN, h, S.Request(0), S.Halt, S.Request(0), S.Exit(s.boot + 1, 0));
  }

  /** Three stops, each followed by a request before the stopped command exits: every exit was asked for, none is a
      crash, and the process is parked. */
  lemma ParkedByStops() returns (h: seq<S.Section>)
    ensures h == StoppedRound(1) + StoppedRound(3) + StoppedRound(5)
    ensures S.LivedAll(S.UNBORN, h).state == S.Parked
    ensures S.LivedAll(S.UNBORN, h).log == [S.Failure(0), S.Failure(0), S.Failure(0)]
  {
    hide S.Failures, S.Since, S.Lived, S.LivedAll, StoppedRound;
    ThreeAtOnce();
    NoSections();
    var none: seq<S.Section>, f := [], S.Failure(0);
    assert none + StoppedRound(1) == StoppedRound(1);
    assert [] + [f] == [f] && [f] + [f] == [f, f] && [f, f] + [f] == [f, f, f];
    StoppedRoundCounts(none);
    h := StoppedRound(1);
    StoppedRoundCounts(h);
    h := h + StoppedRound(3);
    StoppedRoundCounts(h);
    h := h + StoppedRound(5);
  }

  lemma NoSections()
    ensures S.LivedAll(S.UNBORN, []) == S.UNBORN
  {
  }

  lemma ThreeAtOnce()
    ensures var f := S.Failure(0);
            |S.Failures([f])| == 1 && |S.Failures([f, f])| == 2 && |S.Failures([f, f, f])| == 3
  {
    hide S.Recent, S.Failures, S.Since;
    EmptyLog();
    Crash([], 0);
    Crash([S.Failure(0)], 0);
    Crash([S.Failure(0), S.Failure(0)], 0);
    S.RecentSnoc([], 0, 0);
    S.RecentSnoc([0], 0, 0);
    var f := S.Failure(0);
    assert [] + [f] == [f] && [f] + [f] == [f, f] && [f, f] + [f] == [f, f, f];
    assert [] + [0] == [0] && [0] + [0] == [0, 0];
  }

  /** One missed health check and a request before the killed command exits: two failures. */
  lemma CountedTwice()
    ensures S.LivedAll(S.UNBORN, [S.Request(0), S.Missed(1), S.Request(2), S.Exit(1, 3)]).log
            == [S.Failure(1), S.Failure(3)]
  {
    hide S.Failures, S.Since;
    var h := [S.Request(0), S.Missed(1), S.Request(2), S.Exit(1, 3)];
    S.LivedFour(S.UNBORN, [], S.Request(0), S.Missed(1), S.Request(2), S.Exit(1, 3));
    assert [] + h == h && S.LivedAll(S.UNBORN, []) == S.UNBORN;
    assert [] + [S.Failure(1)] == [S.Failure(1)] && [S.Failure(1)] + [S.Failure(3)] == [S.Failure(1), S.Failure(3)];
  }

  // ---- owner references that meet

  /** The row that the ingester makes for a reservation s in namespace p. */
  function ReservedRow(c: A.Config, routes: seq<Route>, wall: int): Allocation {
    A.Requested(W.RequestFor(C.ItemFor(Reservation(routes)), C.OWNER_KIND), DEV, "app", c, wall).(updatedAt := wall,
        id := 1)
  }

  const DEV := Zone("test", true, "default")

  function Reservation(routes: seq<Route>): C.Reservation {
    C.Reservation("p", "s", "test", "app", None, "", routes, false)
  }

  /** It is the row that a pass over an empty registry leaves. */
  lemma ReservedRowMade(u: N.Unicode, c: A.Config, routes: seq<Route>, wall: int)
    requires N.Folds(u) && A.Configured(c) && c.unicode == u
    ensures var t := Table(map["test" := DEV], map[], 1);
            W.Passed(t, c, C.OWNER_KIND, C.ItemsOf([Reservation(routes)]), C.Desired([Reservation(routes)]), wall)
            == Table(map["test" := DEV], map[APP := ReservedRow(c, routes, wall)], 2)
  {
    hide N.Normal;
    AppIsNormal(u);
    var t, rs := Table(map["test" := DEV], map[], 1), [Reservation(routes)];
    var items := C.ItemsOf(rs);
    assert items == [C.ItemFor(rs[0])] && items[..0] == [];
    assert W.SyncedAll(t, c, C.OWNER_KIND, [], wall) == t;
    var v := W.SyncedAll(t, c, C.OWNER_KIND, items, wall);
    assert v == W.Synced(t, c, C.OWNER_KIND, items[0], wall);
    assert v.rows == map[APP := ReservedRow(c, routes, wall)];
    assert C.Wanted(v.rows[APP], rs);
  }

  /** A manifest of project p with a service s, and the same label, takes that row over. */
  lemma ReservationTakenOver(u: N.Unicode, c: A.Config, routes: seq<Route>, wall: int) returns (x: Run)
    requires N.Folds(u)
    ensures Regular(x) && x.reply.Applied? && x.m == OneHost("test", "app.test")
    ensures x.before.rows == map[APP := ReservedRow(c, routes, wall)] && T.Takes(x, APP)
    ensures x.after.rows == map[APP := ReservedRow(c, routes, wall).(spec := Spec(WEB, false, 0), project := "p",
                                                                     updatedAt := 0)]
  {
    x := AppTaken(u, ReservedRow(c, routes, wall));
  }

  /** So does it with the row that the observer makes for a route p/s of the cluster. */
  lemma RouteTakenOver(u: N.Unicode, kind: string, uid: string, service: string, wall: int) returns (x: Run)
    requires N.Folds(u)
    ensures var r := R.ObservedRoute(uid, "p", "s", kind, "", 0, [R.Exact("app.test")], service, false);
            var row := B.NewRow("test", Sights.Sight("app", O.Owner(r.Ref(), kind, uid, service), false), wall);
            && Regular(x) && x.reply.Applied? && x.m == OneHost("test", "app.test")
            && x.before.rows == map[APP := row] && T.Takes(x, APP)
            && x.after.rows == map[APP := row.(spec := Spec(WEB, false, 0), project := "p", updatedAt := 0)]
  {
    var r := R.ObservedRoute(uid, "p", "s", kind, "", 0, [R.Exact("app.test")], service, false);
    assert r.Ref() == "p/s";
    x := AppTaken(u, B.NewRow("test", Sights.Sight("app", O.Owner(r.Ref(), kind, uid, service), false), wall));
  }

  lemma AppTaken(u: N.Unicode, was: Allocation) returns (x: Run)
    requires N.Folds(u) && KeyOf(was) == APP && was.ownerRef == "p/s" && was.project == ""
    ensures Regular(x) && x.reply.Applied? && x.m == OneHost("test", "app.test")
    ensures x.before.rows == map[APP := was] && T.Takes(x, APP)
    ensures x.after.rows == map[APP := was.(spec := Spec(WEB, false, 0), project := "p", updatedAt := 0)]
  {
    hide Regular, M.LabelFor, N.Normal, T.Takes;
    LabelIn("app", "test");
    assert "app" + "." + "test" == "app.test";
    AppIsNormal(u);
    x := TakingRun("test", "app.test", "app", u, was);
    OneHostAccepted("test", "app.test");
    RegularReplied(x);
    T.TakesIff(x, APP);
  }

  lemma RegularReplied(x: Run)
    requires Regular(x)
    ensures M.Accepted(x.m) && Replied(x) && ValidRows(x.before.rows, x.before.nextId)
  {
  }

  // ---- passes that never settle

  function Container(name: string, hostname: string): D.Labeled {
    D.Labeled(name, hostname, "", 80)
  }

  /** Two running containers with one hostname: the next pass writes again, whenever it comes. */
  lemma TwoContainers(u: N.Unicode, c: A.Config, wall: int, later: int)
    requires N.Folds(u) && A.Configured(c) && c.unicode == u && wall != later
    ensures var want := [Container("a", "app.test"), Container("b", "app.test")];
            var once := W.Passed(Table(map["test" := DEV], map[], 1), c, D.OWNER_KIND, D.ItemsOf(want, [DEV]),
                                 D.Desired(want), wall);
            W.Passed(once, c, D.OWNER_KIND, D.ItemsOf(want, [DEV]), D.Desired(want), later) != once
  {
    hide N.Normal, D.Split, W.Passed, D.Rejoins, D.From;
    var want, t := [Container("a", "app.test"), Container("b", "app.test")], Table(map["test" := DEV], map[], 1);
    SplitHost("app", "test");
    assert "app" + "." + "test" == "app.test";
    assert want[0] in want && want[1] in want;
    AppIsNormal(u);
    forall l | l in want
      ensures D.Rejoins(l, [DEV])
    {
      RejoinsHost(l);
    }
    D.ItemsFrom(want, [DEV]);
    forall i | i in D.ItemsOf(want, [DEV])
      ensures W.Claimable(t, c, i)
    {
      var l :| l in want && D.From(i, l, [DEV]);
      FromIs(i, l);
    }
    D.SyncTwice(t, c, want, [DEV], wall, later);
  }

  lemma RejoinsHost(l: D.Labeled)
    requires l.hostname == "app.test" && D.Split(l.hostname, [DEV]) == Some(("test", "app"))
    ensures D.Rejoins(l, [DEV])
  {
  }

  lemma FromIs(i: W.Item, l: D.Labeled)
    requires D.From(i, l, [DEV]) && D.Split(l.hostname, [DEV]) == Some(("test", "app"))
    ensures i.zone == "test" && i.name == "app" && i.kind == Platform
  {
    hide D.Split;
  }

  /** A hostname and its zone, when that is the only one. */
  lemma SplitHost(name: string, zone: string)
    requires name != "" && zone != ""
    ensures D.Split(name + "." + zone, [Zone(zone, true, "default")]) == Some((zone, name))
  {
    var host := name + "." + zone;
    assert host == name + ("." + zone) && |host| > |zone|;
    SuffixOfConcat(name, "." + zone);
    var zones := [Zone(zone, true, "default")];
    assert zones[..0] == [] && D.ZoneOf(host, []) == None;
    assert D.Belongs(host, zone) && D.ZoneOf(host, zones) == Some(zone);
  }

  /** A container whose hostname is written "@." before the zone: every pass claims the zone's apex for it and
      releases it again. */
  lemma ApexNeverSettles(u: N.Unicode, c: A.Config, nextId: int, wall: int)
    requires N.Folds(u) && A.Configured(c) && c.unicode == u
    ensures var want, t := [Container("a", "@.test")], Table(map["test" := DEV], map[], nextId);
            W.Passed(t, c, D.OWNER_KIND, D.ItemsOf(want, [DEV]), D.Desired(want), wall) == t.(nextId := nextId + 1)
  {
    hide N.Normal, D.Split, W.Passed;
    var l := Container("a", "@.test");
    SplitHost("@", "test");
    assert "@" + "." + "test" == "@.test";
    assert D.ItemsOf([l], [DEV]) == [D.ItemFor(l, "test", "@")] by {
      assert [l][..0] == [] && [] + [D.ItemFor(l, "test", "@")] == [D.ItemFor(l, "test", "@")];
      assert D.ItemsOf([], [DEV]) == [];
    }
    ApexIsNormal(u);
    W.ClaimedAndReleased(Table(map["test" := DEV], map[], nextId), c, D.OWNER_KIND, D.ItemFor(l, "test", "@"),
                         D.Desired([l]),
                         wall);
  }

  lemma ApexIsNormal(u: N.Unicode)
    requires N.Folds(u)
    ensures N.Normal("@", Platform, u) == N.Ok("@")
  {
  }
}

/** A supervised process: every section that holds its lock, the crash window, and the sticky port. Times are
    nanoseconds. */
module Supervisor {
  import opened Core
  import Ports

  const CRASH_WINDOW := 60_000_000_000
  const CRASH_THRESHOLD := 3
  const PARK_BACKOFF := 30_000_000_000

  // ---- the failure history

  datatype Event = Failure(at: int) | Unparked(at: int)

  /** The times within a minute of `now`. */
  function Recent(times: seq<int>, now: int): seq<int> {
    if times == [] then []
    else Recent(times[..|times| - 1], now)
         + if now - times[|times| - 1] < CRASH_WINDOW then [times[|times| - 1]] else []
  }

  /** The list the process keeps: pruned at each failure, emptied when parking ends. */
  function Failures(log: seq<Event>): seq<int> {
    if log == [] then []
    else match log[|log| - 1]
      case Failure(t) => Recent(Failures(log[..|log| - 1]), t) + [t]
      case Unparked(_) => []
  }

  /** All failures recorded since parking last ended. */
  function Since(log: seq<Event>): seq<int> {
    if log == [] then []
    else match log[|log| - 1]
      case Failure(t) => Since(log[..|log| - 1]) + [t]
      case Unparked(_) => []
  }

  predicate Monotone(log: seq<Event>) {
    forall i, j :: 0 <= i < j < |log| ==> log[i].at <= log[j].at
  }

  lemma {:induction false} RecentSnoc(times: seq<int>, t: int, now: int)
    ensures Recent(times + [t], now) == Recent(times, now) + if now - t < CRASH_WINDOW then [t] else []
  {
    assert (times + [t])[..|times|] == times;
  }

  lemma {:induction false} RecentCons(t: int, times: seq<int>, now: int)
    ensures Recent([t] + times, now) == (if now - t < CRASH_WINDOW then [t] else []) + Recent(times, now)
  {
    if times == [] {
      assert [t] + times == [] + [t];
      RecentSnoc([], t, now);
    } else {
      var front, last := times[..|times| - 1], times[|times| - 1];
      assert [t] + times == ([t] + front) + [last] && times == front + [last];
      RecentCons(t, front, now);
      RecentSnoc([t] + front, last, now);
    }
  }

  /** No later failure was recorded a minute or more after this one. */
  predicate Outlasts(t: int, later: seq<int>) {
    forall j :: 0 <= j < |later| ==> later[j] - t < CRASH_WINDOW
  }

  /** The failures that were younger than a minute whenever a later one was recorded. */
  function Survivors(times: seq<int>): seq<int> {
    if times == [] then [] else (if Outlasts(times[0], times[1..]) then [times[0]] else []) + Survivors(times[1..])
  }

  lemma {:induction false} SurvivorsSnoc(times: seq<int>, t: int)
    ensures Survivors(times + [t]) == Recent(Survivors(times), t) + [t]
  {
    if times == [] {
      assert [] + [t] == [t];
    } else {
      hide Recent, Outlasts;
      var h, rest := times[0], times[1..];
      assert (times + [t])[1..] == rest + [t];
      SurvivorsSnoc(rest, t);
      OutlastsSnoc(h, rest, t);
      var kept := Survivors(rest);
      RecentCons(h, kept, t);
      assert [] + kept == kept && [] + (Recent(kept, t) + [t]) == Recent(kept, t) + [t];
      assert [h] + (Recent(kept, t) + [t]) == ([h] + Recent(kept, t)) + [t] && [] + Recent(kept, t) == Recent(kept, t);
    }
  }

  lemma OutlastsSnoc(h: int, rest: seq<int>, t: int)
    ensures Outlasts(h, rest + [t]) <==> Outlasts(h, rest) && t - h < CRASH_WINDOW
  {
    assert (rest + [t])[|rest|] == t;
    if Outlasts(h, rest + [t]) {
      assert forall j :: 0 <= j < |rest| ==> (rest + [t])[j] == rest[j];
    }
  }

  /** The list against the whole history: pruned step by step, it holds exactly the survivors. */
  lemma {:induction false} ListIsSurvivors(log: seq<Event>)
    ensures Failures(log) == Survivors(Since(log))
  {
    if log != [] {
      ListIsSurvivors(log[..|log| - 1]);
      match log[|log| - 1]
      case Failure(t) => SurvivorsSnoc(Since(log[..|log| - 1]), t);
      case Unparked(_) =>
    }
  }

  /** No failure of the last minute was a minute old when a later one was recorded. */
  predicate Steady(times: seq<int>, now: int) {
    forall i, j :: 0 <= i < j < |times| && now - times[i] < CRASH_WINDOW ==> times[j] - times[i] < CRASH_WINDOW
  }

  lemma SteadyCons(h: int, rest: seq<int>, now: int)
    ensures Steady([h] + rest, now) <==> (now - h < CRASH_WINDOW ==> Outlasts(h, rest)) && Steady(rest, now)
  {
    var all := [h] + rest;
    if Steady(all, now) {
      forall j | 0 <= j < |rest|
        ensures now - h < CRASH_WINDOW ==> rest[j] - h < CRASH_WINDOW
      {
        assert all[0] == h && all[j + 1] == rest[j];
      }
      forall i, j | 0 <= i < j < |rest| && now - rest[i] < CRASH_WINDOW
        ensures rest[j] - rest[i] < CRASH_WINDOW
      {
        assert all[i + 1] == rest[i] && all[j + 1] == rest[j];
      }
    }
  }

  /** The survivors are among the failures of the last minute, and are all of them exactly on a steady history. */
  lemma {:induction false} SurvivorsIff(times: seq<int>, now: int)
    requires times != [] && times[|times| - 1] == now
    ensures |Survivors(times)| <= |Recent(times, now)|
    ensures Survivors(times) == Recent(times, now) <==> Steady(times, now)
  {
    hide Steady, Recent, Outlasts;
    var h, rest := times[0], times[1..];
    assert times == [h] + rest;
    RecentCons(h, rest, now);
    SteadyCons(h, rest, now);
    if rest == [] {
      LastSurvives(now);
    } else {
      SurvivorsIff(rest, now);
      OutlastsLast(h, rest, now);
      var kept, recent := Survivors(rest), Recent(rest, now);
      assert ([h] + kept)[1..] == kept && ([h] + recent)[1..] == recent && [] + kept == kept && [] + recent == recent;
    }
  }

  lemma LastSurvives(now: int)
    ensures Recent([], now) == [] && Outlasts(now, []) && Steady([], now)
  {
  }

  lemma OutlastsLast(h: int, rest: seq<int>, now: int)
    requires rest != [] && rest[|rest| - 1] == now
    ensures Outlasts(h, rest) ==> now - h < CRASH_WINDOW
  {
  }

  /** On a clock that never steps back the history is steady. */
  lemma {:induction false} MonotoneSince(log: seq<Event>)
    requires Monotone(log)
    ensures forall i, j :: 0 <= i < j < |Since(log)| ==> Since(log)[i] <= Since(log)[j]
    ensures forall i :: 0 <= i < |Since(log)| ==> Since(log)[i] <= log[|log| - 1].at
  {
    if log != [] {
      var front := log[..|log| - 1];
      MonotoneSince(front);
      if front != [] {
        assert log[|log| - 2].at <= log[|log| - 1].at;
      }
    }
  }

  /** What the list says at a failure: never more than the failures of the last minute since parking last ended, and
      exactly those if and only if none of them was a minute old when a later failure was recorded. So it is on a clock
      that never steps back. */
  lemma CrashWindow(log: seq<Event>, now: int)
    requires log != [] && log[|log| - 1] == Failure(now)
    ensures |Failures(log)| <= |Recent(Since(log), now)|
    ensures Failures(log) == Recent(Since(log), now) <==> Steady(Since(log), now)
    ensures Monotone(log) ==> Steady(Since(log), now)
  {
    hide Recent, Survivors;
    ListIsSurvivors(log);
    SurvivorsIff(Since(log), now);
    if Monotone(log) {
      MonotoneSince(log);
    }
  }

  lemma Forgive(log: seq<Event>, now: int)
    ensures Failures(log + [Unparked(now)]) == []
  {
  }

  // ---- boots and exits

  datatype State = Stopped | Starting | Running | Parked

  /** A process over its boots: its state, when it was parked, its failures, the latest boot, and the boots that were
      ended, by an exit, a stop, a missed deadline or a failed start, before another could begin. */
  datatype Life = Life(state: State, parkedAt: int, log: seq<Event>, boot: nat, ended: set<nat>)

  const UNBORN := Life(Stopped, 0, [], 0, {0})

  /** A section that holds the lock: a request, the exit of a boot's command, a passed and a missed health check, a stop
      that was asked for or fell due, a start that failed. */
  datatype Section =
    | Request(now: int)
    | Exit(boot: nat, now: int)
    | Passed
    | Missed(now: int)
    | Halt
    | Aborted(now: int)

  predicate Alive(s: State) {
    s == Starting || s == Running
  }

  function Lived(s: Life, e: Section): Life {
    match e
    case Request(now) =>
      if s.state == Stopped then s.(state := Starting, boot := s.boot + 1)
      else if s.state == Parked && now - s.parkedAt >= PARK_BACKOFF then
        s.(state := Starting, boot := s.boot + 1, log := s.log + [Unparked(now)])
      else s
    case Exit(_, now) =>
      if !Alive(s.state) then s.(state := Stopped)
      else
        var log := s.log + [Failure(now)];
        if |Failures(log)| >= CRASH_THRESHOLD
        then Life(Parked, now, log, s.boot, s.ended + {s.boot})
        else Life(Stopped, s.parkedAt, log, s.boot, s.ended + {s.boot})
    case Passed => if s.state == Starting then s.(state := Running) else s
    case Missed(now) => s.(state := Stopped, log := s.log + [Failure(now)], ended := s.ended + {s.boot})
    case Halt => s.(state := Stopped, ended := s.ended + {s.boot})
    case Aborted(now) => s.(state := Stopped, log := s.log + [Failure(now)], ended := s.ended + {s.boot})
  }

  function LivedAll(s: Life, h: seq<Section>): Life {
    if h == [] then s else Lived(LivedAll(s, h[..|h| - 1]), h[|h| - 1])
  }

  lemma LivedSnoc(s: Life, h: seq<Section>, e: Section)
    ensures LivedAll(s, h + [e]) == Lived(LivedAll(s, h), e)
  {
    assert (h + [e])[..|h|] == h;
  }

  /** Four more sections of a run. */
  lemma LivedFour(s: Life, h: seq<Section>, a: Section, b: Section, c: Section, d: Section)
    ensures LivedAll(s, h + [a, b, c, d]) == Lived(Lived(Lived(Lived(LivedAll(s, h), a), b), c), d)
  {
    hide Lived, LivedAll;
    LivedSnoc(s, h, a);
    LivedSnoc(s, h + [a], b);
    LivedSnoc(s, h + [a] + [b], c);
    LivedSnoc(s, h + [a] + [b] + [c], d);
    assert h + [a, b, c, d] == h + [a] + [b] + [c] + [d];
  }

  /** At most the latest boot has not been ended, and then the process is starting or running. */
  ghost predicate Sane(s: Life) {
    && (Alive(s.state) <==> s.boot !in s.ended)
    && (forall b: nat :: b < s.boot ==> b in s.ended) && (forall b :: b in s.ended ==> b <= s.boot)
  }

  lemma {:induction false} LivesSane(h: seq<Section>)
    ensures Sane(LivedAll(UNBORN, h))
  {
    if h != [] {
      LivesSane(h[..|h| - 1]);
    }
  }

  predicate Counts(s: Life, e: Section) {
    Lived(s, e).log != s.log
  }

  /** In every run of sections: an exit is recorded as a failure if and only if its boot had not been ended, or a later
      one has begun and has not. So the exit of a stopped boot is recorded exactly when a request has booted again. */
  lemma ExitCounts(h: seq<Section>, b: nat, now: int)
    requires 0 < b <= LivedAll(UNBORN, h).boot
    ensures var s := LivedAll(UNBORN, h);
            && (Counts(s, Exit(b, now)) <==> b !in s.ended || (b < s.boot && s.boot !in s.ended))
            && (b !in s.ended ==> b == s.boot)
            && Lived(s, Exit(b, now)).log == if Counts(s, Exit(b, now)) then s.log + [Failure(now)] else s.log
  {
    LivesSane(h);
  }

  /** In every run of sections: an exit parks if and only if it is recorded and leaves at least three survivors,
      which are all the failures of the last minute since parking last ended if and only if the history is steady. */
  lemma ExitParks(h: seq<Section>, b: nat, now: int)
    requires 0 < b <= LivedAll(UNBORN, h).boot
    ensures var s, t := LivedAll(UNBORN, h), Lived(LivedAll(UNBORN, h), Exit(b, now));
            && (t.state == Parked <==> Counts(s, Exit(b, now)) && |Survivors(Since(t.log))| >= CRASH_THRESHOLD)
            && (Counts(s, Exit(b, now)) ==>
                  && |Survivors(Since(t.log))| <= |Recent(Since(t.log), now)|
                  && (Survivors(Since(t.log)) == Recent(Since(t.log), now) <==> Steady(Since(t.log), now))
                  && (Monotone(t.log) ==> Steady(Since(t.log), now)))
  {
    hide Failures, Survivors, Recent, Steady, Since;
    LivesSane(h);
    var s := LivedAll(UNBORN, h);
    if Counts(s, Exit(b, now)) {
      ListIsSurvivors(s.log + [Failure(now)]);
      CrashWindow(s.log + [Failure(now)], now);
    }
  }

  // ---- ports of boots under way

  /** A process's port, its owner's grant, the boots under way with the port they chose once they have, and whether the
      grant was never released. A port of 0 is unset. */
  datatype Boots = Boots(port: int, grant: Option<int>, under: map<nat, Option<int>>, kept: bool)

  /** What can happen, one lock or database section at a time: a boot reads the port, its claim is answered, its command
      runs, it gives up; somebody else claims for the owner; the grant is released. */
  datatype Move =
    | Read(boot: nat)
    | Answered(boot: nat, value: int)
    | Launch(boot: nat)
    | GiveUp(boot: nat)
    | Elsewhere(value: int)
    | Released

  function Moved(s: Boots, e: Move): Boots {
    match e
    case Read(b) => if b in s.under then s else s.(under := s.under[b := if s.port != 0 then Some(s.port) else None])
    case Answered(b, v) =>
      if b !in s.under || s.under[b].Some? then s
      else
        var value := if s.grant.Some? then s.grant.value else v;
        s.(grant := Some(value), under := s.under[b := Some(value)])
    case Launch(b) =>
      if b !in s.under || s.under[b] == None then s else s.(port := s.under[b].value, under := s.under - {b})
    case GiveUp(b) => s.(under := s.under - {b})
    case Elsewhere(v) => if s.grant == None then s.(grant := Some(v)) else s
    case Released => s.(grant := None, kept := false)
  }

  function MovedAll(s: Boots, h: seq<Move>): Boots {
    if h == [] then s else Moved(MovedAll(s, h[..|h| - 1]), h[|h| - 1])
  }

  /** While the grant is kept, every port that is set or chosen is the grant. */
  ghost predicate Settled(s: Boots) {
    s.kept ==>
      && (s.port != 0 ==> s.grant == Some(s.port))
      && forall b <- s.under :: s.under[b].Some? ==> s.grant == s.under[b]
  }

  lemma {:induction false} MovesSettle(s: Boots, h: seq<Move>)
    requires Settled(s)
    ensures Settled(MovedAll(s, h))
  {
    if h != [] {
      MovesSettle(s, h[..|h| - 1]);
    }
  }

  lemma {:induction false} KeptThroughout(s: Boots, h: seq<Move>, n: nat)
    requires n <= |h| && MovedAll(s, h).kept
    ensures MovedAll(s, h[..n]).kept
            && (MovedAll(s, h[..n]).grant.Some? ==> MovedAll(s, h).grant == MovedAll(s, h[..n]).grant)
  {
    if n == |h| {
      assert h[..n] == h;
    } else {
      assert h[..|h| - 1][..n] == h[..n];
      KeptThroughout(s, h[..|h| - 1], n);
    }
  }

  lemma {:induction false} StaysSet(s: Boots, h: seq<Move>, n: nat)
    requires n <= |h| && Settled(s) && MovedAll(s, h).kept && MovedAll(s, h[..n]).port != 0
    ensures MovedAll(s, h).port == MovedAll(s, h[..n]).port
  {
    if n == |h| {
      assert h[..n] == h;
    } else {
      var front := h[..|h| - 1];
      assert front[..n] == h[..n];
      KeptThroughout(s, h, |h| - 1);
      StaysSet(s, front, n);
      MovesSettle(s, front);
      MovesSettle(s, h);
    }
  }

  /** However many boots are under way, and whoever else claims for the owner: once set, the port never changes
      while the grant is kept. */
  lemma PortNeverChanges(grant: Option<int>, h: seq<Move>, n: nat)
    requires n <= |h| && MovedAll(Boots(0, grant, map[], true), h).kept
    ensures var was, now := MovedAll(Boots(0, grant, map[], true), h[..n]), MovedAll(Boots(0, grant, map[], true), h);
            was.port != 0 ==> now.port == was.port && now.grant == Some(was.port)
  {
    var start := Boots(0, grant, map[], true);
    if MovedAll(start, h[..n]).port != 0 {
      StaysSet(start, h, n);
      MovesSettle(start, h);
    }
  }

  // ---- the process

  /** What a caller is told at the door: an address, a refusal, to wait for the boot under way, or to boot. */
  datatype Door = Serve(port: int) | Refuse | Wait | Boot

  class Process {
    const tables: Ports.Tables
    const pool: string
    const owner: string
    var state: State
    var port: int
    var lastReq: int
    var failures: seq<int>
    var parkedAt: int
    ghost var log: seq<Event>
    ghost var boot: nat
    ghost var ended: set<nat>
    ghost var under: map<nat, Option<int>>
    ghost var released: bool

    constructor (tables: Ports.Tables, pool: string, fqdn: string)
      requires tables.Valid()
      ensures Valid() && Lives() == UNBORN && fresh(this)
      ensures View() == Boots(0, View().grant, map[], true)
      ensures this.tables == tables && this.pool == (if pool == "" then "dev" else pool)
              && this.owner == "supervised:" + fqdn
    {
      this.tables := tables;
      this.pool := if pool == "" then "dev" else pool;
      this.owner := "supervised:" + fqdn;
      state, port, lastReq, failures, parkedAt, log := Stopped, 0, 0, [], 0, [];
      boot, ended, under, released := 0, {0}, map[], false;
    }

    /** The list is the history's, the boots are accounted for, and the ports are settled. */
    ghost predicate Valid()
      reads this, tables
    {
      tables.Valid() && failures == Failures(log) && Sane(Lives()) && Settled(View())
    }

    /** The process over its boots. */
    ghost function Lives(): Life
      reads this
    {
      Life(state, parkedAt, log, boot, ended)
    }

    /** The process's ports as the moves see them. */
    ghost function View(): Boots
      reads this, tables
    {
      var slot := Ports.Slot(pool, owner);
      Boots(port, if slot in tables.grants then Some(tables.grants[slot].value) else None, under, !released)
    }

    /** Failures of the last minute since parking last ended. */
    ghost function Crashes(now: int): seq<int>
      reads this
    {
      Recent(Since(log), now)
    }

    /** Prunes in place, then appends. */
    method RecordFailure(now: int)
      requires failures == Failures(log)
      modifies this`failures, this`log
      ensures log == old(log) + [Failure(now)] && failures == Failures(log) == Survivors(Since(log))
      ensures |failures| <= |Crashes(now)| && (failures == Crashes(now) <==> Steady(Since(log), now))
    {
      ghost var before := log;
      var all, keep: seq<int> := failures, [];
      for i := 0 to |all|
        invariant keep == Recent(all[..i], now)
      {
        assert all[..i + 1] == all[..i] + [all[i]];
        RecentSnoc(all[..i], all[i], now);
        if now - all[i] < CRASH_WINDOW {
          keep := keep + [all[i]];
        }
      }
      assert all[..|all|] == all;
      failures := keep + [now];
      log := before + [Failure(now)];
      assert log[..|log| - 1] == before;
      ListIsSurvivors(log);
      CrashWindow(log, now);
    }

    /** A request's first section: a parked process refuses for the backoff, then its failures are forgiven. */
    method Ensure(now: int) returns (door: Door)
      requires Valid()
      modifies this`state, this`lastReq, this`failures, this`log, this`boot
      ensures Valid() && lastReq == now && Lives() == Lived(old(Lives()), Request(now))
      ensures door == match old(state)
                      case Running => Serve(port)
                      case Starting => Wait
                      case Stopped => Boot
                      case Parked => if now - parkedAt < PARK_BACKOFF then Refuse else Boot
      ensures boot == if door == Boot then old(boot) + 1 else old(boot)
      ensures state == (if door == Boot then Starting else old(state))
              && failures == if old(state) == Parked && door == Boot then [] else old(failures)
    {
      hide Failures, Recent, Since, Ports.P.Grantable;
      lastReq := now;
      if state == Running {
        return Serve(port);
      }
      if state == Starting {
        return Wait;
      }
      if state == Parked {
        if now - parkedAt < PARK_BACKOFF {
          return Refuse;
        }
        Forgive(log, now);
        failures, log := [], log + [Unparked(now)];
      }
      state, boot := Starting, boot + 1;
      return Boot;
    }

    /** A boot reads the port, without the lock. */
    method ReadPort(ghost b: nat) returns (p: int)
      requires Valid() && b !in under
      modifies this`under
      ensures Valid() && View() == Moved(old(View()), Read(b)) && p == port
      ensures under == old(under)[b := if port != 0 then Some(port) else None]
    {
      p := port;
      under := under[b := if port != 0 then Some(port) else None];
    }

    /** A boot that read no port claims the owner's, while others insert rows. */
    method ClaimPort(project: string, bind: int -> bool, script: seq<Ports.Turn>, ghost b: nat)
      returns (r: Option<int>)
      requires Valid() && b in under && under[b] == None && Ports.Calm(script)
      requires pool in tables.pools ==> Ports.ScriptOk(tables.pools[pool], script)
      modifies this`under, tables`grants
      ensures Valid()
      ensures r.Some? ==> View() == Moved(old(View()), Answered(b, r.value)) && under[b] == r
      ensures r == None ==> View() == old(View()) || exists v :: View() == Moved(old(View()), Elsewhere(v))
    {
      hide Failures, Ports.Stands, Ports.P.Safe, Ports.P.Grantable, Ports.InPool, Ports.Used, Ports.P.Outcome,
        Ports.Calm,
        Ports.ScriptOk;
      if pool in tables.pools {
        tables.IdleSafe(pool);
      }
      var answer, h := tables.Claim(pool, project, owner, bind, false, script, Ports.Idle(tables.grants, pool), 0);
      if !answer.Granted? {
        if View().grant.Some? {
          assert View() == Moved(old(View()), Elsewhere(View().grant.value));
        }
        return None;
      }
      under := under[b := Some(answer.value)];
      return Some(answer.value);
    }

    /** The command runs, on the port its boot chose. */
    method Launched(chosen: int, ghost b: nat)
      requires Valid() && b in under && under[b] == Some(chosen)
      modifies this`port, this`under
      ensures Valid() && View() == Moved(old(View()), Launch(b)) && port == chosen
      ensures old(port) != 0 && !released ==> port == old(port)
    {
      port, under := chosen, under - {b};
    }

    /** The boot failed before the command ran. Such a failure is recorded but never parks. */
    method StartFailed(now: int, ghost b: nat)
      requires Valid()
      modifies this`state, this`failures, this`log, this`ended, this`under
      ensures Valid() && Lives() == Lived(old(Lives()), Aborted(now)) && View() == Moved(old(View()), GiveUp(b))
      ensures state == Stopped && log == old(log) + [Failure(now)] && under == old(under) - {b}
    {
      hide Failures, Ports.P.Grantable;
      under, ended := under - {b}, ended + {boot};
      state := Stopped;
      RecordFailure(now);
    }

    /** The command of some boot exited. The handler looks at the process only: it records a failure exactly when the
        process is starting or running, and then parks it if that leaves three survivors. */
    method Exited(now: int, ghost b: nat)
      requires Valid() && 0 < b <= boot
      modifies this`state, this`failures, this`log, this`ended, this`parkedAt
      ensures Valid() && Lives() == Lived(old(Lives()), Exit(b, now))
      ensures var counts := b !in old(ended) || (b < boot && boot !in old(ended));
              && log == (if counts then old(log) + [Failure(now)] else old(log))
              && (state == Parked <==> counts && |Survivors(Since(log))| >= CRASH_THRESHOLD)
              && (state != Parked ==> state == Stopped && parkedAt == old(parkedAt))
                 && (state == Parked ==> parkedAt == now)
              && (counts ==> |failures| <= |Crashes(now)| && (failures == Crashes(now) <==> Steady(Since(log), now)))
    {
      hide Failures, Recent, Survivors, Since, Steady, Ports.P.Grantable;
      var crashed := state == Running || state == Starting;
      state := Stopped;
      if crashed {
        ended := ended + {boot};
        RecordFailure(now);
        if |failures| >= CRASH_THRESHOLD {
          state, parkedAt := Parked, now;
        }
      }
    }

    method Healthy()
      requires Valid()
      modifies this`state
      ensures Valid() && Lives() == Lived(old(Lives()), Passed)
      ensures state == if old(state) == Starting then Running else old(state)
    {
      hide Failures, Ports.P.Grantable;
      if state == Starting {
        state := Running;
      }
    }

    /** The health check's deadline passed. It stops the process whatever its state was, parked included, and
        records a failure. */
    method TimedOut(now: int)
      requires Valid()
      modifies this`state, this`failures, this`log, this`ended
      ensures Valid() && Lives() == Lived(old(Lives()), Missed(now))
      ensures state == Stopped && log == old(log) + [Failure(now)]
    {
      hide Failures, Ports.P.Grantable;
      state, ended := Stopped, ended + {boot};
      RecordFailure(now);
    }

    /** A stop that was asked for. The exit that follows is no failure unless a request boots again before it. */
    method Stop()
      requires Valid()
      modifies this`state, this`ended
      ensures Valid() && Lives() == Lived(old(Lives()), Halt)
      ensures state == Stopped && boot in ended
    {
      hide Failures, Ports.P.Grantable;
      state, ended := Stopped, ended + {boot};
    }

    method Sweep(now: int, idle: int)
      requires Valid()
      modifies this`state, this`ended
      ensures Valid()
      ensures Lives() == if old(state) == Running && now - lastReq > idle then Lived(old(Lives()), Halt)
              else old(Lives())
    {
      if state == Running && now - lastReq > idle {
        Stop();
      }
    }

    /** Somebody releases the grant; from then on the ports may differ. */
    method ReleaseGrant()
      requires Valid()
      modifies tables`grants, this`released
      ensures Valid() && View() == Moved(old(View()), Move.Released)
    {
      tables.ReleasePort(pool, owner);
      released := true;
    }
  }
}

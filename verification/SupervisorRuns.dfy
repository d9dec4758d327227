/** The restart policy over whole runs: any interleaving of spawns, exits and questions. */
module SupervisorRuns {
  import opened Wrappers
  import opened Supervisor

  datatype Op = Spawn | Exit(reason: RestartReason) | Ask

  datatype Event = Event(op: Op, now: nat)

  function Step(p: Policy, e: Event): Policy {
    match e.op
    case Spawn => Spawned(p, e.now)
    case Exit(reason) => Exited(p, reason, e.now)
    case Ask => Asked(p, e.now).0
  }

  /** From the pristine policy, on a clock that never goes back. */
  ghost predicate Run(ps: seq<Policy>, evs: seq<Event>) {
    && |ps| == |evs| + 1 && ps[0] == PRISTINE
    && (forall i :: 0 <= i < |evs| ==> ps[i + 1] == Step(ps[i], evs[i]))
    && (forall i, j :: 0 <= i <= j < |evs| ==> evs[i].now <= evs[j].now)
  }

  function ExitTimes(evs: seq<Event>): seq<nat> {
    if evs == [] then []
    else
      var last := evs[|evs| - 1];
      ExitTimes(evs[..|evs| - 1]) + if last.op.Exit? then [last.now] else []
  }

  function Clock(evs: seq<Event>): nat {
    if evs == [] then 0 else evs[|evs| - 1].now
  }

  ghost predicate Ascending(times: seq<nat>) {
    forall i, j :: 0 <= i <= j < |times| ==> times[i] <= times[j]
  }

  ghost predicate UpTo(times: seq<nat>, now: nat) {
    forall i :: 0 <= i < |times| ==> times[i] <= now
  }

  // ---- the pruned history ---------------------------------------------------------------

  ghost predicate Remembers(p: Policy, exits: seq<nat>, clock: nat) {
    && SameWindow(p.history, exits, clock)
    && Ascending(p.history) && UpTo(p.history, clock) && Ascending(exits) && UpTo(exits, clock)
    && p.totalRestarts == |exits|
    && (p.state.Failed? ==> |p.history| >= MAX_RESTARTS_IN_WINDOW)
    && (p.state.Backoff? ==> p.stateEntered.Some? && p.stateEntered.value <= clock && p.state.duration == p.backoff)
  }

  lemma {:induction false} WindowAscending(times: seq<nat>, now: nat, bound: nat)
    requires Ascending(times) && UpTo(times, bound)
    ensures Ascending(Window(times, now)) && UpTo(Window(times, now), bound)
    ensures forall i :: 0 <= i < |Window(times, now)| ==> Window(times, now)[i] in times
  {
    if times != [] {
      hide Window;
      WindowHead(times, now);
      WindowAscending(times[1..], now, bound);
      var rest := Window(times[1..], now);
      forall i | 0 <= i < |rest| ensures times[0] <= rest[i] && rest[i] in times {
        assert rest[i] in times[1..];
      }
      assert Window(times, now) == rest || Window(times, now) == [times[0]] + rest;
    }
  }

  lemma StepRemembers(p: Policy, exits: seq<nat>, clock: nat, e: Event)
    requires Remembers(p, exits, clock) && clock <= e.now
    ensures Remembers(Step(p, e), exits + if e.op.Exit? then [e.now] else [], e.now)
  {
    hide Window, NextBackoff;
    match e.op
    case Spawn => assert exits + [] == exits;
    case Exit(_) =>
      RecordKeepsWindow(p.history, exits, clock, e.now);
      WindowAscending(p.history + [e.now], e.now, e.now);
    case Ask =>
      assert exits + [] == exits;
      PruneKeepsWindow(p.history, exits, clock, e.now);
      WindowAscending(p.history, e.now, e.now);
  }

  lemma {:induction false} RunRemembers(ps: seq<Policy>, evs: seq<Event>, n: nat)
    requires Run(ps, evs) && n < |ps|
    ensures Remembers(ps[n], ExitTimes(evs[..n]), Clock(evs[..n]))
  {
    hide Step, Remembers;
    if n == 0 {
      PristineRemembers();
    } else {
      RunRemembers(ps, evs, n - 1);
      assert evs[..n][..n - 1] == evs[..n - 1];
      StepRemembers(ps[n - 1], ExitTimes(evs[..n - 1]), Clock(evs[..n - 1]), evs[n - 1]);
    }
  }

  lemma PristineRemembers()
    ensures Remembers(PRISTINE, [], 0)
  {
  }

  /** Right after an exit the history is the exits of the whole run aged at most 300 s. */
  lemma HistoryIsRecentExits(ps: seq<Policy>, evs: seq<Event>, n: nat)
    requires Run(ps, evs) && n < |evs| && evs[n].op.Exit?
    ensures ps[n + 1].history == Window(ExitTimes(evs[..n + 1]), evs[n].now)
    ensures ps[n + 1].totalRestarts == |ExitTimes(evs[..n + 1])|
  {
    RunRemembers(ps, evs, n);
    RunRemembers(ps, evs, n + 1);
    assert evs[..n + 1][..n] == evs[..n];
    RecordKeepsWindow(ps[n].history, ExitTimes(evs[..n]), Clock(evs[..n]), evs[n].now);
  }

  // ---- the restart cap ------------------------------------------------------------------

  function CountBetween(times: seq<nat>, from: nat, to: nat): nat {
    if times == [] then 0
    else CountBetween(times[..|times| - 1], from, to) + if from <= times[|times| - 1] <= to then 1 else 0
  }

  lemma {:induction false} CountFitsWindow(times: seq<nat>, from: nat, now: nat)
    requires from <= now <= from + RESTART_WINDOW && UpTo(times, now)
    ensures CountBetween(times, from, from + RESTART_WINDOW) <= |Window(times, now)|
  {
    if times != [] {
      var n := |times| - 1;
      CountFitsWindow(times[..n], from, now);
      WindowAppend(times[..n], [times[n]], now);
      assert times == times[..n] + [times[n]];
    }
  }

  /** Nobody spawns or reports an exit while the policy says Failed. */
  ghost predicate RespectsFailed(ps: seq<Policy>, evs: seq<Event>)
    requires |ps| == |evs| + 1
  {
    forall i :: 0 <= i < |evs| && !evs[i].op.Ask? ==> !ps[i].state.Failed?
  }

  lemma {:induction false} WindowOnlyShrinks(times: seq<nat>, now: nat, later: nat)
    requires now <= later
    ensures |Window(times, later)| <= |Window(times, now)|
  {
    if times != [] {
      WindowOnlyShrinks(times[1..], now, later);
    }
  }

  /** Outside Failed, at most four exits are recent. */
  ghost predicate Calm(p: Policy, exits: seq<nat>, clock: nat) {
    p.state.Failed? || |Window(exits, clock)| < MAX_RESTARTS_IN_WINDOW
  }

  lemma StepStaysCalm(p: Policy, exits: seq<nat>, clock: nat, e: Event)
    requires Remembers(p, exits, clock) && clock <= e.now && Calm(p, exits, clock)
    requires !e.op.Ask? ==> !p.state.Failed?
    ensures Calm(Step(p, e), exits + if e.op.Exit? then [e.now] else [], e.now)
  {
    hide Window, NextBackoff;
    WindowOnlyShrinks(exits, clock, e.now);
    if e.op.Exit? {
      RecordKeepsWindow(p.history, exits, clock, e.now);
    } else {
      assert exits + [] == exits;
    }
  }

  /** How many fall into the closed window that begins at `from`. */
  function CountFrom(times: seq<nat>, from: nat): nat {
    CountBetween(times, from, from + RESTART_WINDOW)
  }

  /** In every closed 300 s interval at most five. */
  ghost predicate WithinCap(times: seq<nat>) {
    forall from: nat :: CountFrom(times, from) <= MAX_RESTARTS_IN_WINDOW
  }

  /** An exit, if it is one, comes while at most four earlier ones are recent. */
  predicate LeavesRoom(p: Policy, e: Event) {
    e.op.Exit? ==> |Window(p.history, e.now)| < MAX_RESTARTS_IN_WINDOW
  }

  /** The interval that ends at `now` holds every recent time. */
  lemma {:induction false} WindowFitsCount(times: seq<nat>, now: nat)
    requires UpTo(times, now)
    ensures var from := SaturatingSub(now, RESTART_WINDOW);
            |Window(times, now)| <= CountBetween(times, from, from + RESTART_WINDOW)
  {
    if times != [] {
      var n := |times| - 1;
      WindowFitsCount(times[..n], now);
      WindowAppend(times[..n], [times[n]], now);
      assert times == times[..n] + [times[n]];
    }
  }

  /** One more exit breaks the cap exactly when five recent ones were there. */
  lemma ExitKeepsCapExactly(exits: seq<nat>, now: nat)
    requires UpTo(exits, now) && WithinCap(exits)
    ensures WithinCap(exits + [now]) <==> |Window(exits, now)| < MAX_RESTARTS_IN_WINDOW
  {
    hide Window;
    assert (exits + [now])[..|exits|] == exits;
    if |Window(exits, now)| < MAX_RESTARTS_IN_WINDOW {
      forall from: nat
        ensures CountFrom(exits + [now], from) <= MAX_RESTARTS_IN_WINDOW
      {
        assert CountFrom(exits, from) <= MAX_RESTARTS_IN_WINDOW;
        if from <= now <= from + RESTART_WINDOW {
          CountFitsWindow(exits, from, now);
        }
      }
    } else {
      WindowFitsCount(exits, now);
      var from := SaturatingSub(now, RESTART_WINDOW);
      assert CountFrom(exits + [now], from) > MAX_RESTARTS_IN_WINDOW;
    }
  }

  lemma FewerStayWithinCap(exits: seq<nat>, now: nat)
    requires WithinCap(exits + [now])
    ensures WithinCap(exits)
  {
    assert (exits + [now])[..|exits|] == exits;
    forall from: nat
      ensures CountFrom(exits, from) <= MAX_RESTARTS_IN_WINDOW
    {
      assert CountFrom(exits + [now], from) <= MAX_RESTARTS_IN_WINDOW;
    }
  }

  /**
   * The restart cap, exactly: every closed 300 s interval of a run holds at most five exits if and only if no exit is
   * recorded while the history, pruned to that moment, already holds five.
   */
  lemma {:induction false} RestartCapExactly(ps: seq<Policy>, evs: seq<Event>, n: nat)
    requires Run(ps, evs) && n < |ps|
    ensures WithinCap(ExitTimes(evs[..n])) <==> (forall i :: 0 <= i < n ==> LeavesRoom(ps[i], evs[i]))
  {
    hide Step, Window, Remembers, WithinCap, LeavesRoom;
    if n == 0 {
      assert WithinCap([]) by { NothingExceedsCap(); }
    } else {
      RestartCapExactly(ps, evs, n - 1);
      RunRemembers(ps, evs, n - 1);
      assert evs[..n][..n - 1] == evs[..n - 1];
      var exits, e := ExitTimes(evs[..n - 1]), evs[n - 1];
      RoomInHistory(ps[n - 1], exits, Clock(evs[..n - 1]), e);
      if e.op.Exit? {
        if WithinCap(exits) {
          ExitKeepsCapExactly(exits, e.now);
        } else if WithinCap(exits + [e.now]) {
          FewerStayWithinCap(exits, e.now);
        }
      } else {
        assert exits + [] == exits;
      }
    }
  }

  lemma RoomInHistory(p: Policy, exits: seq<nat>, clock: nat, e: Event)
    requires Remembers(p, exits, clock) && clock <= e.now
    ensures UpTo(exits, e.now)
    ensures LeavesRoom(p, e) <==> (e.op.Exit? ==> |Window(exits, e.now)| < MAX_RESTARTS_IN_WINDOW)
  {
    hide Window;
  }

  lemma NothingExceedsCap()
    ensures WithinCap([])
  {
  }

  /** Outside Failed there is room for one more. */
  lemma {:induction false} RespectfulRunStaysCalm(ps: seq<Policy>, evs: seq<Event>, n: nat)
    requires Run(ps, evs) && RespectsFailed(ps, evs) && n < |ps|
    ensures Calm(ps[n], ExitTimes(evs[..n]), Clock(evs[..n]))
    ensures forall i :: 0 <= i < n ==> LeavesRoom(ps[i], evs[i])
  {
    hide Step, Window, Remembers, LeavesRoom;
    if n == 0 {
      NothingRecent();
    } else {
      RespectfulRunStaysCalm(ps, evs, n - 1);
      RunRemembers(ps, evs, n - 1);
      assert evs[..n][..n - 1] == evs[..n - 1];
      var exits, clock, e := ExitTimes(evs[..n - 1]), Clock(evs[..n - 1]), evs[n - 1];
      StepStaysCalm(ps[n - 1], exits, clock, e);
      WindowOnlyShrinks(exits, clock, e.now);
      RoomInHistory(ps[n - 1], exits, clock, e);
    }
  }

  /** If nothing is recorded while Failed, no closed 300 s interval ever holds more than five exits. */
  lemma RestartCap(ps: seq<Policy>, evs: seq<Event>, n: nat, from: nat)
    requires Run(ps, evs) && RespectsFailed(ps, evs) && n < |ps|
    ensures CountFrom(ExitTimes(evs[..n]), from) <= MAX_RESTARTS_IN_WINDOW
  {
    RespectfulRunStaysCalm(ps, evs, n);
    RestartCapExactly(ps, evs, n);
  }

  lemma NothingRecent()
    ensures Calm(PRISTINE, [], 0)
  {
  }

  // ---- the backoff curve ----------------------------------------------------------------

  function Pow2(k: nat): nat {
    if k == 0 then 1 else 2 * Pow2(k - 1)
  }

  /** Seconds of backoff after `k` exits in a row: 1, 2, 4, 8, 16, 16, ... */
  function Curve(k: nat): nat {
    if k == 0 then 0 else if Pow2(k - 1) <= 16 then Pow2(k - 1) * SECOND else 16 * SECOND
  }

  function ExitCount(evs: seq<Event>): nat {
    if evs == [] then 0
    else ExitCount(evs[..|evs| - 1]) + if evs[|evs| - 1].op.Exit? then 1 else 0
  }

  predicate HealthyExit(p: Policy, e: Event) {
    e.op.Exit? && p.lastSpawn.Some? && e.now >= p.lastSpawn.value + 60 * SECOND
  }

  predicate Expiry(p: Policy, e: Event) {
    e.op.Ask? && p.state.Failed? && !Step(p, e).state.Failed?
  }

  /** The streak begins at event `j`: at the start, after a Failed expiry, or with a healthy exit. */
  ghost predicate StreakStarts(ps: seq<Policy>, evs: seq<Event>, j: nat)
    requires |ps| == |evs| + 1 && j < |evs|
  {
    j == 0 || Expiry(ps[j - 1], evs[j - 1]) || HealthyExit(ps[j], evs[j])
  }

  lemma CurveStep(k: nat)
    ensures Curve(0) == 0 && Curve(1) == INITIAL_BACKOFF
    ensures k >= 1 ==> Curve(k) >= INITIAL_BACKOFF
    ensures k >= 1 ==> Curve(k + 1) == if Curve(k) * 2 > MAX_BACKOFF then MAX_BACKOFF else Curve(k) * 2
  {
    if k >= 1 {
      PowPositive(k - 1);
      assert Pow2(k) == 2 * Pow2(k - 1);
      if Pow2(k - 1) > 8 {
        PowAboveEight(k - 1);
      }
    }
  }

  lemma {:induction false} PowPositive(k: nat)
    ensures Pow2(k) >= 1
  {
    if k > 0 {
      PowPositive(k - 1);
    }
  }

  lemma PowAboveEight(k: nat)
    requires Pow2(k) > 8
    ensures Pow2(k) >= 16
  {
    assert Pow2(0) == 1 && Pow2(1) == 2 && Pow2(2) == 4 && Pow2(3) == 8;
    if k >= 4 {
      PowPositive(k - 4);
      assert Pow2(k) == 2 * Pow2(k - 1) == 4 * Pow2(k - 2) == 8 * Pow2(k - 3) == 16 * Pow2(k - 4);
    }
  }

  lemma StepBackoff(p: Policy, e: Event)
    ensures Step(p, e).backoff == if e.op.Exit? then NextBackoff(p, e.now) else if Expiry(p, e) then 0 else p.backoff
  {
    hide NextBackoff, Window;
  }

  /** Backoff is min(16, 2^(k-1)) seconds, k counting the exits since the streak began. */
  lemma {:induction false} BackoffCurve(ps: seq<Policy>, evs: seq<Event>, j: nat, n: nat)
    requires Run(ps, evs) && j < n < |ps| && StreakStarts(ps, evs, j)
    requires forall i :: j < i < n ==> !HealthyExit(ps[i], evs[i])
    requires forall i :: j <= i < n ==> !Expiry(ps[i], evs[i])
    ensures ps[n].backoff == Curve(ExitCount(evs[j..n]))
    decreases n
  {
    hide Step, Expiry, Curve, Pow2;
    var e := evs[n - 1];
    assert evs[j..n][..n - j - 1] == evs[j..n - 1];
    StepBackoff(ps[n - 1], e);
    if n == j + 1 {
      assert evs[j..n - 1] == [];
      CurveStep(0);
      if j > 0 && Expiry(ps[j - 1], evs[j - 1]) {
        StepBackoff(ps[j - 1], evs[j - 1]);
        ExpiryIsAsk(ps[j - 1], evs[j - 1]);
      }
    } else {
      BackoffCurve(ps, evs, j, n - 1);
      var k := ExitCount(evs[j..n - 1]);
      CurveStep(k);
      CurveStep(0);
    }
  }

  lemma ExpiryIsAsk(p: Policy, e: Event)
    ensures Expiry(p, e) ==> e.op.Ask?
  {
  }

  // ---- waiting --------------------------------------------------------------------------

  /** A wait is exact: asking again after a delay subtracts the delay, and at its end says Proceed. */
  lemma WaitIsExact(ps: seq<Policy>, evs: seq<Event>, n: nat, now: nat, later: nat)
    requires Run(ps, evs) && n < |ps| && Clock(evs[..n]) <= now <= later
    requires ps[n].state.Backoff? && Asked(ps[n], now).1.Wait?
    ensures var (p, d) := Asked(ps[n], now);
      && p == ps[n] && d.wait <= ps[n].backoff
      && Asked(p, later).1 == if later - now < d.wait then Wait(d.wait - (later - now)) else Proceed
  {
    RunRemembers(ps, evs, n);
    hide Window, Run, SameWindow;
  }

  // ---- the failed state -----------------------------------------------------------------

  /** In Failed the answer is Fail exactly while five exits of the run are at most 300 s old. */
  lemma FailedWhileFiveRecent(ps: seq<Policy>, evs: seq<Event>, n: nat, now: nat)
    requires Run(ps, evs) && n < |ps| && ps[n].state.Failed? && Clock(evs[..n]) <= now
    ensures Asked(ps[n], now).1.Fail? <==> |Window(ExitTimes(evs[..n]), now)| >= MAX_RESTARTS_IN_WINDOW
    ensures Asked(ps[n], now).1.Fail? || (Asked(ps[n], now).1 == Proceed && Asked(ps[n], now).0.state == Stopped)
  {
    RunRemembers(ps, evs, n);
  }

  lemma {:induction false} OldExitsLeaveWindow(times: seq<nat>, now: nat)
    requires forall i :: 0 <= i < |times| ==> times[i] + RESTART_WINDOW < now
    ensures Window(times, now) == []
  {
    if times != [] {
      OldExitsLeaveWindow(times[1..], now);
    }
  }

  /** Failed always ends once 300 s have strictly passed without exits. */
  lemma FailedExpires(ps: seq<Policy>, evs: seq<Event>, n: nat, now: nat)
    requires Run(ps, evs) && n < |ps| && ps[n].state.Failed? && Clock(evs[..n]) + RESTART_WINDOW < now
    ensures Asked(ps[n], now).1 == Proceed && Asked(ps[n], now).0.state == Stopped && Asked(ps[n], now).0.backoff == 0
  {
    RunRemembers(ps, evs, n);
    OldExitsLeaveWindow(ps[n].history, now);
  }

  lemma {:induction false} YoungTimesStay(times: seq<nat>, now: nat)
    requires UpTo(times, now) && forall i :: 0 <= i < |times| ==> now <= times[i] + RESTART_WINDOW
    ensures Window(times, now) == times
  {
    if times != [] {
      YoungTimesStay(times[1..], now);
    }
  }

  lemma {:induction false} WindowIsYoung(times: seq<nat>, now: nat)
    requires UpTo(times, now)
    ensures forall i :: 0 <= i < |Window(times, now)| ==> now <= Window(times, now)[i] + RESTART_WINDOW
  {
    if times != [] {
      WindowIsYoung(times[1..], now);
    }
  }

  function CountAfter(times: seq<nat>, t: nat): nat {
    if times == [] then 0 else (if times[0] > t then 1 else 0) + CountAfter(times[1..], t)
  }

  /** What is left in the window when `t` has just dropped out of it. */
  lemma {:induction false} WindowPastOldest(times: seq<nat>, t: nat)
    ensures |Window(times, t + RESTART_WINDOW + 1)| == CountAfter(times, t)
  {
    if times != [] {
      WindowPastOldest(times[1..], t);
    }
  }

  /**
   * At the announced moment the answer is still Fail, with nothing left to wait. One nanosecond later Failed ends
   * exactly when fewer than five exits on record are younger than the oldest; else the answer is Fail once more.
   */
  lemma RetryAfterIsOneTickShort(ps: seq<Policy>, evs: seq<Event>, n: nat, now: nat)
    requires Run(ps, evs) && n < |ps| && ps[n].state.Failed? && Clock(evs[..n]) <= now
    requires Asked(ps[n], now).1.Fail?
    ensures var (p, d) := Asked(ps[n], now);
      && Asked(p, now + d.retryAfter).1 == Fail(0)
      && p.history != []
      && var later := Asked(p, now + d.retryAfter + 1).1;
         (later == Proceed <==> CountAfter(p.history, p.history[0]) < MAX_RESTARTS_IN_WINDOW)
         && (later != Proceed ==> later.Fail?)
  {
    RunRemembers(ps, evs, n);
    var (p, d) := Asked(ps[n], now);
    WindowAscending(ps[n].history, now, now);
    WindowIsYoung(ps[n].history, now);
    YoungTimesStay(p.history, now + d.retryAfter);
    assert now + d.retryAfter == p.history[0] + RESTART_WINDOW;
    WindowPastOldest(p.history, p.history[0]);
    hide Window, Run, SameWindow;
  }

  // ---- what asking changes, and uptime --------------------------------------------------

  /** A question is not a pure observation: exactly an expired backoff and a Failed with old exits are changed by it. */
  lemma AskChangesExactly(p: Policy, now: nat)
    ensures var entered := if p.stateEntered.Some? then p.stateEntered.value else now;
            Asked(p, now).0 != p <==>
              ((p.state.Backoff? && SaturatingSub(now, entered) >= p.state.duration)
               || (p.state.Failed? && (|Window(p.history, now)| < MAX_RESTARTS_IN_WINDOW
                                       || Window(p.history, now) != p.history)))
    ensures Asked(p, now).0.state != p.state <==> (p.state.Backoff? || p.state.Failed?) && Asked(p, now).1.Proceed?
    ensures Asked(p, now).0.state != p.state ==> Asked(p, now).0.state.Stopped?
  {
  }

  /** The state is entered afresh: by every spawn and exit, and by a question that ends a wait. */
  predicate Enters(p: Policy, e: Event) {
    !e.op.Ask? || Step(p, e).state != p.state
  }

  lemma StepAnchors(p: Policy, e: Event)
    ensures Step(p, e).stateEntered == if Enters(p, e) then Some(e.now) else p.stateEntered
  {
    hide Window, NextBackoff;
  }

  /** In every run uptime counts from the event that last entered the state, and is zero if none did. */
  lemma {:induction false} UptimeSpansTheState(ps: seq<Policy>, evs: seq<Event>, j: nat, n: nat, now: nat)
    requires Run(ps, evs) && j <= n < |ps|
    requires j > 0 ==> Enters(ps[j - 1], evs[j - 1])
    requires forall i :: j <= i < n ==> !Enters(ps[i], evs[i])
    ensures Uptime(ps[n], now) == if j > 0 then SaturatingSub(now, evs[j - 1].now) else 0
    decreases n
  {
    hide Step, Enters;
    if n > 0 {
      StepAnchors(ps[n - 1], evs[n - 1]);
      if n > j {
        UptimeSpansTheState(ps, evs, j, n - 1, now);
      }
    }
  }

  // ---- the state, read off the log of exits ---------------------------------------------

  /** The exits still in the window at `now` are the ones from index i on. */
  ghost predicate RecentFrom(times: seq<nat>, now: nat, i: nat) {
    && i <= |times|
    && (forall j :: 0 <= j < i ==> times[j] + 300 * SECOND < now)
    && (forall j :: i <= j < |times| ==> now <= times[j] + 300 * SECOND)
  }

  lemma {:induction false} WindowIsSuffix(times: seq<nat>, now: nat) returns (i: nat)
    requires Ascending(times) && UpTo(times, now)
    ensures RecentFrom(times, now, i) && Window(times, now) == times[i..]
  {
    i := 0;
    if times != [] && now <= times[0] + RESTART_WINDOW {
      YoungTimesStay(times, now);
    } else if times != [] {
      var rest := times[1..];
      assert forall j :: 0 < j < |times| ==> times[j] == rest[j - 1];
      var k := WindowIsSuffix(rest, now);
      i := k + 1;
      assert times[i..] == rest[k..];
    }
  }

  /** At least five exits are recent: the fifth from the end is. */
  predicate FiveRecent(exits: seq<nat>, now: nat) {
    |exits| >= 5 && now <= exits[|exits| - 5] + 300 * SECOND
  }

  /** A wait counts from the last exit of the run. */
  ghost predicate WaitsSinceExit(p: Policy, exits: seq<nat>) {
    p.state.Backoff? ==> exits != [] && p.stateEntered == Some(exits[|exits| - 1])
  }

  lemma {:induction false} BackoffFollowsExit(ps: seq<Policy>, evs: seq<Event>, n: nat)
    requires Run(ps, evs) && n < |ps|
    ensures WaitsSinceExit(ps[n], ExitTimes(evs[..n]))
  {
    hide Window, NextBackoff;
    if n > 0 {
      BackoffFollowsExit(ps, evs, n - 1);
      assert evs[..n][..n - 1] == evs[..n - 1];
    }
  }

  /** An exit ends in Failed exactly when it is at least the fifth of the last 300 s, and in a wait otherwise. */
  lemma ExitFailsExactly(ps: seq<Policy>, evs: seq<Event>, n: nat)
    requires Run(ps, evs) && n < |evs| && evs[n].op.Exit?
    ensures ps[n + 1].state == if FiveRecent(ExitTimes(evs[..n + 1]), evs[n].now) then Failed else Backoff(ps[n + 1].backoff)
  {
    hide Window, NextBackoff, SameWindow;
    HistoryIsRecentExits(ps, evs, n);
    RunRemembers(ps, evs, n + 1);
    assert evs[..n + 1][n] == evs[n];
    var exits := ExitTimes(evs[..n + 1]);
    var i := WindowIsSuffix(exits, evs[n].now);
    assert |exits| >= 5 && |exits| - 5 < i ==> exits[|exits| - 5] + 300 * SECOND < evs[n].now;
  }

  /** The answer to a question, from the state and the log of exits. */
  lemma DecisionExactly(ps: seq<Policy>, evs: seq<Event>, n: nat, now: nat)
    requires Run(ps, evs) && n < |ps| && Clock(evs[..n]) <= now
    ensures var p, exits, d := ps[n], ExitTimes(evs[..n]), Asked(ps[n], now).1;
            && (forall w: nat :: d == Wait(w) <==>
                  p.state.Backoff? && exits != [] && w > 0 && now + w == exits[|exits| - 1] + p.state.duration)
            && (forall r: nat :: d == Fail(r) <==>
                  p.state.Failed? && FiveRecent(exits, now)
                  && exists i: nat :: i < |exits| && RecentFrom(exits, now, i) && now + r == exits[i] + 300 * SECOND)
  {
    hide Window;
    RunRemembers(ps, evs, n);
    BackoffFollowsExit(ps, evs, n);
    var p, exits := ps[n], ExitTimes(evs[..n]);
    var i := WindowIsSuffix(exits, now);
    assert Window(p.history, now) == exits[i..];
    assert |exits| >= 5 && |exits| - 5 < i ==> exits[|exits| - 5] + 300 * SECOND < now;
    forall k: nat | k < |exits| && RecentFrom(exits, now, k) ensures k == i {
      RecentFromOne(exits, now, i, k);
    }
  }

  lemma RecentFromOne(times: seq<nat>, now: nat, i: nat, k: nat)
    requires RecentFrom(times, now, i) && RecentFrom(times, now, k)
    ensures i == k
  {
    var a, b := if i < |times| then times[i] else 0, if k < |times| then times[k] else 0;
  }

  // ---- who spoke last -------------------------------------------------------------------

  /** Event i sets the reason: every exit does, and of the spawns the first. */
  ghost predicate SetsReason(evs: seq<Event>, i: int) {
    0 <= i < |evs| && (evs[i].op.Exit? || (evs[i].op.Spawn? && forall j :: 0 <= j < i ==> !evs[j].op.Spawn?))
  }

  lemma {:induction false} SpawnOnRecord(ps: seq<Policy>, evs: seq<Event>, n: nat)
    requires Run(ps, evs) && n < |ps|
    ensures ps[n].lastSpawn.None? <==> forall j :: 0 <= j < n ==> !evs[j].op.Spawn?
    ensures forall j :: 0 <= j < n && evs[j].op.Spawn? && (forall k :: j < k < n ==> !evs[k].op.Spawn?) ==>
              ps[n].lastSpawn == Some(evs[j].now)
  {
    hide Window, NextBackoff;
    if n > 0 {
      SpawnOnRecord(ps, evs, n - 1);
      assert ps[n] == Step(ps[n - 1], evs[n - 1]);
    }
  }

  /** The reason on record is that of the last exit, or of the first spawn if that came later; before both there is none. */
  lemma {:induction false} ReasonOnRecord(ps: seq<Policy>, evs: seq<Event>, j: nat, n: nat)
    requires Run(ps, evs) && j <= n < |ps|
    requires j > 0 ==> SetsReason(evs, j - 1)
    requires forall i :: j <= i < n ==> !SetsReason(evs, i)
    ensures ps[n].lastReason ==
            if j == 0 then None else Some(if evs[j - 1].op.Exit? then evs[j - 1].op.reason else InitialSpawn)
    decreases n
  {
    hide Step, SetsReason;
    if n > 0 {
      ReasonStep(ps, evs, n - 1);
      if n > j {
        ReasonOnRecord(ps, evs, j, n - 1);
      }
    }
  }

  lemma ReasonStep(ps: seq<Policy>, evs: seq<Event>, n: nat)
    requires Run(ps, evs) && n < |evs|
    ensures ps[n + 1].lastReason == if !SetsReason(evs, n) then ps[n].lastReason
                                    else Some(if evs[n].op.Exit? then evs[n].op.reason else InitialSpawn)
  {
    hide Window, NextBackoff;
    SpawnOnRecord(ps, evs, n);
    assert ps[n + 1] == Step(ps[n], evs[n]);
  }
}

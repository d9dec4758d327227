/**
 * The restart policy for the language server: exponential backoff, a sliding restart window,
 * and a failed state that expires. Times are nanoseconds on a monotone clock.
 */
module Supervisor {
  import opened Wrappers

  const SECOND := 1_000_000_000
  const INITIAL_BACKOFF := 1 * SECOND
  const MAX_BACKOFF := 16 * SECOND
  const HEALTHY_UPTIME_RESET := 60 * SECOND
  const RESTART_WINDOW := 300 * SECOND
  const MAX_RESTARTS_IN_WINDOW := 5

  datatype RestartReason =
    | InitialSpawn
    | ChildExited(code: int)
    | ChildSignaled(signal: int)
    | WaitFailed(message: string)
    | BrokenPipe

  datatype State = Stopped | Running | Backoff(duration: nat) | Failed

  datatype Decision = Proceed | Wait(wait: nat) | Fail(retryAfter: nat)

  /** The fields of the policy, as a value. */
  datatype Policy = Policy(
    state: State,
    history: seq<nat>,
    lastSpawn: Option<nat>,
    stateEntered: Option<nat>,
    lastReason: Option<RestartReason>,
    totalRestarts: nat,
    backoff: nat)

  const PRISTINE := Policy(Stopped, [], None, None, None, 0, 0)

  function SaturatingSub(a: nat, b: nat): nat {
    if a >= b then a - b else 0
  }

  /** Exits aged at most one window at `now`. */
  function Window(exits: seq<nat>, now: nat): (kept: seq<nat>)
    ensures |kept| <= |exits|
  {
    if exits == [] then []
    else if SaturatingSub(now, exits[0]) <= RESTART_WINDOW then [exits[0]] + Window(exits[1..], now)
    else Window(exits[1..], now)
  }

  predicate HealthyAt(p: Policy, now: nat) {
    p.lastSpawn.Some? && SaturatingSub(now, p.lastSpawn.value) >= HEALTHY_UPTIME_RESET
  }

  // ---- the transitions ------------------------------------------------------------------

  function Spawned(p: Policy, now: nat): Policy {
    p.(state := Running, lastSpawn := Some(now), stateEntered := Some(now),
    lastReason := if p.lastSpawn.None? then Some(InitialSpawn) else p.lastReason)
  }

  function NextBackoff(p: Policy, now: nat): nat {
    if HealthyAt(p, now) || p.backoff < INITIAL_BACKOFF then INITIAL_BACKOFF
    else if p.backoff * 2 > MAX_BACKOFF then MAX_BACKOFF
    else p.backoff * 2
  }

  function Exited(p: Policy, reason: RestartReason, now: nat): Policy {
    var history := Window(p.history + [now], now);
    var backoff := NextBackoff(p, now);
    p.(state := if |history| >= MAX_RESTARTS_IN_WINDOW then Failed else Backoff(backoff),
    history := history, stateEntered := Some(now), lastReason := Some(reason),
    totalRestarts := p.totalRestarts + 1, backoff := backoff)
  }

  function Asked(p: Policy, now: nat): (r: (Policy, Decision)) {
    match p.state
    case Running => (p, Proceed)
    case Stopped => (p, Proceed)
    case Backoff(duration) =>
      var elapsed := SaturatingSub(now, if p.stateEntered.Some? then p.stateEntered.value else now);
      if elapsed >= duration then (p.(state := Stopped, stateEntered := Some(now)), Proceed)
      else (p, Wait(duration - elapsed))
    case Failed =>
      var history := Window(p.history, now);
      if |history| < MAX_RESTARTS_IN_WINDOW then
        (p.(state := Stopped, history := history, stateEntered := Some(now), backoff := 0), Proceed)
      else
        (p.(history := history), Fail(SaturatingSub(RESTART_WINDOW, SaturatingSub(now, history[0]))))
  }

  /** Time since the state was last entered; zero before that ever happened. */
  function Uptime(p: Policy, now: nat): nat {
    if p.stateEntered.Some? then SaturatingSub(now, p.stateEntered.value) else 0
  }

  const U64_MAX := 0xFFFF_FFFF_FFFF_FFFF

  function SaturatingAdd(a: nat, b: nat): nat {
    if a + b > U64_MAX then U64_MAX else a + b
  }

  // ---- the class ------------------------------------------------------------------------

  class SupervisorPolicy {
    var state: State
    var restartHistory: seq<nat>
    var lastSpawn: Option<nat>
    var stateEntered: Option<nat>
    var lastReason: Option<RestartReason>
    var totalRestarts: nat
    var currentBackoff: nat
    var tryWaitTotal: nat
    ghost var exits: seq<nat>  // every exit ever recorded
    ghost var clock: nat       // latest reading of the monotone clock

    function View(): Policy
      reads this
    {
      Policy(state, restartHistory, lastSpawn, stateEntered, lastReason, totalRestarts, currentBackoff)
    }

    /** The pruned history has lost nothing that is still in the window. */
    ghost predicate Valid()
      reads this
    {
      && (forall i :: 0 <= i < |exits| ==> exits[i] <= clock)
      && totalRestarts == |exits|
      && SameWindow(restartHistory, exits, clock)
    }

    constructor ()
      ensures Valid() && View() == PRISTINE && exits == [] && tryWaitTotal == 0
    {
      state, restartHistory, lastSpawn, stateEntered := Stopped, [], None, None;
      lastReason, totalRestarts, currentBackoff, tryWaitTotal := None, 0, 0, 0;
      exits, clock := [], 0;
    }

    method RecordTryWait(ns: nat)
      requires Valid()
      modifies this`tryWaitTotal
      ensures Valid() && tryWaitTotal == SaturatingAdd(old(tryWaitTotal), ns)
    {
      tryWaitTotal := SaturatingAdd(tryWaitTotal, ns);
    }

    method CurrentUptime(now: nat) returns (uptime: nat)
      ensures uptime == Uptime(View(), now)
    {
      match stateEntered
      case Some(anchor) => uptime := SaturatingSub(now, anchor);
      case None => uptime := 0;
    }

    method PruneHistory(now: nat)
      modifies this`restartHistory
      ensures restartHistory == Window(old(restartHistory), now)
    {
      var kept: seq<nat> := [];
      var i := 0;
      while i < |restartHistory|
        invariant i <= |restartHistory|
        invariant Window(restartHistory, now) == kept + Window(restartHistory[i..], now)
      {
        assert restartHistory[i..][1..] == restartHistory[i + 1..];
        if SaturatingSub(now, restartHistory[i]) <= RESTART_WINDOW {
          kept := kept + [restartHistory[i]];
        }
        i := i + 1;
      }
      restartHistory := kept;
    }

    method RecordSpawn(now: nat)
      requires Valid() && clock <= now
      modifies this
      ensures Valid() && clock == now && exits == old(exits) && tryWaitTotal == old(tryWaitTotal)
      ensures View() == Spawned(old(View()), now)
    {
      var isInitial := lastSpawn.None?;
      lastSpawn := Some(now);
      stateEntered := Some(now);
      state := Running;
      if isInitial {
        lastReason := Some(InitialSpawn);
      }
      clock := now;
    }

    /** Decided before anything else changes: it depends on the previous backoff. */
    method BackoffAfterCrash(now: nat) returns (nextBackoff: nat)
      ensures nextBackoff == NextBackoff(View(), now)
    {
      var uptime := match lastSpawn case Some(spawn) => SaturatingSub(now, spawn) case None => 0;
      if uptime >= HEALTHY_UPTIME_RESET {
        nextBackoff := INITIAL_BACKOFF;
      } else if currentBackoff < INITIAL_BACKOFF {
        nextBackoff := INITIAL_BACKOFF;
      } else {
        var doubled := currentBackoff * 2;
        nextBackoff := if doubled > MAX_BACKOFF then MAX_BACKOFF else doubled;
      }
    }

    method RecordExit(reason: RestartReason, now: nat)
      requires Valid() && clock <= now
      modifies this
      ensures Valid() && clock == now && exits == old(exits) + [now] && tryWaitTotal == old(tryWaitTotal)
      ensures View() == Exited(old(View()), reason, now)
      ensures restartHistory == Window(exits, now)
    {
      hide Window, NextBackoff, SameWindow;
      var nextBackoff := BackoffAfterCrash(now);
      totalRestarts := totalRestarts + 1;
      lastReason := Some(reason);
      restartHistory := restartHistory + [now];
      PruneHistory(now);
      RecordKeepsWindow(old(restartHistory), exits, clock, now);
      exits := exits + [now];
      currentBackoff := nextBackoff;
      stateEntered := Some(now);
      clock := now;
      if |restartHistory| >= MAX_RESTARTS_IN_WINDOW {
        state := Failed;
      } else {
        state := Backoff(nextBackoff);
      }
    }

    method ShouldRetry(now: nat) returns (d: Decision)
      requires Valid() && clock <= now
      modifies this
      ensures Valid() && clock == now && exits == old(exits) && tryWaitTotal == old(tryWaitTotal)
      ensures (View(), d) == Asked(old(View()), now)
      ensures old(state).Failed? ==> restartHistory == Window(exits, now)
    {
      hide Window;
      PruneKeepsWindow(restartHistory, exits, clock, now);
      clock := now;
      if state.Failed? {
        PruneHistory(now);
        if |restartHistory| < MAX_RESTARTS_IN_WINDOW {
          state := Stopped;
          stateEntered := Some(now);
          currentBackoff := 0;
        } else {
          var oldest := restartHistory[0];
          return Fail(SaturatingSub(RESTART_WINDOW, SaturatingSub(now, oldest)));
        }
      }
      if state.Backoff? {
        var enteredAt := match stateEntered case Some(at) => at case None => now;
        var elapsed := SaturatingSub(now, enteredAt);
        if elapsed >= state.duration {
          state := Stopped;
          stateEntered := Some(now);
          return Proceed;
        } else {
          return Wait(state.duration - elapsed);
        }
      }
      return Proceed;
    }
  }

  // ---- the window -----------------------------------------------------------------------

  lemma WindowHead(times: seq<nat>, now: nat)
    requires times != []
    ensures Window(times, now) ==
            (if SaturatingSub(now, times[0]) <= RESTART_WINDOW then [times[0]] else []) + Window(times[1..], now)
  {
  }

  lemma {:induction false} WindowAppend(a: seq<nat>, b: seq<nat>, now: nat)
    ensures Window(a + b, now) == Window(a, now) + Window(b, now)
  {
    if a == [] {
      assert a + b == b;
    } else {
      hide Window, SaturatingSub;
      var ab := a + b;
      assert ab[0] == a[0] && ab[1..] == a[1..] + b;
      WindowHead(a, now);
      WindowHead(ab, now);
      WindowAppend(a[1..], b, now);
      Regroup(if SaturatingSub(now, a[0]) <= RESTART_WINDOW then [a[0]] else [], Window(a[1..], now), Window(b, now));
    }
  }

  lemma Regroup(x: seq<nat>, y: seq<nat>, z: seq<nat>)
    ensures x + (y + z) == x + y + z
  {
  }

  /** Pruning early and pruning late is pruning late. */
  lemma {:induction false} WindowShrinks(exits: seq<nat>, now: nat, later: nat)
    requires now <= later
    ensures Window(Window(exits, now), later) == Window(exits, later)
  {
    if exits != [] {
      WindowShrinks(exits[1..], now, later);
      if SaturatingSub(now, exits[0]) <= RESTART_WINDOW {
        assert Window(exits, now)[1..] == Window(exits[1..], now);
      }
    }
  }

  ghost predicate SameWindow(history: seq<nat>, exits: seq<nat>, from: nat) {
    forall now :: now >= from ==> Window(history, now) == Window(exits, now)
  }

  lemma PruneKeepsWindow(history: seq<nat>, exits: seq<nat>, clock: nat, now: nat)
    requires SameWindow(history, exits, clock) && clock <= now
    ensures SameWindow(Window(history, now), exits, now)
  {
    hide Window;
    forall later | later >= now ensures Window(Window(history, now), later) == Window(exits, later) {
      WindowShrinks(history, now, later);
    }
  }

  lemma RecordKeepsWindow(history: seq<nat>, exits: seq<nat>, clock: nat, now: nat)
    requires SameWindow(history, exits, clock) && clock <= now
    ensures Window(history + [now], now) == Window(exits + [now], now)
    ensures SameWindow(Window(history + [now], now), exits + [now], now)
  {
    hide Window;
    forall later | later >= now ensures Window(history + [now], later) == Window(exits + [now], later) {
      WindowAppend(history, [now], later);
      WindowAppend(exits, [now], later);
    }
    PruneKeepsWindow(history + [now], exits + [now], now, now);
  }
}

/** What a whole run of tool calls keeps, and what it does not. */
module RequestRuns {
  import opened Wrappers
  import opened Supervisor
  import opened SupervisorRuns
  import opened RequestLoop

  predicate Timed(c: Call) {
    c.asked <= c.probed <= c.finished
  }

  // ---- a run of calls is a run of the policy --------------------------------------------

  function OutcomeEvents(outcome: Outcome, now: nat): seq<Event> {
    match outcome
    case Good => [Event(Spawn, now)]
    case Bad(e) =>
      match ClassifyRequestError(e)
      case Some(reason) => [Event(Exit(reason), now)]
      case None => []
  }

  function ProbeEvents(l: Loop, c: Call): seq<Event> {
    var (l2, alive) := Probe(l, c);
    if alive == Some(false) then [Event(Exit(ExitStatusToReason(l2.lastExit)), c.probed)] else []
  }

  /** Everything one call tells the supervisor, in order. */
  function EventsOf(l: Loop, c: Call, queueFull: bool): seq<Event> {
    if c.tool.Missing? || c.tool.StatusTool? || queueFull then []
    else
      var (asked, decision) := Asked(l.policy, c.asked);
      if !decision.Proceed? then [Event(Ask, c.asked)]
      else
        [Event(Ask, c.asked)] + ProbeEvents(l.(policy := asked), c)
        + if c.tool.UnknownTool? then [] else OutcomeEvents(c.outcome, c.finished)
  }

  function Steps(p: Policy, evs: seq<Event>): Policy {
    if evs == [] then p else Step(Steps(p, evs[..|evs| - 1]), evs[|evs| - 1])
  }

  lemma {:induction false} StepsAppend(p: Policy, a: seq<Event>, b: seq<Event>)
    ensures Steps(p, a + b) == Steps(Steps(p, a), b)
  {
    if b == [] {
      assert a + b == a;
    } else {
      StepsAppend(p, a, b[..|b| - 1]);
      assert (a + b)[..|a + b| - 1] == a + b[..|b| - 1];
    }
  }

  lemma StepsOne(p: Policy, e: Event)
    ensures Steps(p, [e]) == Step(p, e)
  {
    assert [e][..0] == [];
    assert Steps(p, []) == p;
  }

  /** At most one event, at time `now`. */
  predicate AtMostOneAt(evs: seq<Event>, now: nat) {
    |evs| <= 1 && (evs != [] ==> evs[0].now == now)
  }

  lemma ProbeRuns(l: Loop, c: Call)
    ensures AfterProbe(l, c).policy == Steps(l.policy, ProbeEvents(l, c))
    ensures AtMostOneAt(ProbeEvents(l, c), c.probed)
  {
    hide Exited, ExitStatusToReason, FormatExitStatus;
    if ProbeEvents(l, c) != [] {
      StepsOne(l.policy, ProbeEvents(l, c)[0]);
    }
  }

  lemma OutcomeRuns(p: Policy, outcome: Outcome, now: nat)
    ensures RecordOutcome(p, outcome, now) == Steps(p, OutcomeEvents(outcome, now))
    ensures AtMostOneAt(OutcomeEvents(outcome, now), now)
  {
    hide Exited, Spawned, ExitStatusToReason;
    if OutcomeEvents(outcome, now) != [] {
      StepsOne(p, OutcomeEvents(outcome, now)[0]);
    }
  }

  lemma StepsThree(p: Policy, a: seq<Event>, b: seq<Event>, c: seq<Event>)
    ensures Steps(p, a + b + c) == Steps(Steps(Steps(p, a), b), c)
  {
    hide Steps;
    StepsAppend(p, a, b);
    StepsAppend(p, a + b, c);
  }

  ghost predicate InTimeOrder(evs: seq<Event>, start: nat, end: nat) {
    forall i, j :: 0 <= i <= j < |evs| ==> start <= evs[i].now <= evs[j].now <= end
  }

  lemma InOrderAppend(a: seq<Event>, b: seq<Event>, start: nat, mid: nat, mid': nat, end: nat)
    requires InTimeOrder(a, start, mid) && InTimeOrder(b, mid', end) && start <= mid <= mid' <= end
    ensures InTimeOrder(a + b, start, end)
  {
    var all := a + b;
    forall i, j | 0 <= i <= j < |all|
      ensures start <= all[i].now <= all[j].now <= end
    {
      if j < |a| {
        assert a[i].now <= a[j].now <= mid;
      } else {
        var y := b[j - |a|];
        assert y.now <= y.now <= end && y.now >= mid';
        if i < |a| {
          assert a[i].now <= a[i].now <= mid;
        } else {
          assert b[i - |a|].now <= y.now;
        }
      }
    }
  }

  /** At most three events, in order, between the question and the end of the call. */
  ghost predicate InCall(evs: seq<Event>, c: Call) {
    |evs| <= 3 && InTimeOrder(evs, c.asked, c.finished)
  }

  lemma ThreeInOrder(a: seq<Event>, b: seq<Event>, c: seq<Event>, call: Call)
    requires Timed(call) && |a| == 1 && a[0] == Event(Ask, call.asked)
    requires AtMostOneAt(b, call.probed) && AtMostOneAt(c, call.finished)
    ensures InCall(a + b + c, call) && ExitCount(a + b + c) <= 2
  {
    hide ExitCount, InTimeOrder;
    assert InTimeOrder(a, call.asked, call.asked) && InTimeOrder(b, call.probed, call.probed)
        && InTimeOrder(c, call.finished, call.finished) by {
      FewInOrder(a, call.asked);
      FewInOrder(b, call.probed);
      FewInOrder(c, call.finished);
    }
    InOrderAppend(a, b, call.asked, call.asked, call.probed, call.probed);
    InOrderAppend(a + b, c, call.asked, call.probed, call.finished, call.finished);
    ExitCountAppend(a + b, c);
    ExitCountAppend(a, b);
    ExitCountShort(a);
    ExitCountShort(b);
    ExitCountShort(c);
  }

  lemma FewInOrder(evs: seq<Event>, now: nat)
    requires AtMostOneAt(evs, now)
    ensures InTimeOrder(evs, now, now)
  {
  }

  /** The supervisor sees at most a question, then at most two exits, in time order. */
  lemma CallIsPolicyRun(l: Loop, c: Call, queueFull: bool)
    requires Timed(c)
    ensures Handled(l, c, queueFull).0.policy == Steps(l.policy, EventsOf(l, c, queueFull))
    ensures InCall(EventsOf(l, c, queueFull), c) && ExitCount(EventsOf(l, c, queueFull)) <= 2
  {
    hide Asked, Steps, ExitCount, InCall, AtMostOneAt, OutcomeEvents, ProbeEvents, AfterProbe, RecordOutcome;
    var first := [Event(Ask, c.asked)];
    QuietCall(l.policy, c);
    AskRuns(l.policy, c.asked);
    var (p1, decision) := Asked(l.policy, c.asked);
    if decision.Proceed? {
      var l1 := l.(policy := p1);
      var p2 := AfterProbe(l1, c).policy;
      var last := if c.tool.UnknownTool? then [] else OutcomeEvents(c.outcome, c.finished);
      ProbeRuns(l1, c);
      OutcomeRuns(p2, c.outcome, c.finished);
      QuietCall(p2, c);
      StepsThree(l.policy, first, ProbeEvents(l1, c), last);
      ThreeInOrder(first, ProbeEvents(l1, c), last, c);
    }
  }

  lemma AskRuns(p: Policy, now: nat)
    ensures Steps(p, [Event(Ask, now)]) == Asked(p, now).0
  {
    StepsOne(p, Event(Ask, now));
  }

  lemma QuietCall(p: Policy, c: Call)
    requires Timed(c)
    ensures Steps(p, []) == p && AtMostOneAt([], c.finished)
    ensures InCall([], c) && ExitCount([]) <= 2
    ensures InCall([Event(Ask, c.asked)], c) && ExitCount([Event(Ask, c.asked)]) <= 2
  {
    ExitCountShort([Event(Ask, c.asked)]);
  }

  lemma ExitCountShort(evs: seq<Event>)
    requires |evs| <= 1
    ensures ExitCount(evs) == if evs != [] && evs[0].op.Exit? then 1 else 0
  {
    if evs != [] {
      assert evs[..0] == [];
    }
  }

  lemma {:induction false} ExitCountAppend(a: seq<Event>, b: seq<Event>)
    ensures ExitCount(a + b) == ExitCount(a) + ExitCount(b)
  {
    if b == [] {
      assert a + b == a;
    } else {
      ExitCountAppend(a, b[..|b| - 1]);
      assert (a + b)[..|a + b| - 1] == a + b[..|b| - 1];
    }
  }

  /** Served calls one after the other, each at its own times and facing its own queue. */
  ghost predicate Session(ls: seq<Loop>, calls: seq<(Call, bool)>) {
    && |ls| == |calls| + 1 && ls[0] == FRESH_LOOP
    && (forall i :: 0 <= i < |calls| ==> Timed(calls[i].0) && ls[i + 1] == Handled(ls[i], calls[i].0, calls[i].1).0)
    && (forall i, j :: 0 <= i < j < |calls| ==> calls[i].0.finished <= calls[j].0.asked)
  }

  function SessionEvents(ls: seq<Loop>, calls: seq<(Call, bool)>, n: nat): seq<Event>
    requires n <= |calls| && n <= |ls|
  {
    if n == 0 then [] else SessionEvents(ls, calls, n - 1) + EventsOf(ls[n - 1], calls[n - 1].0, calls[n - 1].1)
  }

  lemma {:induction false} SessionSteps(ls: seq<Loop>, calls: seq<(Call, bool)>, n: nat)
    requires Session(ls, calls) && n <= |calls|
    ensures ls[n].policy == Steps(PRISTINE, SessionEvents(ls, calls, n))
    ensures InTimeOrder(SessionEvents(ls, calls, n), 0, if n == 0 then 0 else calls[n - 1].0.finished)
  {
    hide Handled, EventsOf, Step, InTimeOrder;
    if n == 0 {
      NothingInTimeOrder();
    } else {
      SessionSteps(ls, calls, n - 1);
      var before := SessionEvents(ls, calls, n - 1);
      var (c, full) := calls[n - 1];
      var evs := EventsOf(ls[n - 1], c, full);
      CallIsPolicyRun(ls[n - 1], c, full);
      StepsAppend(PRISTINE, before, evs);
      assert n > 1 ==> calls[n - 2].0.finished <= c.asked;
      InOrderAppend(before, evs, 0, if n == 1 then 0 else calls[n - 2].0.finished, c.asked, c.finished);
    }
  }

  lemma NothingInTimeOrder()
    ensures InTimeOrder([], 0, 0)
  {
  }

  function Trace(evs: seq<Event>): (ps: seq<Policy>)
    ensures |ps| == |evs| + 1
  {
    seq(|evs| + 1, i requires 0 <= i <= |evs| => Steps(PRISTINE, evs[..i]))
  }

  /** Every session of calls is a run of the policy, so everything proved of those runs holds of the loop. */
  lemma SessionIsPolicyRun(ls: seq<Loop>, calls: seq<(Call, bool)>)
    requires Session(ls, calls)
    ensures var evs := SessionEvents(ls, calls, |calls|);
      Run(Trace(evs), evs) && Trace(evs)[|evs|] == ls[|calls|].policy
  {
    hide Handled, EventsOf, Step, SessionEvents;
    SessionSteps(ls, calls, |calls|);
    var evs := SessionEvents(ls, calls, |calls|);
    var ps := Trace(evs);
    forall i | 0 <= i < |evs| ensures ps[i + 1] == Step(ps[i], evs[i]) {
      assert evs[..i + 1][..i] == evs[..i];
    }
    assert evs[..|evs|] == evs;
  }

  // ---- what is recorded while Failed ----------------------------------------------------

  /** Got a slot and the supervisor's leave. */
  predicate Served(l: Loop, c: Call, queueFull: bool) {
    (c.tool.Known? || c.tool.UnknownTool?) && !queueFull && Asked(l.policy, c.asked).1.Proceed?
  }

  function AfterAsk(l: Loop, c: Call): Loop {
    l.(policy := Asked(l.policy, c.asked).0)
  }

  /** The probe finds no live child, and its exit is at least the fifth in the window. */
  predicate FifthAtProbe(l: Loop, c: Call, queueFull: bool) {
    Served(l, c, queueFull) && Probe(AfterAsk(l, c), c).1 == Some(false)
    && |Window(AfterAsk(l, c).policy.history + [c.probed], c.probed)| >= MAX_RESTARTS_IN_WINDOW
  }

  /** A broken pipe, or an error that reports the exit. */
  predicate TellsOfDeath(e: ShimError) {
    e.PipeBroken? || e.ClangdExited?
  }

  predicate Tells(outcome: Outcome) {
    outcome.Good? || TellsOfDeath(outcome.error)
  }

  /** The same call goes on to record its outcome. */
  predicate OverridesFailed(l: Loop, c: Call, queueFull: bool) {
    FifthAtProbe(l, c, queueFull) && c.tool.Known? && Tells(c.outcome)
  }

  /** Every event is all right where it happens. */
  ghost predicate Passes(p: Policy, evs: seq<Event>, ok: (Policy, Event) -> bool) {
    forall i :: 0 <= i < |evs| ==> ok(Steps(p, evs[..i]), evs[i])
  }

  /** No spawn and no exit is recorded in Failed. */
  function Respects(): (Policy, Event) -> bool {
    (p: Policy, e: Event) => e.op.Ask? || !p.state.Failed?
  }

  /** No exit is recorded on top of five recent ones. */
  function HasRoom(): (Policy, Event) -> bool {
    (p: Policy, e: Event) => LeavesRoom(p, e)
  }

  lemma PassesAppend(p: Policy, a: seq<Event>, b: seq<Event>, ok: (Policy, Event) -> bool)
    ensures Passes(p, a + b, ok) <==> Passes(p, a, ok) && Passes(Steps(p, a), b, ok)
  {
    hide Steps;
    var all := a + b;
    assert forall i :: 0 <= i < |a| ==> all[..i] == a[..i] && all[i] == a[i];
    forall i | 0 <= i < |b|
      ensures all[|a| + i] == b[i] && Steps(p, all[..|a| + i]) == Steps(Steps(p, a), b[..i])
    {
      assert all[..|a| + i] == a + b[..i];
      StepsAppend(p, a, b[..i]);
    }
    if Passes(p, all, ok) {
      forall i | 0 <= i < |b|
        ensures ok(Steps(Steps(p, a), b[..i]), b[i])
      {
        assert ok(Steps(p, all[..|a| + i]), all[|a| + i]);
      }
    }
    if Passes(p, a, ok) && Passes(Steps(p, a), b, ok) {
      forall i | 0 <= i < |all|
        ensures ok(Steps(p, all[..i]), all[i])
      {
        if i >= |a| {
          assert all[|a| + (i - |a|)] == b[i - |a|];
        }
      }
    }
  }

  lemma PassesShort(p: Policy, evs: seq<Event>, ok: (Policy, Event) -> bool)
    requires |evs| <= 1
    ensures Passes(p, evs, ok) <==> (evs == [] || ok(p, evs[0]))
  {
    if evs != [] {
      assert evs[..0] == [] && Steps(p, []) == p;
    }
  }

  lemma AskLeavesFailed(p: Policy, now: nat)
    ensures Asked(p, now).1.Proceed? ==> !Asked(p, now).0.state.Failed?
  {
  }

  lemma ProbeFails(l: Loop, c: Call, queueFull: bool)
    requires Served(l, c, queueFull)
    ensures AfterProbe(AfterAsk(l, c), c).policy.state.Failed? <==> FifthAtProbe(l, c, queueFull)
  {
    hide Window, NextBackoff, ExitStatusToReason;
    AskLeavesFailed(l.policy, c.asked);
  }

  lemma OutcomeEventsTell(outcome: Outcome, now: nat)
    ensures |OutcomeEvents(outcome, now)| == (if Tells(outcome) then 1 else 0)
    ensures forall e :: e in OutcomeEvents(outcome, now) ==> !e.op.Ask?
  {
  }

  lemma EventsOfServed(l: Loop, c: Call, queueFull: bool)
    requires Served(l, c, queueFull)
    ensures EventsOf(l, c, queueFull) ==
            [Event(Ask, c.asked)] + ProbeEvents(AfterAsk(l, c), c)
            + (if c.tool.UnknownTool? then [] else OutcomeEvents(c.outcome, c.finished))
  {
    hide Asked, ProbeEvents, OutcomeEvents;
  }

  lemma EventsOfUnserved(l: Loop, c: Call, queueFull: bool)
    requires !Served(l, c, queueFull)
    ensures EventsOf(l, c, queueFull) == [] || EventsOf(l, c, queueFull) == [Event(Ask, c.asked)]
  {
    hide Asked, ProbeEvents, OutcomeEvents;
  }

  /** The events of a served call, one after the other. */
  lemma ServedPasses(l: Loop, c: Call, queueFull: bool, ok: (Policy, Event) -> bool)
    requires Served(l, c, queueFull)
    ensures var l1, last := AfterAsk(l, c), if c.tool.UnknownTool? then [] else OutcomeEvents(c.outcome, c.finished);
            Passes(l.policy, EventsOf(l, c, queueFull), ok) <==>
              (ok(l.policy, Event(Ask, c.asked))
               && (ProbeEvents(l1, c) == [] || ok(l1.policy, ProbeEvents(l1, c)[0]))
               && (last == [] || ok(AfterProbe(l1, c).policy, last[0])))
  {
    hide Asked, Steps, Passes, ProbeEvents, OutcomeEvents, EventsOf, AfterProbe, Tells;
    var first, l1 := [Event(Ask, c.asked)], AfterAsk(l, c);
    var probe := ProbeEvents(l1, c);
    var last := if c.tool.UnknownTool? then [] else OutcomeEvents(c.outcome, c.finished);
    EventsOfServed(l, c, queueFull);
    AskRuns(l.policy, c.asked);
    ProbeRuns(l1, c);
    StepsAppend(l.policy, first, probe);
    PassesAppend(l.policy, first + probe, last, ok);
    PassesAppend(l.policy, first, probe, ok);
    PassesShort(l.policy, first, ok);
    PassesShort(l1.policy, probe, ok);
    OutcomeEventsTell(c.outcome, c.finished);
    PassesShort(AfterProbe(l1, c).policy, last, ok);
  }

  lemma UnservedPasses(l: Loop, c: Call, queueFull: bool, ok: (Policy, Event) -> bool)
    requires !Served(l, c, queueFull) && ok(l.policy, Event(Ask, c.asked))
    ensures Passes(l.policy, EventsOf(l, c, queueFull), ok)
  {
    hide Asked, Steps, Passes, EventsOf, Served;
    EventsOfUnserved(l, c, queueFull);
    PassesShort(l.policy, EventsOf(l, c, queueFull), ok);
  }

  /** A call records something in Failed exactly when its own probe makes the fifth exit and its outcome tells. */
  lemma CallRecordsInFailedExactly(l: Loop, c: Call, queueFull: bool)
    ensures !Passes(l.policy, EventsOf(l, c, queueFull), Respects()) <==> OverridesFailed(l, c, queueFull)
  {
    hide Asked, Steps, Passes, OutcomeEvents, EventsOf, FifthAtProbe, AfterProbe, Tells;
    if Served(l, c, queueFull) {
      ServedPasses(l, c, queueFull, Respects());
      AskLeavesFailed(l.policy, c.asked);
      OutcomeEventsTell(c.outcome, c.finished);
      ProbeFails(l, c, queueFull);
    } else {
      UnservedPasses(l, c, queueFull, Respects());
      assert !FifthAtProbe(l, c, queueFull) by { OnlyServedProbe(l, c, queueFull); }
    }
  }

  /**
   * A dead probe, or an error that tells of a dead child, comes while the history, pruned to that moment, already
   * holds five.
   */
  predicate OverrunsCap(l: Loop, c: Call, queueFull: bool) {
    Served(l, c, queueFull)
    && ((Probe(AfterAsk(l, c), c).1 == Some(false)
         && |Window(AfterAsk(l, c).policy.history, c.probed)| >= MAX_RESTARTS_IN_WINDOW)
        || (c.tool.Known? && c.outcome.Bad? && TellsOfDeath(c.outcome.error)
            && |Window(AfterProbe(AfterAsk(l, c), c).policy.history, c.finished)| >= MAX_RESTARTS_IN_WINDOW))
  }

  lemma CallOverrunsExactly(l: Loop, c: Call, queueFull: bool)
    ensures !Passes(l.policy, EventsOf(l, c, queueFull), HasRoom()) <==> OverrunsCap(l, c, queueFull)
  {
    hide Asked, Steps, Passes, EventsOf, AfterProbe, Window, ExitStatusToReason;
    if Served(l, c, queueFull) {
      ServedPasses(l, c, queueFull, HasRoom());
    } else {
      UnservedPasses(l, c, queueFull, HasRoom());
    }
  }

  lemma OnlyServedProbe(l: Loop, c: Call, queueFull: bool)
    ensures FifthAtProbe(l, c, queueFull) ==> Served(l, c, queueFull)
  {
  }

  ghost predicate NothingOverridden(ls: seq<Loop>, calls: seq<(Call, bool)>, n: nat)
    requires n <= |calls| && n <= |ls|
  {
    forall i :: 0 <= i < n ==> !OverridesFailed(ls[i], calls[i].0, calls[i].1)
  }

  lemma {:induction false} SessionPasses(ls: seq<Loop>, calls: seq<(Call, bool)>, n: nat, ok: (Policy, Event) -> bool)
    requires Session(ls, calls) && n <= |calls|
    ensures Passes(PRISTINE, SessionEvents(ls, calls, n), ok) <==>
            forall i :: 0 <= i < n ==> Passes(ls[i].policy, EventsOf(ls[i], calls[i].0, calls[i].1), ok)
  {
    hide Handled, EventsOf, Steps, Passes, InTimeOrder;
    if n == 0 {
      PassesShort(PRISTINE, [], ok);
    } else {
      SessionPasses(ls, calls, n - 1, ok);
      SessionSteps(ls, calls, n - 1);
      var (c, full) := calls[n - 1];
      PassesAppend(PRISTINE, SessionEvents(ls, calls, n - 1), EventsOf(ls[n - 1], c, full), ok);
    }
  }

  lemma TraceSteps(evs: seq<Event>)
    ensures forall i :: 0 <= i <= |evs| ==> Trace(evs)[i] == Steps(PRISTINE, evs[..i])
  {
    hide Steps;
  }

  /** The premise of the restart cap, at the loop: a session meets it exactly when no call overrides Failed. */
  lemma SessionRespectsFailedExactly(ls: seq<Loop>, calls: seq<(Call, bool)>)
    requires Session(ls, calls)
    ensures var evs := SessionEvents(ls, calls, |calls|);
            RespectsFailed(Trace(evs), evs) <==> NothingOverridden(ls, calls, |calls|)
  {
    hide Handled, EventsOf, Steps, OverridesFailed, SessionEvents, Trace;
    SessionPasses(ls, calls, |calls|, Respects());
    TraceSteps(SessionEvents(ls, calls, |calls|));
    forall i | 0 <= i < |calls|
      ensures Passes(ls[i].policy, EventsOf(ls[i], calls[i].0, calls[i].1), Respects())
         <==> !OverridesFailed(ls[i], calls[i].0, calls[i].1)
    {
      CallRecordsInFailedExactly(ls[i], calls[i].0, calls[i].1);
    }
  }

  /**
   * The cap itself, at the loop: every closed 300 s interval of a session holds at most five exits if and only if no
   * call overruns it.
   */
  lemma SessionMeetsCapExactly(ls: seq<Loop>, calls: seq<(Call, bool)>)
    requires Session(ls, calls)
    ensures WithinCap(ExitTimes(SessionEvents(ls, calls, |calls|))) <==>
            forall i :: 0 <= i < |calls| ==> !OverrunsCap(ls[i], calls[i].0, calls[i].1)
  {
    hide Handled, EventsOf, Steps, OverrunsCap, SessionEvents, Trace, WithinCap, LeavesRoom, Run;
    var evs := SessionEvents(ls, calls, |calls|);
    SessionIsPolicyRun(ls, calls);
    assert evs[..|evs|] == evs;
    RestartCapExactly(Trace(evs), evs, |evs|);
    SessionPasses(ls, calls, |calls|, HasRoom());
    TraceSteps(evs);
    forall i | 0 <= i < |calls|
      ensures Passes(ls[i].policy, EventsOf(ls[i], calls[i].0, calls[i].1), HasRoom())
         <==> !OverrunsCap(ls[i], calls[i].0, calls[i].1)
    {
      CallOverrunsExactly(ls[i], calls[i].0, calls[i].1);
    }
  }

  /** In particular a session that never overrides Failed stays within the cap; no call of it overruns. */
  lemma SessionRestartCap(ls: seq<Loop>, calls: seq<(Call, bool)>)
    requires Session(ls, calls) && NothingOverridden(ls, calls, |calls|)
    ensures WithinCap(ExitTimes(SessionEvents(ls, calls, |calls|)))
    ensures forall i :: 0 <= i < |calls| ==> !OverrunsCap(ls[i], calls[i].0, calls[i].1)
  {
    hide Handled, SessionEvents, NothingOverridden, Run, RespectsFailed, CountBetween, Trace, OverrunsCap;
    var evs := SessionEvents(ls, calls, |calls|);
    SessionIsPolicyRun(ls, calls);
    SessionRespectsFailedExactly(ls, calls);
    assert |Trace(evs)| == |evs| + 1 && evs[..|evs|] == evs;
    forall from: nat
      ensures CountFrom(ExitTimes(evs), from) <= MAX_RESTARTS_IN_WINDOW
    {
      RestartCap(Trace(evs), evs, |evs|, from);
    }
    SessionMeetsCapExactly(ls, calls);
  }

  /** The probe itself takes the state to Failed. */
  predicate ProbeSetsFailed(l: Loop, c: Call, queueFull: bool) {
    Served(l, c, queueFull) && !AfterAsk(l, c).policy.state.Failed? && AfterProbe(AfterAsk(l, c), c).policy.state.Failed?
  }

  /** A Failed set by a call's probe is taken back to Running by the same call exactly when its dispatch succeeds. */
  lemma FailedIsOverwrittenExactly(l: Loop, c: Call, queueFull: bool)
    ensures ProbeSetsFailed(l, c, queueFull) <==> FifthAtProbe(l, c, queueFull)
    ensures ProbeSetsFailed(l, c, queueFull) && Handled(l, c, queueFull).0.policy.state.Running? <==>
            OverridesFailed(l, c, queueFull) && c.outcome.Good?
  {
    hide Window, FifthAtProbe, AfterProbe, NextBackoff, ExitStatusToReason;
    OnlyServedProbe(l, c, queueFull);
    AskLeavesFailed(l.policy, c.asked);
    if Served(l, c, queueFull) {
      ProbeFails(l, c, queueFull);
    }
  }

  /** A Failed that a call finds ends by expiry or not at all: until then nothing is served and nothing recorded. */
  lemma FailedFoundIsLeftByExpiryOnly(l: Loop, c: Call, queueFull: bool)
    requires l.policy.state.Failed?
    ensures Served(l, c, queueFull) <==>
            (c.tool.Known? || c.tool.UnknownTool?) && !queueFull
            && |Window(l.policy.history, c.asked)| < MAX_RESTARTS_IN_WINDOW
    ensures var p := Handled(l, c, queueFull).0.policy;
            !Served(l, c, queueFull) ==>
              p.state.Failed? && p.totalRestarts == l.policy.totalRestarts && p.lastSpawn == l.policy.lastSpawn
  {
    hide Window;
  }

  // ---- what each call guarantees --------------------------------------------------------

  lemma StatusTouchesNoRestartState(l: Loop, c: Call, queueFull: bool)
    requires c.tool.StatusTool?
    ensures Handled(l, c, queueFull).0.policy == l.policy && Handled(l, c, queueFull).1.StatusReport?
  {
  }

  lemma SuccessEndsRunning(l: Loop, c: Call, queueFull: bool, later: nat)
    requires Handled(l, c, queueFull).1 == Success
    ensures var p := Handled(l, c, queueFull).0.policy;
      p.state == Running && Asked(p, later) == (p, Proceed)
  {
  }

  /** One call adds no exit or one or two. */
  lemma AtMostTwoExits(l: Loop, c: Call, queueFull: bool)
    ensures var before, after := l.policy.totalRestarts, Handled(l, c, queueFull).0.policy.totalRestarts;
      before <= after <= before + 2
  {
    hide Window, NextBackoff;
  }

  // ---- what a session adds up to --------------------------------------------------------

  function One(b: bool): nat {
    if b then 1 else 0
  }

  predicate Reaps(l: Loop, c: Call, queueFull: bool) {
    Served(l, c, queueFull) && ChildNow(l.child, c.died).Zombie? && c.probeOk
  }

  predicate FindsNoChild(l: Loop, c: Call, queueFull: bool) {
    Served(l, c, queueFull) && l.child.NoChild?
  }

  predicate HearsOfDeath(l: Loop, c: Call, queueFull: bool) {
    Served(l, c, queueFull) && c.tool.Known? && c.outcome.Bad? && TellsOfDeath(c.outcome.error)
  }

  function ExitsCounted(l: Loop, c: Call, queueFull: bool): nat {
    One(Reaps(l, c, queueFull)) + One(FindsNoChild(l, c, queueFull)) + One(HearsOfDeath(l, c, queueFull))
  }

  lemma CallExits(l: Loop, c: Call, queueFull: bool)
    ensures Handled(l, c, queueFull).0.policy.totalRestarts == l.policy.totalRestarts + ExitsCounted(l, c, queueFull)
  {
    hide Window, NextBackoff, ExitStatusToReason, FormatExitStatus;
  }

  function SessionExits(ls: seq<Loop>, calls: seq<(Call, bool)>, n: nat): nat
    requires n <= |calls| && n <= |ls|
  {
    if n == 0 then 0 else SessionExits(ls, calls, n - 1) + ExitsCounted(ls[n - 1], calls[n - 1].0, calls[n - 1].1)
  }

  /**
   * The restart counter of a session is the zombies reaped before a dispatch, plus the probes that found no child,
   * plus the errors that told of a dead child, no matter how many children really died.
   */
  lemma {:induction false} SessionCountsExits(ls: seq<Loop>, calls: seq<(Call, bool)>, n: nat)
    requires Session(ls, calls) && n <= |calls|
    ensures ls[n].policy.totalRestarts == SessionExits(ls, calls, n)
  {
    hide Handled, ExitsCounted;
    if n > 0 {
      SessionCountsExits(ls, calls, n - 1);
      CallExits(ls[n - 1], calls[n - 1].0, calls[n - 1].1);
    }
  }

  /** The status tool probes, and every call that is served. */
  function ProbeCost(l: Loop, c: Call, queueFull: bool): nat {
    if c.tool.StatusTool? || Served(l, c, queueFull) then c.probeCost % (U64_MAX + 1) else 0
  }

  function SessionCost(ls: seq<Loop>, calls: seq<(Call, bool)>, n: nat): nat
    requires n <= |calls| && n <= |ls|
  {
    if n == 0 then 0 else SessionCost(ls, calls, n - 1) + ProbeCost(ls[n - 1], calls[n - 1].0, calls[n - 1].1)
  }

  lemma CallCost(l: Loop, c: Call, queueFull: bool)
    requires l.probeNs <= U64_MAX
    ensures Handled(l, c, queueFull).0.probeNs == SaturatingAdd(l.probeNs, ProbeCost(l, c, queueFull))
  {
    hide Window, NextBackoff, ExitStatusToReason, FormatExitStatus;
  }

  /** The reported total is the cost of every probe of the session, stuck at the largest 64-bit number and never wrapped. */
  lemma {:induction false} SessionProbeTotal(ls: seq<Loop>, calls: seq<(Call, bool)>, n: nat)
    requires Session(ls, calls) && n <= |calls|
    ensures ls[n].probeNs == SaturatingAdd(0, SessionCost(ls, calls, n))
  {
    hide Handled, ProbeCost;
    if n > 0 {
      SessionProbeTotal(ls, calls, n - 1);
      CallCost(ls[n - 1], calls[n - 1].0, calls[n - 1].1);
    }
  }

  // ---- what the loop does not guarantee -------------------------------------------------

  /** What a dispatch can do to the child: it may start one and see it die, but only the probe takes one away. */
  predicate Yields(before: Child, outcome: Outcome, after: Child) {
    match before
    case NoChild => outcome.Good? ==> !after.NoChild?
    case Live => !after.NoChild?
    case Zombie(_) => after == before
  }

  /** The environment's choices in a call are ones the backend can make. */
  predicate Possible(l: Loop, c: Call, queueFull: bool) {
    Timed(c)
    && (Served(l, c, queueFull) && c.tool.Known? ==>
        Yields(AfterProbe(AfterAsk(l, c), c).child, c.outcome, c.childAfter))
  }

  /** A backend that was never spawned counts as an exit: the very first served call records one. */
  lemma FirstCallRecordsAnExit(c: Call)
    requires c.tool.Known? && c.outcome.Good?
    ensures var (l, reply) := Handled(FRESH_LOOP, c, false);
      reply == Success && l.policy.totalRestarts == 1
  {
    hide Window;
  }

  /** A child that dies during a dispatch is recorded once by the broken pipe and once more when it is reaped. */
  lemma OneCrashCountsTwice(l: Loop, c1: Call, c2: Call, st: ExitStatus)
    requires l.policy.state.Running? && l.child.Live? && Timed(c1) && Timed(c2)
    requires c1.tool.Known? && c1.died.None? && c1.probeOk && c1.outcome == Bad(PipeBroken) && c1.childAfter == Zombie(st)
    requires c2.tool.Known? && c2.probeOk && c2.outcome.Good?
    requires |Window(l.policy.history + [c1.finished], c1.finished)| < MAX_RESTARTS_IN_WINDOW
    requires c2.asked >= c1.finished + MAX_BACKOFF
    ensures var l1 := Handled(l, c1, false).0;
      var (l2, reply) := Handled(l1, c2, false);
      reply == Success && l2.policy.totalRestarts == l.policy.totalRestarts + 2
  {
    hide Window, NextBackoff;
    BackoffCapped(l.policy, c1.finished);
    var l1 := Handled(l, c1, false).0;
    assert l1.policy.state == Backoff(NextBackoff(l.policy, c1.finished));
    assert Asked(l1.policy, c2.asked).1 == Proceed;
  }

  lemma BackoffCapped(p: Policy, now: nat)
    ensures INITIAL_BACKOFF <= NextBackoff(p, now) <= MAX_BACKOFF
  {
  }

  /** A served call whose child dies right after answering and stays unreaped, all at time `t`. */
  function DyingCall(t: nat): Call {
    Call(Known, None, true, 0, Good, Zombie(Unknown), t, t, t)
  }

  function DyingSession(t: nat, n: nat): Loop {
    if n == 0 then FRESH_LOOP else Handled(DyingSession(t, n - 1), DyingCall(t), false).0
  }

  lemma {:induction false} WindowOfNow(t: nat, k: nat)
    ensures Window(seq(k, _ => t), t) == seq(k, _ => t)
  {
    var times := seq(k, _ => t);
    if k > 0 {
      assert times[1..] == seq(k - 1, _ => t);
      WindowOfNow(t, k - 1);
    }
  }

  lemma {:induction false} DyingSessionStands(t: nat, n: nat)
    ensures var l := DyingSession(t, n);
      && l.policy.totalRestarts == n && l.policy.history == seq(n, _ => t)
      && l.child == (if n == 0 then NoChild else Zombie(Unknown)) && (n > 0 ==> l.policy.state == Running)
      && Served(l, DyingCall(t), false) && Possible(l, DyingCall(t), false)
      && Handled(l, DyingCall(t), false).1 == Success
  {
    hide NextBackoff, Window, FormatExitStatus, ExitStatusToReason;
    if n > 0 {
      DyingSessionStands(t, n - 1);
      var before := DyingSession(t, n - 1);
      assert seq(n - 1, _ => t) + [t] == seq(n, _ => t);
      WindowOfNow(t, n);
      assert Asked(before.policy, t) == (before.policy, Proceed);
    }
  }

  function DyingLoops(t: nat, n: nat): (ls: seq<Loop>)
    ensures |ls| == n + 1
  {
    seq(n + 1, i requires 0 <= i <= n => DyingSession(t, i))
  }

  function DyingCalls(t: nat, n: nat): (calls: seq<(Call, bool)>)
    ensures |calls| == n
  {
    seq(n, _ => (DyingCall(t), false))
  }

  lemma {:induction false} DyingExitTimes(t: nat, n: nat, k: nat)
    requires k <= n
    ensures ExitTimes(SessionEvents(DyingLoops(t, n), DyingCalls(t, n), k)) == seq(k, _ => t)
    decreases k
  {
    hide Handled, EventsOf, ExitTimes;
    if k == 0 {
      assert ExitTimes([]) == [] by { NoExitTimes(); }
    } else {
      DyingExitTimes(t, n, k - 1);
      DyingSessionStands(t, k - 1);
      var before := SessionEvents(DyingLoops(t, n), DyingCalls(t, n), k - 1);
      ExitTimesAppend(before, EventsOf(DyingSession(t, k - 1), DyingCall(t), false));
      DyingCallExits(DyingSession(t, k - 1), t);
      assert seq(k - 1, _ => t) + [t] == seq(k, _ => t);
    }
  }

  lemma NoExitTimes()
    ensures ExitTimes([]) == []
  {
  }

  lemma {:induction false} ExitTimesAppend(a: seq<Event>, b: seq<Event>)
    ensures ExitTimes(a + b) == ExitTimes(a) + ExitTimes(b)
  {
    if b == [] {
      assert a + b == a;
    } else {
      var init, last := b[..|b| - 1], b[|b| - 1];
      ExitTimesAppend(a, init);
      assert (a + b)[..|a + b| - 1] == a + init;
      var time := if last.op.Exit? then [last.now] else [];
      assert ExitTimes(a) + (ExitTimes(init) + time) == ExitTimes(a) + ExitTimes(init) + time;
    }
  }

  lemma DyingCallExits(l: Loop, t: nat)
    requires Served(l, DyingCall(t), false) && !l.child.Live?
    ensures ExitTimes(EventsOf(l, DyingCall(t), false)) == [t]
  {
    hide Asked, FormatExitStatus, ExitStatusToReason, EventsOf;
    EventsOfServed(l, DyingCall(t), false);
    var evs := ProbeEvents(AfterAsk(l, DyingCall(t)), DyingCall(t));
    assert |evs| == 1 && evs[0].op.Exit? && evs[0].now == t;
    var all := [Event(Ask, t)] + evs + [Event(Spawn, t)];
    assert all[..2][..1] == [Event(Ask, t)] && all[..2] == [Event(Ask, t)] + evs && [Event(Ask, t)][..0] == [];
    assert ExitTimes([Event(Ask, t)]) == [];
    assert ExitTimes(all[..2]) == [] + [t];
  }

  lemma {:induction false} CountOfNow(t: nat, k: nat)
    ensures CountBetween(seq(k, _ => t), t, t + RESTART_WINDOW) == k
  {
    if k > 0 {
      CountOfNow(t, k - 1);
      assert seq(k, _ => t)[..k - 1] == seq(k - 1, _ => t);
    }
  }

  /** From the fifth call of such a session on each one overrides Failed, from the sixth on each overruns the cap. */
  lemma DyingCallsOverrun(t: nat, i: nat)
    ensures OverridesFailed(DyingSession(t, i), DyingCall(t), false) <==> i >= 4
    ensures OverrunsCap(DyingSession(t, i), DyingCall(t), false) <==> i >= 5
  {
    hide Handled, Window, FormatExitStatus, ExitStatusToReason;
    DyingSessionStands(t, i);
    assert seq(i, _ => t) + [t] == seq(i + 1, _ => t);
    WindowOfNow(t, i + 1);
    WindowOfNow(t, i);
    var l := DyingSession(t, i);
    assert AfterAsk(l, DyingCall(t)).policy.history == seq(i, _ => t) by {
      if i == 0 {
        assert l == FRESH_LOOP;
      }
    }
  }

  /** The call is one the backend can make, and it is answered. */
  predicate Answered(l: Loop, c: Call, queueFull: bool) {
    Possible(l, c, queueFull) && Handled(l, c, queueFull).1 == Success
  }

  /**
   * For every n there is a session of possible calls with n exits in one instant and every call served: the cap is not
   * a property of the loop.
   */
  lemma LoopHasNoRestartCap(t: nat, n: nat)
    ensures var ls, calls := DyingLoops(t, n), DyingCalls(t, n);
      && Session(ls, calls) && CountFrom(ExitTimes(SessionEvents(ls, calls, n)), t) == n
      && forall i :: 0 <= i < n ==> Answered(ls[i], calls[i].0, calls[i].1)
  {
    hide Handled, Possible, SessionEvents, CountBetween;
    DyingExitTimes(t, n, n);
    CountOfNow(t, n);
    forall i | 0 <= i < n
      ensures DyingSession(t, i + 1) == Handled(DyingSession(t, i), DyingCall(t), false).0
      ensures Answered(DyingSession(t, i), DyingCall(t), false)
    {
      DyingSessionStands(t, i);
    }
  }
}

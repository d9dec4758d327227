/** Which reply a call gets, from the state it finds, the log of exits and what the backend did. */
module RequestReplies {
  import opened Wrappers
  import opened Supervisor
  import opened SupervisorRuns
  import opened RequestLoop
  import opened RequestRuns

  /** The exits of the session before call n. */
  function ExitLog(ls: seq<Loop>, calls: seq<(Call, bool)>, n: nat): seq<nat>
    requires n <= |calls| && n <= |ls|
  {
    ExitTimes(SessionEvents(ls, calls, n))
  }

  /** Names a tool of the backend, or none at all, and finds a queue slot free. */
  predicate GotSlot(c: Call, queueFull: bool) {
    !c.tool.Missing? && !c.tool.StatusTool? && !queueFull
  }

  /** w nanoseconds of the backoff are left, counted from the last exit. */
  predicate StillWaits(p: Policy, exits: seq<nat>, now: nat, w: nat) {
    p.state.Backoff? && exits != [] && w > 0 && now + w == exits[|exits| - 1] + p.state.duration
  }

  /** Failed with five exits in the window, the oldest of those in it staying for r more nanoseconds. */
  ghost predicate GivenUp(p: Policy, exits: seq<nat>, now: nat, r: nat) {
    p.state.Failed? && FiveRecent(exits, now)
    && exists i: nat :: i < |exits| && RecentFrom(exits, now, i) && now + r == exits[i] + 300 * SECOND
  }

  ghost predicate LetThrough(p: Policy, exits: seq<nat>, now: nat) {
    (forall w: nat :: !StillWaits(p, exits, now, w)) && (forall r: nat :: !GivenUp(p, exits, now, r))
  }

  lemma SessionDecision(ls: seq<Loop>, calls: seq<(Call, bool)>, n: nat, now: nat)
    requires Session(ls, calls) && n <= |calls| && now >= (if n == 0 then 0 else calls[n - 1].0.finished)
    ensures var p, exits, d := ls[n].policy, ExitLog(ls, calls, n), Asked(ls[n].policy, now).1;
            && (forall w: nat :: d == Wait(w) <==> StillWaits(p, exits, now, w))
            && (forall r: nat :: d == Fail(r) <==> GivenUp(p, exits, now, r))
            && (d.Proceed? <==> LetThrough(p, exits, now))
  {
    hide Handled, EventsOf, Step, SessionEvents, RecentFrom, Asked;
    var evs := SessionEvents(ls, calls, n);
    SessionSteps(ls, calls, n);
    PrefixIsRun(evs, if n == 0 then 0 else calls[n - 1].0.finished);
    assert evs[..|evs|] == evs;
    DecisionExactly(Trace(evs), evs, |evs|, now);
    var d := Asked(ls[n].policy, now).1;
    assert d.Wait? ==> StillWaits(ls[n].policy, ExitTimes(evs), now, d.wait);
    assert d.Fail? ==> GivenUp(ls[n].policy, ExitTimes(evs), now, d.retryAfter);
  }

  lemma {:induction false} PrefixIsRun(evs: seq<Event>, end: nat)
    requires InTimeOrder(evs, 0, end)
    ensures Run(Trace(evs), evs) && Trace(evs)[|evs|] == Steps(PRISTINE, evs) && Clock(evs) <= end
  {
    var ps := Trace(evs);
    forall i | 0 <= i < |evs| ensures ps[i + 1] == Step(ps[i], evs[i]) {
      assert evs[..i + 1][..i] == evs[..i];
    }
    assert evs[..|evs|] == evs;
    assert evs != [] ==> evs[|evs| - 1].now <= evs[|evs| - 1].now;
  }

  /** Every reply of every session, exactly. */
  lemma ReplyExactly(ls: seq<Loop>, calls: seq<(Call, bool)>, n: nat)
    requires Session(ls, calls) && n < |calls|
    ensures var (c, full) := calls[n];
            var p, exits, reply := ls[n].policy, ExitLog(ls, calls, n), Handled(ls[n], c, full).1;
            && (reply == InvalidParams <==> c.tool.Missing?)
            && (reply.StatusReport? <==> c.tool.StatusTool?)
            && (reply == QueueFull <==> (c.tool.Known? || c.tool.UnknownTool?) && full)
            && (forall w: nat :: reply == SupervisorBackoff(w) <==> GotSlot(c, full) && StillWaits(p, exits, c.asked, w))
            && (forall r: nat :: reply == SupervisorMaxRetries(r) <==> GotSlot(c, full) && GivenUp(p, exits, c.asked, r))
            && (reply == NoSuchTool <==> GotSlot(c, full) && LetThrough(p, exits, c.asked) && c.tool.UnknownTool?)
            && (reply == Success <==>
                  GotSlot(c, full) && LetThrough(p, exits, c.asked) && c.tool.Known? && c.outcome == Good)
            && (forall e :: reply == Failure(e) <==>
                  GotSlot(c, full) && LetThrough(p, exits, c.asked) && c.tool.Known? && c.outcome == Bad(e))
  {
    hide Asked, StillWaits, GivenUp, LetThrough, SessionEvents, AfterProbe, RecordOutcome, InTimeOrder;
    assert n > 0 ==> calls[n - 1].0.finished <= calls[n].0.asked;
    SessionDecision(ls, calls, n, calls[n].0.asked);
  }

  /** The status report: the probe's finding, the exits recorded so far, and the cost of every probe including this one. */
  lemma StatusReportExactly(ls: seq<Loop>, calls: seq<(Call, bool)>, n: nat)
    requires Session(ls, calls) && n < |calls| && calls[n].0.tool.StatusTool?
    ensures var (c, full) := calls[n];
            var reply := Handled(ls[n], c, full).1;
            && reply.StatusReport?
            && (reply.alive <==> ls[n].child.Live? && c.died.None? && c.probeOk)
            && reply.restarts == |ExitLog(ls, calls, n)| == SessionExits(ls, calls, n)
            && reply.probeNs == SaturatingAdd(0, SessionCost(ls, calls, n + 1))
  {
    hide Step, EventsOf, SessionEvents, SessionCost, SessionExits, InTimeOrder;
    SessionCountsExits(ls, calls, n);
    SessionProbeTotal(ls, calls, n + 1);
    SessionRemembers(ls, calls, n);
  }

  lemma SessionRemembers(ls: seq<Loop>, calls: seq<(Call, bool)>, n: nat)
    requires Session(ls, calls) && n <= |calls|
    ensures ls[n].policy.totalRestarts == |ExitLog(ls, calls, n)|
  {
    hide Handled, EventsOf, Step, SessionEvents;
    var evs := SessionEvents(ls, calls, n);
    SessionSteps(ls, calls, n);
    PrefixIsRun(evs, if n == 0 then 0 else calls[n - 1].0.finished);
    RunRemembers(Trace(evs), evs, |evs|);
    assert evs[..|evs|] == evs;
  }

  /** The uptime it reports counts from the event of the session that last entered the state. */
  lemma StatusUptime(ls: seq<Loop>, calls: seq<(Call, bool)>, n: nat, j: nat)
    requires Session(ls, calls) && n < |calls| && calls[n].0.tool.StatusTool?
    requires var evs := SessionEvents(ls, calls, n);
             j <= |evs| && (j > 0 ==> Enters(Trace(evs)[j - 1], evs[j - 1]))
             && forall i :: j <= i < |evs| ==> !Enters(Trace(evs)[i], evs[i])
    ensures var (c, full) := calls[n];
            var evs, reply := SessionEvents(ls, calls, n), Handled(ls[n], c, full).1;
            reply.StatusReport?
            && reply.uptime == if j > 0 then SaturatingSub(c.probed, evs[j - 1].now) else 0
  {
    hide Step, EventsOf, SessionEvents, Enters, Trace, InTimeOrder, Steps;
    var evs := SessionEvents(ls, calls, n);
    SessionSteps(ls, calls, n);
    PrefixIsRun(evs, if n == 0 then 0 else calls[n - 1].0.finished);
    UptimeSpansTheState(Trace(evs), evs, j, |evs|, calls[n].0.probed);
  }
}

/**
 * One `tools/call` after another: admission queue, restart policy, liveness probe, dispatch.
 * The child process and the outcome of a dispatch are the environment's choice.
 */
module RequestLoop {
  import opened Wrappers
  import opened Text
  import opened Decimal
  import opened Supervisor
  import opened Queue

  // ---- the child process ----------------------------------------------------------------

  datatype ExitStatus = Code(code: int) | Signal(signal: int) | Unknown

  /** A child that exited stays a zombie until the liveness probe reaps it. */
  datatype Child = NoChild | Live | Zombie(status: ExitStatus)

  function FormatExitStatus(st: ExitStatus): string {
    match st
    case Code(c) => "code=" + PrintInt(c)
    case Signal(s) => "signal=" + PrintInt(s)
    case Unknown => "code=?"
  }

  function StripPrefix(s: string, prefix: string): Option<string> {
    if StartsWith(s, prefix) then Some(s[|prefix|..]) else None
  }

  function ExitStatusToReason(status: Option<string>): RestartReason {
    if status.None? then WaitFailed("child gone, status unknown")
    else
      var code, signal := StripPrefix(status.value, "code="), StripPrefix(status.value, "signal=");
      if code == Some("?") then WaitFailed("platform did not provide exit status")
      else if code.Some? && ParseI32(code.value).Some? then ChildExited(ParseI32(code.value).value)
      else if signal.Some? && ParseI32(signal.value).Some? then ChildSignaled(ParseI32(signal.value).value)
      else WaitFailed("unparsed exit status")
  }

  /** What the child did is what the supervisor is told. */
  lemma ExitStatusSurvives(st: ExitStatus)
    requires st.Code? ==> -0x8000_0000 <= st.code < 0x8000_0000
    requires st.Signal? ==> -0x8000_0000 <= st.signal < 0x8000_0000
    ensures ExitStatusToReason(Some(FormatExitStatus(st))) ==
            match st
            case Code(c) => ChildExited(c)
            case Signal(s) => ChildSignaled(s)
            case Unknown => WaitFailed("platform did not provide exit status")
  {
    var s := FormatExitStatus(st);
    assert |"code="| == 5 && |"signal="| == 7;
    match st
    case Code(c) =>
      ParsePrintedI32(c);
      PrintedIsNotQuestionMark(c);
      assert s[5..] == PrintInt(c);
    case Signal(g) =>
      ParsePrintedI32(g);
      assert s[7..] == PrintInt(g) && s[0] == 's';
    case Unknown =>
      assert s[5..] == "?";
  }

  lemma PrintedIsNotQuestionMark(n: int)
    ensures PrintInt(n) != "?"
  {
    assert n >= 0 ==> IsDigit(PrintInt(n)[0]);
  }

  // ---- one call -------------------------------------------------------------------------

  datatype Tool = Missing | StatusTool | Known | UnknownTool

  /** What a backend error tells about the child: pipe errors and a reported exit do, the rest do not. */
  datatype ShimError = PipeBroken | OtherIo | ClangdExited(status: string) | ClangdBusy | RequestTimeout | OtherError

  datatype Outcome = Good | Bad(error: ShimError)

  /** A request together with everything the environment decides while it is served. */
  datatype Call = Call(
    tool: Tool,
    died: Option<ExitStatus>,  // how a child that was alive ended before the probe, if it did
    probeOk: bool,             // whether try_wait itself succeeded
    probeCost: nat,            // its nanoseconds on the wall clock
    outcome: Outcome,
    childAfter: Child,         // the child once the dispatch is over
    asked: nat, probed: nat, finished: nat)

  datatype Reply =
    | InvalidParams
    | StatusReport(alive: bool, uptime: nat, restarts: nat, probeNs: nat)
    | QueueFull
    | SupervisorBackoff(wait: nat)
    | SupervisorMaxRetries(retryAfter: nat)
    | NoSuchTool
    | Success
    | Failure(error: ShimError)

  datatype Loop = Loop(policy: Policy, child: Child, lastExit: Option<string>, probeNs: nat)

  const FRESH_LOOP := Loop(PRISTINE, NoChild, None, 0)

  function ClassifyRequestError(e: ShimError): Option<RestartReason> {
    match e
    case PipeBroken => Some(BrokenPipe)
    case ClangdExited(status) => Some(ExitStatusToReason(Some(status)))
    case _ => None
  }

  /** The child as the probe finds it. */
  function ChildNow(child: Child, died: Option<ExitStatus>): Child {
    if child.Live? && died.Some? then Zombie(died.value) else child
  }

  /** `is_alive`: no child counts as not alive; a zombie is reaped. */
  function IsAliveNow(l: Loop, c: Call): (Loop, Option<bool>) {
    match ChildNow(l.child, c.died)
    case NoChild => (l, Some(false))
    case Live => (l, if c.probeOk then Some(true) else None)
    case Zombie(st) =>
      if c.probeOk then (l.(child := NoChild, lastExit := Some(FormatExitStatus(st))), Some(false))
      else (l.(child := Zombie(st)), None)
  }

  /** `as u64`, then added to the total. */
  function Charge(l: Loop, ns: nat): Loop {
    l.(probeNs := SaturatingAdd(l.probeNs, ns % (U64_MAX + 1)))
  }

  /** The probe and the record of what it cost. */
  function Probe(l: Loop, c: Call): (Loop, Option<bool>) {
    var (l1, alive) := IsAliveNow(l, c);
    (Charge(l1, c.probeCost), alive)
  }

  function AfterProbe(l: Loop, c: Call): Loop {
    var (l1, alive) := Probe(l, c);
    if alive == Some(false)
    then l1.(policy := Exited(l1.policy, ExitStatusToReason(l1.lastExit), c.probed))
    else l1
  }

  function RecordOutcome(p: Policy, outcome: Outcome, now: nat): Policy {
    match outcome
    case Good => Spawned(p, now)
    case Bad(e) =>
      match ClassifyRequestError(e)
      case Some(reason) => Exited(p, reason, now)
      case None => p
  }

  /** A call that got a queue slot. */
  function Admitted(l: Loop, c: Call): (Loop, Reply) {
    var (asked, decision) := Asked(l.policy, c.asked);
    var l1 := l.(policy := asked);
    match decision
    case Wait(w) => (l1, SupervisorBackoff(w))
    case Fail(r) => (l1, SupervisorMaxRetries(r))
    case Proceed =>
      var l2 := AfterProbe(l1, c);
      if c.tool.UnknownTool? then (l2, NoSuchTool)
      else
        (l2.(policy := RecordOutcome(l2.policy, c.outcome, c.finished), child := c.childAfter),
        if c.outcome.Good? then Success else Failure(c.outcome.error))
  }

  function Handled(l: Loop, c: Call, queueFull: bool): (Loop, Reply) {
    match c.tool
    case Missing => (l, InvalidParams)
    case StatusTool =>
      var (l1, alive) := Probe(l, c);
      (l1, StatusReport(alive == Some(true), Uptime(l1.policy, c.probed), l1.policy.totalRestarts, l1.probeNs))
    case _ => if queueFull then (l, QueueFull) else Admitted(l, c)
  }

  class Server {
    const queue: BoundedQueue
    const supervisor: SupervisorPolicy
    var child: Child
    var lastExit: Option<string>

    constructor (capacity: nat)
      requires capacity > 0
      ensures Valid() && fresh(queue) && fresh(supervisor)
      ensures View() == FRESH_LOOP && queue.capacity == capacity && queue.live == {}
    {
      queue := new BoundedQueue(capacity);
      supervisor := new SupervisorPolicy();
      child, lastExit := NoChild, None;
    }

    ghost predicate Valid()
      reads this, queue, supervisor
    {
      queue.Valid() && supervisor.Valid()
    }

    function View(): Loop
      reads this, supervisor
    {
      Loop(supervisor.View(), child, lastExit, supervisor.tryWaitTotal)
    }

    method IsAlive(c: Call) returns (alive: Option<bool>)
      modifies this
      ensures (View(), alive) == IsAliveNow(old(View()), c)
    {
      child := ChildNow(child, c.died);
      match child {
        case NoChild => return Some(false);
        case Live => return if c.probeOk then Some(true) else None;
        case Zombie(st) =>
          if !c.probeOk {
            return None;
          }
          lastExit := Some(FormatExitStatus(st));
          child := NoChild;
          return Some(false);
      }
    }

    method RecordDispatchOutcome(outcome: Outcome, now: nat)
      requires Valid() && supervisor.clock <= now
      modifies supervisor
      ensures Valid() && supervisor.clock <= now
      ensures supervisor.View() == RecordOutcome(old(supervisor.View()), outcome, now)
      ensures supervisor.tryWaitTotal == old(supervisor.tryWaitTotal)
    {
      match outcome {
        case Good => supervisor.RecordSpawn(now);
        case Bad(e) =>
          var reason := ClassifyRequestError(e);
          if reason.Some? {
            supervisor.RecordExit(reason.value, now);
          }
      }
    }

    /** Layers 2 to 5, the slot already taken. */
    method Dispatch(c: Call) returns (reply: Reply)
      requires Valid() && supervisor.clock <= c.asked <= c.probed <= c.finished
      requires c.tool.Known? || c.tool.UnknownTool?
      modifies this, supervisor
      ensures Valid() && supervisor.clock <= c.finished
      ensures (View(), reply) == Admitted(old(View()), c)
    {
      var decision := supervisor.ShouldRetry(c.asked);
      match decision {
        case Wait(w) => return SupervisorBackoff(w);
        case Fail(r) => return SupervisorMaxRetries(r);
        case Proceed =>
      }
      var alive := IsAlive(c);
      supervisor.RecordTryWait(c.probeCost % (U64_MAX + 1));
      if alive == Some(false) {
        var reason := ExitStatusToReason(lastExit);
        supervisor.RecordExit(reason, c.probed);
      }
      if c.tool.UnknownTool? {
        return NoSuchTool;
      }
      child := c.childAfter;
      RecordDispatchOutcome(c.outcome, c.finished);
      return if c.outcome.Good? then Success else Failure(c.outcome.error);
    }

    /** The whole handler: on every path the queue ends up holding exactly the slots it held before. */
    method HandleToolsCall(c: Call) returns (reply: Reply)
      requires Valid() && supervisor.clock <= c.asked <= c.probed <= c.finished
      modifies this, queue, supervisor
      ensures Valid() && supervisor.clock <= c.finished
      ensures (View(), reply) == Handled(old(View()), c, old(queue.inFlight) == queue.capacity)
      ensures queue.live == old(queue.live) && queue.inFlight == old(queue.inFlight)
    {
      if c.tool.Missing? {
        return InvalidParams;
      }
      if c.tool.StatusTool? {
        var alive := IsAlive(c);
        supervisor.RecordTryWait(c.probeCost % (U64_MAX + 1));
        var uptime := supervisor.CurrentUptime(c.probed);
        return StatusReport(alive == Some(true), uptime, supervisor.totalRestarts, supervisor.tryWaitTotal);
      }
      var slot := queue.TryAcquire();
      if slot == null {
        return QueueFull;
      }
      reply := Dispatch(c);
      queue.Drop(slot);
    }
  }
}

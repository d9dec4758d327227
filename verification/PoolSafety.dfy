/** What every interleaving of acquires, releases, crashes, edits and commits keeps. */
module PoolSafety {
  import opened Wrappers
  import opened CommitGraph
  import opened PoolProtocol
  import opened PoolInvariant

  // ---- exclusivity ----------------------------------------------------------------------

  function Won(pc: Pc): Option<nat> {
    match pc
    case CheckedOut(s) => Some(s)
    case Done(Acquired(s)) => Some(s)
    case _ => None
  }

  /** Whoever holds or was handed a slot is on record as having taken it. */
  ghost predicate Logged(w: World) {
    forall p :: 0 <= p < |w.runs| && Won(w.runs[p].pc).Some? ==>
      Took(p, Won(w.runs[p].pc).value, w.runs[p].branch.Some?) in w.log
  }

  /** A step other than an advance touches at most one run, and that one by crashing it. */
  lemma OtherStepsKeepLogged(w: World, a: Action)
    requires Inv(w) && Logged(w) && Enabled(w, a) && !a.Advance?
    ensures Logged(Apply(w, a))
  {
    var w1 := Apply(w, a);
    forall p | 0 <= p < |w1.runs| && Won(w1.runs[p].pc).Some?
      ensures Took(p, Won(w1.runs[p].pc).value, w1.runs[p].branch.Some?) in w1.log
    {
      assert w1.runs[p] == w.runs[p];
      assert Took(p, Won(w.runs[p].pc).value, w.runs[p].branch.Some?) in w.log;
    }
  }

  ghost predicate OnlyRunChanges(w: World, w1: World, p: nat)
    requires p < |w.runs|
  {
    && |w1.runs| == |w.runs|
    && (forall q :: 0 <= q < |w.runs| && q != p ==> w1.runs[q] == w.runs[q])
    && w1.runs[p] == w.runs[p].(pc := w1.runs[p].pc)
    && w1.dag == w.dag && w1.main == w.main && w1.elsewhere == w.elsewhere
  }

  lemma AdvanceFrame(w: World, p: nat, io: Io)
    requires p < |w.runs| && InBounds(w, w.runs[p].pc)
    ensures OnlyRunChanges(w, AdvanceRun(w, p, io), p)
  {
  }

  ghost predicate SameRecord(w: World, w1: World, p: nat)
    requires p < |w.runs|
  {
    |w1.runs| == |w.runs| && w1.refs == w.refs && w1.log == w.log && Won(w1.runs[p].pc) == Won(w.runs[p].pc)
  }

  lemma EarlyStepRecord(w: World, p: nat, io: Io)
    requires p < |w.runs| && InBounds(w, w.runs[p].pc)
    requires w.runs[p].pc.Resolve? || w.runs[p].pc.CheckBranch? || w.runs[p].pc.Scan?
    ensures SameRecord(w, AdvanceRun(w, p, io), p)
  {
  }

  lemma LateStepRecord(w: World, p: nat, io: Io)
    requires p < |w.runs| && InBounds(w, w.runs[p].pc)
    requires w.runs[p].pc.TryLock? || w.runs[p].pc.Locked? || w.runs[p].pc.CheckedOut? || w.runs[p].pc.Done?
    ensures SameRecord(w, AdvanceRun(w, p, io), p)
  {
  }

  lemma LoopStepRecord(w: World, p: nat, io: Io)
    requires p < |w.runs| && InBounds(w, w.runs[p].pc) && !w.runs[p].pc.Verified?
    ensures SameRecord(w, AdvanceRun(w, p, io), p)
  {
    hide AdvanceRun, SameRecord;
    if w.runs[p].pc.Resolve? || w.runs[p].pc.CheckBranch? || w.runs[p].pc.Scan? {
      EarlyStepRecord(w, p, io);
    } else {
      LateStepRecord(w, p, io);
    }
  }

  /** Short of a successful checkout, an advance moves its own program counter and nothing on record. */
  lemma AdvanceRecord(w: World, p: nat, io: Io)
    requires p < |w.runs| && InBounds(w, w.runs[p].pc)
    ensures var w1 := AdvanceRun(w, p, io);
      |w1.runs| == |w.runs| &&
      if w.runs[p].pc.Verified? && w1.runs[p].pc.CheckedOut?
      then w1 == AfterCheckout(w, p, w.runs[p].pc.base, w.runs[p].pc.rest[0])
      else w1.refs == w.refs && w1.log == w.log && Won(w1.runs[p].pc) == Won(w.runs[p].pc)
  {
    if w.runs[p].pc.Verified? {
      assert AdvanceRun(w, p, io) == Checkout(w, p, w.runs[p].pc.base, w.runs[p].pc.rest[0], io);
    } else {
      hide AdvanceRun;
      LoopStepRecord(w, p, io);
    }
  }

  lemma AdvanceKeepsLogged(w: World, p: nat, io: Io)
    requires Inv(w) && Logged(w) && p < |w.runs| && !w.runs[p].pc.Done?
    ensures Logged(AdvanceRun(w, p, io))
  {
    assert PcFits(w, w.runs[p].pc);
    AdvanceFrame(w, p, io);
    AdvanceRecord(w, p, io);
    var w1 := AdvanceRun(w, p, io);
    if w1.log != w.log {
      var e := Took(p, w.runs[p].pc.rest[0], w.runs[p].branch.Some?);
      assert w1.log == w.log + [e];
      assert e in w1.log;
    }
  }

  lemma StepKeepsLogged(w: World, a: Action)
    requires Inv(w) && Logged(w) && Enabled(w, a)
    ensures Logged(Apply(w, a))
  {
    if a.Advance? {
      AdvanceKeepsLogged(w, a.run, a.io);
    } else {
      OtherStepsKeepLogged(w, a);
    }
  }

  lemma {:induction false} ExecutionKeepsLogged(ws: seq<World>, acts: seq<Action>, n: nat)
    requires Execution(ws, acts) && Initial(ws[0]) && n < |ws|
    ensures Inv(ws[n]) && Logged(ws[n])
  {
    if n > 0 {
      ExecutionKeepsLogged(ws, acts, n - 1);
      StepKeepsInv(ws[n - 1], acts[n - 1]);
      StepKeepsLogged(ws[n - 1], acts[n - 1]);
    }
  }

  /** Two different runs that both obtained the slot, at least the earlier one by name, had a release between. */
  ghost predicate SeparatedByRelease(log: seq<Event>, p: nat, q: nat, slot: nat) {
    exists i, j, k :: 0 <= i < |log| && 0 <= j < |log| && (i < k < j || j < k < i) && 0 <= k < |log|
      && log[i].Took? && log[i].run == p && log[i].slot == slot
      && log[j].Took? && log[j].run == q && log[j].slot == slot && log[k] == Gave(slot)
  }

  lemma NamedAcquiresAreExclusive(ws: seq<World>, acts: seq<Action>, n: nat, p: nat, q: nat, slot: nat)
    requires Execution(ws, acts) && Initial(ws[0]) && n < |ws|
    requires p < |ws[n].runs| && q < |ws[n].runs| && p != q
    requires Won(ws[n].runs[p].pc) == Some(slot) == Won(ws[n].runs[q].pc)
    requires ws[n].runs[p].branch.Some? && ws[n].runs[q].branch.Some?
    ensures SeparatedByRelease(ws[n].log, p, q, slot)
  {
    hide Execution, Initial, WellFormed, LocksExact, VerifiedDetached, ReleasesFit;
    ExecutionKeepsLogged(ws, acts, n);
    var log := ws[n].log;
    var i :| 0 <= i < |log| && log[i] == Took(p, slot, true);
    var j :| 0 <= j < |log| && log[j] == Took(q, slot, true);
    if i < j {
      var k :| i < k < j && log[k] == Gave(slot);
    } else {
      assert log[j].slot == log[i].slot;
      var k :| j < k < i && log[k] == Gave(log[j].slot);
    }
  }

  /** A checkout takes a free slot out of circulation exactly when it was given a branch name. */
  lemma CheckoutHidesSlotIffNamed(w: World, p: nat, io: Io)
    requires Inv(w) && p < |w.runs| && w.runs[p].pc.Verified? && IsFree(w.slots[w.runs[p].pc.rest[0]])
    requires AdvanceRun(w, p, io).runs[p].pc.CheckedOut?
    ensures IsFree(AdvanceRun(w, p, io).slots[w.runs[p].pc.rest[0]]) <==> w.runs[p].branch.None?
  {
    assert PcFits(w, w.runs[p].pc);
  }

  // ---- crashes --------------------------------------------------------------------------

  /** A slot whose holder died before checkout is as it was, unlocked, and the next run to try it gets it. */
  lemma CrashBeforeCheckoutFreesSlot(w: World, p: nat, q: nat)
    requires Inv(w) && p < |w.runs| && q < |w.runs| && p != q
    requires w.runs[p].pc.Locked? || w.runs[p].pc.Verified?
    requires IsFree(w.slots[w.runs[p].pc.rest[0]])
    requires w.runs[q].pc.TryLock? && w.runs[q].pc.rest != [] && w.runs[q].pc.rest[0] == w.runs[p].pc.rest[0]
    requires w.runs[q].branch.Some? ==> w.runs[q].branch.value !in w.refs && w.runs[q].branch.value !in w.elsewhere
    ensures var slot := w.runs[p].pc.rest[0];
      var dead := CrashRun(w, p);
      && dead.slots == w.slots && slot !in dead.locks && slot in w.locks
      && var taken := AdvanceRun(AdvanceRun(AdvanceRun(dead, q, ALL_WELL), q, ALL_WELL), q, ALL_WELL);
      taken.runs[q].pc == CheckedOut(slot)
  {
    var slot := w.runs[p].pc.rest[0];
    assert PcFits(w, w.runs[p].pc) && PcFits(w, w.runs[q].pc);
    assert Holding(w.runs[p].pc) == Some(slot);
    var dead := CrashRun(w, p);
    var w1 := AdvanceRun(dead, q, ALL_WELL);
    assert w1.runs[q].pc.Locked?;
    var w2 := AdvanceRun(w1, q, ALL_WELL);
    assert w2.runs[q].pc.Verified?;
  }
}

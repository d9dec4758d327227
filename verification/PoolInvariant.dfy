/** Every step of the pool keeps its invariant, and so does every interleaving. */
module PoolInvariant {
  import opened Wrappers
  import opened CommitGraph
  import opened PoolProtocol

  lemma {:induction false} NotOccupiedMeansGiven(log: seq<Event>, slot: nat, i: nat)
    requires !Occupied(log, slot) && i < |log| && Takes(log[i], slot)
    ensures exists k :: i < k < |log| && log[k] == Gave(slot)
  {
    var n := |log| - 1;
    if log[n] != Gave(slot) {
      NotOccupiedMeansGiven(log[..n], slot, i);
      var k :| i < k < n && log[..n][k] == Gave(slot);
      assert log[k] == Gave(slot);
    }
  }

  lemma TakingKeepsExclusive(log: seq<Event>, run: nat, slot: nat, named: bool)
    requires Exclusive(log) && !Occupied(log, slot)
    ensures Exclusive(log + [Took(run, slot, named)])
  {
    var next := log + [Took(run, slot, named)];
    forall i, j | 0 <= i < j < |next| && next[i].Took? && next[i].named && next[j].Took? && next[i].slot == next[j].slot
      ensures exists k :: i < k < j && next[k] == Gave(next[i].slot)
    {
      if j == |log| {
        NotOccupiedMeansGiven(log, slot, i);
        var k :| i < k < |log| && log[k] == Gave(slot);
        assert next[k] == Gave(slot);
      } else {
        var k :| i < k < j && log[k] == Gave(log[i].slot);
        assert next[k] == Gave(next[i].slot);
      }
    }
  }

  lemma OtherEventsKeepExclusive(log: seq<Event>, e: Event)
    requires Exclusive(log) && !e.Took?
    ensures Exclusive(log + [e])
  {
    var next := log + [e];
    forall i, j | 0 <= i < j < |next| && next[i].Took? && next[i].named && next[j].Took? && next[i].slot == next[j].slot
      ensures exists k :: i < k < j && next[k] == Gave(next[i].slot)
    {
      var k :| i < k < j && log[k] == Gave(log[i].slot);
      assert next[k] == Gave(next[i].slot);
    }
  }

  lemma OccupiedStep(log: seq<Event>, e: Event, slot: nat)
    ensures Occupied(log + [e], slot) <==> Takes(e, slot) || (e != Gave(slot) && Occupied(log, slot))
  {
    assert (log + [e])[..|log|] == log;
  }

  // ---- every step keeps the invariant ---------------------------------------------------

  lemma PcMoveKeepsInv(w: World, p: nat, pc: Pc)
    requires Inv(w) && p < |w.runs| && PcFits(w, pc) && VerifiedSlotDetached(w, pc)
    requires Holding(pc) == Holding(w.runs[p].pc)
    ensures Inv(SetPc(w, p, pc))
  {
  }

  lemma LockKeepsInv(w: World, p: nat, pc: Pc, slot: nat)
    requires Inv(w) && p < |w.runs| && PcFits(w, pc) && pc.Locked? && pc.rest[0] == slot
    requires Holding(w.runs[p].pc).None? && slot !in w.locks
    ensures Inv(SetPc(w, p, pc).(locks := w.locks[slot := p]))
  {
  }

  lemma UnlockKeepsInv(w: World, p: nat, pc: Pc, slot: nat)
    requires Inv(w) && p < |w.runs| && PcFits(w, pc) && Holding(pc).None? && !pc.Verified?
    requires Holding(w.runs[p].pc) == Some(slot)
    ensures Inv(Unlock(SetPc(w, p, pc), slot))
  {
  }

  lemma DirtyKeepsInv(w: World, slot: nat, dirty: bool)
    requires Inv(w) && slot < |w.slots|
    ensures Inv(w.(slots := w.slots[slot := w.slots[slot].(dirty := dirty)]))
  {
    var w1 := w.(slots := w.slots[slot := w.slots[slot].(dirty := dirty)]);
    assert forall i :: 0 <= i < |w.slots| ==> w1.slots[i].head == w.slots[i].head;
    assert HeadsFit(w1);
  }

  ghost predicate AboutToCheckout(w: World, p: nat, slot: nat) {
    && Inv(w) && p < |w.runs| && w.runs[p].pc.Verified? && w.runs[p].pc.rest[0] == slot
    && (w.runs[p].branch.Some? ==> w.runs[p].branch.value !in w.refs && w.runs[p].branch.value !in w.elsewhere)
  }

  lemma CheckoutKeepsShape(w: World, p: nat, slot: nat)
    requires AboutToCheckout(w, p, slot)
    ensures WellFormed(AfterCheckout(w, p, w.runs[p].pc.base, slot))
  {
    var w1 := AfterCheckout(w, p, w.runs[p].pc.base, slot);
    assert GraphFits(w1);
    assert HeadsFit(w1);
    forall q | 0 <= q < |w1.runs| ensures PcFits(w1, w1.runs[q].pc) {
      assert PcFits(w, w.runs[q].pc);
    }
  }

  lemma CheckoutKeepsLocks(w: World, p: nat, slot: nat)
    requires AboutToCheckout(w, p, slot)
    ensures LocksExact(AfterCheckout(w, p, w.runs[p].pc.base, slot))
    ensures VerifiedDetached(AfterCheckout(w, p, w.runs[p].pc.base, slot))
  {
    var w1 := AfterCheckout(w, p, w.runs[p].pc.base, slot);
    assert Holding(w1.runs[p].pc) == Holding(w.runs[p].pc) == Some(slot);
    assert forall q :: 0 <= q < |w.runs| ==> Holding(w1.runs[q].pc) == Holding(w.runs[q].pc);
    forall q | 0 <= q < |w1.runs| ensures VerifiedSlotDetached(w1, w1.runs[q].pc) {
      assert VerifiedSlotDetached(w, w.runs[q].pc);
      assert q != p ==> Holding(w.runs[q].pc) != Some(slot);
    }
  }

  lemma CheckoutKeepsHistory(w: World, p: nat, slot: nat)
    requires AboutToCheckout(w, p, slot)
    ensures HistoryFits(AfterCheckout(w, p, w.runs[p].pc.base, slot))
  {
    var w1 := AfterCheckout(w, p, w.runs[p].pc.base, slot);
    var named := w.runs[p].branch.Some?;
    assert VerifiedSlotDetached(w, w.runs[p].pc);
    TakingKeepsExclusive(w.log, p, slot, named);
    forall s | 0 <= s < |w1.slots| && Occupied(w1.log, s) ensures w1.slots[s].head.OnBranch? {
      OccupiedStep(w.log, Took(p, slot, named), s);
    }
  }

  lemma CheckoutKeepsInv(w: World, p: nat, io: Io)
    requires Inv(w) && p < |w.runs| && w.runs[p].pc.Verified?
    ensures Inv(AdvanceRun(w, p, io))
  {
    var slot := w.runs[p].pc.rest[0];
    var named := w.runs[p].branch;
    if !io.gitOk || (named.Some? && (named.value in w.refs || named.value in w.elsewhere)) {
      UnlockKeepsInv(w, p, Done(CheckoutFailed), slot);
      DirtyKeepsInv(Unlock(SetPc(w, p, Done(CheckoutFailed)), slot), slot, w.slots[slot].dirty || io.leavesDirty);
    } else {
      assert AdvanceRun(w, p, io) == AfterCheckout(w, p, w.runs[p].pc.base, slot);
      CheckoutKeepsShape(w, p, slot);
      CheckoutKeepsLocks(w, p, slot);
      CheckoutKeepsHistory(w, p, slot);
    }
  }

  lemma EarlyAdvanceKeepsInv(w: World, p: nat, io: Io)
    requires Inv(w) && p < |w.runs| && (w.runs[p].pc.Resolve? || w.runs[p].pc.CheckBranch? || w.runs[p].pc.Scan?)
    ensures Inv(AdvanceRun(w, p, io))
  {
    var next := AdvanceRun(w, p, io);
    var pc := next.runs[p].pc;
    assert next == SetPc(w, p, pc);
    assert PcFits(w, w.runs[p].pc);
    PcMoveKeepsInv(w, p, pc);
  }

  lemma LockingAdvanceKeepsInv(w: World, p: nat, io: Io)
    requires Inv(w) && p < |w.runs| && (w.runs[p].pc.TryLock? || w.runs[p].pc.Locked?)
    ensures Inv(AdvanceRun(w, p, io))
  {
    var base, rest := w.runs[p].pc.base, w.runs[p].pc.rest;
    assert PcFits(w, w.runs[p].pc);
    if w.runs[p].pc.Locked? {
      if io.classifyOk && IsFree(w.slots[rest[0]]) {
        PcMoveKeepsInv(w, p, Verified(base, rest));
      } else {
        UnlockKeepsInv(w, p, TryLock(base, rest[1..]), rest[0]);
      }
    } else if rest == [] {
      PcMoveKeepsInv(w, p, Done(Exhausted));
    } else if !io.openOk || rest[0] in w.locks {
      PcMoveKeepsInv(w, p, TryLock(base, rest[1..]));
    } else {
      LockKeepsInv(w, p, Locked(base, rest), rest[0]);
    }
  }

  lemma AdvanceKeepsInv(w: World, p: nat, io: Io)
    requires Inv(w) && p < |w.runs| && !w.runs[p].pc.Done?
    ensures Inv(AdvanceRun(w, p, io))
  {
    match w.runs[p].pc
    case Resolve => EarlyAdvanceKeepsInv(w, p, io);
    case CheckBranch(_) => EarlyAdvanceKeepsInv(w, p, io);
    case Scan(_, _, _) => EarlyAdvanceKeepsInv(w, p, io);
    case TryLock(_, _) => LockingAdvanceKeepsInv(w, p, io);
    case Locked(_, _) => LockingAdvanceKeepsInv(w, p, io);
    case Verified(_, _) => CheckoutKeepsInv(w, p, io);
    case CheckedOut(slot) => UnlockKeepsInv(w, p, Done(Acquired(slot)), slot);
  }

  /** Any way of giving the slot back: detached at a commit of main's history, nobody's work on record there. */
  lemma GivingBackKeepsInv(w: World, slot: nat, at: Commit, dirty: bool)
    requires Inv(w) && slot < |w.slots| && at < |w.dag|
    ensures Inv(w.(slots := w.slots[slot := Slot(Detached(at), dirty)], log := w.log + [Gave(slot)]))
  {
    var w1 := w.(slots := w.slots[slot := Slot(Detached(at), dirty)], log := w.log + [Gave(slot)]);
    OtherEventsKeepExclusive(w.log, Gave(slot));
    forall s | 0 <= s < |w1.slots| && Occupied(w1.log, s) ensures w1.slots[s].head.OnBranch? {
      OccupiedStep(w.log, Gave(slot), s);
    }
    assert HeadsFit(w1);
    assert PcsFit(w1);
    assert ReleasesFit(w1);
  }

  lemma DroppingKeepsInv(w: World, n: string)
    requires Inv(w) && forall i :: 0 <= i < |w.slots| ==> w.slots[i].head != OnBranch(n)
    ensures Inv(w.(refs := w.refs - {n}))
  {
    var w1 := w.(refs := w.refs - {n});
    assert HeadsFit(w1);
    assert ReleasesFit(w1);
  }

  lemma ReleaseKeepsInv(w: World, slot: nat, deletesBranch: bool)
    requires Inv(w) && slot < |w.slots|
    ensures Inv(ReleaseSlot(w, slot, deletesBranch))
  {
    hide Inv;
    var head := w.slots[slot].head;
    assert w.main < |w.dag| && HeadsFit(w) by { ShapeOf(w); }
    GivingBackKeepsInv(w, slot, w.main, false);
    if head.OnBranch? && deletesBranch {
      var w1 := w.(slots := w.slots[slot := Slot(Detached(w.main), false)], log := w.log + [Gave(slot)]);
      assert forall i :: 0 <= i < |w.slots| && i != slot ==> w.slots[i].head != head;
      DroppingKeepsInv(w1, head.name);
    }
  }

  lemma ShapeOf(w: World)
    requires Inv(w)
    ensures WellFormed(w) && ReleasesFit(w)
  {
  }

  lemma MainBelow(w: World, release: Releasing)
    requires GraphFits(w) && ReleaseFits(w, release) && MainOf(release.pc).Some?
    ensures MainOf(release.pc).value < |w.dag|
    ensures Ancestors(w.dag, MainOf(release.pc).value) <= Ancestors(w.dag, w.main)
  {
    AncestorsTransitive(w.dag, MainOf(release.pc).value, w.main);
  }

  lemma ReleasePcKeepsInv(w: World, r: nat, pc: ReleasePc)
    requires Inv(w) && r < |w.releases| && ReleaseFits(w, w.releases[r].(pc := pc))
    ensures Inv(SetRelease(w, r, pc))
  {
    var w1 := SetRelease(w, r, pc);
    forall q | 0 <= q < |w1.releases| ensures ReleaseFits(w1, w1.releases[q]) {
      assert ReleaseFits(w, w.releases[q]);
    }
  }

  lemma RewindKeepsInv(w: World, n: string, at: Commit)
    requires Inv(w) && n in w.refs && at < |w.dag|
    ensures Inv(w.(refs := w.refs[n := at]))
  {
    var w1 := w.(refs := w.refs[n := at]);
    assert HeadsFit(w1);
    assert ReleasesFit(w1);
  }

  lemma RedetachKeepsInv(w: World, slot: nat, at: Commit)
    requires Inv(w) && slot < |w.slots| && w.slots[slot].head.Detached? && at < |w.dag|
    ensures Inv(w.(slots := w.slots[slot := w.slots[slot].(head := Detached(at))]))
  {
    var w1 := w.(slots := w.slots[slot := w.slots[slot].(head := Detached(at))]);
    assert HeadsFit(w1);
    assert ReleasesFit(w1);
  }

  lemma GateKeepsInv(w: World, r: nat, io: Io)
    requires Inv(w) && CanStep(w, r) && (w.releases[r].pc.Begin? || w.releases[r].pc.CheckTree? || w.releases[r].pc.CheckHead?)
    ensures Inv(AdvanceRelease(w, r, io))
  {
    hide Inv, Ancestors, Ahead;
    ShapeOf(w);
    var release, w1 := w.releases[r], AdvanceRelease(w, r, io);
    assert ReleaseFits(w, release);
    AncestorOfItself(w.dag, w.main);
    var s := w.slots[release.slot];
    if release.pc.CheckHead? && s.head.OnBranch? {
      MainBelow(w, release);
      AheadZeroIffMerged(w.dag, w.refs[s.head.name], release.pc.main);
    }
    assert w1 == SetRelease(w, r, w1.releases[r].pc);
    ReleasePcKeepsInv(w, r, w1.releases[r].pc);
  }

  lemma CommandKeepsInv(w: World, r: nat, io: Io)
    requires Inv(w) && CanStep(w, r) && (w.releases[r].pc.Detach? || w.releases[r].pc.Clean?)
    ensures Inv(AdvanceRelease(w, r, io))
  {
    hide Inv;
    ShapeOf(w);
    var Releasing(slot, force, pc) := w.releases[r];
    assert ReleaseFits(w, w.releases[r]);
    var s, main, seen := w.slots[slot], pc.main, pc.seen;
    if !io.gitOk {
      ReleasePcKeepsInv(w, r, Ended(false));
    } else if pc.Detach? {
      ReleasePcKeepsInv(w, r, Reset(main, seen));
      GivingBackKeepsInv(SetRelease(w, r, Reset(main, seen)), slot, main, s.dirty);
    } else {
      ReleasePcKeepsInv(w, r, DropBranch(main, seen));
      DirtyKeepsInv(SetRelease(w, r, DropBranch(main, seen)), slot, s.dirty && io.leavesDirty);
    }
  }

  lemma ResetKeepsInv(w: World, r: nat, io: Io)
    requires Inv(w) && CanStep(w, r) && w.releases[r].pc.Reset?
    ensures Inv(AdvanceRelease(w, r, io))
  {
    hide Inv;
    ShapeOf(w);
    var Releasing(slot, force, pc) := w.releases[r];
    assert ReleaseFits(w, w.releases[r]);
    var s, main, seen := w.slots[slot], pc.main, pc.seen;
    if !io.gitOk {
      ReleasePcKeepsInv(w, r, Ended(false));
    } else {
      var dirty := s.dirty && io.leavesDirty;
      var w1 := SetRelease(w, r, Clean(main, seen));
      ReleasePcKeepsInv(w, r, Clean(main, seen));
      DirtyKeepsInv(w1, slot, dirty);
      var w2 := w1.(slots := w1.slots[slot := s.(dirty := dirty)]);
      if s.head.OnBranch? {
        RewindKeepsInv(w2, s.head.name, main);
      } else {
        RedetachKeepsInv(w2, slot, main);
        assert w2.slots[slot := w2.slots[slot].(head := Detached(main))] == w.slots[slot := Slot(Detached(main), dirty)];
      }
    }
  }

  lemma AdvanceReleaseKeepsInv(w: World, r: nat, io: Io)
    requires Inv(w) && CanStep(w, r)
    ensures Inv(AdvanceRelease(w, r, io))
  {
    hide Inv;
    ShapeOf(w);
    assert ReleaseFits(w, w.releases[r]);
    match w.releases[r].pc
    case Begin => GateKeepsInv(w, r, io);
    case CheckTree(_) => GateKeepsInv(w, r, io);
    case CheckHead(_) => GateKeepsInv(w, r, io);
    case Detach(_, _) => CommandKeepsInv(w, r, io);
    case Reset(_, _) => ResetKeepsInv(w, r, io);
    case Clean(_, _) => CommandKeepsInv(w, r, io);
    case DropBranch(main, seen) =>
      ReleasePcKeepsInv(w, r, Verify(main));
      if Drops(w, seen, io) {
        DroppingKeepsInv(SetRelease(w, r, Verify(main)), seen.value.name);
      }
    case Verify(main) => ReleasePcKeepsInv(w, r, AdvanceRelease(w, r, io).releases[r].pc);
    case Ended(_) =>
  }

  lemma GrowthKeepsPcs(w: World, w1: World)
    requires PcsFit(w) && w1.runs == w.runs && |w1.slots| == |w.slots| && |w.dag| <= |w1.dag|
    ensures PcsFit(w1)
  {
    forall p | 0 <= p < |w1.runs| ensures PcFits(w1, w1.runs[p].pc) {
      assert PcFits(w, w.runs[p].pc);
    }
  }

  lemma GrowthKeepsReleases(w: World, parents: set<Commit>, w1: World)
    requires GraphFits(w) && GraphFits(w1) && ReleasesFit(w)
    requires w1.dag == w.dag + [parents] && w1.releases == w.releases && |w1.slots| == |w.slots|
    requires w1.main == w.main || (w1.main == |w.dag| && w.main in parents)
    ensures ReleasesFit(w1)
  {
    AncestorsOfPrefix(w.dag, w1.dag, w.main);
    if w1.main != w.main {
      assert w.main in w1.dag[w1.main];
    }
    assert Ancestors(w.dag, w.main) <= Ancestors(w1.dag, w1.main);
    forall r | 0 <= r < |w1.releases| ensures ReleaseFits(w1, w1.releases[r]) {
      assert ReleaseFits(w, w.releases[r]);
    }
  }

  lemma CommitKeepsInv(w: World, slot: nat)
    requires Inv(w) && slot < |w.slots|
    ensures Inv(CommitAt(w, slot))
  {
    var w1 := CommitAt(w, slot);
    GrowthKeepsPcs(w, w1);
    assert HeadsFit(w1);
    assert VerifiedDetached(w1);
    GrowthKeepsReleases(w, {HeadCommit(w, w.slots[slot])}, w1);
    if w.slots[slot].head.OnBranch? {
      OtherEventsKeepExclusive(w.log, Made(|w.dag|));
      forall s | 0 <= s < |w1.slots| && Occupied(w1.log, s) ensures w1.slots[s].head.OnBranch? {
        OccupiedStep(w.log, Made(|w.dag|), s);
      }
    }
  }

  lemma StepKeepsInv(w: World, a: Action)
    requires Inv(w) && Enabled(w, a)
    ensures Inv(Apply(w, a))
  {
    match a
    case Advance(p, io) => AdvanceKeepsInv(w, p, io);
    case Crash(p) =>
      if Holding(w.runs[p].pc).None? {
        PcMoveKeepsInv(w, p, Done(Crashed));
      } else {
        UnlockKeepsInv(w, p, Done(Crashed), Holding(w.runs[p].pc).value);
      }
    case StepRelease(r, io) => AdvanceReleaseKeepsInv(w, r, io);
    case CrashRelease(r) =>
      assert ReleaseFits(w, w.releases[r]);
      ReleasePcKeepsInv(w, r, Ended(false));
    case Edit(slot, dirty) => DirtyKeepsInv(w, slot, dirty);
    case CommitIn(slot) => CommitKeepsInv(w, slot);
    case AdvanceMain(parents) =>
      GrowthKeepsPcs(w, Apply(w, a));
      GrowthKeepsReleases(w, parents, Apply(w, a));
  }

  lemma {:induction false} ExecutionKeepsInv(ws: seq<World>, acts: seq<Action>, n: nat)
    requires Execution(ws, acts) && Inv(ws[0]) && n < |ws|
    ensures Inv(ws[n])
  {
    if n > 0 {
      ExecutionKeepsInv(ws, acts, n - 1);
      StepKeepsInv(ws[n - 1], acts[n - 1]);
    }
  }
}

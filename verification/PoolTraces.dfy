/** What a single acquire or release has done, read off the whole run of the pool it took part in. */
module PoolTraces {
  import opened Wrappers
  import opened CommitGraph
  import opened PoolProtocol
  import opened PoolInvariant
  import opened PoolSafety

  /** No branch, slot or head moved, except that a checkout that failed may have left the slot `but` dirty. */
  ghost predicate HeadsStay(w: World, w1: World) {
    && w1.refs == w.refs && |w1.slots| == |w.slots|
    && forall s :: 0 <= s < |w.slots| ==> w1.slots[s].head == w.slots[s].head
  }

  /** One slot was put at the base, on a new branch if one was named; no other slot or branch moved. */
  ghost predicate PutAt(w: World, w1: World, slot: nat, branch: Option<string>, base: Commit) {
    && |w1.slots| == |w.slots| && slot < |w.slots|
    && w1.slots[slot].dirty == w.slots[slot].dirty
    && (forall s :: 0 <= s < |w.slots| && s != slot ==> w1.slots[s] == w.slots[s])
    && match branch
       case None => w1.slots[slot].head == Detached(base) && w1.refs == w.refs
       case Some(name) =>
         && w1.slots[slot].head == OnBranch(name) && name !in w.refs && name !in w.elsewhere
         && name in w1.refs && w1.refs[name] == base
         && (forall n :: n in w1.refs <==> n == name || n in w.refs)
         && (forall n :: n in w.refs ==> n in w1.refs && w1.refs[n] == w.refs[n])
  }

  /** Nobody but p moves run p, and p never looks at its base or its branch again. */
  lemma OthersLeaveRun(w: World, a: Action, p: nat)
    requires Inv(w) && Enabled(w, a) && p < |w.runs|
    ensures var w1 := Apply(w, a);
            && |w1.runs| == |w.runs| && w1.runs[p] == w.runs[p].(pc := w1.runs[p].pc)
            && ((a.Advance? && a.run == p) || a == Crash(p) || w1.runs[p] == w.runs[p])
            && (a == Crash(p) ==> w1.runs[p].pc == Done(Crashed))
  {
    if a.Advance? {
      assert PcFits(w, w.runs[a.run].pc);
      AdvanceFrame(w, a.run, a.io);
    }
  }

  predicate HasBase(pc: Pc) {
    pc.CheckBranch? || pc.Scan? || pc.TryLock? || pc.Locked? || pc.Verified?
  }

  lemma BaseIsCarried(w: World, p: nat, io: Io)
    requires p < |w.runs| && InBounds(w, w.runs[p].pc)
    ensures var pc, pc1 := w.runs[p].pc, AdvanceRun(w, p, io).runs[p].pc;
            && !pc1.Resolve?
            && (HasBase(pc1) ==>
                  if pc.Resolve? then pc1.base == (if w.runs[p].base.Some? then w.runs[p].base.value else w.main)
                  else HasBase(pc) && pc1.base == pc.base)
  {
    hide BranchInUse, IsFree;
    if w.runs[p].pc.Verified? {
      assert AdvanceRun(w, p, io) == Checkout(w, p, w.runs[p].pc.base, w.runs[p].pc.rest[0], io);
    }
  }

  /** Run `p` makes its first step at `i`. */
  ghost predicate StartsAt(ws: seq<World>, acts: seq<Action>, p: nat, i: nat) {
    && i < |acts| && i < |ws| && acts[i].Advance? && acts[i].run == p
    && forall j :: 0 <= j < i ==> !(acts[j].Advance? && acts[j].run == p)
  }

  /** The commit named by the caller, or main as the run found it. */
  ghost function BaseFoundAt(w: World, base: Option<Commit>): Commit {
    match base
    case Some(c) => c
    case None => w.main
  }

  lemma {:induction false} BaseOfRun(ws: seq<World>, acts: seq<Action>, n: nat, p: nat) returns (first: nat)
    requires Execution(ws, acts) && Initial(ws[0]) && n < |ws| && p < |ws[0].runs|
    ensures Inv(ws[n]) && |ws[n].runs| == |ws[0].runs|
    ensures ws[n].runs[p] == ws[0].runs[p].(pc := ws[n].runs[p].pc)
    ensures ws[n].runs[p].pc.Resolve? ==> forall j :: 0 <= j < n ==> !(acts[j].Advance? && acts[j].run == p)
    ensures HasBase(ws[n].runs[p].pc) ==>
              first < n && StartsAt(ws, acts, p, first)
              && ws[n].runs[p].pc.base == BaseFoundAt(ws[first], ws[0].runs[p].base)
  {
    hide Apply, Inv;
    if n == 0 {
      first := 0;
      assert Inv(ws[0]) by { InitialKeeps(ws[0]); }
    } else {
      first := BaseOfRun(ws, acts, n - 1, p);
      var w, a := ws[n - 1], acts[n - 1];
      StepKeepsInv(w, a);
      OthersLeaveRun(w, a, p);
      if a.Advance? && a.run == p {
        ApplyAdvance(w, a);
        BaseIsCarried(w, p, a.io);
        if w.runs[p].pc.Resolve? {
          first := n - 1;
        }
      }
    }
  }

  lemma InitialKeeps(w: World)
    requires Initial(w)
    ensures Inv(w)
  {
  }

  lemma ApplyAdvance(w: World, a: Action)
    requires Inv(w) && Enabled(w, a) && a.Advance?
    ensures Apply(w, a) == AdvanceRun(w, a.run, a.io)
    ensures a.run < |w.runs| && InBounds(w, w.runs[a.run].pc) && !w.runs[a.run].pc.Done?
  {
  }

  /** Found detached and clean at step `looked`, under the lock that the run has kept since. */
  ghost predicate LookedAt(ws: seq<World>, acts: seq<Action>, p: nat, slot: nat, looked: nat, n: nat) {
    && looked < n < |ws| && n <= |acts| && acts[looked].Advance? && acts[looked].run == p
    && slot < |ws[looked].slots| && ws[looked].slots[slot].head.Detached? && !ws[looked].slots[slot].dirty
    && forall j :: looked <= j <= n ==> slot in ws[j].locks && ws[j].locks[slot] == p
  }

  lemma LookStep(w: World, p: nat, io: Io)
    requires p < |w.runs| && InBounds(w, w.runs[p].pc) && !w.runs[p].pc.Done?
    requires AdvanceRun(w, p, io).runs[p].pc.Verified?
    ensures w.runs[p].pc.Locked? && w.runs[p].pc.rest == AdvanceRun(w, p, io).runs[p].pc.rest
    ensures var slot := w.runs[p].pc.rest[0]; w.slots[slot].head.Detached? && !w.slots[slot].dirty
  {
  }

  lemma HolderIsLocked(w: World, p: nat)
    requires Inv(w) && p < |w.runs| && (w.runs[p].pc.Locked? || w.runs[p].pc.Verified?)
    ensures w.runs[p].pc.rest != [] && w.runs[p].pc.rest[0] < |w.slots|
    ensures var slot := w.runs[p].pc.rest[0]; slot in w.locks && w.locks[slot] == p
  {
    assert PcFits(w, w.runs[p].pc);
    assert Holding(w.runs[p].pc) == Some(w.runs[p].pc.rest[0]);
  }

  lemma {:induction false} SlotOfRun(ws: seq<World>, acts: seq<Action>, n: nat, p: nat) returns (looked: nat)
    requires Execution(ws, acts) && Initial(ws[0]) && n < |ws| && p < |ws[0].runs|
    ensures Inv(ws[n]) && |ws[n].runs| == |ws[0].runs|
    ensures ws[n].runs[p].pc.Verified? ==>
              ws[n].runs[p].pc.rest != [] && LookedAt(ws, acts, p, ws[n].runs[p].pc.rest[0], looked, n)
  {
    hide Apply, Inv;
    if n == 0 {
      looked := 0;
      InitialKeeps(ws[0]);
    } else {
      looked := SlotOfRun(ws, acts, n - 1, p);
      var w, a := ws[n - 1], acts[n - 1];
      StepKeepsInv(w, a);
      OthersLeaveRun(w, a, p);
      if ws[n].runs[p].pc.Verified? {
        HolderIsLocked(ws[n], p);
        if a.Advance? && a.run == p {
          ApplyAdvance(w, a);
          LookStep(w, p, a.io);
          HolderIsLocked(w, p);
          looked := n - 1;
        }
      }
    }
  }

  lemma CheckoutStep(w: World, p: nat, io: Io, slot: nat)
    requires Inv(w) && p < |w.runs| && InBounds(w, w.runs[p].pc)
    requires w.runs[p].pc != CheckedOut(slot) && AdvanceRun(w, p, io).runs[p].pc == CheckedOut(slot)
    ensures w.runs[p].pc.Verified? && w.runs[p].pc.rest[0] == slot
    ensures PutAt(w, AdvanceRun(w, p, io), slot, w.runs[p].branch, w.runs[p].pc.base)
  {
    assert w.runs[p].pc.Verified?;
    assert AdvanceRun(w, p, io) == Checkout(w, p, w.runs[p].pc.base, slot, io);
  }

  /**
   * Over every execution: the step by which a run gets its slot puts that slot at the base found in the run's first
   * step, on the branch it was asked for, and moves nothing else. The run had found the slot detached and clean under
   * a lock it still has.
   */
  lemma AcquiredSlotStandsAtBase(ws: seq<World>, acts: seq<Action>, n: nat, p: nat, slot: nat)
    returns (first: nat, looked: nat)
    requires Execution(ws, acts) && Initial(ws[0]) && n < |acts| && p < |ws[0].runs|
    requires p < |ws[n].runs| && ws[n].runs[p].pc != CheckedOut(slot)
    requires p < |ws[n + 1].runs| && ws[n + 1].runs[p].pc == CheckedOut(slot)
    ensures StartsAt(ws, acts, p, first) && first < n
    ensures PutAt(ws[n], ws[n + 1], slot, ws[0].runs[p].branch, BaseFoundAt(ws[first], ws[0].runs[p].base))
    ensures BaseFoundAt(ws[first], ws[0].runs[p].base) < |ws[n + 1].dag|
    ensures Inv(ws[n + 1]) && slot < |ws[n + 1].slots|
    ensures HeadCommit(ws[n + 1], ws[n + 1].slots[slot]) == BaseFoundAt(ws[first], ws[0].runs[p].base)
    ensures LookedAt(ws, acts, p, slot, looked, n)
  {
    hide Apply, Inv;
    first := BaseOfRun(ws, acts, n, p);
    looked := SlotOfRun(ws, acts, n, p);
    var w, a := ws[n], acts[n];
    OthersLeaveRun(w, a, p);
    ApplyAdvance(w, a);
    CheckoutStep(w, p, a.io, slot);
    StepKeepsInv(w, a);
    assert PcFits(w, w.runs[p].pc) && w.dag == ws[n + 1].dag by {
      ShapeOf(w);
      AdvanceFrame(w, p, a.io);
    }
  }

  lemma NoCheckoutMovesNothing(w: World, p: nat, io: Io)
    requires p < |w.runs| && InBounds(w, w.runs[p].pc)
    ensures !AdvanceRun(w, p, io).runs[p].pc.CheckedOut? ==> HeadsStay(w, AdvanceRun(w, p, io)) || w.runs[p].pc.CheckedOut?
    ensures w.runs[p].pc.CheckedOut? ==> HeadsStay(w, AdvanceRun(w, p, io))
  {
    hide BranchInUse, IsFree;
    if w.runs[p].pc.Verified? {
      assert AdvanceRun(w, p, io) == Checkout(w, p, w.runs[p].pc.base, w.runs[p].pc.rest[0], io);
    }
  }

  lemma ReadingOutcome(w: World, p: nat, io: Io)
    requires p < |w.runs| && InBounds(w, w.runs[p].pc)
    requires w.runs[p].pc.Resolve? || w.runs[p].pc.CheckBranch? || w.runs[p].pc.Scan?
    ensures var r, pc1 := w.runs[p], AdvanceRun(w, p, io).runs[p].pc;
            && (pc1 == Done(BadBase) <==> r.pc.Resolve? && r.base.Some? && r.base.value >= |w.dag|)
            && (pc1 == Done(BranchBusy) <==> r.pc.CheckBranch? && r.branch.Some? && BranchInUse(w, r.branch.value))
            && !pc1.CheckedOut? && (pc1.Done? ==> pc1.outcome in {BadBase, BranchBusy, Exhausted})
  {
    hide IsFree, BranchInUse;
  }

  lemma LockingOutcome(w: World, p: nat, io: Io)
    requires p < |w.runs| && InBounds(w, w.runs[p].pc)
    requires w.runs[p].pc.TryLock? || w.runs[p].pc.Locked? || w.runs[p].pc.CheckedOut?
    ensures var pc, pc1 := w.runs[p].pc, AdvanceRun(w, p, io).runs[p].pc;
            if pc.CheckedOut? then pc1 == Done(Acquired(pc.slot))
            else !pc1.CheckedOut? && (pc1.Done? ==> pc1.outcome == Exhausted)
  {
    hide IsFree;
  }

  /** How an acquire ends, and that short of a checkout it moves no head and no branch. */
  lemma AcquireStepExactly(w: World, p: nat, io: Io)
    requires Inv(w) && p < |w.runs| && !w.runs[p].pc.Done?
    ensures |AdvanceRun(w, p, io).runs| == |w.runs| && InBounds(w, w.runs[p].pc)
    ensures !AdvanceRun(w, p, io).runs[p].pc.CheckedOut? ==> HeadsStay(w, AdvanceRun(w, p, io))
    ensures var r, pc1 := w.runs[p], AdvanceRun(w, p, io).runs[p].pc;
            && (pc1 == Done(BadBase) <==> r.pc.Resolve? && r.base.Some? && r.base.value >= |w.dag|)
            && (pc1 == Done(BranchBusy) <==>
                  r.pc.CheckBranch? && r.branch.Some?
                  && (r.branch.value in w.elsewhere
                      || exists s :: 0 <= s < |w.slots| && w.slots[s].head == OnBranch(r.branch.value)))
            && (pc1.CheckedOut? <==>
                  r.pc.Verified? && io.gitOk
                  && (r.branch.Some? ==> r.branch.value !in w.refs && r.branch.value !in w.elsewhere))
            && (pc1 == Done(CheckoutFailed) <==> r.pc.Verified? && !pc1.CheckedOut?)
            && (forall s :: pc1 == Done(Acquired(s)) <==> r.pc == CheckedOut(s))
            && pc1 != Done(Crashed)
  {
    assert PcFits(w, w.runs[p].pc);
    if w.runs[p].pc.Verified? {
      assert AdvanceRun(w, p, io) == Checkout(w, p, w.runs[p].pc.base, w.runs[p].pc.rest[0], io);
      NoCheckoutMovesNothing(w, p, io);
    } else {
      hide AdvanceRun, Inv, HeadsStay;
      AdvanceFrame(w, p, io);
      if w.runs[p].pc.TryLock? || w.runs[p].pc.Locked? || w.runs[p].pc.CheckedOut? {
        LockingOutcome(w, p, io);
      } else {
        ReadingOutcome(w, p, io);
      }
      NoCheckoutMovesNothing(w, p, io);
    }
  }

  // ---- why an acquire gives up ----------------------------------------------------------

  /** The run looked at the slot and could not use it, or could not get its lock. */
  ghost predicate PassesOver(w: World, a: Action, p: nat, s: nat) {
    && a.Advance? && a.run == p && p < |w.runs| && s < |w.slots|
    && match w.runs[p].pc
       case Scan(_, next, _) => next == s && (!a.io.classifyOk || w.slots[s].head.OnBranch? || w.slots[s].dirty)
       case Locked(_, rest) =>
         rest != [] && rest[0] == s && (!a.io.classifyOk || w.slots[s].head.OnBranch? || w.slots[s].dirty)
       case TryLock(_, rest) => rest != [] && rest[0] == s && (!a.io.openOk || s in w.locks)
       case _ => false
  }

  ghost predicate PassedOver(ws: seq<World>, acts: seq<Action>, n: nat, p: nat, s: nat) {
    exists j :: 0 <= j < n && j < |acts| && j < |ws| && PassesOver(ws[j], acts[j], p, s)
  }

  /** The slots a run in search of one still has on its list, or has yet to look at. */
  predicate Listed(pc: Pc, s: nat) {
    match pc
    case Scan(_, next, free) => s in free || next <= s
    case TryLock(_, rest) => s in rest
    case Locked(_, rest) => s in rest
    case Verified(_, rest) => s in rest
    case Done(Exhausted) => false
    case _ => true
  }

  lemma ListShrinks(w: World, p: nat, io: Io, s: nat)
    requires p < |w.runs| && InBounds(w, w.runs[p].pc) && s < |w.slots| && !w.runs[p].pc.Done?
    ensures !Listed(AdvanceRun(w, p, io).runs[p].pc, s) ==>
              !Listed(w.runs[p].pc, s) || PassesOver(w, Advance(p, io), p, s)
  {
    var pc := w.runs[p].pc;
    if (pc.TryLock? || pc.Locked?) && pc.rest != [] {
      assert s in pc.rest ==> s == pc.rest[0] || s in pc.rest[1..];
    } else if pc.Verified? {
      assert AdvanceRun(w, p, io) == Checkout(w, p, pc.base, pc.rest[0], io);
    }
  }

  /** Over every execution, a run reports exhaustion only after it has passed over each slot for one of these reasons. */
  lemma {:induction false} ExhaustedHasReasons(ws: seq<World>, acts: seq<Action>, n: nat, p: nat, s: nat)
    requires Execution(ws, acts) && Initial(ws[0]) && n < |ws| && p < |ws[0].runs| && s < |ws[0].slots|
    ensures Inv(ws[n]) && |ws[n].runs| == |ws[0].runs| && |ws[n].slots| == |ws[0].slots|
    ensures ws[n].runs[p].pc == Done(Exhausted) ==> PassedOver(ws, acts, n, p, s)
    ensures !Listed(ws[n].runs[p].pc, s) ==> PassedOver(ws, acts, n, p, s)
  {
    hide Apply, Inv, PassesOver;
    if n == 0 {
      InitialKeeps(ws[0]);
    } else {
      ExhaustedHasReasons(ws, acts, n - 1, p, s);
      var w, a := ws[n - 1], acts[n - 1];
      StepKeepsInv(w, a);
      OthersLeaveRun(w, a, p);
      SlotsStay(w, a);
      if a.Advance? && a.run == p {
        ApplyAdvance(w, a);
        ListShrinks(w, p, a.io, s);
      }
    }
  }

  lemma SlotsStay(w: World, a: Action)
    requires Inv(w) && Enabled(w, a)
    ensures |Apply(w, a).slots| == |w.slots| && |Apply(w, a).releases| == |w.releases|
  {
    if a.Advance? {
      AdvanceKeepsSlots(w, a.run, a.io);
    }
  }

  lemma AdvanceKeepsSlots(w: World, p: nat, io: Io)
    requires p < |w.runs| && InBounds(w, w.runs[p].pc)
    ensures |AdvanceRun(w, p, io).slots| == |w.slots| && AdvanceRun(w, p, io).releases == w.releases
  {
  }

  // ---- what a release has seen ----------------------------------------------------------

  lemma ReleaseMovesOnlyItself(w: World, r: nat, io: Io)
    requires CanStep(w, r)
    ensures var w1 := AdvanceRelease(w, r, io);
            |w1.releases| == |w.releases| && w1.releases == w.releases[r := w.releases[r].(pc := w1.releases[r].pc)]
  {
    hide Ancestors, Ahead, Unmerged, Drops;
    var w1 := AdvanceRelease(w, r, io);
    assert w1.releases == SetRelease(w, r, w1.releases[r].pc).releases;
  }

  lemma OthersLeaveRelease(w: World, a: Action, r: nat)
    requires Inv(w) && Enabled(w, a) && r < |w.releases|
    ensures var w1 := Apply(w, a);
            && |w1.releases| == |w.releases| && w1.releases[r] == w.releases[r].(pc := w1.releases[r].pc)
            && ((a.StepRelease? && a.release == r) || w1.releases[r] == w.releases[r]
                || w1.releases[r].pc == Ended(false))
  {
    hide AdvanceRun, AdvanceRelease;
    if a.Advance? {
      AdvanceKeepsSlots(w, a.run, a.io);
    } else if a.StepRelease? {
      ReleaseMovesOnlyItself(w, a.release, a.io);
    }
  }

  ghost predicate Steps(acts: seq<Action>, r: nat, i: nat) {
    i < |acts| && acts[i].StepRelease? && acts[i].release == r
  }

  /** The release found the tree clean. */
  ghost predicate TreeSeenClean(ws: seq<World>, acts: seq<Action>, r: nat, slot: nat, i: nat) {
    && Steps(acts, r, i) && i < |ws| && slot < |ws[i].slots| && !ws[i].slots[slot].dirty
  }

  /** The release found the slot detached, or on a branch that the main it had resolved holds. */
  ghost predicate HeadSeenMerged(ws: seq<World>, acts: seq<Action>, r: nat, slot: nat, main: Commit, i: nat) {
    && Steps(acts, r, i) && i < |ws| && slot < |ws[i].slots| && GraphFits(ws[i]) && main < |ws[i].dag|
    && match ws[i].slots[slot].head
       case Detached(_) => true
       case OnBranch(n) => n in ws[i].refs && ws[i].refs[n] in Ancestors(ws[i].dag, main)
  }

  predicate PastTree(pc: ReleasePc) {
    pc.CheckHead? || PastHead(pc)
  }

  predicate PastHead(pc: ReleasePc) {
    pc.Detach? || pc.Reset? || pc.Clean? || pc.DropBranch? || pc.Verify?
  }

  /** A gate is passed exactly in the cases stated; it moves no slot and no branch. */
  lemma GateStepExactly(w: World, r: nat, io: Io)
    requires Inv(w) && CanStep(w, r) && (w.releases[r].pc.Begin? || w.releases[r].pc.CheckTree? || w.releases[r].pc.CheckHead?)
    ensures var w1 := AdvanceRelease(w, r, io);
            && |w1.releases| == |w.releases| && w1.slots == w.slots && w1.refs == w.refs
            && var Releasing(slot, force, pc), pc1, s := w.releases[r], w1.releases[r].pc, w.slots[w.releases[r].slot];
               match pc
               case Begin => pc1 == CheckTree(w.main)
               case CheckTree(main) =>
                 pc1 == if !io.classifyOk || (!force && s.dirty) then Ended(false) else CheckHead(main)
               case CheckHead(main) =>
                 if !force && s.head.OnBranch? && w.refs[s.head.name] !in Ancestors(w.dag, main) then pc1 == Ended(false)
                 else pc1.Detach? && pc1.main == main
               case _ => true
  {
    var pc, s := w.releases[r].pc, w.slots[w.releases[r].slot];
    if pc.CheckHead? && s.head.OnBranch? {
      AheadZeroIffMerged(w.dag, w.refs[s.head.name], pc.main);
      AncestorOfItself(w.dag, pc.main);
    }
  }

  /** Past its gates a release keeps its main, and it ends well exactly on a clean slot detached there. */
  lemma LateReleaseStepExactly(w: World, r: nat, io: Io)
    requires CanStep(w, r) && PastHead(w.releases[r].pc)
    ensures var w1 := AdvanceRelease(w, r, io);
            && |w1.releases| == |w.releases|
            && var pc, pc1, s := w.releases[r].pc, w1.releases[r].pc, w.slots[w.releases[r].slot];
               && (pc1 == Ended(true) <==> pc.Verify? && io.classifyOk && s.head == Detached(pc.main) && !s.dirty)
               && (pc1.Ended? || (PastHead(pc1) && pc1.main == pc.main))
  {
    hide Ancestors, Ahead, Unmerged, Drops;
  }

  ghost predicate OtherSlotsStay(w: World, w1: World, slot: nat) {
    |w1.slots| == |w.slots| && slot < |w.slots| && forall s :: 0 <= s < |w.slots| && s != slot ==> w1.slots[s] == w.slots[s]
  }

  /** Every branch but possibly the one the slot is on is where it was. */
  ghost predicate OtherBranchesStay(w: World, w1: World, head: Head) {
    && (forall n :: n in w1.refs <==> n in w.refs)
    && (forall n :: n in w.refs && head != OnBranch(n) ==> n in w1.refs && w1.refs[n] == w.refs[n])
  }

  /**
   * After a detach or a reset that goes through, the slot stands at the main of the release, whatever it was on; the
   * reset takes along the branch it finds the slot on and leaves every other. A clean moves no head and no branch.
   */
  lemma CommandStepExactly(w: World, r: nat, io: Io)
    requires Inv(w) && CanStep(w, r) && (w.releases[r].pc.Detach? || w.releases[r].pc.Reset? || w.releases[r].pc.Clean?)
    ensures var w1, Releasing(slot, _, pc) := AdvanceRelease(w, r, io), w.releases[r];
            var s := w.slots[slot];
            && OtherSlotsStay(w, w1, slot)
            && (!io.gitOk ==> w1.slots == w.slots && w1.refs == w.refs)
            && (io.gitOk && pc.Detach? ==>
                  w1.refs == w.refs && w1.slots[slot] == Slot(Detached(pc.main), s.dirty))
            && (io.gitOk && pc.Reset? ==>
                  && OtherBranchesStay(w, w1, s.head) && w1.slots[slot].dirty == (s.dirty && io.leavesDirty)
                  && match s.head
                     case Detached(_) => w1.slots[slot].head == Detached(pc.main)
                     case OnBranch(n) => w1.slots[slot].head == s.head && n in w1.refs && w1.refs[n] == pc.main)
            && (io.gitOk && pc.Clean? ==>
                  w1.refs == w.refs && w1.slots[slot] == Slot(s.head, s.dirty && io.leavesDirty))
  {
    hide Ancestors, Ahead, Unmerged, Drops, Inv;
    ShapeOf(w);
  }

  /** The last command deletes at most the branch the gate saw, and only if it is checked out nowhere. */
  lemma DropStepExactly(w: World, r: nat, io: Io)
    requires CanStep(w, r) && w.releases[r].pc.DropBranch?
    ensures var w1, seen := AdvanceRelease(w, r, io), w.releases[r].pc.seen;
            && w1.slots == w.slots
            && (forall n :: n in w1.refs ==> n in w.refs && w1.refs[n] == w.refs[n])
            && (forall n :: n in w.refs && n !in w1.refs <==>
                  seen.Some? && n == seen.value.name && n in w.refs && io.gitOk && n !in w.elsewhere
                  && forall s :: 0 <= s < |w.slots| ==> w.slots[s].head != OnBranch(n))
  {
  }

  lemma FailedCommandMovesNothing(w: World, r: nat, io: Io)
    requires CanStep(w, r) && (w.releases[r].pc.Detach? || w.releases[r].pc.Reset? || w.releases[r].pc.Clean?)
    ensures var w1 := AdvanceRelease(w, r, io);
            |w1.releases| == |w.releases| && (w1.releases[r].pc.Ended? ==> w1.slots == w.slots && w1.refs == w.refs)
  {
    hide Ancestors, Ahead, Unmerged, Drops;
  }

  /** The step in which a release ends, well or not, touches no slot and no branch. */
  lemma EndingMovesNothing(w: World, r: nat, io: Io)
    requires CanStep(w, r)
    ensures var w1 := AdvanceRelease(w, r, io);
            |w1.releases| == |w.releases| && (w1.releases[r].pc.Ended? ==> w1.slots == w.slots && w1.refs == w.refs)
  {
    hide Ancestors, Ahead, Unmerged, Drops;
    var pc := w.releases[r].pc;
    if pc.Detach? || pc.Reset? || pc.Clean? {
      hide AdvanceRelease;
      FailedCommandMovesNothing(w, r, io);
    }
  }

  /** What a release that has got this far has behind it. */
  ghost predicate GatesPassed(ws: seq<World>, acts: seq<Action>, n: nat, r: nat, slot: nat, begun: nat, tree: nat, head: nat)
    requires n < |ws| && r < |ws[n].releases|
  {
    var Releasing(_, force, pc) := ws[n].releases[r];
    && (MainOf(pc).Some? ==>
          begun < n && Steps(acts, r, begun) && (forall j :: 0 <= j < begun ==> !Steps(acts, r, j))
          && MainOf(pc).value == ws[begun].main)
    && (pc.Begin? ==> forall j :: 0 <= j < n ==> !Steps(acts, r, j))
    && (!force && PastTree(pc) ==> begun < tree < n && TreeSeenClean(ws, acts, r, slot, tree))
    && (!force && PastHead(pc) ==> tree < head < n && HeadSeenMerged(ws, acts, r, slot, pc.main, head))
  }

  lemma {:induction false} GatesOfRelease(ws: seq<World>, acts: seq<Action>, n: nat, r: nat)
    returns (begun: nat, tree: nat, head: nat)
    requires Execution(ws, acts) && Initial(ws[0]) && n < |ws| && r < |ws[0].releases|
    ensures Inv(ws[n]) && |ws[n].releases| == |ws[0].releases|
    ensures ws[n].releases[r] == ws[0].releases[r].(pc := ws[n].releases[r].pc)
    ensures GatesPassed(ws, acts, n, r, ws[0].releases[r].slot, begun, tree, head)
  {
    hide Apply, Inv, GatesPassed;
    if n == 0 {
      InitialKeeps(ws[0]);
      NoGateYet(ws, acts, r);
      begun, tree, head := 0, 0, 0;
    } else {
      begun, tree, head := GatesOfRelease(ws, acts, n - 1, r);
      var w, a := ws[n - 1], acts[n - 1];
      StepKeepsInv(w, a);
      OthersLeaveRelease(w, a, r);
      if a.StepRelease? && a.release == r {
        begun, tree, head := GateIsNoted(ws, acts, n, r, begun, tree, head);
      } else {
        GatesStayPassed(ws, acts, n, r, ws[0].releases[r].slot, begun, tree, head);
      }
    }
  }

  lemma NoGateYet(ws: seq<World>, acts: seq<Action>, r: nat)
    requires |ws| > 0 && Initial(ws[0]) && r < |ws[0].releases|
    ensures GatesPassed(ws, acts, 0, r, ws[0].releases[r].slot, 0, 0, 0)
  {
  }

  lemma GatesStayPassed(ws: seq<World>, acts: seq<Action>, n: nat, r: nat, slot: nat, begun: nat, tree: nat, head: nat)
    requires 0 < n < |ws| && n <= |acts| && r < |ws[n - 1].releases| && r < |ws[n].releases| && !Steps(acts, r, n - 1)
    requires ws[n].releases[r] == ws[n - 1].releases[r] || ws[n].releases[r].pc == Ended(false)
    requires ws[n].releases[r].force == ws[n - 1].releases[r].force
    requires GatesPassed(ws, acts, n - 1, r, slot, begun, tree, head)
    ensures GatesPassed(ws, acts, n, r, slot, begun, tree, head)
  {
    hide HeadSeenMerged, TreeSeenClean;
  }

  lemma GateIsNoted(ws: seq<World>, acts: seq<Action>, n: nat, r: nat, begun: nat, tree: nat, head: nat)
    returns (begun1: nat, tree1: nat, head1: nat)
    requires 0 < n < |ws| && n <= |acts| && Inv(ws[n - 1]) && Enabled(ws[n - 1], acts[n - 1])
    requires ws[n] == Apply(ws[n - 1], acts[n - 1]) && Steps(acts, r, n - 1)
    requires r < |ws[n - 1].releases| && r < |ws[n].releases|
    requires ws[n].releases[r] == ws[n - 1].releases[r].(pc := ws[n].releases[r].pc)
    requires GatesPassed(ws, acts, n - 1, r, ws[n - 1].releases[r].slot, begun, tree, head)
    ensures GatesPassed(ws, acts, n, r, ws[n - 1].releases[r].slot, begun1, tree1, head1)
  {
    hide Inv, Apply, Enabled, AdvanceRelease, Ancestors, GraphFits;
    var w, a := ws[n - 1], acts[n - 1];
    begun1, tree1, head1 := begun, tree, head;
    ApplyRelease(w, a);
    if PastHead(w.releases[r].pc) {
      LateReleaseStepExactly(w, r, a.io);
    } else {
      GateStepExactly(w, r, a.io);
      GraphOf(w, r);
      match w.releases[r].pc
      case Begin => begun1 := n - 1;
      case CheckTree(_) => tree1 := n - 1;
      case CheckHead(_) => head1 := n - 1;
    }
  }

  lemma GraphOf(w: World, r: nat)
    requires Inv(w) && CanStep(w, r)
    ensures GraphFits(w) && (MainOf(w.releases[r].pc).Some? ==> MainOf(w.releases[r].pc).value < |w.dag|)
  {
  }

  lemma ApplyRelease(w: World, a: Action)
    requires Inv(w) && Enabled(w, a) && a.StepRelease?
    ensures CanStep(w, a.release) && !w.releases[a.release].pc.Ended? && Apply(w, a) == AdvanceRelease(w, a.release, a.io)
  {
  }

  /**
   * Over every execution: a release that reports success leaves its slot clean and detached at the main of its first
   * step; if unforced it had found the tree clean, and then the slot detached or its branch held by that main.
   */
  lemma ReleasedSlotIsCleanAtMain(ws: seq<World>, acts: seq<Action>, n: nat, r: nat)
    returns (begun: nat, tree: nat, head: nat)
    requires Execution(ws, acts) && Initial(ws[0]) && n < |acts| && r < |ws[0].releases|
    requires r < |ws[n].releases| && ws[n].releases[r].pc != Ended(true)
    requires r < |ws[n + 1].releases| && ws[n + 1].releases[r].pc == Ended(true)
    ensures begun < n && Steps(acts, r, begun) && forall j :: 0 <= j < begun ==> !Steps(acts, r, j)
    ensures ws[0].releases[r].slot < |ws[n + 1].slots|
    ensures ws[n + 1].slots[ws[0].releases[r].slot] == Slot(Detached(ws[begun].main), false)
    ensures !ws[0].releases[r].force ==>
              && begun < tree < head < n
              && TreeSeenClean(ws, acts, r, ws[0].releases[r].slot, tree)
              && HeadSeenMerged(ws, acts, r, ws[0].releases[r].slot, ws[begun].main, head)
  {
    hide Apply, Inv, Ancestors;
    begun, tree, head := GatesOfRelease(ws, acts, n, r);
    var w, a := ws[n], acts[n];
    OthersLeaveRelease(w, a, r);
    ShapeOf(w);
    ApplyRelease(w, a);
    if PastHead(w.releases[r].pc) {
      LateReleaseStepExactly(w, r, a.io);
    } else {
      GateStepExactly(w, r, a.io);
    }
    EndingMovesNothing(w, r, a.io);
  }
}

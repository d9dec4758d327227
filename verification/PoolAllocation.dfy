/** How many acquires succeed, and which slot a lone acquire gets. */
module PoolAllocation {
  import opened Wrappers
  import opened CommitGraph
  import opened Sets
  import opened PoolProtocol
  import opened PoolInvariant
  import opened PoolSafety
  import opened PoolTraces

  // ---- exact allocation under contention ------------------------------------------------

  ghost function FreeSlots(w: World): set<nat> {
    set s | 0 <= s < |w.slots| && w.slots[s].head.Detached? && !w.slots[s].dirty
  }

  ghost function Winners(w: World): set<nat> {
    set p | 0 <= p < |w.runs| && Won(w.runs[p].pc).Some?
  }

  ghost function Filled(w: World, pool: set<nat>): set<nat> {
    set s | s in pool && s < |w.slots| && w.slots[s].head.OnBranch?
  }

  /** On a branch already, or locked by a run that is going to put it on one. */
  predicate Claimed(w: World, s: nat) {
    s < |w.slots| && (w.slots[s].head.OnBranch? || s in w.locks)
  }

  /** Named runs with distinct new branch names and usable bases. */
  ghost predicate FreshRequests(w: World) {
    && (forall p :: 0 <= p < |w.runs| ==>
          w.runs[p].branch.Some? && (w.runs[p].base.Some? ==> w.runs[p].base.value < |w.dag|))
    && (forall p, q :: 0 <= p < q < |w.runs| ==> w.runs[p].branch != w.runs[q].branch)
    && (forall p :: 0 <= p < |w.runs| && Won(w.runs[p].pc).None? ==>
          w.runs[p].branch.value !in w.refs && w.runs[p].branch.value !in w.elsewhere)
  }

  /** A slot of the pool that the run no longer has on its list is claimed. */
  ghost predicate Covers(w: World, pool: set<nat>, pc: Pc) {
    match pc
    case Scan(_, next, free) => forall s :: s in pool && s < next ==> s in free || Claimed(w, s)
    case TryLock(_, rest) => forall s :: s in pool ==> s in rest || Claimed(w, s)
    case Locked(_, rest) => forall s :: s in pool ==> s in rest || Claimed(w, s)
    case Verified(_, rest) =>
      (rest != [] ==> rest[0] in pool) && forall s :: s in pool ==> s in rest || Claimed(w, s)
    case CheckedOut(s) => s in pool
    case Done(Acquired(s)) => s in pool
    case Done(Exhausted) => forall s :: s in pool ==> Claimed(w, s)
    case Done(_) => false
    case _ => true
  }

  /** A winner's slot carries the winner's branch. */
  ghost predicate SlotsMatch(w: World) {
    forall p :: 0 <= p < |w.runs| && Won(w.runs[p].pc).Some? ==>
      var s := Won(w.runs[p].pc).value;
      s < |w.slots| && w.slots[s].head.OnBranch? && Some(w.slots[s].head.name) == w.runs[p].branch
  }

  ghost predicate PoolSlots(w: World, pool: set<nat>) {
    && (forall s :: 0 <= s < |w.slots| && IsFree(w.slots[s]) ==> s in pool)
    && (forall s :: s in pool ==> s < |w.slots| && !w.slots[s].dirty)
  }

  ghost predicate AllocInv(w: World, pool: set<nat>) {
    && Inv(w) && FreshRequests(w) && PoolSlots(w, pool) && SlotsMatch(w)
    && (forall p :: 0 <= p < |w.runs| ==> Covers(w, pool, w.runs[p].pc))
    && |Winners(w)| == |Filled(w, pool)|
  }

  /** A step that claims more and frees nothing keeps everyone's coverage. */
  lemma ClaimsGrow(w: World, w1: World, pool: set<nat>, pc: Pc)
    requires Covers(w, pool, pc) && forall s :: s in pool && Claimed(w, s) ==> Claimed(w1, s)
    ensures Covers(w1, pool, pc)
  {
  }

  ghost predicate SameSlots(w: World, w1: World, p: nat)
    requires p < |w.runs|
  {
    && OnlyRunChanges(w, w1, p) && w1.slots == w.slots && w1.refs == w.refs
    && Won(w1.runs[p].pc) == Won(w.runs[p].pc)
  }

  lemma QuietStep(w: World, w1: World, pool: set<nat>, p: nat)
    requires AllocInv(w, pool) && p < |w.runs| && Inv(w1) && SameSlots(w, w1, p)
    requires forall s :: s in pool && Claimed(w, s) ==> Claimed(w1, s)
    requires Covers(w1, pool, w1.runs[p].pc)
    ensures AllocInv(w1, pool)
  {
    forall q | 0 <= q < |w1.runs| ensures Covers(w1, pool, w1.runs[q].pc) {
      if q != p {
        ClaimsGrow(w, w1, pool, w.runs[q].pc);
      }
    }
    assert Winners(w1) == Winners(w);
    assert Filled(w1, pool) == Filled(w, pool);
    assert FreshRequests(w1);
    assert SlotsMatch(w1);
  }

  lemma FreshNameNotInUse(w: World, p: nat)
    requires Inv(w) && FreshRequests(w) && p < |w.runs| && Won(w.runs[p].pc).None?
    ensures !BranchInUse(w, w.runs[p].branch.value)
  {
    var name := w.runs[p].branch.value;
    forall i | 0 <= i < |w.slots| ensures w.slots[i].head != OnBranch(name) {
      assert w.slots[i].head.OnBranch? ==> w.slots[i].head.name in w.refs;
    }
  }

  lemma ScanKeepsCover(w: World, pool: set<nat>, next: nat, free: seq<nat>)
    requires PoolSlots(w, pool) && next < |w.slots| && (w.slots[next].head.Detached? ==> !w.slots[next].dirty || next !in pool)
    requires forall s :: s in pool && s < next ==> s in free || Claimed(w, s)
    ensures var free1 := if IsFree(w.slots[next]) then free + [next] else free;
      forall s :: s in pool && s < next + 1 ==> s in free1 || Claimed(w, s)
  {
    assert next in free + [next];
    assert forall s :: s in free ==> s in free + [next];
  }

  lemma EarlyStepAllocates(w: World, pool: set<nat>, p: nat)
    requires AllocInv(w, pool) && p < |w.runs|
    requires w.runs[p].pc.Resolve? || w.runs[p].pc.CheckBranch? || w.runs[p].pc.Scan?
    ensures AllocInv(AdvanceRun(w, p, ALL_WELL), pool)
  {
    var w1 := AdvanceRun(w, p, ALL_WELL);
    var was, pc := w.runs[p].pc, w1.runs[p].pc;
    assert PcFits(w, was) && Covers(w, pool, was);
    EarlyAdvanceKeepsInv(w, p, ALL_WELL);
    if was.CheckBranch? {
      FreshNameNotInUse(w, p);
    } else if was.Scan? && was.next < |w.slots| {
      ScanKeepsCover(w, pool, was.next, was.free);
    }
    PcStepAllocates(w, pool, p, w1);
  }

  lemma PcStepAllocates(w: World, pool: set<nat>, p: nat, w1: World)
    requires AllocInv(w, pool) && p < |w.runs| && Inv(w1) && |w1.runs| == |w.runs|
    requires w1 == SetPc(w, p, w1.runs[p].pc) && Won(w1.runs[p].pc) == Won(w.runs[p].pc)
    requires Covers(w, pool, w1.runs[p].pc)
    ensures AllocInv(w1, pool)
  {
    hide Inv, AllocInv;
    assert forall s :: Claimed(w1, s) == Claimed(w, s);
    ClaimsGrow(w, w1, pool, w1.runs[p].pc);
    QuietStep(w, w1, pool, p);
  }

  lemma LockStepKeepsCover(w: World, pool: set<nat>, p: nat)
    requires LocksExact(w) && PoolSlots(w, pool) && p < |w.runs| && (w.runs[p].pc.TryLock? || w.runs[p].pc.Locked?)
    requires InBounds(w, w.runs[p].pc) && Covers(w, pool, w.runs[p].pc)
    ensures var w1 := AdvanceRun(w, p, ALL_WELL);
      && |w1.runs| == |w.runs| && SameSlots(w, w1, p)
      && (forall s :: s in pool && Claimed(w, s) ==> Claimed(w1, s))
      && Covers(w1, pool, w1.runs[p].pc)
  {
    var rest := w.runs[p].pc.rest;
    if rest != [] {
      assert rest == [rest[0]] + rest[1..];
      assert forall s :: s in rest ==> s == rest[0] || s in rest[1..];
    }
  }

  lemma LockStepAllocates(w: World, pool: set<nat>, p: nat)
    requires AllocInv(w, pool) && p < |w.runs| && (w.runs[p].pc.TryLock? || w.runs[p].pc.Locked?)
    ensures AllocInv(AdvanceRun(w, p, ALL_WELL), pool)
  {
    hide AdvanceRun;
    assert PcFits(w, w.runs[p].pc);
    LockingAdvanceKeepsInv(w, p, ALL_WELL);
    LockStepKeepsCover(w, pool, p);
    QuietStep(w, AdvanceRun(w, p, ALL_WELL), pool, p);
  }

  lemma UnlockStepAllocates(w: World, pool: set<nat>, p: nat)
    requires AllocInv(w, pool) && p < |w.runs| && w.runs[p].pc.CheckedOut?
    ensures AllocInv(AdvanceRun(w, p, ALL_WELL), pool)
  {
    var w1 := AdvanceRun(w, p, ALL_WELL);
    var slot := w.runs[p].pc.slot;
    assert Covers(w, pool, w.runs[p].pc);
    UnlockKeepsInv(w, p, Done(Acquired(slot)), slot);
    assert w.slots[slot].head.OnBranch? by {
      assert Won(w.runs[p].pc) == Some(slot);
    }
    QuietStep(w, w1, pool, p);
  }

  lemma CheckoutStepAllocates(w: World, pool: set<nat>, p: nat)
    requires AllocInv(w, pool) && p < |w.runs| && w.runs[p].pc.Verified?
    ensures AllocInv(AdvanceRun(w, p, ALL_WELL), pool)
  {
    assert PcFits(w, w.runs[p].pc) && Covers(w, pool, w.runs[p].pc) && VerifiedSlotDetached(w, w.runs[p].pc);
    var slot := w.runs[p].pc.rest[0];
    CheckoutKeepsInv(w, p, ALL_WELL);
    assert AdvanceRun(w, p, ALL_WELL) == AfterCheckout(w, p, w.runs[p].pc.base, slot);
    CheckoutKeepsCover(w, pool, p, slot);
    CheckoutKeepsCount(w, pool, p, slot);
    CheckoutKeepsRequests(w, pool, p, slot);
  }

  lemma CheckoutKeepsCover(w: World, pool: set<nat>, p: nat, slot: nat)
    requires AllocInv(w, pool) && AboutToCheckout(w, p, slot) && w.runs[p].branch.Some? && slot < |w.slots|
    requires slot in pool
    ensures var w1 := AfterCheckout(w, p, w.runs[p].pc.base, slot);
      forall q :: 0 <= q < |w1.runs| ==> Covers(w1, pool, w1.runs[q].pc)
  {
    hide Inv, FreshRequests, SlotsMatch, PoolSlots;
    var w1 := AfterCheckout(w, p, w.runs[p].pc.base, slot);
    forall q | 0 <= q < |w1.runs| ensures Covers(w1, pool, w1.runs[q].pc) {
      if q != p {
        assert w1.runs[q] == w.runs[q];
        ClaimsGrow(w, w1, pool, w.runs[q].pc);
      }
    }
  }

  lemma CheckoutKeepsCount(w: World, pool: set<nat>, p: nat, slot: nat)
    requires AllocInv(w, pool) && AboutToCheckout(w, p, slot) && w.runs[p].branch.Some? && slot < |w.slots|
    requires slot in pool && w.slots[slot].head.Detached?
    ensures var w1 := AfterCheckout(w, p, w.runs[p].pc.base, slot);
      |Winners(w1)| == |Filled(w1, pool)|
  {
    hide Inv, FreshRequests, SlotsMatch, PoolSlots, Covers, Winners, Filled;
    CheckoutAddsWinner(w, p, slot);
    CheckoutFillsSlot(w, pool, p, slot);
  }

  lemma CheckoutAddsWinner(w: World, p: nat, slot: nat)
    requires AboutToCheckout(w, p, slot) && slot < |w.slots|
    ensures var w1 := AfterCheckout(w, p, w.runs[p].pc.base, slot);
      Winners(w1) == Winners(w) + {p} && p !in Winners(w)
  {
    hide Inv;
  }

  lemma CheckoutFillsSlot(w: World, pool: set<nat>, p: nat, slot: nat)
    requires AboutToCheckout(w, p, slot) && w.runs[p].branch.Some? && slot < |w.slots|
    requires slot in pool && w.slots[slot].head.Detached?
    ensures var w1 := AfterCheckout(w, p, w.runs[p].pc.base, slot);
      Filled(w1, pool) == Filled(w, pool) + {slot} && slot !in Filled(w, pool)
  {
    hide Inv;
  }

  lemma CheckoutKeepsRequests(w: World, pool: set<nat>, p: nat, slot: nat)
    requires AllocInv(w, pool) && AboutToCheckout(w, p, slot) && w.runs[p].branch.Some? && slot < |w.slots|
    requires slot in pool && w.slots[slot].head.Detached?
    ensures var w1 := AfterCheckout(w, p, w.runs[p].pc.base, slot);
      FreshRequests(w1) && PoolSlots(w1, pool) && SlotsMatch(w1)
  {
    hide Inv, Covers;
  }

  lemma StepAllocates(w: World, pool: set<nat>, p: nat)
    requires AllocInv(w, pool) && Enabled(w, Advance(p, ALL_WELL))
    ensures AllocInv(Apply(w, Advance(p, ALL_WELL)), pool)
  {
    match w.runs[p].pc
    case Resolve => EarlyStepAllocates(w, pool, p);
    case CheckBranch(_) => EarlyStepAllocates(w, pool, p);
    case Scan(_, _, _) => EarlyStepAllocates(w, pool, p);
    case TryLock(_, _) => LockStepAllocates(w, pool, p);
    case Locked(_, _) => LockStepAllocates(w, pool, p);
    case Verified(_, _) => CheckoutStepAllocates(w, pool, p);
    case CheckedOut(_) => UnlockStepAllocates(w, pool, p);
  }

  /** Only acquire steps, and nothing fails that does not have to. */
  ghost predicate Undisturbed(acts: seq<Action>) {
    forall i :: 0 <= i < |acts| ==> acts[i].Advance? && acts[i].io == ALL_WELL
  }

  lemma InitialAllocates(w: World)
    requires Initial(w) && FreshRequests(w)
    ensures AllocInv(w, FreeSlots(w))
  {
    assert Winners(w) == {};
    assert Filled(w, FreeSlots(w)) == {};
  }

  lemma {:induction false} ExecutionAllocates(ws: seq<World>, acts: seq<Action>, n: nat)
    requires Execution(ws, acts) && Initial(ws[0]) && FreshRequests(ws[0]) && Undisturbed(acts) && n < |ws|
    ensures AllocInv(ws[n], FreeSlots(ws[0])) && |ws[n].runs| == |ws[0].runs|
  {
    hide Initial, FreshRequests, AllocInv, AdvanceRun, IsFree, FreeSlots;
    if n == 0 {
      InitialAllocates(ws[0]);
    } else {
      ExecutionAllocates(ws, acts, n - 1);
      var w, a := ws[n - 1], acts[n - 1];
      assert a.io == ALL_WELL;
      StepAllocates(w, FreeSlots(ws[0]), a.run);
      AdvanceFrame(w, a.run, ALL_WELL);
    }
  }

  /** A run carries the base it was given, or else main, and a winner's branch stands there. */
  ghost predicate BasesMatch(w: World) {
    forall p :: 0 <= p < |w.runs| ==> BaseMatches(w, w.runs[p])
  }

  ghost predicate BaseMatches(w: World, r: Run) {
    && (HasBase(r.pc) ==> r.pc.base == BaseFoundAt(w, r.base))
    && (Won(r.pc).Some? && r.branch.Some? ==>
          r.branch.value in w.refs && w.refs[r.branch.value] == BaseFoundAt(w, r.base))
  }

  lemma AdvanceKeepsBases(w: World, p: nat)
    requires Inv(w) && FreshRequests(w) && BasesMatch(w) && p < |w.runs| && !w.runs[p].pc.Done?
    ensures BasesMatch(AdvanceRun(w, p, ALL_WELL))
  {
    hide Inv, AdvanceRun, AfterCheckout;
    assert PcFits(w, w.runs[p].pc) by { ShapeOf(w); }
    var w1 := AdvanceRun(w, p, ALL_WELL);
    AdvanceFrame(w, p, ALL_WELL);
    BaseIsCarried(w, p, ALL_WELL);
    AcquireStepExactly(w, p, ALL_WELL);
    if w1.runs[p].pc.CheckedOut? {
      CheckoutStep(w, p, ALL_WELL, w1.runs[p].pc.slot);
    }
    WonStep(w, p);
    forall q | 0 <= q < |w1.runs| ensures BaseMatches(w1, w1.runs[q]) {
      assert BaseMatches(w, w.runs[q]);
    }
  }

  lemma WonStep(w: World, p: nat)
    requires Inv(w) && p < |w.runs| && !w.runs[p].pc.Done?
    ensures |AdvanceRun(w, p, ALL_WELL).runs| == |w.runs| && InBounds(w, w.runs[p].pc)
    ensures Won(AdvanceRun(w, p, ALL_WELL).runs[p].pc).Some? ==>
              AdvanceRun(w, p, ALL_WELL).runs[p].pc.CheckedOut? || Won(w.runs[p].pc).Some?
  {
    hide AdvanceRun;
    assert PcFits(w, w.runs[p].pc);
    AcquireStepExactly(w, p, ALL_WELL);
  }

  lemma {:induction false} ExecutionKeepsBases(ws: seq<World>, acts: seq<Action>, n: nat)
    requires Execution(ws, acts) && Initial(ws[0]) && FreshRequests(ws[0]) && Undisturbed(acts) && n < |ws|
    ensures BasesMatch(ws[n]) && ws[n].main == ws[0].main && |ws[n].runs| == |ws[0].runs|
  {
    hide FreshRequests, AdvanceRun, AllocInv, BaseMatches, FreeSlots;
    if n == 0 {
      NothingResolvedYet(ws[0]);
    } else {
      ExecutionKeepsBases(ws, acts, n - 1);
      ExecutionAllocates(ws, acts, n - 1);
      var w, a := ws[n - 1], acts[n - 1];
      assert a.io == ALL_WELL;
      assert Inv(w) && FreshRequests(w) by { AllocInvGives(w, FreeSlots(ws[0])); }
      AdvanceKeepsBases(w, a.run);
      AdvanceFrame(w, a.run, ALL_WELL);
    }
  }

  lemma AllocInvGives(w: World, pool: set<nat>)
    requires AllocInv(w, pool)
    ensures Inv(w) && FreshRequests(w)
  {
  }

  lemma NothingResolvedYet(w: World)
    requires Initial(w)
    ensures BasesMatch(w)
  {
    forall p | 0 <= p < |w.runs| ensures BaseMatches(w, w.runs[p]) {
      assert w.runs[p].pc.Resolve?;
    }
  }

  lemma {:induction false} RangeSize(n: nat, s: set<nat>)
    requires forall x :: x in s ==> x < n
    ensures |s| <= n
    ensures |s| == n <==> forall x :: 0 <= x < n ==> x in s
  {
    if n == 0 {
      assert s == {};
    } else {
      var t := s - {n - 1};
      RangeSize(n - 1, t);
      assert forall x :: 0 <= x < n - 1 ==> (x in t <==> x in s);
      if n - 1 in s {
        assert s == t + {n - 1};
      } else {
        assert t == s;
      }
    }
  }

  /** The run was told which slot it has, and the slot is on the run's branch, made at the base asked for or at main. */
  predicate Served(w: World, p: nat, pool: set<nat>) {
    && p < |w.runs| && w.runs[p].pc.Done? && w.runs[p].pc.outcome.Acquired? && w.runs[p].branch.Some?
    && var s := w.runs[p].pc.outcome.slot;
    && s in pool && s < |w.slots| && w.slots[s].head == OnBranch(w.runs[p].branch.value)
    && w.runs[p].branch.value in w.refs
    && w.refs[w.runs[p].branch.value] == (if w.runs[p].base.Some? then w.runs[p].base.value else w.main)
  }

  ghost predicate Quiescent(w: World) {
    forall p :: 0 <= p < |w.runs| ==> w.runs[p].pc.Done?
  }

  lemma OutcomesAtRest(w: World, pool: set<nat>, p: nat)
    requires AllocInv(w, pool) && BasesMatch(w) && Quiescent(w) && p < |w.runs|
    ensures if p in Winners(w) then Served(w, p, pool) else w.runs[p].pc == Done(Exhausted)
  {
    assert Covers(w, pool, w.runs[p].pc) && BaseMatches(w, w.runs[p]);
  }

  lemma ExhaustedMeansFull(w: World, pool: set<nat>, p: nat)
    requires AllocInv(w, pool) && Quiescent(w) && p < |w.runs| && w.runs[p].pc == Done(Exhausted)
    ensures Filled(w, pool) == pool
  {
    assert Covers(w, pool, w.runs[p].pc);
    forall s | s in pool ensures s in Filled(w, pool) {
      assert Claimed(w, s);
    }
  }

  /** When everyone is done, exactly min(runs, free slots) runs won, each on its own slot; the rest report exhaustion. */
  lemma ExactAllocation(ws: seq<World>, acts: seq<Action>)
    requires Execution(ws, acts) && Initial(ws[0]) && FreshRequests(ws[0]) && Undisturbed(acts)
    requires Quiescent(ws[|acts|])
    ensures var last, pool := ws[|acts|], FreeSlots(ws[0]);
      var runs, free := |ws[0].runs|, |FreeSlots(ws[0])|;
      && |last.runs| == runs && last.main == ws[0].main
      && |Winners(last)| == (if runs <= free then runs else free)
      && (forall p :: p in Winners(last) ==> Served(last, p, pool))
      && (forall p, q :: p in Winners(last) && q in Winners(last) && p != q ==>
            last.runs[p].pc.outcome.slot != last.runs[q].pc.outcome.slot)
      && (forall p :: 0 <= p < runs && p !in Winners(last) ==> last.runs[p].pc == Done(Exhausted))
  {
    hide Initial, AdvanceRun, Inv, Covers, FreeSlots, PoolSlots, SlotsMatch, BasesMatch, Execution;
    assert |ws| == |acts| + 1 by {
      ExecutionLength(ws, acts);
    }
    var last, pool := ws[|acts|], FreeSlots(ws[0]);
    ExecutionAllocates(ws, acts, |acts|);
    ExecutionKeepsBases(ws, acts, |acts|);
    SubsetSize(Filled(last, pool), pool);
    RangeSize(|last.runs|, Winners(last));
    forall p | 0 <= p < |last.runs|
      ensures if p in Winners(last) then Served(last, p, pool) else last.runs[p].pc == Done(Exhausted)
    {
      OutcomesAtRest(last, pool, p);
    }
    forall p, q | p in Winners(last) && q in Winners(last) && p != q
      ensures last.runs[p].pc.outcome.slot != last.runs[q].pc.outcome.slot
    {
      assert last.runs[p].branch != last.runs[q].branch;
    }
    if e :| 0 <= e < |last.runs| && e !in Winners(last) {
      ExhaustedMeansFull(last, pool, e);
    }
  }

  lemma ExecutionLength(ws: seq<World>, acts: seq<Action>)
    requires Execution(ws, acts)
    ensures |ws| == |acts| + 1
  {
  }

  // ---- bounded work ---------------------------------------------------------------------

  /** An upper bound on the own steps a run still has to make in a pool of `n` slots. */
  function Rank(pc: Pc, n: nat): int {
    match pc
    case Resolve => 4 * n + 4
    case CheckBranch(_) => 4 * n + 3
    case Scan(_, next, free) => 4 * (n - next) + 3 * |free| + 2
    case TryLock(_, rest) => 3 * |rest| + 1
    case Locked(_, rest) => 3 * |rest|
    case Verified(_, rest) => 3 * |rest| - 1
    case CheckedOut(_) => 1
    case Done(_) => 0
  }

  ghost predicate RankDrops(w: World, w1: World, p: nat)
    requires p < |w.runs|
  {
    && |w1.slots| == |w.slots| && |w1.runs| == |w.runs| && InBounds(w1, w1.runs[p].pc)
    && 0 <= Rank(w1.runs[p].pc, |w.slots|) < Rank(w.runs[p].pc, |w.slots|)
  }

  lemma EarlyAdvanceLowersRank(w: World, p: nat, io: Io)
    requires p < |w.runs| && InBounds(w, w.runs[p].pc)
    requires w.runs[p].pc.Resolve? || w.runs[p].pc.CheckBranch? || w.runs[p].pc.Scan?
    ensures RankDrops(w, AdvanceRun(w, p, io), p)
  {
    var w1 := AdvanceRun(w, p, io);
    assert w1 == SetPc(w, p, w1.runs[p].pc);
  }

  lemma LateAdvanceLowersRank(w: World, p: nat, io: Io)
    requires p < |w.runs| && InBounds(w, w.runs[p].pc) && !w.runs[p].pc.Done?
    requires !w.runs[p].pc.Resolve? && !w.runs[p].pc.CheckBranch? && !w.runs[p].pc.Scan?
    ensures RankDrops(w, AdvanceRun(w, p, io), p)
  {
    if w.runs[p].pc.Verified? {
      assert AdvanceRun(w, p, io) == Checkout(w, p, w.runs[p].pc.base, w.runs[p].pc.rest[0], io);
    }
  }

  lemma AdvanceLowersRank(w: World, p: nat, io: Io)
    requires p < |w.runs| && InBounds(w, w.runs[p].pc) && !w.runs[p].pc.Done?
    ensures RankDrops(w, AdvanceRun(w, p, io), p)
  {
    hide AdvanceRun, Rank;
    if w.runs[p].pc.Resolve? || w.runs[p].pc.CheckBranch? || w.runs[p].pc.Scan? {
      EarlyAdvanceLowersRank(w, p, io);
    } else {
      LateAdvanceLowersRank(w, p, io);
    }
  }

  ghost function StepsOf(acts: seq<Action>, p: nat): nat {
    if acts == [] then 0
    else StepsOf(acts[..|acts| - 1], p) + if acts[|acts| - 1].Advance? && acts[|acts| - 1].run == p then 1 else 0
  }

  lemma OtherStepsKeepRank(w: World, a: Action, p: nat)
    requires Inv(w) && Enabled(w, a) && p < |w.runs| && !(a.Advance? && a.run == p)
    ensures var w1 := Apply(w, a);
      |w1.slots| == |w.slots| && |w1.runs| == |w.runs|
      && 0 <= Rank(w1.runs[p].pc, |w.slots|) <= Rank(w.runs[p].pc, |w.slots|)
  {
    assert PcFits(w, w.runs[p].pc);
    if a.Advance? {
      AdvanceFrame(w, a.run, a.io);
      assert PcFits(w, w.runs[a.run].pc);
      AdvanceLowersRank(w, a.run, a.io);
    }
  }

  /** Whatever the others do, no acquire makes more than 4n + 4 steps of its own: it never waits. */
  lemma {:induction false} AcquireIsWaitFree(ws: seq<World>, acts: seq<Action>, n: nat, p: nat)
    requires Execution(ws, acts) && Initial(ws[0]) && n < |ws| && p < |ws[0].runs|
    ensures Inv(ws[n]) && |ws[n].runs| == |ws[0].runs| && |ws[n].slots| == |ws[0].slots|
    ensures 0 <= Rank(ws[n].runs[p].pc, |ws[0].slots|)
    ensures StepsOf(acts[..n], p) + Rank(ws[n].runs[p].pc, |ws[0].slots|) <= 4 * |ws[0].slots| + 4
  {
    hide Inv, Rank, AdvanceRun;
    if n == 0 {
      RankAtStart(ws[0], p);
    } else {
      AcquireIsWaitFree(ws, acts, n - 1, p);
      var w, a := ws[n - 1], acts[n - 1];
      assert acts[..n][..n - 1] == acts[..n - 1];
      StepKeepsInv(w, a);
      if a.Advance? && a.run == p {
        AdvanceLowersRank(w, p, a.io);
      } else {
        OtherStepsKeepRank(w, a, p);
      }
    }
  }

  lemma RankAtStart(w: World, p: nat)
    requires Initial(w) && p < |w.runs|
    ensures Inv(w) && Rank(w.runs[p].pc, |w.slots|) == 4 * |w.slots| + 4
  {
  }

  // ---- a run on its own -----------------------------------------------------------------

  function Solo(w: World, p: nat): (done: World)
    requires p < |w.runs| && InBounds(w, w.runs[p].pc)
    ensures |done.runs| == |w.runs| && done.runs[p].pc.Done?
    decreases Rank(w.runs[p].pc, |w.slots|)
  {
    if w.runs[p].pc.Done? then w
    else
      AdvanceLowersRank(w, p, ALL_WELL);
      Solo(AdvanceRun(w, p, ALL_WELL), p)
  }

  function FreeFrom(slots: seq<Slot>, next: nat): (r: seq<nat>)
    requires next <= |slots|
    ensures forall i :: 0 <= i < |r| ==> next <= r[i] < |slots| && IsFree(slots[r[i]])
    ensures forall s :: next <= s < |slots| && IsFree(slots[s]) ==> s in r
    ensures forall i, j :: 0 <= i < j < |r| ==> r[i] < r[j]
    decreases |slots| - next
  {
    if next == |slots| then []
    else if IsFree(slots[next]) then [next] + FreeFrom(slots, next + 1)
    else FreeFrom(slots, next + 1)
  }

  lemma SetPcTwice(w: World, p: nat, a: Pc, b: Pc)
    requires p < |w.runs|
    ensures SetPc(SetPc(w, p, a), p, b) == SetPc(w, p, b)
  {
    assert w.runs[p := w.runs[p].(pc := a)][p := w.runs[p].(pc := b)] == w.runs[p := w.runs[p].(pc := b)];
  }

  lemma SoloStep(w: World, p: nat, w1: World)
    requires p < |w.runs| && InBounds(w, w.runs[p].pc) && !w.runs[p].pc.Done?
    requires w1 == AdvanceRun(w, p, ALL_WELL)
    ensures |w1.runs| == |w.runs| && InBounds(w1, w1.runs[p].pc) && Solo(w, p) == Solo(w1, p)
  {
    AdvanceLowersRank(w, p, ALL_WELL);
  }

  lemma ScanStep(w: World, p: nat)
    requires p < |w.runs| && w.runs[p].pc.Scan? && InBounds(w, w.runs[p].pc)
    ensures var Scan(base, next, free) := w.runs[p].pc;
      AdvanceRun(w, p, ALL_WELL) == SetPc(w, p,
        if next == |w.slots| then (if free == [] then Done(Exhausted) else TryLock(base, free))
        else Scan(base, next + 1, if IsFree(w.slots[next]) then free + [next] else free))
  {
  }

  lemma ScannedSoFar(slots: seq<Slot>, next: nat, free: seq<nat>)
    requires next < |slots|
    ensures (if IsFree(slots[next]) then free + [next] else free) + FreeFrom(slots, next + 1) == free + FreeFrom(slots, next)
  {
    if IsFree(slots[next]) {
      assert free + [next] + FreeFrom(slots, next + 1) == free + ([next] + FreeFrom(slots, next + 1));
    }
  }

  lemma {:induction false} SoloScan(w: World, p: nat, base: Commit, next: nat, free: seq<nat>)
    requires p < |w.runs| && w.runs[p].pc == Scan(base, next, free) && InBounds(w, w.runs[p].pc)
    ensures Solo(w, p) == Solo(SetPc(w, p, TryLock(base, free + FreeFrom(w.slots, next))), p)
    decreases |w.slots| - next
  {
    hide AdvanceRun, Solo, IsFree;
    var w1 := AdvanceRun(w, p, ALL_WELL);
    SoloStep(w, p, w1);
    ScanStep(w, p);
    SetPcTwice(w, p, w1.runs[p].pc, TryLock(base, free + FreeFrom(w.slots, next)));
    if next < |w.slots| {
      ScannedSoFar(w.slots, next, free);
      SoloScan(w1, p, base, next + 1, if IsFree(w.slots[next]) then free + [next] else free);
    } else {
      assert free + FreeFrom(w.slots, next) == free;
      if free == [] {
        SoloTryNothing(SetPc(w, p, TryLock(base, [])), p);
        SoloDone(w1, p);
        SetPcTwice(w, p, TryLock(base, []), Done(Exhausted));
      }
    }
  }

  lemma SoloDone(w: World, p: nat)
    requires p < |w.runs| && w.runs[p].pc.Done?
    ensures Solo(w, p) == w
  {
  }

  lemma SoloTryNothing(w: World, p: nat)
    requires p < |w.runs| && w.runs[p].pc.TryLock? && w.runs[p].pc.rest == []
    ensures Solo(w, p) == SetPc(w, p, Done(Exhausted))
  {
    var w1 := AdvanceRun(w, p, ALL_WELL);
    SoloStep(w, p, w1);
    SoloDone(w1, p);
  }

  /** The world after run `p` has quietly taken `slot` and let go of its lock. */
  function Granted(w: World, p: nat, base: Commit, slot: nat): World
    requires p < |w.runs| && slot < |w.slots|
  {
    SetPc(AfterCheckout(w, p, base, slot), p, Done(Acquired(slot)))
  }

  ghost predicate NameAvailable(w: World, p: nat)
    requires p < |w.runs|
  {
    w.runs[p].branch.Some? ==> w.runs[p].branch.value !in w.refs && w.runs[p].branch.value !in w.elsewhere
  }

  lemma SoloTake(w: World, p: nat)
    requires p < |w.runs| && w.runs[p].pc.TryLock? && InBounds(w, w.runs[p].pc) && NameAvailable(w, p)
    requires var rest := w.runs[p].pc.rest; rest != [] && rest[0] !in w.locks && IsFree(w.slots[rest[0]])
    ensures Solo(w, p) == Granted(w, p, w.runs[p].pc.base, w.runs[p].pc.rest[0])
  {
    var base, rest := w.runs[p].pc.base, w.runs[p].pc.rest;
    var w1 := AdvanceRun(w, p, ALL_WELL);
    assert w1.runs[p].pc == Locked(base, rest);
    var w2 := AdvanceRun(w1, p, ALL_WELL);
    assert w2.runs[p].pc == Verified(base, rest);
    SetPcTwice(w, p, Locked(base, rest), Verified(base, rest));
    var w3 := AdvanceRun(w2, p, ALL_WELL);
    assert w3.runs[p].pc == CheckedOut(rest[0]);
    var w4 := AdvanceRun(w3, p, ALL_WELL);
    assert w4.runs[p].pc == Done(Acquired(rest[0]));
    assert w4.locks == w.locks;
    assert w4.runs == Granted(w, p, base, rest[0]).runs;
    assert w4 == Granted(w, p, base, rest[0]);
    assert Solo(w, p) == Solo(w1, p) == Solo(w2, p) == Solo(w3, p) == Solo(w4, p) == w4;
  }

  lemma {:induction false} SoloTry(w: World, p: nat, k: nat)
    requires p < |w.runs| && w.runs[p].pc.TryLock? && InBounds(w, w.runs[p].pc) && NameAvailable(w, p)
    requires var rest := w.runs[p].pc.rest;
      && k <= |rest| && (forall i :: 0 <= i < k ==> rest[i] in w.locks)
      && (k < |rest| ==> rest[k] !in w.locks && IsFree(w.slots[rest[k]]))
    ensures var rest := w.runs[p].pc.rest;
      Solo(w, p) == if k < |rest| then Granted(w, p, w.runs[p].pc.base, rest[k]) else SetPc(w, p, Done(Exhausted))
    decreases k
  {
    var base, rest := w.runs[p].pc.base, w.runs[p].pc.rest;
    if rest != [] && k == 0 {
      SoloTake(w, p);
    } else {
      var w1 := AdvanceRun(w, p, ALL_WELL);
      if rest == [] {
        assert Solo(w, p) == Solo(w1, p) == w1;
      } else {
        assert w1 == SetPc(w, p, TryLock(base, rest[1..]));
        SoloTry(w1, p, k - 1);
        assert Solo(w, p) == Solo(w1, p);
        SetPcTwice(w, p, TryLock(base, rest[1..]), Done(Exhausted));
        if k < |rest| {
          assert rest[1..][k - 1] == rest[k];
          assert Granted(w1, p, base, rest[k]).runs == Granted(w, p, base, rest[k]).runs;
        }
      }
    }
  }

  predicate Available(w: World, s: nat) {
    s < |w.slots| && w.slots[s].head.Detached? && !w.slots[s].dirty && s !in w.locks
  }

  /** The base commit that a run about to start will put its slot on. */
  function ResolvedBase(w: World, p: nat): Commit
    requires p < |w.runs|
  {
    if w.runs[p].base.Some? then w.runs[p].base.value else w.main
  }

  ghost predicate ReadyToAcquire(w: World, p: nat) {
    && Inv(w) && p < |w.runs| && w.runs[p].pc == Resolve && NameAvailable(w, p)
    && ResolvedBase(w, p) < |w.dag|
  }

  lemma SoloReachesScan(w: World, p: nat)
    requires ReadyToAcquire(w, p)
    ensures Solo(w, p) == Solo(SetPc(w, p, Scan(ResolvedBase(w, p), 0, [])), p)
  {
    var base := ResolvedBase(w, p);
    var w1 := AdvanceRun(w, p, ALL_WELL);
    assert w1 == SetPc(w, p, CheckBranch(base));
    if w.runs[p].branch.Some? {
      forall i | 0 <= i < |w.slots| ensures w.slots[i].head != OnBranch(w.runs[p].branch.value) {
        assert w.slots[i].head.OnBranch? ==> w.slots[i].head.name in w.refs;
      }
    }
    SetPcTwice(w, p, CheckBranch(base), Scan(base, 0, []));
    var w2 := AdvanceRun(w1, p, ALL_WELL);
    assert Solo(w, p) == Solo(w1, p) == Solo(w2, p);
  }

  lemma {:induction false} FirstUnlocked(w: World, rest: seq<nat>) returns (k: nat)
    ensures k <= |rest| && (forall i :: 0 <= i < k ==> rest[i] in w.locks)
    ensures k < |rest| ==> rest[k] !in w.locks
  {
    if rest == [] || rest[0] !in w.locks {
      k := 0;
    } else {
      var j := FirstUnlocked(w, rest[1..]);
      k := j + 1;
      forall i | 0 <= i < k ensures rest[i] in w.locks {
        assert i > 0 ==> rest[i] == rest[1..][i - 1];
      }
    }
  }

  lemma SoloReachesTry(w: World, p: nat)
    requires ReadyToAcquire(w, p)
    ensures Solo(w, p) == Solo(SetPc(w, p, TryLock(ResolvedBase(w, p), FreeFrom(w.slots, 0))), p)
  {
    hide Inv, AdvanceRun, IsFree;
    var base := ResolvedBase(w, p);
    SoloReachesScan(w, p);
    SoloScan(SetPc(w, p, Scan(base, 0, [])), p, base, 0, []);
    assert [] + FreeFrom(w.slots, 0) == FreeFrom(w.slots, 0);
    SetPcTwice(w, p, Scan(base, 0, []), TryLock(base, FreeFrom(w.slots, 0)));
  }

  lemma GrantedIgnoresPc(w: World, p: nat, pc: Pc, base: Commit, slot: nat)
    requires p < |w.runs| && slot < |w.slots|
    ensures Granted(SetPc(w, p, pc), p, base, slot) == Granted(w, p, base, slot)
  {
    assert Granted(SetPc(w, p, pc), p, base, slot).runs == Granted(w, p, base, slot).runs;
  }

  lemma GrantedPuts(w: World, p: nat, base: Commit, slot: nat)
    requires p < |w.runs| && slot < |w.slots| && NameAvailable(w, p)
    ensures PutAt(w, Granted(w, p, base, slot), slot, w.runs[p].branch, base)
    ensures var w1 := Granted(w, p, base, slot);
            && w1.dag == w.dag && w1.main == w.main && w1.locks == w.locks && |w1.runs| == |w.runs|
            && w1.runs[p].pc == Done(Acquired(slot))
  {
  }

  /**
   * Run alone, an acquire takes the first available slot in path order and puts it at its base, moving nothing else,
   * or reports exhaustion when there is none.
   */
  lemma LoneAcquireTakesFirst(w: World, p: nat) returns (slot: nat)
    requires ReadyToAcquire(w, p)
    ensures forall s :: Available(w, s) ==> slot <= s
    ensures Available(w, slot) ==>
              && PutAt(w, Solo(w, p), slot, w.runs[p].branch, BaseFoundAt(w, w.runs[p].base))
              && Solo(w, p).locks == w.locks && Solo(w, p).main == w.main && Solo(w, p).dag == w.dag
              && Solo(w, p).runs[p].pc == Done(Acquired(slot))
    ensures if Available(w, slot) then Solo(w, p) == Granted(w, p, ResolvedBase(w, p), slot)
            else slot == |w.slots| && Solo(w, p) == SetPc(w, p, Done(Exhausted))
  {
    hide Inv, AdvanceRun, Solo, Granted;
    var base := ResolvedBase(w, p);
    var rest := FreeFrom(w.slots, 0);
    SoloReachesTry(w, p);
    var tried := SetPc(w, p, TryLock(base, rest));
    var k := FirstUnlocked(w, rest);
    SoloTry(tried, p, k);
    SetPcTwice(w, p, TryLock(base, rest), Done(Exhausted));
    slot := if k < |rest| then rest[k] else |w.slots|;
    forall s | Available(w, s) ensures slot <= s {
      var i :| 0 <= i < |rest| && rest[i] == s;
    }
    if k < |rest| {
      GrantedIgnoresPc(w, p, TryLock(base, rest), base, slot);
      GrantedPuts(w, p, base, slot);
    }
  }

  /** Without a branch name the same slot is handed out twice in a row, nobody having released it. */
  lemma DetachedAcquireSharesSlot(w: World, p: nat, q: nat, slot: nat)
    requires ReadyToAcquire(w, p) && ReadyToAcquire(w, q) && p != q
    requires w.runs[p].branch.None? && w.runs[q].branch.None?
    requires Available(w, slot) && forall s :: Available(w, s) ==> slot <= s
    ensures var w1 := Solo(w, p);
      && w1.runs[p].pc == Done(Acquired(slot)) && ReadyToAcquire(w1, q)
      && var w2 := Solo(w1, q);
      w2.runs[p].pc == w2.runs[q].pc == Done(Acquired(slot)) && w2.log == w.log + [Took(p, slot, false), Took(q, slot, false)]
  {
    var s1 := LoneAcquireTakesFirst(w, p);
    assert s1 == slot;
    SoloKeepsInv(w, p);
    var w1 := Solo(w, p);
    assert forall s :: Available(w1, s) <==> Available(w, s);
    var s2 := LoneAcquireTakesFirst(w1, q);
    assert s2 == slot;
  }

  lemma {:induction false} SoloKeepsInv(w: World, p: nat)
    requires Inv(w) && p < |w.runs| && InBounds(w, w.runs[p].pc)
    ensures Inv(Solo(w, p))
    decreases Rank(w.runs[p].pc, |w.slots|)
  {
    hide Inv, AdvanceRun, Rank;
    if !w.runs[p].pc.Done? {
      AdvanceLowersRank(w, p, ALL_WELL);
      AdvanceKeepsInv(w, p, ALL_WELL);
      SoloKeepsInv(AdvanceRun(w, p, ALL_WELL), p);
    }
  }
}

/** What becomes of committed work: which steps of the pool lose commits, and which releases. */
module PoolWork {
  import opened Wrappers
  import opened CommitGraph
  import opened PoolProtocol
  import opened PoolInvariant
  import opened PoolSafety

  ghost predicate Reachable(w: World, c: Commit)
    requires GraphFits(w)
  {
    c in Ancestors(w.dag, w.main) || exists n :: n in w.refs && c in Ancestors(w.dag, w.refs[n])
  }

  /** Every commit made on a branch inside the pool is still reachable from main or from a branch. */
  ghost predicate WorkKept(w: World)
    requires GraphFits(w)
  {
    forall c: Commit :: Made(c) in w.log ==> c < |w.dag| && Reachable(w, c)
  }

  // ---- what a single step loses ---------------------------------------------------------

  /** The branch a step takes back to main or deletes: a reset that finds the slot on one, and the final cleanup. */
  function DroppedBy(w: World, a: Action): Option<string> {
    if !a.StepRelease? || !CanStep(w, a.release) then None
    else
      var Releasing(slot, _, pc) := w.releases[a.release];
      if pc.Reset? && a.io.gitOk && w.slots[slot].head.OnBranch? then Some(w.slots[slot].head.name)
      else if pc.DropBranch? && Drops(w, pc.seen, a.io) then Some(pc.seen.value.name)
      else None
  }

  lemma GrowthKeepsReachable(w: World, parents: set<Commit>, w1: World, c: Commit)
    requires GraphFits(w) && GraphFits(w1) && Reachable(w, c)
    requires w1.dag == w.dag + [parents]
    requires w1.main == w.main || (w1.main == |w.dag| && w.main in parents)
    requires forall n :: n in w.refs ==> n in w1.refs
    requires forall n :: n in w.refs ==> w1.refs[n] == w.refs[n] || (w1.refs[n] == |w.dag| && w.refs[n] in parents)
    ensures Reachable(w1, c)
  {
    if c in Ancestors(w.dag, w.main) {
      AncestorsOfPrefix(w.dag, w.dag + [parents], w.main);
      assert c in Ancestors(w1.dag, w.main);
      if w1.main != w.main {
        assert w.main in w1.dag[|w.dag|];
      }
    } else {
      var n :| n in w.refs && c in Ancestors(w.dag, w.refs[n]);
      AncestorsOfPrefix(w.dag, w.dag + [parents], w.refs[n]);
      assert c in Ancestors(w1.dag, w.refs[n]);
      if w1.refs[n] != w.refs[n] {
        assert w.refs[n] in w1.dag[|w.dag|];
      }
      assert c in Ancestors(w1.dag, w1.refs[n]);
    }
  }

  /** Nothing moved but branches that were added. */
  lemma MoreBranchesKeepReachable(w: World, w1: World, c: Commit)
    requires GraphFits(w) && GraphFits(w1) && Reachable(w, c) && w1.dag == w.dag && w1.main == w.main
    requires forall n :: n in w.refs ==> n in w1.refs && w1.refs[n] == w.refs[n]
    ensures Reachable(w1, c)
  {
    hide Ancestors;
    if n :| n in w.refs && c in Ancestors(w.dag, w.refs[n]) {
      assert n in w1.refs && c in Ancestors(w1.dag, w1.refs[n]);
    }
  }

  lemma AdvanceKeepsReachable(w: World, p: nat, io: Io, c: Commit)
    requires Inv(w) && p < |w.runs| && !w.runs[p].pc.Done? && GraphFits(AdvanceRun(w, p, io)) && Reachable(w, c)
    ensures Reachable(AdvanceRun(w, p, io), c)
  {
    assert PcFits(w, w.runs[p].pc);
    AdvanceFrame(w, p, io);
    AdvanceRecord(w, p, io);
    AdvanceAddsBranches(w, p, io);
    MoreBranchesKeepReachable(w, AdvanceRun(w, p, io), c);
  }

  lemma AdvanceAddsBranches(w: World, p: nat, io: Io)
    requires p < |w.runs| && InBounds(w, w.runs[p].pc)
    ensures forall n :: n in w.refs ==> n in AdvanceRun(w, p, io).refs && AdvanceRun(w, p, io).refs[n] == w.refs[n]
  {
    AdvanceRecord(w, p, io);
    if w.runs[p].pc.Verified? {
      assert AdvanceRun(w, p, io) == Checkout(w, p, w.runs[p].pc.base, w.runs[p].pc.rest[0], io);
    }
  }

  lemma ReleaseRefs(w: World, r: nat, io: Io)
    requires CanStep(w, r)
    ensures var w1, dropped := AdvanceRelease(w, r, io), DroppedBy(w, StepRelease(r, io));
            && w1.dag == w.dag && w1.main == w.main && w1.runs == w.runs
            && w1.refs == (match dropped
                           case None => w.refs
                           case Some(n) =>
                             if w.releases[r].pc.Reset? then w.refs[n := w.releases[r].pc.main] else w.refs - {n})
            && (w1.log == w.log || w1.log == w.log + [Gave(w.releases[r].slot)])
  {
  }

  lemma ReleaseLoses(w: World, r: nat, io: Io, c: Commit)
    requires Inv(w) && CanStep(w, r) && Reachable(w, c) && Inv(AdvanceRelease(w, r, io))
    ensures !Reachable(AdvanceRelease(w, r, io), c) <==>
            (DroppedBy(w, StepRelease(r, io)).Some? && c !in Ancestors(w.dag, w.main)
             && forall n :: n in w.refs && Some(n) != DroppedBy(w, StepRelease(r, io)) ==> c !in Ancestors(w.dag, w.refs[n]))
  {
    var w1, dropped := AdvanceRelease(w, r, io), DroppedBy(w, StepRelease(r, io));
    ReleaseRefs(w, r, io);
    assert ReleaseFits(w, w.releases[r]);
    hide Ancestors, AdvanceRelease, Inv, DroppedBy;
    if dropped.None? {
      MoreBranchesKeepReachable(w, w1, c);
    } else {
      if w.releases[r].pc.Reset? {
        MainBelow(w, w.releases[r]);
      }
      if n :| n in w.refs && n != dropped.value && c in Ancestors(w.dag, w.refs[n]) {
        assert n in w1.refs && c in Ancestors(w1.dag, w1.refs[n]);
      }
    }
  }

  /**
   * A step loses a commit that main or a branch held exactly when it is a release taking a branch back or deleting it,
   * and neither main nor any other branch holds the commit.
   */
  lemma StepLosesExactly(w: World, a: Action, c: Commit)
    requires Inv(w) && Enabled(w, a) && Reachable(w, c)
    ensures Inv(Apply(w, a))
    ensures !Reachable(Apply(w, a), c) <==>
            (DroppedBy(w, a).Some? && c !in Ancestors(w.dag, w.main)
             && forall n :: n in w.refs && Some(n) != DroppedBy(w, a) ==> c !in Ancestors(w.dag, w.refs[n]))
  {
    StepKeepsInv(w, a);
    match a
    case Advance(p, io) => AdvanceKeepsReachable(w, p, io, c);
    case StepRelease(r, io) => ReleaseLoses(w, r, io, c);
    case CommitIn(slot) => GrowthKeepsReachable(w, {HeadCommit(w, w.slots[slot])}, Apply(w, a), c);
    case AdvanceMain(parents) => GrowthKeepsReachable(w, parents, Apply(w, a), c);
    case Crash(_) => MoreBranchesKeepReachable(w, Apply(w, a), c);
    case CrashRelease(_) => MoreBranchesKeepReachable(w, Apply(w, a), c);
    case Edit(_, _) => MoreBranchesKeepReachable(w, Apply(w, a), c);
  }

  // ---- whole runs -----------------------------------------------------------------------

  /** If the step takes a branch back or deletes it, main holds that branch. */
  ghost predicate Harmless(w: World, a: Action)
    requires GraphFits(w)
  {
    DroppedBy(w, a).Some? ==>
      DroppedBy(w, a).value in w.refs && w.refs[DroppedBy(w, a).value] in Ancestors(w.dag, w.main)
  }

  lemma NewCommits(w: World, a: Action, c: Commit)
    requires Inv(w) && Enabled(w, a) && Made(c) in Apply(w, a).log && Made(c) !in w.log
    ensures a.CommitIn? && w.slots[a.slot].head.OnBranch? && c == |w.dag|
  {
    if a.Advance? {
      assert PcFits(w, w.runs[a.run].pc);
      AdvanceRecord(w, a.run, a.io);
    } else if a.StepRelease? {
      ReleaseRefs(w, a.release, a.io);
    }
  }

  lemma StepKeepsWork(w: World, a: Action)
    requires Inv(w) && WorkKept(w) && Enabled(w, a) && Harmless(w, a)
    ensures Inv(Apply(w, a)) && WorkKept(Apply(w, a))
  {
    StepKeepsInv(w, a);
    StepGrowsGraph(w, a);
    var w1 := Apply(w, a);
    forall c: Commit | Made(c) in w1.log ensures c < |w1.dag| && Reachable(w1, c) {
      if Made(c) in w.log {
        StepLosesExactly(w, a, c);
        if DroppedBy(w, a).Some? {
          AncestorsTransitive(w.dag, w.refs[DroppedBy(w, a).value], w.main);
        }
      } else {
        NewCommits(w, a, c);
        assert c in Ancestors(w1.dag, w1.refs[w.slots[a.slot].head.name]);
      }
    }
  }

  lemma StepGrowsGraph(w: World, a: Action)
    requires Inv(w) && Enabled(w, a)
    ensures |w.dag| <= |Apply(w, a).dag|
  {
    if a.Advance? {
      assert PcFits(w, w.runs[a.run].pc);
      AdvanceFrame(w, a.run, a.io);
    } else if a.StepRelease? {
      ReleaseRefs(w, a.release, a.io);
    }
  }

  /** If every reset and every deletion finds its branch held by main, no run strands a commit made on a pool branch. */
  lemma {:induction false} HarmlessRunsLoseNoBranchWork(ws: seq<World>, acts: seq<Action>, n: nat)
    requires Execution(ws, acts) && Initial(ws[0]) && n < |ws|
    requires forall i :: 0 <= i < n ==> GraphFits(ws[i]) && Harmless(ws[i], acts[i])
    ensures Inv(ws[n]) && WorkKept(ws[n])
  {
    hide Apply, Harmless, WorkKept, Inv;
    if n == 0 {
      NothingMadeYet(ws[0]);
    } else {
      HarmlessRunsLoseNoBranchWork(ws, acts, n - 1);
      StepKeepsWork(ws[n - 1], acts[n - 1]);
    }
  }

  lemma NothingMadeYet(w: World)
    requires Initial(w)
    ensures Inv(w) && WorkKept(w)
  {
    assert Inv(w);
  }

  /** An unforced release finds the slot detached when it resets, and the branch as its gate saw it when it deletes. */
  predicate LeftAlone(w: World, a: Action) {
    DroppedBy(w, a).Some? ==>
      var Releasing(_, force, pc) := w.releases[a.release];
      !force && pc.DropBranch? && pc.seen.value.name in w.refs && w.refs[pc.seen.value.name] == pc.seen.value.at
  }

  lemma LeftAloneIsHarmless(w: World, a: Action)
    requires Inv(w) && LeftAlone(w, a)
    ensures Harmless(w, a)
  {
    if DroppedBy(w, a).Some? {
      assert ReleaseFits(w, w.releases[a.release]);
    }
  }

  /**
   * So unforced releases lose no branch work in any interleaving in which nobody takes a slot while it is being
   * released and no branch moves between the gate and its deletion.
   */
  lemma {:induction false} UnforcedRunsLoseNoBranchWork(ws: seq<World>, acts: seq<Action>, n: nat)
    requires Execution(ws, acts) && Initial(ws[0]) && n < |ws|
    requires forall i :: 0 <= i < n ==> LeftAlone(ws[i], acts[i])
    ensures Inv(ws[n]) && WorkKept(ws[n])
  {
    hide Apply, WorkKept, Inv, LeftAlone;
    if n == 0 {
      NothingMadeYet(ws[0]);
    } else {
      UnforcedRunsLoseNoBranchWork(ws, acts, n - 1);
      LeftAloneIsHarmless(ws[n - 1], acts[n - 1]);
      StepKeepsWork(ws[n - 1], acts[n - 1]);
    }
  }

  // ---- a release on its own -------------------------------------------------------------

  function ReleaseRank(pc: ReleasePc): nat {
    match pc
    case Begin => 8
    case CheckTree(_) => 7
    case CheckHead(_) => 6
    case Detach(_, _) => 5
    case Reset(_, _) => 4
    case Clean(_, _) => 3
    case DropBranch(_, _) => 2
    case Verify(_) => 1
    case Ended(_) => 0
  }

  ghost predicate GetsOn(w: World, w1: World, r: nat)
    requires CanStep(w, r)
  {
    && |w1.releases| == |w.releases| && CanStep(w1, r)
    && ReleaseRank(w1.releases[r].pc) < ReleaseRank(w.releases[r].pc)
  }

  lemma GateGetsOn(w: World, r: nat, io: Io)
    requires CanStep(w, r) && (w.releases[r].pc.Begin? || w.releases[r].pc.CheckTree? || w.releases[r].pc.CheckHead?)
    ensures GetsOn(w, AdvanceRelease(w, r, io), r)
  {
    hide Unmerged;
  }

  lemma CommandGetsOn(w: World, r: nat, io: Io)
    requires CanStep(w, r) && (w.releases[r].pc.Detach? || w.releases[r].pc.Reset? || w.releases[r].pc.Clean?)
    ensures GetsOn(w, AdvanceRelease(w, r, io), r)
  {
  }

  lemma CleanupGetsOn(w: World, r: nat, io: Io)
    requires CanStep(w, r) && (w.releases[r].pc.DropBranch? || w.releases[r].pc.Verify?)
    ensures GetsOn(w, AdvanceRelease(w, r, io), r)
  {
  }

  lemma ReleaseGetsOn(w: World, r: nat, io: Io)
    requires CanStep(w, r) && !w.releases[r].pc.Ended?
    ensures GetsOn(w, AdvanceRelease(w, r, io), r)
  {
    hide AdvanceRelease, GetsOn;
    var pc := w.releases[r].pc;
    if pc.Begin? || pc.CheckTree? || pc.CheckHead? {
      GateGetsOn(w, r, io);
    } else if pc.Detach? || pc.Reset? || pc.Clean? {
      CommandGetsOn(w, r, io);
    } else {
      CleanupGetsOn(w, r, io);
    }
  }

  /** All its steps in a row, every command going through but the deletion, which may. */
  function SoloRelease(w: World, r: nat, deletes: bool): (done: World)
    requires CanStep(w, r)
    ensures |done.releases| == |w.releases| && done.releases[r].pc.Ended?
    decreases ReleaseRank(w.releases[r].pc)
  {
    if w.releases[r].pc.Ended? then w
    else
      var io := ALL_WELL.(gitOk := deletes || !w.releases[r].pc.DropBranch?);
      ReleaseGetsOn(w, r, io);
      SoloRelease(AdvanceRelease(w, r, io), r, deletes)
  }

  lemma SoloReleaseStep(w: World, r: nat, deletes: bool)
    requires CanStep(w, r) && !w.releases[r].pc.Ended?
    ensures var next := AdvanceRelease(w, r, ALL_WELL.(gitOk := deletes || !w.releases[r].pc.DropBranch?));
            CanStep(next, r) && SoloRelease(w, r, deletes) == SoloRelease(next, r, deletes)
  {
    ReleaseGetsOn(w, r, ALL_WELL.(gitOk := deletes || !w.releases[r].pc.DropBranch?));
  }

  lemma SoloReleaseEnd(w: World, r: nat, deletes: bool)
    requires CanStep(w, r) && w.releases[r].pc.Ended?
    ensures SoloRelease(w, r, deletes) == w
  {
  }
  lemma SetReleaseTwice(w: World, r: nat, a: ReleasePc, b: ReleasePc)
    requires r < |w.releases|
    ensures SetRelease(SetRelease(w, r, a), r, b) == SetRelease(w, r, b)
  {
    assert w.releases[r := w.releases[r].(pc := a)][r := w.releases[r].(pc := b)]
        == w.releases[r := w.releases[r].(pc := b)];
  }

  function SeenNow(w: World, slot: nat): Option<SeenTip>
    requires slot < |w.slots|
  {
    if w.slots[slot].head.OnBranch? && w.slots[slot].head.name in w.refs
    then Some(SeenTip(w.slots[slot].head.name, w.refs[w.slots[slot].head.name])) else None
  }

  lemma SoloGates(w: World, r: nat, deletes: bool)
    requires Inv(w) && CanStep(w, r) && w.releases[r].pc.Begin?
    ensures var Releasing(slot, force, _) := w.releases[r];
            if ReleaseAllowed(w, slot, force) then
              CanStep(SetRelease(w, r, Detach(w.main, SeenNow(w, slot))), r)
              && SoloRelease(w, r, deletes) == SoloRelease(SetRelease(w, r, Detach(w.main, SeenNow(w, slot))), r, deletes)
            else SoloRelease(w, r, deletes) == SetRelease(w, r, Ended(false))
  {
    hide SoloRelease, Unmerged, Inv;
    var Releasing(slot, force, _) := w.releases[r];
    var w1 := SetRelease(w, r, CheckTree(w.main));
    SoloReleaseStep(w, r, deletes);
    SoloReleaseStep(w1, r, deletes);
    if !force && w.slots[slot].dirty {
      SetReleaseTwice(w, r, CheckTree(w.main), Ended(false));
      SoloReleaseEnd(SetRelease(w, r, Ended(false)), r, deletes);
    } else {
      var w2 := SetRelease(w, r, CheckHead(w.main));
      SetReleaseTwice(w, r, CheckTree(w.main), CheckHead(w.main));
      SoloReleaseStep(w2, r, deletes);
      var pc := AdvanceRelease(w2, r, ALL_WELL).releases[r].pc;
      SetReleaseTwice(w, r, CheckHead(w.main), pc);
      assert AdvanceRelease(w2, r, ALL_WELL) == SetRelease(w2, r, pc);
      if pc.Ended? {
        SoloReleaseEnd(SetRelease(w, r, pc), r, deletes);
      }
    }
  }

  /** Detached at main and clean, its return on record; the branch not yet deleted. */
  function Returned(w: World, slot: nat): World
    requires slot < |w.slots|
  {
    w.(slots := w.slots[slot := Slot(Detached(w.main), false)], log := w.log + [Gave(slot)])
  }

  lemma SoloCommands(w: World, r: nat, seen: Option<SeenTip>, deletes: bool)
    requires Inv(w) && CanStep(w, r) && w.releases[r].pc == Detach(w.main, seen)
    ensures var next := SetRelease(Returned(w, w.releases[r].slot), r, DropBranch(w.main, seen));
            CanStep(next, r) && SoloRelease(w, r, deletes) == SoloRelease(next, r, deletes)
  {
    hide SoloRelease, Inv;
    var slot := w.releases[r].slot;
    var s := w.slots[slot];
    var away := w.(slots := w.slots[slot := s.(head := Detached(w.main))], log := w.log + [Gave(slot)]);
    SoloReleaseStep(w, r, deletes);
    var w1 := SetRelease(away, r, Reset(w.main, seen));
    assert AdvanceRelease(w, r, ALL_WELL) == w1;
    SoloReleaseStep(w1, r, deletes);
    var back := Returned(w, slot);
    assert away.slots[slot := Slot(Detached(w.main), false)] == back.slots;
    var w2 := SetRelease(back, r, Clean(w.main, seen));
    SetReleaseTwice(back, r, Reset(w.main, seen), Clean(w.main, seen));
    assert AdvanceRelease(w1, r, ALL_WELL) == w2;
    SoloReleaseStep(w2, r, deletes);
    SetReleaseTwice(back, r, Clean(w.main, seen), DropBranch(w.main, seen));
    assert back.slots[slot := Slot(Detached(w.main), false)] == back.slots;
  }

  lemma SoloCleanup(w: World, r: nat, slot: nat, seen: Option<SeenTip>, deletes: bool)
    requires Inv(w) && slot < |w.slots|
    requires if w.slots[slot].head.OnBranch? then seen.Some? && seen.value.name == w.slots[slot].head.name else seen == None
    requires r < |w.releases| && w.releases[r].slot == slot
    requires var last := SetRelease(Returned(w, slot), r, DropBranch(w.main, seen)); CanStep(last, r)
    ensures SoloRelease(SetRelease(Returned(w, slot), r, DropBranch(w.main, seen)), r, deletes)
         == SetRelease(ReleaseSlot(w, slot, deletes), r, Ended(true))
  {
    hide SoloRelease;
    var last := SetRelease(Returned(w, slot), r, DropBranch(w.main, seen));
    var io := ALL_WELL.(gitOk := deletes);
    SoloReleaseStep(last, r, deletes);
    var given := ReleaseSlot(w, slot, deletes);
    assert seen.Some? ==> !BranchInUse(last, seen.value.name);
    var w1 := SetRelease(given, r, Verify(w.main));
    SetReleaseTwice(given, r, DropBranch(w.main, seen), Verify(w.main));
    assert AdvanceRelease(last, r, io) == w1;
    SoloReleaseStep(w1, r, deletes);
    SetReleaseTwice(given, r, Verify(w.main), Ended(true));
    SoloReleaseEnd(SetRelease(given, r, Ended(true)), r, deletes);
  }

  /** Undisturbed, a release is refused by its gates or has the effect of a single step, and says which. */
  lemma UndisturbedReleaseIsAtomic(w: World, r: nat, deletes: bool)
    requires Inv(w) && CanStep(w, r) && w.releases[r].pc.Begin?
    ensures var Releasing(slot, force, _) := w.releases[r];
            SoloRelease(w, r, deletes) ==
              if ReleaseAllowed(w, slot, force) then SetRelease(ReleaseSlot(w, slot, deletes), r, Ended(true))
              else SetRelease(w, r, Ended(false))
  {
    hide SoloRelease, Inv, ReleaseAllowed;
    var Releasing(slot, force, _) := w.releases[r];
    SoloGates(w, r, deletes);
    if ReleaseAllowed(w, slot, force) {
      var seen := SeenNow(w, slot);
      var gated := SetRelease(w, r, Detach(w.main, seen));
      GatedKeepsInv(w, r);
      SoloCommands(gated, r, seen, deletes);
      var last := DropBranch(w.main, seen);
      SetReleaseTwice(Returned(w, slot), r, Detach(w.main, seen), last);
      SoloCleanup(w, r, slot, seen, deletes);
    }
  }

  lemma GatedKeepsInv(w: World, r: nat)
    requires Inv(w) && CanStep(w, r) && w.releases[r].pc.Begin?
    requires ReleaseAllowed(w, w.releases[r].slot, w.releases[r].force)
    ensures Inv(SetRelease(w, r, Detach(w.main, SeenNow(w, w.releases[r].slot))))
  {
    var release := w.releases[r];
    AncestorOfItself(w.dag, w.main);
    var s := w.slots[release.slot];
    if s.head.OnBranch? {
      AheadZeroIffMerged(w.dag, w.refs[s.head.name], w.main);
    }
    ReleasePcKeepsInv(w, r, Detach(w.main, SeenNow(w, release.slot)));
  }

  // ---- what a release loses -------------------------------------------------------------

  /** Held by main, by a branch, or by the head of some slot. */
  ghost predicate Anchored(w: World, c: Commit)
    requires GraphFits(w) && HeadsFit(w)
  {
    Reachable(w, c) || exists i :: 0 <= i < |w.slots| && c in Ancestors(w.dag, HeadCommit(w, w.slots[i]))
  }

  /** The slot holds the commit, and neither main, nor a branch but its own, nor another slot's head does. */
  ghost predicate HeldOnlyIn(w: World, slot: nat, c: Commit)
    requires GraphFits(w) && HeadsFit(w) && slot < |w.slots|
  {
    && c in Ancestors(w.dag, HeadCommit(w, w.slots[slot])) && c !in Ancestors(w.dag, w.main)
    && (forall n :: n in w.refs && OnBranch(n) != w.slots[slot].head ==> c !in Ancestors(w.dag, w.refs[n]))
    && (forall i :: 0 <= i < |w.slots| && i != slot ==> c !in Ancestors(w.dag, HeadCommit(w, w.slots[i])))
  }

  /** A release, forced or not, strands exactly what only this slot holds, unless that is a branch that stays. */
  lemma ReleaseLosesExactly(w: World, slot: nat, deletes: bool, c: Commit)
    requires Inv(w) && slot < |w.slots|
    ensures Inv(ReleaseSlot(w, slot, deletes))
    ensures Anchored(w, c) && !Anchored(ReleaseSlot(w, slot, deletes), c) <==>
            HeldOnlyIn(w, slot, c) && (w.slots[slot].head.Detached? || deletes)
  {
    ReleaseKeepsInv(w, slot, deletes);
    var w1, head := ReleaseSlot(w, slot, deletes), w.slots[slot].head;
    hide Ancestors, Inv, HistoryFits, LocksExact, ReleasesFit, VerifiedDetached;
    ShapeOf(w);
    ShapeOf(w1);
    assert HeadCommit(w1, w1.slots[slot]) == w.main;
    assert forall i :: 0 <= i < |w.slots| && i != slot ==> HeadCommit(w1, w1.slots[i]) == HeadCommit(w, w.slots[i]);
    if HeldOnlyIn(w, slot, c) && (head.Detached? || deletes) {
      assert forall n :: n in w1.refs ==> n in w.refs && OnBranch(n) != head && w1.refs[n] == w.refs[n];
    }
    if Anchored(w, c) && !Anchored(w1, c) {
      StrandedWasHeldOnlyIn(w, slot, deletes, c);
    }
  }

  lemma StrandedWasHeldOnlyIn(w: World, slot: nat, deletes: bool, c: Commit)
    requires Inv(w) && slot < |w.slots| && Inv(ReleaseSlot(w, slot, deletes))
    requires Anchored(w, c) && !Anchored(ReleaseSlot(w, slot, deletes), c)
    ensures HeldOnlyIn(w, slot, c) && (w.slots[slot].head.Detached? || deletes)
  {
    var w1, head := ReleaseSlot(w, slot, deletes), w.slots[slot].head;
    hide Ancestors, Inv, HistoryFits, LocksExact, ReleasesFit, VerifiedDetached;
    ShapeOf(w);
    ShapeOf(w1);
    forall n | n in w.refs && OnBranch(n) != head
      ensures c !in Ancestors(w.dag, w.refs[n])
    {
      assert n in w1.refs && w1.refs[n] == w.refs[n];
    }
    forall i | 0 <= i < |w.slots| && i != slot
      ensures c !in Ancestors(w.dag, HeadCommit(w, w.slots[i]))
    {
      assert HeadCommit(w1, w1.slots[i]) == HeadCommit(w, w.slots[i]);
    }
  }

  /**
   * An unforced release strands exactly the commits below a detached head that are reachable from neither main, nor a
   * branch, nor another slot's head: the gate keeps branches only.
   */
  lemma UnforcedReleaseLosesExactly(w: World, slot: nat, deletes: bool, c: Commit)
    requires Inv(w) && slot < |w.slots| && ReleaseAllowed(w, slot, false)
    ensures Inv(ReleaseSlot(w, slot, deletes))
    ensures Anchored(w, c) && !Anchored(ReleaseSlot(w, slot, deletes), c) <==>
            (w.slots[slot].head.Detached? && c in Ancestors(w.dag, HeadCommit(w, w.slots[slot])) && !Reachable(w, c)
             && forall i :: 0 <= i < |w.slots| && i != slot ==> c !in Ancestors(w.dag, HeadCommit(w, w.slots[i])))
  {
    ReleaseLosesExactly(w, slot, deletes, c);
    hide Ancestors, HistoryFits, LocksExact, ReleasesFit, VerifiedDetached, Anchored, ReleaseSlot;
    var head := w.slots[slot].head;
    if head.OnBranch? {
      AheadZeroIffMerged(w.dag, w.refs[head.name], w.main);
    }
  }

  /** In particular a commit made on a free slot, which nothing else holds. */
  lemma DetachedCommitIsStranded(w: World, slot: nat)
    requires Inv(w) && slot < |w.slots| && IsFree(w.slots[slot])
    ensures var w1 := CommitAt(w, slot);
      && Inv(w1) && ReleaseAllowed(w1, slot, false) && Anchored(w1, |w.dag|)
      && var w2 := ReleaseSlot(w1, slot, true);
      Inv(w2) && !Anchored(w2, |w.dag|)
  {
    var w1, c := CommitAt(w, slot), |w.dag|;
    CommitKeepsInv(w, slot);
    NewCommitIsHeldOnlyThere(w, slot);
    UnforcedReleaseLosesExactly(w1, slot, true, c);
  }

  lemma NewCommitIsHeldOnlyThere(w: World, slot: nat)
    requires Inv(w) && slot < |w.slots| && Inv(CommitAt(w, slot))
    ensures HeldOnlyIn(CommitAt(w, slot), slot, |w.dag|)
  {
    var w1, c := CommitAt(w, slot), |w.dag|;
    AncestorOfItself(w1.dag, c);
    AncestorsAreOlder(w1.dag, w1.main);
    forall n | n in w1.refs && OnBranch(n) != w1.slots[slot].head ensures c !in Ancestors(w1.dag, w1.refs[n]) {
      AncestorsAreOlder(w1.dag, w1.refs[n]);
    }
    forall i | 0 <= i < |w1.slots| && i != slot ensures c !in Ancestors(w1.dag, HeadCommit(w1, w1.slots[i])) {
      AncestorsAreOlder(w1.dag, HeadCommit(w1, w1.slots[i]));
    }
  }

  lemma AncestorsAreOlder(dag: Dag, c: Commit)
    requires Valid(dag) && c < |dag|
    ensures forall a :: a in Ancestors(dag, c) ==> a <= c
  {
    forall a | a in Ancestors(dag, c) ensures a <= c {
      AncestorsTransitive(dag, a, c);
    }
  }

  // ---- a commit between the gate and the detach -----------------------------------------

  /**
   * Nothing holds a worker off the slot while it is released: a commit made on the branch right after the gate is
   * stranded, and the release reports success.
   */
  lemma CommitAfterGateIsLost(w: World, r: nat)
    requires Inv(w) && CanStep(w, r) && w.releases[r].pc == Detach(w.main, SeenNow(w, w.releases[r].slot))
    requires w.slots[w.releases[r].slot].head.OnBranch?
    ensures var w1 := CommitAt(w, w.releases[r].slot);
            Inv(w1) && CanStep(w1, r) && Made(|w.dag|) in w1.log
            && var w2 := SoloRelease(w1, r, true);
               Inv(w2) && w2.releases[r].pc == Ended(true) && Made(|w.dag|) in w2.log && !Anchored(w2, |w.dag|)
  {
    hide SoloRelease, Inv, Ancestors, Anchored;
    var slot := w.releases[r].slot;
    var w1 := CommitAt(w, slot);
    var n := w.slots[slot].head.name;
    ShapeOf(w);
    CommitKeepsInv(w, slot);
    ShapeOf(w1);
    NewCommitIsHeldOnlyThere(w, slot);
    ReleaseLosesExactly(w1, slot, true, |w.dag|);
    var seen := SeenNow(w, slot);
    SoloCommands(w1, r, seen, true);
    SoloCleanup(w1, r, slot, seen, true);
    var w2 := ReleaseSlot(w1, slot, true);
    EndedKeepsInv(w2, r);
    AnchorsIgnoreReleases(w2, r, Ended(true), |w.dag|);
  }

  lemma EndedKeepsInv(w: World, r: nat)
    requires Inv(w) && r < |w.releases|
    ensures Inv(SetRelease(w, r, Ended(true)))
  {
    assert ReleaseFits(w, w.releases[r]);
    ReleasePcKeepsInv(w, r, Ended(true));
  }

  lemma AnchorsIgnoreReleases(w: World, r: nat, pc: ReleasePc, c: Commit)
    requires Inv(w) && r < |w.releases| && Inv(SetRelease(w, r, pc))
    ensures Anchored(SetRelease(w, r, pc), c) <==> Anchored(w, c)
  {
    hide Ancestors;
    var w1 := SetRelease(w, r, pc);
    assert forall i :: 0 <= i < |w.slots| ==> HeadCommit(w1, w1.slots[i]) == HeadCommit(w, w.slots[i]);
  }

  /** And a worker who is given the slot between the detach and the reset has the new branch taken back to main. */
  lemma NewHolderIsTakenBack(w: World, r: nat, c: Commit)
    requires Inv(w) && CanStep(w, r) && w.releases[r].pc.Reset? && w.slots[w.releases[r].slot].head.OnBranch?
    ensures var slot, w1 := w.releases[r].slot, AdvanceRelease(w, r, ALL_WELL);
            Inv(w1) && w1.slots[slot].head == w.slots[slot].head
            && w1.refs[w.slots[slot].head.name] == w.releases[r].pc.main
            && (HeldOnlyIn(w, slot, c) ==> !Anchored(w1, c))
  {
    hide Ancestors, HistoryFits, LocksExact, VerifiedDetached;
    var slot, w1 := w.releases[r].slot, AdvanceRelease(w, r, ALL_WELL);
    AdvanceReleaseKeepsInv(w, r, ALL_WELL);
    assert ReleaseFits(w, w.releases[r]);
    MainBelow(w, w.releases[r]);
    assert HeadCommit(w1, w1.slots[slot]) == w.releases[r].pc.main;
    assert forall i :: 0 <= i < |w.slots| && i != slot ==> HeadCommit(w1, w1.slots[i]) == HeadCommit(w, w.slots[i]);
  }
}

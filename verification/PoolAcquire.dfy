/**
 * The acquire loop itself, over the fields it changes: without interference it is the step system driven to its
 * end, whatever the operating system and git answer on the way.
 */
module PoolAcquire {
  import opened Wrappers
  import opened CommitGraph
  import opened PoolProtocol
  import opened PoolTraces
  import opened PoolAllocation

  /** Answers to the steps of one run, by their number. */
  type Answers = nat -> Io

  /** Run `p` makes all its remaining steps, the next of them being its k-th. */
  function Drive(w: World, p: nat, answers: Answers, k: nat): (done: World)
    requires p < |w.runs| && InBounds(w, w.runs[p].pc)
    ensures |done.runs| == |w.runs| && done.runs[p].pc.Done?
    decreases Rank(w.runs[p].pc, |w.slots|)
  {
    if w.runs[p].pc.Done? then w
    else
      AdvanceLowersRank(w, p, answers(k));
      Drive(AdvanceRun(w, p, answers(k)), p, answers, k + 1)
  }

  lemma DriveStep(w: World, p: nat, answers: Answers, k: nat)
    requires p < |w.runs| && InBounds(w, w.runs[p].pc) && !w.runs[p].pc.Done?
    ensures var next := AdvanceRun(w, p, answers(k));
            |next.runs| == |w.runs| && InBounds(next, next.runs[p].pc)
            && Drive(w, p, answers, k) == Drive(next, p, answers, k + 1)
  {
    AdvanceLowersRank(w, p, answers(k));
  }

  /** If nothing fails that does not have to, this is the lone run of the allocation results. */
  lemma {:induction false} DriveIsSolo(w: World, p: nat, answers: Answers, k: nat)
    requires p < |w.runs| && InBounds(w, w.runs[p].pc) && forall i :: answers(i) == ALL_WELL
    ensures Drive(w, p, answers, k) == Solo(w, p)
    decreases Rank(w.runs[p].pc, |w.slots|)
  {
    hide AdvanceRun, Rank;
    if !w.runs[p].pc.Done? {
      DriveStep(w, p, answers, k);
      AdvanceLowersRank(w, p, answers(k));
      SoloStep(w, p, AdvanceRun(w, p, ALL_WELL));
      DriveIsSolo(AdvanceRun(w, p, ALL_WELL), p, answers, k + 1);
    }
  }

  class Pool {
    var dag: Dag
    var main: Commit
    var refs: map<string, Commit>
    var elsewhere: set<string>
    var slots: seq<Slot>
    var locks: map<nat, nat>
    ghost var log: seq<Event>

    constructor (w: World)
      ensures forall r :: Seen(r) == w.(runs := [r], releases := [])
    {
      dag, main, refs, elsewhere := w.dag, w.main, w.refs, w.elsewhere;
      slots, locks, log := w.slots, w.locks, w.log;
    }

    /** The pool with a single run in it, and no release. */
    ghost function Seen(r: Run): World
      reads this
    {
      World(dag, main, refs, elsewhere, slots, locks, [r], [], log)
    }

    /** The state of the pool, leaving out who runs in it. */
    ghost function Now(): World
      reads this
    {
      World(dag, main, refs, elsewhere, slots, locks, [], [], log)
    }

    /** Detached, clean and unlocked. */
    predicate Available(slot: nat)
      reads this
    {
      slot < |slots| && slots[slot].head.Detached? && !slots[slot].dirty && slot !in locks
    }

    /** No branch of that name, in the pool or outside. */
    predicate NameIsNew(branch: Option<string>)
      reads this
    {
      branch.Some? ==> branch.value !in refs && branch.value !in elsewhere
    }

    method BranchInUse(name: string) returns (used: bool)
      ensures forall r :: used == PoolProtocol.BranchInUse(Seen(r), name)
      ensures used <==> name in elsewhere || exists s :: 0 <= s < |slots| && slots[s].head == OnBranch(name)
    {
      if name in elsewhere {
        return true;
      }
      for i := 0 to |slots|
        invariant forall j :: 0 <= j < i ==> slots[j].head != OnBranch(name)
      {
        if slots[i].head == OnBranch(name) {
          return true;
        }
      }
      return false;
    }

    /** `git checkout` in a slot held by the run. */
    method CheckOut(slot: nat, branch: Option<string>, base: Commit, io: Io) returns (ok: bool)
      requires slot < |slots|
      modifies this
      ensures dag == old(dag) && main == old(main) && elsewhere == old(elsewhere)
      ensures ok <==> io.gitOk && old(NameIsNew(branch))
      ensures ok ==> PutAt(old(Now()), Now(), slot, branch, base) && locks == old(locks)
      ensures !ok ==> HeadsStay(old(Now()), Now()) && locks == old(locks) - {slot}
      ensures forall b, rest :: rest != [] && rest[0] == slot ==>
                Seen(Run(branch, b, if ok then CheckedOut(slot) else Done(CheckoutFailed)))
                == Checkout(old(Seen(Run(branch, b, Verified(base, rest)))), 0, base, slot, io)
    {
      if !io.gitOk || (branch.Some? && (branch.value in refs || branch.value in elsewhere)) {
        slots := slots[slot := slots[slot].(dirty := slots[slot].dirty || io.leavesDirty)];
        locks := locks - {slot};
        return false;
      }
      slots := slots[slot := slots[slot].(head := if branch.Some? then OnBranch(branch.value) else Detached(base))];
      if branch.Some? {
        refs := refs[branch.value := base];
      }
      log := log + [Took(0, slot, branch.Some?)];
      return true;
    }

    /** The slots that look free, in order. */
    method Inventory(ghost start: World, branch: Option<string>, base: Option<Commit>, resolved: Commit,
                     answers: Answers, k: nat) returns (free: seq<nat>)
      requires Reached(start, Seen(Run(branch, base, Scan(resolved, 0, []))), answers, k)
      ensures forall j :: 0 <= j < |free| ==> free[j] < |slots|
      ensures Reached(start, Seen(Run(branch, base, Scan(resolved, |slots|, free))), answers, k + |slots|)
    {
      hide Drive, AdvanceRun, Reached;
      free := [];
      for i := 0 to |slots|
        invariant forall j :: 0 <= j < |free| ==> free[j] < |slots|
        invariant Reached(start, Seen(Run(branch, base, Scan(resolved, i, free))), answers, k + i)
      {
        TakeStep(start, Seen(Run(branch, base, Scan(resolved, i, free))), answers, k + i);
        ScanningStep(Seen(Run(branch, base, Scan(resolved, i, free))), answers(k + i));
        if answers(k + i).classifyOk && IsFree(slots[i]) {
          free := free + [i];
        }
      }
    }

    /** The first half of a turn: lock, then look again under the lock. */
    method LockAndLook(ghost start: World, branch: Option<string>, base: Option<Commit>, resolved: Commit,
                       slot: nat, ghost rest: seq<nat>, answers: Answers, k: nat) returns (held: bool, next: nat)
      requires slot < |slots| && rest != [] && rest[0] == slot && forall j :: 0 <= j < |rest| ==> rest[j] < |slots|
      requires Reached(start, Seen(Run(branch, base, TryLock(resolved, rest))), answers, k)
      modifies this`locks
      ensures held <==> answers(k).openOk && answers(k + 1).classifyOk && old(Available(slot))
      ensures locks == if held then old(locks)[slot := 0] else old(locks)
      ensures if held then next == k + 2 && Reached(start, Seen(Run(branch, base, Verified(resolved, rest))), answers, next)
              else Reached(start, Seen(Run(branch, base, TryLock(resolved, rest[1..]))), answers, next)
    {
      hide Drive, AdvanceRun, Checkout, Reached;
      ReachedFits(start, Seen(Run(branch, base, TryLock(resolved, rest))), answers, k);
      TakeStep(start, Seen(Run(branch, base, TryLock(resolved, rest))), answers, k);
      TryingStep(Seen(Run(branch, base, TryLock(resolved, rest))), answers(k));
      var lockFile := answers(k).openOk;
      next := k + 1;
      if !lockFile || slot in locks {
        return false, next;
      }
      locks := locks[slot := 0];
      TakeStep(start, Seen(Run(branch, base, Locked(resolved, rest))), answers, next);
      LockedStep(Seen(Run(branch, base, Locked(resolved, rest))), answers(next));
      var classified := answers(next).classifyOk;
      next := next + 1;
      if !classified || !IsFree(slots[slot]) {
        locks := locks - {slot};
        return false, next;
      }
      return true, next;
    }

    /** One turn of the acquire loop: lock, look again, check out. None if the slot is passed over. */
    method TrySlot(ghost start: World, branch: Option<string>, base: Option<Commit>, resolved: Commit,
                   slot: nat, ghost rest: seq<nat>, answers: Answers, k: nat) returns (outcome: Option<Outcome>, next: nat)
      requires slot < |slots| && rest != [] && rest[0] == slot && forall j :: 0 <= j < |rest| ==> rest[j] < |slots|
      requires Reached(start, Seen(Run(branch, base, TryLock(resolved, rest))), answers, k)
      modifies this
      ensures dag == old(dag) && main == old(main) && elsewhere == old(elsewhere) && locks == old(locks)
      ensures outcome == (
                if !(answers(k).openOk && answers(k + 1).classifyOk && old(Available(slot))) then None
                else if answers(k + 2).gitOk && old(NameIsNew(branch)) then Some(Acquired(slot))
                else Some(CheckoutFailed))
      ensures outcome.None? ==> Now() == old(Now())
      ensures outcome == Some(Acquired(slot)) ==> PutAt(old(Now()), Now(), slot, branch, resolved)
      ensures outcome == Some(CheckoutFailed) ==> HeadsStay(old(Now()), Now())
      ensures outcome.None? ==> Reached(start, Seen(Run(branch, base, TryLock(resolved, rest[1..]))), answers, next)
      ensures outcome.Some? ==> Seen(Run(branch, base, Done(outcome.value))) == Drive(start, 0, answers, 0)
    {
      hide Drive, AdvanceRun, Checkout, Reached, PutAt, HeadsStay;
      var held;
      held, next := LockAndLook(start, branch, base, resolved, slot, rest, answers, k);
      if !held {
        return None, next;
      }
      ghost var locked := Now();
      var taken := TakeSlot(start, branch, base, resolved, slot, rest, answers, next);
      LocksAside(locked, Now(), old(locks), old(locks), slot, branch, resolved);
      return Some(taken), next + 2;
    }

    /** The second half of a turn: check out, and let go of the lock. */
    method TakeSlot(ghost start: World, branch: Option<string>, base: Option<Commit>, resolved: Commit,
                    slot: nat, ghost rest: seq<nat>, answers: Answers, k: nat) returns (outcome: Outcome)
      requires slot < |slots| && rest != [] && rest[0] == slot && forall j :: 0 <= j < |rest| ==> rest[j] < |slots|
      requires Reached(start, Seen(Run(branch, base, Verified(resolved, rest))), answers, k)
      modifies this
      ensures dag == old(dag) && main == old(main) && elsewhere == old(elsewhere) && locks == old(locks) - {slot}
      ensures outcome == if answers(k).gitOk && old(NameIsNew(branch)) then Acquired(slot) else CheckoutFailed
      ensures outcome.Acquired? ==> PutAt(old(Now()), Now(), slot, branch, resolved)
      ensures outcome == CheckoutFailed ==> HeadsStay(old(Now()), Now())
      ensures Seen(Run(branch, base, Done(outcome))) == Drive(start, 0, answers, 0)
    {
      hide Drive, AdvanceRun, Checkout, Reached, PutAt, HeadsStay;
      TakeStep(start, Seen(Run(branch, base, Verified(resolved, rest))), answers, k);
      FinalStep(Seen(Run(branch, base, Verified(resolved, rest))), answers(k));
      var ok := CheckOut(slot, branch, resolved, answers(k));
      if !ok {
        return CheckoutFailed;
      }
      TakeStep(start, Seen(Run(branch, base, CheckedOut(slot))), answers, k + 1);
      FinalStep(Seen(Run(branch, base, CheckedOut(slot))), answers(k + 1));
      LocksAside(old(Now()), Now(), locks, locks - {slot}, slot, branch, resolved);
      locks := locks - {slot};
      return Acquired(slot);
    }

    method Acquire(branch: Option<string>, base: Option<Commit>, answers: Answers) returns (outcome: Outcome)
      modifies this
      ensures dag == old(dag) && main == old(main) && elsewhere == old(elsewhere) && locks == old(locks)
      ensures outcome.Acquired? ==>
                && old(Available(outcome.slot)) && old(NameIsNew(branch))
                && PutAt(old(Now()), Now(), outcome.slot, branch, if base.Some? then base.value else old(main))
      ensures !outcome.Acquired? ==> HeadsStay(old(Now()), Now())
      ensures outcome == BadBase <==> base.Some? && base.value >= |old(dag)|
      ensures outcome == BranchBusy <==>
                outcome != BadBase && branch.Some?
                && (branch.value in old(elsewhere)
                    || exists s :: 0 <= s < |old(slots)| && old(slots[s].head) == OnBranch(branch.value))
      ensures Seen(Run(branch, base, Done(outcome))) == Drive(old(Seen(Run(branch, base, Resolve))), 0, answers, 0)
    {
      hide Drive, AdvanceRun, Checkout, Reached;
      hide PutAt, HeadsStay;
      ghost var start := Seen(Run(branch, base, Resolve));
      assert HeadsStay(Now(), Now()) by { NothingMoved(Now()); }
      Started(start, answers);
      var resolved := main;
      TakeStep(start, start, answers, 0);
      ReadingStep(start, answers(0));
      if base.Some? {
        if base.value >= |dag| {
          return BadBase;
        }
        resolved := base.value;
      }
      TakeStep(start, Seen(Run(branch, base, CheckBranch(resolved))), answers, 1);
      ReadingStep(Seen(Run(branch, base, CheckBranch(resolved))), answers(1));
      if branch.Some? {
        var used := BranchInUse(branch.value);
        if used {
          return BranchBusy;
        }
      }
      outcome := AcquireAt(start, branch, base, resolved, answers, 2);
    }

    /** The base and the name being settled: list the slots that look free, and try them in order. */
    method AcquireAt(ghost start: World, branch: Option<string>, base: Option<Commit>, resolved: Commit,
                     answers: Answers, from: nat) returns (outcome: Outcome)
      requires Reached(start, Seen(Run(branch, base, Scan(resolved, 0, []))), answers, from)
      modifies this
      ensures dag == old(dag) && main == old(main) && elsewhere == old(elsewhere) && locks == old(locks)
      ensures outcome.Acquired? || outcome == CheckoutFailed || outcome == Exhausted
      ensures outcome.Acquired? ==>
                old(Available(outcome.slot)) && old(NameIsNew(branch))
                && PutAt(old(Now()), Now(), outcome.slot, branch, resolved)
      ensures !outcome.Acquired? ==> HeadsStay(old(Now()), Now())
      ensures Seen(Run(branch, base, Done(outcome))) == Drive(start, 0, answers, 0)
    {
      hide Drive, AdvanceRun, Checkout, Reached, PutAt, HeadsStay;
      assert HeadsStay(Now(), Now()) by { NothingMoved(Now()); }
      var free := Inventory(start, branch, base, resolved, answers, from);
      var k: nat := from + |slots|;
      TakeStep(start, Seen(Run(branch, base, Scan(resolved, |slots|, free))), answers, k);
      ScanningStep(Seen(Run(branch, base, Scan(resolved, |slots|, free))), answers(k));
      k := k + 1;
      if free == [] {
        return Exhausted;
      }
      assert free[0..] == free;
      for i := 0 to |free|
        invariant Now() == old(Now())
        invariant Reached(start, Seen(Run(branch, base, TryLock(resolved, free[i..]))), answers, k)
      {
        assert free[i..][1..] == free[i + 1..];
        var taken, next := TrySlot(start, branch, base, resolved, free[i], free[i..], answers, k);
        if taken.Some? {
          return taken.value;
        }
        k := next;
      }
      assert free[|free|..] == [];
      TakeStep(start, Seen(Run(branch, base, TryLock(resolved, []))), answers, k);
      TryingStep(Seen(Run(branch, base, TryLock(resolved, []))), answers(k));
      return Exhausted;
    }
  }

  /** The single run of `start` gets to `w` in k steps. */
  ghost predicate Reached(start: World, w: World, answers: Answers, k: nat) {
    |start.runs| == 1 && InBounds(start, start.runs[0].pc) && |w.runs| == 1 && InBounds(w, w.runs[0].pc)
    && Drive(w, 0, answers, k) == Drive(start, 0, answers, 0)
  }

  lemma TakeStep(start: World, w: World, answers: Answers, k: nat)
    requires Reached(start, w, answers, k) && !w.runs[0].pc.Done?
    ensures var next := AdvanceRun(w, 0, answers(k));
            Reached(start, next, answers, k + 1) && (next.runs[0].pc.Done? ==> next == Drive(start, 0, answers, 0))
  {
    hide AdvanceRun;
    DriveStep(w, 0, answers, k);
  }

  lemma LocksAside(w: World, w1: World, locks: map<nat, nat>, locks1: map<nat, nat>,
                   slot: nat, branch: Option<string>, base: Commit)
    ensures PutAt(w.(locks := locks), w1.(locks := locks1), slot, branch, base) == PutAt(w, w1, slot, branch, base)
    ensures HeadsStay(w.(locks := locks), w1.(locks := locks1)) == HeadsStay(w, w1)
  {
  }

  lemma NothingMoved(w: World)
    ensures HeadsStay(w, w)
  {
  }

  // ---- the steps of a single run --------------------------------------------------------

  function With(w: World, pc: Pc): World
    requires |w.runs| == 1
  {
    w.(runs := [w.runs[0].(pc := pc)])
  }

  lemma ReadingStep(w: World, io: Io)
    requires |w.runs| == 1 && InBounds(w, w.runs[0].pc)
    ensures w.runs[0].pc.Resolve? ==>
              AdvanceRun(w, 0, io) == With(w,
                if w.runs[0].base.None? then CheckBranch(w.main)
                else if w.runs[0].base.value < |w.dag| then CheckBranch(w.runs[0].base.value) else Done(BadBase))
    ensures w.runs[0].pc.CheckBranch? ==>
              AdvanceRun(w, 0, io) == With(w,
                if w.runs[0].branch.Some? && BranchInUse(w, w.runs[0].branch.value) then Done(BranchBusy)
                else Scan(w.runs[0].pc.base, 0, []))
  {
  }

  lemma ScanningStep(w: World, io: Io)
    requires |w.runs| == 1 && InBounds(w, w.runs[0].pc) && w.runs[0].pc.Scan?
    ensures var Scan(base, next, free) := w.runs[0].pc;
            AdvanceRun(w, 0, io) == With(w,
              if next == |w.slots| then (if free == [] then Done(Exhausted) else TryLock(base, free))
              else Scan(base, next + 1, if io.classifyOk && IsFree(w.slots[next]) then free + [next] else free))
  {
  }

  lemma TryingStep(w: World, io: Io)
    requires |w.runs| == 1 && InBounds(w, w.runs[0].pc) && w.runs[0].pc.TryLock?
    ensures var TryLock(base, rest) := w.runs[0].pc;
            AdvanceRun(w, 0, io) ==
              if rest == [] then With(w, Done(Exhausted))
              else if !io.openOk || rest[0] in w.locks then With(w, TryLock(base, rest[1..]))
              else With(w, Locked(base, rest)).(locks := w.locks[rest[0] := 0])
  {
  }

  lemma LockedStep(w: World, io: Io)
    requires |w.runs| == 1 && InBounds(w, w.runs[0].pc) && w.runs[0].pc.Locked?
    ensures var Locked(base, rest) := w.runs[0].pc;
            AdvanceRun(w, 0, io) ==
              if io.classifyOk && IsFree(w.slots[rest[0]]) then With(w, Verified(base, rest))
              else With(w, TryLock(base, rest[1..])).(locks := w.locks - {rest[0]})
  {
  }

  lemma FinalStep(w: World, io: Io)
    requires |w.runs| == 1 && InBounds(w, w.runs[0].pc)
    ensures w.runs[0].pc.Verified? ==>
              AdvanceRun(w, 0, io) == Checkout(w, 0, w.runs[0].pc.base, w.runs[0].pc.rest[0], io)
    ensures w.runs[0].pc.CheckedOut? ==>
              var slot := w.runs[0].pc.slot;
              AdvanceRun(w, 0, io) == With(w, Done(Acquired(slot))).(locks := w.locks - {slot})
  {
  }

  lemma Started(w: World, answers: Answers)
    requires |w.runs| == 1 && w.runs[0].pc.Resolve?
    ensures Reached(w, w, answers, 0)
  {
  }

  lemma ReachedFits(start: World, w: World, answers: Answers, k: nat)
    requires Reached(start, w, answers, k)
    ensures |start.runs| == 1 && InBounds(start, start.runs[0].pc)
  {
  }
}

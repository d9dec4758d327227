/**
 * The worktree pool as a step system: any number of acquire runs, each advancing one
 * shared read, lock or git command at a time, and any number of releases likewise, interleaved
 * with crashes, edits, commits and moves of main.
 */
module PoolProtocol {
  import opened Wrappers
  import opened CommitGraph

  datatype Head = OnBranch(name: string) | Detached(at: Commit)

  datatype Slot = Slot(head: Head, dirty: bool)

  datatype Outcome =
    | Acquired(slot: nat)
    | Exhausted
    | BranchBusy
    | BadBase
    | CheckoutFailed
    | Crashed

  /** Where an acquire run stands. `rest` is the part of its snapshot not yet tried. */
  datatype Pc =
    | Resolve
    | CheckBranch(base: Commit)
    | Scan(base: Commit, next: nat, free: seq<nat>)
    | TryLock(base: Commit, rest: seq<nat>)
    | Locked(base: Commit, rest: seq<nat>)
    | Verified(base: Commit, rest: seq<nat>)
    | CheckedOut(slot: nat)
    | Done(outcome: Outcome)

  datatype Run = Run(branch: Option<string>, base: Option<Commit>, pc: Pc)

  /** A branch as the gate of a release saw it. */
  datatype SeenTip = SeenTip(name: string, at: Commit)

  /** Where a release stands. `main` is the tip it resolved first; the slot is never locked. */
  datatype ReleasePc =
    | Begin
    | CheckTree(main: Commit)
    | CheckHead(main: Commit)
    | Detach(main: Commit, seen: Option<SeenTip>)
    | Reset(main: Commit, seen: Option<SeenTip>)
    | Clean(main: Commit, seen: Option<SeenTip>)
    | DropBranch(main: Commit, seen: Option<SeenTip>)
    | Verify(main: Commit)
    | Ended(ok: bool)

  datatype Releasing = Releasing(slot: nat, force: bool, pc: ReleasePc)

  /** History of the pool: who put a slot on a branch, who gave it back, what was committed there. */
  datatype Event =
    | Took(run: nat, slot: nat, named: bool)
    | Gave(slot: nat)
    | Made(commit: Commit)

  datatype World = World(
    dag: Dag,
    main: Commit,
    refs: map<string, Commit>,
    elsewhere: set<string>, // branches checked out outside the pool, the main checkout's included
    slots: seq<Slot>,       // in path order
    locks: map<nat, nat>,   // slot -> run holding its flock
    runs: seq<Run>,
    releases: seq<Releasing>,
    log: seq<Event>)

  /** Answers of the operating system and of git to one step. */
  datatype Io = Io(openOk: bool, classifyOk: bool, gitOk: bool, leavesDirty: bool)

  const ALL_WELL := Io(true, true, true, false)

  datatype Action =
    | Advance(run: nat, io: Io)
    | Crash(run: nat)
    | StepRelease(release: nat, io: Io)
    | CrashRelease(release: nat)
    | Edit(slot: nat, dirty: bool)
    | CommitIn(slot: nat)
    | AdvanceMain(parents: set<Commit>)

  predicate IsFree(s: Slot) {
    s.head.Detached? && !s.dirty
  }

  function HeadCommit(w: World, s: Slot): (c: Commit)
    requires s.head.OnBranch? ==> s.head.name in w.refs
  {
    match s.head
    case OnBranch(n) => w.refs[n]
    case Detached(c) => c
  }

  function Holding(pc: Pc): Option<nat> {
    match pc
    case Locked(_, rest) => if rest == [] then None else Some(rest[0])
    case Verified(_, rest) => if rest == [] then None else Some(rest[0])
    case CheckedOut(s) => Some(s)
    case _ => None
  }

  // ---- steps ----------------------------------------------------------------------------

  predicate BranchInUse(w: World, name: string) {
    name in w.elsewhere || exists i :: 0 <= i < |w.slots| && w.slots[i].head == OnBranch(name)
  }

  function SetPc(w: World, p: nat, pc: Pc): World
    requires p < |w.runs|
  {
    w.(runs := w.runs[p := w.runs[p].(pc := pc)])
  }

  function Unlock(w: World, slot: nat): World {
    w.(locks := w.locks - {slot})
  }

  /** One step of the acquire loop, in program order. */
  function AdvanceRun(w: World, p: nat, io: Io): World
    requires p < |w.runs| && InBounds(w, w.runs[p].pc)
  {
    var r := w.runs[p];
    match r.pc
    case Resolve =>
      if r.base.None? then SetPc(w, p, CheckBranch(w.main))
      else if r.base.value < |w.dag| then SetPc(w, p, CheckBranch(r.base.value))
      else SetPc(w, p, Done(BadBase))
    case CheckBranch(base) =>
      if r.branch.Some? && BranchInUse(w, r.branch.value) then SetPc(w, p, Done(BranchBusy))
      else SetPc(w, p, Scan(base, 0, []))
    case Scan(base, next, free) =>
      if next == |w.slots| then
        SetPc(w, p, if free == [] then Done(Exhausted) else TryLock(base, free))
      else if io.classifyOk && IsFree(w.slots[next]) then SetPc(w, p, Scan(base, next + 1, free + [next]))
      else SetPc(w, p, Scan(base, next + 1, free))
    case TryLock(base, rest) =>
      if rest == [] then SetPc(w, p, Done(Exhausted))
      else if !io.openOk || rest[0] in w.locks then SetPc(w, p, TryLock(base, rest[1..]))
      else SetPc(w, p, Locked(base, rest)).(locks := w.locks[rest[0] := p])
    case Locked(base, rest) =>
      if io.classifyOk && IsFree(w.slots[rest[0]]) then SetPc(w, p, Verified(base, rest))
      else Unlock(SetPc(w, p, TryLock(base, rest[1..])), rest[0])
    case Verified(base, rest) => Checkout(w, p, base, rest[0], io)
    case CheckedOut(slot) => Unlock(SetPc(w, p, Done(Acquired(slot))), slot)
    case Done(_) => w
  }

  /** `git checkout -b name base` or `git checkout --detach base` in the locked slot. */
  function Checkout(w: World, p: nat, base: Commit, slot: nat, io: Io): World
    requires p < |w.runs| && slot < |w.slots|
  {
    var named := w.runs[p].branch;
    if !io.gitOk || (named.Some? && (named.value in w.refs || named.value in w.elsewhere)) then
      Unlock(SetPc(w, p, Done(CheckoutFailed)), slot)
      .(slots := w.slots[slot := w.slots[slot].(dirty := w.slots[slot].dirty || io.leavesDirty)])
    else
      AfterCheckout(w, p, base, slot)
  }

  /** What a successful checkout leaves behind. */
  function AfterCheckout(w: World, p: nat, base: Commit, slot: nat): World
    requires p < |w.runs| && slot < |w.slots|
  {
    var named := w.runs[p].branch;
    var head := if named.Some? then OnBranch(named.value) else Detached(base);
    SetPc(w, p, CheckedOut(slot)).(
    slots := w.slots[slot := w.slots[slot].(head := head)],
    refs := if named.Some? then w.refs[named.value := base] else w.refs,
    log := w.log + [Took(p, slot, named.Some?)])
  }

  predicate InBounds(w: World, pc: Pc) {
    match pc
    case Scan(_, next, free) => next <= |w.slots| && forall i :: 0 <= i < |free| ==> free[i] < |w.slots|
    case TryLock(_, rest) => forall i :: 0 <= i < |rest| ==> rest[i] < |w.slots|
    case Locked(_, rest) => rest != [] && forall i :: 0 <= i < |rest| ==> rest[i] < |w.slots|
    case Verified(_, rest) => rest != [] && forall i :: 0 <= i < |rest| ==> rest[i] < |w.slots|
    case CheckedOut(slot) => slot < |w.slots|
    case _ => true
  }

  // ---- releases -------------------------------------------------------------------------

  function SetRelease(w: World, r: nat, pc: ReleasePc): World
    requires r < |w.releases|
  {
    w.(releases := w.releases[r := w.releases[r].(pc := pc)])
  }

  /** The commit gate: ahead of main, and main does not hold it. */
  predicate Unmerged(dag: Dag, tip: Commit, main: Commit)
    requires Valid(dag) && tip < |dag| && main < |dag|
  {
    tip != main && Ahead(dag, tip, main) > 0 && tip !in Ancestors(dag, main)
  }

  function MainOf(pc: ReleasePc): Option<Commit> {
    if pc.Begin? || pc.Ended? then None else Some(pc.main)
  }

  function SeenBy(pc: ReleasePc): Option<SeenTip> {
    if pc.Detach? || pc.Reset? || pc.Clean? || pc.DropBranch? then pc.seen else None
  }

  predicate CanStep(w: World, r: nat) {
    && r < |w.releases| && Valid(w.dag) && w.main < |w.dag|
    && var Releasing(slot, _, pc) := w.releases[r];
       && slot < |w.slots| && (MainOf(pc).Some? ==> MainOf(pc).value < |w.dag|)
       && (w.slots[slot].head.OnBranch? ==>
             w.slots[slot].head.name in w.refs && w.refs[w.slots[slot].head.name] < |w.dag|)
  }

  /** One step of a release, in program order; nothing holds the others off the slot meanwhile. */
  function AdvanceRelease(w: World, r: nat, io: Io): World
    requires CanStep(w, r)
  {
    var Releasing(slot, force, pc) := w.releases[r];
    var s := w.slots[slot];
    match pc
    case Begin => SetRelease(w, r, CheckTree(w.main))
    case CheckTree(main) =>
      SetRelease(w, r, if !io.classifyOk || (!force && s.dirty) then Ended(false) else CheckHead(main))
    case CheckHead(main) =>
      SetRelease(w, r,
        match s.head
        case Detached(_) => Detach(main, None)
        case OnBranch(n) =>
          if !force && Unmerged(w.dag, w.refs[n], main) then Ended(false)
          else Detach(main, Some(SeenTip(n, w.refs[n]))))
    case Detach(main, seen) =>
      if !io.gitOk then SetRelease(w, r, Ended(false))
      else
        SetRelease(w, r, Reset(main, seen)).(
        slots := w.slots[slot := s.(head := Detached(main))],
        log := w.log + [Gave(slot)])
    case Reset(main, seen) =>
      if !io.gitOk then SetRelease(w, r, Ended(false))
      else
        SetRelease(w, r, Clean(main, seen)).(
        slots := w.slots[slot := Slot(if s.head.OnBranch? then s.head else Detached(main), s.dirty && io.leavesDirty)],
        refs := if s.head.OnBranch? then w.refs[s.head.name := main] else w.refs)
    case Clean(main, seen) =>
      if !io.gitOk then SetRelease(w, r, Ended(false))
      else
        SetRelease(w, r, DropBranch(main, seen)).(
        slots := w.slots[slot := s.(dirty := s.dirty && io.leavesDirty)])
    case DropBranch(main, seen) =>
      SetRelease(w, r, Verify(main)).(
      refs := if Drops(w, seen, io) then w.refs - {seen.value.name} else w.refs)
    case Verify(main) => SetRelease(w, r, Ended(io.classifyOk && s == Slot(Detached(main), false)))
    case Ended(_) => w
  }

  /** `git branch -D`, which spares a branch that is checked out. */
  predicate Drops(w: World, seen: Option<SeenTip>, io: Io) {
    seen.Some? && io.gitOk && seen.value.name in w.refs && !BranchInUse(w, seen.value.name)
  }

  /** The two gates of an unforced release: clean tree, and no branch commit outside main. */
  ghost predicate ReleaseAllowed(w: World, slot: nat, force: bool)
    requires Valid(w.dag) && w.main < |w.dag| && slot < |w.slots|
  {
    var s := w.slots[slot];
    force || (
      && !s.dirty
      && (s.head.OnBranch? ==>
            && s.head.name in w.refs && w.refs[s.head.name] < |w.dag|
            && !Unmerged(w.dag, w.refs[s.head.name], w.main)))
  }

  ghost predicate Enabled(w: World, a: Action) {
    match a
    case Advance(p, _) => p < |w.runs| && InBounds(w, w.runs[p].pc) && !w.runs[p].pc.Done?
    case Crash(p) => p < |w.runs| && !w.runs[p].pc.Done?
    case StepRelease(r, _) => CanStep(w, r) && !w.releases[r].pc.Ended?
    case CrashRelease(r) => r < |w.releases| && !w.releases[r].pc.Ended?
    case Edit(slot, _) => slot < |w.slots|
    case CommitIn(slot) =>
      slot < |w.slots| && (w.slots[slot].head.OnBranch? ==> w.slots[slot].head.name in w.refs)
    case AdvanceMain(parents) => w.main in parents && forall c :: c in parents ==> c < |w.dag|
  }

  /** The kernel closes the dead process's descriptors, and with them its flock. */
  function CrashRun(w: World, p: nat): World
    requires p < |w.runs|
  {
    var dead := SetPc(w, p, Done(Crashed));
    match Holding(w.runs[p].pc)
    case None => dead
    case Some(slot) => Unlock(dead, slot)
  }

  /** All the steps of a release that goes through, seen as one. */
  function ReleaseSlot(w: World, slot: nat, deletesBranch: bool): World
    requires slot < |w.slots|
  {
    var head := w.slots[slot].head;
    w.(slots := w.slots[slot := Slot(Detached(w.main), false)],
    refs := if head.OnBranch? && deletesBranch then w.refs - {head.name} else w.refs,
    log := w.log + [Gave(slot)])
  }

  function CommitAt(w: World, slot: nat): World
    requires slot < |w.slots| && (w.slots[slot].head.OnBranch? ==> w.slots[slot].head.name in w.refs)
  {
    var made: Commit := |w.dag|;
    var w1 := w.(dag := w.dag + [{HeadCommit(w, w.slots[slot])}]);
    match w.slots[slot].head
    case OnBranch(n) => w1.(refs := w.refs[n := made], log := w.log + [Made(made)])
    case Detached(_) => w1.(slots := w.slots[slot := w.slots[slot].(head := Detached(made))])
  }

  function Apply(w: World, a: Action): World
    requires Enabled(w, a)
  {
    match a
    case Advance(p, io) => AdvanceRun(w, p, io)
    case Crash(p) => CrashRun(w, p)
    case StepRelease(r, io) => AdvanceRelease(w, r, io)
    case CrashRelease(r) => SetRelease(w, r, Ended(false))
    case Edit(slot, dirty) => w.(slots := w.slots[slot := w.slots[slot].(dirty := dirty)])
    case CommitIn(slot) => CommitAt(w, slot)
    case AdvanceMain(parents) => w.(dag := w.dag + [parents], main := |w.dag|)
  }

  /** A run of the whole system: `ws[i + 1]` follows from `ws[i]` by `acts[i]`. */
  ghost predicate Execution(ws: seq<World>, acts: seq<Action>) {
    && |ws| == |acts| + 1
    && forall i :: 0 <= i < |acts| ==> Enabled(ws[i], acts[i]) && ws[i + 1] == Apply(ws[i], acts[i])
  }

  /** Nobody has started: every run is about to resolve its base, every release its main, and no lock is held. */
  ghost predicate Initial(w: World) {
    && WellFormed(w)
    && w.locks == map[] && w.log == []
    && (forall p :: 0 <= p < |w.runs| ==> w.runs[p].pc == Resolve)
    && (forall r :: 0 <= r < |w.releases| ==> w.releases[r].slot < |w.slots| && w.releases[r].pc == Begin)
  }

  // ---- invariants -----------------------------------------------------------------------

  ghost predicate GraphFits(w: World) {
    && Valid(w.dag) && w.main < |w.dag|
    && (forall n :: n in w.refs ==> w.refs[n] < |w.dag|)
  }

  ghost predicate HeadsFit(w: World) {
    && (forall i :: 0 <= i < |w.slots| ==>
          match w.slots[i].head
          case OnBranch(n) => n in w.refs && n !in w.elsewhere
          case Detached(c) => c < |w.dag|)
    && (forall i, j :: 0 <= i < j < |w.slots| && w.slots[i].head.OnBranch? ==>
          w.slots[i].head != w.slots[j].head)
  }

  ghost predicate PcsFit(w: World) {
    forall p :: 0 <= p < |w.runs| ==> PcFits(w, w.runs[p].pc)
  }

  ghost predicate PcFits(w: World, pc: Pc) {
    && InBounds(w, pc)
    && (pc.CheckBranch? || pc.Scan? || pc.TryLock? || pc.Locked? || pc.Verified? ==> pc.base < |w.dag|)
  }

  ghost predicate WellFormed(w: World) {
    GraphFits(w) && HeadsFit(w) && PcsFit(w)
  }

  /** A flock is held by exactly the run whose program counter says so. */
  ghost predicate LocksExact(w: World) {
    && (forall s :: s in w.locks ==> w.locks[s] < |w.runs| && Holding(w.runs[w.locks[s]].pc) == Some(s))
    && (forall p :: 0 <= p < |w.runs| && Holding(w.runs[p].pc).Some? ==>
          var s := Holding(w.runs[p].pc).value; s in w.locks && w.locks[s] == p)
  }

  /** Between re-verification and checkout nobody else can put the slot on a branch. */
  ghost predicate VerifiedDetached(w: World) {
    forall p :: 0 <= p < |w.runs| ==> VerifiedSlotDetached(w, w.runs[p].pc)
  }

  predicate VerifiedSlotDetached(w: World, pc: Pc) {
    pc.Verified? && pc.rest != [] && pc.rest[0] < |w.slots| ==> w.slots[pc.rest[0]].head.Detached?
  }

  predicate Takes(e: Event, slot: nat) {
    e.Took? && e.slot == slot && e.named
  }

  /** The last named acquire of the slot has not been followed by a release. */
  ghost predicate Occupied(log: seq<Event>, slot: nat) {
    log != [] &&
    var last := log[|log| - 1];
    Takes(last, slot) || (last != Gave(slot) && Occupied(log[..|log| - 1], slot))
  }

  /** After a named acquire of a slot, nothing acquires that slot before it is released. */
  ghost predicate Exclusive(log: seq<Event>) {
    forall i, j :: 0 <= i < j < |log| && log[i].Took? && log[i].named && log[j].Took? && log[i].slot == log[j].slot ==>
      exists k :: i < k < j && log[k] == Gave(log[i].slot)
  }

  ghost predicate HistoryFits(w: World) {
    && Exclusive(w.log)
    && forall s :: 0 <= s < |w.slots| && Occupied(w.log, s) ==> w.slots[s].head.OnBranch?
  }

  /** Main never loses what a release has seen in it. */
  ghost predicate ReleaseFits(w: World, release: Releasing)
    requires GraphFits(w)
  {
    && release.slot < |w.slots|
    && (MainOf(release.pc).Some? ==> MainOf(release.pc).value in Ancestors(w.dag, w.main))
    && (!release.force && SeenBy(release.pc).Some? ==> SeenBy(release.pc).value.at in Ancestors(w.dag, w.main))
  }

  ghost predicate ReleasesFit(w: World)
    requires GraphFits(w)
  {
    forall r :: 0 <= r < |w.releases| ==> ReleaseFits(w, w.releases[r])
  }

  ghost predicate Inv(w: World) {
    WellFormed(w) && LocksExact(w) && VerifiedDetached(w) && HistoryFits(w) && ReleasesFit(w)
  }
}

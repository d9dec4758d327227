/**
 * Merging a branch into main: the gates, the rebase, the tip check and the merge in sequence, and what a whole
 * history of such merges can bring into main. Git's replies come in as parameters under their contracts.
 */
module MergeToMain {
  import opened Wrappers
  import opened Text
  import opened CommitGraph
  import opened MergeGate
  import opened ConflictMerge
  import opened ShellQuote
  import PoolProtocol

  type Head = PoolProtocol.Head

  /** The graph, main and the branches, and whether a merge is under way in the main checkout. */
  datatype State = State(dag: Dag, main: Commit, refs: map<string, Commit>, merging: bool)

  predicate Sound(s: State) {
    Valid(s.dag) && s.main < |s.dag| && "HEAD" !in s.refs && forall n :: n in s.refs ==> s.refs[n] < |s.dag|
  }

  // ---- git's replies --------------------------------------------------------------------

  /** One run of `git rebase main` and of the commands that may follow it. */
  datatype Rebase = Rebase(
    starts: bool,             // whether the command could be run at all
    ok: bool,
    stopped: Option<Commit>,  // where it last stopped, the head detached there; None if git refused to begin
    filesReadable: bool,      // whether the list of files in conflict could be asked for
    files: seq<string>,
    doc: Option<string>,      // the cumulative document as it stands in conflict, if it can be read
    docWritable: bool,
    addStarts: bool,
    continueStarts: bool,
    continueOk: bool,
    abortOk: bool,
    dag: Dag,                 // the graph with the commits it made
    tip: Commit)              // the new tip, if it completes

  datatype Env = Env(
    bypassSubject: bool, allowDrift: bool,
    head: Head, headReadable: bool,
    diff: Option<string>, rootReadable: bool, probe: string -> Probe,
    lease: Verdicts, tips: Verdicts, rev: RevParse, sha: Commit -> string,
    tipsReadable: bool, rebase: Rebase, postTipReadable: bool,
    repoPath: string, messagePath: string, messageWritable: bool,
    mergeOk: bool,     // whether git concludes the merge
    mergeStops: bool,  // whether it stops in the middle otherwise: a conflict, or a hook that blocks the commit
    mergeOutput: string, afterReadable: bool)

  /** A rebase only adds commits, and git begins no merge while one is under way. */
  predicate Fits(s: State, env: Env) {
    Valid(env.rebase.dag) && s.dag <= env.rebase.dag && env.rebase.tip < |env.rebase.dag|
    && (env.rebase.stopped.Some? ==> env.rebase.stopped.value < |env.rebase.dag|)
    && (env.head.Detached? ==> env.head.at < |s.dag|)
    && (s.merging ==> !env.mergeOk)
  }

  /** `git rev-parse --abbrev-ref HEAD`, which prints HEAD for a detached one. */
  function BranchName(head: Head): string {
    if head.OnBranch? then head.name else "HEAD"
  }

  function HeadTip(s: State, head: Head): Option<Commit> {
    match head
    case OnBranch(n) => if n in s.refs then Some(s.refs[n]) else None
    case Detached(c) => Some(c)
  }

  // ---- the rebase -----------------------------------------------------------------------

  const CUMULATIVE_MD := "docs/plans/cumulative.md"

  datatype RebaseOutcome = Clean | CleanWithAutoResolve | Conflict(kind: ConflictKind, files: seq<string>)

  function RebaseResult(auto: bool, rb: Rebase): Result<RebaseOutcome, GateError> {
    if !rb.starts then Err(GitFailed)
    else if rb.ok then Ok(Clean)
    else if !rb.filesReadable then Err(GitFailed)
    else if !auto || rb.files != [CUMULATIVE_MD] then Ok(Conflict(ContentMixed, rb.files))
    else
      match rb.doc
      case None => Err(GitFailed)
      case Some(doc) =>
        match Resolve(doc)
        case Err(kind) => Ok(Conflict(kind, rb.files))
        case Ok(_) =>
          if !rb.docWritable || !rb.addStarts || !rb.continueStarts then Err(GitFailed)
          else Ok(if rb.continueOk then CleanWithAutoResolve else Conflict(ContentMixed, rb.files))
  }

  /** The linked worktree: its head, and whether a rebase is under way in it. */
  datatype Worktree = Worktree(head: Head, rebasing: bool)

  function StoppedIn(before: Worktree, rb: Rebase): Worktree {
    if rb.stopped.Some? then Worktree(PoolProtocol.Detached(rb.stopped.value), true) else before
  }

  /** An error on the way returns at once; only a conflict is followed by an abort, whose failure goes unnoticed. */
  function WorktreeAfter(auto: bool, rb: Rebase, before: Worktree): Worktree {
    match RebaseResult(auto, rb)
    case Err(_) => if rb.starts then StoppedIn(before, rb) else before
    case Ok(Conflict(_, _)) => if rb.abortOk then before else StoppedIn(before, rb)
    case Ok(_) => Worktree(if before.head.OnBranch? then before.head else PoolProtocol.Detached(rb.tip), false)
  }

  class LinkedWorktree {
    var head: Head
    var rebasing: bool
    var origHead: Head  // what git would go back to

    constructor (head: Head)
      ensures View() == Worktree(head, false)
    {
      this.head, rebasing, origHead := head, false, head;
    }

    function View(): Worktree
      reads this
    {
      Worktree(head, rebasing)
    }

    method Abort(ok: bool)
      modifies this
      ensures View() == if ok && old(rebasing) then Worktree(old(origHead), false) else old(View())
    {
      if ok && rebasing {
        head, rebasing := origHead, false;
      }
    }

    method Complete(tip: Commit)
      modifies this
      ensures View() == Worktree(if old(origHead).OnBranch? then old(origHead) else PoolProtocol.Detached(tip), false)
    {
      rebasing := false;
      head := if origHead.OnBranch? then origHead else PoolProtocol.Detached(tip);
    }

    /** Also what is written over the document: only ever the resolver's result, and only if it alone is in conflict. */
    method RunRebaseMain(auto: bool, rb: Rebase) returns (r: Result<RebaseOutcome, GateError>, written: Option<string>)
      requires !rebasing
      modifies this
      ensures r == RebaseResult(auto, rb) && View() == WorktreeAfter(auto, rb, old(View()))
      ensures written.Some? ==> auto && rb.files == [CUMULATIVE_MD] && rb.doc.Some?
                                && Resolve(rb.doc.value) == Ok(written.value)
      ensures r == Ok(CleanWithAutoResolve) ==> written.Some?
      ensures r.Ok? && r.value.Conflict? && r.value.kind != ContentMixed ==> written.None?
    {
      hide Resolve;
      written := None;
      if !rb.starts {
        return Err(GitFailed), None;
      }
      origHead := head;
      if rb.ok {
        Complete(rb.tip);
        return Ok(Clean), None;
      }
      if rb.stopped.Some? {
        head, rebasing := PoolProtocol.Detached(rb.stopped.value), true;
      }
      if !rb.filesReadable {
        return Err(GitFailed), None;
      }
      var onlyCumulative := |rb.files| == 1 && rb.files[0] == CUMULATIVE_MD;
      if onlyCumulative && auto {
        assert rb.files == [CUMULATIVE_MD];
        if rb.doc.None? {
          return Err(GitFailed), None;
        }
        var resolved := ResolveCumulativeMdConflict(rb.doc.value);
        if resolved.Err? {
          Abort(rb.abortOk);
          return Ok(Conflict(resolved.error, rb.files)), None;
        }
        if !rb.docWritable {
          return Err(GitFailed), None;
        }
        written := Some(resolved.value);
        if !rb.addStarts || !rb.continueStarts {
          return Err(GitFailed), written;
        }
        if !rb.continueOk {
          Abort(rb.abortOk);
          return Ok(Conflict(ContentMixed, rb.files)), written;
        }
        Complete(rb.tip);
        return Ok(CleanWithAutoResolve), written;
      }
      Abort(rb.abortOk);
      return Ok(Conflict(ContentMixed, rb.files)), None;
    }
  }

  // ---- one merge ------------------------------------------------------------------------

  datatype Status = AlreadyMerged | DryRun | RebaseConflict | HookBlocked | Merged

  datatype Report = Report(status: Status, autoResolved: bool, driftOverride: bool)

  /** Everything that is checked before the branch is touched; the tip of the branch if it all passes. */
  function Admission(s: State, req: Request, env: Env): Result<Commit, GateError> {
    var valid := ValidateRequest(req, env.bypassSubject);
    if valid.Err? then Err(valid.error)
    else if !env.headReadable then Err(GitFailed)
    else if BranchName(env.head) != req.branch then Err(WrongBranch)
    else
      var carveout := CarveoutGate(env.diff, env.rootReadable, env.probe);
      if carveout.Err? then Err(carveout.error)
      else
        var voices := ValidateVoices(req.voices, carveout.value);
        var lease := LeaseGate(req.voices, env.lease);
        if voices.Err? then Err(voices.error)
        else if lease.Err? then Err(lease.error)
        else if !env.tipsReadable || HeadTip(s, env.head).None? then Err(GitFailed)
        else Ok(HeadTip(s, env.head).value)
  }

  /** The branch after a completed rebase. */
  function Rebased(s: State, env: Env): State {
    s.(dag := env.rebase.dag, refs := if env.head.OnBranch? then s.refs[env.head.name := env.rebase.tip] else s.refs)
  }

  /** What a name on the merge command line stands for in the main checkout. */
  function Target(s: State, name: string): Commit {
    if name in s.refs then s.refs[name] else s.main
  }

  /** `git merge --no-ff`: a merge commit, unless there is nothing to merge. */
  function MergeCommit(s: State, name: string): State
    requires Sound(s)
  {
    if Target(s, name) in Ancestors(s.dag, s.main) then s
    else s.(dag := s.dag + [{s.main, Target(s, name)}], main := |s.dag|)
  }

  function MergeArgs(req: Request, env: Env): seq<string> {
    ["merge", "--no-ff", req.branch, "-F", env.messagePath]
  }

  /** What the command line names as the thing to merge. */
  function NamedToMerge(req: Request, env: Env): string {
    MergeArgs(req, env)[2]
  }

  /** The shown output of a failed merge, command line first, and the status read off it. */
  function FailedMerge(rendered: string, output: string): Status {
    var combined := "$ " + rendered + "\n" + output;
    if Contains(combined, "ALLOW_MAIN_COMMIT") || Contains(combined, "enforce-main-commit-policy")
       || Contains(combined, "protect-main-edits")
    then HookBlocked
    else RebaseConflict
  }

  /** Nothing aborts a merge that stopped. */
  function FailedMergeLeaves(s: State, env: Env): State {
    s.(merging := s.merging || env.mergeStops)
  }

  /** Everything a request leaves behind. */
  datatype Done = Done(state: State, worktree: Worktree, result: Result<Report, GateError>)

  function AfterRebase(s: State, worktree: Worktree, req: Request, env: Env, auto: bool): Done
    requires Sound(s)
  {
    if !env.postTipReadable then Done(s, worktree, Err(GitFailed))
    else
      match TipGate(req.voices, env.tips, env.rev, env.sha(env.rebase.tip))
      case Err(e) => Done(s, worktree, Err(e))
      case Ok(tip) =>
        if tip.ContentDrift? && !env.allowDrift then Done(s, worktree, Err(MergeTipDrift(tip.reviewed)))
        else if !env.messageWritable then Done(s, worktree, Err(GitFailed))
        else if !env.mergeOk then
          var rendered := Rendered(env.repoPath, MergeArgs(req, env), true);
          Done(FailedMergeLeaves(s, env), worktree, Ok(Report(FailedMerge(rendered, env.mergeOutput), auto, false)))
        else
          Done(MergeCommit(s, NamedToMerge(req, env)), worktree,
               if env.afterReadable then Ok(Report(Merged, auto, tip.ContentDrift?)) else Err(GitFailed))
  }

  /** The commits of a rebase left under way are there, below the detached head. */
  function LeftAt(s: State, worktree: Worktree, env: Env): State {
    if worktree.rebasing then s.(dag := env.rebase.dag) else s
  }

  lemma RebasedIsSound(s: State, env: Env)
    requires Sound(s) && Fits(s, env) && HeadTip(s, env.head).Some?
    ensures Sound(Rebased(s, env))
  {
  }

  function MergeRun(s: State, req: Request, env: Env): Done
    requires Sound(s) && Fits(s, env)
  {
    var before := Worktree(env.head, false);
    match Admission(s, req, env)
    case Err(e) => Done(s, before, Err(e))
    case Ok(tip) =>
      if tip in Ancestors(s.dag, s.main) then Done(s, before, Ok(Report(AlreadyMerged, false, false)))
      else if req.dryRun then
        Done(s, before, if env.messageWritable then Ok(Report(DryRun, false, false)) else Err(GitFailed))
      else
        var worktree := WorktreeAfter(req.autoResolve, env.rebase, before);
        match RebaseResult(req.autoResolve, env.rebase)
        case Err(e) => Done(LeftAt(s, worktree, env), worktree, Err(e))
        case Ok(Conflict(_, _)) =>
          Done(LeftAt(s, worktree, env), worktree, Ok(Report(RebaseConflict, false, false)))
        case Ok(outcome) =>
          RebasedIsSound(s, env);
          AfterRebase(Rebased(s, env), worktree, req, env, outcome.CleanWithAutoResolve?)
  }

  class MainRepository {
    var dag: Dag
    var main: Commit
    var refs: map<string, Commit>
    var merging: bool

    constructor (s: State)
      requires Sound(s)
      ensures Snapshot() == s
    {
      dag, main, refs, merging := s.dag, s.main, s.refs, s.merging;
    }

    function Snapshot(): State
      reads this
    {
      State(dag, main, refs, merging)
    }

    method Admit(req: Request, env: Env) returns (r: Result<Commit, GateError>)
      ensures r == Admission(Snapshot(), req, env)
    {
      hide ValidateRequest, ValidateVoices, CarveoutGate, LeaseGate;
      var valid := ValidateRequest(req, env.bypassSubject);
      if valid.Err? {
        return Err(valid.error);
      }
      if !env.headReadable {
        return Err(GitFailed);
      }
      var worktreeBranch := BranchName(env.head);
      if worktreeBranch != req.branch {
        return Err(WrongBranch);
      }
      var carveout := BranchCarveoutEligible(env.diff, env.rootReadable, env.probe);
      if carveout.Err? {
        return Err(carveout.error);
      }
      var voices := ValidateVoices(req.voices, carveout.value);
      if voices.Err? {
        return Err(voices.error);
      }
      var lease := EnforceLeaseCompliance(req.voices, env.lease);
      if lease.Err? {
        return Err(lease.error);
      }
      var preTip := HeadTip(Snapshot(), env.head);
      if !env.tipsReadable || preTip.None? {
        return Err(GitFailed);
      }
      return Ok(preTip.value);
    }

    /** From the rebased branch on: the tip check, the message, the merge, the look at the outcome. */
    method FinishMerge(req: Request, env: Env, preTip: Commit, autoResolved: bool) returns (r: Result<Report, GateError>)
      requires Sound(Snapshot())
      modifies this
      ensures forall w :: Done(Snapshot(), w, r) == AfterRebase(old(Snapshot()), w, req, env, autoResolved)
    {
      hide TipGate, FailedMerge, Rendered, Ancestors;
      if !env.postTipReadable {
        return Err(GitFailed);
      }
      var postTip := env.sha(env.rebase.tip);
      var tip := EnforceMergeTip(req.voices, env.tips, env.rev, env.sha(preTip), postTip);
      if tip.Err? {
        return Err(tip.error);
      }
      if tip.value.ContentDrift? && !env.allowDrift {
        return Err(MergeTipDrift(tip.value.reviewed));
      }
      if !env.messageWritable {
        return Err(GitFailed);
      }
      var rendered := RenderCommand(env.repoPath, MergeArgs(req, env), true);
      if !env.mergeOk {
        merging := merging || env.mergeStops;
        return Ok(Report(FailedMerge(rendered, env.mergeOutput), autoResolved, false));
      }
      var merged := MergeCommit(Snapshot(), NamedToMerge(req, env));
      dag, main := merged.dag, merged.main;
      if !env.afterReadable {
        return Err(GitFailed);
      }
      return Ok(Report(Merged, autoResolved, tip.value.ContentDrift?));
    }

    method MergeToMain(worktree: LinkedWorktree, req: Request, env: Env) returns (r: Result<Report, GateError>)
      requires Sound(Snapshot()) && Fits(Snapshot(), env) && worktree.View() == Worktree(env.head, false)
      modifies this, worktree
      ensures Done(Snapshot(), worktree.View(), r) == MergeRun(old(Snapshot()), req, env)
    {
      hide Admission, AfterRebase, RebaseResult, WorktreeAfter, Ancestors;
      var admitted := Admit(req, env);
      if admitted.Err? {
        return Err(admitted.error);
      }
      AdmittedTip(Snapshot(), req, env);
      var alreadyMerged := IsReachableFrom(dag, admitted.value, main);
      if alreadyMerged {
        return Ok(Report(AlreadyMerged, false, false));
      }
      if req.dryRun {
        if env.messageWritable {
          return Ok(Report(DryRun, false, false));
        }
        return Err(GitFailed);
      }
      var rebase, _ := worktree.RunRebaseMain(req.autoResolve, env.rebase);
      if worktree.rebasing {
        dag := env.rebase.dag;
      }
      if rebase.Err? {
        return Err(rebase.error);
      }
      if rebase.value.Conflict? {
        return Ok(Report(RebaseConflict, false, false));
      }
      RebasedIsSound(Snapshot(), env);
      dag := env.rebase.dag;
      if env.head.OnBranch? {
        refs := refs[env.head.name := env.rebase.tip];
      }
      r := FinishMerge(req, env, admitted.value, rebase.value.CleanWithAutoResolve?);
    }
  }

  lemma AdmittedTip(s: State, req: Request, env: Env)
    requires Admission(s, req, env).Ok?
    ensures HeadTip(s, env.head) == Some(Admission(s, req, env).value)
  {
    hide ValidateRequest, ValidateVoices, CarveoutGate, LeaseGate;
  }

  // ---- what it takes to move main -------------------------------------------------------

  /** Somebody other than the worker vouches, or nothing but low-risk files changed and nobody is named. */
  ghost predicate Vouched(req: Request, env: Env) {
    env.diff.Some?
    && var lines := Lines(env.diff.value);
       ((forall l :: l in lines ==> Trim(l) == "") || env.rootReadable)
       && ((exists v :: v in req.voices && Trim(v) != "" && Trim(v) != "worktree-worker")
           || (req.voices == [] && (exists l :: l in lines && Trim(l) != "")
               && forall l :: l in lines && Trim(l) != "" ==> StaysInside(env.probe(Trim(l))) && LowRisk(Trim(l))))
  }

  /** Every verdict on file reads, and none says out-of-scope. */
  ghost predicate InScope(req: Request, env: Env) {
    forall v :: v in req.voices && OnFile(v, env.lease) ==>
      env.lease(Trim(v)).Parsed? && env.lease(Trim(v)).lease != Some("out-of-scope")
  }

  /** Every verdict on file names a tip with the tree that is merged. */
  ghost predicate ReviewedAsMerged(req: Request, env: Env) {
    var post := env.rev(env.sha(env.rebase.tip));
    post.Some? && forall v :: v in req.voices && OnFile(v, env.tips) ==>
      env.tips(Trim(v)).Parsed? && env.tips(Trim(v)).tip.Some? && env.rev(env.tips(Trim(v)).tip.value) == post
  }

  /** The first verdict that names no tip with that tree still names a tip, and one that git knows. */
  ghost predicate Drifted(req: Request, env: Env) {
    var post := env.rev(env.sha(env.rebase.tip));
    post.Some? && exists i :: DriftsAt(req, env, post.value, i)
  }

  ghost predicate DriftsAt(req: Request, env: Env, tree: string, i: int) {
    && FirstSuch(req.voices, env.tips, (v: Verdict) => !NamesTree(v, env.rev, tree), i)
    && var v := env.tips(Trim(req.voices[i]));
       v.Parsed? && v.tip.Some? && env.rev(v.tip.value).Some?
  }

  lemma DriftedIsTheTipGate(req: Request, env: Env)
    ensures var gate := TipGate(req.voices, env.tips, env.rev, env.sha(env.rebase.tip));
            Drifted(req, env) <==> gate.Ok? && gate.value.ContentDrift?
  {
    hide Trim, TipGate, OnFile;
    var tip := env.sha(env.rebase.tip);
    TipGateMeaning(req.voices, env.tips, env.rev, tip);
    if env.rev(tip).Some? {
      var other := (v: Verdict) => !NamesTree(v, env.rev, env.rev(tip).value);
      if NoneSuch(req.voices, env.tips, other) {
        assert forall i :: !FirstSuch(req.voices, env.tips, other, i);
      } else {
        var k := FirstHasIndex(req.voices, env.tips, other);
        TipGateExactly(req.voices, env.tips, env.rev, tip, k);
        forall i | DriftsAt(req, env, env.rev(tip).value, i) ensures i == k {
          OneFirst(req.voices, env.tips, other, i, k);
        }
        assert DriftsAt(req, env, env.rev(tip).value, k) <==> Drifted(req, env);
      }
    } else {
      TipGateWithoutVerdicts(req.voices, env.tips, env.rev, tip);
    }
  }

  lemma OneFirst(voices: seq<string>, read: Verdicts, p: Verdict -> bool, i: int, k: int)
    requires FirstSuch(voices, read, p, i) && FirstSuch(voices, read, p, k)
    ensures i == k
  {
  }

  /** The request gets as far as the rebase. */
  ghost predicate ReachesRebase(s: State, req: Request, env: Env)
    requires Sound(s) && Fits(s, env)
  {
    && WellShaped(req, env.bypassSubject) && !OnlyTheWorker(req.voices) && !req.dryRun
    && BranchName(env.head) == req.branch && HeadTip(s, env.head).Some?
    && HeadTip(s, env.head).value !in Ancestors(s.dag, s.main)
    && Vouched(req, env) && InScope(req, env) && env.headReadable && env.tipsReadable
  }

  /** It stops over the document alone, and that is resolved, written, added and continued. */
  predicate AutoResolves(req: Request, rb: Rebase) {
    && rb.filesReadable && req.autoResolve && rb.files == [CUMULATIVE_MD]
    && rb.doc.Some? && Resolve(rb.doc.value).Ok?
    && rb.docWritable && rb.addStarts && rb.continueStarts && rb.continueOk
  }

  predicate Rebases(req: Request, env: Env) {
    env.rebase.starts && (env.rebase.ok || AutoResolves(req, env.rebase))
  }

  /** The tip check is passed and the message written. */
  ghost predicate TipAccepted(req: Request, env: Env) {
    (ReviewedAsMerged(req, env) || (Drifted(req, env) && env.allowDrift)) && env.postTipReadable && env.messageWritable
  }

  /** The request gets as far as the merge command. */
  ghost predicate ReachesMerge(s: State, req: Request, env: Env)
    requires Sound(s) && Fits(s, env)
  {
    ReachesRebase(s, req, env) && Rebases(req, env) && TipAccepted(req, env)
  }

  /** Every gate is passed and git does its part. */
  ghost predicate GatesPass(s: State, req: Request, env: Env)
    requires Sound(s) && Fits(s, env)
  {
    ReachesMerge(s, req, env) && env.mergeOk
  }

  /** All that has to be so for main to move. */
  ghost predicate Admitted(s: State, req: Request, env: Env)
    requires Sound(s) && Fits(s, env)
  {
    GatesPass(s, req, env) && env.head.OnBranch? && env.rebase.tip !in Ancestors(env.rebase.dag, s.main)
  }

  lemma VouchedIsTheVoiceGate(req: Request, env: Env, bypass: bool)
    ensures Vouched(req, env) <==>
            (CarveoutGate(env.diff, env.rootReadable, env.probe).Ok?
             && ValidateVoices(req.voices, CarveoutGate(env.diff, env.rootReadable, env.probe).value).Ok?)
  {
    hide ChangedPaths, IsCarveoutEligible, Lines, LowRisk, Allowlisted, ValidateVoices, Trim;
    var gate := CarveoutGate(env.diff, env.rootReadable, env.probe);
    if env.diff.Some? {
      CarveoutCoversLowRiskOnly(env.diff.value, env.rootReadable, env.probe);
      if gate.Ok? {
        VoiceGate(req.voices, gate.value);
      }
    }
  }

  lemma AdmissionMeaning(s: State, req: Request, env: Env)
    ensures Admission(s, req, env).Ok? <==>
            (WellShaped(req, env.bypassSubject) && !OnlyTheWorker(req.voices) && env.headReadable && BranchName(env.head) == req.branch
             && Vouched(req, env) && InScope(req, env) && env.tipsReadable && HeadTip(s, env.head).Some?)
    ensures Admission(s, req, env).Ok? ==> HeadTip(s, env.head) == Some(Admission(s, req, env).value)
  {
    hide Vouched, ValidateRequest, ValidateVoices, CarveoutGate, LeaseGate, Trim, WellShaped, OnlyTheWorker;
    RequestShape(req, env.bypassSubject);
    VouchedIsTheVoiceGate(req, env, env.bypassSubject);
    LeaseGateMeaning(req.voices, env.lease);
  }

  /** A name that is no branch stands for main itself. */
  lemma MergingMainMovesNothing(s: State, name: string)
    requires Sound(s) && name !in s.refs
    ensures MergeCommit(s, name) == s
  {
    assert s.main in Ancestors(s.dag, s.main);
  }

  lemma TipGatePasses(req: Request, env: Env)
    ensures var gate := TipGate(req.voices, env.tips, env.rev, env.sha(env.rebase.tip));
            (gate.Ok? && (gate.value.ContentDrift? ==> env.allowDrift)) <==>
            (ReviewedAsMerged(req, env) || (Drifted(req, env) && env.allowDrift))
  {
    hide TipGate, Trim, Drifted;
    TipGateMeaning(req.voices, env.tips, env.rev, env.sha(env.rebase.tip));
    DriftedIsTheTipGate(req, env);
  }

  lemma CleanRebases(req: Request, env: Env)
    ensures RebaseResult(req.autoResolve, env.rebase).Ok? && !RebaseResult(req.autoResolve, env.rebase).value.Conflict?
       <==> Rebases(req, env)
    ensures Rebases(req, env) ==> !WorktreeAfter(req.autoResolve, env.rebase, Worktree(env.head, false)).rebasing
  {
    hide Resolve;
  }

  lemma ReachesRebaseMeaning(s: State, req: Request, env: Env)
    requires Sound(s) && Fits(s, env)
    ensures ReachesRebase(s, req, env) <==>
            (Admission(s, req, env).Ok? && Admission(s, req, env).value !in Ancestors(s.dag, s.main) && !req.dryRun)
  {
    hide Admission, Ancestors, Vouched, InScope, WellShaped, OnlyTheWorker;
    AdmissionMeaning(s, req, env);
  }

  /** The course of a request, in the terms of the predicates above. */
  lemma MergeCourse(s: State, req: Request, env: Env)
    requires Sound(s) && Fits(s, env)
    ensures !ReachesRebase(s, req, env) ==>
              MergeRun(s, req, env).state == s && MergeRun(s, req, env).worktree == Worktree(env.head, false)
              && !(MergeRun(s, req, env).result.Ok? && MergeRun(s, req, env).result.value.status.Merged?)
    ensures ReachesRebase(s, req, env) && !Rebases(req, env) ==>
              var worktree := WorktreeAfter(req.autoResolve, env.rebase, Worktree(env.head, false));
              MergeRun(s, req, env) ==
              Done(LeftAt(s, worktree, env), worktree,
                   if RebaseResult(req.autoResolve, env.rebase).Err? then Err(RebaseResult(req.autoResolve, env.rebase).error)
                   else Ok(Report(RebaseConflict, false, false)))
    ensures ReachesRebase(s, req, env) && Rebases(req, env) ==>
              Sound(Rebased(s, env))
              && MergeRun(s, req, env) ==
                 AfterRebase(Rebased(s, env), WorktreeAfter(req.autoResolve, env.rebase, Worktree(env.head, false)),
                             req, env, !env.rebase.ok)
  {
    hide Admission, ReachesRebase, RebaseResult, WorktreeAfter, AfterRebase, Ancestors;
    ReachesRebaseMeaning(s, req, env);
    CleanRebases(req, env);
    AutoResolvedIfNotOk(req, env);
    if ReachesRebase(s, req, env) {
      AdmissionMeaning(s, req, env);
      RebasedIsSound(s, env);
    }
  }

  lemma AutoResolvedIfNotOk(req: Request, env: Env)
    ensures Rebases(req, env) ==>
            RebaseResult(req.autoResolve, env.rebase) == Ok(if env.rebase.ok then Clean else CleanWithAutoResolve)
  {
    hide Resolve;
  }

  lemma AfterRebaseCourse(s: State, worktree: Worktree, req: Request, env: Env, auto: bool)
    requires Sound(s)
    ensures var done := AfterRebase(s, worktree, req, env, auto);
            var accepted := TipAccepted(req, env);
            done.worktree == worktree
            && done.state == (if !accepted then s
                              else if env.mergeOk then MergeCommit(s, req.branch)
                              else FailedMergeLeaves(s, env))
            && ((done.result.Ok? && done.result.value.status.Merged?) <==> (accepted && env.mergeOk && env.afterReadable))
            && (accepted && env.mergeOk && !env.afterReadable ==> done.result.Err?)
            && (accepted && env.mergeOk && env.afterReadable ==>
                  done.result == Ok(Report(Merged, auto, !ReviewedAsMerged(req, env))))
            && (!accepted ==> done.result.Err?)
            && (accepted && !env.mergeOk ==> done.result == Ok(Report(HookBlocked, auto, false)))
  {
    hide TipGate, ReviewedAsMerged, Drifted, Rendered, FailedMerge, Ancestors, MergeCommit;
    TipGatePasses(req, env);
    FailedMergeIsAlwaysHookBlocked(env.repoPath, MergeArgs(req, env), env.mergeOutput);
    DriftedIsTheTipGate(req, env);
    ReviewedIsNoDrift(req, env);
  }

  lemma ReviewedIsNoDrift(req: Request, env: Env)
    ensures ReviewedAsMerged(req, env) ==> !Drifted(req, env)
  {
    hide Trim, TipGate, Drifted;
    TipGateMeaning(req.voices, env.tips, env.rev, env.sha(env.rebase.tip));
    DriftedIsTheTipGate(req, env);
  }

  /** Main moves exactly when every gate is passed and there is something to merge. */
  lemma MainMovesExactlyWhenAdmitted(s: State, req: Request, env: Env)
    requires Sound(s) && Fits(s, env)
    ensures MergeRun(s, req, env).state.main != s.main <==> Admitted(s, req, env)
    ensures Admitted(s, req, env) ==>
              var after := MergeRun(s, req, env).state;
              after.main == |env.rebase.dag| && after.dag == env.rebase.dag + [{s.main, env.rebase.tip}]
              && after.refs == s.refs[req.branch := env.rebase.tip]
  {
    hide MergeRun, ReachesRebase, Rebases, TipAccepted, AfterRebase, WorktreeAfter, Ancestors, RebaseResult;
    MergeCourse(s, req, env);
    if ReachesRebase(s, req, env) && Rebases(req, env) {
      var rebased := Rebased(s, env);
      var worktree := WorktreeAfter(req.autoResolve, env.rebase, Worktree(env.head, false));
      AfterRebaseCourse(rebased, worktree, req, env, !env.rebase.ok);
      RebasedTarget(s, req, env);
    }
  }

  lemma RebasedTarget(s: State, req: Request, env: Env)
    requires Sound(s) && Fits(s, env) && ReachesRebase(s, req, env) && Sound(Rebased(s, env))
    ensures env.head.OnBranch? ==> req.branch == env.head.name && Target(Rebased(s, env), req.branch) == env.rebase.tip
    ensures env.head.Detached? ==> req.branch == "HEAD" && MergeCommit(Rebased(s, env), req.branch) == Rebased(s, env)
  {
    hide Ancestors, Vouched, InScope, WellShaped, OnlyTheWorker;
    if env.head.Detached? {
      MergingMainMovesNothing(Rebased(s, env), req.branch);
    }
  }

  /**
   * A request that is refused, previewed or found already merged touches neither the repository nor the worktree.
   * Main and branches change only after a completed rebase, and then only the requested branch; no commit is removed.
   */
  lemma NothingTouchedBeforeTheRebase(s: State, req: Request, env: Env)
    requires Sound(s) && Fits(s, env)
    ensures !ReachesRebase(s, req, env) ==>
              MergeRun(s, req, env).state == s && MergeRun(s, req, env).worktree == Worktree(env.head, false)
    ensures var after := MergeRun(s, req, env).state;
            (after.main != s.main || after.refs != s.refs ==> ReachesRebase(s, req, env) && Rebases(req, env))
            && s.dag <= after.dag
            && (forall n :: n in s.refs && n != req.branch ==> n in after.refs && after.refs[n] == s.refs[n])
  {
    hide MergeRun, ReachesRebase, Rebases, TipAccepted, AfterRebase, WorktreeAfter, Ancestors, RebaseResult;
    MergeCourse(s, req, env);
    if ReachesRebase(s, req, env) && Rebases(req, env) {
      var worktree := WorktreeAfter(req.autoResolve, env.rebase, Worktree(env.head, false));
      AfterRebaseCourse(Rebased(s, env), worktree, req, env, !env.rebase.ok);
      RebasedTarget(s, req, env);
    }
  }

  predicate OnlyDocument(auto: bool, rb: Rebase) {
    auto && rb.files == [CUMULATIVE_MD]
  }

  /** An error comes up between the stop and the abort. */
  predicate BreaksOff(auto: bool, rb: Rebase) {
    !rb.filesReadable
    || (OnlyDocument(auto, rb)
        && (rb.doc.None?
            || (Resolve(rb.doc.value).Ok? && !(rb.docWritable && rb.addStarts && rb.continueStarts))))
  }

  /** The conflict is not resolved. */
  predicate GivesUp(auto: bool, rb: Rebase) {
    !BreaksOff(auto, rb) && !(OnlyDocument(auto, rb) && Resolve(rb.doc.value).Ok? && rb.continueOk)
  }

  /**
   * A request leaves a rebase under way, the head detached in the middle of it, exactly when the rebase stopped and
   * either an error came up before the abort or the abort itself failed. The first is reported as an error, the second
   * as any other conflict; main and all branches are as they were.
   */
  lemma RebaseIsLeftUnderWayExactly(s: State, req: Request, env: Env)
    requires Sound(s) && Fits(s, env)
    ensures var done, rb := MergeRun(s, req, env), env.rebase;
            (done.worktree.rebasing <==>
              ReachesRebase(s, req, env) && rb.starts && !rb.ok && rb.stopped.Some?
              && (BreaksOff(req.autoResolve, rb) || (GivesUp(req.autoResolve, rb) && !rb.abortOk)))
            && (done.worktree.rebasing ==>
                 done.worktree.head == PoolProtocol.Detached(rb.stopped.value)
                 && done.state == s.(dag := rb.dag)
                 && done.result == if BreaksOff(req.autoResolve, rb) then Err(GitFailed)
                                   else Ok(Report(RebaseConflict, false, false)))
  {
    hide MergeRun, ReachesRebase, Rebases, TipAccepted, AfterRebase, Ancestors, RebaseResult, WorktreeAfter,
         BreaksOff, GivesUp;
    MergeCourse(s, req, env);
    CleanRebases(req, env);
    RebaseEnds(req.autoResolve, env.rebase, Worktree(env.head, false));
    if ReachesRebase(s, req, env) && Rebases(req, env) {
      var worktree := WorktreeAfter(req.autoResolve, env.rebase, Worktree(env.head, false));
      AfterRebaseCourse(Rebased(s, env), worktree, req, env, !env.rebase.ok);
    }
  }

  /**
   * Unless a rebase is left under way the worktree is on what it was on, a detached one at the new tip if it was
   * rebased; without a completed rebase the repository is as it was too.
   */
  lemma WorktreeIsBack(s: State, req: Request, env: Env)
    requires Sound(s) && Fits(s, env)
    ensures var done := MergeRun(s, req, env);
            !done.worktree.rebasing ==>
              done.worktree.head == if env.head.Detached? && ReachesRebase(s, req, env) && Rebases(req, env)
                                    then PoolProtocol.Detached(env.rebase.tip) else env.head
    ensures var done := MergeRun(s, req, env);
            !done.worktree.rebasing && !(ReachesRebase(s, req, env) && Rebases(req, env)) ==> done.state == s
  {
    hide MergeRun, ReachesRebase, Rebases, TipAccepted, AfterRebase, Ancestors, RebaseResult, WorktreeAfter;
    MergeCourse(s, req, env);
    CompletedWorktree(req, env);
    if ReachesRebase(s, req, env) && Rebases(req, env) {
      var worktree := WorktreeAfter(req.autoResolve, env.rebase, Worktree(env.head, false));
      AfterRebaseCourse(Rebased(s, env), worktree, req, env, !env.rebase.ok);
    }
  }

  lemma CompletedWorktree(req: Request, env: Env)
    ensures var after := WorktreeAfter(req.autoResolve, env.rebase, Worktree(env.head, false));
            !after.rebasing ==>
              after.head == if env.head.Detached? && Rebases(req, env) then PoolProtocol.Detached(env.rebase.tip) else env.head
  {
    hide Resolve;
  }

  lemma RebaseEnds(auto: bool, rb: Rebase, before: Worktree)
    requires !before.rebasing
    ensures var after := WorktreeAfter(auto, rb, before);
            (after.rebasing <==>
              rb.starts && !rb.ok && rb.stopped.Some? && (BreaksOff(auto, rb) || (GivesUp(auto, rb) && !rb.abortOk)))
            && (after.rebasing ==>
                 after.head == PoolProtocol.Detached(rb.stopped.value)
                 && (if BreaksOff(auto, rb) then RebaseResult(auto, rb) == Err(GitFailed)
                     else RebaseResult(auto, rb).Ok? && RebaseResult(auto, rb).value.Conflict?))
  {
    hide Resolve;
  }

  /**
   * A request leaves a merge under way in the main checkout exactly when one was under way before, or it gets to the
   * merge and git stops in the middle; it is reported as a blocked hook, and while it lasts no request moves main.
   */
  lemma MergeIsLeftUnderWayExactly(s: State, req: Request, env: Env)
    requires Sound(s) && Fits(s, env)
    ensures var Done(after, _, r) := MergeRun(s, req, env);
            (after.merging <==> s.merging || (ReachesMerge(s, req, env) && !env.mergeOk && env.mergeStops))
            && (after.merging ==> after.main == s.main)
            && (after.merging && !s.merging ==> r.Ok? && r.value.status.HookBlocked?)
  {
    hide MergeRun, ReachesRebase, Rebases, TipAccepted, AfterRebase, WorktreeAfter, Ancestors, RebaseResult;
    MergeCourse(s, req, env);
    if ReachesRebase(s, req, env) && Rebases(req, env) {
      var worktree := WorktreeAfter(req.autoResolve, env.rebase, Worktree(env.head, false));
      AfterRebaseCourse(Rebased(s, env), worktree, req, env, !env.rebase.ok);
    }
  }

  /** How a rebase ends, and what a conflict is reported as. */
  lemma RebaseResultExactly(req: Request, rb: Rebase)
    ensures var r := RebaseResult(req.autoResolve, rb);
            && (r.Err? <==> !rb.starts || (!rb.ok && BreaksOff(req.autoResolve, rb)))
            && (r.Err? ==> r == Err(GitFailed))
            && (r == Ok(Clean) <==> rb.starts && rb.ok)
            && (r == Ok(CleanWithAutoResolve) <==> rb.starts && !rb.ok && AutoResolves(req, rb))
            && (r.Ok? && r.value.Conflict? ==>
                  r.value.files == rb.files
                  && r.value.kind == if OnlyDocument(req.autoResolve, rb) && Resolve(rb.doc.value).Err?
                                     then Resolve(rb.doc.value).error else ContentMixed)
  {
    hide Resolve;
  }

  /** Everything that is checked before the branch is touched. */
  ghost predicate PassesGates(s: State, req: Request, env: Env) {
    && WellShaped(req, env.bypassSubject) && !OnlyTheWorker(req.voices)
    && env.headReadable && BranchName(env.head) == req.branch && HeadTip(s, env.head).Some? && env.tipsReadable
    && Vouched(req, env) && InScope(req, env)
  }

  /** Every report of every request, exactly. */
  lemma StatusExactly(s: State, req: Request, env: Env)
    requires Sound(s) && Fits(s, env)
    ensures !PassesGates(s, req, env) ==> MergeRun(s, req, env).result.Err?
    ensures var r := MergeRun(s, req, env).result;
            r.Ok? ==>
              && (r.value.status.AlreadyMerged? <==> HeadTip(s, env.head).value in Ancestors(s.dag, s.main))
              && (r.value.status.DryRun? <==> HeadTip(s, env.head).value !in Ancestors(s.dag, s.main) && req.dryRun)
              && (r.value.status.RebaseConflict? <==> ReachesRebase(s, req, env) && !Rebases(req, env))
              && (r.value.status.HookBlocked? <==> ReachesMerge(s, req, env) && !env.mergeOk)
              && (r.value.status.Merged? <==> ReachesMerge(s, req, env) && env.mergeOk)
              && (r.value.autoResolved <==> ReachesMerge(s, req, env) && !env.rebase.ok)
              && (r.value.driftOverride <==> r.value.status.Merged? && !ReviewedAsMerged(req, env))
    ensures ReachesRebase(s, req, env) && !Rebases(req, env) ==>
              (MergeRun(s, req, env).result.Err? <==> !env.rebase.starts || BreaksOff(req.autoResolve, env.rebase))
    ensures PassesGates(s, req, env) && HeadTip(s, env.head).value !in Ancestors(s.dag, s.main) && req.dryRun ==>
              (MergeRun(s, req, env).result.Ok? <==> env.messageWritable)
    ensures PassesGates(s, req, env) && HeadTip(s, env.head).value in Ancestors(s.dag, s.main) ==>
              MergeRun(s, req, env).result.Ok?
  {
    hide MergeRun, Rebases, TipAccepted, AfterRebase, WorktreeAfter, Ancestors, RebaseResult, ReviewedAsMerged,
         WellShaped, OnlyTheWorker, Vouched, InScope, BreaksOff;
    MergeCourse(s, req, env);
    RebaseResultExactly(req, env.rebase);
    CleanRebases(req, env);
    if ReachesRebase(s, req, env) && Rebases(req, env) {
      var worktree := WorktreeAfter(req.autoResolve, env.rebase, Worktree(env.head, false));
      AfterRebaseCourse(Rebased(s, env), worktree, req, env, !env.rebase.ok);
    } else if !ReachesRebase(s, req, env) {
      EarlyStatus(s, req, env);
    }
  }

  lemma EarlyStatus(s: State, req: Request, env: Env)
    requires Sound(s) && Fits(s, env) && !ReachesRebase(s, req, env)
    ensures !PassesGates(s, req, env) ==> MergeRun(s, req, env).result.Err?
    ensures PassesGates(s, req, env) ==>
              MergeRun(s, req, env).result ==
                if HeadTip(s, env.head).value in Ancestors(s.dag, s.main) then Ok(Report(AlreadyMerged, false, false))
                else if env.messageWritable then Ok(Report(DryRun, false, false)) else Err(GitFailed)
  {
    hide Admission, AfterRebase, WorktreeAfter, Ancestors, RebaseResult, WellShaped, OnlyTheWorker, Vouched, InScope;
    AdmissionMeaning(s, req, env);
  }

  /** Something changed, the worktree cannot be looked at or the listing failed. */
  ghost predicate ChangesUnknown(env: Env) {
    env.diff.None? || (!env.rootReadable && exists l :: l in Lines(env.diff.value) && Trim(l) != "")
  }

  /** Which gate answers a request that does not pass them all: the first that is shut, in this order. */
  lemma RefusalExactly(s: State, req: Request, env: Env)
    requires Sound(s) && Fits(s, env)
    ensures var r, shaped := MergeRun(s, req, env).result, ValidateRequest(req, env.bypassSubject);
            if shaped.Err? then r == Err(shaped.error)
            else if !env.headReadable then r == Err(GitFailed)
            else if BranchName(env.head) != req.branch then r == Err(WrongBranch)
            else if ChangesUnknown(env) then r == Err(GitFailed)
            else if !Vouched(req, env) then r == Err(NoRealVoice)
            else if !InScope(req, env) then
              LeaseGate(req.voices, env.lease).Err? && r == Err(LeaseGate(req.voices, env.lease).error)
            else !env.tipsReadable || HeadTip(s, env.head).None? ==> r == Err(GitFailed)
  {
    hide ValidateRequest, ValidateVoices, CarveoutGate, LeaseGate, Trim, WellShaped, OnlyTheWorker, Ancestors, Vouched,
         AfterRebase, WorktreeAfter, RebaseResult, Lines, LowRisk;
    var gate := CarveoutGate(env.diff, env.rootReadable, env.probe);
    VouchedIsTheVoiceGate(req, env, env.bypassSubject);
    LeaseGateMeaning(req.voices, env.lease);
    RequestShape(req, env.bypassSubject);
    ChangesUnknownMeans(env);
    if gate.Ok? {
      VoiceGate(req.voices, gate.value);
      SelfMergeIsShapeless(req);
    }
  }

  lemma SelfMergeIsShapeless(req: Request)
    ensures OnlyTheWorker(req.voices) <==>
            req.voices != [] && forall v :: v in req.voices ==> Trim(v) == "" || Trim(v) == "worktree-worker"
  {
  }

  lemma ChangesUnknownMeans(env: Env)
    ensures ChangesUnknown(env) <==> CarveoutGate(env.diff, env.rootReadable, env.probe) == Err(GitFailed)
    ensures CarveoutGate(env.diff, env.rootReadable, env.probe).Err? ==>
              CarveoutGate(env.diff, env.rootReadable, env.probe) == Err(GitFailed)
  {
    hide CarveoutGate, Trim, Lines, LowRisk;
    CarveoutCoversLowRiskOnly(if env.diff.Some? then env.diff.value else "", env.rootReadable, env.probe);
  }

  /** What can go wrong between a completed rebase and the merge, in this order. */
  lemma LateRefusalExactly(s: State, req: Request, env: Env)
    requires Sound(s) && Fits(s, env) && ReachesRebase(s, req, env) && Rebases(req, env)
    ensures var r, tip := MergeRun(s, req, env).result, TipGate(req.voices, env.tips, env.rev, env.sha(env.rebase.tip));
            if !env.postTipReadable then r == Err(GitFailed)
            else if tip.Err? then r == Err(tip.error)
            else if Drifted(req, env) && !env.allowDrift then tip.value.ContentDrift? && r == Err(MergeTipDrift(tip.value.reviewed))
            else !env.messageWritable || (env.mergeOk && !env.afterReadable) ==> r == Err(GitFailed)
  {
    hide MergeRun, ReachesRebase, Rebases, WorktreeAfter, Ancestors, RebaseResult, TipGate, Drifted, Rendered, FailedMerge,
         MergeCommit;
    MergeCourse(s, req, env);
    DriftedIsTheTipGate(req, env);
  }

  /** With the worker listed and nobody else, nothing is touched whatever the carveout says, and the answer says why. */
  lemma WorkerAloneMovesNothing(s: State, req: Request, env: Env)
    requires Sound(s) && Fits(s, env)
    requires req.voices != [] && forall v :: v in req.voices ==> Trim(v) == "" || Trim(v) == "worktree-worker"
    ensures MergeRun(s, req, env).state == s && MergeRun(s, req, env).worktree == Worktree(env.head, false)
    ensures MergeRun(s, req, env).result.Err?
    ensures WellShaped(req, env.bypassSubject) ==> MergeRun(s, req, env).result == Err(OnlyWorktreeWorker)
  {
    hide Trim, ValidateRequest, WellShaped, Ancestors;
    RequestShape(req, env.bypassSubject);
  }

  lemma {:induction false} ContainsLater(before: string, part: string, after: string)
    ensures Contains(before + part + after, part)
    decreases |before|
  {
    var s := before + part + after;
    if before == "" {
      assert s == part + after && part <= s;
    } else {
      ContainsLater(before[1..], part, after);
      assert s[1..] == before[1..] + part + after;
    }
  }

  /**
   * The command line shown with a failed merge always names the override, so every failed merge is taken for a
   * blocked hook: a conflict status only ever comes from the rebase.
   */
  lemma FailedMergeIsAlwaysHookBlocked(repo: string, args: seq<string>, output: string)
    ensures FailedMerge(Rendered(repo, args, true), output) == HookBlocked
  {
    hide Contains, Quote, QuoteAll;
    var rest := "=1 " + "git -C " + Quote(repo) + QuoteAll(args);
    assert Rendered(repo, args, true) == "ALLOW_MAIN_COMMIT" + rest by {
      assert "ALLOW_MAIN_COMMIT=1 " == "ALLOW_MAIN_COMMIT" + "=1 ";
    }
    ContainsLater("$ ", "ALLOW_MAIN_COMMIT", rest + "\n" + output);
    assert "$ " + Rendered(repo, args, true) + "\n" + output == "$ " + "ALLOW_MAIN_COMMIT" + (rest + "\n" + output);
  }

  /**
   * A request is reported as merged exactly when all gates pass and the look afterwards succeeds. For a worktree on its
   * branch the rebased tip is then in main, which stayed put exactly when it held that tip before; for a detached one
   * nothing was merged, and the tip is in main only if it was there before. Main may have moved under a reported error
   * only if the look after the merge failed.
   */
  lemma MergedMeansContained(s: State, req: Request, env: Env)
    requires Sound(s) && Fits(s, env)
    ensures var Done(after, _, r) := MergeRun(s, req, env);
            var before := env.rebase.tip in Ancestors(env.rebase.dag, s.main);
            (r.Ok? && r.value.status.Merged? <==> GatesPass(s, req, env) && env.afterReadable)
            && (r.Ok? && r.value.status.Merged? ==>
                 Sound(after)
                 && (env.rebase.tip in Ancestors(after.dag, after.main) <==> env.head.OnBranch? || before)
                 && (after.main == s.main <==> env.head.Detached? || before))
            && (r.Err? && after.main != s.main ==> !env.afterReadable)
            && (r.Ok? && !r.value.status.Merged? ==> after.main == s.main)
  {
    hide MergeRun, ReachesRebase, Rebases, TipAccepted, AfterRebase, WorktreeAfter, Ancestors, RebaseResult;
    MergeCourse(s, req, env);
    if ReachesRebase(s, req, env) && Rebases(req, env) {
      var rebased := Rebased(s, env);
      var worktree := WorktreeAfter(req.autoResolve, env.rebase, Worktree(env.head, false));
      AfterRebaseCourse(rebased, worktree, req, env, !env.rebase.ok);
      RebasedTarget(s, req, env);
      MergedHoldsTarget(rebased, req.branch);
    }
  }

  /**
   * On a detached head the branch check passes for a request that names HEAD, and only for that one; if the other
   * gates pass too it is reported as merged, though main, its history and every branch are as they were.
   */
  lemma MergingHeadMovesNothing(s: State, req: Request, env: Env)
    requires Sound(s) && Fits(s, env) && env.head.Detached?
    ensures BranchName(env.head) == req.branch <==> req.branch == "HEAD"
    ensures var Done(after, _, r) := MergeRun(s, req, env);
            after.main == s.main && after.refs == s.refs
            && (r.Ok? && r.value.status.Merged? <==> GatesPass(s, req, env) && env.afterReadable)
            && (GatesPass(s, req, env) ==> req.branch == "HEAD" && after == Rebased(s, env))
  {
    hide MergeRun, ReachesRebase, Rebases, TipAccepted, AfterRebase, WorktreeAfter, Ancestors, RebaseResult;
    MergeCourse(s, req, env);
    MergedMeansContained(s, req, env);
    if ReachesRebase(s, req, env) && Rebases(req, env) {
      var worktree := WorktreeAfter(req.autoResolve, env.rebase, Worktree(env.head, false));
      AfterRebaseCourse(Rebased(s, env), worktree, req, env, !env.rebase.ok);
      RebasedTarget(s, req, env);
    }
  }

  // ---- merged, and main not moved -------------------------------------------------------

  /** A clean rebase to `tip`, no verdict on file, and every reply good. */
  function SmoothEnv(head: Head, dag: Dag, tip: Commit): Env {
    var rebase := Rebase(true, true, None, true, [], None, true, true, true, true, true, dag, tip);
    Env(false, false, head, true, Some(""), true, (p: string) => Inside, (v: string) => Missing, (v: string) => Missing,
        (name: string) => Some("tree"), (c: Commit) => "", true, rebase, true, "", "", true, true, false, "", true)
  }

  /** A merge of the named branch, vouched for by one reviewer. */
  function PlainRequest(branch: string): Request {
    Request(branch, ["human"], branch, "", false, false)
  }

  lemma PlainRequestIsValid(branch: string)
    requires branch == "HEAD" || branch == "b"
    ensures WellShaped(PlainRequest(branch), false) && !OnlyTheWorker(["human"])
    ensures Trim("human") != "" && Trim("human") != "worktree-worker"
  {
    TrimIs("human", 0, 5);
    assert "human"[0] == 'h' && "worktree-worker"[0] == 'w' && "human" in ["human"];
    assert !IsWhitespace(branch[0]);
    assert OccursAt(branch, branch, 0);
    MergeGate.Utf8LengthCountsBytes(branch);
    if branch == "HEAD" {
      assert Utf8Length("HEAD"[1..][1..][1..]) == 1;
    }
    assert Utf8Length(branch) <= 4;
  }

  lemma SmoothGatesPass(s: State, branch: string, env: Env)
    requires branch == "HEAD" || branch == "b"
    requires Sound(s) && Fits(s, env) && HeadTip(s, env.head).Some? && BranchName(env.head) == branch
    requires HeadTip(s, env.head).value !in Ancestors(s.dag, s.main)
    requires var smooth := SmoothEnv(env.head, env.rebase.dag, env.rebase.tip);
             env == smooth.(rebase := env.rebase, mergeOk := env.mergeOk, mergeStops := env.mergeStops)
    ensures ReachesRebase(s, PlainRequest(branch), env) && TipAccepted(PlainRequest(branch), env)
  {
    hide WellShaped, OnlyTheWorker, Ancestors, Trim;
    PlainRequestIsValid(branch);
    assert "human" in PlainRequest(branch).voices;
    assert Lines("") == [] && ChangedPaths([]) == [];
  }

  /** A detached worktree is merged by name HEAD: reported as merged, its commit not in main. */
  lemma DetachedHeadIsReportedMerged()
    ensures var s := State([{}, {0}], 0, map[], false);
            var env := SmoothEnv(PoolProtocol.Detached(1), s.dag, 1);
            Sound(s) && Fits(s, env)
            && var Done(after, _, r) := MergeRun(s, PlainRequest("HEAD"), env);
               r.Ok? && r.value.status.Merged? && after.main == 0 && after.dag == s.dag && 1 !in Ancestors(s.dag, 0)
  {
    hide MergeRun, ReachesRebase, TipAccepted;
    var s := State([{}, {0}], 0, map[], false);
    var env := SmoothEnv(PoolProtocol.Detached(1), s.dag, 1);
    assert Ancestors(s.dag, 0) == {0};
    SmoothGatesPass(s, "HEAD", env);
    MergingHeadMovesNothing(s, PlainRequest("HEAD"), env);
  }

  /**
   * The branch holds commit 1, which main does not; the rebase drops it, main having the same change in commit 2.
   * Reported as merged, main where it was and commit 1 not in it.
   */
  lemma EmptiedBranchIsReportedMerged()
    ensures var s := State([{}, {0}, {0}], 2, map["b" := 1], false);
            var env := SmoothEnv(PoolProtocol.OnBranch("b"), s.dag, 2);
            Sound(s) && Fits(s, env)
            && var Done(after, _, r) := MergeRun(s, PlainRequest("b"), env);
               r.Ok? && r.value.status.Merged? && after.main == 2 && 1 !in Ancestors(s.dag, 2)
  {
    hide MergeRun, ReachesRebase, TipAccepted;
    var s := State([{}, {0}, {0}], 2, map["b" := 1], false);
    var env := SmoothEnv(PoolProtocol.OnBranch("b"), s.dag, 2);
    assert Ancestors(s.dag, 0) == {0};
    assert Ancestors(s.dag, 2) == {0, 2};
    SmoothGatesPass(s, "b", env);
    MergedMeansContained(s, PlainRequest("b"), env);
  }

  /** The smooth run, but for a rebase that stops in conflict at main. */
  function StoppedEnv(head: Head, dag: Dag, main: Commit, readable: bool, abortOk: bool): Env {
    var smooth := SmoothEnv(head, dag, main);
    smooth.(rebase := smooth.rebase.(ok := false, stopped := Some(main), files := ["x"], filesReadable := readable,
                                     abortOk := abortOk))
  }

  /** An error before the abort, and an abort that fails: both leave the worktree in the middle of the rebase. */
  lemma RebaseIsLeftUnderWay(readable: bool, abortOk: bool)
    ensures var s := State([{}, {0}, {0}], 2, map["b" := 1], false);
            var env := StoppedEnv(PoolProtocol.OnBranch("b"), s.dag, 2, readable, abortOk);
            Sound(s) && Fits(s, env)
            && var Done(_, worktree, r) := MergeRun(s, PlainRequest("b"), env);
               (worktree == (if readable && abortOk then Worktree(PoolProtocol.OnBranch("b"), false)
                             else Worktree(PoolProtocol.Detached(2), true)))
               && (r.Err? <==> !readable)
  {
    hide MergeRun, ReachesRebase, TipAccepted, Ancestors;
    var s := State([{}, {0}, {0}], 2, map["b" := 1], false);
    var env := StoppedEnv(PoolProtocol.OnBranch("b"), s.dag, 2, readable, abortOk);
    OneNotBelowTwo();
    SmoothGatesPass(s, "b", env);
    MergeCourse(s, PlainRequest("b"), env);
  }

  lemma OneNotBelowTwo()
    ensures 1 !in Ancestors([{}, {0}, {0}], 2)
  {
    assert Ancestors([{}, {0}, {0}], 0) == {0};
  }

  /** A hook blocks the commit of a merge: reported as such, and the merge stays under way. */
  lemma BlockedMergeIsLeftUnderWay()
    ensures var s := State([{}, {0}, {0}], 2, map["b" := 1], false);
            var env := SmoothEnv(PoolProtocol.OnBranch("b"), s.dag, 1).(mergeOk := false, mergeStops := true);
            Sound(s) && Fits(s, env) && MergeRun(s, PlainRequest("b"), env).state.merging
  {
    hide MergeRun, ReachesRebase, TipAccepted, Ancestors;
    var s := State([{}, {0}, {0}], 2, map["b" := 1], false);
    var env := SmoothEnv(PoolProtocol.OnBranch("b"), s.dag, 1).(mergeOk := false, mergeStops := true);
    OneNotBelowTwo();
    SmoothGatesPass(s, "b", env);
    MergeIsLeftUnderWayExactly(s, PlainRequest("b"), env);
  }

  lemma MergedHoldsTarget(s: State, name: string)
    requires Sound(s)
    ensures var after := MergeCommit(s, name);
            Sound(after) && Target(s, name) in Ancestors(after.dag, after.main)
            && Ancestors(s.dag, s.main) <= Ancestors(after.dag, after.main)
            && Ancestors(after.dag, after.main)
               == Ancestors(s.dag, s.main)
                  + (if after.main == s.main then {} else {after.main} + Ancestors(s.dag, Target(s, name)))
  {
    hide Ancestors;
    var after, target := MergeCommit(s, name), Target(s, name);
    if after == s {
      AncestorOfItself(s.dag, s.main);
    } else {
      AncestorsOfMerge(after.dag, after.main, s.main, target);
      AncestorsOfPrefix(s.dag, after.dag, s.main);
      AncestorsOfPrefix(s.dag, after.dag, target);
      AncestorOfItself(s.dag, target);
    }
  }

  lemma AncestorsOfMerge(dag: Dag, c: Commit, p: Commit, q: Commit)
    requires Valid(dag) && c < |dag| && dag[c] == {p, q}
    ensures p < c && q < c && Ancestors(dag, c) == {c} + Ancestors(dag, p) + Ancestors(dag, q)
  {
    assert p in dag[c] && q in dag[c];
  }

  // ---- whole histories ------------------------------------------------------------------

  /** A merge, or work elsewhere: new commits and moved branches, a merge under way given up; main left alone. */
  datatype Step = Merge(req: Request, env: Env) | Elsewhere(dag: Dag, refs: map<string, Commit>, merging: bool)

  predicate Enabled(s: State, step: Step)
    requires Sound(s)
  {
    match step
    case Merge(req, env) => Fits(s, env)
    case Elsewhere(dag, refs, merging) => s.dag <= dag && Sound(State(dag, s.main, refs, merging))
  }

  function Next(s: State, step: Step): State
    requires Sound(s) && Enabled(s, step)
  {
    match step
    case Merge(req, env) => MergeRun(s, req, env).state
    case Elsewhere(dag, refs, merging) => State(dag, s.main, refs, merging)
  }

  /** A history: the states passed through, each from the one before. */
  ghost predicate History(states: seq<State>, steps: seq<Step>) {
    |states| == |steps| + 1
    && Sound(states[0])
    && forall i :: 0 <= i < |steps| ==>
         Sound(states[i]) && Enabled(states[i], steps[i]) && states[i + 1] == Next(states[i], steps[i])
  }

  /** The step is an admitted merge, and brought this commit: its merge commit or one below the merged tip. */
  ghost predicate Brought(s: State, step: Step, c: Commit)
    requires Sound(s) && Enabled(s, step)
  {
    step.Merge? && Admitted(s, step.req, step.env)
    && (c == |step.env.rebase.dag| || c in Ancestors(step.env.rebase.dag, step.env.rebase.tip))
  }

  lemma StepGrowsMain(s: State, step: Step)
    requires Sound(s) && Enabled(s, step)
    ensures var after := Next(s, step);
            Sound(after) && Ancestors(s.dag, s.main) <= Ancestors(after.dag, after.main)
            && forall c :: c in Ancestors(after.dag, after.main) ==> c in Ancestors(s.dag, s.main) || Brought(s, step, c)
  {
    hide Admitted, MergeRun;
    var after := Next(s, step);
    match step {
      case Elsewhere(dag, refs, merging) =>
        AncestorsOfPrefix(s.dag, dag, s.main);
      case Merge(req, env) =>
        MergeKeepsSound(s, req, env);
        MainMovesExactlyWhenAdmitted(s, req, env);
        if Admitted(s, req, env) {
          AncestorsOfPrefix(s.dag, after.dag, s.main);
          AncestorsOfPrefix(env.rebase.dag, after.dag, env.rebase.tip);
          assert after.dag[after.main] == {s.main, env.rebase.tip};
        } else {
          AncestorsOfPrefix(s.dag, after.dag, s.main);
        }
    }
  }

  lemma MergeKeepsSound(s: State, req: Request, env: Env)
    requires Sound(s) && Fits(s, env)
    ensures Sound(MergeRun(s, req, env).state) && s.dag <= MergeRun(s, req, env).state.dag
  {
    hide MergeRun, ReachesRebase, Rebases, TipAccepted, AfterRebase, WorktreeAfter, Ancestors, RebaseResult;
    MergeCourse(s, req, env);
    if ReachesRebase(s, req, env) && Rebases(req, env) {
      var rebased := Rebased(s, env);
      var worktree := WorktreeAfter(req.autoResolve, env.rebase, Worktree(env.head, false));
      AfterRebaseCourse(rebased, worktree, req, env, !env.rebase.ok);
      MergedHoldsTarget(rebased, req.branch);
    }
  }

  /**
   * Provenance: over any history of merges and work elsewhere, main loses nothing, and whatever it gained was
   * brought by a merge that every gate admitted.
   */
  lemma {:induction false} MainHoldsOnlyAdmittedWork(states: seq<State>, steps: seq<Step>)
    requires History(states, steps)
    ensures var first, last := states[0], states[|steps|];
            Sound(last) && Ancestors(first.dag, first.main) <= Ancestors(last.dag, last.main)
            && forall c :: c in Ancestors(last.dag, last.main) ==>
                 c in Ancestors(first.dag, first.main)
                 || exists i :: 0 <= i < |steps| && Brought(states[i], steps[i], c)
    decreases |steps|
  {
    hide Brought, Ancestors, Next, Enabled;
    if steps != [] {
      var n := |steps| - 1;
      MainHoldsOnlyAdmittedWork(states[..n + 1], steps[..n]);
      assert states[..n + 1][n] == states[n] && states[..n + 1][0] == states[0];
      StepGrowsMain(states[n], steps[n]);
      forall c | c in Ancestors(states[n + 1].dag, states[n + 1].main) && c !in Ancestors(states[0].dag, states[0].main)
        ensures exists i :: 0 <= i < |steps| && Brought(states[i], steps[i], c)
      {
        if c in Ancestors(states[n].dag, states[n].main) {
          var i :| 0 <= i < n && Brought(states[..n + 1][i], steps[..n][i], c);
          assert Brought(states[i], steps[i], c);
        } else {
          assert Brought(states[n], steps[n], c);
        }
      }
    }
  }
}

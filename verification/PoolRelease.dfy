/** `pool_release` on one slot: gates, three git commands nobody trusts, and the check afterwards. */
module PoolRelease {
  import opened Wrappers
  import opened CommitGraph
  import opened PoolProtocol
  import opened Text

  /** What `git status` lists; a path that is not UTF-8 has no string form. */
  type Status = seq<Option<string>>

  predicate Exempt(entry: Option<string>) {
    entry.Some? && (entry.value == ".cargo" || StartsWith(entry.value, ".cargo/"))
  }

  predicate Dirty(status: Status) {
    exists i :: 0 <= i < |status| && !Exempt(status[i])
  }

  /** Nothing but `.cargo` and what lies below it is listed. */
  lemma DirtyOnText(status: Status)
    ensures !Dirty(status) <==>
            forall e :: e in status ==> e == Some(".cargo") || exists rest :: e == Some(".cargo/" + rest)
  {
    forall e: Option<string> ensures Exempt(e) <==> e == Some(".cargo") || exists rest :: e == Some(".cargo/" + rest) {
      if e.Some? && StartsWith(e.value, ".cargo/") {
        assert e.value == ".cargo/" + e.value[|".cargo/"|..];
      }
    }
    assert forall i :: 0 <= i < |status| ==> status[i] in status;
    if !Dirty(status) {
      forall e | e in status ensures Exempt(e) {
        var i :| 0 <= i < |status| && status[i] == e;
      }
    }
  }

  method IsDirty(status: Status) returns (dirty: bool)
    ensures dirty <==> Dirty(status)
  {
    for i := 0 to |status|
      invariant forall j :: 0 <= j < i ==> Exempt(status[j])
    {
      if status[i].None? {
        return true;
      }
      var path := status[i].value;
      if path == ".cargo" || StartsWith(path, ".cargo/") {
        continue;
      }
      return true;
    }
    return false;
  }

  datatype ReleaseError = RefusedDirty | RefusedUnmerged | GitFailed | VerificationFailed

  /** One git command in the slot: its exit status and the state it happens to leave. */
  datatype Reply = Reply(ok: bool, head: Head, status: Status)

  class Repository {
    var dag: Dag
    var main: Commit
    var refs: map<string, Commit>

    ghost predicate Valid()
      reads this
    {
      CommitGraph.Valid(dag) && main < |dag| && forall n :: n in refs ==> refs[n] < |dag|
    }

    constructor (dag: Dag, main: Commit)
      requires CommitGraph.Valid(dag) && main < |dag|
      ensures Valid() && this.dag == dag && this.main == main && refs == map[]
    {
      this.dag, this.main, refs := dag, main, map[];
    }
  }

  class Worktree {
    var head: Head
    var status: Status

    constructor (at: Commit)
      ensures head == Detached(at) && status == []
    {
      head, status := Detached(at), [];
    }

    predicate Fits(repo: Repository)
      reads this, repo
    {
      match head
      case OnBranch(n) => n in repo.refs && repo.refs[n] < |repo.dag|
      case Detached(c) => c < |repo.dag|
    }

    function Tip(repo: Repository): (c: Commit)
      requires Fits(repo)
      reads this, repo
    {
      match head
      case OnBranch(n) => repo.refs[n]
      case Detached(c) => c
    }

    /** The slot as the only one of the step system's world. */
    ghost function Alone(repo: Repository, log: seq<Event>): World
      reads this, repo
    {
      World(repo.dag, repo.main, repo.refs, {}, [Slot(head, Dirty(status))], map[], [], [], log)
    }

    /** The two gates are those of the step system. */
    lemma GatesOfAlone(repo: Repository, force: bool)
      requires repo.Valid() && Fits(repo)
      ensures ReleaseAllowed(Alone(repo, []), 0, force) <==>
              (force || (!Dirty(status) && (head.OnBranch? ==>
                                              Ancestors(repo.dag, Tip(repo)) <= Ancestors(repo.dag, repo.main))))
    {
      hide Ancestors, Dirty;
      var tip := Tip(repo);
      AheadZeroIffMerged(repo.dag, tip, repo.main);
      assert tip in Ancestors(repo.dag, tip) by { AncestorOfItself(repo.dag, tip); }
    }

    method RunGit(reply: Reply) returns (ok: bool)
      modifies this
      ensures head == reply.head && status == reply.status && ok == reply.ok
    {
      head, status, ok := reply.head, reply.status, reply.ok;
    }

    /** The unmerged-commit gate, which a detached HEAD never meets. */
    method Unmerged(repo: Repository) returns (refuse: bool)
      requires repo.Valid() && Fits(repo)
      ensures refuse <==> head.OnBranch? && !(Ancestors(repo.dag, Tip(repo)) <= Ancestors(repo.dag, repo.main))
    {
      if head.Detached? {
        return false;
      }
      var tip := Tip(repo);
      AheadZeroIffMerged(repo.dag, tip, repo.main);
      assert tip in Ancestors(repo.dag, tip);
      if tip == repo.main {
        return false;
      }
      var ahead := Ahead(repo.dag, tip, repo.main);
      if ahead > 0 {
        var reachable := IsReachableFrom(repo.dag, tip, repo.main);
        return !reachable;
      }
      return false;
    }

    /** Post-condition check on the state actually found in the slot. */
    method VerifyPostRelease(mainTip: Commit) returns (verified: bool)
      ensures verified <==> head == Detached(mainTip) && !Dirty(status)
    {
      if head.OnBranch? || head.at != mainTip {
        return false;
      }
      var dirty := IsDirty(status);
      return !dirty;
    }

    /** Whatever the three commands did, success means what it says. */
    method Release(repo: Repository, force: bool, detach: Reply, reset: Reply, clean: Reply, branchDeleted: bool)
      returns (r: Result<(), ReleaseError>)
      requires repo.Valid() && Fits(repo)
      modifies this, repo`refs
      ensures repo.Valid()
      ensures r.Ok? ==> head == Detached(repo.main) && !Dirty(status)
      ensures r.Ok? && !force && old(head).OnBranch? ==>
                Ancestors(repo.dag, old(Tip(repo))) <= Ancestors(repo.dag, repo.main)
      ensures r.Ok? && !force ==> !Dirty(old(status))
      ensures r == Err(RefusedDirty) <==> !force && Dirty(old(status))
      ensures r == Err(RefusedUnmerged) <==>
                (!force && !Dirty(old(status)) && old(head).OnBranch?
                 && !(Ancestors(repo.dag, old(Tip(repo))) <= Ancestors(repo.dag, repo.main)))
      ensures r == Err(RefusedDirty) || r == Err(RefusedUnmerged) ==>
                head == old(head) && status == old(status) && repo.refs == old(repo.refs)
      // The gates passed and git kept its word: the release goes through.
      ensures r.Err? && r != Err(RefusedDirty) && r != Err(RefusedUnmerged) ==>
                !(detach.ok && reset.ok && clean.ok && clean.head == Detached(repo.main) && !Dirty(clean.status))
      // In the terms of the step system: refused exactly when its gates are shut, otherwise its step.
      ensures r == Err(RefusedDirty) || r == Err(RefusedUnmerged) <==> !old(ReleaseAllowed(Alone(repo, []), 0, force))
      ensures r.Ok? ==> Alone(repo, [Gave(0)]) == old(ReleaseSlot(Alone(repo, []), 0, branchDeleted))
      ensures repo.refs == old(repo.refs)
        || (old(head).OnBranch? && repo.refs == old(repo.refs) - {old(head).name})
    {
      hide ReleaseAllowed, Ancestors, Dirty;
      GatesOfAlone(repo, force);
      if !force {
        var dirty := IsDirty(status);
        if dirty {
          return Err(RefusedDirty);
        }
        var unmerged := Unmerged(repo);
        if unmerged {
          return Err(RefusedUnmerged);
        }
      }
      var headBefore := head;
      var ok := RunGit(detach);
      if !ok {
        return Err(GitFailed);
      }
      ok := RunGit(reset);
      if !ok {
        return Err(GitFailed);
      }
      ok := RunGit(clean);
      if !ok {
        return Err(GitFailed);
      }
      if headBefore.OnBranch? && branchDeleted {
        repo.refs := repo.refs - {headBefore.name};
      }
      var verified := VerifyPostRelease(repo.main);
      if !verified {
        return Err(VerificationFailed);
      }
      return Ok(());
    }
  }
}

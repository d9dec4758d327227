/**
 * The gates in front of main: the shape of a merge request, the reviewer voices and the carveout from them, the
 * reviewers' word on lease compliance, and the tip they signed.
 */
module MergeGate {
  import opened Wrappers
  import opened Text
  import opened Glob
  import Framing

  datatype Request = Request(branch: string, voices: seq<string>, subject: string, body: string,
                             autoResolve: bool, dryRun: bool)

  datatype GateError =
    | BlankBranch | SubjectTooLong | BlankSubject | SubjectWithoutBranch
    | OnlyWorktreeWorker | NoRealVoice
    | WrongBranch | GitFailed
    | LeaseViolation(voice: string) | VerdictParseFailed(voice: string)
    | PostTipUnresolvable | VerdictTipUnresolvable(voice: string) | MergeTipDrift(reviewed: string)

  // ---- the request ----------------------------------------------------------------------

  /** Bytes of a character in UTF-8. */
  function Utf8Width(c: char): nat {
    if c as int < 0x80 then 1 else if c as int < 0x800 then 2 else if c as int < 0x1_0000 then 3 else 4
  }

  function Utf8Length(s: string): nat {
    if s == [] then 0 else Utf8Width(s[0]) + Utf8Length(s[1..])
  }

  const WORKER := "worktree-worker"

  /** A reviewer other than the worker itself. */
  predicate IsReal(voice: string) {
    Trim(voice) != WORKER && Trim(voice) != ""
  }

  function RealVoices(voices: seq<string>): seq<string> {
    if voices == [] then [] else (if IsReal(voices[0]) then [voices[0]] else []) + RealVoices(voices[1..])
  }

  function ValidateRequest(req: Request, bypassSubject: bool): Result<(), GateError> {
    if Trim(req.branch) == "" then Err(BlankBranch)
    else if Utf8Length(req.subject) > 72 then Err(SubjectTooLong)
    else if Trim(req.subject) == "" then Err(BlankSubject)
    else if !bypassSubject && !Contains(req.subject, req.branch) then Err(SubjectWithoutBranch)
    else if req.voices != [] && |RealVoices(req.voices)| == 0 then Err(OnlyWorktreeWorker)
    else Ok(())
  }

  function ValidateVoices(voices: seq<string>, carveout: bool): Result<(), GateError> {
    if RealVoices(voices) != [] then Ok(())
    else if voices != [] && (forall i :: 0 <= i < |voices| ==> !IsReal(voices[i])) then Err(OnlyWorktreeWorker)
    else if carveout then Ok(())
    else Err(NoRealVoice)
  }

  /** Somebody is listed, and it is not the worker. */
  ghost predicate NamesReviewer(voices: seq<string>) {
    exists i :: 0 <= i < |voices| && Trim(voices[i]) != "" && Trim(voices[i]) != "worktree-worker"
  }

  lemma {:induction false} RealVoicesExist(voices: seq<string>)
    ensures RealVoices(voices) != [] <==> NamesReviewer(voices)
  {
    hide Trim;
    if voices != [] {
      RealVoicesExist(voices[1..]);
      assert forall i :: 0 < i < |voices| ==> voices[i] == voices[1..][i - 1];
      if NamesReviewer(voices[1..]) {
        var i :| 0 <= i < |voices[1..]| && Trim(voices[1..][i]) != "" && Trim(voices[1..][i]) != "worktree-worker";
        assert Trim(voices[i + 1]) != "";
      }
    }
  }

  /**
   * A request gets past the voice check exactly when somebody other than the worker is listed, or nobody at all is and
   * the carveout applies. The worker alone, with or without blanks, is refused either way.
   */
  lemma VoiceGate(voices: seq<string>, carveout: bool)
    ensures ValidateVoices(voices, carveout).Ok? <==>
            (exists v :: v in voices && Trim(v) != "" && Trim(v) != "worktree-worker") || (voices == [] && carveout)
    ensures ValidateVoices(voices, carveout) == Err(OnlyWorktreeWorker) <==>
            voices != [] && forall v :: v in voices ==> Trim(v) == "" || Trim(v) == "worktree-worker"
    ensures ValidateVoices(voices, carveout) == Err(NoRealVoice) <==> voices == [] && !carveout
  {
    hide Trim;
    RealVoicesExist(voices);
    if v :| v in voices && Trim(v) != "" && Trim(v) != "worktree-worker" {
      var i :| 0 <= i < |voices| && voices[i] == v;
      assert NamesReviewer(voices);
    }
  }

  lemma {:induction false} Utf8LengthCountsBytes(s: string)
    ensures Utf8Length(s) == |Framing.Utf8Encode(s)|
  {
    if s != [] {
      Utf8LengthCountsBytes(s[1..]);
    }
  }

  predicate Blank(s: string) {
    forall k :: 0 <= k < |s| ==> IsWhitespace(s[k])
  }

  /** Somebody is listed, but nobody other than the worker. */
  ghost predicate OnlyTheWorker(voices: seq<string>) {
    voices != [] && forall v :: v in voices ==> Trim(v) == "" || Trim(v) == "worktree-worker"
  }

  /** A branch is named, and a subject of at most 72 bytes names it too. */
  ghost predicate WellShaped(req: Request, bypassSubject: bool) {
    && !Blank(req.branch) && !Blank(req.subject) && |Framing.Utf8Encode(req.subject)| <= 72
    && (bypassSubject || exists k :: OccursAt(req.subject, req.branch, k))
  }

  /** Which requests are well formed, and which check refuses the others first. */
  lemma RequestShape(req: Request, bypass: bool)
    ensures ValidateRequest(req, bypass).Ok? <==> WellShaped(req, bypass) && !OnlyTheWorker(req.voices)
    ensures ValidateRequest(req, bypass) == Err(BlankBranch) <==> Blank(req.branch)
    ensures ValidateRequest(req, bypass) == Err(SubjectTooLong) <==>
            !Blank(req.branch) && |Framing.Utf8Encode(req.subject)| > 72
    ensures ValidateRequest(req, bypass) == Err(BlankSubject) <==>
            !Blank(req.branch) && |Framing.Utf8Encode(req.subject)| <= 72 && Blank(req.subject)
    ensures ValidateRequest(req, bypass) == Err(SubjectWithoutBranch) <==>
            !Blank(req.branch) && !Blank(req.subject) && |Framing.Utf8Encode(req.subject)| <= 72 && !WellShaped(req, bypass)
    ensures ValidateRequest(req, bypass) == Err(OnlyWorktreeWorker) <==>
            WellShaped(req, bypass) && OnlyTheWorker(req.voices)
  {
    hide Trim, Contains;
    Utf8LengthCountsBytes(req.subject);
    TrimEmpty(req.branch);
    TrimEmpty(req.subject);
    ContainsOnText(req.subject, req.branch);
    RealVoicesExist(req.voices);
    if !NamesReviewer(req.voices) {
      forall v | v in req.voices
        ensures Trim(v) == "" || Trim(v) == "worktree-worker"
      {
        var i :| 0 <= i < |req.voices| && req.voices[i] == v;
      }
    }
  }

  // ---- the carveout ---------------------------------------------------------------------

  const SHARED := "project/shared"

  /** One numbered series of files under `project/shared`. */
  function Series(name: string): string {
    SHARED + "/" + (name + "*" + ".md")
  }

  const LEDGER := SHARED + "/" + "agent-ledger.md"

  const ALLOWLIST: seq<string> := [
    "benchmark" + "/**",
    LEDGER,
    Series("followup-tracker-"),
    Series("agent-ledger-archive-"),
    "tools/routing-policy.md",
    "STARTUP.md"
  ]

  predicate Allowlisted(path: string) {
    exists i :: 0 <= i < |ALLOWLIST| && GlobMatch(ALLOWLIST[i], path)
  }

  predicate IsCarveoutEligible(paths: seq<string>) {
    paths != [] && forall i :: 0 <= i < |paths| ==> Trim(paths[i]) != "" && Allowlisted(Trim(paths[i]))
  }

  ghost predicate InSeries(path: string, name: string) {
    exists mid :: '/' !in mid && path == "project/shared/" + (name + mid + ".md")
  }

  /** Everything that may be merged without a reviewer. */
  ghost predicate LowRisk(path: string) {
    path == "benchmark" || "benchmark" + "/" <= path || path == "project/shared/agent-ledger.md"
    || InSeries(path, "followup-tracker-") || InSeries(path, "agent-ledger-archive-")
    || path == "tools/routing-policy.md" || path == "STARTUP.md"
  }

  lemma AllowlistMeaning(path: string)
    ensures Allowlisted(path) <==> LowRisk(path)
  {
    hide GlobMatch, InSeries, Series;
    DirectoryGlob("benchmark", path);
    NoStarsInFiles();
    NoStarsInNames();
    NoSlashesInNames();
    LiteralGlob(LEDGER, path);
    SeriesGlob("followup-tracker-", path);
    SeriesGlob("agent-ledger-archive-", path);
    LiteralGlob("tools/routing-policy.md", path);
    LiteralGlob("STARTUP.md", path);
    OneOfSix(ALLOWLIST, path);
  }

  lemma OneOfSix(patterns: seq<string>, path: string)
    requires |patterns| == 6
    ensures (exists i :: 0 <= i < |patterns| && GlobMatch(patterns[i], path)) <==>
            (GlobMatch(patterns[0], path) || GlobMatch(patterns[1], path) || GlobMatch(patterns[2], path)
             || GlobMatch(patterns[3], path) || GlobMatch(patterns[4], path) || GlobMatch(patterns[5], path))
  {
  }

  lemma NoStarsInFiles()
    ensures '*' !in LEDGER && '*' !in "tools/routing-policy.md" && '*' !in "STARTUP.md"
  {
  }

  lemma NoStarsInNames()
    ensures '*' !in "benchmark" && '*' !in "followup-tracker-" && '*' !in "agent-ledger-archive-"
  {
  }

  lemma NoSlashesInNames()
    ensures '/' !in "followup-tracker-" && '/' !in "agent-ledger-archive-"
  {
  }

  lemma SeriesGlob(name: string, path: string)
    requires '*' !in name && '/' !in name
    ensures GlobMatch(Series(name), path) <==> InSeries(path, name)
  {
    OneStarGlob(SHARED, name, ".md", path);
  }

  /** What the file system says of a changed path. */
  datatype Probe = Inside | Outside | DanglingLink | Absent

  /** Changed paths as git lists them: lines, trimmed, blank ones dropped. */
  function ChangedPaths(lines: seq<string>): seq<string> {
    if lines == [] then []
    else (if Trim(lines[0]) == "" then [] else [Trim(lines[0])]) + ChangedPaths(lines[1..])
  }

  predicate Contained(probe: Probe) {
    probe.Inside? || probe.Absent?
  }

  function CarveoutGate(diff: Option<string>, rootReadable: bool, probe: string -> Probe): Result<bool, GateError> {
    if diff.None? then Err(GitFailed)
    else
      var paths := ChangedPaths(Lines(diff.value));
      if paths == [] then Ok(false)
      else if !rootReadable then Err(GitFailed)
      else Ok((forall i :: 0 <= i < |paths| ==> Contained(probe(paths[i]))) && IsCarveoutEligible(paths))
  }

  method BranchCarveoutEligible(diff: Option<string>, rootReadable: bool, probe: string -> Probe)
    returns (r: Result<bool, GateError>)
    ensures r == CarveoutGate(diff, rootReadable, probe)
  {
    hide ChangedPaths, IsCarveoutEligible, Lines;
    if diff.None? {
      return Err(GitFailed);
    }
    var paths := ChangedPaths(Lines(diff.value));
    if paths == [] {
      return Ok(false);
    }
    if !rootReadable {
      return Err(GitFailed);
    }
    var i := 0;
    while i < |paths|
      invariant 0 <= i <= |paths|
      invariant forall k :: 0 <= k < i ==> Contained(probe(paths[k]))
    {
      if probe(paths[i]).Outside? || probe(paths[i]).DanglingLink? {
        return Ok(false);
      }
      i := i + 1;
    }
    return Ok(IsCarveoutEligible(paths));
  }

  /** Neither a link out of the worktree nor a dangling one. */
  predicate StaysInside(probe: Probe) {
    !probe.Outside? && !probe.DanglingLink?
  }

  /**
   * The carveout applies exactly when something changed, every changed path is low-risk and none of them leads out
   * of the worktree through a link. A listing that fails is an error, and with something changed so is a worktree
   * that cannot be looked at.
   */
  lemma CarveoutCoversLowRiskOnly(diff: string, readable: bool, probe: string -> Probe)
    ensures CarveoutGate(None, readable, probe) == Err(GitFailed)
    ensures var lines := Lines(diff);
            CarveoutGate(Some(diff), readable, probe) ==
              if forall l :: l in lines ==> Trim(l) == "" then Ok(false)
              else if !readable then Err(GitFailed)
              else Ok(forall l :: l in lines && Trim(l) != "" ==> StaysInside(probe(Trim(l))) && LowRisk(Trim(l)))
  {
    hide ChangedPaths, Allowlisted, LowRisk, Lines, Trim;
    var lines := Lines(diff);
    var paths := ChangedPaths(lines);
    ChangedPathsAreTrimmed(lines);
    ChangedPathsExactly(lines);
    forall p | p in paths
      ensures Trim(p) == p && p != ""
      ensures Allowlisted(p) <==> LowRisk(p)
    {
      AllowlistMeaning(p);
    }
    if forall p :: p in paths ==> Contained(probe(p)) && LowRisk(p) {
      assert forall i :: 0 <= i < |paths| ==> paths[i] in paths;
    }
    assert (exists l :: l in lines && Trim(l) != "") <==> paths != [] by {
      if paths != [] {
        assert paths[0] in paths;
      }
    }
    assert (forall p :: p in paths ==> Contained(probe(p)) && LowRisk(p)) <==>
           forall l :: l in lines && Trim(l) != "" ==> StaysInside(probe(Trim(l))) && LowRisk(Trim(l));
  }

  lemma {:induction false} ChangedPathsExactly(lines: seq<string>)
    ensures forall l :: l in lines && Trim(l) != "" ==> Trim(l) in ChangedPaths(lines)
    ensures forall p :: p in ChangedPaths(lines) ==> exists l :: l in lines && Trim(l) == p && p != ""
  {
    hide Trim;
    if lines != [] {
      ChangedPathsExactly(lines[1..]);
      assert lines == [lines[0]] + lines[1..];
    }
  }

  lemma {:induction false} ChangedPathsAreTrimmed(lines: seq<string>)
    ensures forall p :: p in ChangedPaths(lines) ==> Trim(p) == p && p != ""
  {
    if lines != [] {
      ChangedPathsAreTrimmed(lines[1..]);
      TrimTwice(lines[0]);
    }
  }

  lemma {:induction false} TrimEndShape(s: string)
    ensures TrimEnd(s) <= s
    ensures TrimEnd(s) != "" ==> !IsWhitespace(TrimEnd(s)[|TrimEnd(s)| - 1])
  {
    if s != [] && IsWhitespace(s[|s| - 1]) {
      TrimEndShape(s[..|s| - 1]);
    }
  }

  lemma {:induction false} TrimStartShape(s: string)
    ensures TrimStart(s) != "" ==> !IsWhitespace(TrimStart(s)[0])
  {
    if s != [] && IsWhitespace(s[0]) {
      TrimStartShape(s[1..]);
    }
  }

  lemma TrimTwice(s: string)
    ensures Trim(Trim(s)) == Trim(s)
  {
    TrimStartShape(s);
    TrimEndShape(TrimStart(s));
    var t := Trim(s);
    assert t != "" ==> t[0] == TrimStart(s)[0];
    assert TrimStart(t) == t && TrimEnd(t) == t;
  }

  // ---- verdicts -------------------------------------------------------------------------

  /** What becomes of a voice's verdict file: absent, or put through the extraction script. */
  datatype Verdict =
    | Missing | SpawnFailed | ExitFailed | BadJson
    | Parsed(lease: Option<string>, tip: Option<string>)

  /** By trimmed voice. */
  type Verdicts = string -> Verdict

  predicate Probed(voice: string, read: Verdicts) {
    IsReal(voice) && !read(Trim(voice)).Missing?
  }

  /** A reviewer's verdict is on file; the worker's own is never looked at. */
  ghost predicate OnFile(voice: string, read: Verdicts) {
    Trim(voice) != "" && Trim(voice) != "worktree-worker" && !read(Trim(voice)).Missing?
  }

  predicate OutOfScope(v: Verdict) {
    v.Parsed? && v.lease == Some("out-of-scope")
  }

  predicate Unreadable(v: Verdict) {
    v.ExitFailed? || v.BadJson?
  }

  /** The first voice, trimmed, that a reviewer is behind and whose verdict satisfies `p`. */
  function First(voices: seq<string>, read: Verdicts, p: Verdict -> bool): Option<string> {
    if voices == [] then None
    else if Probed(voices[0], read) && p(read(Trim(voices[0]))) then Some(Trim(voices[0]))
    else First(voices[1..], read, p)
  }

  lemma {:induction false} FirstAppend(a: seq<string>, voice: string, read: Verdicts, p: Verdict -> bool)
    ensures First(a + [voice], read, p) ==
            if First(a, read, p).Some? then First(a, read, p)
            else if Probed(voice, read) && p(read(Trim(voice))) then Some(Trim(voice)) else None
  {
    hide Probed, Trim;
    if a == [] {
      assert ([] + [voice])[1..] == [] && a + [voice] == [voice];
    } else {
      FirstAppend(a[1..], voice, read, p);
      assert (a + [voice])[1..] == a[1..] + [voice];
    }
  }

  /** A reading that fails to start ends the gate at once; otherwise a violation outranks an unreadable verdict. */
  function LeaseGate(voices: seq<string>, read: Verdicts): Result<(), GateError> {
    var spawn := First(voices, read, (v: Verdict) => v.SpawnFailed?);
    var violation := First(voices, read, (v: Verdict) => OutOfScope(v));
    var unreadable := First(voices, read, (v: Verdict) => Unreadable(v));
    if spawn.Some? then Err(VerdictParseFailed(spawn.value))
    else if violation.Some? then Err(LeaseViolation(violation.value))
    else if unreadable.Some? then Err(VerdictParseFailed(unreadable.value))
    else Ok(())
  }

  /** The i-th voice is the first whose verdict on file satisfies `p`. */
  ghost predicate FirstSuch(voices: seq<string>, read: Verdicts, p: Verdict -> bool, i: int) {
    && 0 <= i < |voices| && OnFile(voices[i], read) && p(read(Trim(voices[i])))
    && forall j :: 0 <= j < i ==> !(OnFile(voices[j], read) && p(read(Trim(voices[j]))))
  }

  ghost predicate NoneSuch(voices: seq<string>, read: Verdicts, p: Verdict -> bool) {
    forall v :: v in voices && OnFile(v, read) ==> !p(read(Trim(v)))
  }

  lemma {:induction false} FirstExactly(voices: seq<string>, read: Verdicts, p: Verdict -> bool)
    ensures First(voices, read, p).None? <==> NoneSuch(voices, read, p)
    ensures forall i :: FirstSuch(voices, read, p, i) ==> First(voices, read, p) == Some(Trim(voices[i]))
    ensures First(voices, read, p).Some? ==> p(read(First(voices, read, p).value))
  {
    hide Trim;
    if voices != [] {
      var rest := voices[1..];
      FirstExactly(rest, read, p);
      assert voices == [voices[0]] + rest;
      forall i | FirstSuch(voices, read, p, i) ensures First(voices, read, p) == Some(Trim(voices[i])) {
        if i > 0 {
          assert forall j :: 0 <= j < i ==> voices[j + 1] == rest[j];
          assert FirstSuch(rest, read, p, i - 1);
        }
      }
    }
  }

  /** The lease gate opens exactly when every verdict on file reads and none says out-of-scope. */
  lemma LeaseGateMeaning(voices: seq<string>, read: Verdicts)
    ensures LeaseGate(voices, read).Ok? <==>
            forall v :: v in voices && OnFile(v, read) ==>
              read(Trim(v)).Parsed? && read(Trim(v)).lease != Some("out-of-scope")
  {
    hide Trim, First, OnFile;
    var spawn, scope := (v: Verdict) => v.SpawnFailed?, (v: Verdict) => OutOfScope(v);
    var unreadable := (v: Verdict) => Unreadable(v);
    FirstExactly(voices, read, spawn);
    FirstExactly(voices, read, scope);
    FirstExactly(voices, read, unreadable);
    forall v | v in voices && OnFile(v, read)
      ensures !spawn(read(Trim(v))) && !scope(read(Trim(v))) && !unreadable(read(Trim(v))) <==>
              read(Trim(v)).Parsed? && read(Trim(v)).lease != Some("out-of-scope")
    {
      assert OnFile(v, read) ==> !read(Trim(v)).Missing? by { OnFileIsThere(v, read); }
    }
  }

  lemma OnFileIsThere(voice: string, read: Verdicts)
    ensures OnFile(voice, read) ==> !read(Trim(voice)).Missing?
  {
  }

  predicate SaysOutOfScope(v: Verdict) {
    v.Parsed? && v.lease == Some("out-of-scope")
  }

  /** Which voice it is shut by: the first script that does not start, or else the first out of scope, or else unreadable. */
  lemma LeaseGateExactly(voices: seq<string>, read: Verdicts, i: int)
    ensures FirstSuch(voices, read, (v: Verdict) => v.SpawnFailed?, i) ==>
              LeaseGate(voices, read) == Err(VerdictParseFailed(Trim(voices[i])))
    ensures NoneSuch(voices, read, (v: Verdict) => v.SpawnFailed?)
            && FirstSuch(voices, read, (v: Verdict) => SaysOutOfScope(v), i) ==>
              LeaseGate(voices, read) == Err(LeaseViolation(Trim(voices[i])))
    ensures NoneSuch(voices, read, (v: Verdict) => v.SpawnFailed?)
            && NoneSuch(voices, read, (v: Verdict) => SaysOutOfScope(v))
            && FirstSuch(voices, read, (v: Verdict) => v.ExitFailed? || v.BadJson?, i) ==>
              LeaseGate(voices, read) == Err(VerdictParseFailed(Trim(voices[i])))
  {
    hide Trim, First, OnFile;
    FirstExactly(voices, read, (v: Verdict) => v.SpawnFailed?);
    FirstExactly(voices, read, (v: Verdict) => OutOfScope(v));
    FirstExactly(voices, read, (v: Verdict) => Unreadable(v));
    SameFirst(voices, read, (v: Verdict) => OutOfScope(v), (v: Verdict) => SaysOutOfScope(v), i);
    SameFirst(voices, read, (v: Verdict) => Unreadable(v), (v: Verdict) => v.ExitFailed? || v.BadJson?, i);
  }

  lemma {:induction false} FirstHasIndex(voices: seq<string>, read: Verdicts, p: Verdict -> bool) returns (i: nat)
    requires !NoneSuch(voices, read, p)
    ensures FirstSuch(voices, read, p, i)
  {
    hide Trim, OnFile;
    if voices == [] || (OnFile(voices[0], read) && p(read(Trim(voices[0])))) {
      i := 0;
    } else {
      assert voices == [voices[0]] + voices[1..];
      var k := FirstHasIndex(voices[1..], read, p);
      i := k + 1;
      assert forall j :: 0 < j <= i ==> voices[j] == voices[1..][j - 1];
    }
  }

  lemma SameFirst(voices: seq<string>, read: Verdicts, p: Verdict -> bool, q: Verdict -> bool, i: int)
    requires forall v :: p(v) == q(v)
    ensures FirstSuch(voices, read, p, i) == FirstSuch(voices, read, q, i)
    ensures NoneSuch(voices, read, p) == NoneSuch(voices, read, q)
  {
  }

  /**
   * With an out-of-scope verdict on file the answer is a lease violation exactly when no script fails to start; and
   * unreadable verdicts, of which there may be any number, never hide it.
   */
  lemma ViolationIsReportedExactly(voices: seq<string>, read: Verdicts)
    requires exists v :: v in voices && OnFile(v, read) && SaysOutOfScope(read(Trim(v)))
    ensures LeaseGate(voices, read).Err? && LeaseGate(voices, read).error.LeaseViolation?
       <==> (forall v :: v in voices && OnFile(v, read) ==> !read(Trim(v)).SpawnFailed?)
    ensures LeaseGate(voices, read).Err?
  {
    hide First, Trim, OnFile;
    FirstExactly(voices, read, (v: Verdict) => v.SpawnFailed?);
    FirstExactly(voices, read, (v: Verdict) => OutOfScope(v));
  }

  /** One voice out of scope, and a later one whose script does not start: the violation is not what is reported. */
  lemma ViolationIsHidden()
    ensures var read := (v: string) => if v == "a" then Parsed(Some("out-of-scope"), None) else SpawnFailed;
            OnFile("a", read) && SaysOutOfScope(read(Trim("a")))
            && LeaseGate(["a", "b"], read) == Err(VerdictParseFailed("b"))
  {
    var read := (v: string) => if v == "a" then Parsed(Some("out-of-scope"), None) else SpawnFailed;
    TrimLetter('a');
    TrimLetter('b');
    var spawn := (v: Verdict) => v.SpawnFailed?;
    assert "a"[0] == 'a' && WORKER[0] == 'w' && "b"[0] == 'b';
    assert ["a", "b"][1..] == ["b"];
    assert First(["b"], read, spawn) == Some("b");
    assert First(["a", "b"], read, spawn) == First(["b"], read, spawn);
  }

  lemma TrimLetter(c: char)
    requires !IsWhitespace(c)
    ensures Trim([c]) == [c]
  {
  }

  function FirstOf(s: seq<string>): Option<string> {
    if s == [] then None else Some(s[0])
  }

  lemma {:induction false} FirstStays(a: seq<string>, b: seq<string>, read: Verdicts, p: Verdict -> bool)
    requires First(a, read, p).Some?
    ensures First(a + b, read, p) == First(a, read, p)
  {
    assert a != [] && (a + b)[1..] == a[1..] + b;
    if !(Probed(a[0], read) && p(read(Trim(a[0])))) {
      FirstStays(a[1..], b, read, p);
    }
  }

  method EnforceLeaseCompliance(voices: seq<string>, read: Verdicts) returns (r: Result<(), GateError>)
    ensures r == LeaseGate(voices, read)
  {
    hide First, Trim, IsReal;
    ghost var spawn := (v: Verdict) => v.SpawnFailed?;
    ghost var scope := (v: Verdict) => OutOfScope(v);
    ghost var unreadable := (v: Verdict) => Unreadable(v);
    var violations: seq<string> := [];
    var failures: seq<string> := [];
    var i := 0;
    NoVoices(read);
    assert voices[..0] == [];
    while i < |voices|
      invariant 0 <= i <= |voices|
      invariant First(voices[..i], read, spawn) == None
      invariant FirstOf(violations) == First(voices[..i], read, scope)
      invariant FirstOf(failures) == First(voices[..i], read, unreadable)
    {
      var voice := voices[i];
      FirstAppend(voices[..i], voice, read, spawn);
      FirstAppend(voices[..i], voice, read, scope);
      FirstAppend(voices[..i], voice, read, unreadable);
      assert voices[..i + 1] == voices[..i] + [voice];
      i := i + 1;
      if !IsReal(voice) {
        continue;
      }
      var verdict := read(Trim(voice));
      if verdict.Missing? {
        continue;
      }
      if verdict.SpawnFailed? {
        assert voices == voices[..i] + voices[i..];
        FirstStays(voices[..i], voices[i..], read, spawn);
        return Err(VerdictParseFailed(Trim(voice)));
      }
      if verdict.ExitFailed? || verdict.BadJson? {
        failures := failures + [Trim(voice)];
        continue;
      }
      var lease := match verdict.lease case Some(l) => l case None => "not-applicable";
      if lease == "out-of-scope" {
        violations := violations + [Trim(voice)];
      }
    }
    assert voices[..i] == voices;
    if violations != [] {
      return Err(LeaseViolation(violations[0]));
    }
    if failures != [] {
      return Err(VerdictParseFailed(failures[0]));
    }
    return Ok(());
  }

  lemma NoVoices(read: Verdicts)
    ensures First([], read, (v: Verdict) => v.SpawnFailed?) == None
    ensures First([], read, (v: Verdict) => OutOfScope(v)) == None
    ensures First([], read, (v: Verdict) => Unreadable(v)) == None
  {
  }

  // ---- the reviewed tip -----------------------------------------------------------------

  datatype TipEnforcement =
    | NotApplicable
    | NoRebase
    | ShaShiftIdenticalTree(reviewed: string)
    | ContentDrift(reviewed: string)

  /** `git rev-parse <name>^{tree}`. */
  type RevParse = string -> Option<string>

  /** The verdict names a tip whose tree is `tree`. */
  predicate Agrees(v: Verdict, rev: RevParse, tree: string) {
    v.Parsed? && v.tip.Some? && rev(v.tip.value) == Some(tree)
  }

  /** What a verdict that does not agree comes to. */
  function Disagreement(voice: string, v: Verdict, rev: RevParse): Result<TipEnforcement, GateError> {
    if !v.Parsed? || v.tip.None? then Err(VerdictParseFailed(voice))
    else if rev(v.tip.value).None? then Err(VerdictTipUnresolvable(voice))
    else Ok(ContentDrift(v.tip.value))
  }

  /** The first verdict that does not agree decides; without one, whether there was any. */
  function TipGate(voices: seq<string>, read: Verdicts, rev: RevParse, postTip: string): Result<TipEnforcement, GateError> {
    match rev(postTip)
    case None => Err(PostTipUnresolvable)
    case Some(tree) =>
      match First(voices, read, (v: Verdict) => !Agrees(v, rev, tree))
      case Some(voice) => Disagreement(voice, read(voice), rev)
      case None => Ok(if First(voices, read, (v: Verdict) => true).Some? then NoRebase else NotApplicable)
  }

  method EnforceMergeTip(voices: seq<string>, read: Verdicts, rev: RevParse, preTip: string, postTip: string)
    returns (r: Result<TipEnforcement, GateError>)
    ensures r == TipGate(voices, read, rev, postTip)
  {
    hide First, Trim, IsReal;
    if rev(postTip).None? {
      return Err(PostTipUnresolvable);
    }
    var postTree := rev(postTip).value;
    ghost var disagrees := (v: Verdict) => !Agrees(v, rev, postTree);
    ghost var any := (v: Verdict) => true;
    var sawVerdict := false;
    var outcome := NotApplicable;
    var i := 0;
    assert First([], read, disagrees) == None && First([], read, any) == None by { NobodyFirst(read, disagrees, any); }
    assert voices[..0] == [];
    while i < |voices|
      invariant 0 <= i <= |voices|
      invariant First(voices[..i], read, disagrees) == None
      invariant sawVerdict <==> First(voices[..i], read, any).Some?
      invariant outcome == if sawVerdict then NoRebase else NotApplicable
    {
      var voice := voices[i];
      FirstAppend(voices[..i], voice, read, disagrees);
      FirstAppend(voices[..i], voice, read, any);
      assert voices[..i + 1] == voices[..i] + [voice];
      i := i + 1;
      if !IsReal(voice) {
        continue;
      }
      var verdict := read(Trim(voice));
      if verdict.Missing? {
        continue;
      }
      sawVerdict := true;
      if First(voices[..i], read, disagrees).Some? {
        assert voices == voices[..i] + voices[i..];
        FirstStays(voices[..i], voices[i..], read, disagrees);
      }
      if !verdict.Parsed? || verdict.tip.None? {
        return Err(VerdictParseFailed(Trim(voice)));
      }
      var reviewedTip := verdict.tip.value;
      var reviewedTree := rev(reviewedTip);
      if reviewedTree.None? {
        return Err(VerdictTipUnresolvable(Trim(voice)));
      }
      if reviewedTree.value == postTree {
        outcome := NoRebase;
        continue;
      }
      if reviewedTip == postTip {
        if outcome.NotApplicable? || outcome.NoRebase? {
          outcome := ShaShiftIdenticalTree(reviewedTip);
        }
        continue;
      }
      return Ok(ContentDrift(reviewedTip));
    }
    assert voices[..i] == voices;
    if !sawVerdict {
      return Ok(NotApplicable);
    }
    if preTip == postTip && outcome.NotApplicable? {
      return Ok(NoRebase);
    }
    return Ok(outcome);
  }

  lemma NobodyFirst(read: Verdicts, p: Verdict -> bool, q: Verdict -> bool)
    ensures First([], read, p) == None && First([], read, q) == None
  {
  }

  /**
   * The tip gate passes without drift exactly when every verdict on file names a tip with the tree about to be
   * merged. A drift names a reviewed tip whose tree differs, and a changed commit with an unchanged tree is never
   * told apart from no rebase at all.
   */
  lemma TipGateMeaning(voices: seq<string>, read: Verdicts, rev: RevParse, postTip: string)
    ensures var r := TipGate(voices, read, rev, postTip);
            (r.Ok? && !r.value.ContentDrift? <==>
              rev(postTip).Some? && forall v :: v in voices && OnFile(v, read) ==>
                read(Trim(v)).Parsed? && read(Trim(v)).tip.Some? && rev(read(Trim(v)).tip.value) == rev(postTip))
            && (r.Ok? && r.value.ContentDrift? ==> rev(r.value.reviewed).Some? && rev(r.value.reviewed) != rev(postTip))
            && !(r.Ok? && r.value.ShaShiftIdenticalTree?)
  {
    hide Trim, First, OnFile;
    if rev(postTip).Some? {
      var tree := rev(postTip).value;
      FirstExactly(voices, read, (v: Verdict) => !Agrees(v, rev, tree));
    }
  }

  /** The gate has nothing to say exactly when no verdict is on file. */
  lemma TipGateWithoutVerdicts(voices: seq<string>, read: Verdicts, rev: RevParse, postTip: string)
    ensures TipGate(voices, read, rev, postTip) == Ok(NotApplicable) <==>
            rev(postTip).Some? && forall v :: v in voices ==> !OnFile(v, read)
    ensures TipGate(voices, read, rev, postTip) == Err(PostTipUnresolvable) <==> rev(postTip).None?
  {
    hide Trim, First, OnFile;
    if rev(postTip).Some? {
      var tree := rev(postTip).value;
      FirstExactly(voices, read, (v: Verdict) => !Agrees(v, rev, tree));
      FirstExactly(voices, read, (v: Verdict) => true);
    }
  }

  /** The verdict names a tip with that tree. */
  predicate NamesTree(v: Verdict, rev: RevParse, tree: string) {
    v.Parsed? && v.tip.Some? && rev(v.tip.value) == Some(tree)
  }

  /** The first verdict that names no tip with the tree to be merged decides, and how. */
  lemma TipGateExactly(voices: seq<string>, read: Verdicts, rev: RevParse, postTip: string, i: int)
    requires rev(postTip).Some?
    requires FirstSuch(voices, read, (v: Verdict) => !NamesTree(v, rev, rev(postTip).value), i)
    ensures var voice, verdict := Trim(voices[i]), read(Trim(voices[i]));
            TipGate(voices, read, rev, postTip) ==
              if !verdict.Parsed? || verdict.tip.None? then Err(VerdictParseFailed(voice))
              else if rev(verdict.tip.value).None? then Err(VerdictTipUnresolvable(voice))
              else Ok(ContentDrift(verdict.tip.value))
  {
    hide Trim, First, OnFile, FirstSuch;
    var tree := rev(postTip).value;
    FirstExactly(voices, read, (v: Verdict) => !Agrees(v, rev, tree));
    SameFirst(voices, read, (v: Verdict) => !NamesTree(v, rev, tree), (v: Verdict) => !Agrees(v, rev, tree), i);
  }

  // ---- the message ----------------------------------------------------------------------

  function Trailers(voices: seq<string>): seq<string> {
    if voices == [] then [] else ["Reviewed-by: " + Trim(voices[0])] + Trailers(voices[1..])
  }

  function ComposeTrailer(voices: seq<string>): string {
    if voices == [] then "Reviewed-by: rule-13-carveout" else Join(Trailers(voices), '\n')
  }

  function ComposeMessage(req: Request): string {
    var body := TrimEnd(req.body);
    TrimEnd(req.subject) + "\n\n" + (if body == "" then "" else body + "\n\n") + ComposeTrailer(req.voices) + "\n"
  }

  method ComposeMergeMessage(req: Request) returns (s: string)
    ensures s == ComposeMessage(req)
  {
    var trailer := ComposeTrailer(req.voices);
    s := "";
    s := s + TrimEnd(req.subject);
    s := s + "\n";
    s := s + "\n";
    var body := TrimEnd(req.body);
    if body != "" {
      s := s + body;
      s := s + "\n";
      s := s + "\n";
    }
    s := s + trailer;
    s := s + "\n";
  }

  /** One line for each voice, or the one that stands for the carveout. */
  function TrailerBlock(voices: seq<string>): seq<string> {
    if voices == [] then ["Reviewed-by: rule-13-carveout"]
    else seq(|voices|, i requires 0 <= i < |voices| => "Reviewed-by: " + Trim(voices[i]))
  }

  lemma {:induction false} TrailersOneEach(voices: seq<string>)
    ensures |Trailers(voices)| == |voices|
    ensures forall i :: 0 <= i < |voices| ==> Trailers(voices)[i] == "Reviewed-by: " + Trim(voices[i])
  {
    hide Trim;
    if voices != [] {
      TrailersOneEach(voices[1..]);
    }
  }

  lemma {:induction false} TrailersSplit(voices: seq<string>)
    requires voices != [] && forall v :: v in voices ==> '\n' !in Trim(v)
    ensures Split(ComposeTrailer(voices), '\n') == Trailers(voices)
  {
    hide Trim;
    var first := "Reviewed-by: " + Trim(voices[0]);
    assert voices[0] in voices && '\n' !in "Reviewed-by: ";
    NoSeparatorNoSplit(first, '\n');
    if |voices| > 1 {
      TrailersSplit(voices[1..]);
      SplitAt(first, '\n', ComposeTrailer(voices[1..]));
      assert Trailers(voices[1..]) != [];
    } else {
      assert voices[1..] == [] && Trailers(voices) == [first];
    }
  }

  lemma TrailerLines(voices: seq<string>)
    requires forall v :: v in voices ==> '\n' !in Trim(v)
    ensures Split(ComposeTrailer(voices), '\n') == TrailerBlock(voices)
  {
    hide Trim, Split;
    if voices == [] {
      NoSeparatorNoSplit("Reviewed-by: rule-13-carveout", '\n');
    } else {
      TrailersSplit(voices);
      TrailersOneEach(voices);
    }
  }

  /** A paragraph with the blank line after it, in front of what follows. */
  lemma Paragraph(text: string, rest: string)
    ensures Split(text + "\n\n" + rest, '\n') == Split(text, '\n') + [""] + Split(rest, '\n')
  {
    hide Split;
    assert text + "\n\n" + rest == text + ['\n'] + ("" + ['\n'] + rest);
    SplitAt(text, '\n', "" + ['\n'] + rest);
    SplitAt("", '\n', rest);
    NoSeparatorNoSplit("", '\n');
    assert Split(text, '\n') + ([""] + Split(rest, '\n')) == Split(text, '\n') + [""] + Split(rest, '\n');
  }

  /**
   * Line by line: the subject without trailing whitespace, a blank line, the body likewise if there is one, and last
   * one trailer for each voice in order, or the carveout's if there is none.
   */
  lemma MessageLines(req: Request)
    requires forall v :: v in req.voices ==> '\n' !in Trim(v)
    ensures Split(ComposeMessage(req), '\n') ==
            Split(TrimEnd(req.subject), '\n') + [""]
            + (if Blank(req.body) then [] else Split(TrimEnd(req.body), '\n') + [""])
            + TrailerBlock(req.voices) + [""]
  {
    hide Split, Trim, TrimEnd, TrailerBlock, ComposeTrailer;
    TrailerLines(req.voices);
    var subject, body, trailer := TrimEnd(req.subject), TrimEnd(req.body), ComposeTrailer(req.voices);
    var k := TrimEndDrops(req.body);
    assert body == "" <==> Blank(req.body) by {
      assert k > 0 ==> !IsWhitespace(req.body[k - 1]);
    }
    var last := trailer + ['\n'] + "";
    assert last == trailer + "\n";
    SplitAt(trailer, '\n', "");
    NoSeparatorNoSplit("", '\n');
    if body == "" {
      assert ComposeMessage(req) == subject + "\n\n" + last;
      Paragraph(subject, last);
    } else {
      assert ComposeMessage(req) == subject + "\n\n" + (body + "\n\n" + last);
      Paragraph(subject, body + "\n\n" + last);
      Paragraph(body, last);
    }
  }
}

/**
 * Running git and rendering the same invocation as a shell command line, against a reading of one simple command by
 * the POSIX.1-2017 Shell Command Language (sections 2.2 Quoting, 2.3 Token Recognition, 2.9.1 Simple Commands).
 */
module ShellQuote {
  import opened Wrappers
  import opened Text

  type Environment = map<string, string>

  /** What is handed to the kernel. */
  datatype Launch = Launch(env: Environment, argv: seq<string>)

  // ---- the program: launching -----------------------------------------------------------

  predicate Passable(s: string) {
    '\0' !in s
  }

  function Argv(repo: string, args: seq<string>): seq<string> {
    ["git", "-C", repo] + args
  }

  const OVERRIDE := "ALLOW_MAIN_COMMIT"

  /** The child inherits the environment, less the two variables that would overrule `-C`. */
  function ChildEnv(env: Environment, allowMainCommit: bool): Environment {
    (if allowMainCommit then env[OVERRIDE := "1"] else env) - {"GIT_DIR", "GIT_WORK_TREE"}
  }

  /** The process `run_git` starts; none when some argument holds a NUL, which no argument vector can carry. */
  method RunGit(env: Environment, repo: string, args: seq<string>, allowMainCommit: bool)
    returns (launch: Option<Launch>)
    ensures launch.Some? <==> (forall a :: a in Argv(repo, args) ==> Passable(a))
    ensures launch.Some? ==> launch.value == Launch(ChildEnv(env, allowMainCommit), Argv(repo, args))
  {
    var argv := ["git"];
    argv := argv + ["-C"] + [repo];
    var i := 0;
    while i < |args|
      invariant 0 <= i <= |args|
      invariant argv == Argv(repo, args[..i])
    {
      argv := argv + [args[i]];
      i := i + 1;
    }
    assert args[..i] == args;
    var childEnv := env;
    if allowMainCommit {
      childEnv := childEnv[OVERRIDE := "1"];
    }
    childEnv := childEnv - {"GIT_DIR"};
    childEnv := childEnv - {"GIT_WORK_TREE"};
    assert childEnv == ChildEnv(env, allowMainCommit);
    if forall k :: 0 <= k < |argv| ==> Passable(argv[k]) {
      launch := Some(Launch(childEnv, argv));
    } else {
      launch := None;
    }
  }

  // ---- the program: rendering -----------------------------------------------------------

  predicate IsSafe(c: char) {
    IsAlphanumeric(c) || c == '_' || c == '-' || c == '/' || c == '.' || c == ':' || c == '=' || c == '+' || c == ','
    || c == '@'
  }

  /** `s.replace('\'', "'\\''")`. */
  function Escape(s: string): string {
    if s == [] then "" else (if s[0] == '\'' then "'\\''" else [s[0]]) + Escape(s[1..])
  }

  function Quote(s: string): string {
    if s == "" then "''"
    else if forall i :: 0 <= i < |s| ==> IsSafe(s[i]) then s
    else "'" + Escape(s) + "'"
  }

  function QuoteAll(args: seq<string>): string {
    if args == [] then "" else QuoteAll(args[..|args| - 1]) + " " + Quote(args[|args| - 1])
  }

  function Rendered(repo: string, args: seq<string>, withOverride: bool): string {
    (if withOverride then "ALLOW_MAIN_COMMIT=1 " else "") + "git -C " + Quote(repo) + QuoteAll(args)
  }

  method RenderCommand(repo: string, args: seq<string>, withOverride: bool) returns (s: string)
    ensures s == Rendered(repo, args, withOverride)
  {
    hide Quote, QuoteAll;
    s := "";
    NoArgs();
    assert args[..0] == [];
    if withOverride {
      s := s + "ALLOW_MAIN_COMMIT=1 ";
    }
    s := s + "git -C ";
    s := s + Quote(repo);
    var i := 0;
    while i < |args|
      invariant 0 <= i <= |args|
      invariant s == Rendered(repo, args[..i], withOverride)
    {
      RenderNext(repo, args, i, withOverride);
      s := s + " ";
      s := s + Quote(args[i]);
      i := i + 1;
    }
    assert args[..i] == args;
  }

  lemma NoArgs()
    ensures QuoteAll([]) == ""
  {
  }

  lemma RenderNext(repo: string, args: seq<string>, i: nat, withOverride: bool)
    requires i < |args|
    ensures Rendered(repo, args[..i + 1], withOverride) == Rendered(repo, args[..i], withOverride) + " " + Quote(args[i])
  {
    hide Quote;
    assert args[..i + 1][..i] == args[..i];
  }

  // ---- the shell ------------------------------------------------------------------------

  /** A word as written and after quote removal. */
  datatype Word = Word(raw: string, text: string)

  datatype Mode = Plain | Escaped | Single

  datatype Lexer = Lexer(words: seq<Word>, current: Option<Word>, mode: Mode)

  function Current(l: Lexer): Word {
    if l.current.Some? then l.current.value else Word("", "")
  }

  /** The word grows by one character of text. */
  function Put(l: Lexer, c: char, mode: Mode): Lexer {
    l.(current := Some(Word(Current(l).raw + [c], Current(l).text + [c])), mode := mode)
  }

  /** The word grows by a quoting character only. */
  function Mark(l: Lexer, c: char, mode: Mode): Lexer {
    l.(current := Some(Word(Current(l).raw + [c], Current(l).text)), mode := mode)
  }

  /** One character; None once the line is not a lone simple command of literal words without double quotes. */
  function Step(l: Lexer, c: char): Option<Lexer> {
    match l.mode
    case Plain =>
      if c == ' ' || c == '\t' then
        Some(if l.current.Some? then Lexer(l.words + [l.current.value], None, Plain) else l)
      else if c == '\'' then Some(Mark(l, c, Single))
      else if c == '\\' then Some(Mark(l, c, Escaped))
      else if c in "\0\n\"|&;<>()$`*?[~" then None
      else if c == '#' && l.current.None? then None
      else Some(Put(l, c, Plain))
    case Escaped => if c == '\n' then None else Some(Put(l, c, Plain))
    case Single => Some(if c == '\'' then Mark(l, c, Plain) else Put(l, c, Single))
  }

  function Scan(l: Lexer, s: string): Option<Lexer>
    decreases |s|
  {
    if s == [] then Some(l)
    else match Step(l, s[0]) case None => None case Some(next) => Scan(next, s[1..])
  }

  /** The words of a command line; a NUL or an open quote makes it unreadable. */
  function Words(line: string): Option<seq<Word>> {
    if '\0' in line then None
    else
      match Scan(Lexer([], None, Plain), line)
      case None => None
      case Some(l) => if l.mode != Plain then None else Some(l.words + (if l.current.Some? then [l.current.value] else []))
  }

  predicate IsName(s: string) {
    s != "" && !IsDigit(s[0]) && forall i :: 0 <= i < |s| ==> IsAlphanumeric(s[i]) || s[i] == '_'
  }

  /** Where the `=` of an assignment word stands. */
  function AssignmentAt(raw: string): (k: Option<nat>)
    ensures k.Some? ==> k.value < |raw|
  {
    var k := IndexOf(raw, '=');
    if k < |raw| && IsName(raw[..k]) then Some(k) else None
  }

  function IndexOf(s: string, c: char): (k: nat)
    ensures k <= |s|
  {
    if s == [] || s[0] == c then 0 else 1 + IndexOf(s[1..], c)
  }

  const RESERVED := {"!", "{", "}", "case", "do", "done", "elif", "else", "esac", "fi", "for", "if", "in", "then",
                     "until", "while"}

  /** Leading assignment words go to the environment of the command, the rest is its argument vector. */
  function Command(env: Environment, words: seq<Word>): Option<Launch>
    decreases |words|
  {
    if words == [] then None
    else
      var at := AssignmentAt(words[0].raw);
      if at.Some? && at.value + 1 <= |words[0].text| then
        Command(env[words[0].raw[..at.value] := words[0].text[at.value + 1..]], words[1..])
      else if words[0].raw in RESERVED then None
      else Some(Launch(env, Texts(words)))
  }

  function Texts(words: seq<Word>): seq<string> {
    if words == [] then [] else [words[0].text] + Texts(words[1..])
  }

  /** What a shell with environment `env` starts for a command line. */
  function Shell(env: Environment, line: string): Option<Launch> {
    match Words(line) case None => None case Some(words) => Command(env, words)
  }

  // ---- scanning a rendered line ---------------------------------------------------------

  lemma {:induction false} ScanAppend(l: Lexer, a: string, b: string)
    ensures Scan(l, a + b) == match Scan(l, a) case None => None case Some(m) => Scan(m, b)
    decreases |a|
  {
    hide Step;
    if a == [] {
      assert a + b == b;
    } else {
      assert (a + b)[1..] == a[1..] + b;
      if Step(l, a[0]).Some? {
        ScanAppend(Step(l, a[0]).value, a[1..], b);
      }
    }
  }

  /** The lexer after one more word fragment, back in plain text. */
  function Grown(l: Lexer, raw: string, text: string, mode: Mode): Lexer {
    l.(current := Some(Word(Current(l).raw + raw, Current(l).text + text)), mode := mode)
  }

  lemma {:induction false} ScanSafe(l: Lexer, s: string)
    requires l.mode == Plain && s != "" && forall i :: 0 <= i < |s| ==> IsSafe(s[i])
    ensures Scan(l, s) == Some(Grown(l, s, s, Plain))
    decreases |s|
  {
    assert IsSafe(s[0]);
    assert s[0] !in "\0\n|&;<>()$`*?[~";
    assert Step(l, s[0]) == Some(Put(l, s[0], Plain));
    assert s == [s[0]] + s[1..];
    if s[1..] != "" {
      ScanSafe(Put(l, s[0], Plain), s[1..]);
      GrownTwice(l, [s[0]], [s[0]], s[1..], s[1..], Plain, Plain);
    } else {
      assert s == [s[0]];
    }
  }

  lemma GrownTwice(l: Lexer, raw: string, text: string, raw': string, text': string, m: Mode, m': Mode)
    ensures Grown(Grown(l, raw, text, m), raw', text', m') == Grown(l, raw + raw', text + text', m')
  {
    assert Current(l).raw + raw + raw' == Current(l).raw + (raw + raw');
    assert Current(l).text + text + text' == Current(l).text + (text + text');
  }

  /** Close the quotes, one escaped quote, open them again. */
  lemma ScanEscapedQuote(l: Lexer)
    requires l.mode == Single
    ensures Scan(l, "'\\''") == Some(Grown(l, "'\\''", "'", Single))
  {
    var s := "'\\''";
    var a := Mark(l, '\'', Plain);
    var b := Mark(a, '\\', Escaped);
    var c := Put(b, '\'', Plain);
    var d := Mark(c, '\'', Single);
    assert Step(l, '\'') == Some(a) && Step(a, '\\') == Some(b) && Step(b, '\'') == Some(c) && Step(c, '\'') == Some(d);
    assert s[1..] == "\\''" && s[1..][1..] == "''" && s[1..][1..][1..] == "'" && s[1..][1..][1..][1..] == "";
    assert Scan(d, "") == Some(d);
    assert Scan(c, "'") == Some(d) by { assert "'"[1..] == ""; }
    assert Scan(b, "''") == Some(d) by { assert "''"[1..] == "'"; }
    assert Scan(a, "\\''") == Some(d) by { assert "\\''"[1..] == "''"; }
    assert Current(a) == Word(Current(l).raw + "'", Current(l).text);
    assert Current(b) == Word(Current(l).raw + "'\\", Current(l).text);
    assert Current(c) == Word(Current(l).raw + "'\\'", Current(l).text + "'");
    assert Current(d) == Word(Current(l).raw + s, Current(l).text + "'");
  }

  lemma {:induction false} ScanEscape(l: Lexer, s: string)
    requires l.mode == Single
    ensures Scan(l, Escape(s)) == Some(Grown(l, Escape(s), s, Single)) || (s == "" && Scan(l, "") == Some(l))
    decreases |s|
  {
    hide Scan, Step;
    if s == "" {
      assert Scan(l, "") == Some(l) by { ScanNothing(l); }
    } else {
      var head := if s[0] == '\'' then "'\\''" else [s[0]];
      var next := Grown(l, head, [s[0]], Single);
      assert Scan(l, head) == Some(next) by {
        if s[0] == '\'' {
          ScanEscapedQuote(l);
        } else {
          ScanOne(l, s[0]);
        }
      }
      ScanAppend(l, head, Escape(s[1..]));
      ScanEscape(next, s[1..]);
      GrownTwice(l, head, [s[0]], Escape(s[1..]), s[1..], Single, Single);
      assert s == [s[0]] + s[1..];
      if s[1..] == "" {
        assert Escape(s) == head && s == [s[0]];
      }
    }
  }

  lemma ScanNothing(l: Lexer)
    ensures Scan(l, "") == Some(l)
  {
  }

  lemma ScanOne(l: Lexer, c: char)
    requires l.mode == Single && c != '\''
    ensures Scan(l, [c]) == Some(Grown(l, [c], [c], Single))
  {
    assert [c][1..] == "";
    ScanNothing(Put(l, c, Single));
  }

  lemma ScanMark(l: Lexer)
    requires l.mode == Plain || l.mode == Single
    ensures Scan(l, "'") == Some(Grown(l, "'", "", if l.mode == Plain then Single else Plain))
  {
    assert "'"[1..] == "";
    ScanNothing(Mark(l, '\'', if l.mode == Plain then Single else Plain));
    assert Current(l).text + "" == Current(l).text;
  }

  /** Whatever a string holds, its quoted form is read back as that string. */
  lemma ScanQuote(l: Lexer, s: string)
    requires l.mode == Plain
    ensures Scan(l, Quote(s)) == Some(Grown(l, Quote(s), s, Plain))
  {
    hide Scan, Step;
    if s != "" && forall i :: 0 <= i < |s| ==> IsSafe(s[i]) {
      ScanSafe(l, s);
    } else {
      assert Quote(s) == "'" + Escape(s) + "'";
      ScanSingleQuoted(l, s);
    }
  }

  lemma ScanSingleQuoted(l: Lexer, s: string)
    requires l.mode == Plain
    ensures Scan(l, "'" + Escape(s) + "'") == Some(Grown(l, "'" + Escape(s) + "'", s, Plain))
  {
    hide Scan, Step;
    var begun := Grown(l, "'", "", Single);
    ScanMark(l);
    ScanAppend(l, "'", Escape(s) + "'");
    assert "'" + (Escape(s) + "'") == "'" + Escape(s) + "'";
    ScanAppend(begun, Escape(s), "'");
    ScanEscape(begun, s);
    if s == "" {
      ScanNothing(begun);
      ScanMark(begun);
      GrownTwice(l, "'", "", "'", "", Single, Plain);
      assert "'" + "" + "'" == "'" + "'" && "" + "" == "";
    } else {
      var inside := Grown(begun, Escape(s), s, Single);
      assert Scan(begun, Escape(s)) == Some(inside);
      ScanMark(inside);
      GrownTwice(l, "'", "", Escape(s), s, Single, Single);
      assert "" + s == s && s + "" == s;
      GrownTwice(l, "'" + Escape(s), s, "'", "", Single, Plain);
    }
  }

  lemma ScanSpace(l: Lexer)
    requires l.mode == Plain && l.current.Some?
    ensures Scan(l, " ") == Some(Lexer(l.words + [l.current.value], None, Plain))
  {
    assert " "[1..] == "";
    ScanNothing(Lexer(l.words + [l.current.value], None, Plain));
  }

  function Quoted(args: seq<string>): seq<Word> {
    if args == [] then [] else Quoted(args[..|args| - 1]) + [Word(Quote(args[|args| - 1]), args[|args| - 1])]
  }

  /** A lexer at the end of a word, with `words` before it and including it. */
  function At(words: seq<Word>): Lexer
    requires words != []
  {
    Lexer(words[..|words| - 1], Some(words[|words| - 1]), Plain)
  }

  lemma ScanArg(words: seq<Word>, arg: string)
    requires words != []
    ensures Scan(At(words), " " + Quote(arg)) == Some(At(words + [Word(Quote(arg), arg)]))
  {
    hide Scan, Step, Quote;
    var between := Lexer(words, None, Plain);
    assert words[..|words| - 1] + [words[|words| - 1]] == words;
    ScanSpace(At(words));
    ScanAppend(At(words), " ", Quote(arg));
    ScanQuote(between, arg);
    var all := words + [Word(Quote(arg), arg)];
    assert all[..|all| - 1] == words;
    assert "" + Quote(arg) == Quote(arg) && "" + arg == arg;
  }

  lemma {:induction false} ScanArgs(words: seq<Word>, args: seq<string>)
    requires words != []
    ensures Scan(At(words), QuoteAll(args)) == Some(At(words + Quoted(args)))
  {
    hide Scan, Step, Quote;
    if args == [] {
      ScanNothing(At(words));
      assert words + Quoted(args) == words;
    } else {
      var init, last := args[..|args| - 1], args[|args| - 1];
      ScanArgs(words, init);
      ScanAppend(At(words), QuoteAll(init), " " + Quote(last));
      ScanArg(words + Quoted(init), last);
      assert QuoteAll(init) + (" " + Quote(last)) == QuoteAll(args);
      assert words + Quoted(init) + [Word(Quote(last), last)] == words + Quoted(args);
    }
  }

  const ASSIGNMENT := Word("ALLOW_MAIN_COMMIT=1", "ALLOW_MAIN_COMMIT=1")

  const GIT := Word("git", "git")

  const DASH_C := Word("-C", "-C")

  function Expected(repo: string, args: seq<string>, withOverride: bool): (words: seq<Word>)
    ensures words != []
  {
    (if withOverride then [ASSIGNMENT] else []) + [GIT, DASH_C] + [Word(Quote(repo), repo)] + Quoted(args)
  }

  lemma SafeIsItsOwnQuote()
    ensures Quote("git") == "git" && Quote("-C") == "-C" && Quote("ALLOW_MAIN_COMMIT=1") == "ALLOW_MAIN_COMMIT=1"
  {
    hide Quote, IsSafe;
    AssignmentIsSafe();
    QuoteOfSafe("ALLOW_MAIN_COMMIT=1");
    GitIsSafe();
    DashCIsSafe();
  }

  lemma GitIsSafe()
    ensures Quote("git") == "git"
  {
    QuoteOfSafe("git");
  }

  lemma DashCIsSafe()
    ensures Quote("-C") == "-C"
  {
    QuoteOfSafe("-C");
  }

  lemma QuoteOfSafe(s: string)
    requires s != "" && forall i :: 0 <= i < |s| ==> IsSafe(s[i])
    ensures Quote(s) == s
  {
  }

  lemma AssignmentIsSafe()
    ensures forall i :: 0 <= i < |"ALLOW_MAIN_COMMIT=1"| ==> IsSafe("ALLOW_MAIN_COMMIT=1"[i])
  {
    OverrideIsAName();
    var line := "ALLOW_MAIN_COMMIT=1";
    assert line == OVERRIDE + "=1";
    forall i | 0 <= i < |line|
      ensures IsSafe(line[i])
    {
      if i < |OVERRIDE| {
        assert line[i] == OVERRIDE[i];
      }
    }
  }

  lemma ScanRendered(repo: string, args: seq<string>, withOverride: bool)
    ensures Scan(Lexer([], None, Plain), Rendered(repo, args, withOverride)) == Some(At(Expected(repo, args, withOverride)))
  {
    hide Scan, Step, Quote, QuoteAll, Quoted;
    var start := Lexer([], None, Plain);
    hide Expected, Rendered;
    SafeIsItsOwnQuote();
    var first := if withOverride then "ALLOW_MAIN_COMMIT=1" else "git";
    var head := if withOverride then ["git", "-C", repo] else ["-C", repo];
    ScanQuote(start, first);
    var one := [Word(first, first)];
    assert Grown(start, first, first, Plain) == At(one) by {
      assert "" + first == first && one[..0] == [];
    }
    ScanHead(one, head, args);
    ScanAppend(start, first, QuoteAll(head) + QuoteAll(args));
    RenderedInParts(repo, args, withOverride);
  }

  lemma RenderedInParts(repo: string, args: seq<string>, withOverride: bool)
    ensures var first := if withOverride then "ALLOW_MAIN_COMMIT=1" else "git";
            var head := if withOverride then ["git", "-C", repo] else ["-C", repo];
            Rendered(repo, args, withOverride) == first + (QuoteAll(head) + QuoteAll(args))
            && Expected(repo, args, withOverride) == [Word(first, first)] + Quoted(head) + Quoted(args)
  {
    hide Quote, QuoteAll, Quoted;
    QuotedHead(repo);
    QuoteAllHead(repo);
    if withOverride {
      assert "ALLOW_MAIN_COMMIT=1" + (" git -C " + Quote(repo)) == "ALLOW_MAIN_COMMIT=1 " + "git -C " + Quote(repo);
    } else {
      assert "git" + (" -C " + Quote(repo)) == "" + "git -C " + Quote(repo);
    }
  }

  lemma ScanHead(words: seq<Word>, head: seq<string>, args: seq<string>)
    requires words != []
    ensures Scan(At(words), QuoteAll(head) + QuoteAll(args)) == Some(At(words + Quoted(head) + Quoted(args)))
  {
    hide Scan;
    ScanArgs(words, head);
    ScanAppend(At(words), QuoteAll(head), QuoteAll(args));
    ScanArgs(words + Quoted(head), args);
  }

  lemma QuoteAllHead(repo: string)
    ensures QuoteAll(["-C", repo]) == " -C " + Quote(repo)
    ensures QuoteAll(["git", "-C", repo]) == " git -C " + Quote(repo)
  {
    hide Quote;
    SafeIsItsOwnQuote();
    var a, b := ["-C", repo], ["git", "-C", repo];
    assert a[..1] == ["-C"] && ["-C"][..0] == [] && b[..2] == ["git", "-C"] && ["git", "-C"][..1] == ["git"];
    assert ["git"][..0] == [];
    assert QuoteAll(["-C"]) == " -C" && QuoteAll(["git"]) == " git" && QuoteAll(["git", "-C"]) == " git -C";
  }

  lemma QuotedHead(repo: string)
    ensures Quoted(["-C", repo]) == [DASH_C, Word(Quote(repo), repo)]
    ensures Quoted(["git", "-C", repo]) == [GIT, DASH_C, Word(Quote(repo), repo)]
  {
    hide Quote;
    SafeIsItsOwnQuote();
    var a, b := ["-C", repo], ["git", "-C", repo];
    assert a[..1] == ["-C"] && ["-C"][..0] == [] && b[..2] == ["git", "-C"] && ["git", "-C"][..1] == ["git"];
    assert ["git"][..0] == [];
    assert Quoted(["-C"]) == [DASH_C] && Quoted(["git"]) == [GIT] && Quoted(["git", "-C"]) == [GIT, DASH_C];
  }

  // ---- NUL ------------------------------------------------------------------------------

  lemma {:induction false} EscapeKeepsNul(s: string)
    ensures '\0' in Escape(s) <==> '\0' in s
  {
    if s != "" {
      EscapeKeepsNul(s[1..]);
      assert s == [s[0]] + s[1..];
      assert '\0' !in "'\\''";
    }
  }

  lemma QuoteKeepsNul(s: string)
    ensures '\0' in Quote(s) <==> '\0' in s
  {
    EscapeKeepsNul(s);
  }

  lemma {:induction false} QuoteAllKeepsNul(args: seq<string>)
    ensures '\0' in QuoteAll(args) <==> (exists a :: a in args && '\0' in a)
  {
    hide Quote;
    if args != [] {
      var init, last := args[..|args| - 1], args[|args| - 1];
      QuoteAllKeepsNul(init);
      QuoteKeepsNul(last);
      assert args == init + [last];
    }
  }

  // ---- the rendered line is the invocation ----------------------------------------------

  lemma {:induction false} TextsAppend(a: seq<Word>, b: seq<Word>)
    ensures Texts(a + b) == Texts(a) + Texts(b)
  {
    hide Texts;
    if a == [] {
      assert a + b == b;
      assert Texts([]) == [] by { NoTexts(); }
    } else {
      TextsAppend(a[1..], b);
      assert (a + b)[1..] == a[1..] + b;
      TextsFirst(a);
      TextsFirst(a + b);
    }
  }

  lemma NoTexts()
    ensures Texts([]) == []
  {
  }

  lemma TextsFirst(words: seq<Word>)
    requires words != []
    ensures Texts(words) == [words[0].text] + Texts(words[1..])
  {
  }

  lemma {:induction false} TextsQuoted(args: seq<string>)
    ensures Texts(Quoted(args)) == args
  {
    hide Quote;
    if args != [] {
      var init, last := args[..|args| - 1], args[|args| - 1];
      TextsQuoted(init);
      TextsAppend(Quoted(init), [Word(Quote(last), last)]);
      assert args == init + [last];
    }
  }

  lemma ExpectedTexts(repo: string, args: seq<string>)
    ensures Texts(Expected(repo, args, false)) == Argv(repo, args)
  {
    hide Quote;
    TextsAppend([GIT, DASH_C] + [Word(Quote(repo), repo)], Quoted(args));
    TextsQuoted(args);
    var tail := [DASH_C, Word(Quote(repo), repo)];
    assert [GIT, DASH_C] + [Word(Quote(repo), repo)] == [GIT] + tail;
    assert ([GIT] + tail)[1..] == tail && tail[1..] == [Word(Quote(repo), repo)];
    assert tail[1..][1..] == [] && Texts(tail[1..]) == [repo] && Texts(tail) == ["-C"] + [repo];
    assert [] + [GIT, DASH_C] == [GIT, DASH_C];
  }

  lemma {:induction false} NoSign(s: string, c: char)
    requires c !in s
    ensures IndexOf(s, c) == |s|
  {
    if s != [] {
      NoSign(s[1..], c);
    }
  }

  lemma {:induction false} FirstSign(s: string, c: char, rest: string)
    requires c !in s
    ensures IndexOf(s + [c] + rest, c) == |s|
  {
    var t := s + [c] + rest;
    if s != [] {
      FirstSign(s[1..], c, rest);
      assert t[1..] == s[1..] + [c] + rest && t[0] == s[0];
    }
  }

  lemma GitIsTheCommand(env: Environment, repo: string, args: seq<string>)
    ensures Command(env, Expected(repo, args, false)) == Some(Launch(env, Argv(repo, args)))
  {
    var words := Expected(repo, args, false);
    ExpectedTexts(repo, args);
    assert words[0] == GIT;
    NoSign("git", '=');
    assert "git" !in RESERVED;
  }

  lemma OverrideIsAName()
    ensures IsName(OVERRIDE)
  {
  }

  lemma OverrideIsAnAssignment(env: Environment, repo: string, args: seq<string>)
    ensures Command(env, Expected(repo, args, true)) == Command(env[OVERRIDE := "1"], Expected(repo, args, false))
  {
    hide *;
    var words, rest := Expected(repo, args, true), Expected(repo, args, false);
    assert words == [ASSIGNMENT] + rest by { OverrideFirst(repo, args); }
    AssignmentReads();
    assert words[0] == ASSIGNMENT && words[1..] == rest;
    CommandSkipsAssignment(env, words, |OVERRIDE|);
  }

  lemma OverrideFirst(repo: string, args: seq<string>)
    ensures Expected(repo, args, true) == [ASSIGNMENT] + Expected(repo, args, false)
  {
    hide Quote, Quoted;
  }

  lemma AssignmentReads()
    ensures AssignmentAt(ASSIGNMENT.raw) == Some(|OVERRIDE|) && |OVERRIDE| + 1 <= |ASSIGNMENT.text|
    ensures ASSIGNMENT.raw[..|OVERRIDE|] == OVERRIDE && ASSIGNMENT.text[|OVERRIDE| + 1..] == "1"
  {
    hide IsName, AssignmentAt, IndexOf;
    OverrideIsAName();
    NameAssigns(OVERRIDE, "1");
    assert ASSIGNMENT.raw == OVERRIDE + ['='] + "1" == ASSIGNMENT.text;
  }

  lemma NameAssigns(name: string, value: string)
    requires IsName(name)
    ensures var raw := name + ['='] + value;
            AssignmentAt(raw) == Some(|name|) && raw[..|name|] == name && raw[|name| + 1..] == value
  {
    FirstSign(name, '=', value);
    var raw := name + ['='] + value;
    assert raw[..|name|] == name;
  }

  lemma CommandSkipsAssignment(env: Environment, words: seq<Word>, at: nat)
    requires words != [] && AssignmentAt(words[0].raw) == Some(at) && at + 1 <= |words[0].text|
    ensures Command(env, words) == Command(env[words[0].raw[..at] := words[0].text[at + 1..]], words[1..])
  {
  }

  /**
   * A shell given the rendered line starts git with the argument vector of `run_git`, whatever the arguments hold;
   * neither starts anything when one of them holds a NUL. The environments are the same exactly when the shell's own
   * carries neither variable that `run_git` removes.
   */
  lemma RenderedIsTheInvocation(env: Environment, repo: string, args: seq<string>, withOverride: bool)
    ensures var shell := Shell(env, Rendered(repo, args, withOverride));
            if forall a :: a in Argv(repo, args) ==> Passable(a) then
              shell.Some? && shell.value.argv == Argv(repo, args)
              && shell.value.env == (if withOverride then env[OVERRIDE := "1"] else env)
              && (shell.value.env == ChildEnv(env, withOverride) <==> "GIT_DIR" !in env && "GIT_WORK_TREE" !in env)
            else shell == None
  {
    hide Scan, Step, Quote, QuoteAll, Command, Expected;
    var line := Rendered(repo, args, withOverride);
    assert '\0' in line <==> exists a :: a in Argv(repo, args) && !Passable(a) by {
      NulInRendered(repo, args, withOverride);
    }
    if forall a :: a in Argv(repo, args) ==> Passable(a) {
      ScanRendered(repo, args, withOverride);
      var words := Expected(repo, args, withOverride);
      assert words[..|words| - 1] + [words[|words| - 1]] == words;
      assert Words(line) == Some(words);
      if withOverride {
        OverrideIsAnAssignment(env, repo, args);
        GitIsTheCommand(env[OVERRIDE := "1"], repo, args);
      } else {
        GitIsTheCommand(env, repo, args);
      }
      EnvironmentsAgree(env, withOverride);
    }
  }

  lemma NulInRendered(repo: string, args: seq<string>, withOverride: bool)
    ensures '\0' in Rendered(repo, args, withOverride) <==> exists a :: a in Argv(repo, args) && !Passable(a)
  {
    hide Quote, QuoteAll;
    QuoteKeepsNul(repo);
    QuoteAllKeepsNul(args);
    assert '\0' !in "ALLOW_MAIN_COMMIT=1 " && '\0' !in "git -C " && Passable("git") && Passable("-C");
    if a :| a in Argv(repo, args) && !Passable(a) {
      assert a == repo || a in args;
    }
    if '\0' in Rendered(repo, args, withOverride) {
      assert '\0' in Quote(repo) || '\0' in QuoteAll(args);
      assert '\0' in repo || exists a :: a in args && '\0' in a;
      if '\0' in repo {
        assert Argv(repo, args)[2] == repo && !Passable(repo);
      } else {
        var a :| a in args && '\0' in a;
        var k :| 0 <= k < |args| && args[k] == a;
        assert Argv(repo, args)[3 + k] == a && !Passable(a);
      }
    }
  }

  lemma EnvironmentsAgree(env: Environment, withOverride: bool)
    ensures (if withOverride then env[OVERRIDE := "1"] else env) == ChildEnv(env, withOverride)
       <==> "GIT_DIR" !in env && "GIT_WORK_TREE" !in env
  {
    var shown := if withOverride then env[OVERRIDE := "1"] else env;
    assert OVERRIDE[0] == 'A' && "GIT_DIR"[0] == 'G' && "GIT_WORK_TREE"[0] == 'G';
    assert "GIT_DIR" in shown <==> "GIT_DIR" in env;
    assert "GIT_WORK_TREE" in shown <==> "GIT_WORK_TREE" in env;
    assert "GIT_DIR" !in ChildEnv(env, withOverride) && "GIT_WORK_TREE" !in ChildEnv(env, withOverride);
    if "GIT_DIR" !in env && "GIT_WORK_TREE" !in env {
      assert ChildEnv(env, withOverride) == shown;
    }
  }

  /** A trace line names one invocation only. */
  lemma RenderingIsInjective(repo: string, args: seq<string>, over: bool, repo': string, args': seq<string>, over': bool)
    requires forall a :: a in Argv(repo, args) + Argv(repo', args') ==> Passable(a)
    requires Rendered(repo, args, over) == Rendered(repo', args', over')
    ensures repo == repo' && args == args' && over == over'
  {
    hide Shell, Rendered;
    RenderedIsTheInvocation(map[], repo, args, over);
    RenderedIsTheInvocation(map[], repo', args', over');
    var one, two := Argv(repo, args), Argv(repo', args');
    assert forall a :: a in one ==> a in one + two;
    assert forall a :: a in two ==> a in one + two;
    assert one == two;
    assert repo == one[2] == two[2] == repo' && args == one[3..] == two[3..] == args';
    assert OVERRIDE in map[][OVERRIDE := "1"];
  }
}

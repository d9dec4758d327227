/**
 * Path resolution without the file system, and the check that the files named by a diff stay inside a worktree.
 * A walk through a tree free of symbolic links gives paths their meaning.
 */
module LexicalPath {
  import opened Wrappers
  import opened Text

  datatype Component = RootDir | CurDir | ParentDir | Normal(name: string)

  /** Names from the root of the tree down to a directory. */
  type Directory = seq<string>

  predicate Proper(name: string) {
    name != "" && name != "." && name != ".." && '/' !in name
  }

  predicate WellFormed(path: seq<Component>) {
    (forall i :: 0 < i < |path| ==> !path[i].RootDir?)
    && forall i :: 0 <= i < |path| && path[i].Normal? ==> Proper(path[i].name)
  }

  predicate IsAbsolute(path: seq<Component>) {
    path != [] && path[0].RootDir?
  }

  // ---- the meaning of a path ------------------------------------------------------------

  function Enter(dir: Directory, c: Component): Directory {
    match c
    case RootDir => []
    case CurDir => dir
    case ParentDir => if dir == [] then [] else dir[..|dir| - 1]
    case Normal(name) => dir + [name]
  }

  /** Where a path leads from `dir`; the parent of the root is the root. */
  function Walk(dir: Directory, path: seq<Component>): Directory {
    if path == [] then dir else Enter(Walk(dir, path[..|path| - 1]), path[|path| - 1])
  }

  // ---- lexical resolution ---------------------------------------------------------------

  /** What one component does to the components kept so far. */
  function Keep(out: seq<Component>, c: Component): seq<Component> {
    match c
    case ParentDir => if out != [] && out[|out| - 1].Normal? then out[..|out| - 1] else out + [c]
    case CurDir => out
    case _ => out + [c]
  }

  function Resolved(path: seq<Component>): seq<Component> {
    if path == [] then [] else Keep(Resolved(path[..|path| - 1]), path[|path| - 1])
  }

  method LexicalResolve(path: seq<Component>) returns (out: seq<Component>)
    ensures out == Resolved(path)
  {
    out := [];
    var i := 0;
    while i < |path|
      invariant 0 <= i <= |path|
      invariant out == Resolved(path[..i])
    {
      assert path[..i + 1][..i] == path[..i];
      match path[i] {
        case ParentDir =>
          var popped := out != [] && out[|out| - 1].Normal?;
          if popped {
            out := out[..|out| - 1];
          } else {
            out := out + [path[i]];
          }
        case CurDir =>
        case _ =>
          out := out + [path[i]];
      }
      i := i + 1;
    }
    assert path[..i] == path;
  }

  /** Resolution changes the spelling of a path, never where it leads. */
  lemma {:induction false} ResolveKeepsWalk(dir: Directory, path: seq<Component>)
    ensures Walk(dir, Resolved(path)) == Walk(dir, path)
  {
    if path != [] {
      var init, c := path[..|path| - 1], path[|path| - 1];
      ResolveKeepsWalk(dir, init);
      var out := Resolved(init);
      assert (out + [c])[..|out|] == out;
    }
  }

  /** Steps up, then steps down: what resolution leaves of a path. */
  predicate UpThenDown(path: seq<Component>) {
    (forall i :: 0 <= i < |path| ==> !path[i].CurDir?)
    && (forall i, j :: 0 <= i < j < |path| && path[i].Normal? ==> path[j].Normal?)
  }

  lemma {:induction false} ResolvedShape(path: seq<Component>)
    requires WellFormed(path)
    ensures WellFormed(Resolved(path)) && UpThenDown(Resolved(path))
    ensures IsAbsolute(Resolved(path)) <==> IsAbsolute(path)
  {
    if path != [] {
      var init, c := path[..|path| - 1], path[|path| - 1];
      ResolvedShape(init);
      if init == [] {
        assert Resolved(init) == [];
      } else {
        assert !c.RootDir?;
        assert IsAbsolute(path) <==> IsAbsolute(init);
      }
    }
  }

  /** A path is left alone exactly when it has no `.` and no `..` after a name. */
  lemma {:induction false} FixedExactlyWhenUpThenDown(path: seq<Component>)
    requires WellFormed(path)
    ensures Resolved(path) == path <==> UpThenDown(path)
  {
    if UpThenDown(path) {
      if path != [] {
        var init := path[..|path| - 1];
        InitIsUpThenDown(path);
        FixedExactlyWhenUpThenDown(init);
        assert path == init + [path[|path| - 1]];
      }
    } else {
      ResolvedShape(path);
    }
  }

  lemma InitIsUpThenDown(path: seq<Component>)
    requires WellFormed(path) && UpThenDown(path) && path != []
    ensures var init := path[..|path| - 1];
            WellFormed(init) && UpThenDown(init) && Keep(init, path[|path| - 1]) == init + [path[|path| - 1]]
  {
    hide WellFormed;
    assert WellFormed(path[..|path| - 1]) by { InitIsWellFormed(path); }
  }

  lemma InitIsWellFormed(path: seq<Component>)
    requires WellFormed(path) && path != []
    ensures WellFormed(path[..|path| - 1])
  {
  }

  lemma ResolveIdempotent(path: seq<Component>)
    requires WellFormed(path)
    ensures Resolved(Resolved(path)) == Resolved(path)
  {
    ResolvedShape(path);
    FixedExactlyWhenUpThenDown(Resolved(path));
  }

  // ---- relative paths: resolution is canonical ------------------------------------------

  function Ups(k: nat): (path: seq<Component>)
    ensures |path| == k
  {
    seq(k, _ => ParentDir)
  }

  function Downs(names: seq<string>): (path: seq<Component>)
    ensures |path| == |names|
  {
    seq(|names|, i requires 0 <= i < |names| => Normal(names[i]))
  }

  lemma {:induction false} WalkDown(dir: Directory, prefix: seq<Component>, names: seq<string>)
    ensures Walk(dir, prefix + Downs(names)) == Walk(dir, prefix) + names
  {
    hide Walk, Downs;
    if names == [] {
      assert Downs(names) == [] && prefix + [] == prefix;
    } else {
      var init, last := names[..|names| - 1], names[|names| - 1];
      WalkDown(dir, prefix, init);
      assert Downs(names) == Downs(init) + [Normal(last)] by { DownsLater(names); }
      assert prefix + Downs(init) + [Normal(last)] == prefix + (Downs(init) + [Normal(last)]);
      WalkOneMore(dir, prefix + Downs(init), Normal(last));
      assert Walk(dir, prefix) + init + [last] == Walk(dir, prefix) + names;
    }
  }

  lemma DownsLater(names: seq<string>)
    requires names != []
    ensures Downs(names) == Downs(names[..|names| - 1]) + [Normal(names[|names| - 1])]
  {
  }

  lemma WalkOneMore(dir: Directory, path: seq<Component>, c: Component)
    ensures Walk(dir, path + [c]) == Enter(Walk(dir, path), c)
  {
    assert (path + [c])[..|path|] == path;
  }

  lemma {:induction false} WalkUp(dir: Directory, k: nat)
    ensures Walk(dir, Ups(k)) == if k < |dir| then dir[..|dir| - k] else []
    decreases k
  {
    if k > 0 {
      WalkUp(dir, k - 1);
      assert Ups(k)[..k - 1] == Ups(k - 1);
    }
  }

  lemma {:induction false} RelativeResolve(path: seq<Component>) returns (k: nat, names: seq<string>)
    requires WellFormed(path) && !IsAbsolute(path)
    ensures Resolved(path) == Ups(k) + Downs(names)
    decreases |path|
  {
    if path == [] {
      k, names := 0, [];
    } else {
      var init, c := path[..|path| - 1], path[|path| - 1];
      k, names := RelativeResolve(init);
      assert !c.RootDir?;
      k, names := RelativeStep(k, names, c);
    }
  }

  lemma RelativeStep(k: nat, names: seq<string>, c: Component) returns (k': nat, names': seq<string>)
    requires !c.RootDir?
    ensures Keep(Ups(k) + Downs(names), c) == Ups(k') + Downs(names')
  {
    var out := Ups(k) + Downs(names);
    k', names' := k, names;
    match c {
      case ParentDir =>
        if names != [] {
          assert out[|out| - 1] == Normal(names[|names| - 1]);
          names' := names[..|names| - 1];
          assert out[..|out| - 1] == Ups(k) + Downs(names');
        } else {
          assert out == Ups(k) && (k > 0 ==> out[k - 1] == ParentDir);
          k' := k + 1;
          assert out + [c] == Ups(k') + Downs([]);
        }
      case CurDir =>
      case Normal(name) =>
        names' := names + [name];
        assert out + [c] == Ups(k) + Downs(names');
    }
  }

  ghost predicate SameWalks(a: seq<Component>, b: seq<Component>) {
    forall dir: Directory :: Walk(dir, a) == Walk(dir, b)
  }

  /** Two relative paths resolve alike exactly when they lead to the same place from everywhere. */
  lemma RelativeResolveIsCanonical(a: seq<Component>, b: seq<Component>)
    requires WellFormed(a) && WellFormed(b) && !IsAbsolute(a) && !IsAbsolute(b)
    ensures Resolved(a) == Resolved(b) <==> SameWalks(a, b)
  {
    if Resolved(a) == Resolved(b) {
      forall dir: Directory
        ensures Walk(dir, a) == Walk(dir, b)
      {
        ResolveKeepsWalk(dir, a);
        ResolveKeepsWalk(dir, b);
      }
    } else if SameWalks(a, b) {
      SameWalksResolveAlike(a, b);
    }
  }

  lemma SameWalksResolveAlike(a: seq<Component>, b: seq<Component>)
    requires WellFormed(a) && WellFormed(b) && !IsAbsolute(a) && !IsAbsolute(b)
    requires SameWalks(a, b)
    ensures Resolved(a) == Resolved(b)
  {
    hide Resolved, Walk;
    var j, names := RelativeResolve(a);
    var k, names' := RelativeResolve(b);
    var deep := seq(j + k, _ => "d");
    RelativeWalk([], a, j, names);
    RelativeWalk([], b, k, names');
    RelativeWalk(deep, a, j, names);
    RelativeWalk(deep, b, k, names');
    assert [] + names == names && [] + names' == names';
    assert |Walk(deep, a)| == k + |names| && |Walk(deep, b)| == j + |names|;
  }

  lemma RelativeWalk(dir: Directory, path: seq<Component>, k: nat, names: seq<string>)
    requires Resolved(path) == Ups(k) + Downs(names)
    ensures Walk(dir, path) == (if k < |dir| then dir[..|dir| - k] else []) + names
  {
    ResolveKeepsWalk(dir, path);
    WalkDown(dir, Ups(k), names);
    WalkUp(dir, k);
  }

  // ---- absolute paths: containment ------------------------------------------------------

  predicate Canonical(path: seq<Component>) {
    IsAbsolute(path) && forall i :: 0 < i < |path| ==> path[i].Normal? && Proper(path[i].name)
  }

  function Names(path: seq<Component>): (dir: Directory)
    requires Canonical(path)
    ensures path == [RootDir] + Downs(dir)
  {
    seq(|path| - 1, i requires 0 <= i < |path| - 1 => path[i + 1].name)
  }

  /** Some `..` is taken at the root. */
  predicate Climbs(path: seq<Component>) {
    exists i :: 0 <= i < |path| && path[i].ParentDir? && Walk([], path[..i]) == []
  }

  lemma ClimbsLater(path: seq<Component>)
    requires path != []
    ensures var init := path[..|path| - 1];
            Climbs(path) <==> Climbs(init) || (path[|path| - 1].ParentDir? && Walk([], init) == [])
  {
    var init := path[..|path| - 1];
    assert forall i :: 0 <= i < |init| ==> path[..i] == init[..i];
    if Climbs(init) {
      var i :| 0 <= i < |init| && init[i].ParentDir? && Walk([], init[..i]) == [];
      assert path[i].ParentDir? && Walk([], path[..i]) == [];
    }
  }

  /** Off the root, the resolved path spells out the directory; otherwise the climb stays in view. */
  lemma {:induction false} AbsoluteResolve(path: seq<Component>)
    requires WellFormed(path) && IsAbsolute(path)
    ensures !Climbs(path) ==> Resolved(path) == [RootDir] + Downs(Walk([], path))
    ensures Climbs(path) ==> |Resolved(path)| > 1 && Resolved(path)[1] == ParentDir
    decreases |path|
  {
    var init, c := path[..|path| - 1], path[|path| - 1];
    ClimbsLater(path);
    if init == [] {
      assert Resolved(init) == [] && Walk([], init) == [];
      assert path == [RootDir] && Resolved(path) == [RootDir] + Downs([]);
    } else {
      AbsoluteResolve(init);
      var dir := Walk([], init);
      if Climbs(init) {
        ResolvedShape(init);
      } else {
        AbsoluteStep(dir, c);
      }
    }
  }

  lemma AbsoluteStep(dir: Directory, c: Component)
    requires !c.RootDir?
    ensures var out := [RootDir] + Downs(dir);
            if c.ParentDir? && dir == [] then Keep(out, c) == [RootDir, ParentDir]
            else Keep(out, c) == [RootDir] + Downs(Enter(dir, c))
  {
    var out := [RootDir] + Downs(dir);
    match c {
      case ParentDir =>
        if dir != [] {
          assert out[|out| - 1] == Normal(dir[|dir| - 1]);
          assert out[..|out| - 1] == [RootDir] + Downs(dir[..|dir| - 1]);
        } else {
          assert out == [RootDir];
        }
      case CurDir =>
      case Normal(name) =>
        assert out + [c] == [RootDir] + Downs(dir + [name]);
    }
  }

  /**
   * `starts_with` on the resolved path decides containment: a path it accepts leads inside the root, and one that
   * leads inside is refused only if it climbed above `/` on the way and the root is not `/` itself.
   */
  lemma PrefixDecidesContainment(path: seq<Component>, root: seq<Component>)
    requires WellFormed(path) && IsAbsolute(path) && Canonical(root)
    ensures root <= Resolved(path) <==> Names(root) <= Walk([], path) && (Climbs(path) ==> root == [RootDir])
  {
    hide Walk, Resolved;
    AbsoluteResolve(path);
    ResolvedShape(path);
    var dir := Names(root);
    if Climbs(path) {
      if |root| > 1 {
        assert root[1].Normal?;
        assert !(root <= Resolved(path));
      } else {
        assert root == [RootDir] && dir == [];
      }
    } else {
      var to := Walk([], path);
      assert Resolved(path) == [RootDir] + Downs(to);
      if dir <= to {
        assert forall i :: 0 <= i < |root| ==> root[i] == ([RootDir] + Downs(to))[i];
      }
      if root <= Resolved(path) {
        assert |dir| <= |to|;
        assert forall i :: 0 <= i < |dir| ==> root[i + 1] == Normal(dir[i]) && Resolved(path)[i + 1] == Normal(to[i]);
      }
    }
  }

  // ---- paths as text --------------------------------------------------------------------

  function Pieces(parts: seq<string>): seq<Component> {
    if parts == [] then [] else Piece(parts[0]) + Pieces(parts[1..])
  }

  function Piece(part: string): seq<Component> {
    if part == "" || part == "." then [] else if part == ".." then [ParentDir] else [Normal(part)]
  }

  /** `Path::components`: doubled and final slashes vanish, and `.` except at the very front. */
  function Components(s: string): seq<Component> {
    var parts := Split(s, '/');
    (if StartsWith(s, "/") then [RootDir] else if parts[0] == "." then [CurDir] else []) + Pieces(parts)
  }

  /** A dot in front is kept; from there on the path reads as the absolute one does. */
  lemma DotInFront(s: string)
    ensures Components("./" + s) == [CurDir] + Components("/" + s)[1..]
  {
    hide Split, Pieces;
    assert "./" + s == "." + ['/'] + s && "/" + s == "" + ['/'] + s;
    SplitAt(".", '/', s);
    SplitAt("", '/', s);
    NoSeparatorNoSplit(".", '/');
    NoSeparatorNoSplit("", '/');
    PiecesFirst(["."] + Split(s, '/'));
    PiecesFirst([""] + Split(s, '/'));
    assert ("./" + s)[0] == '.';
    assert (["."] + Split(s, '/'))[1..] == Split(s, '/') == ([""] + Split(s, '/'))[1..];
  }

  lemma NoPieces()
    ensures Pieces([]) == []
  {
  }

  lemma PiecesFirst(parts: seq<string>)
    requires parts != []
    ensures Pieces(parts) == Piece(parts[0]) + Pieces(parts[1..])
  {
  }

  lemma {:induction false} PiecesAppend(a: seq<string>, b: seq<string>)
    ensures Pieces(a + b) == Pieces(a) + Pieces(b)
  {
    hide Pieces, Piece;
    if a == [] {
      assert a + b == b;
      assert Pieces([]) == [] by { NoPieces(); }
    } else {
      PiecesAppend(a[1..], b);
      assert (a + b)[1..] == a[1..] + b;
      PiecesFirst(a);
      PiecesFirst(a + b);
    }
  }

  lemma {:induction false} PiecesAreProper(parts: seq<string>)
    requires forall p :: p in parts ==> '/' !in p
    ensures forall i :: 0 <= i < |Pieces(parts)| ==>
              Pieces(parts)[i].ParentDir? || (Pieces(parts)[i].Normal? && Proper(Pieces(parts)[i].name))
  {
    if parts != [] {
      assert parts[0] in parts;
      PiecesAreProper(parts[1..]);
    }
  }

  lemma ComponentsAreWellFormed(s: string)
    ensures WellFormed(Components(s)) && (IsAbsolute(Components(s)) <==> StartsWith(s, "/"))
  {
    hide Split, Pieces;
    SplitHasNoSeparator(s, '/');
    PiecesAreProper(Split(s, '/'));
  }

  function Spelling(c: Component): string {
    match c
    case RootDir => ""
    case CurDir => "."
    case ParentDir => ".."
    case Normal(name) => name
  }

  function Spellings(path: seq<Component>): (parts: seq<string>)
    ensures |parts| == |path|
  {
    if path == [] then [] else [Spelling(path[0])] + Spellings(path[1..])
  }

  /** A path collected from components. */
  function Show(path: seq<Component>): string {
    if path == [] then "" else if path == [RootDir] then "/" else Join(Spellings(path), '/')
  }

  lemma {:induction false} SplitJoin(parts: seq<string>, sep: char)
    requires parts != [] && forall p :: p in parts ==> sep !in p
    ensures Split(Join(parts, sep), sep) == parts
  {
    NoSeparatorNoSplit(parts[0], sep);
    if |parts| > 1 {
      SplitJoin(parts[1..], sep);
      SplitAt(parts[0], sep, Join(parts[1..], sep));
      assert parts == [parts[0]] + parts[1..];
    } else {
      assert parts == [parts[0]];
    }
  }

  lemma {:induction false} SpellingsRead(path: seq<Component>)
    requires WellFormed(path) && UpThenDown(path) && !IsAbsolute(path)
    ensures Pieces(Spellings(path)) == path
    ensures forall p :: p in Spellings(path) ==> '/' !in p && p != "" && p != "."
  {
    if path != [] {
      assert !path[0].RootDir? && !path[0].CurDir?;
      assert path == [path[0]] + path[1..];
      SpellingsRead(path[1..]);
    }
  }

  /** A resolved path survives being written out and split again, so resolving may be repeated on its text. */
  lemma ShowRoundTrip(path: seq<Component>)
    requires WellFormed(path) && UpThenDown(path)
    ensures Components(Show(path)) == path
  {
    hide Split, Join, Spellings;
    if path == [] {
      NoSeparatorNoSplit("", '/');
      assert Pieces([""]) == [];
    } else if path == [RootDir] {
      SlashAlone();
    } else if IsAbsolute(path) {
      ShowAbsolute(path);
    } else {
      SpellingsRead(path);
      var parts := Spellings(path);
      SplitJoin(parts, '/');
      assert parts[0] in parts;
      NotASlash(parts);
    }
  }

  lemma ShowAbsolute(path: seq<Component>)
    requires WellFormed(path) && UpThenDown(path) && IsAbsolute(path) && |path| > 1
    ensures Components(Show(path)) == path
  {
    hide Split, Join, Spellings, Pieces;
    var rest := path[1..];
    SpellingsRead(rest);
    var parts := Spellings(rest);
    var all := [""] + parts;
    AbsoluteSpelling(path);
    assert Show(path) == Join(all, '/');
    assert forall p :: p in all ==> p == "" || p in parts;
    SplitJoin(all, '/');
    PiecesAppend([""], parts);
    BlankPiece();
    assert Pieces(all) == rest;
    assert StartsWith(Show(path), "/") by {
      JoinAppend([""], parts, '/');
      JoinOne("", '/');
    }
    assert [RootDir] + rest == path;
  }

  lemma SlashAlone()
    ensures Components("/") == [RootDir]
  {
    assert "/"[1..] == "";
    assert Split("/", '/') == ["", ""];
    assert ["", ""][1..] == [""] && [""][1..] == [];
  }

  lemma AbsoluteSpelling(path: seq<Component>)
    requires IsAbsolute(path)
    ensures Spellings(path) == [""] + Spellings(path[1..])
  {
  }

  lemma JoinOne(s: string, sep: char)
    ensures Join([s], sep) == s
  {
  }

  lemma NotASlash(parts: seq<string>)
    requires parts != [] && '/' !in parts[0] && parts[0] != ""
    ensures !StartsWith(Join(parts, '/'), "/")
  {
    assert Join(parts, '/')[0] == parts[0][0];
  }

  /** Resolving the text of a resolved path changes nothing. */
  lemma ResolveIdempotentOnText(s: string)
    ensures var once := Resolved(Components(s)); Resolved(Components(Show(once))) == once
  {
    ComponentsAreWellFormed(s);
    ResolvedShape(Components(s));
    ShowRoundTrip(Resolved(Components(s)));
    ResolveIdempotent(Components(s));
  }

  /** `Path::join`. */
  function Joined(base: string, path: string): string {
    if StartsWith(path, "/") then path
    else if base == "" || EndsWith(base, "/") then base + path
    else base + "/" + path
  }

  lemma {:induction false} WalkAppend(dir: Directory, a: seq<Component>, b: seq<Component>)
    ensures Walk(dir, a + b) == Walk(Walk(dir, a), b)
  {
    if b == [] {
      assert a + b == a;
    } else {
      var init := b[..|b| - 1];
      WalkAppend(dir, a, init);
      assert (a + b)[..|a + b| - 1] == a + init;
    }
  }

  lemma WalkCanonical(dir: Directory, root: seq<Component>)
    requires Canonical(root)
    ensures Walk(dir, root) == Names(root)
  {
    WalkDown(dir, [RootDir], Names(root));
    assert [RootDir][..0] == [];
    assert Walk(dir, [RootDir]) == [];
  }

  /** A relative path joined to a directory leads where it leads from that directory. */
  lemma JoinWalks(root: seq<Component>, path: string)
    requires Canonical(root) && !StartsWith(path, "/")
    ensures StartsWith(Joined(Show(root), path), "/")
    ensures Walk([], Components(Joined(Show(root), path))) == Walk(Names(root), Components(path))
  {
    hide Split, Walk, Show, Spellings, Pieces;
    var parts := Split(path, '/');
    ShowRoundTrip(root);
    RootShown(root);
    JoinedIsAbsolute(Show(root), path);
    JoinedComponents(root, path);
    var tail := Pieces(parts);
    WalkAppend([], root, tail);
    WalkCanonical([], root);
    WalkFromHere(Names(root), tail);
    assert [] + tail == tail;
  }

  lemma WalkFromHere(dir: Directory, tail: seq<Component>)
    ensures Walk(dir, [CurDir] + tail) == Walk(dir, tail)
  {
    WalkAppend(dir, [CurDir], tail);
    assert [CurDir][..0] == [];
    assert Walk(dir, [CurDir]) == dir;
  }

  lemma RootShown(root: seq<Component>)
    requires Canonical(root)
    ensures StartsWith(Show(root), "/")
    ensures EndsWith(Show(root), "/") <==> root == [RootDir]
  {
    hide Split, Join, Spellings;
    if root != [RootDir] {
      AbsoluteSpelling(root);
      var parts := Spellings(root[1..]);
      SpellingsRead(root[1..]);
      JoinAppend([""], parts, '/');
      JoinOne("", '/');
      assert parts != [];
      LastPiece(parts);
      LastOfShown(root, Join(parts, '/'));
    }
  }

  lemma LastOfShown(path: seq<Component>, tail: string)
    requires Show(path) == "" + ['/'] + tail && tail != "" && tail[|tail| - 1] != '/'
    ensures StartsWith(Show(path), "/") && !EndsWith(Show(path), "/")
  {
    var shown := Show(path);
    assert shown[0] == '/' && shown[|shown| - 1] == tail[|tail| - 1];
  }

  lemma {:induction false} LastPiece(parts: seq<string>)
    requires parts != [] && forall p :: p in parts ==> '/' !in p && p != ""
    ensures Join(parts, '/') != "" && Join(parts, '/')[|Join(parts, '/')| - 1] != '/'
  {
    if |parts| > 1 {
      LastPiece(parts[1..]);
    } else {
      assert parts[0] in parts;
    }
  }

  lemma JoinedIsAbsolute(base: string, path: string)
    requires StartsWith(base, "/")
    ensures StartsWith(Joined(base, path), "/")
  {
  }

  lemma JoinedComponents(root: seq<Component>, path: string)
    requires Canonical(root) && !StartsWith(path, "/")
    ensures Components(Joined(Show(root), path)) == root + Pieces(Split(path, '/'))
  {
    hide Split, Pieces, Spellings, Join;
    var shown := Show(root);
    RootShown(root);
    JoinedIsAbsolute(shown, path);
    ShowRoundTrip(root);
    var tail := Split(path, '/');
    if root == [RootDir] {
      assert "/" + path == "" + ['/'] + path;
      SplitAt("", '/', path);
      NoSeparatorNoSplit("", '/');
      PiecesAppend([""], tail);
      assert Pieces([""]) == [] by { BlankPiece(); }
      assert [] + Pieces(tail) == Pieces(tail);
    } else {
      assert shown + "/" + path == shown + ['/'] + path;
      SplitAt(shown, '/', path);
      PiecesAppend(Split(shown, '/'), tail);
      assert root == [RootDir] + Pieces(Split(shown, '/'));
      assert [RootDir] + (Pieces(Split(shown, '/')) + Pieces(tail)) == root + Pieces(tail);
    }
  }

  lemma BlankPiece()
    ensures Pieces([""]) == []
  {
  }

  // ---- the headers of a diff ------------------------------------------------------------

  /** The path a `+++` or `---` header names. */
  function PathField(line: string): Option<string> {
    if StartsWith(line, "+++ ") || StartsWith(line, "--- ") then Some(Trim(Split(line[4..], '\t')[0])) else None
  }

  function WithoutLabel(field: string): string {
    if StartsWith(field, "a/") || StartsWith(field, "b/") then field[2..] else field
  }

  /** The file system's answer for a path, None when it cannot be canonicalized. */
  type FileSystem = string -> Option<seq<Component>>

  function Destination(fs: FileSystem, root: seq<Component>, field: string): seq<Component> {
    var candidate := Joined(Show(root), WithoutLabel(field));
    match fs(candidate)
    case Some(path) => path
    case None => Resolved(Components(candidate))
  }

  predicate Allowed(fs: FileSystem, root: seq<Component>, line: string) {
    PathField(line).Some? && PathField(line).value != "/dev/null" ==>
      root <= Destination(fs, root, PathField(line).value)
  }

  datatype DiffError = NoWorktree | Escapes(field: string)

  predicate AllAllowed(fs: FileSystem, root: seq<Component>, lines: seq<string>) {
    forall l :: l in lines ==> Allowed(fs, root, l)
  }

  /** Ok exactly when every header is allowed; otherwise the first that is not. */
  method ValidateDiffPaths(fs: FileSystem, worktree: string, diff: string) returns (r: Result<(), DiffError>)
    ensures r == Err(NoWorktree) <==> fs(worktree).None?
    ensures fs(worktree).Some? ==>
              var lines, root := Lines(diff), fs(worktree).value;
              (r == Ok(()) <==> AllAllowed(fs, root, lines))
              && (r.Err? ==> exists i :: 0 <= i < |lines| && PathField(lines[i]) == Some(r.error.field)
                                         && !Allowed(fs, root, lines[i]) && AllAllowed(fs, root, lines[..i]))
  {
    hide Lines, PathField, Show, Components, Resolved, WithoutLabel;
    if fs(worktree).None? {
      return Err(NoWorktree);
    }
    var root := fs(worktree).value;
    var lines := Lines(diff);
    var i := 0;
    while i < |lines|
      invariant 0 <= i <= |lines|
      invariant forall k :: 0 <= k < i ==> Allowed(fs, root, lines[k])
    {
      var field := PathField(lines[i]);
      if field.Some? && field.value != "/dev/null" {
        var stripped := WithoutLabel(field.value);
        var candidate := if StartsWith(stripped, "/") then stripped else Joined(Show(root), stripped);
        var resolved: seq<Component>;
        var onDisk := fs(candidate);
        if onDisk.Some? {
          resolved := onDisk.value;
        } else {
          resolved := LexicalResolve(Components(candidate));
        }
        if !(root <= resolved) {
          assert lines[i] in lines && AllAllowed(fs, root, lines[..i]);
          return Err(Escapes(field.value));
        }
      }
      i := i + 1;
    }
    return Ok(());
  }

  /** A header line, and the field up to the first tab, without the whitespace around it. */
  ghost predicate HeaderNames(line: string, field: string) {
    && |line| >= 4 && (line[..4] == "+++ " || line[..4] == "--- ")
    && exists tab, i, j :: FieldAt(line[4..], field, tab, i, j)
  }

  ghost predicate FieldAt(rest: string, field: string, tab: int, i: int, j: int) {
    && 0 <= tab <= |rest| && '\t' !in rest[..tab] && (tab < |rest| ==> rest[tab] == '\t')
    && TrimsTo(rest[..tab], i, j) && field == rest[..tab][i..j]
  }

  /** The field is git's label `a/` or `b/` and the path, or has no label. */
  predicate Labelled(field: string, path: string) {
    field == "a/" + path || field == "b/" + path || (field == path && !StartsWith(field, "a/") && !StartsWith(field, "b/"))
  }

  lemma FirstOfTwo(first: string, rest: string)
    requires '\t' !in first
    ensures Split(first + ['\t'] + rest, '\t')[0] == first
  {
    hide Split;
    NoSeparatorNoSplit(first, '\t');
    SplitAt(first, '\t', rest);
  }

  lemma CutAt(s: string, k: nat)
    requires k < |s|
    ensures s == s[..k] + [s[k]] + s[k + 1..]
  {
  }

  lemma FirstPiece(s: string, k: nat)
    requires k <= |s| && '\t' !in s[..k] && (k < |s| ==> s[k] == '\t')
    ensures Split(s, '\t')[0] == s[..k]
  {
    hide Split;
    var first := s[..k];
    if k < |s| {
      FirstOfTwo(first, s[k + 1..]);
      CutAt(s, k);
    } else {
      NoSeparatorNoSplit(first, '\t');
      assert first == s;
    }
  }

  lemma {:induction false} FirstTab(s: string) returns (k: nat)
    ensures k <= |s| && '\t' !in s[..k] && (k < |s| ==> s[k] == '\t')
  {
    if s == "" || s[0] == '\t' {
      k := 0;
    } else {
      var j := FirstTab(s[1..]);
      k := j + 1;
      assert s[..k] == [s[0]] + s[1..][..j];
    }
  }

  lemma PathFieldOnText(line: string, field: string)
    ensures PathField(line) == Some(field) <==> HeaderNames(line, field)
  {
    hide Split, Trim;
    if |line| >= 4 && (line[..4] == "+++ " || line[..4] == "--- ") {
      var rest := line[4..];
      var k := FirstTab(rest);
      FirstPiece(rest, k);
      var i, j := TrimDrops(rest[..k]);
      assert FieldAt(rest, rest[..k][i..j], k, i, j);
      if tab, a, b :| FieldAt(rest, field, tab, a, b) {
        FirstPiece(rest, tab);
        TrimIs(rest[..tab], a, b);
      }
    }
  }

  lemma LabelOnText(field: string, path: string)
    ensures Labelled(field, path) <==> WithoutLabel(field) == path
  {
    assert |"a/"| == |"b/"| == 2;
    if StartsWith(field, "a/") {
      assert field == "a/" + field[2..];
    } else if StartsWith(field, "b/") {
      assert field == "b/" + field[2..];
    }
    assert ("a/" + path)[2..] == path && ("b/" + path)[2..] == path;
    assert ("a/" + path)[0] == 'a' && ("b/" + path)[0] == 'b';
  }

  /**
   * A line that is no header or names /dev/null is allowed. A header whose path is on disk is allowed exactly when what
   * it comes to there, links followed, begins with the worktree.
   */
  lemma AllowedOnDisk(fs: FileSystem, root: seq<Component>, line: string, field: string, path: string)
    ensures (forall f :: !HeaderNames(line, f)) || HeaderNames(line, "/dev/null") ==> Allowed(fs, root, line)
    ensures HeaderNames(line, field) && field != "/dev/null" && Labelled(field, path)
            && fs(Joined(Show(root), path)).Some? ==>
              (Allowed(fs, root, line) <==> root <= fs(Joined(Show(root), path)).value)
  {
    hide PathField, HeaderNames, Joined, Show, Labelled, WithoutLabel;
    PathFieldOnText(line, field);
    PathFieldOnText(line, "/dev/null");
    if PathField(line).Some? {
      PathFieldOnText(line, PathField(line).value);
    }
    LabelOnText(field, path);
  }

  /**
   * For a header that names no file on disk, being allowed means leading inside the worktree: from the worktree if
   * the path is relative, from `/` otherwise, with no climb above `/` unless the worktree is `/`.
   */
  lemma AllowedLeadsInside(fs: FileSystem, root: seq<Component>, line: string)
    requires Canonical(root)
    requires PathField(line).Some? && PathField(line).value != "/dev/null"
    requires fs(Joined(Show(root), WithoutLabel(PathField(line).value))).None?
    ensures var path := WithoutLabel(PathField(line).value);
            var start := if StartsWith(path, "/") then [] else Names(root);
            Allowed(fs, root, line) <==>
              (Names(root) <= Walk(start, Components(path))
               && (Climbs(Components(Joined(Show(root), path))) ==> root == [RootDir]))
  {
    hide PathField, Walk, Resolved, Components, Show, Climbs, Names;
    var path := WithoutLabel(PathField(line).value);
    var candidate := Joined(Show(root), path);
    ComponentsAreWellFormed(candidate);
    if !StartsWith(path, "/") {
      JoinWalks(root, path);
    }
    PrefixDecidesContainment(Components(candidate), root);
  }
}

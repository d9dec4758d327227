/** Finding conflict blocks in a status document and resolving them by union merge. */
module ConflictMerge {
  import opened Wrappers
  import opened Text
  import opened TableRows

  datatype ConflictKind = ContentMixed | InProtectedZone | MalformedMarkers

  const PREAMBLE_GUARD_LINES := 100
  const FOOTER_GUARD_LINES := 50

  // ---- lines ----------------------------------------------------------------------------

  /** `split_inclusive('\n')`: each piece keeps its newline; no empty last piece. */
  function SplitLines(s: string): seq<string> {
    if s == [] then []
    else
      var rest := SplitLines(s[1..]);
      if s[0] == '\n' || rest == [] then [[s[0]]] + rest else [[s[0]] + rest[0]] + rest[1..]
  }

  /** One line: newline only at the end. */
  predicate IsLine(l: string) {
    l != [] && forall i :: 0 <= i < |l| - 1 ==> l[i] != '\n'
  }

  predicate Terminated(l: string) {
    IsLine(l) && l[|l| - 1] == '\n'
  }

  /** What `SplitLines` produces: only the last line may lack its newline. */
  predicate AreLines(lines: seq<string>) {
    forall i :: 0 <= i < |lines| ==> IsLine(lines[i]) && (i < |lines| - 1 ==> Terminated(lines[i]))
  }

  lemma {:induction false} SplitLinesShape(s: string)
    ensures Flatten(SplitLines(s)) == s && AreLines(SplitLines(s))
  {
    if s != [] {
      SplitLinesShape(s[1..]);
      var rest := SplitLines(s[1..]);
      assert s == [s[0]] + s[1..];
      if s[0] == '\n' || rest == [] {
        assert rest == [] ==> s[1..] == [];
        LineInFront([s[0]], rest);
      } else {
        LongerFirstLine(s[0], rest);
      }
    }
  }

  lemma LineInFront(line: string, rest: seq<string>)
    requires AreLines(rest) && IsLine(line) && (rest != [] ==> Terminated(line))
    ensures AreLines([line] + rest) && Flatten([line] + rest) == line + Flatten(rest)
  {
    assert ([line] + rest)[1..] == rest;
  }

  lemma LongerFirstLine(c: char, rest: seq<string>)
    requires c != '\n' && rest != [] && AreLines(rest)
    ensures var all := [[c] + rest[0]] + rest[1..]; AreLines(all) && Flatten(all) == [c] + Flatten(rest)
  {
    hide Flatten, AreLines;
    var first := [c] + rest[0];
    FirstLine(rest);
    assert first[|first| - 1] == rest[0][|rest[0]| - 1];
    assert IsLine(first);
    LineInFront(first, rest[1..]);
    assert [c] + (rest[0] + Flatten(rest[1..])) == first + Flatten(rest[1..]);
  }

  lemma FirstLine(lines: seq<string>)
    requires AreLines(lines) && lines != []
    ensures IsLine(lines[0]) && AreLines(lines[1..]) && (lines[1..] != [] ==> Terminated(lines[0]))
    ensures Flatten(lines) == lines[0] + Flatten(lines[1..])
  {
  }

  lemma {:induction false} SplitTerminated(l: string, tail: string)
    requires IsLine(l) && (tail != [] ==> Terminated(l))
    ensures SplitLines(l + tail) == [l] + SplitLines(tail)
  {
    var s := l + tail;
    assert s[0] == l[0];
    if |l| == 1 {
      assert s[1..] == tail && l == [s[0]];
      assert tail == [] ==> SplitLines(tail) == [];
    } else {
      assert IsLine(l[1..]);
      assert s[1..] == l[1..] + tail;
      SplitTerminated(l[1..], tail);
      assert l == [l[0]] + l[1..];
    }
  }

  lemma {:induction false} SplitFlatten(lines: seq<string>)
    requires AreLines(lines)
    ensures SplitLines(Flatten(lines)) == lines
  {
    if lines != [] {
      assert AreLines(lines[1..]);
      SplitFlatten(lines[1..]);
      assert |lines| > 1 ==> Terminated(lines[0]);
      assert |lines| == 1 ==> Flatten(lines[1..]) == [];
      SplitTerminated(lines[0], Flatten(lines[1..]));
    }
  }

  // ---- markers --------------------------------------------------------------------------

  predicate IsOpen(line: string): (r: bool)
    ensures r <==> StartsWith(line, "<<<<<<<")
  {
    TrimEolKeepsMarker(line, "<<<<<<<");
    StartsWith(TrimEol(line), "<<<<<<<")
  }

  predicate IsSeparator(line: string): (r: bool)
    ensures r <==> StartsWith(line, "=======")
  {
    TrimEolKeepsMarker(line, "=======");
    StartsWith(TrimEol(line), "=======")
  }

  predicate IsClose(line: string): (r: bool)
    ensures r <==> StartsWith(line, ">>>>>>>")
  {
    TrimEolKeepsMarker(line, ">>>>>>>");
    StartsWith(TrimEol(line), ">>>>>>>")
  }

  lemma {:induction false} TrimEolKeepsMarker(line: string, marker: string)
    requires '\n' !in marker && '\r' !in marker
    ensures StartsWith(TrimEol(line), marker) <==> StartsWith(line, marker)
  {
    var n := |line| - 1;
    if line != [] && (line[n] == '\n' || line[n] == '\r') {
      TrimEolKeepsMarker(line[..n], marker);
      assert forall i :: 0 <= i < |marker| ==> marker[i] != '\n' && marker[i] != '\r';
      assert marker <= line ==> marker <= line[..n];
    }
  }

  // ---- finding the blocks ---------------------------------------------------------------

  datatype Block = Block(start: nat, end: nat, ours: seq<string>, theirs: seq<string>)

  /** The separator and closing marker after position `i`, given the separator if already seen. */
  function FindClose(lines: seq<string>, i: nat, sep: Option<nat>): (r: Result<(nat, nat), ConflictKind>)
    requires i <= |lines| && (sep.Some? ==> sep.value < i)
    ensures r.Ok? ==> r.value.0 < r.value.1 < |lines| && i <= r.value.1
    ensures r.Ok? && sep.Some? ==> r.value.0 == sep.value
    ensures r.Ok? && sep.None? ==> i <= r.value.0
    ensures r.Err? ==> r.error == MalformedMarkers
    decreases |lines| - i
  {
    if i == |lines| || IsOpen(lines[i]) then Err(MalformedMarkers)
    else if sep.None? && IsSeparator(lines[i]) then FindClose(lines, i + 1, Some(i))
    else if IsClose(lines[i]) then (if sep.Some? then Ok((sep.value, i)) else Err(MalformedMarkers))
    else FindClose(lines, i + 1, sep)
  }

  function BlockAt(lines: seq<string>, start: nat, sep: nat, close: nat): Block
    requires start < sep < close < |lines|
  {
    Block(start, close + 1, lines[start + 1..sep], lines[sep + 1..close])
  }

  function FindBlocks(lines: seq<string>, i: nat): Result<seq<Block>, ConflictKind>
    requires i <= |lines|
    decreases |lines| - i
  {
    if i == |lines| then Ok([])
    else if !IsOpen(lines[i]) then FindBlocks(lines, i + 1)
    else
      match FindClose(lines, i + 1, None)
      case Err(e) => Err(e)
      case Ok((sep, close)) =>
        match FindBlocks(lines, close + 1)
        case Err(e) => Err(e)
        case Ok(rest) => Ok([BlockAt(lines, i, sep, close)] + rest)
  }

  method FindConflictBlocks(lines: seq<string>) returns (r: Result<seq<Block>, ConflictKind>)
    ensures r == FindBlocks(lines, 0)
  {
    hide IsOpen, IsSeparator, IsClose;
    var out: seq<Block> := [];
    var i := 0;
    assert forall rest: seq<Block> :: [] + rest == rest;
    while i < |lines|
      invariant i <= |lines|
      invariant FindBlocks(lines, 0) == match FindBlocks(lines, i)
                                        case Err(e) => Err(e)
                                        case Ok(rest) => Ok(out + rest)
    {
      if IsOpen(lines[i]) {
        var sep: Option<nat>, close: Option<nat> := None, None;
        var off := i + 1;
        while off < |lines|
          invariant i < off <= |lines| && close.None? && (sep.Some? ==> i < sep.value < off)
          invariant FindClose(lines, i + 1, None) == FindClose(lines, off, sep)
        {
          if IsOpen(lines[off]) {
            return Err(MalformedMarkers);
          }
          if sep.None? && IsSeparator(lines[off]) {
            sep := Some(off);
            off := off + 1;
            continue;
          }
          if IsClose(lines[off]) {
            close := Some(off);
            break;
          }
          off := off + 1;
        }
        if sep.None? || close.None? {
          return Err(MalformedMarkers);
        }
        ghost var before := out;
        var block := BlockAt(lines, i, sep.value, close.value);
        out := out + [block];
        assert forall rest: seq<Block> :: before + ([block] + rest) == out + rest;
        i := close.value + 1;
        continue;
      }
      i := i + 1;
    }
    assert out + [] == out;
    return Ok(out);
  }

  // ---- resolving ------------------------------------------------------------------------

  predicate IsPureAddition(b: Block) {
    b.ours != [] && b.theirs != []
  }

  predicate IsTabular(b: Block) {
    forall i :: 0 <= i < |b.ours + b.theirs| ==>
      var l := (b.ours + b.theirs)[i]; IsTableRow(l) || IsBranchComment(l) || IsBlank(l)
  }

  function Verdict(b: Block, total: nat): Option<ConflictKind> {
    if b.start < PREAMBLE_GUARD_LINES || b.end + FOOTER_GUARD_LINES >= total then Some(InProtectedZone)
    else if !IsPureAddition(b) || !IsTabular(b) then Some(ContentMixed)
    else None
  }

  /** The first block in file order that is refused decides the error. */
  function FirstRefusal(blocks: seq<Block>, total: nat): Option<ConflictKind> {
    if blocks == [] then None
    else if Verdict(blocks[0], total).Some? then Verdict(blocks[0], total)
    else FirstRefusal(blocks[1..], total)
  }

  /** Blocks in file order, none overlapping, all at or after `from`. */
  predicate InOrder(blocks: seq<Block>, from: nat, total: nat) {
    if blocks == [] then from <= total
    else from <= blocks[0].start < blocks[0].end <= total && InOrder(blocks[1..], blocks[0].end, total)
  }

  /** The lines from `from` on, with every block replaced by what `fill` makes of it. */
  function Weave(lines: seq<string>, blocks: seq<Block>, from: nat, fill: Block -> seq<string>): seq<string>
    requires InOrder(blocks, from, |lines|)
    decreases |blocks|
  {
    if blocks == [] then lines[from..]
    else lines[from..blocks[0].start] + fill(blocks[0]) + Weave(lines, blocks[1..], blocks[0].end, fill)
  }

  function MergedLines(b: Block): seq<string> {
    TerminateAll(MergeRows(b.ours, b.theirs))
  }

  function Resolve(content: string): Result<string, ConflictKind> {
    var lines := SplitLines(content);
    match FindBlocks(lines, 0)
    case Err(e) => Err(e)
    case Ok(blocks) =>
      BlocksInOrder(lines, 0);
      if FirstRefusal(blocks, |lines|).Some? then Err(FirstRefusal(blocks, |lines|).value)
      else Ok(Flatten(Weave(lines, blocks, 0, MergedLines)))
  }

  lemma {:induction false} BlocksInOrder(lines: seq<string>, i: nat)
    requires i <= |lines|
    ensures FindBlocks(lines, i).Ok? ==> InOrder(FindBlocks(lines, i).value, i, |lines|)
    decreases |lines| - i
  {
    hide IsOpen, IsSeparator, IsClose;
    if i < |lines| {
      if !IsOpen(lines[i]) {
        BlocksInOrder(lines, i + 1);
        if FindBlocks(lines, i).Ok? {
          LaterIsInOrder(FindBlocks(lines, i + 1).value, i + 1, i, |lines|);
        }
      } else if FindClose(lines, i + 1, None).Ok? {
        var (sep, close) := FindClose(lines, i + 1, None).value;
        BlocksInOrder(lines, close + 1);
        if FindBlocks(lines, i).Ok? {
          assert FindBlocks(lines, i).value[1..] == FindBlocks(lines, close + 1).value;
        }
      }
    }
  }

  lemma LaterIsInOrder(blocks: seq<Block>, from: nat, earlier: nat, total: nat)
    requires earlier <= from && InOrder(blocks, from, total)
    ensures InOrder(blocks, earlier, total)
  {
  }

  lemma {:induction false} SplitInOrder(blocks: seq<Block>, k: nat, from: nat, total: nat)
    requires InOrder(blocks, from, total) && k < |blocks|
    ensures from <= blocks[k].start < blocks[k].end <= total
    ensures k + 1 < |blocks| ==> blocks[k].end <= blocks[k + 1].start
    ensures k > 0 ==> blocks[k - 1].end <= blocks[k].start
    decreases k
  {
    if k > 0 {
      SplitInOrder(blocks[1..], k - 1, blocks[0].end, total);
    } else if k + 1 < |blocks| {
      assert InOrder(blocks[1..], blocks[0].end, total);
    }
  }

  method ResolveCumulativeMdConflict(content: string) returns (r: Result<string, ConflictKind>)
    ensures r == Resolve(content)
  {
    hide FindBlocks, TerminateAll, MergeRows, IsTabular, SplitLines, Weave, Flatten, FirstRefusal, InOrder;
    var lines := SplitLines(content);
    var found := FindConflictBlocks(lines);
    if found.Err? {
      return Err(found.error);
    }
    var blocks := found.value;
    BlocksInOrder(lines, 0);
    WeaveEnds(lines, 0);
    NothingToRefuse(|lines|);
    if blocks == [] {
      assert lines[0..] == lines;
      SplitLinesShape(content);
      return Ok(content);
    }
    var output: string, cursor: nat, k: nat := "", 0, 0;
    assert blocks[0..] == blocks;
    while k < |blocks|
      invariant k <= |blocks| && cursor <= |lines| && InOrder(blocks[k..], cursor, |lines|)
      invariant FirstRefusal(blocks, |lines|) == FirstRefusal(blocks[k..], |lines|)
      invariant Flatten(Weave(lines, blocks, 0, MergedLines)) ==
                output + Flatten(Weave(lines, blocks[k..], cursor, MergedLines))
    {
      var block := blocks[k];
      assert blocks[k..][1..] == blocks[k + 1..];
      FirstBlock(blocks[k..], cursor, |lines|);
      if block.start < PREAMBLE_GUARD_LINES || block.end + FOOTER_GUARD_LINES >= |lines| {
        return Err(InProtectedZone);
      }
      if !IsPureAddition(block) {
        return Err(ContentMixed);
      }
      if !IsTabular(block) {
        return Err(ContentMixed);
      }
      var merged := UnionMergeSorted(block.ours, block.theirs);
      WeaveStep(lines, blocks[k..], cursor, output, merged);
      output := output + Flatten(lines[cursor..block.start]) + merged;
      cursor := block.end;
      k := k + 1;
    }
    assert blocks[k..] == [];
    WeaveEnds(lines, cursor);
    return Ok(output + Flatten(lines[cursor..]));
  }

  lemma WeaveEnds(lines: seq<string>, from: nat)
    requires from <= |lines|
    ensures InOrder([], from, |lines|) && Weave(lines, [], from, MergedLines) == lines[from..]
  {
  }

  lemma FirstBlock(blocks: seq<Block>, from: nat, total: nat)
    requires blocks != [] && InOrder(blocks, from, total)
    ensures from <= blocks[0].start < blocks[0].end <= total && InOrder(blocks[1..], blocks[0].end, total)
    ensures FirstRefusal(blocks, total)
         == if Verdict(blocks[0], total).Some? then Verdict(blocks[0], total) else FirstRefusal(blocks[1..], total)
  {
  }

  lemma WeaveStep(lines: seq<string>, blocks: seq<Block>, from: nat, output: string, merged: string)
    requires blocks != [] && InOrder(blocks, from, |lines|) && merged == Flatten(MergedLines(blocks[0]))
    ensures output + Flatten(Weave(lines, blocks, from, MergedLines)) ==
            output + Flatten(lines[from..blocks[0].start]) + merged
            + Flatten(Weave(lines, blocks[1..], blocks[0].end, MergedLines))
  {
    hide MergedLines;
    var a, b := lines[from..blocks[0].start], MergedLines(blocks[0]);
    var c := Weave(lines, blocks[1..], blocks[0].end, MergedLines);
    FlattenAppend(a + b, c);
    FlattenAppend(a, b);
  }

  // ---- the parser finds exactly the well-marked blocks ----------------------------------

  /** A block as a reader sees it: three markers in order, both sides free of marker lines that would end them. */
  ghost predicate WellMarked(lines: seq<string>, b: Block) {
    var sep := b.start + 1 + |b.ours|;
    && sep < b.end - 1 < |lines|
    && b.ours == lines[b.start + 1..sep] && b.theirs == lines[sep + 1..b.end - 1]
    && IsOpen(lines[b.start]) && IsSeparator(lines[sep]) && IsClose(lines[b.end - 1])
    && (forall i :: b.start < i < b.end ==> !IsOpen(lines[i]))
    && (forall i :: b.start < i < sep ==> !IsSeparator(lines[i]) && !IsClose(lines[i]))
    && (forall i :: sep <= i < b.end - 1 && IsClose(lines[i]) ==> i == sep)
  }

  ghost predicate NoOpening(lines: seq<string>, from: nat, to: nat) {
    forall i :: from <= i < to && i < |lines| ==> !IsOpen(lines[i])
  }

  /** The blocks are all there is: well marked, in order, and no opening marker outside them. */
  ghost predicate Parsed(lines: seq<string>, blocks: seq<Block>, from: nat)
    decreases |blocks|
  {
    if blocks == [] then from <= |lines| && NoOpening(lines, from, |lines|)
    else
      && from <= blocks[0].start && NoOpening(lines, from, blocks[0].start)
      && WellMarked(lines, blocks[0]) && Parsed(lines, blocks[1..], blocks[0].end)
  }

  lemma {:induction false} FindCloseSound(lines: seq<string>, start: nat, i: nat, sep: Option<nat>)
    requires start < i <= |lines| && NoOpening(lines, start + 1, i)
    requires sep.Some? ==> start < sep.value < i && IsSeparator(lines[sep.value])
    requires var end := if sep.Some? then sep.value else i;
      forall j :: start < j < end ==> !IsSeparator(lines[j]) && !IsClose(lines[j])
    requires sep.Some? ==> forall j :: sep.value < j < i ==> !IsClose(lines[j])
    requires FindClose(lines, i, sep).Ok? && IsOpen(lines[start])
    ensures var (s, c) := FindClose(lines, i, sep).value; WellMarked(lines, BlockAt(lines, start, s, c))
    decreases |lines| - i
  {
    hide IsOpen, IsSeparator, IsClose;
    if sep.None? && IsSeparator(lines[i]) {
      FindCloseSound(lines, start, i + 1, Some(i));
    } else if !IsClose(lines[i]) {
      FindCloseSound(lines, start, i + 1, sep);
    }
  }

  lemma {:induction false} FindCloseComplete(lines: seq<string>, b: Block, i: nat)
    requires WellMarked(lines, b) && b.start < i < b.end
    ensures var sep := b.start + 1 + |b.ours|;
      FindClose(lines, i, if i <= sep then None else Some(sep)) == Ok((sep, b.end - 1))
    decreases b.end - i
  {
    hide IsOpen, IsSeparator, IsClose;
    if i < b.end - 1 {
      FindCloseComplete(lines, b, i + 1);
    }
  }

  lemma {:induction false} FindBlocksSound(lines: seq<string>, i: nat)
    requires i <= |lines| && FindBlocks(lines, i).Ok?
    ensures Parsed(lines, FindBlocks(lines, i).value, i)
    decreases |lines| - i
  {
    hide IsOpen, IsSeparator, IsClose, WellMarked;
    if i < |lines| {
      if !IsOpen(lines[i]) {
        FindBlocksSound(lines, i + 1);
      } else {
        var (sep, close) := FindClose(lines, i + 1, None).value;
        FindCloseSound(lines, i, i + 1, None);
        FindBlocksSound(lines, close + 1);
        assert FindBlocks(lines, i).value[1..] == FindBlocks(lines, close + 1).value;
      }
    }
  }

  lemma {:induction false} FindBlocksComplete(lines: seq<string>, blocks: seq<Block>, i: nat)
    requires i <= |lines| && Parsed(lines, blocks, i)
    ensures FindBlocks(lines, i) == Ok(blocks)
    decreases |lines| - i
  {
    hide IsOpen, IsSeparator, IsClose, WellMarked, FindClose, FindBlocks;
    if blocks != [] {
      MarkedFits(lines, blocks[0]);
    }
    if blocks != [] && blocks[0].start == i {
      MarkedBlockFound(lines, blocks[0]);
      FindBlocksComplete(lines, blocks[1..], blocks[0].end);
      assert blocks == [blocks[0]] + blocks[1..];
    } else if i < |lines| {
      FindBlocksComplete(lines, blocks, i + 1);
      PlainLineSkipped(lines, i);
    } else {
      NoLineLeft(lines);
    }
  }

  lemma MarkedFits(lines: seq<string>, b: Block)
    requires WellMarked(lines, b)
    ensures b.start < b.end <= |lines|
  {
  }

  lemma NoLineLeft(lines: seq<string>)
    ensures FindBlocks(lines, |lines|) == Ok([])
  {
  }

  lemma PlainLineSkipped(lines: seq<string>, i: nat)
    requires i < |lines| && !IsOpen(lines[i])
    ensures FindBlocks(lines, i) == FindBlocks(lines, i + 1)
  {
  }

  lemma MarkedBlockFound(lines: seq<string>, b: Block)
    requires WellMarked(lines, b)
    ensures b.end <= |lines|
    ensures FindBlocks(lines, b.end).Ok? ==> FindBlocks(lines, b.start) == Ok([b] + FindBlocks(lines, b.end).value)
  {
    hide IsOpen, IsSeparator, IsClose, FindClose, WellMarked, BlockAt;
    MarkedIsBlockAt(lines, b);
    FindCloseComplete(lines, b, b.start + 1);
  }

  lemma MarkedIsBlockAt(lines: seq<string>, b: Block)
    requires WellMarked(lines, b)
    ensures var sep := b.start + 1 + |b.ours|;
            b.start < sep < b.end - 1 < |lines| && IsOpen(lines[b.start]) && BlockAt(lines, b.start, sep, b.end - 1) == b
  {
    hide IsOpen, IsSeparator, IsClose;
  }

  /** Parsing succeeds with these blocks exactly when they are the well-marked blocks of the document. */
  lemma ParserIsExact(lines: seq<string>, blocks: seq<Block>)
    ensures FindBlocks(lines, 0) == Ok(blocks) <==> Parsed(lines, blocks, 0)
  {
    hide FindBlocks, Parsed;
    if FindBlocks(lines, 0) == Ok(blocks) {
      FindBlocksSound(lines, 0);
    }
    if Parsed(lines, blocks, 0) {
      FindBlocksComplete(lines, blocks, 0);
    }
  }

  /** The block's own lines, markers included, put together from its parts. */
  function Marked(lines: seq<string>, b: Block): seq<string> {
    var sep := b.start + 1 + |b.ours|;
    if sep < b.end - 1 < |lines|
    then [lines[b.start]] + b.ours + [lines[sep]] + b.theirs + [lines[b.end - 1]]
    else []
  }

  lemma {:induction false} ParsedInOrder(lines: seq<string>, blocks: seq<Block>, from: nat)
    requires Parsed(lines, blocks, from)
    ensures InOrder(blocks, from, |lines|)
    decreases |blocks|
  {
    if blocks != [] {
      ParsedInOrder(lines, blocks[1..], blocks[0].end);
    }
  }

  lemma {:induction false} BlocksReassemble(lines: seq<string>, blocks: seq<Block>, from: nat)
    requires Parsed(lines, blocks, from) && InOrder(blocks, from, |lines|)
    ensures Weave(lines, blocks, from, b => Marked(lines, b)) == lines[from..]
    decreases |blocks|
  {
    hide IsOpen, IsSeparator, IsClose, Marked, WellMarked;
    if blocks != [] {
      var b := blocks[0];
      MarkedIsWhole(lines, b);
      BlocksReassemble(lines, blocks[1..], b.end);
      assert lines[from..] == lines[from..b.start] + lines[b.start..b.end] + lines[b.end..];
    }
  }

  lemma MarkedIsWhole(lines: seq<string>, b: Block)
    requires WellMarked(lines, b)
    ensures b.start < b.end <= |lines| && Marked(lines, b) == lines[b.start..b.end]
  {
    hide IsOpen, IsSeparator, IsClose;
  }

  // ---- a successful resolve -------------------------------------------------------------

  ghost predicate MarkerFree(lines: seq<string>) {
    forall i :: 0 <= i < |lines| ==> !IsOpen(lines[i])
  }

  lemma MarkerFreeAppend(a: seq<string>, b: seq<string>)
    requires MarkerFree(a) && MarkerFree(b)
    ensures MarkerFree(a + b)
  {
  }

  lemma OpeningIsPrefix(line: string)
    ensures IsOpen(line) <==> StartsWith(line, "<<<<<<<")
  {
    TrimEolKeepsMarker(line, "<<<<<<<");
  }

  lemma RowComesFromBlock(lines: seq<string>, b: Block, row: string) returns (j: nat)
    requires WellMarked(lines, b) && (row in b.ours || row in b.theirs)
    ensures b.start < j < b.end - 1 && lines[j] == row
  {
    hide IsOpen, IsSeparator, IsClose;
    var sep := b.start + 1 + |b.ours|;
    if row in b.ours {
      var k :| 0 <= k < |b.ours| && b.ours[k] == row;
      j := b.start + 1 + k;
    } else {
      var k :| 0 <= k < |b.theirs| && b.theirs[k] == row;
      j := sep + 1 + k;
    }
  }

  lemma MergedLinesAreClean(lines: seq<string>, b: Block)
    requires WellMarked(lines, b) && AreLines(lines) && b.end < |lines|
    ensures MarkerFree(MergedLines(b)) && AllTerminated(MergedLines(b))
  {
    hide MergeRows, IsOpen, IsSeparator, IsClose, IsBlank;
    var rows := MergeRows(b.ours, b.theirs);
    MergeIsSortedUnion(b.ours, b.theirs);
    forall i | 0 <= i < |rows| ensures Terminated(MergedLines(b)[i]) && !IsOpen(MergedLines(b)[i]) {
      assert rows[i] in rows;
      var j := RowComesFromBlock(lines, b, rows[i]);
      assert Terminated(lines[j]);
      assert EndsWith(rows[i], "\n");
    }
  }

  ghost predicate AllTerminated(lines: seq<string>) {
    forall i :: 0 <= i < |lines| ==> Terminated(lines[i])
  }

  lemma TerminatedThenLines(a: seq<string>, b: seq<string>)
    requires AllTerminated(a) && AreLines(b)
    ensures AreLines(a + b)
  {
  }

  lemma {:induction false} WovenIsClean(lines: seq<string>, blocks: seq<Block>, from: nat)
    requires AreLines(lines) && Parsed(lines, blocks, from) && InOrder(blocks, from, |lines|)
    requires FirstRefusal(blocks, |lines|).None?
    ensures MarkerFree(Weave(lines, blocks, from, MergedLines)) && AreLines(Weave(lines, blocks, from, MergedLines))
    decreases |blocks|
  {
    hide IsOpen, MergedLines, WellMarked, IsTabular, Terminated, IsLine;
    if blocks != [] {
      var b := blocks[0];
      WovenIsClean(lines, blocks[1..], b.end);
      MergedLinesAreClean(lines, b);
      var before, rest := lines[from..b.start], Weave(lines, blocks[1..], b.end, MergedLines);
      assert MarkerFree(before) && AllTerminated(before);
      assert AllTerminated(before + MergedLines(b));
      MarkerFreeAppend(before, MergedLines(b));
      MarkerFreeAppend(before + MergedLines(b), rest);
      TerminatedThenLines(before + MergedLines(b), rest);
    }
  }

  /** The guards put every block past line 100 and leave 51 lines after it. */
  lemma {:induction false} WovenKeepsEnds(lines: seq<string>, blocks: seq<Block>, from: nat)
    requires InOrder(blocks, from, |lines|) && FirstRefusal(blocks, |lines|).None? && from + 51 <= |lines|
    ensures var woven := Weave(lines, blocks, from, MergedLines);
      && |woven| >= 51 && woven[|woven| - 51..] == lines[|lines| - 51..]
      && (from <= 100 <= |lines| ==> |woven| >= 100 - from && woven[..100 - from] == lines[from..100])
    decreases |blocks|
  {
    hide MergedLines, IsTabular;
    if blocks != [] {
      var b := blocks[0];
      assert b.end + 51 <= |lines| && b.start >= 100;
      WovenKeepsEnds(lines, blocks[1..], b.end);
      var head, rest := lines[from..b.start] + MergedLines(b), Weave(lines, blocks[1..], b.end, MergedLines);
      assert (head + rest)[|head + rest| - 51..] == rest[|rest| - 51..];
    }
  }

  /**
   * A successful resolve leaves no conflict opening, is a fixed point, and keeps the guarded
   * first 100 and last 51 lines of a document that had a block; one without blocks is untouched.
   */
  lemma ResolvedDocument(content: string, out: string)
    requires Resolve(content) == Ok(out)
    ensures var before, after := SplitLines(content), SplitLines(out);
      && Resolve(out) == Ok(out)
      && (forall i :: 0 <= i < |after| ==> !StartsWith(after[i], "<<<<<<<"))
      && (out != content ==> |before| >= 100 && |after| >= 100 && after[..100] == before[..100])
      && (out != content ==> |before| >= 51 && after[|after| - 51..] == before[|before| - 51..])
  {
    hide FindBlocks, MergedLines, IsOpen, SplitLines, FirstRefusal;
    var before := SplitLines(content);
    var blocks := FindBlocks(before, 0).value;
    SplitLinesShape(content);
    FindBlocksSound(before, 0);
    BlocksInOrder(before, 0);
    WovenIsClean(before, blocks, 0);
    var woven := Weave(before, blocks, 0, MergedLines);
    SplitFlatten(woven);
    FindBlocksComplete(woven, [], 0);
    assert Weave(woven, [], 0, MergedLines) == woven;
    NothingToRefuse(|woven|);
    forall i | 0 <= i < |woven| ensures !StartsWith(woven[i], "<<<<<<<") {
      OpeningIsPrefix(woven[i]);
    }
    if blocks == [] {
      assert woven == before;
    } else {
      BlocksLeaveRoom(before, blocks);
      WovenKeepsEnds(before, blocks, 0);
      assert before[0..100] == before[..100];
    }
  }

  lemma BlocksLeaveRoom(lines: seq<string>, blocks: seq<Block>)
    requires blocks != [] && InOrder(blocks, 0, |lines|) && FirstRefusal(blocks, |lines|).None?
    ensures |lines| >= 151
  {
  }

  lemma NothingToRefuse(total: nat)
    ensures FirstRefusal([], total).None?
  {
  }

  /** What is kept and what is replaced: the same weave, with merged rows in place of marked blocks. */
  lemma ResolveReplacesOnlyBlocks(content: string, out: string)
    requires Resolve(content) == Ok(out)
    ensures var lines := SplitLines(content);
      && FindBlocks(lines, 0).Ok? && InOrder(FindBlocks(lines, 0).value, 0, |lines|)
      && Weave(lines, FindBlocks(lines, 0).value, 0, b => Marked(lines, b)) == lines
      && Weave(lines, FindBlocks(lines, 0).value, 0, MergedLines) == SplitLines(out)
  {
    hide FindBlocks, MergedLines, SplitLines, Marked, FirstRefusal;
    var lines := SplitLines(content);
    var blocks := FindBlocks(lines, 0).value;
    SplitLinesShape(content);
    FindBlocksSound(lines, 0);
    BlocksInOrder(lines, 0);
    BlocksReassemble(lines, blocks, 0);
    WovenIsClean(lines, blocks, 0);
    SplitFlatten(Weave(lines, blocks, 0, MergedLines));
    assert lines[0..] == lines;
  }
  // ---- cascades through the written document --------------------------------------------

  /** A merge of newline-terminated rows is printed as it is, and read back as it is. */
  lemma PrintedMergeSplitsBack(ours: seq<string>, theirs: seq<string>)
    requires AllTerminated(ours) && AllTerminated(theirs)
    ensures var rows := MergeRows(ours, theirs);
            AllTerminated(rows) && TerminateAll(rows) == rows && SplitLines(Flatten(TerminateAll(rows))) == rows
  {
    hide MergeRows, SplitLines, Flatten;
    var rows := MergeRows(ours, theirs);
    MergeIsSortedUnion(ours, theirs);
    forall i | 0 <= i < |rows|
      ensures Terminated(rows[i]) && Terminate(rows[i]) == rows[i]
    {
      assert rows[i] in rows;
    }
    assert TerminateAll(rows) == rows;
    SplitFlatten(rows);
  }

  /** One branch after the other, the table written out after each merge and split into lines again for the next. */
  function WrittenCascade(text: string, branches: seq<seq<string>>): string
    decreases |branches|
  {
    if branches == [] then text
    else WrittenCascade(Flatten(TerminateAll(MergeRows(SplitLines(text), branches[0]))), branches[1..])
  }

  lemma {:induction false} WrittenCascadeIsCascade(table: seq<string>, branches: seq<seq<string>>)
    requires AllTerminated(table) && forall b :: b in branches ==> AllTerminated(b)
    ensures WrittenCascade(Flatten(table), branches) == Flatten(Cascade(table, branches))
    decreases |branches|
  {
    hide SplitLines, Flatten, MergeRows, TerminateAll, AllTerminated;
    if branches != [] {
      assert branches[0] in branches;
      assert SplitLines(Flatten(table)) == table by { TerminatedLinesSplit(table); }
      PrintedMergeSplitsBack(table, branches[0]);
      WrittenCascadeIsCascade(MergeRows(table, branches[0]), branches[1..]);
    }
  }

  lemma TerminatedLinesSplit(rows: seq<string>)
    requires AllTerminated(rows)
    ensures SplitLines(Flatten(rows)) == rows
  {
    SplitFlatten(rows);
  }

  /** So the order of cascading does not show in the document either. */
  lemma WrittenCascadeOrderIrrelevant(a: seq<seq<string>>, b: seq<seq<string>>)
    requires (forall x :: x in a ==> AllTerminated(x)) && (forall x :: x in a <==> x in b)
    ensures WrittenCascade("", a) == WrittenCascade("", b)
  {
    hide WrittenCascade, Cascade;
    CascadeOrderIrrelevant(a, b);
    WrittenCascadeIsCascade([], a);
    WrittenCascadeIsCascade([], b);
    assert Flatten<char>([]) == "";
  }

  // ---- which documents are resolved -----------------------------------------------------

  /** What every line of a block to be merged has to look like. */
  ghost predicate FitsTable(line: string) {
    AllWhitespace(line) || LooksLikeRow(line) || LooksLikeComment(line)
  }

  /** Not in the first 100 lines of the document, and more than 50 lines before its end. */
  predicate ClearOfGuards(b: Block, total: nat) {
    b.start >= 100 && b.end + 50 < total
  }

  ghost predicate AdditionsOnly(b: Block) {
    && |b.ours| > 0 && |b.theirs| > 0
    && (forall l :: l in b.ours ==> FitsTable(l)) && (forall l :: l in b.theirs ==> FitsTable(l))
  }

  lemma TabularOnText(b: Block)
    ensures IsTabular(b) <==> (forall l :: l in b.ours ==> FitsTable(l)) && (forall l :: l in b.theirs ==> FitsTable(l))
  {
    hide IsTableRow, IsBranchComment, LooksLikeRow, LooksLikeComment, Trim, AllWhitespace;
    forall l: string ensures FitsTable(l) <==> IsTableRow(l) || IsBranchComment(l) || IsBlank(l) {
      RowOnText(l);
      CommentOnText(l);
      TrimEmpty(l);
      assert AllWhitespace(l) <==> Trim(l) == "" by { BlankOnText(l); }
    }
    var all := b.ours + b.theirs;
    assert forall l :: l in all <==> l in b.ours || l in b.theirs;
    if IsTabular(b) {
      forall l | l in all ensures FitsTable(l) {
        var i :| 0 <= i < |all| && all[i] == l;
      }
    }
  }

  lemma BlankOnText(line: string)
    ensures AllWhitespace(line) <==> Trim(line) == ""
  {
    TrimEmpty(line);
  }

  lemma VerdictOnText(b: Block, total: nat)
    ensures Verdict(b, total) == if !ClearOfGuards(b, total) then Some(InProtectedZone)
                                 else if !AdditionsOnly(b) then Some(ContentMixed) else None
  {
    hide IsTabular;
    TabularOnText(b);
  }

  lemma {:induction false} FirstRefusalOnText(blocks: seq<Block>, total: nat)
    ensures FirstRefusal(blocks, total).None? <==>
            forall k :: 0 <= k < |blocks| ==> ClearOfGuards(blocks[k], total) && AdditionsOnly(blocks[k])
    ensures forall k :: FirstBad(blocks, total, k) ==>
              FirstRefusal(blocks, total) == Some(if ClearOfGuards(blocks[k], total) then ContentMixed else InProtectedZone)
    ensures FirstRefusal(blocks, total) != Some(MalformedMarkers)
  {
    hide AdditionsOnly, Verdict, ClearOfGuards;
    if blocks != [] {
      var rest := blocks[1..];
      VerdictOnText(blocks[0], total);
      FirstRefusalOnText(rest, total);
      assert forall j :: 1 <= j < |blocks| ==> blocks[j] == rest[j - 1];
      forall k | FirstBad(blocks, total, k)
        ensures FirstRefusal(blocks, total) == Some(if ClearOfGuards(blocks[k], total) then ContentMixed else InProtectedZone)
      {
        if k > 0 {
          assert FirstBad(rest, total, k - 1);
        }
      }
      if FirstRefusal(blocks, total).None? {
        forall k | 0 <= k < |blocks| ensures ClearOfGuards(blocks[k], total) && AdditionsOnly(blocks[k]) {
          assert k > 0 ==> blocks[k] == rest[k - 1];
        }
      }
    }
  }

  /** Block k cannot be merged, and every one before it can. */
  ghost predicate FirstBad(blocks: seq<Block>, total: nat, k: int) {
    && 0 <= k < |blocks| && !(ClearOfGuards(blocks[k], total) && AdditionsOnly(blocks[k]))
    && forall j :: 0 <= j < k ==> ClearOfGuards(blocks[j], total) && AdditionsOnly(blocks[j])
  }

  lemma {:induction false} OnlyMalformed(lines: seq<string>, i: nat)
    requires i <= |lines| && FindBlocks(lines, i).Err?
    ensures FindBlocks(lines, i) == Err(MalformedMarkers)
    decreases |lines| - i
  {
    hide IsOpen, IsSeparator, IsClose;
    if i < |lines| && !IsOpen(lines[i]) {
      OnlyMalformed(lines, i + 1);
    } else if i < |lines| && FindClose(lines, i + 1, None).Ok? {
      OnlyMalformed(lines, FindClose(lines, i + 1, None).value.1 + 1);
    }
  }

  /**
   * A document is resolved exactly when its markers parse and every block is clear of the guards and adds rows,
   * comments or blank lines on both sides; otherwise the first block that is not decides the error.
   */
  lemma ResolvedExactly(content: string, blocks: seq<Block>)
    ensures var lines := SplitLines(content);
            Parsed(lines, blocks, 0) ==>
              && (Resolve(content).Ok? <==>
                    forall k :: 0 <= k < |blocks| ==> ClearOfGuards(blocks[k], |lines|) && AdditionsOnly(blocks[k]))
              && (forall k :: FirstBad(blocks, |lines|, k) ==>
                    Resolve(content) == Err(if ClearOfGuards(blocks[k], |lines|) then ContentMixed else InProtectedZone))
              && (blocks == [] ==> Resolve(content) == Ok(content))
    ensures (forall bs :: !Parsed(SplitLines(content), bs, 0)) <==> Resolve(content) == Err(MalformedMarkers)
  {
    hide FindBlocks, Parsed, SplitLines, AdditionsOnly, FirstRefusal, ClearOfGuards;
    var lines := SplitLines(content);
    BlocksInOrder(lines, 0);
    forall bs ensures FindBlocks(lines, 0) == Ok(bs) <==> Parsed(lines, bs, 0) {
      ParserIsExact(lines, bs);
    }
    if FindBlocks(lines, 0).Err? {
      OnlyMalformed(lines, 0);
    } else {
      var found := FindBlocks(lines, 0).value;
      FirstRefusalOnText(found, |lines|);
      assert Parsed(lines, found, 0);
      if found == [] {
        SplitLinesShape(content);
        WeaveEnds(lines, 0);
        assert lines[0..] == lines;
      }
    }
  }
}

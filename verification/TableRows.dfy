/**
 * Union-merge of status-table rows: a set ordered by (branch name, line text). The point of
 * the canonical order is that it does not matter which branch is merged first.
 */
module TableRows {
  import opened Text

  // ---- lines ----------------------------------------------------------------------------

  predicate IsTableRow(line: string) {
    var t := TrimStart(line);
    StartsWith(t, "| ") || StartsWith(t, "|---") || StartsWith(t, "|-")
  }

  predicate IsBranchComment(line: string) {
    var t := Trim(line);
    StartsWith(t, "<!--") && EndsWith(t, "-->")
  }

  predicate IsBlank(line: string): (r: bool)
    ensures r <==> forall k :: 0 <= k < |line| ==> IsWhitespace(line[k])
  {
    TrimEmpty(line);
    Trim(line) == []
  }

  /** A table row as a reader sees it: "| " or "|-" behind the indentation. */
  ghost predicate LooksLikeRow(line: string) {
    exists k :: 0 <= k <= |line| && (forall i :: 0 <= i < k ==> IsWhitespace(line[i]))
                && (StartsWith(line[k..], "| ") || StartsWith(line[k..], "|-"))
  }

  /** An HTML comment, but for whitespace around it. */
  ghost predicate LooksLikeComment(line: string) {
    exists i, j :: TrimsTo(line, i, j) && StartsWith(line[i..j], "<!--") && EndsWith(line[i..j], "-->")
  }

  ghost predicate AllWhitespace(line: string) {
    forall k :: 0 <= k < |line| ==> IsWhitespace(line[k])
  }

  lemma RowOnText(line: string)
    ensures IsTableRow(line) <==> LooksLikeRow(line)
  {
    hide TrimStart;
    var k := TrimStartDrops(line);
    if m :| 0 <= m <= |line| && (forall i :: 0 <= i < m ==> IsWhitespace(line[i]))
            && (StartsWith(line[m..], "| ") || StartsWith(line[m..], "|-")) {
      assert line[m] == line[m..][0] == '|';
      assert k == m;
    }
    assert StartsWith(line[k..], "|---") ==> line[k..][..2] == "|-";
  }

  lemma CommentOnText(line: string)
    ensures IsBranchComment(line) <==> LooksLikeComment(line)
  {
    hide Trim;
    var i, j := TrimDrops(line);
    if a, b :| TrimsTo(line, a, b) && StartsWith(line[a..b], "<!--") && EndsWith(line[a..b], "-->") {
      TrimIs(line, a, b);
    }
  }

  // ---- the branch name a row is filed under ---------------------------------------------

  function StripPrefixes(s: string, prefix: string): string
    requires prefix != []
  {
    if StartsWith(s, prefix) then StripPrefixes(s[|prefix|..], prefix) else s
  }

  function StripSuffixes(s: string, suffix: string): string
    requires suffix != []
  {
    if EndsWith(s, suffix) then StripSuffixes(s[..|s| - |suffix|], suffix) else s
  }

  function CommentName(t: string): string {
    var inner := Trim(StripSuffixes(StripPrefixes(t, "<!--"), "-->"));
    Trim(Split(inner, ':')[0])
  }

  /** Everything that cannot be part of a branch token becomes a space. */
  function BlankOut(t: string): string {
    seq(|t|, i requires 0 <= i < |t| =>
      if IsAlphanumeric(t[i]) || t[i] == '-' || t[i] == '_' then t[i] else ' ')
  }

  function FirstPhaseToken(tokens: seq<string>): string {
    if tokens == [] then ""
    else if Contains(tokens[0], "phase2") || Contains(tokens[0], "phase-2") then tokens[0]
    else FirstPhaseToken(tokens[1..])
  }

  predicate LooksLikeBranch(cell: string) {
    |cell| >= 4 && IsLower(cell[0])
    && forall i :: 0 <= i < |cell| ==> IsLower(cell[i]) || IsDigit(cell[i]) || cell[i] == '-' || cell[i] == '_'
  }

  function FirstBranchCell(cells: seq<string>): string {
    if cells == [] then ""
    else if LooksLikeBranch(Trim(cells[0])) then Trim(cells[0])
    else FirstBranchCell(cells[1..])
  }

  /** `extract_branch_name`, the empty string standing for no name. */
  function BranchName(line: string): string {
    var t := Trim(line);
    if StartsWith(t, "<!--") && CommentName(t) != [] then CommentName(t)
    else
      var token := FirstPhaseToken(Split(BlankOut(t), ' '));
      if token != [] then token else FirstBranchCell(Split(t, '|'))
  }

  // ---- the key, on text -----------------------------------------------------------------

  predicate IsTokenChar(c: char) {
    'a' <= c <= 'z' || 'A' <= c <= 'Z' || '0' <= c <= '9' || c == '-' || c == '_'
  }

  ghost predicate NamesPhase(s: string) {
    exists k :: OccursAt(s, "phase2", k) || OccursAt(s, "phase-2", k)
  }

  lemma BlankOutAppend(a: string, b: string)
    ensures BlankOut(a + b) == BlankOut(a) + BlankOut(b)
  {
  }

  lemma BlankOutKeepsToken(t: string)
    requires forall i :: 0 <= i < |t| ==> IsTokenChar(t[i])
    ensures BlankOut(t) == t && ' ' !in t
  {
  }

  lemma BlankOutKeepsPart(t: string, part: string, k: int)
    requires ' ' !in part && (forall i :: 0 <= i < |part| ==> IsTokenChar(part[i]))
    ensures OccursAt(BlankOut(t), part, k) <==> OccursAt(t, part, k)
  {
    var b := BlankOut(t);
    if OccursAt(b, part, k) {
      forall i | 0 <= i < |part| ensures t[k + i] == part[i] {
        assert b[k + i] == part[i] && part[i] in part;
      }
      assert t[k..k + |part|] == part;
    }
    if OccursAt(t, part, k) {
      forall i | 0 <= i < |part| ensures b[k + i] == part[i] {
        assert t[k + i] == part[i];
      }
      assert b[k..k + |part|] == part;
    }
  }

  lemma BlankOutKeepsPhase(t: string)
    ensures NamesPhase(BlankOut(t)) <==> NamesPhase(t)
  {
    hide BlankOut;
    forall k
      ensures OccursAt(BlankOut(t), "phase2", k) <==> OccursAt(t, "phase2", k)
      ensures OccursAt(BlankOut(t), "phase-2", k) <==> OccursAt(t, "phase-2", k)
    {
      BlankOutKeepsPart(t, "phase2", k);
      BlankOutKeepsPart(t, "phase-2", k);
    }
  }

  lemma PhaseOnText(s: string)
    ensures Contains(s, "phase2") || Contains(s, "phase-2") <==> NamesPhase(s)
  {
    ContainsOnText(s, "phase2");
    ContainsOnText(s, "phase-2");
  }

  lemma PhaseInside(a: string, b: string, c: string)
    requires NamesPhase(b)
    ensures NamesPhase(a + b + c)
  {
    var all := a + b + c;
    var k :| OccursAt(b, "phase2", k) || OccursAt(b, "phase-2", k);
    if OccursAt(b, "phase2", k) {
      assert all[|a| + k..|a| + k + 6] == b[k..k + 6];
      assert OccursAt(all, "phase2", |a| + k);
    } else {
      assert all[|a| + k..|a| + k + 7] == b[k..k + 7];
      assert OccursAt(all, "phase-2", |a| + k);
    }
  }

  /** A piece of a split text is somewhere in it. */
  lemma {:induction false} PieceInside(s: string, sep: char, p: string) returns (a: string, c: string)
    requires p in Split(s, sep)
    ensures s == a + p + c
  {
    if s == "" {
      a, c := "", "";
    } else {
      var parts := Split(s[1..], sep);
      assert s == [s[0]] + s[1..];
      if p in parts[1..] || (s[0] == sep && p in parts) {
        assert p in parts;
        var a', c' := PieceInside(s[1..], sep, p);
        a, c := [s[0]] + a', c';
      } else if s[0] == sep {
        a, c := "", s;
      } else {
        assert p == [s[0]] + parts[0];
        FirstPieceLeads(s[1..], sep);
        a, c := "", s[|p|..];
      }
    }
  }

  lemma {:induction false} FirstPieceLeads(s: string, sep: char)
    ensures Split(s, sep)[0] <= s
  {
    if s != "" {
      FirstPieceLeads(s[1..], sep);
    }
  }

  lemma {:induction false} NoPhaseToken(tokens: seq<string>, rest: seq<string>)
    requires forall t :: t in tokens ==> !NamesPhase(t)
    ensures FirstPhaseToken(tokens + rest) == FirstPhaseToken(rest)
  {
    hide NamesPhase, Contains;
    if tokens == [] {
      assert tokens + rest == rest;
    } else {
      PhaseOnText(tokens[0]);
      assert tokens[0] in tokens && (tokens + rest)[1..] == tokens[1..] + rest;
      NoPhaseToken(tokens[1..], rest);
    }
  }

  lemma TokensWithoutPhase(t: string)
    requires !NamesPhase(t)
    ensures forall p :: p in Split(BlankOut(t), ' ') ==> !NamesPhase(p)
  {
    hide BlankOut, Split, NamesPhase;
    BlankOutKeepsPhase(t);
    forall p | p in Split(BlankOut(t), ' ') ensures !NamesPhase(p) {
      if NamesPhase(p) {
        var a, c := PieceInside(BlankOut(t), ' ', p);
        PhaseInside(a, p, c);
      }
    }
  }

  /** A whole token between characters that cannot be in one. */
  predicate IsWholeToken(before: string, token: string, after: string) {
    && token != "" && (forall i :: 0 <= i < |token| ==> IsTokenChar(token[i]))
    && (before != "" ==> !IsTokenChar(before[|before| - 1])) && (after != "" ==> !IsTokenChar(after[0]))
  }

  /** The first whole token that names a phase is the key of a row that is no comment. */
  lemma PhaseKey(line: string, before: string, token: string, after: string)
    requires Trim(line) == before + token + after && !StartsWith(Trim(line), "<!--")
    requires IsWholeToken(before, token, after) && NamesPhase(token) && !NamesPhase(before)
    ensures BranchName(line) == token
  {
    hide Trim, BlankOut, NamesPhase, Contains, Split;
    var t := Trim(line);
    BlankOutAppend(before + token, after);
    BlankOutAppend(before, token);
    BlankOutKeepsToken(token);
    NoSeparatorNoSplit(token, ' ');
    PhaseOnText(token);
    TokensWithoutPhase(before);
    var front, back := BlankOut(before), BlankOut(after);
    TailTokens(token, after);
    if before == "" {
      BlankOutNothing();
      assert front + token + back == token + back;
    } else {
      BlankOutEnds(before);
      var init := front[..|front| - 1];
      assert front + token + back == init + [' '] + (token + back);
      SplitAt(init, ' ', token + back);
      assert front == init + [' '] + "";
      SplitAt(init, ' ', "");
      forall p | p in Split(init, ' ') ensures !NamesPhase(p) {
        assert p in Split(front, ' ');
      }
      NoPhaseToken(Split(init, ' '), Split(token + back, ' '));
    }
  }

  lemma BlankOutNothing()
    ensures BlankOut("") == ""
  {
  }

  lemma BlankOutEnds(before: string)
    requires before != "" && !IsTokenChar(before[|before| - 1])
    ensures BlankOut(before) != "" && BlankOut(before)[|BlankOut(before)| - 1] == ' '
  {
  }

  lemma TailTokens(token: string, after: string)
    requires ' ' !in token && token != "" && (after != "" ==> !IsTokenChar(after[0])) && NamesPhase(token)
    ensures FirstPhaseToken(Split(token + BlankOut(after), ' ')) == token
  {
    hide Split, NamesPhase, Contains;
    var back := BlankOut(after);
    PhaseOnText(token);
    NoSeparatorNoSplit(token, ' ');
    if after == "" {
      assert token + back == token;
    } else {
      assert token + back == token + [' '] + back[1..];
      SplitAt(token, ' ', back[1..]);
    }
  }

  /** A cell that can pass for a branch name. */
  predicate IsBranchCell(c: string) {
    |c| >= 4 && 'a' <= c[0] <= 'z'
    && forall i :: 0 <= i < |c| ==> 'a' <= c[i] <= 'z' || '0' <= c[i] <= '9' || c[i] == '-' || c[i] == '_'
  }

  lemma {:induction false} FirstCell(cells: seq<string>, k: nat)
    requires k <= |cells| && forall i :: 0 <= i < k ==> !IsBranchCell(Trim(cells[i]))
    requires k < |cells| ==> IsBranchCell(Trim(cells[k]))
    ensures FirstBranchCell(cells) == if k < |cells| then Trim(cells[k]) else ""
    decreases k
  {
    hide Trim;
    if k > 0 {
      FirstCell(cells[1..], k - 1);
    }
  }

  /** Without a phase in it, the first cell that can pass for a branch is the key; the empty string if there is none. */
  lemma CellKey(line: string, k: nat)
    requires !StartsWith(Trim(line), "<!--") && !NamesPhase(Trim(line))
    requires var cells := Split(Trim(line), '|');
             k <= |cells| && (forall i :: 0 <= i < k ==> !IsBranchCell(Trim(cells[i])))
             && (k < |cells| ==> IsBranchCell(Trim(cells[k])))
    ensures BranchName(line) == if k < |Split(Trim(line), '|')| then Trim(Split(Trim(line), '|')[k]) else ""
  {
    hide Trim, BlankOut, NamesPhase, Split;
    var t := Trim(line);
    FirstCell(Split(t, '|'), k);
    TokensWithoutPhase(t);
    var tokens := Split(BlankOut(t), ' ');
    NoPhaseToken(tokens, []);
    assert tokens + [] == tokens;
  }

  lemma {:induction false} SuffixesLeaveHead(head: string, rest: string) returns (left: string)
    ensures StripSuffixes(head + ":" + rest, "-->") == head + ":" + left
  {
    var s := head + ":" + rest;
    left := rest;
    if EndsWith(s, "-->") {
      assert |rest| >= 3 by {
        assert s[|s| - 3] == '-' && s[|s| - 2] == '-' && s[|s| - 1] == '>' && s[|head|] == ':';
      }
      assert s[..|s| - 3] == head + ":" + rest[..|rest| - 3];
      left := SuffixesLeaveHead(head, rest[..|rest| - 3]);
    }
  }

  function Times(part: string, n: nat): string {
    if n == 0 then "" else part + Times(part, n - 1)
  }

  lemma {:induction false} AllPrefixes(n: nat, s: string)
    requires !StartsWith(s, "<!--")
    ensures StripPrefixes(Times("<!--", n) + s, "<!--") == s
  {
    if n == 0 {
      assert Times("<!--", n) + s == s;
    } else {
      AllPrefixes(n - 1, s);
      assert (Times("<!--", n) + s)[|"<!--"|..] == Times("<!--", n - 1) + s;
    }
  }

  lemma OnePrefix(s: string)
    requires !StartsWith(s, "<!--")
    ensures StripPrefixes("<!--" + s, "<!--") == s
  {
    AllPrefixes(1, s);
    assert Times("<!--", 1) == "<!--";
  }

  lemma NameBeforeColon(gap: string, name: string, rest: string)
    requires AllWhitespace(gap) && TrimsTo(name, 0, |name|) && name != "" && ':' !in name
    ensures Trim(Split(Trim(gap + name + ":" + rest), ':')[0]) == name
  {
    hide Trim, Split, IsWhitespace;
    var s := gap + name + ":" + rest;
    var i, j := TrimDrops(s);
    var n := |gap| + |name|;
    assert s[|gap|] == name[0] && s[n] == ':' && forall k :: 0 <= k < |gap| ==> s[k] == gap[k];
    assert !IsWhitespace(':') by { ColonShows(); }
    assert i == |gap| && j > n;
    var left := s[n + 1..j];
    assert s[i..j] == name + [':'] + left;
    SplitAt(name, ':', left);
    NoSeparatorNoSplit(name, ':');
    TrimIs(name, 0, |name|);
  }

  lemma ColonShows()
    ensures !IsWhitespace(':')
  {
  }

  lemma NoPrefixAcrossColon(head: string, rest: string)
    requires !StartsWith(head, "<!--")
    ensures !StartsWith(head + ":" + rest, "<!--")
  {
    var s := head + ":" + rest;
    assert s[|head|] == ':' && (|head| >= 4 ==> s[..4] == head[..4]);
  }

  /** A row comment `<!-- name: ... -->` is filed under its name. */
  lemma CommentKey(line: string, gap: string, name: string, rest: string)
    requires Trim(line) == "<!--" + (gap + name + ":" + rest) && AllWhitespace(gap)
    requires TrimsTo(name, 0, |name|) && name != "" && ':' !in name && !StartsWith(gap + name, "<!--")
    ensures BranchName(line) == name
  {
    hide Trim, Split, IsWhitespace, StripPrefixes, StripSuffixes;
    var inner := gap + name + ":" + rest;
    NoPrefixAcrossColon(gap + name, rest);
    OnePrefix(inner);
    var left := SuffixesLeaveHead(gap + name, rest);
    NameBeforeColon(gap, name, left);
  }

  lemma OneSuffix(s: string)
    requires !EndsWith(s, "-->")
    ensures StripSuffixes(s + "-->", "-->") == s
  {
    var all := s + "-->";
    assert all[..|all| - |"-->"|] == s;
    assert StripSuffixes(s, "-->") == s;
  }

  /** And so is a comment that holds nothing but the name. */
  lemma BareCommentKey(line: string, gap: string, name: string, gap': string)
    requires Trim(line) == "<!--" + (gap + name + gap' + "-->") && AllWhitespace(gap) && AllWhitespace(gap')
    requires TrimsTo(name, 0, |name|) && name != "" && ':' !in name
    requires !StartsWith(gap + name + gap' + "-->", "<!--") && !EndsWith(gap + name + gap', "-->")
    ensures BranchName(line) == name
  {
    hide Trim, Split, IsWhitespace, StripPrefixes, StripSuffixes;
    var inner := gap + name + gap';
    OnePrefix(inner + "-->");
    OneSuffix(inner);
    var n := |gap| + |name|;
    assert inner[|gap|..n] == name;
    assert TrimsTo(inner, |gap|, n) by { Surrounded(gap, name, gap'); }
    TrimIs(inner, |gap|, n);
    NoSeparatorNoSplit(name, ':');
    TrimIs(name, 0, |name|);
    assert name[0..|name|] == name;
  }

  lemma Surrounded(gap: string, name: string, gap': string)
    requires AllWhitespace(gap) && AllWhitespace(gap') && TrimsTo(name, 0, |name|) && name != ""
    ensures TrimsTo(gap + name + gap', |gap|, |gap| + |name|)
  {
    hide IsWhitespace;
    var all, n := gap + name + gap', |gap| + |name|;
    assert forall k :: 0 <= k < |gap| ==> all[k] == gap[k];
    assert forall k :: n <= k < |all| ==> all[k] == gap'[k - n];
    assert all[|gap|] == name[0] && all[n - 1] == name[|name| - 1];
  }

  // ---- the order of the set -------------------------------------------------------------

  predicate TextLess(a: string, b: string) {
    b != [] && (a == [] || a[0] < b[0] || (a[0] == b[0] && TextLess(a[1..], b[1..])))
  }

  predicate RowLess(a: string, b: string) {
    TextLess(BranchName(a), BranchName(b)) || (BranchName(a) == BranchName(b) && TextLess(a, b))
  }

  lemma {:induction false} TextOrderTotal(a: string, b: string)
    ensures a == b <==> !TextLess(a, b) && !TextLess(b, a)
    ensures !(TextLess(a, b) && TextLess(b, a))
  {
    if a != [] && b != [] {
      TextOrderTotal(a[1..], b[1..]);
      assert a == [a[0]] + a[1..] && b == [b[0]] + b[1..];
    }
  }

  lemma {:induction false} TextOrderTransitive(a: string, b: string, c: string)
    requires TextLess(a, b) && TextLess(b, c)
    ensures TextLess(a, c)
  {
    if a != [] && a[0] == b[0] == c[0] {
      TextOrderTransitive(a[1..], b[1..], c[1..]);
    }
  }

  lemma RowOrderTotal(a: string, b: string)
    ensures a == b <==> !RowLess(a, b) && !RowLess(b, a)
    ensures !(RowLess(a, b) && RowLess(b, a))
  {
    hide BranchName, TextLess;
    TextOrderTotal(BranchName(a), BranchName(b));
    TextOrderTotal(a, b);
  }

  lemma RowOrderTransitive(a: string, b: string, c: string)
    requires RowLess(a, b) && RowLess(b, c)
    ensures RowLess(a, c)
  {
    hide BranchName, TextLess;
    if TextLess(BranchName(a), BranchName(b)) && TextLess(BranchName(b), BranchName(c)) {
      TextOrderTransitive(BranchName(a), BranchName(b), BranchName(c));
    } else if BranchName(a) == BranchName(b) == BranchName(c) {
      TextOrderTransitive(a, b, c);
    }
  }

  /** Strictly increasing keys: sorted, and no row twice. */
  ghost predicate Sorted(rows: seq<string>) {
    forall i, j :: 0 <= i < j < |rows| ==> RowLess(rows[i], rows[j])
  }

  ghost function Members(rows: seq<string>): set<string> {
    set r | r in rows
  }

  lemma {:induction false} SortedRowsUnique(a: seq<string>, b: seq<string>)
    requires Sorted(a) && Sorted(b) && Members(a) == Members(b)
    ensures a == b
  {
    hide RowLess;
    if a == [] {
      if b != [] {
        FirstIsMember(b);
      }
    } else if b == [] {
      FirstIsMember(a);
    } else {
      assert a[0] in Members(b) && b[0] in Members(a);
      var i :| 0 <= i < |b| && b[i] == a[0];
      var j :| 0 <= j < |a| && a[j] == b[0];
      RowOrderTotal(a[0], b[0]);
      assert a[0] == b[0];
      TailMembers(a);
      TailMembers(b);
      SortedRowsUnique(a[1..], b[1..]);
      assert a == [a[0]] + a[1..] && b == [b[0]] + b[1..];
    }
  }

  lemma FirstIsMember(rows: seq<string>)
    requires rows != []
    ensures rows[0] in Members(rows)
  {
  }

  lemma TailMembers(rows: seq<string>)
    requires Sorted(rows) && rows != []
    ensures Sorted(rows[1..]) && Members(rows[1..]) == Members(rows) - {rows[0]}
  {
    hide RowLess;
    RowOrderTotal(rows[0], rows[0]);
    forall r | r in rows[1..] ensures r != rows[0] {
      var i :| 0 <= i < |rows| - 1 && rows[1..][i] == r;
      assert RowLess(rows[0], rows[i + 1]);
    }
    forall r | r in rows && r != rows[0] ensures r in rows[1..] {
      var i :| 0 <= i < |rows| && rows[i] == r;
      assert rows[1..][i - 1] == r;
    }
  }

  // ---- insertion into the set -----------------------------------------------------------

  function InsertRow(rows: seq<string>, row: string): seq<string> {
    if rows == [] || RowLess(row, rows[0]) then [row] + rows
    else if row == rows[0] then rows
    else [rows[0]] + InsertRow(rows[1..], row)
  }

  lemma {:induction false} InsertKeepsSorted(rows: seq<string>, row: string)
    requires Sorted(rows)
    ensures Sorted(InsertRow(rows, row)) && Members(InsertRow(rows, row)) == Members(rows) + {row}
  {
    hide RowLess;
    var out := InsertRow(rows, row);
    if rows == [] {
    } else if RowLess(row, rows[0]) {
      forall j | 0 < j < |out| ensures RowLess(out[0], out[j]) {
        if j > 1 {
          RowOrderTransitive(row, rows[0], rows[j - 1]);
        }
      }
    } else if row != rows[0] {
      RowOrderTotal(row, rows[0]);
      TailMembers(rows);
      InsertKeepsSorted(rows[1..], row);
      var tail := InsertRow(rows[1..], row);
      assert Members(out) == Members(rows) + {row} by {
        MembersCons(rows[0], tail);
        assert rows[0] in Members(rows);
      }
      forall j | 0 <= j < |tail| ensures RowLess(rows[0], tail[j]) {
        assert tail[j] in Members(tail);
        if tail[j] != row {
          assert tail[j] in rows[1..];
          var i :| 0 <= i < |rows| - 1 && rows[1..][i] == tail[j];
          assert RowLess(rows[0], rows[i + 1]);
        }
      }
    }
  }

  lemma MembersCons(first: string, rest: seq<string>)
    ensures Members([first] + rest) == {first} + Members(rest)
  {
  }

  /** All non-blank lines, one after the other, into the set. */
  function InsertAll(rows: seq<string>, lines: seq<string>): seq<string>
    decreases |lines|
  {
    if lines == [] then rows
    else InsertAll(if IsBlank(lines[0]) then rows else InsertRow(rows, lines[0]), lines[1..])
  }

  /** The rows a conflict block turns into. */
  function MergeRows(ours: seq<string>, theirs: seq<string>): seq<string> {
    InsertAll([], ours + theirs)
  }

  ghost function Content(lines: seq<string>): set<string> {
    set r | r in lines && !IsBlank(r)
  }

  lemma {:induction false} InsertAllCollects(rows: seq<string>, lines: seq<string>)
    requires Sorted(rows)
    ensures Sorted(InsertAll(rows, lines)) && Members(InsertAll(rows, lines)) == Members(rows) + Content(lines)
    decreases |lines|
  {
    hide RowLess, IsBlank;
    if lines != [] {
      var next := if IsBlank(lines[0]) then rows else InsertRow(rows, lines[0]);
      InsertKeepsSorted(rows, lines[0]);
      InsertAllCollects(next, lines[1..]);
      assert forall r :: r in lines <==> r == lines[0] || r in lines[1..];
    }
  }

  /** Every non-blank row of either side exactly once, in strictly increasing key order. */
  lemma MergeIsSortedUnion(ours: seq<string>, theirs: seq<string>)
    ensures Sorted(MergeRows(ours, theirs))
    ensures Members(MergeRows(ours, theirs)) == Content(ours) + Content(theirs)
    ensures forall r :: r in MergeRows(ours, theirs) <==> !AllWhitespace(r) && (r in ours || r in theirs)
  {
    hide RowLess, IsBlank;
    InsertAllCollects([], ours + theirs);
    assert Members([]) == {};
    assert Content(ours + theirs) == Content(ours) + Content(theirs);
    forall r ensures r in MergeRows(ours, theirs) <==> r in Members(MergeRows(ours, theirs)) {
    }
  }

  // ---- what makes cascades order-independent --------------------------------------------

  lemma MergeCommutes(a: seq<string>, b: seq<string>)
    ensures MergeRows(a, b) == MergeRows(b, a)
  {
    hide MergeRows, Content, Sorted;
    MergeIsSortedUnion(a, b);
    MergeIsSortedUnion(b, a);
    SortedRowsUnique(MergeRows(a, b), MergeRows(b, a));
  }

  lemma ContentOfMerge(a: seq<string>, b: seq<string>)
    ensures Content(MergeRows(a, b)) == Content(a) + Content(b)
  {
    hide MergeRows, IsBlank, Sorted;
    MergeIsSortedUnion(a, b);
  }

  lemma MergeAssociates(a: seq<string>, b: seq<string>, c: seq<string>)
    ensures MergeRows(MergeRows(a, b), c) == MergeRows(a, MergeRows(b, c))
  {
    hide MergeRows, Content, Sorted;
    ContentOfMerge(a, b);
    ContentOfMerge(b, c);
    MergeIsSortedUnion(MergeRows(a, b), c);
    MergeIsSortedUnion(a, MergeRows(b, c));
    SortedRowsUnique(MergeRows(MergeRows(a, b), c), MergeRows(a, MergeRows(b, c)));
  }

  lemma MergeIdempotent(a: seq<string>, b: seq<string>)
    ensures MergeRows(MergeRows(a, b), MergeRows(a, b)) == MergeRows(a, b) == MergeRows(MergeRows(a, b), b)
  {
    hide MergeRows, Content, Sorted;
    var m := MergeRows(a, b);
    ContentOfMerge(a, b);
    MergeIsSortedUnion(a, b);
    MergeIsSortedUnion(m, m);
    MergeIsSortedUnion(m, b);
    SortedRowsUnique(MergeRows(m, m), m);
    SortedRowsUnique(MergeRows(m, b), m);
  }

  /** Branches merged one after the other into the same table. */
  function Cascade(table: seq<string>, branches: seq<seq<string>>): seq<string>
    decreases |branches|
  {
    if branches == [] then table else Cascade(MergeRows(table, branches[0]), branches[1..])
  }

  ghost function AllContent(branches: seq<seq<string>>): set<string> {
    if branches == [] then {} else Content(branches[0]) + AllContent(branches[1..])
  }

  lemma {:induction false} CascadeCollects(table: seq<string>, branches: seq<seq<string>>)
    requires Sorted(table) && Members(table) == Content(table)
    ensures Sorted(Cascade(table, branches))
    ensures Members(Cascade(table, branches)) == Content(table) + AllContent(branches)
    decreases |branches|
  {
    hide MergeRows, Content, Sorted;
    if branches != [] {
      MergeIsSortedUnion(table, branches[0]);
      ContentOfMerge(table, branches[0]);
      CascadeCollects(MergeRows(table, branches[0]), branches[1..]);
    }
  }

  lemma {:induction false} AllContentOfPermutation(a: seq<seq<string>>, b: seq<seq<string>>)
    requires forall x :: x in a <==> x in b
    ensures AllContent(a) == AllContent(b)
  {
    AllContentMembers(a);
    AllContentMembers(b);
  }

  lemma {:induction false} AllContentMembers(a: seq<seq<string>>)
    ensures forall r :: r in AllContent(a) <==> exists x :: x in a && r in Content(x)
  {
    hide Content;
    if a != [] {
      AllContentMembers(a[1..]);
      assert forall x :: x in a <==> x == a[0] || x in a[1..];
    }
  }

  /** Any order of cascading the same branches, repeats included, yields the same table. */
  lemma CascadeOrderIrrelevant(a: seq<seq<string>>, b: seq<seq<string>>)
    requires forall x :: x in a <==> x in b
    ensures Cascade([], a) == Cascade([], b)
  {
    hide Sorted, Cascade, AllContent;
    EmptyTable();
    CascadeCollects([], a);
    CascadeCollects([], b);
    AllContentOfPermutation(a, b);
    SortedRowsUnique(Cascade([], a), Cascade([], b));
  }

  lemma EmptyTable()
    ensures Sorted([]) && Members([]) == Content([]) == {}
  {
  }

  // ---- printing the merged rows ---------------------------------------------------------

  function Terminate(line: string): string {
    if EndsWith(line, "\n") then line else line + "\n"
  }

  function TerminateAll(rows: seq<string>): (r: seq<string>)
    ensures |r| == |rows|
  {
    seq(|rows|, i requires 0 <= i < |rows| => Terminate(rows[i]))
  }

  method UnionMergeSorted(ours: seq<string>, theirs: seq<string>) returns (out: string)
    ensures out == Flatten(TerminateAll(MergeRows(ours, theirs)))
  {
    hide IsBlank, InsertRow, Terminate, TerminateAll, Flatten;
    var lines := ours + theirs;
    var keyed: seq<string> := [];
    assert lines[0..] == lines;
    for i := 0 to |lines|
      invariant InsertAll([], lines) == InsertAll(keyed, lines[i..])
    {
      assert lines[i..][1..] == lines[i + 1..];
      if IsBlank(lines[i]) {
        continue;
      }
      keyed := InsertRow(keyed, lines[i]);
    }
    out := "";
    NothingPrinted();
    assert keyed[..0] == [];
    for i := 0 to |keyed|
      invariant out == Flatten(TerminateAll(keyed[..i]))
    {
      PrintRow(keyed, i);
      if EndsWith(keyed[i], "\n") {
        out := out + keyed[i];
      } else {
        out := out + keyed[i];
        out := out + "\n";
      }
    }
    assert keyed[..|keyed|] == keyed;
  }

  lemma NothingPrinted()
    ensures Flatten(TerminateAll([])) == ""
  {
  }

  lemma PrintRow(rows: seq<string>, i: nat)
    requires i < |rows|
    ensures var before := Flatten(TerminateAll(rows[..i]));
            Flatten(TerminateAll(rows[..i + 1])) == if EndsWith(rows[i], "\n") then before + rows[i] else before + rows[i] + "\n"
  {
    hide EndsWith, Flatten;
    assert TerminateAll(rows[..i + 1]) == TerminateAll(rows[..i]) + [Terminate(rows[i])];
    FlattenAppend(TerminateAll(rows[..i]), [Terminate(rows[i])]);
    FlattenOne(Terminate(rows[i]));
    assert Flatten(TerminateAll(rows[..i])) + (rows[i] + "\n") == Flatten(TerminateAll(rows[..i])) + rows[i] + "\n";
  }

  lemma FlattenOne(run: string)
    ensures Flatten([run]) == run
  {
    assert [run][1..] == [];
  }
}

/** The string operations of the Rust standard library that the modelled code leans on. */
module Text {
  /** Unicode White_Space, as `char::is_whitespace` has it. */
  predicate IsWhitespace(c: char) {
    var n := c as int;
    9 <= n <= 13 || n == 32 || n == 0x85 || n == 0xA0 || n == 0x1680 || 0x2000 <= n <= 0x200A
    || n == 0x2028 || n == 0x2029 || n == 0x202F || n == 0x205F || n == 0x3000
  }

  predicate IsDigit(c: char) {
    '0' <= c <= '9'
  }

  predicate IsLower(c: char) {
    'a' <= c <= 'z'
  }

  predicate IsAlphanumeric(c: char) {
    IsDigit(c) || IsLower(c) || 'A' <= c <= 'Z'
  }

  predicate StartsWith(s: string, prefix: string) {
    prefix <= s
  }

  predicate EndsWith(s: string, suffix: string) {
    |suffix| <= |s| && s[|s| - |suffix|..] == suffix
  }

  predicate Contains(s: string, part: string) {
    part <= s || (s != [] && Contains(s[1..], part))
  }

  ghost predicate OccursAt(s: string, part: string, k: int) {
    0 <= k <= |s| - |part| && s[k..k + |part|] == part
  }

  lemma {:induction false} ContainsOnText(s: string, part: string)
    ensures Contains(s, part) <==> exists k :: OccursAt(s, part, k)
  {
    if part <= s {
      assert OccursAt(s, part, 0);
    }
    if s != [] {
      ContainsOnText(s[1..], part);
      if k :| OccursAt(s[1..], part, k) {
        assert OccursAt(s, part, k + 1);
      }
      if k :| OccursAt(s, part, k) {
        if k > 0 {
          assert OccursAt(s[1..], part, k - 1);
        }
      }
    }
  }

  function TrimStart(s: string): string {
    if s != [] && IsWhitespace(s[0]) then TrimStart(s[1..]) else s
  }

  function TrimEnd(s: string): string {
    if s != [] && IsWhitespace(s[|s| - 1]) then TrimEnd(s[..|s| - 1]) else s
  }

  function Trim(s: string): string {
    TrimEnd(TrimStart(s))
  }

  lemma {:induction false} TrimStartDrops(s: string) returns (k: nat)
    ensures k <= |s| && TrimStart(s) == s[k..]
    ensures (forall i :: 0 <= i < k ==> IsWhitespace(s[i])) && (k < |s| ==> !IsWhitespace(s[k]))
  {
    hide IsWhitespace;
    if s != [] && IsWhitespace(s[0]) {
      var j := TrimStartDrops(s[1..]);
      k := j + 1;
      assert s[1..][j..] == s[k..];
      assert forall i :: 0 < i < k ==> s[i] == s[1..][i - 1];
    } else {
      k := 0;
    }
  }

  lemma {:induction false} TrimEndDrops(s: string) returns (k: nat)
    ensures k <= |s| && TrimEnd(s) == s[..k]
    ensures (forall i :: k <= i < |s| ==> IsWhitespace(s[i])) && (k > 0 ==> !IsWhitespace(s[k - 1]))
  {
    hide IsWhitespace;
    if s != [] && IsWhitespace(s[|s| - 1]) {
      k := TrimEndDrops(s[..|s| - 1]);
      assert s[..|s| - 1][..k] == s[..k];
    } else {
      k := |s|;
      assert s[..k] == s;
    }
  }

  /** What is left of the text is `s[i..j]`, and all that was dropped is whitespace. */
  ghost predicate TrimsTo(s: string, i: int, j: int) {
    && 0 <= i <= j <= |s|
    && (forall k :: 0 <= k < i || j <= k < |s| ==> IsWhitespace(s[k]))
    && (i < j ==> !IsWhitespace(s[i]) && !IsWhitespace(s[j - 1]))
  }

  lemma TrimDrops(s: string) returns (i: nat, j: nat)
    ensures TrimsTo(s, i, j) && Trim(s) == s[i..j]
  {
    hide IsWhitespace;
    i := TrimStartDrops(s);
    var t := s[i..];
    var k := TrimEndDrops(t);
    j := i + k;
    assert t[..k] == s[i..j];
    assert forall m :: j <= m < |s| ==> s[m] == t[m - i];
    if k > 0 {
      assert t[k - 1] == s[j - 1] && t[0] == s[i];
    }
  }

  lemma TrimIs(s: string, i: int, j: int)
    requires TrimsTo(s, i, j)
    ensures Trim(s) == s[i..j]
  {
    hide IsWhitespace;
    var a, b := TrimDrops(s);
  }

  lemma TrimEmpty(s: string)
    ensures Trim(s) == "" <==> forall k :: 0 <= k < |s| ==> IsWhitespace(s[k])
  {
    hide IsWhitespace, Trim;
    var i, j := TrimDrops(s);
    if i < j {
      assert !IsWhitespace(s[i]);
    }
  }

  /** `trim_end_matches(['\r', '\n'])`. */
  function TrimEol(line: string): string {
    if line != [] && (line[|line| - 1] == '\n' || line[|line| - 1] == '\r') then TrimEol(line[..|line| - 1]) else line
  }

  predicate AllDigits(s: string) {
    forall i :: 0 <= i < |s| ==> IsDigit(s[i])
  }

  // ---- concatenation and splitting ------------------------------------------------------

  function Flatten<T>(runs: seq<seq<T>>): seq<T> {
    if runs == [] then [] else runs[0] + Flatten(runs[1..])
  }

  lemma {:induction false} FlattenAppend<T>(a: seq<seq<T>>, b: seq<seq<T>>)
    ensures Flatten(a + b) == Flatten(a) + Flatten(b)
  {
    if a == [] {
      assert a + b == b;
    } else {
      FlattenAppend(a[1..], b);
      assert (a + b)[1..] == a[1..] + b && (a + b)[0] == a[0];
      assert a[0] + (Flatten(a[1..]) + Flatten(b)) == a[0] + Flatten(a[1..]) + Flatten(b);
    }
  }

  /** `str::split` on one character: always at least one piece, empty pieces kept. */
  function Split(s: string, sep: char): (parts: seq<string>)
    ensures parts != []
  {
    if s == [] then [""] else Grow(s[0], sep, Split(s[1..], sep))
  }

  /** One more character in front: a separator opens a new piece, anything else extends the first. */
  function Grow(c: char, sep: char, parts: seq<string>): (grown: seq<string>)
    requires parts != []
    ensures grown != []
  {
    if c == sep then [""] + parts else [[c] + parts[0]] + parts[1..]
  }

  function Join(parts: seq<string>, sep: char): string
    requires parts != []
  {
    if |parts| == 1 then parts[0] else parts[0] + [sep] + Join(parts[1..], sep)
  }

  lemma JoinGrow(c: char, parts: seq<string>, sep: char)
    requires parts != []
    ensures Join(Grow(c, sep, parts), sep) == [c] + Join(parts, sep)
  {
    var grown := Grow(c, sep, parts);
    if c == sep {
      assert grown[1..] == parts;
    } else {
      assert grown[1..] == parts[1..];
      assert grown[0] == [c] + parts[0];
    }
  }

  /** Splitting loses nothing. */
  lemma {:induction false} JoinSplit(s: string, sep: char)
    ensures Join(Split(s, sep), sep) == s
  {
    if s != [] {
      JoinSplit(s[1..], sep);
      JoinGrow(s[0], Split(s[1..], sep), sep);
      assert s == [s[0]] + s[1..];
    }
  }

  lemma GrowAppend(c: char, sep: char, a: seq<string>, b: seq<string>)
    requires a != []
    ensures Grow(c, sep, a + b) == Grow(c, sep, a) + b
  {
    assert (a + b)[1..] == a[1..] + b;
  }

  lemma {:induction false} SplitAt(a: string, sep: char, b: string)
    ensures Split(a + [sep] + b, sep) == Split(a, sep) + Split(b, sep)
  {
    var s := a + [sep] + b;
    if a == [] {
      assert s[0] == sep && s[1..] == b;
    } else {
      SplitAt(a[1..], sep, b);
      assert s[0] == a[0] && s[1..] == a[1..] + [sep] + b;
      GrowAppend(a[0], sep, Split(a[1..], sep), Split(b, sep));
    }
  }

  lemma {:induction false} JoinAppend(a: seq<string>, b: seq<string>, sep: char)
    requires a != [] && b != []
    ensures Join(a + b, sep) == Join(a, sep) + [sep] + Join(b, sep)
  {
    if |a| > 1 {
      JoinAppend(a[1..], b, sep);
      assert (a + b)[1..] == a[1..] + b;
    } else {
      assert (a + b)[1..] == b;
    }
  }

  lemma {:induction false} NoSeparatorNoSplit(s: string, sep: char)
    requires sep !in s
    ensures Split(s, sep) == [s]
  {
    if s != [] {
      NoSeparatorNoSplit(s[1..], sep);
      assert s == [s[0]] + s[1..];
    }
  }

  lemma {:induction false} SplitHasNoSeparator(s: string, sep: char)
    ensures forall p :: p in Split(s, sep) ==> sep !in p
  {
    if s != [] {
      SplitHasNoSeparator(s[1..], sep);
      var parts := Split(s[1..], sep);
      forall p | p in Split(s, sep)
        ensures sep !in p
      {
        if p !in parts[1..] && p != "" {
          assert parts[0] in parts;
        } else if p in parts[1..] {
          assert p in parts;
        }
      }
    }
  }

  /** `str::lines`: a CRLF counts as one line end, an empty last piece is no line. */
  function Lines(diff: string): seq<string> {
    Ended(Split(diff, '\n'))
  }

  function Ended(parts: seq<string>): seq<string>
    requires parts != []
  {
    if |parts| == 1 then (if parts[0] == "" then [] else parts)
    else [if EndsWith(parts[0], "\r") then parts[0][..|parts[0]| - 1] else parts[0]] + Ended(parts[1..])
  }

  /** Lines written out one after the other, each ended by a newline or by a carriage return and a newline. */
  function Written(lines: seq<string>, crlf: seq<bool>): string
    requires |lines| == |crlf|
  {
    if lines == [] then "" else lines[0] + (if crlf[0] then "\r\n" else "\n") + Written(lines[1..], crlf[1..])
  }

  lemma FirstLineRead(line: string, crlf: bool, rest: string)
    requires '\n' !in line && (!crlf ==> !EndsWith(line, "\r"))
    ensures Lines(line + (if crlf then "\r\n" else "\n") + rest) == [line] + Lines(rest)
  {
    hide Split, Ended;
    var piece := line + if crlf then "\r" else "";
    assert line + (if crlf then "\r\n" else "\n") + rest == piece + ['\n'] + rest;
    SplitAt(piece, '\n', rest);
    NoSeparatorNoSplit(piece, '\n');
    EndedFirst(piece, Split(rest, '\n'));
    if crlf {
      assert EndsWith(piece, "\r") && piece[..|piece| - 1] == line;
    } else {
      assert piece == line;
    }
  }

  lemma EndedFirst(piece: string, parts: seq<string>)
    requires parts != []
    ensures Ended([piece] + parts) == [if EndsWith(piece, "\r") then piece[..|piece| - 1] else piece] + Ended(parts)
  {
    assert ([piece] + parts)[1..] == parts;
  }

  /** Written-out lines are read back, and what follows the last newline is one more if it is anything. */
  lemma {:induction false} LinesReadBack(lines: seq<string>, crlf: seq<bool>, last: string)
    requires |lines| == |crlf| && '\n' !in last
    requires forall i :: 0 <= i < |lines| ==> '\n' !in lines[i] && (!crlf[i] ==> !EndsWith(lines[i], "\r"))
    ensures Lines(Written(lines, crlf) + last) == lines + if last == "" then [] else [last]
  {
    var more := if last == "" then [] else [last];
    if lines == [] {
      assert Written(lines, crlf) + last == last;
      NoSeparatorNoSplit(last, '\n');
      assert lines + more == more;
    } else {
      hide Lines;
      var rest := Written(lines[1..], crlf[1..]);
      LinesReadBack(lines[1..], crlf[1..], last);
      FirstLineRead(lines[0], crlf[0], rest + last);
      var first := lines[0] + if crlf[0] then "\r\n" else "\n";
      assert first + (rest + last) == first + rest + last;
      assert lines + more == [lines[0]] + (lines[1..] + more);
    }
  }
}

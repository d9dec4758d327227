/**
 * Wire framing of the Language Server Protocol 3.17 base protocol: a header part of
 * CRLF-terminated lines naming the Content-Length, an empty line, then that many bytes.
 * JSON is an assumed inverse pair of printer and parser with non-empty output.
 */
module Framing {
  import opened Wrappers
  import opened Text
  import opened Decimal

  type Byte = b: int | 0 <= b < 256

  const USIZE_LIMIT := 0x1_0000_0000_0000_0000

  datatype IoError = UnexpectedEof | InvalidData

  datatype Codec<!V> = Codec(encode: V -> seq<Byte>, decode: seq<Byte> -> Option<V>)

  ghost predicate Faithful<V(!new)>(json: Codec<V>) {
    forall v :: json.decode(json.encode(v)) == Some(v) && 0 < |json.encode(v)| < USIZE_LIMIT
  }

  // ---- text and bytes -------------------------------------------------------------------

  predicate IsAscii(s: string) {
    forall i :: 0 <= i < |s| ==> s[i] as int < 128
  }

  function Bytes(s: string): (b: seq<Byte>)
    requires IsAscii(s)
    ensures |b| == |s| && forall i :: 0 <= i < |s| ==> b[i] == s[i] as int
  {
    seq(|s|, i requires 0 <= i < |s| => s[i] as int)
  }

  predicate Continuation(b: seq<Byte>, i: nat) {
    i < |b| && 0x80 <= b[i] < 0xC0
  }

  /** The first character in UTF-8 and its width, rejecting overlong forms, surrogates and anything past U+10FFFF. */
  function FirstChar(b: seq<Byte>): (r: Option<(char, nat)>)
    requires b != []
    ensures r.Some? ==> 0 < r.value.1 <= |b|
  {
    if b[0] < 0x80 then Some((b[0] as char, 1))
    else if 0xC2 <= b[0] < 0xE0 && Continuation(b, 1) then
      Some((((b[0] as int - 0xC0) * 0x40 + (b[1] as int - 0x80)) as char, 2))
    else if 0xE0 <= b[0] < 0xF0 && Continuation(b, 1) && Continuation(b, 2)
      && (b[0] == 0xE0 ==> b[1] >= 0xA0) && (b[0] == 0xED ==> b[1] < 0xA0) then
      Some((((b[0] as int - 0xE0) * 0x1000 + (b[1] as int - 0x80) * 0x40 + (b[2] as int - 0x80)) as char, 3))
    else if 0xF0 <= b[0] < 0xF5 && Continuation(b, 1) && Continuation(b, 2) && Continuation(b, 3)
      && (b[0] == 0xF0 ==> b[1] >= 0x90) && (b[0] == 0xF4 ==> b[1] < 0x90) then
      Some((((b[0] as int - 0xF0) * 0x4_0000 + (b[1] as int - 0x80) * 0x1000 + (b[2] as int - 0x80) * 0x40
             + (b[3] as int - 0x80)) as char, 4))
    else None
  }

  function Utf8Decode(b: seq<Byte>): Option<string> {
    if b == [] then Some("")
    else
      match FirstChar(b)
      case None => None
      case Some((c, width)) => Cons(c, Utf8Decode(b[width..]))
  }

  function Cons(c: char, rest: Option<string>): Option<string> {
    if rest.Some? then Some([c] + rest.value) else None
  }

  lemma {:induction false} AsciiDecodes(s: string)
    requires IsAscii(s)
    ensures Utf8Decode(Bytes(s)) == Some(s)
  {
    if s != [] {
      AsciiDecodes(s[1..]);
      assert Bytes(s)[1..] == Bytes(s[1..]);
      assert s == [s[0]] + s[1..];
    }
  }

  /** RFC 3629, section 3: one to four bytes for a character. */
  function Utf8Char(c: char): (b: seq<Byte>)
    ensures 1 <= |b| <= 4
  {
    var n := c as int;
    if n < 0x80 then [n]
    else if n < 0x800 then [0xC0 + n / 0x40, 0x80 + n % 0x40]
    else if n < 0x1_0000 then [0xE0 + n / 0x1000, 0x80 + n / 0x40 % 0x40, 0x80 + n % 0x40]
    else [0xF0 + n / 0x4_0000, 0x80 + n / 0x1000 % 0x40, 0x80 + n / 0x40 % 0x40, 0x80 + n % 0x40]
  }

  function Utf8Encode(s: string): seq<Byte> {
    if s == [] then [] else Utf8Char(s[0]) + Utf8Encode(s[1..])
  }

  /** Base 64 digits. */
  lemma Digits(n: nat)
    ensures n == n / 0x40 * 0x40 + n % 0x40
    ensures n == n / 0x1000 * 0x1000 + n / 0x40 % 0x40 * 0x40 + n % 0x40
    ensures n == n / 0x4_0000 * 0x4_0000 + n / 0x1000 % 0x40 * 0x1000 + n / 0x40 % 0x40 * 0x40 + n % 0x40
  {
    assert n / 0x1000 == n / 0x40 / 0x40 && n / 0x4_0000 == n / 0x1000 / 0x40;
  }

  lemma DigitsAre(x: nat, y: nat, z: nat, w: nat)
    requires y < 0x40 && z < 0x40 && w < 0x40
    ensures var n := x * 0x4_0000 + y * 0x1000 + z * 0x40 + w;
            n % 0x40 == w && n / 0x40 % 0x40 == z && n / 0x1000 % 0x40 == y && n / 0x4_0000 == x
            && n / 0x1000 == x * 0x40 + y && n / 0x40 == x * 0x1000 + y * 0x40 + z
  {
    var n := x * 0x4_0000 + y * 0x1000 + z * 0x40 + w;
    assert n / 0x40 == x * 0x1000 + y * 0x40 + z;
    assert n / 0x1000 == n / 0x40 / 0x40 == x * 0x40 + y;
    assert n / 0x4_0000 == n / 0x1000 / 0x40;
  }

  lemma CharIsFirst(c: char, b: seq<Byte>)
    requires Utf8Char(c) <= b
    ensures FirstChar(b) == Some((c, |Utf8Char(c)|))
  {
    var head := Utf8Char(c);
    Digits(c as int);
    assert forall i :: 0 <= i < |head| ==> b[i] == head[i];
  }

  lemma FirstIsChar(b: seq<Byte>)
    requires b != [] && FirstChar(b).Some?
    ensures var (c, width) := FirstChar(b).value; b[..width] == Utf8Char(c)
  {
    var (c, width) := FirstChar(b).value;
    if width == 2 {
      DigitsAre(0, 0, b[0] - 0xC0, b[1] - 0x80);
    } else if width == 3 {
      DigitsAre(0, b[0] - 0xE0, b[1] - 0x80, b[2] - 0x80);
    } else if width == 4 {
      DigitsAre(b[0] - 0xF0, b[1] - 0x80, b[2] - 0x80, b[3] - 0x80);
    }
  }

  /** Exactly the encodings decode, and to what they encode. */
  lemma {:induction false} Utf8DecodesExactly(b: seq<Byte>, s: string)
    ensures Utf8Decode(b) == Some(s) <==> b == Utf8Encode(s)
    decreases |b|
  {
    hide Utf8Char, FirstChar;
    if b == Utf8Encode(s) && s != [] {
      var head, rest := Utf8Char(s[0]), Utf8Encode(s[1..]);
      CharIsFirst(s[0], b);
      assert b[|head|..] == rest;
      Utf8DecodesExactly(rest, s[1..]);
      assert s == [s[0]] + s[1..];
    }
    if b != [] && FirstChar(b).Some? && Utf8Decode(b) == Some(s) {
      var (c, width) := FirstChar(b).value;
      FirstIsChar(b);
      Utf8DecodesExactly(b[width..], s[1..]);
      assert b == b[..width] + b[width..];
    }
  }

  // ---- receiving ------------------------------------------------------------------------

  /** End of the first line: one past its newline, or the end of the stream. */
  function LineEnd(input: seq<Byte>): (n: nat)
    ensures n <= |input| && (input != [] ==> n > 0)
  {
    if input == [] then 0 else if input[0] == 10 then 1 else 1 + LineEnd(input[1..])
  }

  function ParseUsize(s: string): Option<nat> {
    var r := ParseNat(s);
    if r.Some? && r.value < USIZE_LIMIT then r else None
  }

  lemma {:induction false} FirstLine(input: seq<Byte>)
    ensures forall i :: 0 <= i < LineEnd(input) - 1 ==> input[i] != 10
    ensures LineEnd(input) < |input| ==> LineEnd(input) > 0 && input[LineEnd(input) - 1] == 10
  {
    if input != [] && input[0] != 10 {
      FirstLine(input[1..]);
      var n := LineEnd(input[1..]);
      forall i | 0 <= i < n
        ensures input[i] != 10
      {
        if i > 0 {
          assert input[1..][i - 1] == input[i];
        }
      }
      assert n < |input[1..]| ==> input[n] == input[1..][n - 1];
    }
  }

  /** There is only one such way to take a line off a stream. */
  lemma {:induction false} LineEndIs(line: seq<Byte>, rest: seq<Byte>)
    requires forall i :: 0 <= i < |line| - 1 ==> line[i] != 10
    requires rest != [] ==> line != [] && line[|line| - 1] == 10
    ensures LineEnd(line + rest) == |line|
    decreases |line|
  {
    if line != [] && line[0] != 10 {
      assert (line + rest)[1..] == line[1..] + rest;
      LineEndIs(line[1..], rest);
    } else if line != [] {
      assert |line| == 1;
    }
  }

  const CONTENT_LENGTH := "Content-Length:"

  /** The header loop: the last Content-Length wins, other headers are skipped. */
  function RecvHeaders(input: seq<Byte>, length: Option<nat>): (r: Result<(nat, seq<Byte>), IoError>)
    decreases |input|
  {
    if input == [] then Err(UnexpectedEof)
    else
      var n := LineEnd(input);
      match Utf8Decode(input[..n])
      case None => Err(InvalidData)
      case Some(text) =>
        var line := TrimEol(text);
        if line == [] then (if length.Some? then Ok((length.value, input[n..])) else Err(InvalidData))
        else if StartsWith(line, CONTENT_LENGTH) then
          match ParseUsize(Trim(line[|CONTENT_LENGTH|..]))
          case None => Err(InvalidData)
          case Some(v) => RecvHeaders(input[n..], Some(v))
        else RecvHeaders(input[n..], length)
  }

  function Recv<V>(json: Codec<V>, input: seq<Byte>): Result<(V, seq<Byte>), IoError> {
    match RecvHeaders(input, None)
    case Err(e) => Err(e)
    case Ok((length, rest)) =>
      if |rest| < length then Err(UnexpectedEof)
      else
        match json.decode(rest[..length])
        case None => Err(InvalidData)
        case Some(v) => Ok((v, rest[length..]))
  }

  class Reader {
    var input: seq<Byte>

    constructor (input: seq<Byte>)
      ensures this.input == input
    {
      this.input := input;
    }

    /** `read_line`: up to and including the first newline, or all that is left. */
    method ReadLine() returns (line: seq<Byte>)
      modifies this
      ensures old(input) == line + input
      ensures (forall i :: 0 <= i < |line| - 1 ==> line[i] != 10)
      ensures input != [] ==> line != [] && line[|line| - 1] == 10
    {
      line := input[..LineEnd(input)];
      FirstLine(input);
      input := input[LineEnd(input)..];
    }

    method RecvFrame<V>(json: Codec<V>) returns (r: Result<V, IoError>)
      modifies this
      ensures r == match Recv(json, old(input)) case Ok((v, _)) => Ok(v) case Err(e) => Err(e)
      ensures Recv(json, old(input)).Ok? ==> input == Recv(json, old(input)).value.1
    {
      hide Utf8Decode, TrimEol, Trim, ParseUsize, LineEnd;
      var contentLength: Option<nat> := None;
      while true
        invariant RecvHeaders(old(input), None) == RecvHeaders(input, contentLength)
        decreases |input|
      {
        if input == [] {
          return Err(UnexpectedEof);
        }
        ghost var before := input;
        var bytes := ReadLine();
        LineEndIs(bytes, input);
        assert before[..|bytes|] == bytes && before[|bytes|..] == input;
        var text := Utf8Decode(bytes);
        if text.None? {
          return Err(InvalidData);
        }
        var line := TrimEol(text.value);
        if line == [] {
          break;
        }
        if StartsWith(line, CONTENT_LENGTH) {
          var parsed := ParseUsize(Trim(line[|CONTENT_LENGTH|..]));
          if parsed.None? {
            return Err(InvalidData);
          }
          contentLength := parsed;
        }
      }
      if contentLength.None? {
        return Err(InvalidData);
      }
      if |input| < contentLength.value {
        return Err(UnexpectedEof);
      }
      var value := json.decode(input[..contentLength.value]);
      if value.None? {
        return Err(InvalidData);
      }
      input := input[contentLength.value..];
      return Ok(value.value);
    }
  }

  // ---- sending --------------------------------------------------------------------------

  /** The header line without its line end. */
  function LengthHeader(digits: string): string {
    CONTENT_LENGTH + " " + digits
  }

  /** A header part that declares the body, and the body. */
  function FrameOf(body: seq<Byte>): seq<Byte> {
    HeaderIsAscii(Dec(|body|));
    Bytes(LengthHeader(Dec(|body|)) + "\r\n\r\n") + body
  }

  function Frame<V>(json: Codec<V>, v: V): seq<Byte> {
    FrameOf(json.encode(v))
  }

  lemma HeaderIsAscii(digits: string)
    requires AllDigits(digits)
    ensures IsAscii(LengthHeader(digits) + "\r\n\r\n")
    ensures IsAscii(LengthHeader(digits) + "\r\n")
  {
    assert IsAscii(CONTENT_LENGTH + " ");
  }

  class Writer {
    var out: seq<Byte>

    constructor ()
      ensures out == []
    {
      out := [];
    }

    /** Two writes: the header part, then the body. */
    method SendFrame<V>(json: Codec<V>, payload: V)
      modifies this
      ensures out == old(out) + Frame(json, payload)
    {
      var body := json.encode(payload);
      HeaderIsAscii(Dec(|body|));
      out := out + Bytes(LengthHeader(Dec(|body|)) + "\r\n\r\n");
      out := out + body;
    }
  }

  // ---- a sent frame is received ---------------------------------------------------------

  /** One line of text at the front of the stream, ended by its newline or by the stream. */
  lemma ReadsLine(t: string, rest: seq<Byte>)
    requires IsAscii(t) && t != [] && (forall i :: 0 <= i < |t| - 1 ==> t[i] != '\n')
    requires t[|t| - 1] == '\n' || rest == []
    ensures LineEnd(Bytes(t) + rest) == |t|
    ensures (Bytes(t) + rest)[..|t|] == Bytes(t) && (Bytes(t) + rest)[|t|..] == rest
    ensures Utf8Decode(Bytes(t)) == Some(t)
  {
    AsciiDecodes(t);
    LineEndIs(Bytes(t), rest);
  }

  lemma TrimDigits(digits: string)
    requires AllDigits(digits)
    ensures Trim(" " + digits) == digits && Trim(digits) == digits
  {
    assert (" " + digits)[1..] == digits;
    assert TrimStart(" " + digits) == TrimStart(digits) == digits;
  }

  lemma TrimEolOne(s: string, c: char)
    requires c == '\n' || c == '\r'
    ensures TrimEol(s + [c]) == TrimEol(s)
  {
    assert (s + [c])[..|s|] == s;
  }

  lemma TrimEolDrops(s: string, eol: string)
    requires s == [] || (s[|s| - 1] != '\n' && s[|s| - 1] != '\r')
    requires eol in {"", "\r", "\n", "\r\n"}
    ensures TrimEol(s + eol) == s
  {
    assert TrimEol(s) == s;
    if eol == "" {
      assert s + eol == s;
    } else if eol == "\r\n" {
      TrimEolOne(s, '\r');
      TrimEolOne(s + "\r", '\n');
      assert s + eol == s + "\r" + "\n";
    } else {
      TrimEolOne(s, eol[0]);
      assert eol == [eol[0]];
    }
  }

  /** One header line off the stream: a blank one ends the header part, the others are read in turn. */
  lemma HeaderStep(line: string, eol: string, rest: seq<Byte>, length: Option<nat>)
    requires IsAscii(line) && '\n' !in line && (line == [] || line[|line| - 1] != '\r')
    requires eol == "\r\n" || (rest == [] && eol in {"", "\r"})
    requires line + eol != []
    ensures IsAscii(line + eol)
    ensures RecvHeaders(Bytes(line + eol) + rest, length) ==
            if line == [] then (if length.Some? then Ok((length.value, rest)) else Err(InvalidData))
            else if StartsWith(line, CONTENT_LENGTH) then
              match ParseUsize(Trim(line[|CONTENT_LENGTH|..]))
              case None => Err(InvalidData)
              case Some(v) => RecvHeaders(rest, Some(v))
            else RecvHeaders(rest, length)
  {
    hide Utf8Decode, TrimEol, Trim, ParseUsize, LineEnd, Bytes;
    ReadsLine(line + eol, rest);
    TrimEolDrops(line, eol);
  }

  lemma LengthLineParses(digits: string)
    requires AllDigits(digits)
    ensures StartsWith(LengthHeader(digits), CONTENT_LENGTH)
    ensures LengthHeader(digits)[|CONTENT_LENGTH|..] == " " + digits
    ensures ParseUsize(Trim(LengthHeader(digits)[|CONTENT_LENGTH|..])) ==
            if digits != [] && Value(digits) < USIZE_LIMIT then Some(Value(digits)) else None
  {
    assert LengthHeader(digits)[|CONTENT_LENGTH|..] == " " + digits;
    TrimDigits(digits);
  }

  lemma FrameLines(body: seq<Byte>, later: seq<Byte>)
    ensures IsAscii(LengthHeader(Dec(|body|)) + "\r\n")
    ensures FrameOf(body) + later ==
            Bytes(LengthHeader(Dec(|body|)) + "\r\n") + (Bytes("" + "\r\n") + (body + later))
  {
    hide Bytes, LengthHeader, IsAscii;
    var line := LengthHeader(Dec(|body|));
    HeaderIsAscii(Dec(|body|));
    TwoLines(line);
    BytesJoin(line + "\r\n", "" + "\r\n");
    Regroup(Bytes(line + "\r\n"), Bytes("" + "\r\n"), body, later);
  }

  lemma TwoLines(line: string)
    ensures IsAscii("" + "\r\n") && line + "\r\n\r\n" == (line + "\r\n") + ("" + "\r\n")
  {
  }

  lemma BytesJoin(a: string, b: string)
    requires IsAscii(a) && IsAscii(b)
    ensures IsAscii(a + b) && Bytes(a + b) == Bytes(a) + Bytes(b)
  {
  }

  lemma Regroup(a: seq<Byte>, b: seq<Byte>, c: seq<Byte>, d: seq<Byte>)
    ensures a + b + c + d == a + (b + (c + d))
  {
  }

  /** A frame with any bytes for a body: received if they decode, refused as bad data if not; later bytes are not read. */
  lemma AnyBodyIsDecoded<V(!new)>(json: Codec<V>, body: seq<Byte>, later: seq<Byte>)
    requires |body| < USIZE_LIMIT
    ensures Recv(json, FrameOf(body) + later) ==
            match json.decode(body) case None => Err(InvalidData) case Some(v) => Ok((v, later))
  {
    hide RecvHeaders, Utf8Decode, TrimEol, Trim, ParseUsize, LineEnd, FrameOf, Bytes;
    var digits := Dec(|body|);
    var line := LengthHeader(digits);
    FrameLines(body, later);
    ValueOfDec(|body|);
    LengthLineParses(digits);
    HeaderStep(line, "\r\n", Bytes("" + "\r\n") + (body + later), None);
    HeaderStep("", "\r\n", body + later, Some(|body|));
    assert (body + later)[..|body|] == body && (body + later)[|body|..] == later;
  }

  /** A frame is read back whole, and not one byte after it is touched. */
  lemma FrameRoundTrip<V(!new)>(json: Codec<V>, v: V, later: seq<Byte>)
    requires Faithful(json)
    ensures Recv(json, Frame(json, v) + later) == Ok((v, later))
  {
    hide Recv, FrameOf;
    AnyBodyIsDecoded(json, json.encode(v), later);
    assert json.decode(json.encode(v)) == Some(v);
  }

  /** A header line that is not text in UTF-8 is bad data, whatever came before it. */
  lemma UndecodableLineIsRefused(line: seq<Byte>, rest: seq<Byte>, length: Option<nat>)
    requires line != [] && forall i :: 0 <= i < |line| - 1 ==> line[i] != 10
    requires rest != [] ==> line[|line| - 1] == 10
    requires forall s :: line != Utf8Encode(s)
    ensures RecvHeaders(line + rest, length) == Err(InvalidData)
  {
    hide Utf8Decode, LineEnd, Utf8Encode;
    LineEndIs(line, rest);
    assert (line + rest)[..|line|] == line;
    if Utf8Decode(line).Some? {
      Utf8DecodesExactly(line, Utf8Decode(line).value);
    }
  }

  function Frames<V>(json: Codec<V>, vs: seq<V>): seq<Byte> {
    if vs == [] then [] else Frame(json, vs[0]) + Frames(json, vs[1..])
  }

  /** `n` receives one after the other. */
  function RecvMany<V>(json: Codec<V>, input: seq<Byte>, n: nat): Result<(seq<V>, seq<Byte>), IoError>
    decreases n
  {
    if n == 0 then Ok(([], input))
    else
      match Recv(json, input)
      case Err(e) => Err(e)
      case Ok((v, rest)) =>
        match RecvMany(json, rest, n - 1)
        case Err(e) => Err(e)
        case Ok((vs, end)) => Ok(([v] + vs, end))
  }

  /** Frames written back to back come out as the same sequence, all later bytes unread. */
  lemma {:induction false} StreamRoundTrip<V(!new)>(json: Codec<V>, vs: seq<V>, later: seq<Byte>)
    requires Faithful(json)
    ensures RecvMany(json, Frames(json, vs) + later, |vs|) == Ok((vs, later))
  {
    hide Recv, Frame;
    if vs == [] {
      assert Frames(json, vs) + later == later;
    } else {
      var rest := Frames(json, vs[1..]) + later;
      assert Frames(json, vs) + later == Frame(json, vs[0]) + rest;
      FrameRoundTrip(json, vs[0], rest);
      StreamRoundTrip(json, vs[1..], later);
      assert vs == [vs[0]] + vs[1..];
    }
  }

  // ---- a cut frame is not ---------------------------------------------------------------

  lemma {:induction false} ValueOfPrefix(digits: string, k: nat)
    requires AllDigits(digits) && k <= |digits|
    ensures Value(digits[..k]) <= Value(digits)
  {
    if k < |digits| {
      ValueOfPrefix(digits[..|digits| - 1], k);
      assert digits[..|digits| - 1][..k] == digits[..k];
    } else {
      assert digits[..k] == digits;
    }
  }

  /** The stream ends somewhere inside the header line, its newline not seen. */
  lemma CutHeaderLine(digits: string, k: nat)
    requires AllDigits(digits) && Value(digits) < USIZE_LIMIT
    requires 0 < k <= |LengthHeader(digits)|
    ensures IsAscii(LengthHeader(digits)[..k])
    ensures RecvHeaders(Bytes(LengthHeader(digits)[..k]), None)
         == Err(if k == 15 || k == 16 then InvalidData else UnexpectedEof)
  {
    hide Utf8Decode, TrimEol, Trim, ParseUsize, LineEnd, Bytes, Value;
    HeaderIsAscii(digits);
    var line := LengthHeader(digits)[..k];
    assert forall i :: 0 <= i < k ==> line[i] == (LengthHeader(digits) + "\r\n")[i];
    assert Bytes(line + "") + [] == Bytes(line) by { assert line + "" == line; }
    assert '\n' !in line && '\r' !in line by {
      assert forall i :: 0 <= i < 16 ==> (CONTENT_LENGTH + " ")[i] != '\n' && (CONTENT_LENGTH + " ")[i] != '\r';
      assert forall i :: 16 <= i < k ==> IsDigit(LengthHeader(digits)[i]);
    }
    HeaderStep(line, "", [], None);
    if k == 15 {
      assert line == CONTENT_LENGTH;
      assert line[15..] == "";
      BlankLength();
    } else if k > 15 {
      var cut := digits[..k - 16];
      assert line == LengthHeader(cut);
      LengthLineParses(cut);
      ValueOfPrefix(digits, k - 16);
    }
  }

  lemma BlankLength()
    ensures ParseUsize(Trim("")) == None
  {
  }

  /**
   * No strict prefix of a frame is ever taken for a message. It is reported as a closed stream, save for the two
   * cuts right after the header's colon and right after the space, which are reported as malformed.
   */
  lemma CutFrameIsNeverRead<V(!new)>(json: Codec<V>, v: V, k: nat)
    requires Faithful(json) && k < |Frame(json, v)|
    ensures Recv(json, Frame(json, v)[..k]) == Err(if k == 15 || k == 16 then InvalidData else UnexpectedEof)
  {
    hide RecvHeaders, Utf8Decode, TrimEol, Trim, ParseUsize, LineEnd;
    var body := json.encode(v);
    assert json.decode(body) == Some(v) && 0 < |body| < USIZE_LIMIT;
    var digits := Dec(|body|);
    var line := LengthHeader(digits);
    HeaderIsAscii(digits);
    ValueOfDec(|body|);
    LengthLineParses(digits);
    var frame := Frame(json, v);
    var n := |line|;
    if k == 0 {
      assert RecvHeaders([], None) == Err(UnexpectedEof) by { NothingLeft(None); }
    } else if k <= n {
      CutHeaderLine(digits, k);
      assert frame[..k] == Bytes(line[..k]);
    } else if k == n + 1 {
      HeaderStep(line, "\r", [], None);
      NothingLeft(Some(|body|));
      assert frame[..k] == Bytes(line + "\r") + [];
    } else {
      var rest := frame[n + 2..k];
      HeaderStep(line, "\r\n", rest, None);
      assert frame[..k] == Bytes(line + "\r\n") + rest;
      CutAfterHeaderLine(json, v, k);
    }
  }

  lemma NothingLeft(length: Option<nat>)
    ensures RecvHeaders([], length) == Err(UnexpectedEof)
  {
  }

  lemma CutAfterHeaderLine<V(!new)>(json: Codec<V>, v: V, k: nat)
    requires Faithful(json)
    requires |LengthHeader(Dec(|json.encode(v)|))| + 2 <= k < |Frame(json, v)|
    ensures var length := |json.encode(v)|;
            var r := RecvHeaders(Frame(json, v)[|LengthHeader(Dec(length))| + 2..k], Some(length));
            r == Err(UnexpectedEof) || (r.Ok? && r.value.0 == length && |r.value.1| < length)
  {
    hide RecvHeaders, Utf8Decode, TrimEol, Trim, ParseUsize, LineEnd;
    var body := json.encode(v);
    assert json.decode(body) == Some(v) && 0 < |body|;
    var line := LengthHeader(Dec(|body|));
    HeaderIsAscii(Dec(|body|));
    var frame := Frame(json, v);
    var n := |line|;
    var rest := frame[n + 2..k];
    if k == n + 2 {
      NothingLeft(Some(|body|));
    } else if k == n + 3 {
      assert rest == Bytes("" + "\r") + [];
      HeaderStep("", "\r", [], Some(|body|));
    } else {
      assert frame == Bytes(line + "\r\n") + (Bytes("" + "\r\n") + body);
      assert rest == Bytes("" + "\r\n") + body[..k - n - 4];
      HeaderStep("", "\r\n", body[..k - n - 4], Some(|body|));
    }
  }

  // ---- the two header readers -----------------------------------------------------------

  function SplitCrlf(s: string): (parts: seq<string>)
    ensures parts != []
  {
    if s == [] then [""]
    else if "\r\n" <= s then [""] + SplitCrlf(s[2..])
    else var parts := SplitCrlf(s[1..]); [[s[0]] + parts[0]] + parts[1..]
  }

  /** `parse_content_length`: the first Content-Length line decides. */
  function ParseContentLength(headers: string): Result<nat, IoError> {
    FirstLength(SplitCrlf(headers))
  }

  function FirstLength(lines: seq<string>): Result<nat, IoError> {
    if lines == [] then Err(InvalidData)
    else if StartsWith(lines[0], CONTENT_LENGTH) then
      match ParseUsize(Trim(lines[0][|CONTENT_LENGTH|..]))
      case None => Err(InvalidData)
      case Some(n) => Ok(n)
    else FirstLength(lines[1..])
  }

  predicate HeaderLine(line: string) {
    line != [] && IsAscii(line) && '\r' !in line && '\n' !in line
  }

  /** A header part as it stands on the wire. */
  function Block(lines: seq<string>): string {
    if lines == [] then "\r\n" else lines[0] + "\r\n" + Block(lines[1..])
  }

  /** What each Content-Length line says, in order; None for one that is not a number. */
  function Declared(lines: seq<string>): seq<Option<nat>> {
    if lines == [] then []
    else (if StartsWith(lines[0], CONTENT_LENGTH) then [ParseUsize(Trim(lines[0][|CONTENT_LENGTH|..]))] else [])
         + Declared(lines[1..])
  }

  function FirstDeclared(said: seq<Option<nat>>): Result<nat, IoError> {
    if said == [] || said[0].None? then Err(InvalidData) else Ok(said[0].value)
  }

  function LastDeclared(said: seq<Option<nat>>, length: Option<nat>): Result<nat, IoError> {
    if None in said then Err(InvalidData)
    else
      var last := if said == [] then length else said[|said| - 1];
      if last.None? then Err(InvalidData) else Ok(last.value)
  }

  /** A length read off the header part, and the stream after it. */
  function WithRest(length: Result<nat, IoError>, rest: seq<Byte>): Result<(nat, seq<Byte>), IoError> {
    match length
    case Ok(n) => Ok((n, rest))
    case Err(e) => Err(e)
  }

  lemma {:induction false} SplitCrlfLine(line: string, rest: string)
    requires '\r' !in line
    ensures SplitCrlf(line + "\r\n" + rest) == [line] + SplitCrlf(rest)
  {
    var s := line + "\r\n" + rest;
    if line == [] {
      assert s[2..] == rest && "\r\n" <= s;
    } else {
      assert s[0] == line[0] && s[1..] == line[1..] + "\r\n" + rest;
      SplitCrlfLine(line[1..], rest);
      assert line == [line[0]] + line[1..];
    }
  }

  lemma {:induction false} SplitBlock(lines: seq<string>)
    requires forall l :: l in lines ==> HeaderLine(l)
    ensures SplitCrlf(Block(lines)) == lines + ["", ""]
  {
    if lines == [] {
      assert SplitCrlf("\r\n") == [""] + SplitCrlf("\r\n"[2..]) == ["", ""];
    } else {
      assert HeaderLine(lines[0]);
      SplitCrlfLine(lines[0], Block(lines[1..]));
      SplitBlock(lines[1..]);
      assert lines == [lines[0]] + lines[1..];
    }
  }

  lemma {:induction false} FirstLengthIsFirstDeclared(lines: seq<string>)
    ensures FirstLength(lines + ["", ""]) == FirstDeclared(Declared(lines))
  {
    hide Trim, ParseUsize;
    if lines == [] {
      var blank := ["", ""];
      assert lines + blank == blank && blank[1..] == [""] && blank[1..][1..] == [];
    } else {
      assert (lines + ["", ""])[1..] == lines[1..] + ["", ""];
      FirstLengthIsFirstDeclared(lines[1..]);
    }
  }

  lemma {:induction false} RecvTakesLastDeclared(lines: seq<string>, rest: seq<Byte>, length: Option<nat>)
    requires forall l :: l in lines ==> HeaderLine(l)
    ensures IsAscii(Block(lines))
    ensures RecvHeaders(Bytes(Block(lines)) + rest, length) == WithRest(LastDeclared(Declared(lines), length), rest)
  {
    hide RecvHeaders, Trim, ParseUsize, Bytes;
    if lines == [] {
      HeaderStep("", "\r\n", rest, length);
      assert "" + "\r\n" == Block(lines);
    } else {
      assert HeaderLine(lines[0]);
      var line, tail := lines[0], lines[1..];
      var said := Declared(tail);
      var n := if StartsWith(line, CONTENT_LENGTH) then ParseUsize(Trim(line[|CONTENT_LENGTH|..])) else None;
      if n.Some? {
        RecvTakesLastDeclared(tail, rest, n);
        assert LastDeclared([n] + said, length) == LastDeclared(said, n);
      } else {
        RecvTakesLastDeclared(tail, rest, length);
        assert [] + said == said;
      }
      HeaderStep(line, "\r\n", Bytes(Block(tail)) + rest, length);
      BytesOfLine(line, tail, rest);
    }
  }

  lemma BytesOfLine(line: string, tail: seq<string>, rest: seq<Byte>)
    requires IsAscii(line) && IsAscii(Block(tail))
    ensures IsAscii(line + "\r\n") && IsAscii(line + "\r\n" + Block(tail))
    ensures Bytes(line + "\r\n" + Block(tail)) + rest == Bytes(line + "\r\n") + (Bytes(Block(tail)) + rest)
  {
  }

  /**
   * On any header part of well-formed lines one reader takes the first Content-Length and the other the last, so
   * they agree exactly when nothing is declared, or the first is malformed, or all are numbers and the two ends match.
   */
  lemma HeaderReadersAgree(lines: seq<string>, rest: seq<Byte>)
    requires forall l :: l in lines ==> HeaderLine(l)
    ensures IsAscii(Block(lines))
    ensures var said := Declared(lines);
            (ParseContentLength(Block(lines)) ==
              match RecvHeaders(Bytes(Block(lines)) + rest, None) case Ok((n, _)) => Ok(n) case Err(e) => Err(e))
            <==> (said == [] || said[0] == None || (None !in said && said[0] == said[|said| - 1]))
  {
    hide RecvHeaders, Trim, ParseUsize, Bytes;
    RecvTakesLastDeclared(lines, rest, None);
    SplitBlock(lines);
    FirstLengthIsFirstDeclared(lines);
  }
}

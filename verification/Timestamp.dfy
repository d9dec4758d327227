/**
 * Lease timestamps: the hand-written parser and printer against the grammar of section 5.6 of
 * RFC 3339. A string is its UTF-8 byte sequence, one char per byte; no byte above 127 is ever accepted.
 */
module Timestamp {
  import opened Wrappers
  import opened Text
  import opened Decimal
  import opened Calendar

  // ---- the parser, as written -----------------------------------------------------------

  function ParseDigits(s: string): Option<nat> {
    if AllDigits(s) then Some(Value(s)) else None
  }

  /** First position at or after `i` that is not a digit. */
  function SkipDigits(s: string, i: nat): (j: nat)
    requires i <= |s|
    ensures i <= j <= |s|
    decreases |s| - i
  {
    if i < |s| && IsDigit(s[i]) then SkipDigits(s, i + 1) else i
  }

  /** Where the zone starts: after the seconds and the optional fraction. */
  function ZoneIndex(s: string): (r: Option<nat>)
    requires |s| >= 20
    ensures r.Some? ==> 19 <= r.value <= |s|
  {
    if s[19] != '.' then Some(19)
    else if SkipDigits(s, 20) == 20 then None
    else Some(SkipDigits(s, 20))
  }

  function ZoneOffset(s: string, idx: nat): Option<int>
    requires idx <= |s|
  {
    if idx == |s| then None
    else if s[idx] == 'Z' || s[idx] == 'z' then (if idx + 1 == |s| then Some(0) else None)
    else if s[idx] == '+' || s[idx] == '-' then
      if idx + 6 != |s| || s[idx + 3] != ':' then None
      else
        var oh, om := ParseDigits(s[idx + 1..idx + 3]), ParseDigits(s[idx + 4..idx + 6]);
        if oh.None? || om.None? then None
        else
          var total := oh.value * 3600 + om.value * 60;
          Some(if s[idx] == '+' then total else -total)
    else None
  }

  function SecondsOf(c: Civil, hour: int, minute: int, second: int): int {
    DaysFromCivil(c) * 86400 + hour * 3600 + minute * 60 + second
  }

  function ParseFields(s: string): Option<int>
    requires |s| >= 20
  {
    var year, month, day := ParseDigits(s[0..4]), ParseDigits(s[5..7]), ParseDigits(s[8..10]);
    var hour, minute, second := ParseDigits(s[11..13]), ParseDigits(s[14..16]), ParseDigits(s[17..19]);
    if year.None? || month.None? || day.None? || hour.None? || minute.None? || second.None? then None
    else if s[4] != '-' || s[7] != '-' || (s[10] != 'T' && s[10] != 't') || s[13] != ':' || s[16] != ':' then None
    else
      var c := Civil(year.value, month.value, day.value);
      if !ValidCivil(c) || hour.value > 23 || minute.value > 59 || second.value > 59 then None
      else Some(SecondsOf(c, hour.value, minute.value, second.value))
  }

  function ParseTimestamp(s: string): Option<int> {
    if |s| < 20 then None
    else
      var local, idx := ParseFields(s), ZoneIndex(s);
      if local.None? || idx.None? then None
      else
        var offset := ZoneOffset(s, idx.value);
        if offset.None? then None else Some(local.value - offset.value)
  }

  method Rfc3339ToUnix(s: string) returns (r: Option<int>)
    ensures r == ParseTimestamp(s)
  {
    if |s| < 20 {
      return None;
    }
    var year := ParseDigits(s[0..4]);
    if year.None? || s[4] != '-' {
      return None;
    }
    var month := ParseDigits(s[5..7]);
    if month.None? || s[7] != '-' {
      return None;
    }
    var day := ParseDigits(s[8..10]);
    if day.None? || (s[10] != 'T' && s[10] != 't') {
      return None;
    }
    var hour := ParseDigits(s[11..13]);
    if hour.None? || s[13] != ':' {
      return None;
    }
    var minute := ParseDigits(s[14..16]);
    if minute.None? || s[16] != ':' {
      return None;
    }
    var second := ParseDigits(s[17..19]);
    if second.None? {
      return None;
    }
    var idx := 19;
    if s[idx] == '.' {
      idx := idx + 1;
      var start := idx;
      while idx < |s| && IsDigit(s[idx])
        invariant start <= idx <= |s|
        invariant SkipDigits(s, start) == SkipDigits(s, idx)
      {
        idx := idx + 1;
      }
      if idx == start {
        return None;
      }
    }
    if idx >= |s| {
      return None;
    }
    var offset := ZoneOffset(s, idx);
    if offset.None? {
      return None;
    }
    var c := Civil(year.value, month.value, day.value);
    if !(1 <= c.month <= 12) || !(1 <= c.day <= DaysInMonth(c.year, c.month)) {
      return None;
    }
    if hour.value > 23 || minute.value > 59 || second.value > 59 {
      return None;
    }
    return Some(SecondsOf(c, hour.value, minute.value, second.value) - offset.value);
  }

  // ---- the grammar ----------------------------------------------------------------------

  datatype Zone = Zulu(letter: char) | Offset(sign: char, hours: nat, minutes: nat)

  datatype Stamp = Stamp(date: Civil, separator: char, hour: int, minute: int, second: int, fraction: string, zone: Zone)

  /** Offsets may say anything two digits can, and second 60 is not a second. */
  predicate WellFormed(st: Stamp) {
    && 0 <= st.date.year <= 9999 && ValidCivil(st.date)
    && (st.separator == 'T' || st.separator == 't')
    && 0 <= st.hour <= 23 && 0 <= st.minute <= 59 && 0 <= st.second <= 59
    && AllDigits(st.fraction)
    && match st.zone
       case Zulu(z) => z == 'Z' || z == 'z'
       case Offset(sign, h, m) => (sign == '+' || sign == '-') && h <= 99 && m <= 99
  }

  function ZoneText(z: Zone): string {
    match z
    case Zulu(letter) => [letter]
    case Offset(sign, h, m) => [sign] + Pad(h, 2) + ":" + Pad(m, 2)
  }

  function HeadText(st: Stamp): string
    requires WellFormed(st)
  {
    Pad(st.date.year, 4) + "-" + Pad(st.date.month, 2) + "-" + Pad(st.date.day, 2) + [st.separator]
    + Pad(st.hour, 2) + ":" + Pad(st.minute, 2) + ":" + Pad(st.second, 2)
  }

  function FractionText(fraction: string): string {
    if fraction == [] then [] else "." + fraction
  }

  function StampText(st: Stamp): string
    requires WellFormed(st)
  {
    HeadText(st) + (FractionText(st.fraction) + ZoneText(st.zone))
  }

  /** The instant a stamp denotes, its fraction dropped. */
  function Instant(st: Stamp): int {
    SecondsOf(st.date, st.hour, st.minute, st.second) -
    match st.zone
    case Zulu(_) => 0
    case Offset(sign, h, m) => (if sign == '+' then 1 else -1) * (h * 3600 + m * 60)
  }

  // ---- everything the grammar describes is accepted, with its meaning --------------------

  lemma FieldLayout(y: string, mo: string, d: string, sep: char, h: string, mi: string, se: string, tail: string)
    requires |y| == 4 && |mo| == |d| == |h| == |mi| == |se| == 2
    ensures var s := y + "-" + mo + "-" + d + [sep] + h + ":" + mi + ":" + se + tail;
      && |s| == 19 + |tail| && s[0..4] == y && s[5..7] == mo && s[8..10] == d
      && s[11..13] == h && s[14..16] == mi && s[17..19] == se
      && s[4] == '-' && s[7] == '-' && s[10] == sep && s[13] == ':' && s[16] == ':'
  {
  }

  lemma HeadLayout(st: Stamp, tail: string)
    requires WellFormed(st)
    ensures var s := HeadText(st) + tail;
      && |HeadText(st)| == 19 && |s| >= 19
      && s[0..4] == Pad(st.date.year, 4) && s[5..7] == Pad(st.date.month, 2) && s[8..10] == Pad(st.date.day, 2)
      && s[11..13] == Pad(st.hour, 2) && s[14..16] == Pad(st.minute, 2) && s[17..19] == Pad(st.second, 2)
      && s[4] == '-' && s[7] == '-' && s[10] == st.separator && s[13] == ':' && s[16] == ':'
  {
    hide Pad;
    PadFits(st.date.year);
    PadFits(st.date.month);
    PadFits(st.date.day);
    PadFits(st.hour);
    PadFits(st.minute);
    PadFits(st.second);
    FieldLayout(Pad(st.date.year, 4), Pad(st.date.month, 2), Pad(st.date.day, 2), st.separator,
                Pad(st.hour, 2), Pad(st.minute, 2), Pad(st.second, 2), tail);
  }

  lemma HeadParses(st: Stamp, tail: string)
    requires WellFormed(st) && tail != []
    ensures var s := HeadText(st) + tail;
      |s| >= 20 && ParseFields(s) == Some(SecondsOf(st.date, st.hour, st.minute, st.second))
  {
    HeadLayout(st, tail);
    hide Pad, DaysInMonth, DaysFromCivil, HeadText;
    ValueOfPad(st.date.year, 4);
    ValueOfPad(st.date.month, 2);
    ValueOfPad(st.date.day, 2);
    ValueOfPad(st.hour, 2);
    ValueOfPad(st.minute, 2);
    ValueOfPad(st.second, 2);
  }

  lemma {:induction false} SkipRun(s: string, i: nat, j: nat)
    requires i <= j <= |s| && AllDigits(s[i..j]) && (j == |s| || !IsDigit(s[j]))
    ensures SkipDigits(s, i) == j
    decreases j - i
  {
    if i < j {
      assert s[i] == s[i..j][0];
      assert s[i + 1..j] == s[i..j][1..];
      SkipRun(s, i + 1, j);
    }
  }

  lemma ZoneParses(s: string, z: Zone)
    requires match z
             case Zulu(l) => l == 'Z' || l == 'z'
             case Offset(sign, h, m) => (sign == '+' || sign == '-') && h <= 99 && m <= 99
    requires |s| >= |ZoneText(z)| && s[|s| - |ZoneText(z)|..] == ZoneText(z)
    ensures ZoneOffset(s, |s| - |ZoneText(z)|) == Some(
      match z
      case Zulu(_) => 0
      case Offset(sign, h, m) => (if sign == '+' then 1 else -1) * (h * 3600 + m * 60))
    ensures !IsDigit(ZoneText(z)[0]) && ZoneText(z)[0] != '.'
  {
    hide Pad, Value;
    var idx := |s| - |ZoneText(z)|;
    assert s[idx] == ZoneText(z)[0];
    if z.Offset? {
      PadFits(z.hours);
      PadFits(z.minutes);
      ValueOfPad(z.hours, 2);
      ValueOfPad(z.minutes, 2);
      assert |ZoneText(z)| == 6;
      assert s[idx + 1..idx + 3] == ZoneText(z)[1..3] == Pad(z.hours, 2);
      assert s[idx + 3] == ZoneText(z)[3] == ':';
      assert s[idx + 4..idx + 6] == ZoneText(z)[4..6] == Pad(z.minutes, 2);
    }
  }

  lemma StampParses(st: Stamp)
    requires WellFormed(st)
    ensures ParseTimestamp(StampText(st)) == Some(Instant(st))
  {
    hide HeadText, ParseFields, SecondsOf, ZoneOffset, Pad, ValidCivil;
    var s := StampText(st);
    var tail := FractionText(st.fraction) + ZoneText(st.zone);
    HeadParses(st, tail);
    HeadLayout(st, tail);
    var idx := |s| - |ZoneText(st.zone)|;
    assert s[idx..] == ZoneText(st.zone);
    ZoneParses(s, st.zone);
    assert s[19..] == tail;
    assert s[19] == tail[0];
    assert s[idx] == s[idx..][0];
    if st.fraction != [] {
      assert s[20..idx] == tail[1..idx - 19] == st.fraction;
      SkipRun(s, 20, idx);
    } else {
      assert idx == 19;
    }
  }

  // ---- nothing else is accepted ---------------------------------------------------------

  lemma {:induction false} SkippedAreDigits(s: string, i: nat)
    requires i <= |s|
    ensures AllDigits(s[i..SkipDigits(s, i)])
    decreases |s| - i
  {
    if i < |s| && IsDigit(s[i]) {
      SkippedAreDigits(s, i + 1);
      var j := SkipDigits(s, i);
      assert s[i..j] == [s[i]] + s[i + 1..j];
    }
  }

  lemma ZoneOf(s: string, idx: nat) returns (z: Zone)
    requires idx <= |s| && ZoneOffset(s, idx).Some?
    ensures s[idx..] == ZoneText(z)
    ensures match z
            case Zulu(l) => l == 'Z' || l == 'z'
            case Offset(sign, h, m) => (sign == '+' || sign == '-') && h <= 99 && m <= 99
  {
    if s[idx] == 'Z' || s[idx] == 'z' {
      z := Zulu(s[idx]);
    } else {
      var oh, om := s[idx + 1..idx + 3], s[idx + 4..idx + 6];
      PadOfValue(oh, 2);
      PadOfValue(om, 2);
      ValueBound(oh);
      ValueBound(om);
      assert Pow10(2) == 100;
      z := Offset(s[idx], Value(oh), Value(om));
      assert s[idx..] == [s[idx]] + oh + ":" + om;
    }
  }

  lemma HeadOf(s: string) returns (st: Stamp)
    requires |s| >= 20 && ParseFields(s).Some?
    ensures WellFormed(st) && st.fraction == [] && st.zone == Zulu('Z')
    ensures s[..19] == HeadText(st)
  {
    hide DaysInMonth, DaysFromCivil;
    var c := Civil(Value(s[0..4]), Value(s[5..7]), Value(s[8..10]));
    st := Stamp(c, s[10], Value(s[11..13]), Value(s[14..16]), Value(s[17..19]), [], Zulu('Z'));
    ValueBound(s[0..4]);
    assert Pow10(4) == 10000;
    PadOfValue(s[0..4], 4);
    PadOfValue(s[5..7], 2);
    PadOfValue(s[8..10], 2);
    PadOfValue(s[11..13], 2);
    PadOfValue(s[14..16], 2);
    PadOfValue(s[17..19], 2);
    hide Pad, Value, ValidCivil;
    assert s[..19] == s[0..4] + "-" + s[5..7] + "-" + s[8..10] + [s[10]] + s[11..13] + ":" + s[14..16] + ":" + s[17..19];
  }

  lemma StampOf(s: string) returns (st: Stamp)
    requires ParseTimestamp(s).Some?
    ensures WellFormed(st) && StampText(st) == s
  {
    hide HeadText, ParseFields, ValidCivil, ZoneOffset, ZoneText;
    st := HeadOf(s);
    var idx := ZoneIndex(s).value;
    var z := ZoneOf(s, idx);
    var fraction := [];
    if s[19] == '.' {
      fraction := s[20..idx];
      SkippedAreDigits(s, 20);
    }
    var head := HeadText(st);
    st := st.(fraction := fraction, zone := z);
    assert HeadText(st) == head by {
      HeadTextIgnoresTail(st);
    }
    assert s[19..idx] == FractionText(fraction);
    assert s == s[..19] + (s[19..idx] + s[idx..]);
  }

  lemma HeadTextIgnoresTail(st: Stamp)
    requires WellFormed(st)
    ensures WellFormed(st.(fraction := [], zone := Zulu('Z')))
      && HeadText(st) == HeadText(st.(fraction := [], zone := Zulu('Z')))
  {
  }

  /** The parser accepts exactly the grammar, with the grammar's meaning. */
  lemma ParserIsTheGrammar(s: string, t: int)
    ensures ParseTimestamp(s) == Some(t) <==> exists st :: WellFormed(st) && StampText(st) == s && Instant(st) == t
  {
    hide StampText, Instant, WellFormed, ParseTimestamp;
    if ParseTimestamp(s).Some? {
      var st := StampOf(s);
      StampParses(st);
    }
    forall st | WellFormed(st) && StampText(st) == s ensures ParseTimestamp(s) == Some(Instant(st)) {
      StampParses(st);
    }
  }

  // ---- the printers ---------------------------------------------------------------------

  /** The format string both printers share. */
  function Render(c: Civil, hour: int, minute: int, second: int): string
    requires hour >= 0 && minute >= 0 && second >= 0
  {
    PadSigned(c.year, 4) + "-" + PadSigned(c.month, 2) + "-" + PadSigned(c.day, 2) + "T"
    + Pad(hour, 2) + ":" + Pad(minute, 2) + ":" + Pad(second, 2) + "Z"
  }

  /** `unix_to_rfc3339` of the lease module. */
  function PrintTimestamp(t: int): string {
    var secs := t % 86400;
    Render(CivilFromDays(t / 86400), secs / 3600, secs % 3600 / 60, secs % 60)
  }

  /** `iso8601` of the telemetry module, for instants since the epoch. */
  function Iso8601(secs: nat): string {
    var inDay := secs % 86400;
    Render(DaysToYmd(TruncDiv(secs, 86400)), inDay / 3600, inDay / 60 % 60, inDay % 60)
  }

  lemma PrintersAgree(secs: nat)
    ensures Iso8601(secs) == PrintTimestamp(secs)
  {
    hide CivilFromDays, DaysToYmd, Render;
    CalendarsAgree(secs / 86400);
    var inDay := secs % 86400;
    MinutesAgree(inDay);
  }

  lemma MinutesAgree(inDay: int)
    requires 0 <= inDay < 86400
    ensures inDay / 60 % 60 == inDay % 3600 / 60
  {
    var h, r := inDay / 3600, inDay % 3600;
    assert inDay == 3600 * h + r;
    assert inDay / 60 == 60 * h + r / 60;
  }

  /** The stamp that the printer writes out, when four digits are enough for the year. */
  function StampAt(t: int): Stamp {
    var secs := t % 86400;
    Stamp(CivilFromDays(t / 86400), 'T', secs / 3600, secs % 3600 / 60, secs % 60, [], Zulu('Z'))
  }

  lemma ClockFits(secs: int)
    requires 0 <= secs < 86400
    ensures 0 <= secs / 3600 <= 23 && 0 <= secs % 3600 / 60 <= 59 && 0 <= secs % 60 <= 59
    ensures secs / 3600 * 3600 + secs % 3600 / 60 * 60 + secs % 60 == secs
  {
    var h, r := secs / 3600, secs % 3600;
    var m := r / 60;
    assert secs == 3600 * h + r && r == 60 * m + r % 60;
    assert secs % 60 == r % 60 by {
      assert secs == 60 * (60 * h + m) + r % 60;
    }
  }

  lemma StampAtDenotes(t: int)
    ensures ValidCivil(StampAt(t).date) && Instant(StampAt(t)) == t
    ensures 0 <= StampAt(t).date.year <= 9999 ==> WellFormed(StampAt(t)) && StampText(StampAt(t)) == PrintTimestamp(t)
  {
    hide CivilFromDays, DaysFromCivil, DaysInMonth, Pad;
    var days, secs := t / 86400, t % 86400;
    DaysRoundTrip(days);
    ClockFits(secs);
    assert t == days * 86400 + secs;
    if 0 <= StampAt(t).date.year <= 9999 {
      assert StampText(StampAt(t)) == HeadText(StampAt(t)) + "Z";
    }
  }

  // 0000-01-01T00:00:00Z and 9999-12-31T23:59:59Z
  const FIRST_SECOND := -62167219200
  const LAST_SECOND := 253402300799

  lemma FourDigitDays()
    ensures DaysFromCivil(Civil(0, 1, 1)) == -719528 && DaysFromCivil(Civil(9999, 12, 31)) == 2932896
  {
    hide DaysFromCivil;
    var first, last := Civil(0, 1, 1), Civil(9999, 12, 31);
    DaysFromCivilIsMarchDays(first);
    DaysFromCivilIsMarchDays(last);
    assert ToMarch(first) == March(-1, 399, 10, 1) && ToMarch(last) == March(24, 399, 9, 31);
  }

  lemma FourDigitYears(t: int)
    ensures 0 <= StampAt(t).date.year <= 9999 <==> FIRST_SECOND <= t <= LAST_SECOND
  {
    var days := t / 86400;
    var c := CivilFromDays(days);
    var first, last := Civil(0, 1, 1), Civil(9999, 12, 31);
    hide CivilFromDays, DaysFromCivil;
    FourDigitDays();
    DaysRoundTrip(days);
    DayOrderIsCivilOrder(c, first);
    DayOrderIsCivilOrder(last, c);
  }

  lemma LongYearIsRejected(t: int)
    requires !(0 <= StampAt(t).date.year <= 9999)
    ensures ParseTimestamp(PrintTimestamp(t)).None?
  {
    hide CivilFromDays, DaysFromCivil, Pad, PadSigned, ValidCivil;
    var s := PrintTimestamp(t);
    var year := StampAt(t).date.year;
    var y := PadSigned(year, 4);
    SignedYear(year);
    if |s| >= 20 {
      if year < 0 {
        assert s[0..4][0] == y[0] == '-';
        assert !AllDigits(s[0..4]);
      } else {
        assert s[4] == y[4];
        assert IsDigit(s[4]);
      }
    }
  }

  lemma SignedYear(year: int)
    requires !(0 <= year <= 9999)
    ensures var y := PadSigned(year, 4);
      if year < 0 then |y| >= 1 && y[0] == '-' else |y| >= 5 && IsDigit(y[4])
  {
    if year >= 0 {
      PadFits(year);
    }
  }

  /** Printing then parsing returns the instant exactly for the years 0 to 9999; every other print is rejected. */
  lemma PrintedTimestampParses(t: int)
    ensures ParseTimestamp(PrintTimestamp(t)) == Some(t) <==> FIRST_SECOND <= t <= LAST_SECOND
    ensures !(FIRST_SECOND <= t <= LAST_SECOND) ==> ParseTimestamp(PrintTimestamp(t)).None?
  {
    hide ParseTimestamp, PrintTimestamp, StampAt, StampText;
    FourDigitYears(t);
    StampAtDenotes(t);
    if FIRST_SECOND <= t <= LAST_SECOND {
      StampParses(StampAt(t));
    } else {
      LongYearIsRejected(t);
    }
  }

  lemma ClockIsUnique(c: Civil, hour: int, minute: int, second: int)
    requires ValidCivil(c) && 0 <= hour <= 23 && 0 <= minute <= 59 && 0 <= second <= 59
    ensures var t := SecondsOf(c, hour, minute, second);
      StampAt(t) == Stamp(c, 'T', hour, minute, second, [], Zulu('Z'))
  {
    hide CivilFromDays, DaysFromCivil, DaysInMonth;
    CivilRoundTrip(c);
    var secs := hour * 3600 + minute * 60 + second;
    var t := DaysFromCivil(c) * 86400 + secs;
    assert t / 86400 == DaysFromCivil(c) && t % 86400 == secs;
    assert secs / 3600 == hour && secs % 3600 == minute * 60 + second;
    assert secs % 60 == second by {
      assert secs == 60 * (hour * 60 + minute) + second;
    }
  }

  /** Parsing then printing returns the string exactly when it was in the printer's own shape. */
  lemma ParsedTimestampPrints(s: string)
    requires ParseTimestamp(s).Some?
    ensures PrintTimestamp(ParseTimestamp(s).value) == s <==> |s| == 20 && s[10] == 'T' && s[19] == 'Z'
  {
    hide ParseTimestamp, PrintTimestamp, StampAt, SecondsOf, HeadText;
    var t := ParseTimestamp(s).value;
    var st := StampOf(s);
    StampParses(st);
    HeadLayout(st, FractionText(st.fraction) + ZoneText(st.zone));
    if |s| == 20 && s[10] == 'T' && s[19] == 'Z' {
      assert |FractionText(st.fraction) + ZoneText(st.zone)| == 1;
      assert s[19] == (FractionText(st.fraction) + ZoneText(st.zone))[0];
      assert st.fraction == [] && st.zone == Zulu('Z');
      ClockIsUnique(st.date, st.hour, st.minute, st.second);
      assert StampAt(t) == st;
      StampAtDenotes(t);
    } else if PrintTimestamp(t) == s {
      PrintedTimestampParses(t);
      FourDigitYears(t);
      StampAtDenotes(t);
      PrintedShape(t);
    }
  }

  lemma PrintedShape(t: int)
    requires 0 <= StampAt(t).date.year <= 9999 && WellFormed(StampAt(t)) && StampText(StampAt(t)) == PrintTimestamp(t)
    ensures var s := PrintTimestamp(t); |s| == 20 && s[10] == 'T' && s[19] == 'Z'
  {
    hide CivilFromDays, HeadText, PrintTimestamp;
    HeadLayout(StampAt(t), "Z");
    assert StampText(StampAt(t)) == HeadText(StampAt(t)) + "Z";
  }

  // ---- expiry ---------------------------------------------------------------------------

  /** Soft expiry: no stamp, or a stamp that does not parse, never expires. */
  predicate IsExpired(expiresAt: Option<string>, now: string) {
    && expiresAt.Some? && ParseTimestamp(now).Some? && ParseTimestamp(expiresAt.value).Some?
    && ParseTimestamp(now).value > ParseTimestamp(expiresAt.value).value
  }

  predicate EarlierStamp(a: Stamp, b: Stamp) {
    Earlier(a.date, b.date) || (a.date == b.date && (a.hour < b.hour
    || (a.hour == b.hour && (a.minute < b.minute || (a.minute == b.minute && a.second < b.second)))))
  }

  /** For UTC stamps a lease expires exactly when the calendar and clock reading has gone past it. */
  lemma ExpiryIsCivilOrder(expiry: Stamp, now: Stamp)
    requires WellFormed(expiry) && WellFormed(now) && expiry.zone.Zulu? && now.zone.Zulu?
    ensures IsExpired(Some(StampText(expiry)), StampText(now)) <==> EarlierStamp(expiry, now)
  {
    hide ParseTimestamp, StampText, DaysFromCivil, DaysInMonth;
    StampParses(expiry);
    StampParses(now);
    DayOrderIsCivilOrder(expiry.date, now.date);
    DayOrderIsCivilOrder(now.date, expiry.date);
  }

  /** A lease has expired exactly when both strings are stamps and the second denotes a later instant. */
  lemma ExpiryExactly(expiresAt: Option<string>, now: string)
    ensures IsExpired(expiresAt, now) <==>
            expiresAt.Some?
            && exists e, n :: WellFormed(e) && WellFormed(n) && StampText(e) == expiresAt.value && StampText(n) == now
                              && Instant(e) < Instant(n)
  {
    hide ParseTimestamp, StampText, Instant, WellFormed;
    if IsExpired(expiresAt, now) {
      var e := StampOf(expiresAt.value);
      var n := StampOf(now);
      StampParses(e);
      StampParses(n);
    }
    forall e, n | WellFormed(e) && WellFormed(n) && expiresAt == Some(StampText(e)) && StampText(n) == now
      ensures IsExpired(expiresAt, now) <==> Instant(e) < Instant(n)
    {
      StampParses(e);
      StampParses(n);
    }
  }

  /** How far the clock of a stamp is ahead of UTC. */
  function Ahead(z: Zone): int {
    match z
    case Zulu(_) => 0
    case Offset(sign, h, m) => if sign == '+' then h * 3600 + m * 60 else -(h * 3600 + m * 60)
  }

  /** What was parsed, moved on by the offset and printed, is the date and the time that the stamp shows. */
  lemma OffsetIsLocalTime(st: Stamp)
    requires WellFormed(st)
    ensures ParseTimestamp(StampText(st)).Some?
    ensures WellFormed(Stamp(st.date, 'T', st.hour, st.minute, st.second, [], Zulu('Z')))
    ensures PrintTimestamp(ParseTimestamp(StampText(st)).value + Ahead(st.zone)) ==
            StampText(Stamp(st.date, 'T', st.hour, st.minute, st.second, [], Zulu('Z')))
  {
    hide ParseTimestamp, StampText, SecondsOf, PrintTimestamp, StampAt;
    StampParses(st);
    ClockIsUnique(st.date, st.hour, st.minute, st.second);
    StampAtDenotes(SecondsOf(st.date, st.hour, st.minute, st.second));
  }
}

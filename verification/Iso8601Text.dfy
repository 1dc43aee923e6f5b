/**
 The timestamp printer and parser of Iso8601: the profile of section 5.6 of RFC 3339 with the
 separators and tails the source also takes.
 */
module Iso8601Text {
  import opened Words
  import opened Iso8601Calendar

  const BUFFER_LEN: nat := 21

  // ------------------------------------------------------------------ decimal fields

  function Digit(v: nat): char
    requires v < 10
  {
    '0' + v as char
  }

  predicate IsDigit(c: char) { '0' <= c <= '9' }

  /** `%0<width>u`: at least `width` digits, more when the value needs them. */
  function Printed(v: nat, width: nat): string
    decreases v + width
  {
    if v < 10 && width <= 1 then [Digit(v)]
    else Printed(v / 10, if width == 0 then 0 else width - 1) + [Digit(v % 10)]
  }

  /** `%0<width>d`. */
  function PrintedSigned(v: int, width: nat): string {
    if v >= 0 then Printed(v, width) else "-" + Printed(-v, if width == 0 then 0 else width - 1)
  }

  function Pow10(n: nat): nat { if n == 0 then 1 else 10 * Pow10(n - 1) }

  /** What `digits` returns: the value of `count` digits at `at`, if they all are digits. */
  function DigitsFrom(text: string, at: nat, count: nat): (v: Option<nat>)
    requires at <= |text|
    ensures v.Some? ==> at + count <= |text| && v.value < Pow10(count)
  {
    if count == 0 then Some(0)
    else
      var before := DigitsFrom(text, at, count - 1);
      if before.None? || !IsDigit(At(text, at + count - 1)) then None
      else Some(before.value * 10 + (At(text, at + count - 1) - '0') as nat)
  }

  method Digits(text: string, at: nat, count: nat) returns (v: Option<nat>)
    requires at <= |text|
    ensures v == DigitsFrom(text, at, count)
  {
    var sum := 0;
    for i := 0 to count
      invariant DigitsFrom(text, at, i) == Some(sum)
    {
      var c := At(text, at + i);
      if c < '0' || c > '9' {
        GapStays(text, at, i + 1, count);
        return None;
      }
      sum := sum * 10 + (c - '0') as nat;
    }
    return Some(sum);
  }

  lemma {:induction false} GapStays(text: string, at: nat, n: nat, count: nat)
    requires at <= |text| && n <= count && DigitsFrom(text, at, n).None?
    ensures DigitsFrom(text, at, count).None?
  {
    if n < count { GapStays(text, at, n, count - 1); }
  }

  /** Reading a field and printing it are inverse: `count` digits are read as `v` exactly when
      they are what prints `v`. */
  lemma {:induction false} FieldIsItsPrint(text: string, at: nat, count: nat, v: nat)
    requires at <= |text| && count > 0
    ensures DigitsFrom(text, at, count) == Some(v)
      <==> v < Pow10(count) && at + count <= |text| && text[at..at + count] == Printed(v, count)
  {
    if count == 1 {
      OneDigit(text, at, v);
    } else {
      FieldIsItsPrint(text, at, count - 1, v / 10);
      if at + count <= |text| { OneMoreDigit(text, at, count, v); }
    }
  }

  lemma OneMoreDigit(text: string, at: nat, count: nat, v: nat)
    requires count > 1 && at + count <= |text|
    requires DigitsFrom(text, at, count - 1) == Some(v / 10)
      <==> v / 10 < Pow10(count - 1) && text[at..at + count - 1] == Printed(v / 10, count - 1)
    ensures DigitsFrom(text, at, count) == Some(v)
      <==> v < Pow10(count) && text[at..at + count] == Printed(v, count)
  {
    var head, last := text[at..at + count - 1], text[at + count - 1];
    assert text[at..at + count] == head + [last];
    LastApart(head, last, Printed(v / 10, count - 1), Digit(v % 10));
    if DigitsFrom(text, at, count) == Some(v) {
      assert DigitsFrom(text, at, count - 1).value * 10 + (last - '0') as nat == v;
    }
  }

  lemma LastApart(a: string, x: char, b: string, y: char)
    ensures a + [x] == b + [y] <==> a == b && x == y
  {
    if a + [x] == b + [y] {
      assert (a + [x])[..|a|] == a && (b + [y])[..|b|] == b;
      assert (a + [x])[|a|] == x && (b + [y])[|b|] == y;
    }
  }

  lemma OneDigit(text: string, at: nat, v: nat)
    requires at <= |text|
    ensures DigitsFrom(text, at, 1) == Some(v) <==> v < 10 && at < |text| && text[at..at + 1] == [Digit(v)]
  {
    assert DigitsFrom(text, at, 0) == Some(0);
    if at < |text| { assert text[at..at + 1] == [text[at]]; }
  }

  lemma {:induction false} PrintedWidth(v: nat, width: nat)
    requires width > 0 && v < Pow10(width)
    ensures |Printed(v, width)| == width
  {
    if width > 1 { PrintedWidth(v / 10, width - 1); }
  }

  // -------------------------------------------------------------------------- printer

  /** The format string of the source, applied. */
  function Text(c: Civil): string {
    PrintedSigned(c.year, 4) + "-" + Printed(c.month, 2) + "-" + Printed(c.day, 2) + "T"
    + Printed(c.hour, 2) + ":" + Printed(c.minute, 2) + ":" + Printed(c.second, 2) + "Z"
  }

  /** `snprintf`: as much of the text as fits before a terminator, and the length it wanted. */
  method Snprintf(out: array<char>, cap: nat, text: string) returns (n: nat)
    requires 0 < cap <= out.Length
    modifies out
    ensures n == |text|
    ensures var kept := Min(|text|, cap - 1);
      out[..kept] == text[..kept] && out[kept] == '\0' && out[kept + 1..] == old(out[kept + 1..])
  {
    var kept := Min(|text|, cap - 1);
    for i := 0 to kept
      invariant forall k :: 0 <= k < i ==> out[k] == text[k]
      invariant forall k :: i <= k < out.Length ==> out[k] == old(out[k])
    {
      out[i] := text[i];
    }
    out[kept] := '\0';
    return |text|;
  }

  /** `format`, with `cap` bytes at `out`, which may be null. */
  method Format(epoch: int, out: array?<char>, cap: nat) returns (ok: bool)
    requires out != null ==> cap <= out.Length
    modifies out
    ensures ok <==> out != null && cap >= BUFFER_LEN && epoch >= 0 && |Text(FromEpoch(epoch))| < cap
    ensures ok ==>
      var t := Text(FromEpoch(epoch));
      out[..|t|] == t && out[|t|] == '\0' && out[|t| + 1..] == old(out[|t| + 1..])
    ensures out != null && (cap < BUFFER_LEN || epoch < 0) ==> out[..] == old(out[..])
  {
    if out == null || cap < BUFFER_LEN { return false; }
    if epoch < 0 { return false; }
    var text := Text(FromEpoch(epoch));
    var n := Snprintf(out, cap, text);
    assert text[..|text|] == text;
    return 0 < n < cap;
  }

  // --------------------------------------------------------------------------- parser

  /** `parse`, as the source reads it off. */
  function Parsed(text: string): Option<int> {
    var year := DigitsFrom(text, 0, 4);
    if year.None? || At(text, 4) != '-' then None else
    var mon := DigitsFrom(text, 5, 2);
    if mon.None? || At(text, 7) != '-' then None else
    var day := DigitsFrom(text, 8, 2);
    if day.None? || !Separator(At(text, 10)) then None else
    var hh := DigitsFrom(text, 11, 2);
    if hh.None? || At(text, 13) != ':' then None else
    var mm := DigitsFrom(text, 14, 2);
    if mm.None? || At(text, 16) != ':' then None else
    var ss := DigitsFrom(text, 17, 2);
    if ss.None? then None else
    if !(1 <= mon.value <= 12 && 1 <= day.value <= 31) then None else
    if hh.value > 23 || mm.value > 59 || ss.value > 60 then None else
    var c := Civil(year.value, mon.value, day.value, hh.value, mm.value, if ss.value == 60 then 59 else ss.value);
    var offset := OffsetAt19(text);
    if offset.None? then None else Some(ToEpoch(c) - offset.value)
  }

  predicate Separator(c: char) { c == 'T' || c == 't' || c == ' ' }

  /** Seconds east of UTC that the tail asks for. */
  function OffsetAt19(text: string): Option<int>
    requires 19 <= |text|
  {
    var tail := At(text, 19);
    if tail == '+' || tail == '-' then
      var oh := DigitsFrom(text, 20, 2);
      if oh.None? then None else
      var om := DigitsFrom(text, if At(text, 22) == ':' then 23 else 22, 2);
      if om.None? then None else
      var offset := oh.value * 3600 + om.value * 60;
      Some(if tail == '+' then offset else -offset)
    else if tail != '\0' && tail != 'Z' && tail != 'z' then None
    else Some(0)
  }

  /** The last part of `parse`. */
  method Offset(t: string) returns (offset: Option<int>)
    requires 19 <= |t|
    ensures offset == OffsetAt19(t)
  {
    var tail := At(t, 19);
    if tail == '+' || tail == '-' {
      var oh := Digits(t, 20, 2);
      if oh.None? { return None; }
      var om := Digits(t, if At(t, 22) == ':' then 23 else 22, 2);
      if om.None? { return None; }
      var seconds: int := oh.value * 3600 + om.value * 60;
      return Some(if tail == '+' then seconds else -seconds);
    } else if tail != '\0' && tail != 'Z' && tail != 'z' {
      return None;
    }
    return Some(0);
  }

  /** `parse`; null is None. Every character is read through At, so never past the
      terminator. */
  method Parse(text: Option<string>) returns (epoch: Option<int>)
    ensures epoch == if text.None? then None else Parsed(text.value)
  {
    if text.None? { return None; }
    var t := text.value;
    var year := Digits(t, 0, 4);
    if year.None? || At(t, 4) != '-' { return None; }
    var mon := Digits(t, 5, 2);
    if mon.None? || At(t, 7) != '-' { return None; }
    var day := Digits(t, 8, 2);
    if day.None? { return None; }
    var sep := At(t, 10);
    if sep != 'T' && sep != 't' && sep != ' ' { return None; }
    var hh := Digits(t, 11, 2);
    if hh.None? || At(t, 13) != ':' { return None; }
    var mm := Digits(t, 14, 2);
    if mm.None? || At(t, 16) != ':' { return None; }
    var ss := Digits(t, 17, 2);
    if ss.None? { return None; }
    if mon.value < 1 || mon.value > 12 || day.value < 1 || day.value > 31 { return None; }
    if hh.value > 23 || mm.value > 59 || ss.value > 60 { return None; }
    var c := Civil(year.value, mon.value, day.value, hh.value, mm.value, if ss.value == 60 then 59 else ss.value);
    var value := ToEpoch(c);
    var offset := Offset(t);
    if offset.None? { return None; }
    return Some(value - offset.value);
  }

  // ------------------------------------------------------------- the accepted language

  /** How a timestamp may end. What follows the part that is read is ignored. */
  datatype Zone =
    | Bare
    | Zulu(mark: char, ignored: string)
    | Shifted(east: bool, hours: nat, colon: bool, minutes: nat, ignored: string)

  predicate ZoneOk(z: Zone) {
    match z
    case Bare => true
    case Zulu(mark, _) => mark == 'Z' || mark == 'z' || mark == '\0'
    case Shifted(_, hours, _, minutes, _) => hours < 100 && minutes < 100
  }

  function ZoneText(z: Zone): string {
    match z
    case Bare => ""
    case Zulu(mark, ignored) => [mark] + ignored
    case Shifted(east, hours, colon, minutes, ignored) =>
      [if east then '+' else '-'] + Printed(hours, 2) + (if colon then ":" else "") + Printed(minutes, 2) + ignored
  }

  function ZoneSeconds(z: Zone): int {
    match z
    case Bare => 0
    case Zulu(_, _) => 0
    case Shifted(east, hours, _, minutes, _) => (hours * 60 + minutes) * if east then 60 else -60
  }

  /** The fields a timestamp may carry: any day up to 31 in any month, and a leap second. */
  predicate StampOk(c: Civil, sep: char) {
    && 0 <= c.year < 10000 && 1 <= c.month <= 12 && 1 <= c.day <= 31
    && c.hour < 24 && c.minute < 60 && c.second <= 60 && sep in "Tt "
  }

  function Stamp(c: Civil, sep: char): string
    requires c.year >= 0
  {
    Printed(c.year, 4) + "-" + Printed(c.month, 2) + "-" + Printed(c.day, 2) + [sep]
    + Printed(c.hour, 2) + ":" + Printed(c.minute, 2) + ":" + Printed(c.second, 2)
  }

  /** A leap second is read as the second before it. */
  function Settled(c: Civil): Civil { if c.second == 60 then c.(second := 59) else c }

  /** The fields of a stamp, each at its place. */
  predicate Carries(text: string, c: Civil, sep: char)
    requires c.year >= 0
  {
    && |text| >= 19
    && text[0..4] == Printed(c.year, 4) && text[4] == '-' && text[5..7] == Printed(c.month, 2) && text[7] == '-'
    && text[8..10] == Printed(c.day, 2) && text[10] == sep && text[11..13] == Printed(c.hour, 2) && text[13] == ':'
    && text[14..16] == Printed(c.minute, 2) && text[16] == ':' && text[17..19] == Printed(c.second, 2)
  }

  lemma StampWidths(c: Civil, sep: char)
    requires StampOk(c, sep)
    ensures |Printed(c.year, 4)| == 4 && |Printed(c.month, 2)| == 2 && |Printed(c.day, 2)| == 2
    ensures |Printed(c.hour, 2)| == 2 && |Printed(c.minute, 2)| == 2 && |Printed(c.second, 2)| == 2
    ensures |Stamp(c, sep)| == 19
  {
    assert Pow10(2) == 100 && Pow10(4) == 10000;
    PrintedWidth(c.year, 4);
    PrintedWidth(c.month, 2);
    PrintedWidth(c.day, 2);
    PrintedWidth(c.hour, 2);
    PrintedWidth(c.minute, 2);
    PrintedWidth(c.second, 2);
  }

  lemma Joined(a: string, b: string, c: string, d: string, e: string, f: string, sep: char, text: string)
    requires |a| == 4 && |b| == |c| == |d| == |e| == |f| == 2 && |text| == 19
    ensures text == a + "-" + b + "-" + c + [sep] + d + ":" + e + ":" + f <==> (
      && text[0..4] == a && text[4] == '-' && text[5..7] == b && text[7] == '-' && text[8..10] == c
      && text[10] == sep && text[11..13] == d && text[13] == ':' && text[14..16] == e && text[16] == ':'
      && text[17..19] == f)
  {
    assert text == text[0..4] + [text[4]] + text[5..7] + [text[7]] + text[8..10] + [text[10]]
      + text[11..13] + [text[13]] + text[14..16] + [text[16]] + text[17..19];
  }

  lemma StampCarries(text: string, c: Civil, sep: char)
    requires StampOk(c, sep) && |text| >= 19
    ensures Carries(text, c, sep) <==> text[..19] == Stamp(c, sep)
  {
    StampWidths(c, sep);
    var head := text[..19];
    assert head[0..4] == text[0..4] && head[5..7] == text[5..7] && head[8..10] == text[8..10];
    assert head[11..13] == text[11..13] && head[14..16] == text[14..16] && head[17..19] == text[17..19];
    Joined(Printed(c.year, 4), Printed(c.month, 2), Printed(c.day, 2), Printed(c.hour, 2), Printed(c.minute, 2),
      Printed(c.second, 2), sep, head);
  }

  lemma CarriedFieldsAreRead(text: string, c: Civil, sep: char)
    requires StampOk(c, sep) && Carries(text, c, sep)
    ensures DigitsFrom(text, 0, 4) == Some(c.year) && DigitsFrom(text, 5, 2) == Some(c.month)
    ensures DigitsFrom(text, 8, 2) == Some(c.day) && DigitsFrom(text, 11, 2) == Some(c.hour)
    ensures DigitsFrom(text, 14, 2) == Some(c.minute) && DigitsFrom(text, 17, 2) == Some(c.second)
  {
    assert Pow10(2) == 100 && Pow10(4) == 10000;
    FieldIsItsPrint(text, 0, 4, c.year);
    FieldIsItsPrint(text, 5, 2, c.month);
    FieldIsItsPrint(text, 8, 2, c.day);
    FieldIsItsPrint(text, 11, 2, c.hour);
    FieldIsItsPrint(text, 14, 2, c.minute);
    FieldIsItsPrint(text, 17, 2, c.second);
  }

  lemma TailIsRead(text: string, z: Zone)
    requires ZoneOk(z) && |text| >= 19 && text[19..] == ZoneText(z)
    ensures OffsetAt19(text) == Some(ZoneSeconds(z))
  {
    var rest := text[19..];
    match z
    case Bare =>
      assert rest == "" ==> |text| == 19;
    case Zulu(mark, ignored) =>
      assert rest[0] == text[19];
    case Shifted(east, hours, colon, minutes, ignored) =>
      ShiftIsRead(text, east, hours, colon, minutes, ignored);
  }

  lemma ShiftIsRead(text: string, east: bool, hours: nat, colon: bool, minutes: nat, ignored: string)
    requires hours < 100 && minutes < 100
    requires |text| >= 19 && text[19..] == ZoneText(Shifted(east, hours, colon, minutes, ignored))
    ensures |text| >= 22 && text[19] == (if east then '+' else '-')
    ensures DigitsFrom(text, 20, 2) == Some(hours)
    ensures (At(text, 22) == ':') == colon
    ensures (if colon then 23 else 22) <= |text|
    ensures DigitsFrom(text, if colon then 23 else 22, 2) == Some(minutes)
  {
    assert Pow10(2) == 100;
    PrintedWidth(hours, 2);
    PrintedWidth(minutes, 2);
    var h, m, at := Printed(hours, 2), Printed(minutes, 2), if colon then 23 else 22;
    var rest := text[19..];
    assert forall i :: 0 <= i < |rest| ==> text[19 + i] == rest[i];
    assert text[20..22] == rest[1..3] == h;
    assert text[at..at + 2] == rest[at - 19..at - 17] == m;
    FieldIsItsPrint(text, 20, 2, hours);
    FieldIsItsPrint(text, at, 2, minutes);
    if !colon { assert text[22] == m[0] == Digit(minutes / 10); }
  }

  /** Everything in the language is accepted, with the value its fields and tail stand for. */
  lemma LanguageIsAccepted(c: Civil, sep: char, z: Zone)
    requires StampOk(c, sep) && ZoneOk(z)
    ensures var value := Parsed(Stamp(c, sep) + ZoneText(z));
      value.Some? && value.value == ToEpoch(Settled(c)) - ZoneSeconds(z)
  {
    var stamp, tail := Stamp(c, sep), ZoneText(z);
    var text := stamp + tail;
    assert |stamp| == 19 by { StampWidths(c, sep); }
    assert text[..19] == stamp && text[19..] == tail;
    AcceptedByParts(text, c, sep, z);
  }

  lemma AcceptedByParts(text: string, c: Civil, sep: char, z: Zone)
    requires StampOk(c, sep) && ZoneOk(z) && |text| >= 19
    requires text[..19] == Stamp(c, sep) && text[19..] == ZoneText(z)
    ensures Parsed(text).Some? && Parsed(text).value == ToEpoch(Settled(c)) - ZoneSeconds(z)
  {
    var offset := ZoneSeconds(z);
    assert OffsetAt19(text) == Some(offset) by { TailIsRead(text, z); }
    assert Carries(text, c, sep) by { StampCarries(text, c, sep); }
    CarriedFieldsAreRead(text, c, sep);
  }

  lemma ReadFieldsAreCarried(text: string, c: Civil, sep: char)
    requires StampOk(c, sep) && |text| >= 19
    requires DigitsFrom(text, 0, 4) == Some(c.year) && DigitsFrom(text, 5, 2) == Some(c.month)
    requires DigitsFrom(text, 8, 2) == Some(c.day) && DigitsFrom(text, 11, 2) == Some(c.hour)
    requires DigitsFrom(text, 14, 2) == Some(c.minute) && DigitsFrom(text, 17, 2) == Some(c.second)
    requires text[4] == text[7] == '-' && text[10] == sep && text[13] == text[16] == ':'
    ensures text[..19] == Stamp(c, sep)
  {
    FieldIsItsPrint(text, 0, 4, c.year);
    FieldIsItsPrint(text, 5, 2, c.month);
    FieldIsItsPrint(text, 8, 2, c.day);
    FieldIsItsPrint(text, 11, 2, c.hour);
    FieldIsItsPrint(text, 14, 2, c.minute);
    FieldIsItsPrint(text, 17, 2, c.second);
    StampCarries(text, c, sep);
  }

  lemma ReadTail(text: string) returns (z: Zone)
    requires |text| >= 19 && OffsetAt19(text).Some?
    ensures ZoneOk(z) && text[19..] == ZoneText(z)
  {
    var tail := At(text, 19);
    if tail == '+' || tail == '-' {
      z := ReadShift(text);
    } else if |text| == 19 {
      z := Bare;
    } else {
      z := Zulu(tail, text[20..]);
      assert text[19..] == [tail] + text[20..];
    }
  }

  lemma ReadShift(text: string) returns (z: Zone)
    requires |text| > 19 && (text[19] == '+' || text[19] == '-') && OffsetAt19(text).Some?
    ensures ZoneOk(z) && text[19..] == ZoneText(z)
  {
    assert Pow10(2) == 100;
    var colon := At(text, 22) == ':';
    var at := if colon then 23 else 22;
    var hours, minutes := DigitsFrom(text, 20, 2).value, DigitsFrom(text, at, 2).value;
    FieldIsItsPrint(text, 20, 2, hours);
    FieldIsItsPrint(text, at, 2, minutes);
    z := Shifted(text[19] == '+', hours, colon, minutes, text[at + 2..]);
    assert text[22..at] == if colon then ":" else "";
    assert text[19..] == [text[19]] + text[20..22] + text[22..at] + text[at..at + 2] + text[at + 2..];
  }

  /** And nothing else is: an accepted text is a stamp and a tail of the language. */
  lemma AcceptedIsInTheLanguage(text: string) returns (c: Civil, sep: char, z: Zone)
    requires Parsed(text).Some?
    ensures StampOk(c, sep) && ZoneOk(z) && text == Stamp(c, sep) + ZoneText(z)
  {
    assert Pow10(4) == 10000;
    sep := At(text, 10);
    c := Civil(DigitsFrom(text, 0, 4).value, DigitsFrom(text, 5, 2).value, DigitsFrom(text, 8, 2).value,
      DigitsFrom(text, 11, 2).value, DigitsFrom(text, 14, 2).value, DigitsFrom(text, 17, 2).value);
    ReadFieldsAreCarried(text, c, sep);
    z := ReadTail(text);
    assert text == text[..19] + text[19..];
  }

  // ----------------------------------------------------------------------- round trip

  /** The first second of year 10000. */
  const YEAR_10000: nat := 253402300800

  lemma YearOfEpoch(epoch: nat)
    requires epoch < YEAR_10000
    ensures 0 <= FromEpoch(epoch).year < 10000
  {
    var z := epoch / 86400;
    assert z < 2932897;
    YearIsPositive(z);
    DaysRoundTrip(z);
    var Date(y, m, d) := CivilFromDays(z);
    ClosedForm(y, m, d);
    var yr := if m <= 2 then y - 1 else y;
    if yr >= 9999 { EraDaysGrow(9999, yr); }
    assert FromEpoch(epoch).year == S32(y);
  }

  /** What is printed is read back as the same second, and fits the smallest buffer the printer
      takes, for every second of the years 1970 to 9999. */
  lemma PrintedIsParsed(epoch: nat)
    requires epoch < YEAR_10000
    ensures Parsed(Text(FromEpoch(epoch))) == Some(epoch)
    ensures |Text(FromEpoch(epoch))| == BUFFER_LEN - 1
  {
    var c := FromEpoch(epoch);
    EpochRoundTrip(epoch);
    YearOfEpoch(epoch);
    StampWidths(c, 'T');
    assert Text(c) == Stamp(c, 'T') + ZoneText(Zulu('Z', ""));
    LanguageIsAccepted(c, 'T', Zulu('Z', ""));
  }

  // --------------------------------------------------------------------- time zones

  function FromGsmLocal(local: Civil, tzQuarterHours: int): int {
    ToEpoch(local) - tzQuarterHours * 15 * 60
  }

  /** A quarter-hour zone as a numeric offset, `+HH:MM` or `-HH:MM`. */
  function ZoneOfQuarters(q: int): Zone {
    var n := if q < 0 then -q else q;
    Shifted(q >= 0, n / 4, true, n % 4 * 15, "")
  }

  lemma QuartersInSeconds(q: int)
    requires -128 <= q < 128
    ensures ZoneOk(ZoneOfQuarters(q)) && ZoneSeconds(ZoneOfQuarters(q)) == q * 15 * 60
  {
    var n := if q < 0 then -q else q;
    var h, m := n / 4, n % 4;
    assert n == 4 * h + m;
    assert h * 60 + m * 15 == 15 * n;
  }

  /** The parser and the modem's clock agree on local time in every zone a signed byte can name. */
  lemma GsmClockAgreesWithParser(c: Civil, sep: char, q: int)
    requires StampOk(c, sep) && c.second < 60 && -128 <= q < 128
    ensures var value := Parsed(Stamp(c, sep) + ZoneText(ZoneOfQuarters(q)));
      value.Some? && value.value == FromGsmLocal(c, q)
  {
    QuartersInSeconds(q);
    LocalTimeIsParsed(c, sep, q, ZoneOfQuarters(q));
  }

  lemma LocalTimeIsParsed(c: Civil, sep: char, q: int, z: Zone)
    requires StampOk(c, sep) && c.second < 60 && ZoneOk(z) && ZoneSeconds(z) == q * 15 * 60
    ensures var value := Parsed(Stamp(c, sep) + ZoneText(z)); value.Some? && value.value == FromGsmLocal(c, q)
  {
    LanguageIsAccepted(c, sep, z);
    assert Settled(c) == c;
  }
}

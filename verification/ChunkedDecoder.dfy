/**
 The incremental decoder for Transfer-Encoding: chunked, and the byte-at-a-time reference
 that any way of driving it has to agree with.
 */
module Chunked {
  import opened Words

  const CR: Byte := 13
  const LF: Byte := 10
  const SPACE: Byte := 32
  const TAB: Byte := 9
  const SEMICOLON: Byte := 59

  datatype Phase = Size | Extension | Data | DataEnd | Trailer | Done | Invalid

  datatype Decoder = Decoder(phase: Phase, remaining: Word32, sizeDigit: bool, lineEmpty: bool)

  const START := Decoder(Size, 0, false, true)

  function HexValue(c: Byte): int {
    if 48 <= c <= 57 then c - 48
    else if 97 <= c <= 102 then c - 97 + 10
    else if 65 <= c <= 70 then c - 65 + 10
    else -1
  }

  /** The digits of base sixteen as characters, in either case. */
  predicate Writes(c: Byte, v: nat) {
    if v < 10 then c == '0' as int + v
    else v < 16 && (c == 'a' as int + (v - 10) || c == 'A' as int + (v - 10))
  }

  /** The digits of a size are those, and nothing else is one. */
  lemma DigitsAreHex(c: Byte, v: nat)
    ensures HexValue(c) == v <==> Writes(c, v)
  {}

  function LineEnded(d: Decoder): Decoder {
    if !d.sizeDigit then d.(phase := Invalid)
    else if d.remaining == 0 then d.(phase := Trailer, lineEmpty := true)
    else d.(phase := Data)
  }

  function Feed(d: Decoder, c: Byte): Decoder {
    match d.phase
    case Size =>
      if c == CR || c == SPACE || c == TAB then d
      else if c == LF then LineEnded(d)
      else if c == SEMICOLON then d.(phase := if d.sizeDigit then Extension else Invalid)
      else if HexValue(c) < 0 || d.remaining > 0x0FFF_FFFF then d.(phase := Invalid)
      else d.(remaining := d.remaining * 16 + HexValue(c), sizeDigit := true)
    case Extension => if c == LF then LineEnded(d) else d
    case DataEnd =>
      if c == CR then d
      else Decoder(if c == LF then Size else Invalid, 0, false, d.lineEmpty)
    case Trailer =>
      if c == CR then d
      else if c == LF then d.(phase := if d.lineEmpty then Done else Trailer, lineEmpty := true)
      else d.(lineEmpty := false)
    case _ => d
  }

  function Consumed(d: Decoder, n: Word32): Decoder {
    if d.phase != Data then d
    else
      var left := if n < d.remaining then d.remaining - n else 0;
      d.(remaining := left, phase := if left == 0 then DataEnd else Data)
  }

  // ------------------------------------------------- byte-at-a-time reference

  /** One byte off the wire: payload passes through, everything else is framing. */
  function Eat(d: Decoder, c: Byte): (Decoder, seq<Byte>) {
    if d.phase == Data then (Consumed(d, 1), [c]) else (Feed(d, c), [])
  }

  /** The whole stream, one byte after the other: final state and payload. */
  function Decode(d: Decoder, s: seq<Byte>): (Decoder, seq<Byte>)
    decreases |s|
  {
    if s == [] then (d, [])
    else
      var (d1, out1) := Eat(d, s[0]);
      var (d2, out2) := Decode(d1, s[1..]);
      (d2, out1 + out2)
  }

  /** A Data phase always has something left to pass through. */
  predicate Sound(d: Decoder) { d.phase == Data ==> d.remaining > 0 }

  lemma {:induction false} SoundKept(d: Decoder, s: seq<Byte>)
    requires Sound(d)
    ensures Sound(Decode(d, s).0)
    decreases |s|
  {
    if s != [] { SoundKept(Eat(d, s[0]).0, s[1..]); }
  }

  /** Decoding in pieces is decoding at once. */
  lemma {:induction false} DecodeConcat(d: Decoder, a: seq<Byte>, b: seq<Byte>)
    ensures Decode(d, a + b) ==
      (Decode(Decode(d, a).0, b).0, Decode(d, a).1 + Decode(Decode(d, a).0, b).1)
    decreases |a|
  {
    if a == [] {
      assert a + b == b;
      assert [] + Decode(d, b).1 == Decode(d, b).1;
    } else {
      assert (a + b)[1..] == a[1..] + b;
      DecodeConcat(Eat(d, a[0]).0, a[1..], b);
      var o1, o2 := Eat(d, a[0]).1, Decode(Eat(d, a[0]).0, a[1..]);
      assert o1 + (o2.1 + Decode(o2.0, b).1) == (o1 + o2.1) + Decode(o2.0, b).1;
    }
  }

  lemma DecodeOne(d: Decoder, c: Byte)
    ensures Decode(d, [c]) == Eat(d, c)
  {
    assert [c][1..] == [];
    assert Eat(d, c).1 + [] == Eat(d, c).1;
  }

  lemma DecodeSnoc(d: Decoder, s: seq<Byte>, c: Byte)
    ensures Decode(d, s + [c]) == (Eat(Decode(d, s).0, c).0, Decode(d, s).1 + Eat(Decode(d, s).0, c).1)
  {
    DecodeConcat(d, s, [c]);
    DecodeOne(Decode(d, s).0, c);
  }

  /** A byte that yields nothing leaves the rest to say what comes out. */
  lemma SkipOne(d: Decoder, s: seq<Byte>)
    requires s != [] && Eat(d, s[0]).1 == []
    ensures Decode(d, s) == Decode(Eat(d, s[0]).0, s[1..])
  {
    var r := Decode(Eat(d, s[0]).0, s[1..]);
    assert [] + r.1 == r.1;
  }

  /** Moving payload in bulk and reporting it once is the same as byte by byte. */
  lemma {:induction false} BulkIsByteByByte(d: Decoder, s: seq<Byte>)
    requires d.phase == Data && 0 < |s| <= d.remaining
    ensures Decode(d, s) == (Consumed(d, |s|), s)
    decreases |s|
  {
    assert s == [s[0]] + s[1..];
    if |s| == 1 {
      DecodeOne(d, s[0]);
    } else {
      BulkIsByteByByte(Consumed(d, 1), s[1..]);
    }
  }

  /** Done and Invalid are final, and yield nothing more. */
  lemma {:induction false} FinalPhases(d: Decoder, s: seq<Byte>)
    requires d.phase == Done || d.phase == Invalid
    ensures Decode(d, s) == (d, [])
  {
    if s != [] {
      FinalPhases(d, s[1..]);
      SkipOne(d, s);
    }
  }

  // ---------------------------------------------------------------- the object

  class ChunkedDecoder {
    var phase: Phase
    var remaining: Word32
    var sizeDigit: bool
    var lineEmpty: bool

    ghost function View(): Decoder
      reads this
    {
      Decoder(phase, remaining, sizeDigit, lineEmpty)
    }

    constructor ()
      ensures View() == START
    {
      phase, remaining, sizeDigit, lineEmpty := Size, 0, false, true;
    }

    method Reset()
      modifies this
      ensures View() == START
    {
      phase := Size;
      remaining := 0;
      sizeDigit := false;
      lineEmpty := true;
    }

    method Feed(c: Byte)
      modifies this
      ensures View() == (if old(phase) == Data then old(View()) else Eat(old(View()), c).0)
    {
      match phase {
        case Size =>
          if c == CR || c == SPACE || c == TAB { return; }
          if c == LF { EndSizeLine(); return; }
          if c == SEMICOLON {
            phase := if sizeDigit then Extension else Invalid;
            return;
          }
          var v := HexValue(c);
          if v < 0 || remaining > 0x0FFF_FFFF { phase := Invalid; return; }
          remaining := remaining * 16 + v;
          sizeDigit := true;
        case Extension =>
          if c == LF { EndSizeLine(); }
        case DataEnd =>
          if c == CR { return; }
          phase := if c == LF then Size else Invalid;
          remaining := 0;
          sizeDigit := false;
        case Trailer =>
          if c == CR { return; }
          if c == LF {
            if lineEmpty { phase := Done; }
            lineEmpty := true;
            return;
          }
          lineEmpty := false;
        case _ =>
      }
    }

    method EndSizeLine()
      modifies this
      ensures View() == LineEnded(old(View()))
    {
      if !sizeDigit { phase := Invalid; return; }
      if remaining == 0 {
        phase := Trailer;
        lineEmpty := true;
      } else {
        phase := Data;
      }
    }

    method ConsumeData(n: Word32)
      modifies this
      ensures View() == Consumed(old(View()), n)
    {
      if phase != Data { return; }
      remaining := if n < remaining then remaining - n else 0;
      if remaining == 0 { phase := DataEnd; }
    }
  }
}

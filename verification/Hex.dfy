/** Hexadecimal text and the digest comparison of the update pipeline. */
module Hex {
  import opened Words

  predicate IsHex(c: char) { '0' <= c <= '9' || 'a' <= c <= 'f' || 'A' <= c <= 'F' }

  function Nibble(c: char): (v: int)
    ensures -1 <= v < 16 && (v >= 0 <==> IsHex(c))
  {
    if '0' <= c <= '9' then c as int - '0' as int
    else if 'a' <= c <= 'f' then c as int - 'a' as int + 10
    else if 'A' <= c <= 'F' then c as int - 'A' as int + 10
    else -1
  }

  /** Entry v of "0123456789abcdef". */
  function HexDigit(v: nat): char
    requires v < 16
  {
    if v < 10 then '0' + v as char else 'a' + (v - 10) as char
  }

  function ToLower(c: char): char { if 'A' <= c <= 'F' then (c as int + 32) as char else c }

  /** What a sequence of bytes looks like in text. */
  function Text(data: seq<Byte>): (t: string)
    ensures |t| == 2 * |data|
  {
    if data == [] then ""
    else Text(data[..|data| - 1]) + [HexDigit(data[|data| - 1] / 16), HexDigit(data[|data| - 1] % 16)]
  }

  /** The bytes that the leading pairs of hex digits of a text stand for, `bytes` of them at most. */
  function Leading(text: string, bytes: nat): (v: seq<Byte>)
    ensures |v| <= bytes && 2 * |v| <= |text|
  {
    if bytes == 0 then [] else
    var before := Leading(text, bytes - 1);
    if |before| == bytes - 1 && 2 * bytes <= |text| && IsHex(text[2 * bytes - 2]) && IsHex(text[2 * bytes - 1])
    then before + [Nibble(text[2 * bytes - 2]) * 16 + Nibble(text[2 * bytes - 1])]
    else before
  }

  /** `decode`. Either argument may be null. A failed decode has already written the pairs before
      the one it stopped at. */
  method Decode(text: Option<string>, out: array?<Byte>, bytes: nat) returns (ok: bool)
    requires out != null ==> bytes <= out.Length
    modifies out
    ensures text.None? || out == null ==> !ok && (out != null ==> out[..] == old(out[..]))
    ensures text.Some? && out != null ==>
      var v := Leading(text.value, bytes);
      && (ok <==> |v| == bytes && At(text.value, 2 * bytes) == '\0')
      && out[..|v|] == v && out[|v|..] == old(out[|v|..])
  {
    if text.None? || out == null { return false; }
    var t := text.value;
    for i := 0 to bytes
      invariant |Leading(t, i)| == i && out[..i] == Leading(t, i)
      invariant forall k :: i <= k < out.Length ==> out[k] == old(out[k])
    {
      var hi := Nibble(At(t, 2 * i));
      if hi < 0 {
        StopsHere(t, i + 1, bytes);
        return false;
      }
      var lo := Nibble(At(t, 2 * i + 1));
      if lo < 0 {
        StopsHere(t, i + 1, bytes);
        return false;
      }
      out[i] := hi * 16 + lo;
      assert out[..i + 1] == out[..i] + [out[i]];
    }
    return At(t, bytes * 2) == '\0';
  }

  lemma {:induction false} StopsHere(text: string, n: nat, bytes: nat)
    requires n <= bytes && |Leading(text, n)| < n
    ensures Leading(text, bytes) == Leading(text, n)
  {
    if n < bytes { StopsHere(text, n, bytes - 1); }
  }

  /** `encode`, with `cap` characters at `out`. */
  method Encode(data: array?<Byte>, bytes: nat, out: array?<char>, cap: nat) returns (ok: bool)
    requires data != null ==> bytes <= data.Length
    requires out != null ==> cap <= out.Length
    modifies out
    ensures ok <==> data != null && out != null && cap >= 2 * bytes + 1
    ensures !ok && out != null ==> out[..] == old(out[..])
    ensures ok ==>
      && out[..2 * bytes] == Text(data[..bytes]) && out[2 * bytes] == '\0'
      && out[2 * bytes + 1..] == old(out[2 * bytes + 1..])
  {
    if data == null || out == null || cap < bytes * 2 + 1 { return false; }
    for i := 0 to bytes
      invariant out[..2 * i] == Text(data[..i])
      invariant forall k :: 2 * i <= k < out.Length ==> out[k] == old(out[k])
    {
      out[i * 2] := HexDigit(data[i] / 16);
      out[i * 2 + 1] := HexDigit(data[i] % 16);
      assert data[..i + 1][..i] == data[..i];
      assert out[..2 * i + 2] == out[..2 * i] + [out[2 * i], out[2 * i + 1]];
    }
    out[bytes * 2] := '\0';
    return true;
  }

  /** `equal`: no early exit, and true exactly when all the bytes are the same. */
  method Equal(a: array?<Byte>, b: array?<Byte>, bytes: nat) returns (same: bool)
    requires (a != null ==> bytes <= a.Length) && (b != null ==> bytes <= b.Length)
    ensures same <==> a != null && b != null && a[..bytes] == b[..bytes]
  {
    if a == null || b == null { return false; }
    var diff := 0;
    for i := 0 to bytes
      invariant 0 <= diff && (diff == 0 <==> a[..i] == b[..i])
    {
      XorIsZero(a[i], b[i]);
      OrIsZero(diff, Xor(a[i], b[i]));
      diff := Or(diff, Xor(a[i], b[i]));
      assert a[..i + 1] == a[..i] + [a[i]] && b[..i + 1] == b[..i] + [b[i]];
    }
    return diff == 0;
  }

  /** Bitwise exclusive or. */
  function Xor(x: nat, y: nat): nat {
    if x == 0 && y == 0 then 0 else (if x % 2 == y % 2 then 0 else 1) + 2 * Xor(x / 2, y / 2)
  }

  /** Bitwise or. */
  function Or(x: nat, y: nat): nat {
    if x == 0 && y == 0 then 0 else (if x % 2 + y % 2 == 0 then 0 else 1) + 2 * Or(x / 2, y / 2)
  }

  lemma {:induction false} XorIsZero(x: nat, y: nat)
    ensures Xor(x, y) == 0 <==> x == y
  {
    if x != 0 || y != 0 { XorIsZero(x / 2, y / 2); }
  }

  lemma {:induction false} OrIsZero(x: nat, y: nat)
    ensures Or(x, y) == 0 <==> x == y == 0
  {
    if x != 0 || y != 0 { OrIsZero(x / 2, y / 2); }
  }

  // ----------------------------------------------------------------------- round trip

  lemma NibbleOfDigit(v: nat)
    requires v < 16
    ensures Nibble(HexDigit(v)) == v
  {}

  lemma DigitOfNibble(c: char)
    requires IsHex(c)
    ensures HexDigit(Nibble(c)) == ToLower(c)
  {}

  lemma {:induction false} LeadingOfLonger(t: string, u: string, n: nat)
    requires 2 * n <= |t|
    ensures Leading(t + u, n) == Leading(t, n)
  {
    if n > 0 { LeadingOfLonger(t, u, n - 1); }
  }

  /** Encoding and decoding again gives the bytes back, and the decode is accepted. */
  lemma {:induction false} DecodeOfEncode(data: seq<Byte>)
    ensures Leading(Text(data), |data|) == data && At(Text(data), 2 * |data|) == '\0'
  {
    if data != [] {
      var most, last := data[..|data| - 1], data[|data| - 1];
      DecodeOfEncode(most);
      OnePairMore(Text(most), last, |most|);
      assert most + [last] == data;
    }
  }

  lemma OnePairMore(t: string, b: Byte, n: nat)
    requires |t| == 2 * n && |Leading(t, n)| == n
    ensures Leading(t + [HexDigit(b / 16), HexDigit(b % 16)], n + 1) == Leading(t, n) + [b]
  {
    LeadingOfLonger(t, [HexDigit(b / 16), HexDigit(b % 16)], n);
    NibbleOfDigit(b / 16);
    NibbleOfDigit(b % 16);
  }

  function Lowered(t: string): string { seq(|t|, i requires 0 <= i < |t| => ToLower(t[i])) }

  /** And what is decoded encodes to the same text in lower case. */
  lemma {:induction false} EncodeOfDecode(text: string, bytes: nat)
    requires |Leading(text, bytes)| == bytes
    ensures 2 * bytes <= |text| && Text(Leading(text, bytes)) == Lowered(text[..2 * bytes])
  {
    if bytes > 0 {
      var v := Leading(text, bytes);
      var before := Leading(text, bytes - 1);
      assert |before| == bytes - 1;
      EncodeOfDecode(text, bytes - 1);
      var hi, lo := text[2 * bytes - 2], text[2 * bytes - 1];
      PairIsLowered(hi, lo);
      LoweredPair(text, bytes);
      TextGrows(before, Nibble(hi) * 16 + Nibble(lo));
    }
  }

  lemma TextGrows(data: seq<Byte>, b: Byte)
    ensures Text(data + [b]) == Text(data) + [HexDigit(b / 16), HexDigit(b % 16)]
  {
    assert (data + [b])[..|data|] == data;
  }

  lemma PairIsLowered(hi: char, lo: char)
    requires IsHex(hi) && IsHex(lo)
    ensures var b := Nibble(hi) * 16 + Nibble(lo);
      0 <= b < 256 && HexDigit(b / 16) == ToLower(hi) && HexDigit(b % 16) == ToLower(lo)
  {
    SplitByte(Nibble(hi), Nibble(lo));
    DigitOfNibble(hi);
    DigitOfNibble(lo);
  }

  lemma SplitByte(h: nat, l: nat)
    requires h < 16 && l < 16
    ensures 0 <= h * 16 + l < 256 && (h * 16 + l) / 16 == h && (h * 16 + l) % 16 == l
  {}

  lemma LoweredPair(text: string, n: nat)
    requires 0 < n && 2 * n <= |text|
    ensures Lowered(text[..2 * n]) ==
      Lowered(text[..2 * n - 2]) + [ToLower(text[2 * n - 2]), ToLower(text[2 * n - 1])]
  {}

  /** A failed decode leaves the output alone exactly when its first pair is already bad (or
      nothing was asked for). The header promises it for every failure. */
  lemma UntouchedOnlyIfFirstPairIsBad(text: string, bytes: nat)
    requires bytes > 0
    ensures Leading(text, bytes) == [] <==> !(|text| >= 2 && IsHex(text[0]) && IsHex(text[1]))
  {
    if !(|text| >= 2 && IsHex(text[0]) && IsHex(text[1])) {
      assert Leading(text, 1) == [];
      StopsHere(text, 1, bytes);
    } else {
      FirstPairStays(text, bytes);
    }
  }

  lemma {:induction false} FirstPairStays(text: string, bytes: nat)
    requires bytes > 0 && |text| >= 2 && IsHex(text[0]) && IsHex(text[1])
    ensures Leading(text, bytes) != []
  {
    if bytes > 1 { FirstPairStays(text, bytes - 1); }
    assert Leading(text, 0) == [];
  }
}

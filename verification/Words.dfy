/** Machine words shared by the models: bytes, 32-bit clocks and counters, and the
    few facts about remainders that wrap-around arithmetic needs. */
module Words {
  const WORD: int := 0x1_0000_0000

  type Byte = b: int | 0 <= b < 256
  type Word32 = w: int | 0 <= w < 0x1_0000_0000

  datatype Option<+T> = None | Some(value: T)

  function Min(a: int, b: int): int { if a <= b then a else b }

  /** `if (n < cap) n++;` */
  function Bump(n: nat, cap: nat): nat { if n < cap then n + 1 else n }

  /** A value as an unsigned 32-bit word. */
  function U32(x: int): Word32 { if 0 <= x < WORD then x else x % WORD }

  /** Unsigned 32-bit subtraction, as in `now - _since`. */
  function Elapsed(now: Word32, since: Word32): Word32 {
    if now >= since then now - since else now - since + WORD
  }

  /** Unsigned 32-bit addition, as in `now + espera`. */
  function Later(t: Word32, d: Word32): Word32 {
    if t + d < WORD then t + d else t + d - WORD
  }

  /** The character at `i` of a terminated string: its terminator sits at `|text|`, and nothing
      after that may be read. */
  function At(text: string, i: nat): char
    requires i <= |text|
  {
    if i < |text| then text[i] else '\0'
  }

  /** `snprintf(dst, cap, "%s", text)`. */
  function Cut(text: string, cap: nat): string
    requires cap > 0
  {
    if |text| < cap then text else text[..cap - 1]
  }

  /** Clock readings are subtracted and added modulo 2^32. */
  lemma ClockArithmetic(a: Word32, b: Word32)
    ensures Elapsed(a, b) == (a - b) % 0x1_0000_0000 && Later(a, b) == (a + b) % 0x1_0000_0000
  {
    DivisionUnique(a - b, if a >= b then 0 else -1, Elapsed(a, b), WORD);
    DivisionUnique(a + b, if a + b < WORD then 0 else 1, Later(a, b), WORD);
  }

  /** Division by a positive divisor is determined by its defining equation. */
  lemma DivisionUnique(a: int, q: int, r: int, n: int)
    requires 0 <= r < n && a == n * q + r
    ensures a / n == q && a % n == r
  {
    var p, s := a / n, a % n;
    assert a == n * p + s && 0 <= s < n;
    assert n * (p - q) == r - s;
    if p > q {
      MulAtLeast(n, p - q);
    } else if p < q {
      assert n * (q - p) == s - r;
      MulAtLeast(n, q - p);
    }
  }

  lemma MulAtLeast(n: int, k: int)
    requires n > 0 && k >= 1
    ensures n * k >= n
  {}
}

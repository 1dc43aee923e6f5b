/** The escalating retry timer: its hash, its jitter and its wrap-around clock. */
module BackoffTimer {
  import opened Words

  // -------------------------------------------------------------------------- entropy

  function Shift16(x: bv32): bv32 { x ^ (x >> 16) }

  function Shift15(x: bv32): bv32 { x ^ (x >> 15) }

  function Unshift15(x: bv32): bv32 { x ^ (x >> 15) ^ (x >> 30) }

  function Scramble(x: bv32): bv32 { Shift16(MulB(Shift15(MulA(Shift16(x))))) }

  function MulA(x: bv32): bv32 { x * 0x7feb_352d }

  function MulB(x: bv32): bv32 { x * 0x846c_a68b }

  /** Multiplication by the inverses of those odd numbers modulo 2^32. */
  function DivA(x: bv32): bv32 { x * 0x1d69_e2a5 }

  function DivB(x: bv32): bv32 { x * 0x4302_1123 }

  /** The steps undone in reverse order. */
  function Unscramble(x: bv32): bv32 { Shift16(DivA(Unshift15(DivB(Shift16(x))))) }

  lemma Shift16Undone(x: bv32)
    ensures Shift16(Shift16(x)) == x
  {
    assert Shift16(x) == x ^ (x >> 16);
    RawShift16(x);
  }

  lemma RawShift16(x: bv32)
    ensures Shift16(x ^ (x >> 16)) == x
  {}

  lemma Shift15Undone(x: bv32)
    ensures Unshift15(Shift15(x)) == x && Shift15(Unshift15(x)) == x
  {
    assert Shift15(x) == x ^ (x >> 15);
    assert Unshift15(x) == x ^ (x >> 15) ^ (x >> 30);
    RawShift15(x);
  }

  lemma RawShift15(x: bv32)
    ensures Unshift15(x ^ (x >> 15)) == x && Shift15(x ^ (x >> 15) ^ (x >> 30)) == x
  {}

  lemma MulAUndone(x: bv32)
    ensures DivA(MulA(x)) == x && MulA(DivA(x)) == x
  {
    assert MulA(x) == x * 0x7feb_352d;
    assert DivA(x) == x * 0x1d69_e2a5;
    RawMulA(x);
  }

  lemma RawMulA(x: bv32)
    ensures DivA(x * 0x7feb_352d) == x && MulA(x * 0x1d69_e2a5) == x
  {}

  lemma MulBUndone(x: bv32)
    ensures DivB(MulB(x)) == x && MulB(DivB(x)) == x
  {
    assert MulB(x) == x * 0x846c_a68b;
    assert DivB(x) == x * 0x4302_1123;
    RawMulB(x);
  }

  lemma RawMulB(x: bv32)
    ensures DivB(x * 0x846c_a68b) == x && MulB(x * 0x4302_1123) == x
  {}

  /** The hash loses nothing: it is a bijection on 32-bit words. */
  lemma ScrambleIsABijection(x: bv32)
    ensures Unscramble(Scramble(x)) == x && Scramble(Unscramble(x)) == x
  {
    UnscrambleUndoes(x);
    ScrambleUndoes(x);
  }

  lemma UnscrambleUndoes(x: bv32)
    ensures Unscramble(Scramble(x)) == x
  {
    var s := Shift16(x);
    var a := MulA(s);
    var t := Shift15(a);
    var b := MulB(t);
    Shift16Undone(b);
    MulBUndone(t);
    Shift15Undone(a);
    MulAUndone(s);
    Shift16Undone(x);
  }

  lemma ScrambleUndoes(x: bv32)
    ensures Scramble(Unscramble(x)) == x
  {
    var s := Shift16(x);
    var b := DivB(s);
    var t := Unshift15(b);
    var a := DivA(t);
    Shift16Undone(a);
    MulAUndone(t);
    Shift15Undone(b);
    MulBUndone(s);
    Shift16Undone(x);
  }

  /** The 32-bit word with a given value, bit by bit. */
  function WordOf(k: Word32): (w: bv32)
    ensures w as int == k
  {
    if k == 0 then 0 else
    var h := WordOf(k / 2);
    TopBitClear(h);
    Doubled(h);
    if k % 2 == 0 then h << 1 else (h << 1) | 1
  }

  lemma TopBitClear(w: bv32)
    requires w as int < 0x8000_0000
    ensures w < 0x8000_0000
  {}

  lemma Doubled(w: bv32)
    requires w < 0x8000_0000
    ensures (w << 1) as int == 2 * (w as int)
    ensures ((w << 1) | 1) as int == (w << 1) as int + 1
  {}

  /** Every value is the hash of something. */
  lemma HashReaches(k: Word32) returns (entropy: bv32)
    ensures Scramble(entropy) as int == k
  {
    entropy := Unscramble(WordOf(k));
    ScrambleUndoes(WordOf(k));
  }

  // --------------------------------------------------------------------------- jitter

  function Span(base: Word32, percent: Byte): nat { base / 100 * percent }

  lemma OddWordIsNotZero(span: Word32)
    ensures U32(span * 2 + 1) > 0
    ensures U32(span * 2 + 1) == span * 2 + 1 - if span * 2 >= WORD then WORD else 0
  {
    var x := span * 2 + 1;
    if x >= WORD { DivisionUnique(x, 1, x - WORD, WORD); }
  }

  function ApplyJitter(base: Word32, percent: Byte, entropy: bv32): Word32 {
    Jittered(base, percent, Scramble(entropy) as int)
  }

  /** The jitter from the hashed entropy on. */
  function Jittered(base: Word32, percent: Byte, hash: Word32): Word32 {
    if percent == 0 || base == 0 then base else
    var span := U32(Span(base, percent));
    if span == 0 then base else
    OddWordIsNotZero(span);
    var jittered := base + hash % U32(span * 2 + 1) - span;
    if jittered < 0 then 0 else U32(jittered)
  }

  predicate InBand(base: Word32, percent: Byte, delay: Word32) {
    base - Span(base, percent) <= delay <= base + Span(base, percent)
  }

  lemma SpanIsAtMostBase(base: Word32, percent: Byte)
    requires percent <= 100
    ensures 0 <= Span(base, percent) <= base
    ensures percent == 0 || base == 0 ==> Span(base, percent) == 0
  {
    var q := base / 100;
    assert q * percent <= q * 100;
  }

  /** The span is the configured percentage of the step's whole hundreds. */
  lemma SpanIsOfHundreds(base: Word32, percent: Byte)
    ensures 100 * Span(base, percent) == (base - base % 100) * percent
  {
    var q := base / 100;
    assert base == 100 * q + base % 100;
    assert 100 * (q * percent) == (100 * q) * percent;
  }

  /** What the jitter comes to for any table entry: the hash reduced to an offset, and a wrap when
      the result does not fit 32 bits. */
  lemma JitterIsOffset(base: Word32, percent: Byte, hash: Word32)
    requires percent <= 100
    ensures var span := Span(base, percent);
      var modulus := span * 2 + 1 - if span * 2 >= WORD then WORD else 0;
      var wanted := base - span + hash % modulus;
      Jittered(base, percent, hash) == wanted - if wanted >= WORD then WORD else 0
  {
    SpanIsAtMostBase(base, percent);
    var span := Span(base, percent);
    if span > 0 {
      OddWordIsNotZero(span);
      var wanted := base - span + hash % U32(span * 2 + 1);
      if wanted >= WORD { DivisionUnique(wanted, 1, wanted - WORD, WORD); }
    } else {
      DivisionUnique(hash, hash, 0, 1);
    }
  }

  /** Below the limit every delay is in the band, and every delay of the band does occur. */
  lemma DelaysFillTheBand(base: Word32, percent: Byte, delay: Word32)
    requires percent <= 100 && base + Span(base, percent) < WORD
    ensures InBand(base, percent, delay) <==> exists hash: Word32 :: Jittered(base, percent, hash) == delay
  {
    var span := Span(base, percent);
    SpanIsAtMostBase(base, percent);
    forall hash: Word32 ensures InBand(base, percent, Jittered(base, percent, hash)) {
      JitterIsOffset(base, percent, hash);
    }
    if InBand(base, percent, delay) {
      var hash := delay - (base - span);
      JitterIsOffset(base, percent, hash);
      DivisionUnique(hash, 0, hash, span * 2 + 1);
      assert Jittered(base, percent, hash) == delay;
    }
  }

  /** Above it the longest delays wrap to short ones, unless the span itself is so wide that the
      modulus has wrapped already. */
  lemma BandHoldsExactlyWhen(base: Word32, percent: Byte)
    requires percent <= 100
    ensures (forall hash: Word32 :: InBand(base, percent, Jittered(base, percent, hash)))
      <==> base + Span(base, percent) < WORD || Span(base, percent) * 2 >= WORD
  {
    var span := Span(base, percent);
    SpanIsAtMostBase(base, percent);
    if base + span < WORD || span * 2 >= WORD {
      forall hash: Word32 ensures InBand(base, percent, Jittered(base, percent, hash)) {
        JitterIsOffset(base, percent, hash);
      }
    } else {
      var hash := span * 2;
      JitterIsOffset(base, percent, hash);
      DivisionUnique(hash, 0, hash, span * 2 + 1);
      assert !InBand(base, percent, Jittered(base, percent, hash));
    }
  }

  /** The same for the entropy the timer really feeds in, since every hash value occurs. */
  lemma JitterStaysInBand(base: Word32, percent: Byte)
    requires percent <= 100
    ensures (forall entropy: bv32 :: InBand(base, percent, ApplyJitter(base, percent, entropy)))
      <==> base + Span(base, percent) < WORD || Span(base, percent) * 2 >= WORD
  {
    BandHoldsExactlyWhen(base, percent);
    if forall entropy: bv32 :: InBand(base, percent, ApplyJitter(base, percent, entropy)) {
      forall hash: Word32 ensures InBand(base, percent, Jittered(base, percent, hash)) {
        var entropy := HashReaches(hash);
        assert InBand(base, percent, ApplyJitter(base, percent, entropy));
      }
    }
  }

  // ---------------------------------------------------------------------------- timer

  /** `steps` is None for a null table. */
  datatype Timer = Timer(
    steps: Option<seq<Word32>>, jitter: Byte, attempts: Byte, lastFail: Word32, delay: Word32, armed: bool)

  function StepOf(attempts: nat, count: nat): nat
    requires count > 0
  {
    if attempts < count then attempts else count - 1
  }

  function Mixed(x: bv32, c: bv32): bv32 { x ^ c }

  function AttemptBits(attempts: Byte): bv32 { (attempts as bv32) * 0x9E37_79B9 }

  function Entropy(now: Word32, attempts: Byte): bv32 { Mixed(now as bv32, AttemptBits(attempts)) }

  function Failed(t: Timer, now: Word32): Timer {
    if t.steps.None? || t.steps.value == [] then t else
    var delay := ApplyJitter(t.steps.value[StepOf(t.attempts, |t.steps.value|)], t.jitter, Entropy(now, t.attempts));
    t.(delay := delay, lastFail := now, armed := true, attempts := Bump(t.attempts, 0xFF))
  }

  lemma WordsAreBits(w: bv32)
    ensures (w as int) as bv32 == w
  {}

  lemma BitsApart(a: Word32, b: Word32)
    requires a as bv32 == b as bv32
    ensures a == b
  {
    WordsAreBits(WordOf(a));
    WordsAreBits(WordOf(b));
  }

  lemma MixingLosesNothing(x: bv32, y: bv32, c: bv32)
    requires Mixed(x, c) == Mixed(y, c)
    ensures x == y
  {}

  lemma ScrambleSeparates(x: bv32, y: bv32)
    requires Scramble(x) == Scramble(y)
    ensures x == y
  {
    UnscrambleUndoes(x);
    UnscrambleUndoes(y);
  }

  /** Two devices that fail at different milliseconds draw different hashes. */
  lemma TimesScatter(now: Word32, other: Word32, attempts: Byte)
    requires Scramble(Entropy(now, attempts)) == Scramble(Entropy(other, attempts))
    ensures now == other
  {
    ScrambleSeparates(Entropy(now, attempts), Entropy(other, attempts));
    MixingLosesNothing(now as bv32, other as bv32, AttemptBits(attempts));
    BitsApart(now, other);
  }

  predicate Ready(t: Timer, now: Word32) { !t.armed || Elapsed(now, t.lastFail) >= t.delay }

  class Backoff {
    var steps: Option<seq<Word32>>
    var jitter: Byte
    var attempts: Byte
    var lastFail: Word32
    var delay: Word32
    var armed: bool

    ghost function View(): Timer reads this { Timer(steps, jitter, attempts, lastFail, delay, armed) }

    constructor ()
      ensures View() == Timer(None, 20, 0, 0, 0, false)
    {
      steps, jitter, attempts, lastFail, delay, armed := None, 20, 0, 0, 0, false;
    }

    method Configure(table: Option<seq<Word32>>, percent: Byte)
      modifies this
      ensures View() == Timer(table, percent, 0, 0, 0, false)
    {
      steps := table;
      jitter := percent;
      Reset();
    }

    method Reset()
      modifies `attempts, `lastFail, `delay, `armed
      ensures View() == Timer(steps, jitter, 0, 0, 0, false)
    {
      attempts, lastFail, delay, armed := 0, 0, 0, false;
    }

    method Fail(now: Word32)
      modifies this
      ensures View() == Failed(old(View()), now)
    {
      if steps.None? || |steps.value| == 0 { return; }
      var idx := if attempts < |steps.value| then attempts else |steps.value| - 1;
      delay := ApplyJitter(steps.value[idx], jitter, Entropy(now, attempts));
      lastFail := now;
      armed := true;
      if attempts < 0xFF { attempts := attempts + 1; }
    }

    method IsReady(now: Word32) returns (r: bool)
      ensures r == Ready(View(), now)
    {
      if !armed { return true; }
      return Elapsed(now, lastFail) >= delay;
    }

    /** The wait that is being kept: the timer is ready once it has passed since the last failure, and
        not before; zero when there is nothing to wait for. */
    method CurrentDelayMs() returns (ms: Word32)
      ensures forall now: Word32 :: Ready(View(), now) <==> Elapsed(now, lastFail) >= ms
    {
      return if armed then delay else 0;
    }
  }

  /** Wherever in its range the clock stands, a failed timer is ready after exactly its delay. */
  lemma ReadyAfterItsDelay(t: Timer, now: Word32, k: Word32)
    requires t.steps.Some? && t.steps.value != []
    ensures Ready(Failed(t, now), Later(now, k)) <==> k >= Failed(t, now).delay
  {
    assert Elapsed(Later(now, k), now) == k;
  }

  /** Failures in a row, at any times. */
  function Fails(t: Timer, times: seq<Word32>): Timer {
    if times == [] then t else Failed(Fails(t, times[..|times| - 1]), times[|times| - 1])
  }

  lemma {:induction false} AttemptsCount(t: Timer, times: seq<Word32>)
    requires t.steps.Some? && t.steps.value != [] && t.attempts == 0
    ensures var u := Fails(t, times); u.steps == t.steps && u.jitter == t.jitter && u.attempts == Min(|times|, 0xFF)
  {
    if times != [] { AttemptsCount(t, times[..|times| - 1]); }
  }

  /** Without jitter the n-th failure since a reset waits for the n-th step, or the last one. */
  lemma NthDelay(t: Timer, times: seq<Word32>)
    requires t.steps.Some? && t.steps.value != [] && t.attempts == 0 && t.jitter == 0 && times != []
    ensures Fails(t, times).delay == t.steps.value[Min(Min(|times| - 1, 0xFF), |t.steps.value| - 1)]
  {
    AttemptsCount(t, times[..|times| - 1]);
  }

  /** With jitter it waits for some delay in the band of that step, wherever the band fits 32 bits or the
      span has wrapped (`JitterStaysInBand`). */
  lemma NthDelayInBand(t: Timer, times: seq<Word32>)
    requires t.steps.Some? && t.steps.value != [] && t.attempts == 0 && t.jitter <= 100 && times != []
    ensures var base := t.steps.value[Min(Min(|times| - 1, 0xFF), |t.steps.value| - 1)];
      base + Span(base, t.jitter) < WORD || Span(base, t.jitter) * 2 >= WORD ==>
        InBand(base, t.jitter, Fails(t, times).delay)
  {
    var most := times[..|times| - 1];
    AttemptsCount(t, most);
    var base := t.steps.value[Min(Min(|times| - 1, 0xFF), |t.steps.value| - 1)];
    JitterStaysInBand(base, t.jitter);
    var u := Fails(t, most);
    assert Fails(t, times).delay == ApplyJitter(base, t.jitter, Entropy(times[|times| - 1], u.attempts));
  }

  /** A failure arms the timer at its time, with one attempt more up to 255; without a table it does
      nothing, and the timer is always ready. */
  lemma FailureIsNoted(t: Timer, now: Word32, later: Word32)
    ensures var u := Failed(t, now);
      if t.steps.Some? && t.steps.value != [] then
        && u.armed && u.lastFail == now && u.attempts == Min(t.attempts + 1, 255)
        && u.steps == t.steps && u.jitter == t.jitter
      else u == t && (!t.armed ==> Ready(u, later))
  {}

  /** On a table that does not decrease, the delays do not decrease either, until a reset. */
  lemma DelaysDoNotDecrease(t: Timer, times: seq<Word32>, n: nat, m: nat)
    requires t.steps.Some? && t.steps.value != [] && t.attempts == 0 && t.jitter == 0
    requires forall i, j :: 0 <= i <= j < |t.steps.value| ==> t.steps.value[i] <= t.steps.value[j]
    requires 0 < n <= m <= |times|
    ensures Fails(t, times[..n]).delay <= Fails(t, times[..m]).delay
  {
    NthDelay(t, times[..n]);
    NthDelay(t, times[..m]);
  }
}

/**
 The write-verify-boot protocol of Esp32OtaSink.

 The flash slot, the digest engine and the boot selector answer as they please. SHA-256 is an
 uninterpreted function of the bytes it was fed.
 */
module OtaSink {
  import opened Words
  import Hex

  const SHA_BYTES: nat := 32

  datatype Error =
    | Ok | AlreadyOpen | NoPartition | TooLarge | BeginFailed | NotOpen | WriteFailed
    | ChecksumMismatch | EndFailed | SetBootFailed

  /** `hashed` is what the digest engine was fed, or None while it is inactive; `flashed` is what
      was written since the sink was opened; `content` is what the slot holds, which keeps an
      earlier image until the first write; `booted` is what the slot held when it was last made
      bootable. */
  datatype Sink = Sink(
    open: bool, target: Option<Word32>, written: Word32, expected: Word32,
    hashed: Option<seq<Byte>>, flashed: seq<Byte>, content: seq<Byte>, booted: Option<seq<Byte>>)

  /** One call with the platform's answers. A flash write that fails may have left some bytes. */
  datatype Call =
    | Begin(size: Word32, slot: Option<Word32>, otaOk: bool, shaOk: bool)
    | Write(data: Option<seq<Byte>>, len: nat, flashOk: bool, landed: nat, shaOk: bool)
    | Finish(digest: Option<seq<Byte>>, shaOk: bool, endOk: bool, bootOk: bool)
    | Abort

  predicate Sane(c: Call) {
    match c
    case Write(data, len, _, landed, _) => len < WORD && landed <= len && (data.Some? ==> |data.value| == len)
    case Finish(digest, _, _, _) => digest.Some? ==> |digest.value| == SHA_BYTES
    case Begin(_, _, _, _) => true
    case Abort => true
  }

  function BeginStep(s: Sink, size: Word32, slot: Option<Word32>, otaOk: bool, shaOk: bool): (Sink, Error) {
    if s.open then (s, AlreadyOpen) else
    var t := s.(target := slot);
    if slot.None? then (t, NoPartition)
    else if size > 0 && size > slot.value then (t, TooLarge)
    else if !otaOk then (t, BeginFailed)
    else if !shaOk then (t.(hashed := None, flashed := []), BeginFailed)
    else (t.(hashed := Some([]), flashed := [], written := 0, expected := size, open := true), Ok)
  }

  /** `esp_ota_write` in sequential mode: the first write starts the slot over. */
  function Flash(s: Sink, bytes: seq<Byte>): Sink {
    s.(flashed := s.flashed + bytes, content := s.flashed + bytes)
  }

  function WriteStep(s: Sink, data: Option<seq<Byte>>, len: nat, flashOk: bool, landed: nat, shaOk: bool): (Sink, Error)
    requires Sane(Write(data, len, flashOk, landed, shaOk))
  {
    if !s.open then (s, NotOpen)
    else if len == 0 then (s, Ok)
    else if data.None? then (s, WriteFailed)
    else if s.target.Some? && Later(s.written, len) > s.target.value then (s, TooLarge)
    else if !flashOk then (Flash(s, data.value[..landed]), WriteFailed)
    else
      var t := Flash(s, data.value);
      if s.hashed.None? || !shaOk then (t, WriteFailed)
      else (t.(hashed := Some(s.hashed.value + data.value), written := Later(s.written, len)), Ok)
  }

  function Aborted(s: Sink): Sink { s.(open := false, hashed := None, written := 0, expected := 0) }

  function FinishStep(hash: seq<Byte> -> seq<Byte>, s: Sink, digest: Option<seq<Byte>>,
    shaOk: bool, endOk: bool, bootOk: bool): (Sink, Error)
  {
    if !s.open then (s, NotOpen)
    else if s.expected > 0 && s.written != s.expected then (Aborted(s), ChecksumMismatch)
    else if s.hashed.None? || !shaOk then (Aborted(s), EndFailed)
    else if digest.Some? && hash(s.hashed.value) != digest.value then (Aborted(s), ChecksumMismatch)
    else
      var t := s.(open := false, hashed := None);
      if !endOk then (t, EndFailed)
      else if !bootOk then (t, SetBootFailed)
      else (t.(booted := Some(s.content)), Ok)
  }

  function Step(hash: seq<Byte> -> seq<Byte>, s: Sink, c: Call): (Sink, Error)
    requires Sane(c)
  {
    match c
    case Begin(size, slot, otaOk, shaOk) => BeginStep(s, size, slot, otaOk, shaOk)
    case Write(data, len, flashOk, landed, shaOk) => WriteStep(s, data, len, flashOk, landed, shaOk)
    case Finish(digest, shaOk, endOk, bootOk) => FinishStep(hash, s, digest, shaOk, endOk, bootOk)
    case Abort => (Aborted(s), Ok)
  }

  /** After a restart, with whatever the update slot holds. */
  function Initial(content: seq<Byte>): Sink { Sink(false, None, 0, 0, None, [], content, None) }

  class Esp32OtaSink {
    const hash: seq<Byte> -> seq<Byte>
    var target: Option<Word32>
    var written: Word32
    var expected: Word32
    var open: bool
    var hashed: Option<seq<Byte>>
    var flashed: seq<Byte>
    var content: seq<Byte>
    var booted: Option<seq<Byte>>

    ghost function View(): Sink reads this { Sink(open, target, written, expected, hashed, flashed, content, booted) }

    constructor (hash: seq<Byte> -> seq<Byte>, content: seq<Byte>)
      ensures View() == Initial(content) && this.hash == hash
    {
      this.hash, this.content := hash, content;
      target, written, expected, open, hashed, flashed, booted := None, 0, 0, false, None, [], None;
    }

    method Begin(size: Word32, slot: Option<Word32>, otaOk: bool, shaOk: bool) returns (e: Error)
      modifies this
      ensures (View(), e) == BeginStep(old(View()), size, slot, otaOk, shaOk)
    {
      if open { return AlreadyOpen; }
      target := slot;
      if slot.None? { return NoPartition; }
      if size > 0 && size > slot.value { return TooLarge; }
      if !otaOk { return BeginFailed; }
      flashed := [];
      hashed := None;
      if !shaOk { return BeginFailed; }
      hashed := Some([]);
      written := 0;
      expected := size;
      open := true;
      return Ok;
    }

    method Write(data: Option<seq<Byte>>, len: nat, flashOk: bool, landed: nat, shaOk: bool) returns (e: Error)
      requires Sane(Call.Write(data, len, flashOk, landed, shaOk))
      modifies this
      ensures (View(), e) == WriteStep(old(View()), data, len, flashOk, landed, shaOk)
    {
      if !open { return NotOpen; }
      if len == 0 { return Ok; }
      if data.None? { return WriteFailed; }
      if target.Some? && Later(written, len) > target.value { return TooLarge; }
      if !flashOk {
        flashed, content := flashed + data.value[..landed], flashed + data.value[..landed];
        return WriteFailed;
      }
      flashed, content := flashed + data.value, flashed + data.value;
      if hashed.None? || !shaOk { return WriteFailed; }
      hashed := Some(hashed.value + data.value);
      written := Later(written, len);
      return Ok;
    }

    method Finish(digest: array?<Byte>, shaOk: bool, endOk: bool, bootOk: bool) returns (e: Error)
      requires forall x :: |hash(x)| == SHA_BYTES
      requires digest != null ==> digest.Length == SHA_BYTES
      modifies this
      ensures (View(), e) ==
        FinishStep(hash, old(View()), if digest == null then None else Some(digest[..]), shaOk, endOk, bootOk)
    {
      if !open { return NotOpen; }
      if expected > 0 && written != expected {
        Abort();
        return ChecksumMismatch;
      }
      if hashed.None? || !shaOk {
        Abort();
        return EndFailed;
      }
      var sum := hash(hashed.value);
      var actual := new Byte[SHA_BYTES](i requires 0 <= i < |sum| => sum[i]);
      assert actual[..] == actual[..SHA_BYTES] == sum;
      hashed := None;
      if digest != null {
        var same := Hex.Equal(actual, digest, SHA_BYTES);
        assert digest[..SHA_BYTES] == digest[..];
        if !same {
          Abort();
          return ChecksumMismatch;
        }
      }
      open := false;
      if !endOk { return EndFailed; }
      if !bootOk { return SetBootFailed; }
      booted := Some(content);
      return Ok;
    }

    method Abort()
      modifies this
      ensures View() == Aborted(old(View()))
    {
      if open { open := false; }
      hashed := None;
      written := 0;
      expected := 0;
    }
  }

  // -------------------------------------------------------------- what a caller has seen

  /** The caller's own record of the image in progress, kept from calls and answers alone: the
      bytes whose write was answered Ok, how many bytes failed writes may have left in the slot,
      and whether the 32-bit count of written bytes ever wrapped; and the image last made bootable,
      until a later write reaches the flash. */
  datatype Record = Record(
    live: bool, sent: seq<Byte>, stray: nat, wrapped: bool, size: Word32, slot: Word32, image: Option<seq<Byte>>)

  function Noted(r: Record, c: Call, e: Error): Record {
    match c
    case Begin(size, slot, _, _) =>
      if e == Ok && slot.Some? then Record(true, [], 0, false, size, slot.value, r.image) else r
    case Write(data, len, flashOk, landed, _) =>
      if !r.live || data.None? || len == 0 then r
      else if e == Ok then
        r.(sent := r.sent + data.value, wrapped := r.wrapped || |r.sent| + len >= WORD, image := None)
      else if e == WriteFailed then r.(stray := r.stray + if flashOk then len else landed, image := None)
      else r
    case Finish(_, _, _, _) => r.(live := false, image := if r.live && e == Ok then ImageOf(r) else r.image)
    case Abort => r.(live := false)
  }

  /** What a finish makes bootable, as far as the caller can tell. */
  function ImageOf(r: Record): Option<seq<Byte>> { if r.sent != [] && r.stray == 0 then Some(r.sent) else None }

  /** What the record says about the sink. */
  predicate Tells(r: Record, s: Sink) {
    && s.open == r.live
    && (r.live ==>
      && s.target == Some(r.slot) && s.expected == r.size && s.hashed == Some(r.sent)
      && |s.flashed| == |r.sent| + r.stray && (r.stray == 0 ==> s.flashed == r.sent)
      && (|r.sent| + r.stray > 0 ==> s.content == s.flashed)
      && s.written == |r.sent| % WORD && (!r.wrapped ==> |r.sent| < WORD)
      && s.written <= r.slot && r.size <= r.slot)
    && (r.image.Some? ==> s.booted == r.image && s.content == r.image.value)
  }

  /** A digest-checked image becomes bootable only if the bytes sent have that digest and their
      count is the announced size, if one was announced; and the slot then holds exactly those
      bytes if and only if no failed write left any behind. It goes on holding them, whatever is
      called, until a write of a later download reaches the flash. */
  predicate Lawful(hash: seq<Byte> -> seq<Byte>, r: Record, s: Sink, c: Call, t: Sink, e: Error) {
    && (t.booted != s.booted ==> c.Finish? && e == Ok && r.live)
    && (c.Finish? && e == Ok && r.live ==>
      && t.booted == Some(s.content)
      && (c.digest.Some? ==> hash(r.sent) == c.digest.value)
      && (r.size > 0 ==> |r.sent| % WORD == r.size)
      && (r.sent != [] ==> (t.booted == Some(r.sent) <==> r.stray == 0))
      && (!r.wrapped ==> |r.sent| <= r.slot && (r.size > 0 ==> |r.sent| == r.size)))
    && (e == Ok && (c.Finish? || c.Write?) ==> r.live)
    && (Noted(r, c, e).image.Some? ==> t.booted == Some(t.content) == Noted(r, c, e).image)
    && Fits(Noted(r, c, e), t)
  }

  /** At every moment of a download its announced size fits the slot; and so does what is flashed,
      if failed writes left nothing and the count did not wrap. */
  predicate Fits(r: Record, s: Sink) {
    r.live ==> r.size <= r.slot && (r.stray == 0 && !r.wrapped ==> |s.flashed| <= r.slot)
  }

  lemma TellingFits(r: Record, s: Sink)
    requires Tells(r, s)
    ensures Fits(r, s)
  {
    CountWraps(|r.sent|, 0);
  }

  predicate AlwaysLawful(hash: seq<Byte> -> seq<Byte>, r: Record, s: Sink, calls: seq<Call>)
    requires forall i :: 0 <= i < |calls| ==> Sane(calls[i])
    decreases |calls|
  {
    calls == [] ||
    var (t, e) := Step(hash, s, calls[0]);
    Lawful(hash, r, s, calls[0], t, e) && AlwaysLawful(hash, Noted(r, calls[0], e), t, calls[1..])
  }

  lemma WriteKeeps(hash: seq<Byte> -> seq<Byte>, r: Record, s: Sink, c: Call)
    requires Sane(c) && c.Write? && Tells(r, s)
    ensures var (t, e) := Step(hash, s, c); Tells(Noted(r, c, e), t) && Lawful(hash, r, s, c, t, e)
  {
    WriteIsNoted(hash, r, s, c);
    var (t, e) := Step(hash, s, c);
    TellingFits(Noted(r, c, e), t);
  }

  lemma WriteIsNoted(hash: seq<Byte> -> seq<Byte>, r: Record, s: Sink, c: Call)
    requires Sane(c) && c.Write? && Tells(r, s)
    ensures var (t, e) := Step(hash, s, c); Tells(Noted(r, c, e), t)
  {
    if r.live && c.data.Some? && c.len > 0 {
      CountWraps(|r.sent|, c.len);
      FlashIsNoted(r, s, if c.flashOk then c.data.value else c.data.value[..c.landed]);
    }
  }

  lemma FlashIsNoted(r: Record, s: Sink, bytes: seq<Byte>)
    requires Tells(r, s) && r.live
    ensures var t := Flash(s, bytes);
      && |t.flashed| == |r.sent| + r.stray + |bytes| && t.content == t.flashed
      && (r.stray == 0 ==> t.flashed == r.sent + bytes)
      && (r.stray == 0 && bytes == [] ==> t.flashed == r.sent)
  {
    assert r.sent + [] == r.sent;
  }

  lemma CountWraps(n: nat, len: nat)
    requires len < WORD
    ensures Later(n % WORD, len) == (n + len) % WORD
    ensures n < WORD ==> n % WORD == n
  {
    var q, w := n / WORD, n % WORD;
    if w + len < WORD { DivisionUnique(n + len, q, w + len, WORD); }
    else { DivisionUnique(n + len, q + 1, w + len - WORD, WORD); }
  }

  lemma StepKeeps(hash: seq<Byte> -> seq<Byte>, r: Record, s: Sink, c: Call)
    requires Sane(c) && Tells(r, s)
    ensures var (t, e) := Step(hash, s, c); Tells(Noted(r, c, e), t) && Lawful(hash, r, s, c, t, e)
  {
    match c
    case Write(_, _, _, _, _) => WriteKeeps(hash, r, s, c);
    case Begin(_, _, _, _) =>
    case Finish(_, _, _, _) => if r.live { CountWraps(|r.sent|, 0); }
    case Abort =>
  }

  /** Over every sequence of calls and platform answers. */
  lemma {:induction false} NothingUnverifiedBoots(hash: seq<Byte> -> seq<Byte>, r: Record, s: Sink, calls: seq<Call>)
    requires Tells(r, s) && forall i :: 0 <= i < |calls| ==> Sane(calls[i])
    ensures AlwaysLawful(hash, r, s, calls)
    decreases |calls|
  {
    if calls != [] {
      StepKeeps(hash, r, s, calls[0]);
      var (t, e) := Step(hash, s, calls[0]);
      NothingUnverifiedBoots(hash, Noted(r, calls[0], e), t, calls[1..]);
    }
  }

  /** A download begins exactly when none is open, there is a slot that the announced size fits, and
      platform and digest agree; a begin that is refused, for size or otherwise, opens nothing, and
      no begin touches the slot or what is set to boot. */
  lemma BeginOpensExactlyWhen(hash: seq<Byte> -> seq<Byte>, r: Record, s: Sink, c: Call)
    requires Sane(c) && c.Begin? && Tells(r, s)
    ensures var (t, e) := Step(hash, s, c);
      && (e == Ok <==> !r.live && c.slot.Some? && c.size <= c.slot.value && c.otaOk && c.shaOk)
      && (e == TooLarge <==> !r.live && c.slot.Some? && c.size > c.slot.value)
      && (t.open <==> r.live || e == Ok) && t.content == s.content && t.booted == s.booted
      && (e == Ok ==> t.hashed == Some([]) && t.written == 0 && t.expected == c.size && t.target == c.slot)
  {}

  /** A write is accepted exactly when a download is open and there is nothing to write, or something
      that fits the slot and that flash and digest take; what is refused before the flash does not
      change it. */
  lemma WriteOkExactlyWhen(hash: seq<Byte> -> seq<Byte>, r: Record, s: Sink, c: Call)
    requires Sane(c) && c.Write? && Tells(r, s)
    ensures var (t, e) := Step(hash, s, c); var count := (|r.sent| % WORD + c.len) % WORD;
      && (e == NotOpen <==> !r.live)
      && (e == TooLarge <==> r.live && c.len > 0 && c.data.Some? && count > r.slot)
      && (e == Ok <==> r.live && (c.len == 0 || (c.data.Some? && count <= r.slot && c.flashOk && c.shaOk)))
      && (e in {Ok, NotOpen, TooLarge, WriteFailed})
      && (e == Ok && c.len > 0 ==> t.flashed == s.flashed + c.data.value && t.content == t.flashed)
      && (e != Ok && (c.data.None? || e != WriteFailed) ==> t == s) && (e == Ok && c.len == 0 ==> t == s)
  {
    var w := |r.sent| % WORD;
    if w + c.len < WORD { DivisionUnique(w + c.len, 0, w + c.len, WORD); }
    else { DivisionUnique(w + c.len, 1, w + c.len - WORD, WORD); }
  }

  /** Aborting closes the download, whatever state it is in, and leaves slot and selector alone. */
  lemma AbortCloses(hash: seq<Byte> -> seq<Byte>, s: Sink)
    ensures var (t, e) := Step(hash, s, Abort);
      e == Ok && !t.open && t.hashed.None? && t.content == s.content && t.booted == s.booted
  {}

  /** What each way a finish can fail means; and every finish closes the download. */
  lemma FinishFailsExactlyFor(hash: seq<Byte> -> seq<Byte>, r: Record, s: Sink, c: Call)
    requires Sane(c) && c.Finish? && Tells(r, s)
    ensures var (t, e) := Step(hash, s, c);
      var short := r.size > 0 && |r.sent| % WORD != r.size;
      var other := c.digest.Some? && hash(r.sent) != c.digest.value;
      && !t.open && t.content == s.content && (e != Ok ==> t.booted == s.booted)
      && (e == NotOpen <==> !r.live)
      && (e == ChecksumMismatch <==> r.live && (short || (c.shaOk && other)))
      && (e == EndFailed <==> r.live && !short && (!c.shaOk || (!other && !c.endOk)))
      && (e == SetBootFailed <==> r.live && !short && c.shaOk && !other && c.endOk && !c.bootOk)
  {}

  /** The converse: with a willing platform, a sent image of the announced size and digest does
      become bootable, and nothing else does. */
  lemma FinishBootsExactlyWhen(hash: seq<Byte> -> seq<Byte>, r: Record, s: Sink, c: Call)
    requires Sane(c) && c.Finish? && Tells(r, s)
    ensures Step(hash, s, c).1 == Ok <==>
      && r.live && c.shaOk && c.endOk && c.bootOk
      && (r.size > 0 ==> |r.sent| % WORD == r.size)
      && (c.digest.Some? ==> hash(r.sent) == c.digest.value)
  {}

  /** An accepted write stays inside the slot exactly when the 32-bit sum of the count and the
      length does not wrap. */
  lemma AcceptedWriteStaysInSlot(r: Record, s: Sink, data: seq<Byte>)
    requires Tells(r, s) && r.live && r.stray == 0 && !r.wrapped && 0 < |data| < WORD
    ensures var (t, e) := WriteStep(s, Some(data), |data|, true, 0, true);
      e == Ok ==> (|t.flashed| <= r.slot <==> s.written + |data| < WORD)
  {
    CountWraps(|r.sent|, |data|);
  }

  /** A call gets as far as the flash: a write of something, to an open sink, within its slot. */
  predicate ReachesFlash(r: Record, c: Call)
    requires Sane(c)
  {
    c.Write? && r.live && c.data.Some? && c.len > 0 && Later(|r.sent| % WORD, c.len) <= r.slot
  }

  /** Exactly when the slot that is set to boot stops holding what was verified: at the first call
      that reaches the flash again, unless that makes the very same bytes of it. */
  lemma ImageSurvivesExactlyWhen(hash: seq<Byte> -> seq<Byte>, r: Record, s: Sink, c: Call)
    requires Sane(c) && Tells(r, s) && r.image.Some?
    ensures Step(hash, s, c).0.content == r.image.value <==>
      !ReachesFlash(r, c)
      || s.flashed + (if c.flashOk then c.data.value else c.data.value[..c.landed]) == r.image.value
    ensures !ReachesFlash(r, c) && !(c.Finish? && r.live) ==> Noted(r, c, Step(hash, s, c).1).image == r.image
  {}

  /** The selector does not follow: after a finish, one write of a second download overwrites the
      slot that is set to boot, with bytes that nothing has verified. */
  lemma SecondDownloadOverwrites(s: Sink, image: seq<Byte>, slot: Word32, b: Byte)
    requires !s.open && s.booted == Some(image) && s.content == image && slot > 0
    ensures var (t, e) := BeginStep(s, 0, Some(slot), true, true);
      var (u, f) := WriteStep(t, Some([b]), 1, true, 0, true);
      e == Ok && t.content == image && f == Ok && u.booted == Some(image) && u.content == [b]
  {
    var t := BeginStep(s, 0, Some(slot), true, true).0;
    assert t.flashed + [b] == [b];
  }

  /** The digest engine failing after the flash write has succeeded leaves the sink open with the
      two apart: retrying the next block then boots an image no digest was ever taken of. */
  lemma DigestFailureDiverges(hash: seq<Byte> -> seq<Byte>, before: seq<Byte>, a: Byte, b: Byte)
    ensures var calls := [
        Begin(1, Some(0x1E_0000), true, true), Write(Some([a]), 1, true, 0, false),
        Write(Some([b]), 1, true, 0, true), Finish(Some(hash([b])), true, true, true)];
      |hash([b])| == SHA_BYTES ==>
        && (forall i :: 0 <= i < |calls| ==> Sane(calls[i]))
        && Run(hash, Initial(before), calls).booted == Some([a, b])
  {
    var s0 := Initial(before);
    var s1 := BeginStep(s0, 1, Some(0x1E_0000), true, true).0;
    var s2 := WriteStep(s1, Some([a]), 1, true, 0, false).0;
    assert s2.flashed == [] + [a] == [a];
    var s3 := WriteStep(s2, Some([b]), 1, true, 0, true).0;
    assert s3.flashed == [a] + [b] == [a, b];
    assert [] + [b] == [b];
    if |hash([b])| == SHA_BYTES {
      var calls := [
        Begin(1, Some(0x1E_0000), true, true), Write(Some([a]), 1, true, 0, false),
        Write(Some([b]), 1, true, 0, true), Finish(Some(hash([b])), true, true, true)];
      assert calls[1..][1..][1..][1..] == [];
      var s4 := FinishStep(hash, s3, Some(hash([b])), true, true, true).0;
      assert Run(hash, s4, calls[1..][1..][1..][1..]) == s4;
      assert Run(hash, s3, calls[1..][1..][1..]) == s4;
      assert Run(hash, s2, calls[1..][1..]) == s4;
      assert Run(hash, s1, calls[1..]) == s4;
    }
  }

  function Run(hash: seq<Byte> -> seq<Byte>, s: Sink, calls: seq<Call>): Sink
    requires forall i :: 0 <= i < |calls| ==> Sane(calls[i])
    decreases |calls|
  {
    if calls == [] then s else Run(hash, Step(hash, s, calls[0]).0, calls[1..])
  }
}

/**
 Reading a response body off the modem: whatever pieces the socket hands over, however
 short its reads and whatever the capacities asked for, what is passed on is what the
 byte-at-a-time reference yields for the bytes consumed.
 */
module GsmHttpClient {
  import opened Words
  import opened Chunked
  import opened ChunkedGrammar

  const IDLE_TIMEOUT_MS: Word32 := 30000
  const BLOCK := 128

  /** A buffer after `bytes` were written into it at `at`. */
  function Patched(buf: seq<Byte>, at: nat, bytes: seq<Byte>): seq<Byte>
    requires at + |bytes| <= |buf|
  {
    buf[..at] + bytes + buf[at + |bytes|..]
  }

  /** The socket. It may understate what has arrived, read short, or not read at all; unless the peer
      has sent everything and closed, and the modem says so: then it hides nothing. */
  class Wire {
    const closed: bool
    var rest: seq<Byte>         // what the peer sends from here on
    ghost var taken: seq<Byte>  // body bytes read so far
    ghost var dry: nat          // how often it had nothing to give
    ghost var hangups: nat      // how often it said the peer was gone
    ghost var asked: nat        // how often it was asked whether the peer is there
    ghost var lastUp: bool      // what it said the last time
    ghost var lastCount: int    // and how many bytes it last said were waiting

    /** Everything the peer sends, read or not. */
    ghost function Sent(): seq<Byte>
      reads `taken, `rest
    {
      taken + rest
    }

    constructor (body: seq<Byte>, closed: bool)
      ensures rest == body && taken == [] && this.closed == closed
    {
      this.closed := closed;
      rest, taken, dry, hangups, asked, lastUp, lastCount := body, [], 0, 0, 0, true, 0;
    }

    method Available() returns (n: int)
      modifies `dry, `lastCount
      ensures n <= |rest| && dry == old(dry) + if n <= 0 then 1 else 0
      ensures lastCount == n && (closed ==> n == |rest|)
    {
      n := *;
      if n > |rest| || closed { n := |rest|; }
      if n <= 0 { dry := dry + 1; }
      lastCount := n;
    }

    method Connected() returns (up: bool)
      modifies `hangups, `asked, `lastUp
      ensures hangups == old(hangups) + if up then 0 else 1
      ensures asked == old(asked) + 1 && lastUp == up && (closed ==> !up)
    {
      up := *;
      if closed { up := false; }
      if !up { hangups := hangups + 1; }
      asked, lastUp := asked + 1, up;
    }

    method ReadByte() returns (c: int)
      modifies `rest, `taken, `dry
      ensures dry == old(dry) + if c < 0 then 1 else 0
      ensures Sent() == old(Sent()) && (closed && old(rest) != [] ==> c >= 0)
      ensures c < 0 ==> rest == old(rest) && taken == old(taken)
      ensures c >= 0 ==>
        && |old(rest)| == |rest| + 1 && old(rest)[0] == c
        && rest == old(rest)[1..] && taken == old(taken) + [old(rest)[0]]
    {
      var stalled: bool := *;
      if (stalled && !closed) || rest == [] {
        dry := dry + 1;
        return -1;
      }
      c := rest[0];
      MovedAlong(taken, rest, 1);
      assert rest[..1] == [rest[0]];
      taken := taken + [rest[0]];
      rest := rest[1..];
    }

    method Read(out: array<Byte>, at: nat, n: nat) returns (k: int)
      requires at + n <= out.Length
      modifies `rest, `taken, `dry, out
      ensures k <= n && dry == old(dry) + if k <= 0 then 1 else 0
      ensures Sent() == old(Sent()) && (closed && n > 0 && old(rest) != [] ==> k > 0)
      ensures k <= 0 ==> rest == old(rest) && taken == old(taken) && out[..] == old(out[..])
      ensures k > 0 ==>
        k <= |old(rest)| && rest == old(rest)[k..] && taken == old(taken) + old(rest)[..k]
        && out[..] == Patched(old(out[..]), at, old(rest)[..k])
    {
      k := *;
      if k > n || closed { k := n; }
      if k > |rest| { k := |rest|; }
      if k <= 0 {
        dry := dry + 1;
        return;
      }
      forall i | 0 <= i < k { out[at + i] := rest[i]; }
      assert out[..] == Patched(old(out[..]), at, rest[..k]);
      MovedAlong(taken, rest, k);
      taken := taken + rest[..k];
      rest := rest[k..];
    }
  }

  lemma MovedAlong(a: seq<Byte>, b: seq<Byte>, k: nat)
    requires k <= |b|
    ensures (a + b[..k]) + b[k..] == a + b
  {}

  lemma OnlyMoreIsTaken(a: seq<Byte>, b: seq<Byte>, c: seq<Byte>, d: seq<Byte>)
    requires a + b == c + d && |d| <= |b|
    ensures a <= c
  {
    assert a == (a + b)[..|a|] && c == (c + d)[..|c|];
  }

  datatype HttpError = Ok | WouldBlock | Eof | Timeout | Transport

  /** A response whose headers have been read: `length` and `chunked` are what they said. */
  class GsmHttpClient {
    const wire: Wire
    const chunks: ChunkedDecoder
    const length: Word32        // 0 when there was no Content-Length
    const chunked: bool
    var recebido: Word32
    var open: bool
    var ultimoByte: Word32
    ghost var delivered: seq<Byte>   // every body byte passed to a caller
    ghost var reported: seq<Byte>    // those passed on together with Ok by readChunk

    ghost predicate Valid()
      reads this, wire, chunks
    {
      && (chunked ==> (chunks.View(), delivered) == Decode(START, wire.taken) && Sound(chunks.View()))
      && (!chunked ==> delivered == wire.taken)
      && (!chunked && length > 0 ==> recebido == |delivered| <= length)
    }

    /** Everything passed on so far was passed on with Ok, unless the framing has broken. */
    ghost predicate Honest()
      reads this, chunks
    {
      if chunked && chunks.phase == Invalid then reported <= delivered else reported == delivered
    }

    /** The protocol, and not a lack of bytes, says that there is no more body. */
    predicate Finished()
      reads this, chunks
    {
      if chunked then chunks.phase == Done || chunks.phase == Invalid
      else length > 0 && recebido >= length
    }

    constructor (wire: Wire, length: Word32, chunked: bool, now: Word32)
      requires wire.taken == []
      ensures Valid() && fresh(chunks) && this.wire == wire && this.length == length && this.chunked == chunked
      ensures delivered == reported == [] && Honest() && open
    {
      this.wire, this.length, this.chunked := wire, length, chunked;
      chunks := new ChunkedDecoder();
      recebido, open, ultimoByte, delivered, reported := 0, true, now, [], [];
    }

    /** One piece of payload, as large as the caller, the socket, the chunk and the length allow. */
    method LerBloco(out: array<Byte>, got: nat, cap: nat, disponivel: int) returns (lido: int)
      requires Valid() && got < cap <= out.Length && 0 < disponivel <= |wire.rest| && !Finished()
      requires chunked ==> chunks.phase == Data
      modifies this`recebido, this`delivered, wire`rest, wire`taken, wire`dry, chunks, out
      ensures lido <= disponivel && (wire.closed ==> lido > 0)
      ensures Valid() && old(wire.taken) <= wire.taken && wire.Sent() == old(wire.Sent())
      ensures wire.dry == old(wire.dry) + if lido <= 0 then 1 else 0
      ensures lido <= 0 ==> |wire.rest| == |old(wire.rest)| && delivered == old(delivered) && out[..] == old(out[..])
                            && !Finished()
      ensures lido > 0 ==>
        |wire.rest| == |old(wire.rest)| - lido && lido <= cap - got
        && delivered == old(delivered) + old(wire.rest)[..lido]
        && out[..] == Patched(old(out[..]), got, old(wire.rest)[..lido])
    {
      var pedir := cap - got;
      if disponivel < pedir { pedir := disponivel; }
      if chunked {
        if chunks.remaining < pedir { pedir := chunks.remaining; }
      } else if length > 0 && length - recebido < pedir {
        pedir := length - recebido;
      }
      ghost var before, bytes := wire.taken, wire.rest;
      lido := wire.Read(out, got, pedir);
      if lido <= 0 { return; }
      recebido := (recebido + lido) % WORD;
      if chunked {
        DecodeConcat(START, before, bytes[..lido]);
        BulkIsByteByByte(chunks.View(), bytes[..lido]);
        SoundKept(chunks.View(), bytes[..lido]);
        chunks.ConsumeData(lido);
      }
      delivered := delivered + bytes[..lido];
    }

    /** One byte of framing. */
    method LerMarcador() returns (ok: bool)
      requires Valid() && chunked && chunks.phase != Data && !Finished()
      modifies wire`rest, wire`taken, wire`dry, chunks
      ensures Valid() && old(wire.taken) <= wire.taken && wire.Sent() == old(wire.Sent())
      ensures wire.dry == old(wire.dry) + if ok then 0 else 1
      ensures ok ==> |wire.rest| < |old(wire.rest)|
      ensures !ok ==> |wire.rest| == |old(wire.rest)| && !Finished()
      ensures wire.closed && old(wire.rest) != [] ==> ok
    {
      ghost var before := wire.taken;
      var c := wire.ReadByte();
      if c < 0 { return false; }
      DecodeSnoc(START, before, c);
      SoundKept(START, before + [c]);
      assert delivered + [] == delivered;
      chunks.Feed(c);
      return true;
    }

    /** Reads what has arrived, up to `cap` bytes of payload. `fim` holds exactly when the body
        is finished and there was room left to see it. */
    method LerCorpo(out: array<Byte>, cap: nat) returns (got: nat, fim: bool, ghost body: seq<Byte>)
      requires Valid() && cap <= out.Length
      modifies this`recebido, this`delivered, wire, chunks, out
      ensures Valid() && old(wire.taken) <= wire.taken && wire.Sent() == old(wire.Sent())
      ensures got == |body| <= cap && delivered == old(delivered) + body
      ensures out[..] == Patched(old(out[..]), 0, body)
      ensures fim <==> got < cap && Finished()
      ensures got == cap || fim || wire.dry > old(wire.dry)
      ensures wire.dry >= old(wire.dry) && wire.hangups == old(wire.hangups) && wire.asked == old(wire.asked)
      ensures wire.closed ==> got == cap || fim || wire.rest == []
      ensures |wire.rest| <= |old(wire.rest)| - got
      ensures old(Finished()) ==> Finished() && got == 0
      ensures old(chunked && chunks.phase == Invalid) ==> chunks.phase == Invalid && got == 0
    {
      got, fim, body := 0, false, [];
      ghost var buf := out[..];
      assert buf == Patched(buf, 0, body);
      while got < cap
        invariant Valid() && old(wire.taken) <= wire.taken && wire.Sent() == old(wire.Sent())
        invariant got == |body| <= cap && delivered == old(delivered) + body
        invariant out[..] == Patched(buf, 0, body) && wire.dry >= old(wire.dry) && wire.hangups == old(wire.hangups)
        invariant |wire.rest| <= |old(wire.rest)| - got && wire.asked == old(wire.asked)
        invariant old(Finished()) ==> Finished() && got == 0
        invariant old(chunked && chunks.phase == Invalid) ==> chunks.phase == Invalid && got == 0
        decreases |wire.rest|
      {
        if Finished() { fim := true; return; }
        var disponivel := wire.Available();
        if disponivel <= 0 { return; }
        if chunked && chunks.phase != Data {
          var ok := LerMarcador();
          if !ok { return; }
        } else {
          ghost var bytes, before := wire.rest, delivered;
          var lido := LerBloco(out, got, cap, disponivel);
          if lido <= 0 { return; }
          PatchExtends(buf, body, bytes[..lido]);
          Assoc(old(delivered), body, bytes[..lido]);
          body := body + bytes[..lido];
          got := got + lido;
        }
      }
    }

    /** A whole small response. `clock` is what `millis()` reads, first for the deadline and then
        before each pass; running out of readings stands for the deadline having passed. What
        does not fit is read and thrown away; the text always ends in NUL. `late` counts the passes
        that began with the body already finished: one is enough to see it. */
    method LerResposta(out: array?<Byte>, cap: nat, clock: seq<Word32>)
        returns (total: nat, ghost body: seq<Byte>, ghost passes: nat, ghost late: nat)
      requires Valid() && clock != [] && (out != null ==> cap <= out.Length)
      modifies this`recebido, this`delivered, wire, chunks, out
      ensures Valid() && old(wire.taken) <= wire.taken && wire.Sent() == old(wire.Sent())
      ensures delivered == old(delivered) + body && |body| == total
      ensures out != null && cap > 0 ==>
        out[..Min(total, cap - 1)] == body[..Min(total, cap - 1)] && out[Min(total, cap - 1)] == 0
        && out[cap..] == old(out[cap..])
      ensures passes < |clock|
      ensures Finished() || wire.hangups > old(wire.hangups)
        || passes == |clock| - 1 || clock[passes + 1] >= Later(clock[0], IDLE_TIMEOUT_MS)
      ensures total + BLOCK * (wire.dry - old(wire.dry)) >= BLOCK * (passes - 1)
      ensures late <= 1 && (wire.closed ==> passes <= |old(wire.rest)| + 1)
    {
      total, body, passes, late := LerBlocos(out, cap, clock);
      OnlyMoreIsTaken(old(wire.taken), old(wire.rest), wire.taken, wire.rest);
      if out != null && cap > 0 { Terminar(out, cap, total); }
    }

    /** Its loop. */
    method LerBlocos(out: array?<Byte>, cap: nat, clock: seq<Word32>)
        returns (total: nat, ghost body: seq<Byte>, ghost passes: nat, ghost late: nat)
      requires Valid() && clock != [] && (out != null ==> cap <= out.Length)
      modifies this`recebido, this`delivered, wire, chunks, out
      ensures Valid() && wire.Sent() == old(wire.Sent()) && |wire.rest| <= |old(wire.rest)|
      ensures delivered == old(delivered) + body && |body| == total
      ensures out != null && cap > 0 ==> out[..Min(total, cap - 1)] == body[..Min(total, cap - 1)]
      ensures out != null ==> out[cap..] == old(out[cap..])
      ensures passes < |clock|
      ensures Finished() || wire.hangups > old(wire.hangups)
        || passes == |clock| - 1 || clock[passes + 1] >= Later(clock[0], IDLE_TIMEOUT_MS)
      ensures total + BLOCK * (wire.dry - old(wire.dry)) >= BLOCK * (passes - 1)
      ensures late <= 1 && (wire.closed ==> passes <= |old(wire.rest)| + 1)
    {
      var bloco := new Byte[BLOCK](_ => 0);
      total, body, passes, late := 0, [], 0, 0;
      var limite := Later(clock[0], IDLE_TIMEOUT_MS);
      var i := 1;
      while i < |clock| && clock[i] < limite
        invariant Valid() && wire.Sent() == old(wire.Sent()) && |wire.rest| <= |old(wire.rest)|
        invariant delivered == old(delivered) + body && |body| == total
        invariant out != null && cap > 0 ==> out[..Min(total, cap - 1)] == body[..Min(total, cap - 1)]
        invariant out != null ==> out[cap..] == old(out[cap..])
        invariant fresh(bloco) && bloco.Length == BLOCK
        invariant passes == i - 1 < |clock| && wire.hangups >= old(wire.hangups)
        invariant total + BLOCK * (wire.dry - old(wire.dry)) >= BLOCK * passes
        invariant late == 0 && (wire.closed ==> passes + |wire.rest| <= |old(wire.rest)|)
      {
        if Finished() { late := 1; }
        var n, parar;
        n, parar, body := Volta(out, cap, total, bloco, old(delivered), body);
        total := total + n;
        passes := passes + 1;
        if parar { break; }
        i := i + 1;
      }
    }

    /** One turn of the loop of `lerResposta`: a block, and whether it was the last one. `start` was
        delivered before the response, `body` so far of it. */
    method Volta(out: array?<Byte>, cap: nat, total: nat, bloco: array<Byte>, ghost start: seq<Byte>,
                 ghost body: seq<Byte>)
        returns (n: nat, parar: bool, ghost whole: seq<Byte>)
      requires Valid() && (out != null ==> cap <= out.Length) && bloco.Length == BLOCK && out != bloco
      requires delivered == start + body && |body| == total
      requires out != null && cap > 0 ==> out[..Min(total, cap - 1)] == body[..Min(total, cap - 1)]
      modifies this`recebido, this`delivered, wire, chunks, out, bloco
      ensures Valid() && old(wire.taken) <= wire.taken && wire.Sent() == old(wire.Sent())
      ensures delivered == start + whole && |whole| == total + n
      ensures out != null && cap > 0 ==> out[..Min(total + n, cap - 1)] == whole[..Min(total + n, cap - 1)]
      ensures out != null ==> out[cap..] == old(out[cap..])
      ensures parar ==> Finished() || wire.hangups > old(wire.hangups)
      ensures n == 0 && !Finished() ==> wire.asked > old(wire.asked)
      ensures parar <==> (n < BLOCK && Finished()) || (n == 0 && !wire.lastUp && wire.lastCount == 0)
      ensures |wire.rest| <= |old(wire.rest)| - n && (old(Finished()) || (wire.closed && n == 0) ==> parar)
      ensures n == BLOCK || parar || wire.dry > old(wire.dry)
      ensures wire.dry >= old(wire.dry) && wire.hangups >= old(wire.hangups)
    {
      ghost var more;
      n, parar, more := Passada(out, cap, total, bloco);
      FirstBytes(body, more, cap);
      Assoc(start, body, more);
      whole := body + more;
      if !parar && n == 0 { parar := Sumiu(); }
    }

    /** The peer is gone and nothing of it waits. */
    method Sumiu() returns (gone: bool)
      modifies wire`hangups, wire`asked, wire`lastUp, wire`lastCount, wire`dry
      ensures wire.asked == old(wire.asked) + 1 && (gone <==> !wire.lastUp && wire.lastCount == 0)
      ensures wire.hangups == old(wire.hangups) + if wire.lastUp then 0 else 1
      ensures wire.dry >= old(wire.dry) && (wire.closed && wire.rest == [] ==> gone)
    {
      var up := wire.Connected();
      var waiting := wire.Available();
      gone := !up && waiting == 0;
    }

    /** One block off the socket, and into the caller's buffer as far as it fits. */
    method Passada(out: array?<Byte>, cap: nat, total: nat, bloco: array<Byte>)
        returns (n: nat, fim: bool, ghost more: seq<Byte>)
      requires Valid() && (out != null ==> cap <= out.Length) && bloco.Length == BLOCK && out != bloco
      modifies this`recebido, this`delivered, wire, chunks, out, bloco
      ensures Valid() && old(wire.taken) <= wire.taken && wire.Sent() == old(wire.Sent())
      ensures |more| == n && delivered == old(delivered) + more
      ensures fim <==> n < BLOCK && Finished()
      ensures |wire.rest| <= |old(wire.rest)| - n && (old(Finished()) ==> Finished() && n == 0)
      ensures wire.closed ==> n == BLOCK || fim || wire.rest == []
      ensures n == BLOCK || fim || wire.dry > old(wire.dry)
      ensures wire.dry >= old(wire.dry) && wire.hangups == old(wire.hangups) && wire.asked == old(wire.asked)
      ensures out != null ==> out[cap..] == old(out[cap..])
      ensures out != null && cap > 0 ==>
        out[..Min(total + n, cap - 1)] ==
          old(out[..Min(total, cap - 1)]) + more[..Min(total + n, cap - 1) - Min(total, cap - 1)]
    {
      ghost var buf := bloco[..];
      n, fim, more := LerCorpo(bloco, BLOCK);
      PatchPrefix(buf, more);
      Guardar(out, cap, total, bloco, n);
      assert bloco[..n] == more;
    }

    /** Keeps of a block what still fits before the terminator. */
    static method Guardar(out: array?<Byte>, cap: nat, total: nat, bloco: array<Byte>, n: nat)
      requires (out != null ==> cap <= out.Length) && n <= bloco.Length && out != bloco
      modifies out
      ensures out != null ==> out[cap..] == old(out[cap..])
      ensures out != null && cap > 0 ==>
        out[..Min(total + n, cap - 1)] ==
          old(out[..Min(total, cap - 1)]) + bloco[..Min(total + n, cap - 1) - Min(total, cap - 1)]
    {
      if out != null && total + 1 < cap {
        var cabe := Min(n, cap - 1 - total);
        forall k | 0 <= k < cabe { out[total + k] := bloco[k]; }
      }
    }

    static method Terminar(out: array<Byte>, cap: nat, total: nat)
      requires 0 < cap <= out.Length
      modifies out
      ensures var end := Min(total, cap - 1);
        out[..end] == old(out[..end]) && out[end] == 0 && out[end + 1..] == old(out[end + 1..])
      ensures out[cap..] == old(out[cap..])
    {
      out[if total < cap then total else cap - 1] := 0;
    }

    /** The bytes reported with Ok are the whole body: all of Content-Length, the payload of a
        finished chunked body, or everything a peer that bounded neither sent before it hung up. */
    ghost predicate WholeBody()
      reads this, wire, chunks
    {
      if chunked then Decode(START, wire.taken) == (chunks.View(), reported) && chunks.phase == Done
      else reported == wire.taken && (length > 0 ==> |reported| == length)
    }

    /** A download is open, the caller gave a buffer, and the link still gives out the HTTP mux. */
    predicate Readable(out: array?<Byte>, cap: nat, leased: bool)
      reads this
    {
      open && out != null && cap > 0 && leased
    }

    predicate Broken()
      reads this, chunks
    {
      chunked && chunks.phase == Invalid
    }

    /** The framing is broken, or a bounded body ended too soon. */
    ghost predicate CutOff()
      reads this, wire, chunks
    {
      Broken() || (wire.rest == [] && !Finished() && (chunked || length > 0))
    }

    /** What an unfinished body comes to when nothing arrives: the socket was asked in that very call,
        and while it is up or says that bytes wait there is nothing yet; else the body is over if
        neither header bounds it, and cut off if one does. */
    ghost predicate Silence(e: HttpError, askedBefore: nat)
      reads wire
    {
      && wire.asked > askedBefore
      && (e == WouldBlock || e == Timeout <==> wire.lastUp || wire.lastCount != 0)
      && (e == Eof <==> !wire.lastUp && wire.lastCount == 0 && !chunked && length == 0)
      && (e == Transport <==> !wire.lastUp && wire.lastCount == 0 && (chunked || length > 0))
    }

    /** The next piece of a download. `Eof` is only ever the end. Bytes that arrive are reported, an
        end that is reached is reported, and what fails is a broken framing or a peer that hung up
        in the middle. */
    method ReadChunk(out: array?<Byte>, cap: nat, leased: bool, now: Word32) returns (e: HttpError, got: nat)
      requires Valid() && Honest() && (out != null ==> cap <= out.Length)
      modifies this`recebido, this`delivered, this`reported, this`ultimoByte, wire, chunks, out
      ensures Valid() && Honest() && open == old(open) && wire.Sent() == old(wire.Sent())
      ensures e == Ok ==> got > 0 && out != null && got <= cap && reported == old(reported) + out[..got]
      ensures e != Ok ==> reported == old(reported)
      ensures e == Eof ==> got == 0 && reported == delivered && WholeBody()
      ensures e == Eof && !chunked && length == 0 ==> wire.hangups > old(wire.hangups)
      ensures !Readable(out, cap, leased) ==> e == Transport && wire.taken == old(wire.taken)
      ensures Readable(out, cap, leased) ==>
        && (Broken() ==> e == Transport)
        && (!Broken() && delivered != old(delivered) ==> e == Ok)
        && (!Broken() && delivered == old(delivered) && Finished() ==> e == Eof)
        && (e == Transport ==> Broken() || (!Finished() && wire.hangups > old(wire.hangups) && (chunked || length > 0)))
        && (e == Timeout ==> Elapsed(now, ultimoByte) > 30000)
        && (e == WouldBlock ==> Elapsed(now, ultimoByte) <= 30000)
        && (!Broken() && delivered == old(delivered) && !Finished() ==> Silence(e, old(wire.asked)))
        && (wire.closed ==> e != WouldBlock && e != Timeout)
        && (wire.closed && e == Transport ==> Broken() || wire.rest == [])
      ensures |wire.rest| <= |old(wire.rest)| - got
      ensures e == WouldBlock || e == Timeout ==> !Finished() && reported == delivered && wire.dry > old(wire.dry)
      ensures ultimoByte == if e == Ok then now else old(ultimoByte)
    {
      got := 0;
      if !open || out == null || cap == 0 { return Transport, 0; }
      if !leased { return Transport, 0; }
      ghost var buf, body := out[..], [];
      var fim;
      got, fim, body := LerCorpo(out, cap);
      PatchPrefix(buf, body);
      if chunked && chunks.phase == Invalid { return Transport, got; }
      if got > 0 {
        ultimoByte := now;
        reported := reported + out[..got];
        return Ok, got;
      }
      if fim { return Eof, 0; }
      var gone := Sumiu();
      if gone {
        return if !chunked && length == 0 then Eof else Transport, 0;
      }
      if Elapsed(now, ultimoByte) > IDLE_TIMEOUT_MS { return Timeout, 0; }
      return WouldBlock, 0;
    }
  }

  /** A download: a client made for a response and asked for piece after piece, for as long as
      there is a piece or nothing has arrived yet. `clock` is when it is asked, `leases` whether the
      link still lends the mux. However the calls fall, the pieces answered with Ok, in order, are a
      prefix of the body the peer sent, and Eof means that they are all of it. And if the peer has
      sent everything and closed, asking often enough ends in Eof exactly when it sent the whole body,
      and in Transport otherwise. */
  method Download(wire: Wire, length: Word32, chunked: bool, out: array<Byte>, clock: seq<Word32>, leases: seq<bool>)
      returns (last: HttpError, pieces: seq<seq<Byte>>, client: GsmHttpClient, ghost calls: nat)
    requires wire.taken == [] && out.Length > 0 && 0 < |clock| == |leases|
    modifies wire, out
    ensures client.wire == wire && client.length == length && client.chunked == chunked && fresh(client)
    ensures client.Valid() && client.Honest() && client.reported == Flat(pieces)
    ensures last == Eof ==> client.WholeBody()
    ensures last == Ok || last == WouldBlock ==> calls == |clock|
    ensures wire.Sent() == old(wire.Sent())
    ensures Flat(pieces) <= BodyOf(chunked, old(wire.rest))
    ensures !client.Broken() ==> Flat(pieces) == BodyOf(chunked, wire.taken)
    ensures last == Eof && chunked ==> Flat(pieces) == BodyOf(chunked, old(wire.rest))
    ensures wire.closed && |clock| > |old(wire.rest)| && (forall i :: 0 <= i < |leases| ==> leases[i]) ==>
      && (last == Eof <==> Complete(chunked, length, old(wire.rest)))
      && (last == Transport <==> !Complete(chunked, length, old(wire.rest)))
  {
    client := new GsmHttpClient(wire, length, chunked, clock[0]);
    last, pieces := Ok, [];
    var i := 0;
    while i < |clock| && (last == Ok || last == WouldBlock)
      invariant i <= |clock| && client.wire == wire && client.length == length && client.chunked == chunked
      invariant fresh(client) && fresh(client.chunks) && client.open
      invariant client.Valid() && client.Honest() && client.reported == Flat(pieces)
      invariant last == Eof ==> client.WholeBody()
      invariant wire.Sent() == old(wire.Sent())
      invariant wire.closed && (forall i :: 0 <= i < |leases| ==> leases[i]) ==>
        && last != WouldBlock && last != Timeout && (last == Ok ==> i + |wire.rest| <= |old(wire.rest)|)
        && (last == Transport ==> client.CutOff())
    {
      var got;
      last, got := client.ReadChunk(out, out.Length, leases[i], clock[i]);
      if last == Ok {
        FlatSnoc(pieces, out[..got]);
        pieces := pieces + [out[..got]];
      }
      i := i + 1;
    }
    calls := i;
    BodyGrows(chunked, wire.taken, wire.rest);
    EndIsKept(chunked, length, wire.taken, wire.rest);
    assert old(wire.taken) + old(wire.rest) == old(wire.rest);
  }

  /** A peer has sent the whole body. */
  predicate Complete(chunked: bool, length: Word32, sent: seq<Byte>) {
    if chunked then Decode(START, sent).0.phase == Done else length == 0 || |sent| >= length
  }

  /** The end, or the break, of a chunked body is there to stay. */
  lemma EndIsKept(chunked: bool, length: Word32, a: seq<Byte>, b: seq<Byte>)
    ensures chunked && Decode(START, a).0.phase == Invalid ==> !Complete(chunked, length, a + b)
    ensures chunked && Decode(START, a).0.phase == Done ==> Complete(chunked, length, a + b)
    ensures b == [] ==> a + b == a
  {
    DecodeConcat(START, a, b);
    var d := Decode(START, a).0;
    if d.phase == Done || d.phase == Invalid { FinalPhases(d, b); }
  }

  /** What the bytes of a response come to. */
  function BodyOf(chunked: bool, bytes: seq<Byte>): seq<Byte> { if chunked then Decode(START, bytes).1 else bytes }

  /** More bytes never take anything back, and after the end of a chunked body they add nothing. */
  lemma BodyGrows(chunked: bool, a: seq<Byte>, b: seq<Byte>)
    ensures BodyOf(chunked, a) <= BodyOf(chunked, a + b)
    ensures chunked && Decode(START, a).0.phase == Done ==> BodyOf(chunked, a + b) == BodyOf(chunked, a)
  {
    DecodeConcat(START, a, b);
    var d := Decode(START, a).0;
    if d.phase == Done { FinalPhases(d, b); }
  }

  lemma {:induction false} FlatSnoc(pieces: seq<seq<Byte>>, last: seq<Byte>)
    ensures Flat(pieces + [last]) == Flat(pieces) + last
    decreases |pieces|
  {
    if pieces == [] {
      assert [last][1..] == [] && last + [] == last && [] + last == last && pieces + [last] == [last];
    } else {
      assert (pieces + [last])[1..] == pieces[1..] + [last];
      FlatSnoc(pieces[1..], last);
      assert pieces[0] + (Flat(pieces[1..]) + last) == pieces[0] + Flat(pieces[1..]) + last;
    }
  }

  /** Filling a buffer piece by piece from the front. */
  lemma PatchExtends(buf: seq<Byte>, body: seq<Byte>, bytes: seq<Byte>)
    requires |body| + |bytes| <= |buf|
    ensures Patched(Patched(buf, 0, body), |body|, bytes) == Patched(buf, 0, body + bytes)
  {
    var p := Patched(buf, 0, body);
    assert p[..|body|] == body;
    assert p[|body| + |bytes|..] == buf[|body| + |bytes|..];
  }

  lemma PatchPrefix(buf: seq<Byte>, body: seq<Byte>)
    requires |body| <= |buf|
    ensures Patched(buf, 0, body)[..|body|] == body && Patched(buf, 0, body)[|body|..] == buf[|body|..]
  {}

  lemma FirstBytes(a: seq<Byte>, b: seq<Byte>, cap: nat)
    ensures cap > 0 ==>
      (a + b)[..Min(|a| + |b|, cap - 1)] ==
        a[..Min(|a|, cap - 1)] + b[..Min(|a| + |b|, cap - 1) - Min(|a|, cap - 1)]
  {}

  /** Two ways of reading the same bytes cannot disagree: whatever the pieces, the calls and
      the capacities were, the payload and the decoder state depend on the bytes alone. */
  lemma SplitDoesNotMatter(pieces: seq<seq<Byte>>, whole: seq<Byte>)
    requires Flat(pieces) == whole
    ensures DecodePieces(START, pieces) == Decode(START, whole)
  {
    PiecesAreTheWhole(START, pieces);
  }

  function Flat(pieces: seq<seq<Byte>>): seq<Byte> { if pieces == [] then [] else pieces[0] + Flat(pieces[1..]) }

  function DecodePieces(d: Decoder, pieces: seq<seq<Byte>>): (Decoder, seq<Byte>)
    decreases |pieces|
  {
    if pieces == [] then (d, [])
    else
      var (d1, o1) := Decode(d, pieces[0]);
      var (d2, o2) := DecodePieces(d1, pieces[1..]);
      (d2, o1 + o2)
  }

  lemma {:induction false} PiecesAreTheWhole(d: Decoder, pieces: seq<seq<Byte>>)
    ensures DecodePieces(d, pieces) == Decode(d, Flat(pieces))
    decreases |pieces|
  {
    if pieces != [] {
      PiecesAreTheWhole(Decode(d, pieces[0]).0, pieces[1..]);
      DecodeConcat(d, pieces[0], Flat(pieces[1..]));
    }
  }

  /** A chunked body cut short anywhere is not one the decoder calls finished, so readChunk
      cannot report its end; a body sent whole is, and its bytes are the payload. */
  lemma TruncationIsNeverTheEnd(b: Body, taken: seq<Byte>)
    requires BodyOk(b) && taken <= Encode(b)
    ensures Decode(START, taken).0.phase == Done <==> taken == Encode(b)
    ensures taken == Encode(b) ==> Decode(START, taken).1 == Payload(b.chunks)
    ensures Decode(START, taken).0.phase != Invalid
  {
    var n := |taken|;
    assert taken == Encode(b)[..n] && |Encode(b)| > 0;
    RoundTrip(b, if n < |Encode(b)| then n else 0);
    assert n == |Encode(b)| ==> taken == Encode(b);
  }
}

/**
 What the chunked decoder accepts: a grammar for section 7.1 of RFC 9112, as leniently as
 the decoder reads it, and the proof that the decoder accepts exactly that language and
 yields exactly the payload.
 */
module ChunkedGrammar {
  import opened Words
  import opened Chunked

  // ---------------------------------------------------------------- size lines

  predicate Blank(c: Byte) { c == CR || c == SPACE || c == TAB }

  predicate SizeByte(c: Byte) { Blank(c) || HexValue(c) >= 0 }

  predicate SizeBytes(line: seq<Byte>) { forall i :: 0 <= i < |line| ==> SizeByte(line[i]) }

  /** The number a size line writes; blanks and carriage returns count for nothing, anywhere. */
  function Value(line: seq<Byte>): nat
    requires SizeBytes(line)
  {
    if line == [] then 0
    else
      var rest, c := line[..|line| - 1], line[|line| - 1];
      if Blank(c) then Value(rest) else Value(rest) * 16 + HexValue(c)
  }

  predicate HasDigit(line: seq<Byte>) { exists i :: 0 <= i < |line| && !Blank(line[i]) }

  lemma {:induction false} ValueGrows(line: seq<Byte>, k: nat)
    requires SizeBytes(line) && k <= |line|
    ensures Value(line[..k]) <= Value(line)
  {
    if k < |line| {
      var rest := line[..|line| - 1];
      ValueGrows(rest, k);
      assert rest[..k] == line[..k];
    } else {
      assert line[..k] == line;
    }
  }

  /** A size line is invalid exactly when the number it writes does not fit 32 bits, however
      many zeros, blanks and letter cases it is written with; otherwise it is read exactly. */
  lemma {:induction false} SizeLineIsReadExactly(line: seq<Byte>)
    requires SizeBytes(line)
    ensures var (d, out) := Decode(START, line);
      && out == []
      && (d.phase == Invalid <==> Value(line) >= WORD)
      && (Value(line) < WORD ==> d == Decoder(Size, Value(line), HasDigit(line), true))
  {
    if line != [] {
      var rest, c := line[..|line| - 1], line[|line| - 1];
      SizeLineIsReadExactly(rest);
      assert line == rest + [c];
      DecodeSnoc(START, rest, c);
      ValueGrows(line, |rest|);
      if Decode(START, rest).0.phase == Invalid {
        FinalPhases(Decode(START, rest).0, [c]);
        DecodeOne(Decode(START, rest).0, c);
      } else if Blank(c) {
        assert HasDigit(line) <==> HasDigit(rest) by { BlankAddsNoDigit(rest, c); }
      } else {
        assert !Blank(line[|line| - 1]);
      }
    }
  }

  lemma BlankAddsNoDigit(rest: seq<Byte>, c: Byte)
    requires Blank(c)
    ensures HasDigit(rest + [c]) <==> HasDigit(rest)
  {
    if HasDigit(rest) {
      var i :| 0 <= i < |rest| && !Blank(rest[i]);
      assert (rest + [c])[i] == rest[i];
    }
  }

  // -------------------------------------------------------------------- bodies

  /** One chunk on the wire: size line, extension, LF, data, carriage returns, LF. */
  datatype Chunk = Chunk(line: seq<Byte>, ext: seq<Byte>, data: seq<Byte>, crs: nat)

  datatype Body = Body(chunks: seq<Chunk>, lastLine: seq<Byte>, lastExt: seq<Byte>,
                       trailers: seq<seq<Byte>>, crs: nat)

  predicate ExtensionOk(ext: seq<Byte>) {
    ext == [] || (ext[0] == SEMICOLON && LF !in ext)
  }

  predicate LineOk(line: seq<Byte>, size: nat) {
    SizeBytes(line) && HasDigit(line) && Value(line) == size
  }

  predicate ChunkOk(c: Chunk) {
    0 < |c.data| < WORD && LineOk(c.line, |c.data|) && ExtensionOk(c.ext)
  }

  /** A trailer line with something on it besides carriage returns. */
  predicate TrailerOk(line: seq<Byte>) {
    LF !in line && exists i :: 0 <= i < |line| && line[i] != CR
  }

  predicate BodyOk(b: Body) {
    && (forall i :: 0 <= i < |b.chunks| ==> ChunkOk(b.chunks[i]))
    && LineOk(b.lastLine, 0) && ExtensionOk(b.lastExt)
    && (forall i :: 0 <= i < |b.trailers| ==> TrailerOk(b.trailers[i]))
  }

  function Crs(n: nat): seq<Byte> { if n == 0 then [] else [CR] + Crs(n - 1) }

  function EncodeChunk(c: Chunk): seq<Byte> {
    c.line + c.ext + [LF] + c.data + Crs(c.crs) + [LF]
  }

  function EncodeChunks(cs: seq<Chunk>): seq<Byte> {
    if cs == [] then [] else EncodeChunk(cs[0]) + EncodeChunks(cs[1..])
  }

  function EncodeTrailers(ts: seq<seq<Byte>>): seq<Byte> {
    if ts == [] then [] else ts[0] + [LF] + EncodeTrailers(ts[1..])
  }

  /** Everything from the zero-size chunk on. */
  function EncodeEnd(b: Body): seq<Byte> {
    b.lastLine + b.lastExt + [LF] + EncodeTrailers(b.trailers) + Crs(b.crs) + [LF]
  }

  function Encode(b: Body): seq<Byte> { EncodeChunks(b.chunks) + EncodeEnd(b) }

  function Payload(cs: seq<Chunk>): seq<Byte> {
    if cs == [] then [] else cs[0].data + Payload(cs[1..])
  }

  // ----------------------------------------------------------------- round trip

  lemma {:induction false} CrsAreSkipped(d: Decoder, n: nat)
    requires d.phase == DataEnd || d.phase == Trailer
    ensures Decode(d, Crs(n)) == (d, [])
  {
    if n > 0 {
      CrsAreSkipped(d, n - 1);
      DecodeConcat(d, [CR], Crs(n - 1));
      DecodeOne(d, CR);
    }
  }

  lemma {:induction false} ExtensionIsSkipped(d: Decoder, s: seq<Byte>)
    requires d.phase == Extension && LF !in s
    ensures Decode(d, s) == (d, [])
  {
    if s != [] {
      assert s[0] in s && LF !in s[1..];
      ExtensionIsSkipped(d, s[1..]);
      SkipOne(d, s);
    }
  }

  /** Size line, extension and its LF lead to the data, or to the trailer. */
  lemma HeadIsRead(line: seq<Byte>, ext: seq<Byte>, size: nat)
    requires LineOk(line, size) && size < WORD && ExtensionOk(ext)
    ensures Decode(START, line + ext + [LF]) == (Decoder(if size == 0 then Trailer else Data, size, true, true), [])
  {
    SizeLineIsReadExactly(line);
    var d := Decode(START, line).0;
    DecodeConcat(START, line, ext);
    if ext != [] {
      assert ext == [ext[0]] + ext[1..];
      DecodeConcat(d, [SEMICOLON], ext[1..]);
      DecodeOne(d, SEMICOLON);
      ExtensionIsSkipped(d.(phase := Extension), ext[1..]);
    }
    DecodeSnoc(START, line + ext, LF);
  }

  lemma ChunkIsRead(c: Chunk)
    requires ChunkOk(c)
    ensures Decode(START, EncodeChunk(c)) == (START, c.data)
  {
    var head := c.line + c.ext + [LF];
    HeadIsRead(c.line, c.ext, |c.data|);
    var d := Decode(START, head).0;
    BulkIsByteByByte(d, c.data);
    DecodeConcat(START, head, c.data);
    var e := Consumed(d, |c.data|);
    CrsAreSkipped(e, c.crs);
    DecodeConcat(START, head + c.data, Crs(c.crs));
    DecodeSnoc(START, head + c.data + Crs(c.crs), LF);
    assert [] + c.data + [] + [] == c.data;
  }

  lemma {:induction false} ChunksAreRead(cs: seq<Chunk>)
    requires forall i :: 0 <= i < |cs| ==> ChunkOk(cs[i])
    ensures Decode(START, EncodeChunks(cs)) == (START, Payload(cs))
  {
    if cs != [] {
      ChunkIsRead(cs[0]);
      ChunksAreRead(cs[1..]);
      DecodeConcat(START, EncodeChunk(cs[0]), EncodeChunks(cs[1..]));
    }
  }

  /** A trailer line leaves the decoder where it was; only what is on it tells whether it was empty. */
  lemma {:induction false} TrailerBytes(d: Decoder, s: seq<Byte>)
    requires d.phase == Trailer && LF !in s
    ensures Decode(d, s) == (d.(lineEmpty := d.lineEmpty && forall i :: 0 <= i < |s| ==> s[i] == CR), [])
    decreases |s|
  {
    if s != [] {
      assert s[0] in s && LF !in s[1..];
      var e := Eat(d, s[0]).0;
      TrailerBytes(e, s[1..]);
      SkipOne(d, s);
      assert (forall i :: 0 <= i < |s| ==> s[i] == CR) <==>
             (s[0] == CR && forall i :: 0 <= i < |s[1..]| ==> s[1..][i] == CR) by {
        if forall i :: 0 <= i < |s[1..]| ==> s[1..][i] == CR {
          assert forall i :: 1 <= i < |s| ==> s[i] == s[1..][i - 1];
        }
      }
    }
  }

  lemma {:induction false} TrailersAreRead(d: Decoder, ts: seq<seq<Byte>>)
    requires d.phase == Trailer && d.lineEmpty
    requires forall i :: 0 <= i < |ts| ==> TrailerOk(ts[i])
    ensures Decode(d, EncodeTrailers(ts)) == (d, [])
  {
    if ts != [] {
      var t := ts[0];
      TrailerBytes(d, t);
      DecodeSnoc(d, t, LF);
      TrailersAreRead(d, ts[1..]);
      DecodeConcat(d, t + [LF], EncodeTrailers(ts[1..]));
    }
  }

  /** Up to the last LF the body is not finished; that LF finishes it. */
  lemma EndIsRead(b: Body)
    requires BodyOk(b)
    ensures EncodeEnd(b)[..|EncodeEnd(b)| - 1] + [LF] == EncodeEnd(b)
    ensures Decode(START, EncodeEnd(b)[..|EncodeEnd(b)| - 1]) == (Decoder(Trailer, 0, true, true), [])
    ensures Decode(START, EncodeEnd(b)) == (Decoder(Done, 0, true, true), [])
  {
    var head := b.lastLine + b.lastExt + [LF];
    var d := Decoder(Trailer, 0, true, true);
    HeadIsRead(b.lastLine, b.lastExt, 0);
    TrailersAreRead(d, b.trailers);
    DecodeConcat(START, head, EncodeTrailers(b.trailers));
    CrsAreSkipped(d, b.crs);
    DecodeConcat(START, head + EncodeTrailers(b.trailers), Crs(b.crs));
    var all := head + EncodeTrailers(b.trailers) + Crs(b.crs);
    assert EncodeEnd(b) == all + [LF] && EncodeEnd(b)[..|EncodeEnd(b)| - 1] == all;
    DecodeSnoc(START, all, LF);
  }

  /** Decoding an encoded body ends done with exactly its payload, and every strict prefix of
      it is neither done nor invalid, so a truncated body never looks complete or broken. */
  lemma RoundTrip(b: Body, k: nat)
    requires BodyOk(b) && k < |Encode(b)|
    ensures Decode(START, Encode(b)) == (Decoder(Done, 0, true, true), Payload(b.chunks))
    ensures var d := Decode(START, Encode(b)[..k]).0; d.phase != Done && d.phase != Invalid
  {
    var cs, end := EncodeChunks(b.chunks), EncodeEnd(b);
    ChunksAreRead(b.chunks);
    EndIsRead(b);
    DecodeConcat(START, cs, end);
    assert Payload(b.chunks) + [] == Payload(b.chunks);
    var s, last := Encode(b), end[..|end| - 1];
    DecodeConcat(START, cs, last);
    var p := cs + last;
    assert s == p + [LF];
    assert p[..k] == s[..k] && p == p[..k] + p[k..];
    DecodeConcat(START, p[..k], p[k..]);
    var d := Decode(START, p[..k]).0;
    if d.phase == Done || d.phase == Invalid { FinalPhases(d, p[k..]); }
  }

  // --------------------------------------------------- nothing else is accepted

  lemma FirstLf(s: seq<Byte>) returns (i: nat)
    requires LF in s
    ensures i < |s| && s[i] == LF && LF !in s[..i]
  {
    i := 0;
    while s[i] != LF
      invariant i < |s| && LF !in s[..i] && LF in s[i..]
      decreases |s| - i
    {
      assert s[..i + 1] == s[..i] + [s[i]];
      assert s[i..] == [s[i]] + s[i + 1..];
      i := i + 1;
    }
  }

  /** Where a decoder that is not yet final has to go on to reach Done. */
  lemma Continue(d: Decoder, s: seq<Byte>, n: nat)
    requires n <= |s| && Decode(d, s).0.phase == Done
    ensures Decode(Decode(d, s[..n]).0, s[n..]).0.phase == Done
    ensures Decode(d, s[..n]).0.phase != Invalid
  {
    assert s == s[..n] + s[n..];
    DecodeConcat(d, s[..n], s[n..]);
    if Decode(d, s[..n]).0.phase == Invalid { FinalPhases(Decode(d, s[..n]).0, s[n..]); }
  }

  lemma SplitSizeLine(s: seq<Byte>) returns (i: nat)
    requires Decode(START, s).0.phase == Done
    ensures i < |s| && (s[i] == LF || s[i] == SEMICOLON)
    ensures SizeBytes(s[..i]) && LineOk(s[..i], Value(s[..i])) && Value(s[..i]) < WORD
  {
    i := 0;
    while i < |s| && SizeByte(s[i])
      invariant i <= |s| && SizeBytes(s[..i])
    {
      i := i + 1;
    }
    Continue(START, s, i);
    SizeLineIsReadExactly(s[..i]);
    var d := Decode(START, s[..i]).0;
    assert s[..|s|] == s;
    Continue(START, s, i + 1);
    assert s[..i + 1] == s[..i] + [s[i]];
    DecodeSnoc(START, s[..i], s[i]);
  }

  lemma SemicolonOpensExtension(s: seq<Byte>, i: nat)
    requires i < |s| && s[i] == SEMICOLON && SizeBytes(s[..i]) && LineOk(s[..i], Value(s[..i])) && Value(s[..i]) < WORD
    ensures Decode(START, s[..i + 1]).0.phase == Extension
  {
    SizeLineIsReadExactly(s[..i]);
    assert s[..i + 1] == s[..i] + [SEMICOLON];
    DecodeSnoc(START, s[..i], SEMICOLON);
  }

  lemma SplitExtension(s: seq<Byte>, i: nat) returns (j: nat)
    requires Decode(START, s).0.phase == Done && i < |s| && (s[i] == LF || s[i] == SEMICOLON)
    requires SizeBytes(s[..i]) && LineOk(s[..i], Value(s[..i])) && Value(s[..i]) < WORD
    ensures i <= j < |s| && s[j] == LF && ExtensionOk(s[i..j])
  {
    j := i;
    if s[i] == SEMICOLON {
      var tail := s[i + 1..];
      SemicolonOpensExtension(s, i);
      Continue(START, s, i + 1);
      if LF !in tail { ExtensionIsSkipped(Decode(START, s[..i + 1]).0, tail); }
      var k := FirstLf(tail);
      j := i + 1 + k;
      assert s[i..j] == [SEMICOLON] + tail[..k];
    }
  }

  lemma SplitHead(s: seq<Byte>) returns (line: seq<Byte>, ext: seq<Byte>, rest: seq<Byte>)
    requires Decode(START, s).0.phase == Done
    ensures s == line + ext + [LF] + rest && ExtensionOk(ext)
    ensures SizeBytes(line) && LineOk(line, Value(line)) && Value(line) < WORD
    ensures Decode(Decoder(if Value(line) == 0 then Trailer else Data, Value(line), true, true), rest).0.phase == Done
  {
    var i := SplitSizeLine(s);
    var j := SplitExtension(s, i);
    line, ext, rest := s[..i], s[i..j], s[j + 1..];
    assert s[..j + 1] == line + ext + [LF];
    assert s == s[..j + 1] + s[j + 1..];
    HeadIsRead(line, ext, Value(line));
    Continue(START, s, j + 1);
  }

  lemma {:induction false} SplitCrs(d: Decoder, s: seq<Byte>) returns (n: nat, rest: seq<Byte>)
    requires d.phase == DataEnd && Decode(d, s).0.phase == Done
    ensures s == Crs(n) + [LF] + rest
  {
    if s[0] == CR {
      SkipOne(d, s);
      var m;
      m, rest := SplitCrs(d, s[1..]);
      n := m + 1;
      assert s == [CR] + s[1..];
    } else {
      Continue(d, s, 1);
      assert s[..1] == [s[0]];
      DecodeOne(d, s[0]);
      n, rest := 0, s[1..];
    }
  }

  /** The data of a chunk and what closes it. */
  lemma SplitData(n: Word32, rest: seq<Byte>) returns (data: seq<Byte>, crs: nat, after: seq<Byte>)
    requires n > 0 && Decode(Decoder(Data, n, true, true), rest).0.phase == Done
    ensures |data| == n && rest == data + Crs(crs) + [LF] + after
  {
    var d := Decoder(Data, n, true, true);
    assert |rest| >= n by {
      if |rest| < n && rest != [] { BulkIsByteByByte(d, rest); }
    }
    data := rest[..n];
    BulkIsByteByByte(d, data);
    Continue(d, rest, n);
    crs, after := SplitCrs(Consumed(d, n), rest[n..]);
    assert rest == data + rest[n..];
    Regroup(data, Crs(crs), [LF], after);
  }

  lemma Regroup(a: seq<Byte>, b: seq<Byte>, c: seq<Byte>, d: seq<Byte>)
    ensures a + (b + c + d) == a + b + c + d
  {}

  lemma SplitChunk(s: seq<Byte>, line: seq<Byte>, ext: seq<Byte>, rest: seq<Byte>) returns (c: Chunk, after: seq<Byte>)
    requires SizeBytes(line) && LineOk(line, Value(line)) && 0 < Value(line) < WORD && ExtensionOk(ext)
    requires s == line + ext + [LF] + rest && Decode(START, s).0.phase == Done
    requires Decode(Decoder(Data, Value(line), true, true), rest).0.phase == Done
    ensures ChunkOk(c) && s == EncodeChunk(c) + after && Decode(START, after).0.phase == Done && |after| < |s|
  {
    var data, crs;
    data, crs, after := SplitData(Value(line), rest);
    c := Chunk(line, ext, data, crs);
    assert s == EncodeChunk(c) + after by { Regroup(line + ext + [LF], data, Crs(crs), [LF] + after); }
    ChunkIsRead(c);
    assert s[..|EncodeChunk(c)|] == EncodeChunk(c) && s[|EncodeChunk(c)|..] == after;
    Continue(START, s, |EncodeChunk(c)|);
  }

  lemma AllCrs(s: seq<Byte>)
    requires forall i :: 0 <= i < |s| ==> s[i] == CR
    ensures s == Crs(|s|)
  {
    if s != [] { AllCrs(s[1..]); }
  }

  lemma ConsTrailer(line: seq<Byte>, more: seq<seq<Byte>>, tail: seq<Byte>)
    ensures line + [LF] + (EncodeTrailers(more) + tail) == EncodeTrailers([line] + more) + tail
  {
    assert ([line] + more)[1..] == more;
  }

  /** The first line of a trailer; if it has anything on it, the trailer goes on behind it. */
  lemma FirstTrailerLine(d: Decoder, s: seq<Byte>) returns (line: seq<Byte>, rest: seq<Byte>)
    requires d.phase == Trailer && d.lineEmpty && Decode(d, s).0.phase == Done
    ensures s == line + [LF] + rest && LF !in line
    ensures (exists k :: 0 <= k < |line| && line[k] != CR) ==> Decode(d, rest).0.phase == Done
  {
    if LF !in s { TrailerBytes(d, s); }
    var i := FirstLf(s);
    line, rest := s[..i], s[i + 1..];
    TrailerBytes(d, line);
    assert s[..i + 1] == line + [LF];
    DecodeSnoc(d, line, LF);
    Continue(d, s, i + 1);
    assert s == (line + [LF]) + rest;
  }

  lemma {:induction false} SplitTrailers(d: Decoder, s: seq<Byte>)
      returns (ts: seq<seq<Byte>>, crs: nat, rest: seq<Byte>)
    requires d.phase == Trailer && d.lineEmpty && Decode(d, s).0.phase == Done
    ensures s == EncodeTrailers(ts) + Crs(crs) + [LF] + rest
    ensures forall i :: 0 <= i < |ts| ==> TrailerOk(ts[i])
    decreases |s|
  {
    var line;
    line, rest := FirstTrailerLine(d, s);
    if forall k :: 0 <= k < |line| ==> line[k] == CR {
      AllCrs(line);
      ts, crs := [], |line|;
      assert [] + Crs(crs) == line;
    } else {
      var more, tail;
      more, crs, tail := SplitTrailers(d, rest);
      ts := [line] + more;
      ConsTrailer(line, more, Crs(crs) + [LF] + tail);
      Regroup(EncodeTrailers(more), Crs(crs), [LF], tail);
      Regroup(EncodeTrailers(ts), Crs(crs), [LF], tail);
      rest := tail;
    }
  }

  lemma OnlyTheEnd(b: Body)
    requires BodyOk(b) && b.chunks == []
    ensures Encode(b) == EncodeEnd(b)
  {
    assert EncodeChunks([]) == [] && [] + EncodeEnd(b) == EncodeEnd(b);
  }

  lemma ParseEnd(line: seq<Byte>, ext: seq<Byte>, after: seq<Byte>) returns (b: Body, rest: seq<Byte>)
    requires LineOk(line, 0) && ExtensionOk(ext)
    requires Decode(Decoder(Trailer, 0, true, true), after).0.phase == Done
    ensures BodyOk(b) && line + ext + [LF] + after == Encode(b) + rest
  {
    var ts, crs;
    ts, crs, rest := SplitTrailers(Decoder(Trailer, 0, true, true), after);
    b := Body([], line, ext, ts, crs);
    OnlyTheEnd(b);
    Regroup(line + ext + [LF], EncodeTrailers(ts), Crs(crs) + [LF], rest);
  }

  /** Whatever the decoder calls done began with a well-formed body. */
  lemma {:induction false} ParseBody(s: seq<Byte>) returns (b: Body, rest: seq<Byte>)
    requires Decode(START, s).0.phase == Done
    ensures BodyOk(b) && s == Encode(b) + rest
    decreases |s|
  {
    var line, ext, after := SplitHead(s);
    if Value(line) == 0 {
      b, rest := ParseEnd(line, ext, after);
    } else {
      var c, tail := SplitChunk(s, line, ext, after);
      var b1;
      b1, rest := ParseBody(tail);
      b := b1.(chunks := [c] + b1.chunks);
      ConsChunk(c, b1);
      Assoc(EncodeChunk(c), Encode(b1), rest);
    }
  }

  lemma Assoc(a: seq<Byte>, b: seq<Byte>, c: seq<Byte>)
    ensures a + (b + c) == a + b + c
  {}

  lemma ConsChunk(c: Chunk, b: Body)
    requires ChunkOk(c) && BodyOk(b)
    ensures var z := b.(chunks := [c] + b.chunks); BodyOk(z) && Encode(z) == EncodeChunk(c) + Encode(b)
  {
    var z := b.(chunks := [c] + b.chunks);
    assert z.chunks[1..] == b.chunks && EncodeEnd(z) == EncodeEnd(b);
    assert EncodeChunks(z.chunks) == EncodeChunk(c) + EncodeChunks(b.chunks);
  }

  ghost predicate BeginsWithBody(s: seq<Byte>, b: Body) { BodyOk(b) && Encode(b) <= s }

  /** The decoder is done exactly on the streams that begin with a body of the grammar, and
      then what it passed on is that body's payload and nothing else. */
  lemma AcceptsExactlyTheGrammar(s: seq<Byte>)
    ensures Decode(START, s).0.phase == Done <==> exists b :: BeginsWithBody(s, b)
    ensures forall b :: BeginsWithBody(s, b) ==> Decode(START, s).1 == Payload(b.chunks)
  {
    if Decode(START, s).0.phase == Done {
      var b, rest := ParseBody(s);
      assert BeginsWithBody(s, b);
    }
    forall b | BeginsWithBody(s, b)
      ensures Decode(START, s).0.phase == Done && Decode(START, s).1 == Payload(b.chunks)
    {
      var n := |Encode(b)|;
      assert s == Encode(b) + s[n..] && n > 0;
      RoundTrip(b, 0);
      DecodeConcat(START, Encode(b), s[n..]);
      FinalPhases(Decoder(Done, 0, true, true), s[n..]);
      assert Payload(b.chunks) + [] == Payload(b.chunks);
    }
  }

  // --------------------------------------------------- a server's way of writing

  function HexDigit(v: nat): Byte
    requires v < 16
  {
    if v < 10 then 48 + v else 97 + v - 10
  }

  function HexLine(n: nat): seq<Byte> {
    if n < 16 then [HexDigit(n)] else HexLine(n / 16) + [HexDigit(n % 16)]
  }

  lemma {:induction false} HexLineWrites(n: nat)
    ensures LineOk(HexLine(n), n)
  {
    if n >= 16 {
      HexLineWrites(n / 16);
      var rest := HexLine(n / 16);
      assert HexLine(n)[..|HexLine(n)| - 1] == rest;
    } else {
      assert HexLine(n)[..0] == [];
    }
    assert !Blank(HexLine(n)[|HexLine(n)| - 1]);
  }

  /** CRLF framing with lower-case sizes and no extensions or trailers. */
  function Frame(parts: seq<seq<Byte>>): Body {
    Body(seq(|parts|, i requires 0 <= i < |parts| => Chunk(HexLine(|parts[i]|) + [CR], [], parts[i], 1)),
         [48, CR], [], [], 1)
  }

  lemma FramesAreWellFormed(parts: seq<seq<Byte>>)
    requires forall i :: 0 <= i < |parts| ==> 0 < |parts[i]| < WORD
    ensures BodyOk(Frame(parts))
  {
    forall i | 0 <= i < |parts| ensures ChunkOk(Frame(parts).chunks[i]) {
      HexLineWrites(|parts[i]|);
      TrailingCr(HexLine(|parts[i]|), |parts[i]|);
    }
    assert [48, CR][..1] == [48] && [48][..0] == [];
    assert !Blank([48, CR][0]);
  }

  lemma TrailingCr(line: seq<Byte>, n: nat)
    requires LineOk(line, n)
    ensures LineOk(line + [CR], n)
  {
    assert (line + [CR])[..|line|] == line;
    BlankAddsNoDigit(line, CR);
  }
}

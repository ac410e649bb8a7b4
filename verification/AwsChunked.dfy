/** The aws-chunked encoder, and an independent decoder for the chunked transfer coding of
    section 7.1 of RFC 9112 that reads back what the encoder writes. */
module AwsChunked {
  import opened Prelude
  import Base64
  import opened Checksum

  const COLON: byte := 58
  const CRLF: Bytes := [CR, LF]

  // ---- Hexadecimal sizes ----

  function HexDigit(d: nat): byte
    requires d < 16
  {
    if d < 10 then (48 + d) as byte else (87 + d) as byte
  }

  /** `hex(n)[2:]` */
  function Hex(n: nat): Bytes {
    if n < 16 then [HexDigit(n)] else Hex(n / 16) + [HexDigit(n % 16)]
  }

  /** HEXDIG of the grammar, in either case. */
  function HexValueOf(c: byte): Option<nat> {
    if 48 <= c <= 57 then Some(c as int - 48)
    else if 97 <= c <= 102 then Some(c as int - 87)
    else if 65 <= c <= 70 then Some(c as int - 55)
    else None
  }

  /** 1*HEXDIG, most significant digit first. */
  function ParseHex(s: Bytes): Option<nat> {
    if s == [] then None
    else
      var d := HexValueOf(s[|s| - 1]);
      if d == None then None
      else if |s| == 1 then d
      else
        var high := ParseHex(s[..|s| - 1]);
        if high == None then None else Some(16 * high.value + d.value)
  }

  lemma {:induction false} HexRoundTrip(n: nat)
    ensures ParseHex(Hex(n)) == Some(n)
    ensures Without(Hex(n), CR)
  {
    if n < 16 {
    } else {
      HexRoundTrip(n / 16);
      var s := Hex(n);
      assert s[..|s| - 1] == Hex(n / 16);
    }
  }

  // ---- What the encoder writes ----

  /** One chunk of the coding; with no data, the last chunk and an empty trailer section. */
  function Chunk(data: Bytes): Bytes {
    Hex(|data|) + CRLF + data + CRLF
  }

  function Chunks(blocks: seq<Bytes>): Bytes {
    if blocks == [] then [] else Chunk(blocks[0]) + Chunks(blocks[1..])
  }

  datatype Trailing<!S> = Trailing(alg: Algorithm<S>, name: Bytes)

  /** A header field name: not empty, no line breaks, no colon. */
  predicate IsFieldName(name: Bytes) {
    name != [] && Without(name, CR) && Without(name, LF) && Without(name, COLON)
  }

  function Terminator<S>(checksum: Option<Trailing<S>>, body: Bytes): Bytes {
    match checksum
    case None => Chunk([])
    case Some(t) => [48] + CRLF + t.name + [COLON] + Base64.Encode(Digest(t.alg, body)) + CRLF + CRLF
  }

  /** The whole text for a body that was read in these blocks. */
  function Encoded<S>(checksum: Option<Trailing<S>>, blocks: seq<Bytes>): Bytes {
    Chunks(blocks) + Terminator(checksum, Flatten(blocks))
  }

  // ---- The decoder ----

  datatype Field = Field(name: Bytes, value: Bytes)

  datatype Decoded = Decoded(sizes: seq<nat>, body: Bytes, trailers: seq<Field>)

  /** Index of the first CRLF. */
  function FindCrlf(s: Bytes): (r: Option<nat>)
    ensures r.Some? ==> r.value + 2 <= |s|
  {
    if |s| < 2 then None
    else if s[0] == CR && s[1] == LF then Some(0)
    else
      var r := FindCrlf(s[1..]);
      if r == None then None else Some(1 + r.value)
  }

  function FindColon(s: Bytes): (r: Option<nat>)
    ensures r.Some? ==> r.value < |s|
  {
    if s == [] then None
    else if s[0] == COLON then Some(0)
    else
      var r := FindColon(s[1..]);
      if r == None then None else Some(1 + r.value)
  }

  /** trailer-section CRLF, up to the very end of the text. */
  function DecodeTrailers(s: Bytes): Option<seq<Field>>
    decreases |s|
  {
    var end := FindCrlf(s);
    if end == None then None
    else if end.value == 0 then (if |s| == 2 then Some([]) else None)
    else
      var line := s[..end.value];
      var colon := FindColon(line);
      if colon == None || colon.value == 0 then None
      else
        var more := DecodeTrailers(s[end.value + 2..]);
        if more == None then None
        else Some([Field(line[..colon.value], line[colon.value + 1..])] + more.value)
  }

  /** *chunk last-chunk trailer-section CRLF */
  function Decode(s: Bytes): Option<Decoded>
    decreases |s|
  {
    var end := FindCrlf(s);
    if end == None then None
    else
      var size := ParseHex(s[..end.value]);
      var rest := s[end.value + 2..];
      if size == None then None
      else if size.value == 0 then
        var trailers := DecodeTrailers(rest);
        if trailers == None then None else Some(Decoded([], [], trailers.value))
      else
        var n := size.value;
        if |rest| < n + 2 || rest[n..n + 2] != CRLF then None
        else
          var more := Decode(rest[n + 2..]);
          if more == None then None
          else Some(Decoded([n] + more.value.sizes, rest[..n] + more.value.body, more.value.trailers))
  }

  // ---- Round trip ----

  lemma {:induction false} FindCrlfAt(line: Bytes, rest: Bytes)
    requires Without(line, CR)
    ensures FindCrlf(line + CRLF + rest) == Some(|line|)
  {
    var s := line + CRLF + rest;
    if line == [] {
      assert s[0] == CR && s[1] == LF;
    } else {
      assert s[0] == line[0];
      assert s[1..] == line[1..] + CRLF + rest;
      FindCrlfAt(line[1..], rest);
    }
  }

  lemma {:induction false} FindColonAt(name: Bytes, rest: Bytes)
    requires Without(name, COLON)
    ensures FindColon(name + [COLON] + rest) == Some(|name|)
  {
    var s := name + [COLON] + rest;
    if name == [] {
      assert s[0] == COLON;
    } else {
      assert s[0] == name[0];
      assert s[1..] == name[1..] + [COLON] + rest;
      FindColonAt(name[1..], rest);
    }
  }

  lemma DecodeUnfold(s: Bytes, sizeText: Bytes, n: nat, after: Bytes)
    requires FindCrlf(s) == Some(|sizeText|) && s[..|sizeText|] == sizeText && ParseHex(sizeText) == Some(n) && n > 0
    requires s[|sizeText| + 2..] == after && |after| >= n + 2 && after[n..n + 2] == CRLF
    requires Decode(after[n + 2..]).Some?
    ensures var more := Decode(after[n + 2..]).value;
            Decode(s) == Some(Decoded([n] + more.sizes, after[..n] + more.body, more.trailers))
  {
  }

  lemma DecodeChunk(block: Bytes, rest: Bytes)
    requires block != []
    requires Decode(rest).Some?
    ensures Decode(Chunk(block) + rest)
         == Some(Decoded([|block|] + Decode(rest).value.sizes, block + Decode(rest).value.body,
                         Decode(rest).value.trailers))
  {
    hide Decode, FindCrlf, ParseHex, Hex;
    var size, n := Hex(|block|), |block|;
    var s := Chunk(block) + rest;
    HexRoundTrip(n);
    var after := block + CRLF + rest;
    assert s == size + CRLF + after;
    FindCrlfAt(size, after);
    assert s[..|size|] == size && s[|size| + 2..] == after;
    assert after[..n] == block && after[n..n + 2] == CRLF && after[n + 2..] == rest;
    DecodeUnfold(s, size, n, after);
  }

  lemma DecodeTerminator<S>(checksum: Option<Trailing<S>>, body: Bytes)
    requires checksum.Some? ==> IsFieldName(checksum.value.name)
    ensures Decode(Terminator(checksum, body)) == Some(Decoded([], [],
              if checksum == None then []
              else [Field(checksum.value.name, Base64.Encode(Digest(checksum.value.alg, body)))]))
  {
    var s := Terminator(checksum, body);
    var zero: Bytes := [48];
    assert Hex(0) == zero;
    HexRoundTrip(0);
    var rest := match checksum
      case None => CRLF
      case Some(t) => t.name + [COLON] + Base64.Encode(Digest(t.alg, body)) + CRLF + CRLF;
    assert s == zero + CRLF + rest;
    FindCrlfAt(zero, rest);
    assert s[..1] == zero && s[3..] == rest;
    if checksum.Some? {
      DecodeOneTrailer(checksum.value.name, Base64.Encode(Digest(checksum.value.alg, body)));
    } else {
      DecodeNoTrailers();
    }
  }

  lemma DecodeOneTrailer(name: Bytes, value: Bytes)
    requires IsFieldName(name) && Without(value, CR)
    ensures DecodeTrailers(name + [COLON] + value + CRLF + CRLF) == Some([Field(name, value)])
  {
    var line := name + [COLON] + value;
    var s := line + CRLF + CRLF;
    FindCrlfAt(line, CRLF);
    FindColonAt(name, value);
    DecodeNoTrailers();
    assert s[..|line|] == line && s[|line| + 2..] == CRLF;
    assert line[..|name|] == name && line[|name| + 1..] == value;
    var fields := [Field(name, value)];
    assert fields + DecodeTrailers(CRLF).value == fields;
  }

  lemma DecodeNoTrailers()
    ensures DecodeTrailers(CRLF) == Some([])
  {
    FindCrlfAt([], []);
    assert [] + CRLF + [] == CRLF;
  }

  function Sizes(blocks: seq<Bytes>): seq<nat> {
    if blocks == [] then [] else [|blocks[0]|] + Sizes(blocks[1..])
  }

  lemma {:induction false} SizesAddUp(blocks: seq<Bytes>)
    ensures Sum(Sizes(blocks)) == |Flatten(blocks)|
  {
    if blocks == [] {
    } else {
      SizesAddUp(blocks[1..]);
      assert Sizes(blocks)[1..] == Sizes(blocks[1..]);
    }
  }

  lemma {:induction false} DecodeBlocks<S>(checksum: Option<Trailing<S>>, blocks: seq<Bytes>, body: Bytes)
    requires checksum.Some? ==> IsFieldName(checksum.value.name)
    requires AllNonEmpty(blocks)
    ensures Decode(Chunks(blocks) + Terminator(checksum, body)) == Some(Decoded(Sizes(blocks), Flatten(blocks),
              if checksum == None then []
              else [Field(checksum.value.name, Base64.Encode(Digest(checksum.value.alg, body)))]))
  {
    hide Decode, Chunk, Terminator, Digest;
    DecodeTerminator(checksum, body);
    var end := Terminator(checksum, body);
    if blocks == [] {
      assert Chunks(blocks) + end == end;
    } else {
      DecodeBlocks(checksum, blocks[1..], body);
      assert Chunks(blocks) + end == Chunk(blocks[0]) + (Chunks(blocks[1..]) + end);
      DecodeChunk(blocks[0], Chunks(blocks[1..]) + end);
    }
  }

  /** However the body was cut into blocks, the text decodes to exactly the body, the chunk
      sizes add up to its length, and the trailer carries the checksum of the whole body. */
  lemma RoundTrip<S>(checksum: Option<Trailing<S>>, blocks: seq<Bytes>)
    requires checksum.Some? ==> IsFieldName(checksum.value.name)
    requires AllNonEmpty(blocks)
    ensures var body := Flatten(blocks);
            var decoded := Decode(Encoded(checksum, blocks));
            && decoded.Some? && decoded.value.body == body
            && decoded.value.sizes == Sizes(blocks) && Sum(decoded.value.sizes) == |body|
            && decoded.value.trailers == (if checksum == None then []
                 else [Field(checksum.value.name, Base64.Encode(Digest(checksum.value.alg, body)))])
  {
    DecodeBlocks(checksum, blocks, Flatten(blocks));
    SizesAddUp(blocks);
  }

  /** The text for a body of 26 bytes that is read in one block: sizes are hexadecimal. */
  lemma Example(block: Bytes)
    requires |block| == 26
    ensures Encoded<int>(None, [block])
         == [49, 97] + CRLF + block + CRLF + [48] + CRLF + CRLF    // "1a", the block, "0"
  {
    assert Hex(26) == Hex(1) + [97] == [49, 97];
    assert Hex(0) == [48];
    assert Chunks([block]) == Chunk(block) + Chunks([]) == Chunk(block);
    assert Chunk([]) == [48] + CRLF + [] + CRLF;
  }

  lemma {:induction false} ChunksSnoc(blocks: seq<Bytes>, block: Bytes)
    ensures Chunks(blocks + [block]) == Chunks(blocks) + Chunk(block)
  {
    if blocks == [] {
      assert Chunks([block]) == Chunk(block) + Chunks([]);
    } else {
      assert (blocks + [block])[1..] == blocks[1..] + [block];
      ChunksSnoc(blocks[1..], block);
    }
  }

  // ---- The encoder ----

  /** How many bytes one raw read of at most `n` bytes returns: short reads are possible, but only
      the end of the body reads as nothing. */
  function ReadLength(rest: Bytes, limits: seq<nat>, n: int): (k: nat)
    ensures k <= |rest| && (n >= 0 ==> k <= n) && (k == 0 <==> n == 0 || rest == [])
  {
    var limit := if limits == [] then |rest| else Max(1, limits[0]);
    if n < 0 then Min(|rest|, limit) else Min(n, Min(|rest|, limit))
  }

  function NextLimits(limits: seq<nat>): seq<nat> {
    if limits == [] then [] else limits[1..]
  }

  /** The blocks into which raw reads of this size cut the body. */
  function Cuts(rest: Bytes, limits: seq<nat>, n: int): seq<Bytes>
    decreases |rest|
  {
    var k := ReadLength(rest, limits, n);
    if k == 0 then [] else [rest[..k]] + Cuts(rest[k..], NextLimits(limits), n)
  }

  /** The caller's file-like body; each read may return less than was asked for. */
  class RawSource {
    var rest: Bytes
    var limits: seq<nat>   // how much the next reads return at most

    constructor (body: Bytes, limits: seq<nat>)
      ensures rest == body && this.limits == limits
    {
      rest := body;
      this.limits := limits;
    }

    method Read(n: int) returns (r: Bytes)
      modifies this
      ensures r == old(rest)[..ReadLength(old(rest), old(limits), n)] && r + rest == old(rest)
      ensures limits == NextLimits(old(limits))
    {
      var k := ReadLength(rest, limits, n);
      limits := NextLimits(limits);
      r := rest[..k];
      rest := rest[k..];
    }
  }

  class AioAwsChunkedWrapper<S> {
    const raw: RawSource
    const chunkSize: int
    const checksum: Option<Trailing<S>>
    var state: Option<S>
    var remaining: Bytes
    var complete: bool

    ghost const body: Bytes
    ghost const pattern: seq<nat>  // the short reads of the raw body
    ghost var blocks: seq<Bytes>   // the non-empty raw reads so far
    ghost var emitted: Bytes       // everything handed to the caller so far

    ghost predicate Valid()
      reads this, raw
    {
      && (checksum.Some? ==> IsFieldName(checksum.value.name))
      && AllNonEmpty(blocks)
      && Flatten(blocks) + raw.rest == body
      && (complete && chunkSize != 0 ==> raw.rest == [])
      // the blocks are those into which the raw reads cut the body, whoever asks for them
      && (if complete then blocks == Cuts(body, pattern, chunkSize)
          else blocks + Cuts(raw.rest, raw.limits, chunkSize) == Cuts(body, pattern, chunkSize))
      && state == (if checksum == None then None
                   else Some(Update(checksum.value.alg, checksum.value.alg.start, Flatten(blocks))))
    }

    /** The encoded text of everything read from the raw body so far. */
    ghost function Produced(): Bytes
      reads this
    {
      if complete then Encoded(checksum, blocks) else Chunks(blocks)
    }

    /** Nothing of the encoded text was lost, repeated or reordered. */
    ghost predicate InOrder()
      reads this
    {
      emitted + remaining == Produced()
    }

    constructor (raw: RawSource, chunkSize: int, checksum: Option<Trailing<S>>)
      requires checksum.Some? ==> IsFieldName(checksum.value.name)
      ensures Valid() && InOrder() && this.raw == raw && this.chunkSize == chunkSize && this.checksum == checksum
      ensures body == raw.rest && pattern == raw.limits
      ensures blocks == [] && emitted == [] && !complete && remaining == []
    {
      this.raw := raw;
      this.chunkSize := chunkSize;
      this.checksum := checksum;
      state := if checksum == None then None else Some(checksum.value.alg.start);
      remaining := [];
      complete := false;
      body := raw.rest;
      pattern := raw.limits;
      blocks := [];
      emitted := [];
      new;
      assert blocks + Cuts(raw.rest, raw.limits, chunkSize) == Cuts(body, pattern, chunkSize);
    }

    method MakeChunk() returns (chunk: Bytes)
      requires Valid() && !complete
      modifies this`state, this`complete, this`blocks, raw
      ensures Valid()
      ensures Produced() == old(Produced()) + chunk && chunk != []
      ensures |raw.rest| <= old(|raw.rest|) && (!complete ==> |raw.rest| < old(|raw.rest|))
    {
      hide Hex, Base64.Encode, Flatten, Chunks, Update, ReadLength;
      ghost var left, limits := raw.rest, raw.limits;
      var rawChunk := raw.Read(chunkSize);
      var hexLen := Hex(|rawChunk|);
      complete := rawChunk == [];
      if checksum.Some? {
        UpdateConcat(checksum.value.alg, checksum.value.alg.start, Flatten(blocks), rawChunk);
        state := Some(Update(checksum.value.alg, state.value, rawChunk));
      }
      if rawChunk != [] {
        FlattenSnoc(blocks, rawChunk);
        ChunksSnoc(blocks, rawChunk);
        Associative(Flatten(blocks), rawChunk, raw.rest);
        Associative(blocks, [rawChunk], Cuts(raw.rest, raw.limits, chunkSize));
        blocks := blocks + [rawChunk];
      } else {
        assert Flatten(blocks) + [] == Flatten(blocks);
        assert blocks + [] == blocks;
      }
      if checksum.Some? && complete {
        var digest := Base64.Encode(checksum.value.alg.finish(state.value));
        return [48] + CRLF + checksum.value.name + [COLON] + digest + CRLF + CRLF;
      }
      return hexLen + CRLF + rawChunk + CRLF;
    }

    method Read(size: Option<int>) returns (r: Bytes)
      requires Valid()
      modifies this, raw
      ensures Valid() && emitted == old(emitted) + r
      ensures old(InOrder()) ==> InOrder()
      ensures size == None || size.value <= 0 ==> complete && remaining == []
      ensures size.Some? && size.value > 0 ==> |r| <= size.value && (|r| == size.value || (complete && remaining == []))
      ensures r == [] ==> complete && remaining == []
    {
      hide Cuts, Encoded, Chunks, Flatten, Update, IsFieldName;
      var wanted := if size.Some? && size.value <= 0 then None else size;
      if complete && remaining == [] {
        return [];
      }
      var wantMore := wanted == None || wanted.value > |remaining|;
      while !complete && wantMore
        invariant Valid() && emitted == old(emitted)
        invariant old(InOrder()) ==> InOrder()
        invariant wantMore == (wanted == None || wanted.value > |remaining|)
        invariant remaining == [] ==> !complete
        decreases |raw.rest|, !complete
      {
        var chunk := MakeChunk();
        Associative(emitted, remaining, chunk);
        remaining := remaining + chunk;
        wantMore := wanted == None || wanted.value > |remaining|;
      }
      var n := if wanted == None then |remaining| else Min(wanted.value, |remaining|);
      r := remaining[..n];
      assert r + remaining[n..] == remaining;
      Associative(emitted, r, remaining[n..]);
      remaining := remaining[n..];
      emitted := emitted + r;
    }

    /** One step of asynchronous iteration; `None` is its end. */
    method Next() returns (r: Option<Bytes>)
      requires Valid()
      modifies this, raw
      ensures Valid()
      ensures r == None <==> old(complete)
      ensures r == None ==> emitted == old(emitted) && complete
      ensures r.Some? ==> emitted == old(emitted) + r.value && r.value != []
      ensures remaining == old(remaining)
      ensures Produced() == old(Produced()) + (if r.Some? then r.value else [])
      ensures |raw.rest| <= old(|raw.rest|) && (!complete ==> |raw.rest| < old(|raw.rest|))
      ensures old(InOrder()) && old(remaining) == [] ==> InOrder()
      // a chunk that overtakes bytes held back by an earlier sized read keeps the order only if
      // the two are interchangeable
      ensures old(InOrder()) ==> (InOrder() <==> r == None || r.value + remaining == remaining + r.value)
    {
      hide Cuts, Encoded, Chunks, Flatten, Update, IsFieldName;
      if complete {
        assert Produced() + [] == Produced();
        return None;
      }
      var chunk := MakeChunk();
      Associative(emitted, chunk, remaining);
      Associative(emitted, remaining, chunk);
      SamePrefix(emitted, chunk + remaining, remaining + chunk);
      emitted := emitted + chunk;
      return Some(chunk);
    }

    /** Asynchronous iteration to its end: whatever an earlier sized read held back is never handed
        out, so the bytes handed out are the whole coding exactly when nothing was held back when
        the iteration started. */
    method IterateToEnd() returns (got: Bytes)
      requires Valid()
      modifies this, raw
      ensures Valid() && complete && remaining == old(remaining)
      ensures emitted == old(emitted) + got && Produced() == old(Produced()) + got
      ensures old(InOrder()) ==>
        Encoded(checksum, Cuts(body, pattern, chunkSize)) == old(emitted) + old(remaining) + got
      ensures old(InOrder()) ==>
        (emitted == Encoded(checksum, Cuts(body, pattern, chunkSize)) <==> old(remaining) == [])
    {
      hide Cuts, Encoded, Chunks, Flatten, Update, IsFieldName;
      got := [];
      assert emitted + [] == emitted && Produced() + [] == Produced();
      while !complete
        invariant Valid() && remaining == old(remaining)
        invariant emitted == old(emitted) + got && Produced() == old(Produced()) + got
        decreases |raw.rest|, !complete
      {
        var chunk := Next();
        Associative(old(emitted), got, chunk.value);
        Associative(old(Produced()), got, chunk.value);
        got := got + chunk.value;
      }
      assert old(InOrder()) ==> |Produced()| == |emitted| + |remaining|;
      assert old(emitted) + [] == old(emitted);
    }

    /** A stream that was read, or iterated, to its end in order: what was handed out and what is
        still held back are the one chunked coding that the raw read pattern determines, whoever
        asked for it. It decodes to what was read of the body, which is all of it unless the chunk
        size is zero. */
    lemma Finished()
      requires Valid() && InOrder() && complete
      ensures var text := Encoded(checksum, Cuts(body, pattern, chunkSize));
              var decoded := Decode(text);
              && emitted + remaining == text && (emitted == text <==> remaining == [])
              && decoded.Some? && Sum(decoded.value.sizes) == |decoded.value.body|
              && (decoded.value.body == body <==> chunkSize != 0 || body == [])
              && (checksum == None ==> decoded.value.trailers == [])
              && (checksum.Some? ==>
                    && |decoded.value.trailers| == 1 && decoded.value.trailers[0].name == checksum.value.name
                    && Base64.Decode(decoded.value.trailers[0].value)
                       == Some(Digest(checksum.value.alg, decoded.value.body)))
    {
      assert emitted + [] == emitted;
      RoundTrip(checksum, blocks);
      if checksum.Some? {
        Base64.RoundTrip(Digest(checksum.value.alg, Flatten(blocks)));
      }
      if chunkSize == 0 {
        assert Cuts(body, pattern, chunkSize) == [];
      } else {
        assert Flatten(blocks) + [] == Flatten(blocks);
      }
    }
  }

  /** One byte read, the rest iterated: for a body of one byte this loses the middle of the text. */
  method HeldBackBytesAreLost() returns (first: Bytes, rest: Bytes)
    ensures |first| == 1
    ensures exists lost: Bytes :: lost != [] && first + lost + rest == Encoded<int>(None, [[65]])
    ensures first + rest != Encoded<int>(None, [[65]])
  {
    var raw := new RawSource([65], []);
    var wrapper := new AioAwsChunkedWrapper<int>(raw, 16, None);
    first := wrapper.Read(Some(1));
    assert Cuts([65], [], 16) == [[65]] by {
      OneCut();
    }
    HoldsBack(wrapper, first);
    ghost var lost := wrapper.remaining;
    rest := wrapper.IterateToEnd();
    assert [] + first == first;
    assert first + lost + rest == Encoded<int>(None, [[65]]);
  }

  lemma OneCut()
    ensures Cuts([65], [], 16) == [[65]]
  {
    var rest: Bytes := [65];
    assert rest[..1] == rest && rest[1..] == [];
    assert Cuts([], [], 16) == [];
  }

  lemma HoldsBack(wrapper: AioAwsChunkedWrapper<int>, first: Bytes)
    requires wrapper.Valid() && wrapper.InOrder() && wrapper.checksum == None && wrapper.emitted == first
    requires |first| <= 1 && (|first| == 1 || (wrapper.complete && wrapper.remaining == []))
    ensures |first| == 1 && wrapper.remaining != []
  {
    var produced := wrapper.Produced();
    assert |produced| == |first| + |wrapper.remaining|;
    if wrapper.complete {
      assert |Terminator<int>(None, Flatten(wrapper.blocks))| >= 5;
    } else {
      assert wrapper.blocks != [];
      assert |Chunks(wrapper.blocks)| >= |Chunk(wrapper.blocks[0])| >= 5;
    }
  }

  lemma SamePrefix(p: Bytes, a: Bytes, b: Bytes)
    ensures p + a == p + b <==> a == b
  {
    if p + a == p + b {
      assert a == (p + a)[|p|..] == (p + b)[|p|..] == b;
    }
  }
}

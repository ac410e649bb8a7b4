/** Incremental checksums, and the body that validates one over whatever mix of reads drains it. */
module Checksum {
  import opened Prelude
  import opened StreamingBody

  /** A checksum algorithm: a state that absorbs one byte after the other. */
  datatype Algorithm<!S> = Algorithm(start: S, absorb: (S, byte) -> S, finish: S -> Bytes)

  function Update<S>(alg: Algorithm<S>, state: S, data: Bytes): S {
    if data == [] then state else Update(alg, alg.absorb(state, data[0]), data[1..])
  }

  /** The checksum of a whole text. */
  function Digest<S>(alg: Algorithm<S>, data: Bytes): Bytes {
    alg.finish(Update(alg, alg.start, data))
  }

  /** Feeding two pieces is feeding their concatenation. */
  lemma {:induction false} UpdateConcat<S>(alg: Algorithm<S>, state: S, a: Bytes, b: Bytes)
    ensures Update(alg, Update(alg, state, a), b) == Update(alg, state, a + b)
  {
    if a == [] {
      assert a + b == b;
    } else {
      assert (a + b)[0] == a[0] && (a + b)[1..] == a[1..] + b;
      UpdateConcat(alg, alg.absorb(state, a[0]), a[1..], b);
    }
  }

  /** The algorithm whose checksum is the text itself. */
  const RECORDER: Algorithm<Bytes> := Algorithm([], (s: Bytes, b: byte) => s + [b], (s: Bytes) => s)

  /** Every byte is absorbed, once and in order: whatever an algorithm makes of its bytes, the one
      that records them records the text. */
  lemma DigestSeesAll(data: Bytes)
    ensures Digest(RECORDER, data) == data
  {
    UpdateRecords([], data);
    assert [] + data == data;
  }

  lemma {:induction false} UpdateRecords(state: Bytes, data: Bytes)
    ensures Update(RECORDER, state, data) == state + data
    decreases |data|
  {
    if data == [] {
      assert state + [] == state;
    } else {
      UpdateRecords(state + [data[0]], data[1..]);
      assert state + data == state + [data[0]] + data[1..];
    }
  }

  /** One byte more is one absorption more. */
  lemma UpdateSnoc<S>(alg: Algorithm<S>, data: Bytes, b: byte)
    ensures Update(alg, alg.start, data + [b]) == alg.absorb(Update(alg, alg.start, data), b)
  {
    UpdateConcat(alg, alg.start, data, [b]);
    assert [b][1..] == [];
  }

  datatype ChecksumBodyError = Body(error: BodyError) | ChecksumMismatch

  /** Whether this call is one after which length and checksum are checked. */
  predicate Drains(amt: Option<int>, left: Bytes) {
    amt == None || (amt.value > 0 && left == [])
  }

  class HttpxChecksumBody<S> {
    const alg: Algorithm<S>
    const expected: Bytes
    const inner: HttpxStreamingBody
    var state: S

    /** The running checksum is that of exactly the bytes handed out so far. */
    ghost predicate Valid()
      reads this, inner
    {
      inner.Valid() && state == Update(alg, alg.start, inner.handed)
    }

    constructor (alg: Algorithm<S>, expected: Bytes, wire: seq<WireEvent>, contentLength: Option<nat>)
      ensures Valid() && fresh(inner) && this.alg == alg && this.expected == expected
      ensures inner.wire == wire && inner.contentLength == contentLength
      ensures inner.body == inner.Left() == Incoming(wire) && inner.handed == inner.lost == []
    {
      this.alg := alg;
      this.expected := expected;
      inner := new HttpxStreamingBody(wire, contentLength);
      state := alg.start;
    }

    /** What a draining call raises once the body has been delivered in full. */
    ghost function Verdict(): Option<ChecksumBodyError> {
      if LengthMismatch(inner.contentLength, |inner.body|) then Some(Body(IncompleteRead))
      else if Digest(alg, inner.body) != expected then Some(ChecksumMismatch)
      else None
    }

    method Read(amt: Option<int>) returns (r: Result<Bytes, ChecksumBodyError>)
      requires Valid()
      modifies this, inner
      ensures Valid()
      // the error-free runs: nothing has failed and nothing fails now
      ensures old(inner.lost) == [] && Failure(old(inner.wire)) == None ==>
        var chunk := if amt == Some(0) then []
                     else if ReadsAll(amt) then old(inner.Left())
                     else old(inner.Left())[..Min(amt.value, |old(inner.Left())|)];
        && chunk + inner.Left() == old(inner.Left())
        && r == (if !Drains(amt, old(inner.Left())) || Verdict() == None then Ok(chunk) else Err(Verdict().value))
      ensures old(inner.lost) == [] && Failure(old(inner.wire)) == None && amt.Some? && amt.value < 0 ==>
        r == Ok(old(inner.Left()))    // neither length nor checksum is looked at
      // any run
      ensures r == Err(ChecksumMismatch) ==>
        inner.Left() == [] && Digest(alg, inner.handed) != expected && (inner.lost == [] ==> inner.handed == inner.body)
      ensures r.Ok? ==> inner.handed == old(inner.handed) + r.value
      ensures r.Ok? && Drains(amt, old(inner.Left())) ==> Digest(alg, inner.handed) == expected
    {
      hide Update, LengthMismatch, Incoming, Failure;
      var chunk := inner.Read(amt);
      if chunk.Err? {
        return Err(Body(chunk.error));
      }
      assert inner.lost == [] && inner.Left() == [] ==> inner.handed == inner.body;
      UpdateConcat(alg, alg.start, old(inner.handed), chunk.value);
      state := Update(alg, state, chunk.value);
      assert Digest(alg, inner.handed) == alg.finish(state);
      hide Digest;
      if (amt == None || (chunk.value == [] && amt.value > 0)) && alg.finish(state) != expected {
        return Err(ChecksumMismatch);
      }
      return Ok(chunk.value);
    }

    method ReadInto(b: array<byte>) returns (r: Result<nat, ChecksumBodyError>)
      requires Valid()
      modifies this, inner, b
      ensures Valid()
      ensures old(inner.lost) == [] && Failure(old(inner.wire)) == None ==>
        var n := Min(b.Length, |old(inner.Left())|);
        && inner.Left() == old(inner.Left())[n..]
        && b[..] == old(inner.Left())[..n] + old(b[..])[n..]
        && r == (if b.Length == 0 || n > 0 || Verdict() == None then Ok(n) else Err(Verdict().value))
      ensures r == Err(ChecksumMismatch) ==>
        inner.Left() == [] && Digest(alg, inner.handed) != expected && (inner.lost == [] ==> inner.handed == inner.body)
      ensures r.Ok? ==> r.value <= b.Length && inner.handed == old(inner.handed) + b[..r.value]
    {
      hide Update, LengthMismatch, Incoming, Failure;
      var amount := inner.ReadInto(b);
      if amount.Err? {
        return Err(Body(amount.error));
      }
      var n := amount.value;
      var view := if n == b.Length then b[..] else b[..n];
      assert view == b[..n];
      assert inner.lost == [] && inner.Left() == [] ==> inner.handed == inner.body;
      UpdateConcat(alg, alg.start, old(inner.handed), view);
      state := Update(alg, state, view);
      if n == 0 && b.Length > 0 && alg.finish(state) != expected {
        return Err(ChecksumMismatch);
      }
      return Ok(n);
    }
  }
}

/** The two streaming response bodies: `HttpxStreamingBody` re-chunks an arbitrary wire
    chunking through an internal buffer, `AioStreamingBody` reads straight from the transport. */
module StreamingBody {
  import opened Prelude
  import opened LineSplitting

  /** What the transport raises, and what the body raises to its caller. */
  datatype TransportError = TimedOut | Disconnected

  datatype BodyError = ReadTimeout | StreamFailure | IncompleteRead

  function Mapped(error: TransportError): BodyError {
    match error
    case TimedOut => ReadTimeout
    case Disconnected => StreamFailure
  }

  /** What the transport hands out: a chunk (possibly empty) or a failure. */
  datatype WireEvent = Data(bytes: Bytes) | Broken(error: TransportError)

  /** The bytes that arrive before the first failure. */
  function Incoming(wire: seq<WireEvent>): Bytes {
    if wire == [] || wire[0].Broken? then [] else wire[0].bytes + Incoming(wire[1..])
  }

  /** The first failure, if there is one. */
  function Failure(wire: seq<WireEvent>): (r: Option<BodyError>)
    ensures r != Some(IncompleteRead)
  {
    if wire == [] then None
    else if wire[0].Broken? then Some(Mapped(wire[0].error))
    else Failure(wire[1..])
  }

  /** A wire chunking of a body, cut as told. */
  function Chunked(chunks: seq<Bytes>): seq<WireEvent> {
    if chunks == [] then [] else [Data(chunks[0])] + Chunked(chunks[1..])
  }

  /** However a body is cut into chunks, empty ones included, the same bytes arrive. */
  lemma {:induction false} ChunkedArrives(chunks: seq<Bytes>)
    ensures Incoming(Chunked(chunks)) == Flatten(chunks) && Failure(Chunked(chunks)) == None
  {
    if chunks == [] {
    } else {
      ChunkedArrives(chunks[1..]);
      assert Chunked(chunks)[1..] == Chunked(chunks[1..]);
    }
  }

  /** The first failure decides: a timeout is a read timeout, a lost connection a stream failure,
      and exactly the chunks before it arrive. */
  lemma {:induction false} FirstFailure(chunks: seq<Bytes>, error: TransportError, more: seq<WireEvent>)
    ensures var wire := Chunked(chunks) + [Broken(error)] + more;
            && Incoming(wire) == Flatten(chunks)
            && Failure(wire) == Some(if error == TimedOut then ReadTimeout else StreamFailure)
  {
    var wire := Chunked(chunks) + [Broken(error)] + more;
    if chunks == [] {
      assert wire[0] == Broken(error);
    } else {
      FirstFailure(chunks[1..], error, more);
      assert wire[0] == Data(chunks[0]);
      assert wire[1..] == Chunked(chunks[1..]) + [Broken(error)] + more;
    }
  }

  /** A length was declared, and another one came. */
  predicate LengthMismatch(declared: Option<nat>, amount: nat) {
    declared.Some? && declared.value != amount
  }

  lemma LengthMatches(declared: Option<nat>, amount: nat)
    ensures LengthMismatch(None, amount) == false
    ensures LengthMismatch(declared, amount) <==> declared !in {None, Some(amount)}
  {
  }

  /** `b[:len(chunk)] = chunk` */
  method CopyInto(b: array<byte>, chunk: Bytes)
    requires |chunk| <= b.Length
    modifies b
    ensures b[..] == chunk + old(b[..])[|chunk|..] && b[..|chunk|] == chunk
  {
    forall i | 0 <= i < |chunk| {
      b[i] := chunk[i];
    }
    assert b[..|chunk|] == chunk;
    assert b[|chunk|..] == old(b[..])[|chunk|..];
    assert b[..] == b[..|chunk|] + b[|chunk|..];
  }

  /** No chunk is empty, and all but the last have the size that was asked for. */
  ghost predicate SizedChunks(chunks: seq<Bytes>, size: int) {
    && (forall i | 0 <= i < |chunks| :: chunks[i] != [])
    && (size > 0 ==> forall i | 0 <= i < |chunks| - 1 :: |chunks[i]| == size)
  }

  lemma SizedNil(size: int)
    ensures SizedChunks([], size)
  {
  }

  lemma SizedSnoc(chunks: seq<Bytes>, chunk: Bytes, size: int)
    requires SizedChunks(chunks, size) && chunk != []
    requires size > 0 && chunks != [] ==> |chunks[|chunks| - 1]| == size
    ensures SizedChunks(chunks + [chunk], size)
  {
  }

  class HttpxStreamingBody {
    const contentLength: Option<nat>
    var wire: seq<WireEvent>     // what the raw iterator has not produced yet
    var buffer: Bytes
    var exhausted: bool
    var amountRead: nat

    ghost const body: Bytes      // every byte that arrives before the first failure
    ghost var handed: Bytes      // bytes returned to callers
    ghost var lost: Bytes        // bytes dropped because a read-all raised

    ghost predicate Valid()
      reads this
    {
      && handed + lost + Left() == body
      && (exhausted ==> wire == [])
      && (lost != [] ==> Left() == [])
      && |handed| <= amountRead <= |handed| + |lost|
    }

    /** What is still to be read. */
    function Left(): Bytes
      reads this`buffer, this`wire
    {
      buffer + Incoming(wire)
    }

    constructor (wire: seq<WireEvent>, contentLength: Option<nat>)
      ensures Valid() && this.contentLength == contentLength && this.wire == wire
      ensures body == Left() == Incoming(wire) && handed == lost == [] && amountRead == 0 && !exhausted
    {
      this.wire := wire;
      this.contentLength := contentLength;
      buffer := [];
      exhausted := false;
      amountRead := 0;
      body := Incoming(wire);
      handed := [];
      lost := [];
    }

    /** `__anext__` of the raw iterator: a chunk, the end, or a failure after which the
        generator is finished. */
    method NextChunk() returns (r: Result<Option<Bytes>, TransportError>)
      modifies this`wire
      ensures match r
        case Ok(Some(chunk)) =>
          && old(wire) != [] && old(wire)[0] == Data(chunk) && wire == old(wire)[1..]
        case Ok(None) => old(wire) == wire == []
        case Err(e) => old(wire) != [] && old(wire)[0] == Broken(e) && wire == []
    {
      if wire == [] {
        return Ok(None);
      }
      var event := wire[0];
      match event {
        case Data(chunk) =>
          wire := wire[1..];
          return Ok(Some(chunk));
        case Broken(e) =>
          wire := [];
          return Err(e);
      }
    }

    method FillBuffer(minBytes: nat) returns (failure: Option<BodyError>)
      modifies this`wire, this`buffer, this`exhausted
      requires exhausted ==> wire == []
      ensures exhausted ==> wire == []
      ensures Left() == old(Left())
      ensures failure == None <==>
        (|old(Left())| >= minBytes || Failure(old(wire)) == None || old(|buffer|) >= minBytes)
      ensures failure == None ==> Failure(wire) == Failure(old(wire)) && (|buffer| >= minBytes || exhausted)
      ensures failure != None ==> failure == Failure(old(wire)) && wire == [] && buffer == old(Left())
    {
      failure := None;
      while |buffer| < minBytes && !exhausted
        invariant exhausted ==> wire == []
        invariant Left() == old(Left()) && Failure(wire) == Failure(old(wire))
        decreases |wire|, !exhausted
      {
        var next := NextChunk();
        match next {
          case Ok(Some(chunk)) => buffer := buffer + chunk;
          case Ok(None) => exhausted := true;
          case Err(e) => return Some(Mapped(e));
        }
      }
    }

    /** The read-all branch of `read`: everything that is left, in one piece. A failure on the
        way drops the bytes collected so far. */
    method ReadRest() returns (r: Result<Bytes, BodyError>)
      requires exhausted ==> wire == []
      modifies this`wire, this`buffer, this`exhausted
      ensures Left() == [] && (exhausted ==> wire == [])
      ensures r == (if Failure(old(wire)) == None then Ok(old(Left())) else Err(Failure(old(wire)).value))
      ensures Failure(wire) == None && (r.Ok? ==> exhausted)
    {
      var chunks := [buffer];
      buffer := [];
      assert Flatten(chunks) == old(buffer);
      while true
        invariant buffer == [] && Flatten(chunks) + Incoming(wire) == old(Left())
        invariant Failure(wire) == Failure(old(wire)) && (exhausted ==> wire == [])
        decreases |wire|
      {
        var next := NextChunk();
        match next {
          case Ok(Some(chunk)) =>
            FlattenSnoc(chunks, chunk);
            chunks := chunks + [chunk];
          case Ok(None) => break;
          case Err(e) => return Err(Mapped(e));
        }
      }
      exhausted := true;
      assert Flatten(chunks) + [] == Flatten(chunks);
      r := Ok(Flatten(chunks));
    }

    /** The sized branch of `read` and the body of `readinto`: at most `n` bytes off the front. */
    method TakeBytes(n: nat) returns (r: Result<Bytes, BodyError>)
      requires exhausted ==> wire == []
      modifies this`wire, this`buffer, this`exhausted
      ensures exhausted ==> wire == []
      ensures |old(Left())| < n && Failure(old(wire)) != None ==>
        r == Err(Failure(old(wire)).value) && Left() == old(Left())
      ensures |old(Left())| >= n || Failure(old(wire)) == None ==>
        && r == Ok(old(Left())[..Min(n, |old(Left())|)])
        && Left() == old(Left())[Min(n, |old(Left())|)..]
        && Failure(wire) == Failure(old(wire))
    {
      var failure := FillBuffer(n);
      if failure != None {
        return Err(failure.value);
      }
      var k := Min(n, |buffer|);
      assert k == Min(n, |Left()|);
      assert Left()[..k] == buffer[..k];
      assert Left()[k..] == buffer[k..] + Incoming(wire);
      r := Ok(buffer[..k]);
      buffer := buffer[k..];
    }

    /** The end of `read` and `readinto`: count the chunk, check the length where the stream
        has just been drained, and hand the chunk out. */
    method Deliver(chunk: Bytes, check: bool) returns (r: Result<Bytes, BodyError>)
      requires handed + lost + (chunk + Left()) == body
      requires lost != [] ==> chunk == [] && Left() == []
      requires |handed| <= amountRead <= |handed| + |lost|
      requires (exhausted ==> wire == []) && (check ==> chunk == [] || Left() == [])
      modifies this`amountRead, this`handed, this`lost
      ensures Valid() && amountRead == old(amountRead) + |chunk|
      ensures r == if check && LengthMismatch(contentLength, amountRead) then Err(IncompleteRead) else Ok(chunk)
      ensures r.Ok? ==> handed == old(handed) + chunk && lost == old(lost)
      ensures r.Err? ==> handed == old(handed) && lost == old(lost) + chunk
    {
      hide Left;
      amountRead := amountRead + |chunk|;
      if check && LengthMismatch(contentLength, amountRead) {
        lost := lost + chunk;
        return Err(IncompleteRead);
      }
      handed := handed + chunk;
      return Ok(chunk);
    }

    /** `read(amt)`; `None` and negative amounts both mean everything. */
    method Read(amt: Option<int>) returns (r: Result<Bytes, BodyError>)
      requires Valid()
      modifies this
      ensures Valid()
      // zero: nothing happens
      ensures amt == Some(0) ==>
        r == Ok([]) && Left() == old(Left()) && amountRead == old(amountRead) && wire == old(wire)
      // everything: the rest of the body, or the first failure, which drops what was collected
      ensures ReadsAll(amt) && Failure(old(wire)) != None ==>
        && r == Err(Failure(old(wire)).value) && Left() == []
        && lost == old(lost + Left()) && amountRead == old(amountRead)
      ensures ReadsAll(amt) && Failure(old(wire)) == None ==>
        && Left() == [] && exhausted && Failure(wire) == None && amountRead == old(amountRead + |Left()|)
        && r == (if amt == None && LengthMismatch(contentLength, amountRead) then Err(IncompleteRead)
                 else Ok(old(Left())))
      // a positive amount: exactly that many bytes, fewer only at the end; a failure keeps everything
      ensures ReadsSome(amt) && |old(Left())| < amt.value && Failure(old(wire)) != None ==>
        && r == Err(Failure(old(wire)).value) && Left() == old(Left())
        && amountRead == old(amountRead) && lost == old(lost)
      ensures ReadsSome(amt) && (|old(Left())| >= amt.value || Failure(old(wire)) == None) ==>
        var n := Min(amt.value, |old(Left())|);
        && Left() == old(Left())[n..] && amountRead == old(amountRead) + n && lost == old(lost)
        && Failure(wire) == Failure(old(wire))
        && r == (if n == 0 && LengthMismatch(contentLength, amountRead) then Err(IncompleteRead)
                 else Ok(old(Left())[..n]))
      // what was handed out
      ensures r.Ok? ==> handed == old(handed) + r.value && lost == old(lost)
      ensures r.Err? ==> handed == old(handed)
    {
      hide Left, Incoming, Failure;
      if amt == None || amt.value < 0 {
        r := ReadRest();
        if r.Err? {
          lost := lost + old(Left());
          return;
        }
      } else if amt.value == 0 {
        return Ok([]);
      } else {
        r := TakeBytes(amt.value);
        if r.Err? {
          return;
        }
      }
      assert r.value + Left() == old(Left());
      r := Deliver(r.value, amt == None || (r.value == [] && amt.value > 0));
    }

    /** `readinto(b)`: like `read(len(b))`, but into the caller's array. */
    method ReadInto(b: array<byte>) returns (r: Result<nat, BodyError>)
      requires Valid()
      modifies this, b
      ensures Valid() && lost == old(lost)
      ensures b.Length == 0 ==> r == Ok(0) && Left() == old(Left()) && amountRead == old(amountRead)
      ensures |old(Left())| < b.Length && Failure(old(wire)) != None ==>
        && r == Err(Failure(old(wire)).value) && Left() == old(Left())
        && b[..] == old(b[..]) && amountRead == old(amountRead)
      ensures b.Length > 0 && (|old(Left())| >= b.Length || Failure(old(wire)) == None) ==>
        var n := Min(b.Length, |old(Left())|);
        && Left() == old(Left())[n..] && amountRead == old(amountRead) + n
        && b[..] == old(Left())[..n] + old(b[..])[n..]
        && r == (if n == 0 && LengthMismatch(contentLength, amountRead) then Err(IncompleteRead) else Ok(n))
      ensures r.Ok? ==> r.value <= b.Length && handed == old(handed) + b[..r.value]
      ensures r.Err? ==> handed == old(handed)
    {
      hide Left, Incoming, Failure;
      if b.Length == 0 {
        return Ok(0);
      }
      var taken := TakeBytes(b.Length);
      if taken.Err? {
        return Err(taken.error);
      }
      var chunk := taken.value;
      var n := |chunk|;
      CopyInto(b, chunk);
      assert chunk + Left() == old(Left());
      var delivered := Deliver(chunk, n == 0 && b.Length > 0);
      return if delivered.Ok? then Ok(n) else Err(delivered.error);
    }

    method Readable() returns (r: bool)
      requires Valid()
      ensures r <==> Left() != [] || !exhausted
      ensures !r && lost == [] ==> handed == body
    {
      r := buffer != [] || !exhausted;
    }

    /** `read` as the iteration uses it: a piece of what is left, nothing only at its clean end,
        and every failure of the wire. */
    method ReadChunk(chunkSize: int) returns (r: Result<Bytes, BodyError>)
      requires Valid()
      modifies this
      ensures Valid()
      ensures r.Ok? ==>
        && r.value + Left() == old(Left()) && handed == old(handed) + r.value
        && amountRead == old(amountRead) + |r.value| && Failure(wire) == Failure(old(wire))
        && (chunkSize > 0 && Left() != [] ==> |r.value| == chunkSize)
      ensures chunkSize == 0 ==> r == Ok([])
      ensures chunkSize != 0 ==>
        (r == Ok([]) <==> (old(Left()) == [] && Failure(old(wire)) == None
                           && !(chunkSize > 0 && LengthMismatch(contentLength, old(amountRead)))))
      ensures r.Err? ==> handed == old(handed)
      ensures r.Err? && Failure(old(wire)) != None ==> Some(r.error) == Failure(old(wire))
      ensures r.Err? && Failure(old(wire)) == None ==> r.error == IncompleteRead
      ensures r == Err(IncompleteRead) ==>
        chunkSize > 0 && old(Left()) == [] && LengthMismatch(contentLength, old(amountRead))
    {
      hide Valid, Left, Incoming, Failure, LengthMismatch;
      r := Read(Some(chunkSize));
    }

    /** The chunks that `iter_chunks(chunkSize)` yields and the exception that ended it, if any. */
    method IterChunks(chunkSize: int) returns (chunks: seq<Bytes>, failure: Option<BodyError>)
      requires Valid()
      modifies this
      ensures Valid()
      ensures SizedChunks(chunks, chunkSize)
      ensures handed == old(handed) + Flatten(chunks)
      ensures failure == None && chunkSize != 0 ==> Flatten(chunks) == old(Left()) && Left() == []
      ensures chunkSize == 0 ==> chunks == [] && failure == None && Left() == old(Left())
      ensures Failure(old(wire)) == None ==>
        failure == (if chunkSize > 0 && LengthMismatch(contentLength, old(amountRead + |Left()|))
                    then Some(IncompleteRead) else None)
      ensures Failure(old(wire)) == None && chunkSize != 0 ==> Flatten(chunks) == old(Left())
      ensures failure == Some(IncompleteRead) ==> Flatten(chunks) == old(Left())
      ensures Failure(old(wire)) != None && chunkSize != 0 ==> failure == Failure(old(wire))
    {
      hide Valid, Left, Incoming, Failure, Flatten, LengthMismatch, SizedChunks;
      chunks := [];
      FlattenNil<byte>();
      SizedNil(chunkSize);
      ghost var left0, read0, handed0, fail0 := Left(), amountRead, handed, Failure(wire);
      while true
        invariant Valid() && SizedChunks(chunks, chunkSize)
        invariant handed == handed0 + Flatten(chunks)
        invariant Flatten(chunks) + Left() == left0
        invariant amountRead == read0 + |Flatten(chunks)|
        invariant Failure(wire) == fail0
        invariant chunkSize > 0 && chunks != [] && Left() != [] ==> |chunks[|chunks| - 1]| == chunkSize
        invariant chunkSize == 0 ==> chunks == []
        decreases |Left()|
      {
        ghost var left := Left();
        var r := ReadChunk(chunkSize);
        match r {
          case Err(e) => return chunks, Some(e);
          case Ok(chunk) =>
            if chunk == [] {
              return chunks, None;
            }
            assert chunk + Left() == left;
            Associative(Flatten(chunks), chunk, Left());
            Associative(handed0, Flatten(chunks), chunk);
            FlattenSnoc(chunks, chunk);
            SizedSnoc(chunks, chunk, chunkSize);
            chunks := chunks + [chunk];
        }
      }
    }

    /** The lines that `iter_lines(chunkSize, keepEnds)` yields, and the exception that ended it. */
    method IterLines(chunkSize: int, keepEnds: bool) returns (lines: seq<Bytes>, failure: Option<BodyError>)
      requires Valid()
      modifies this
      ensures Valid()
      ensures failure == None && chunkSize != 0 ==> lines == SplitLines(old(Left()), keepEnds)
      ensures failure != None ==>
        exists got | old(handed) + got == handed :: lines == AllButLast(SplitLines(got, keepEnds))
      ensures failure == Some(IncompleteRead) ==> lines == AllButLast(SplitLines(old(Left()), keepEnds))
      ensures Failure(old(wire)) == None ==>
        failure == (if chunkSize > 0 && LengthMismatch(contentLength, old(amountRead + |Left()|))
                    then Some(IncompleteRead) else None)
      ensures chunkSize == 0 ==> lines == []
      ensures Failure(old(wire)) != None && chunkSize != 0 ==> failure == Failure(old(wire))
    {
      var chunks;
      chunks, failure := IterChunks(chunkSize);
      lines := LinesOfChunks(chunks, failure != None, keepEnds);
    }
  }

  /** How the transport of the other backend answers one call: with up to so many bytes, or
      with an exception, which it then raises for every later call too. */
  datatype ReadOutcome = UpTo(n: nat) | Fails(error: TransportError)

  /** What stops a reader that takes whatever is ready until nothing is left. */
  function DrainFailure(script: seq<ReadOutcome>, left: nat): Option<TransportError> {
    if script == [] then None
    else
      match script[0]
      case Fails(e) => Some(e)
      case UpTo(n) => if left == 0 then None else DrainFailure(script[1..], left - Min(left, Max(1, n)))
  }

  /** What the transport has left to say after such a reader. */
  function AfterDrain(script: seq<ReadOutcome>, left: nat): seq<ReadOutcome> {
    if script == [] || script[0].Fails? then script
    else if left == 0 then script[1..]
    else AfterDrain(script[1..], left - Min(left, Max(1, script[0].n)))
  }

  /** How many bytes one read of at most `n` bytes returns. */
  function ReadyLength(script: seq<ReadOutcome>, left: nat, n: nat): nat
    requires script != [] ==> script[0].UpTo?
  {
    Min(n, if script == [] then left else Min(left, Max(1, script[0].n)))
  }

  /** What stops a reader that reads `n` bytes at a time, or everything, until it gets nothing. */
  function IterFailure(script: seq<ReadOutcome>, left: nat, n: int): Option<TransportError> {
    if script == [] then None
    else if script[0].Fails? then Some(script[0].error)
    else if n == 0 then None
    else if n > 0 then
      if left == 0 then None else IterFailure(script[1..], left - ReadyLength(script, left, n), n)
    else if DrainFailure(script, left).Some? then DrainFailure(script, left)
    else if left == 0 then None
    else DrainFailure(AfterDrain(script, left), 0)
  }

  lemma IterStep(script: seq<ReadOutcome>, left: nat, n: int)
    ensures script != [] && script[0].Fails? ==>
      IterFailure(script, left, n) == DrainFailure(script, left) == Some(script[0].error)
    ensures n >= 0 && !(script != [] && script[0].Fails?) && (n == 0 || left == 0) ==>
      IterFailure(script, left, n) == None
    ensures n > 0 && left > 0 && !(script != [] && script[0].Fails?) ==>
      ReadyLength(script, left, n) <= left
      && IterFailure(script, left, n)
      == IterFailure(if script == [] then [] else script[1..], left - ReadyLength(script, left, n), n)
    ensures n < 0 && DrainFailure(script, left).Some? ==> IterFailure(script, left, n) == DrainFailure(script, left)
    ensures n < 0 && DrainFailure(script, left) == None ==>
      IterFailure(script, left, n) == if left == 0 then None else DrainFailure(AfterDrain(script, left), 0)
  {
  }

  class AioStreamingBody {
    const contentLength: Option<nat>
    var rest: Bytes                // what the transport still holds
    var script: seq<ReadOutcome>   // how it answers the next calls
    var amountRead: nat

    ghost const body: Bytes
    ghost var handed: Bytes
    ghost var lost: Bytes

    ghost predicate Valid()
      reads this
    {
      && handed + lost + rest == body
      && (lost != [] ==> rest == [] || Fails())
      && |handed| <= amountRead <= |handed| + |lost|
    }

    predicate Fails()
      reads this`script
    {
      script != [] && script[0].Fails?
    }

    /** The transport fails this read: at once, or before a read-all reaches the end. */
    predicate Breaks(amt: Option<int>)
      reads this`script, this`rest
    {
      if ReadsAll(amt) then DrainFailure(script, |rest|).Some? else Fails()
    }

    constructor (body: Bytes, script: seq<ReadOutcome>, contentLength: Option<nat>)
      ensures Valid() && this.contentLength == contentLength && this.script == script
      ensures this.body == body == rest && handed == lost == [] && amountRead == 0
    {
      this.body := body;
      this.rest := body;
      this.script := script;
      this.contentLength := contentLength;
      amountRead := 0;
      handed := [];
      lost := [];
    }

    /** `content.read(n)` of the transport: a prefix of what is left, empty only at the end. For a
        negative `n` it collects blocks until the end, and a failure on the way drops them. */
    method ContentRead(n: int) returns (r: Result<Bytes, TransportError>, ghost dropped: Bytes)
      modifies this`rest, this`script
      ensures n < 0 ==> match DrainFailure(old(script), |old(rest)|)
        case None => r == Ok(old(rest)) && rest == [] && script == AfterDrain(old(script), |old(rest)|)
        case Some(e) => r == Err(e) && dropped + rest == old(rest) && Fails() && script[0].error == e
      ensures n >= 0 ==> (r.Err? <==> old(Fails()))
      ensures n >= 0 && r.Err? ==> r.error == old(script)[0].error && script == old(script)
      ensures n >= 0 && r.Ok? ==> r.value + rest == old(rest) && |r.value| <= n
      ensures n >= 0 && r.Ok? ==> (r.value == [] <==> n == 0 || old(rest) == [])
      ensures n > 0 && r.Ok? ==>
        && |r.value| == ReadyLength(old(script), |old(rest)|, n)
        && script == if old(script) == [] then [] else old(script)[1..]
      ensures old(Fails()) ==> r == Err(old(script)[0].error) && rest == old(rest)
      ensures r.Ok? || n >= 0 ==> dropped == []
      ensures r.Err? ==> dropped + rest == old(rest)
    {
      dropped := [];
      if Fails() {
        return Err(script[0].error), [];
      }
      if n == 0 {
        return Ok([]), [];
      }
      if n > 0 {
        var block := NextBlock(n);
        return Ok(block), [];
      }
      var blocks: seq<Bytes> := [];
      FlattenNil<byte>();
      while true
        invariant Flatten(blocks) + rest == old(rest)
        invariant DrainFailure(script, |rest|) == DrainFailure(old(script), |old(rest)|)
        invariant AfterDrain(script, |rest|) == AfterDrain(old(script), |old(rest)|)
        decreases |rest|
      {
        if Fails() {
          return Err(script[0].error), Flatten(blocks);
        }
        ghost var left := rest;
        var block := NextBlock(|rest|);
        if block == [] {
          assert Flatten(blocks) + [] == Flatten(blocks);
          return Ok(Flatten(blocks)), [];
        }
        Associative(Flatten(blocks), block, rest);
        FlattenSnoc(blocks, block);
        blocks := blocks + [block];
      }
    }

    /** What the transport has ready, at most `n` bytes of it; nothing only at the end. */
    method NextBlock(n: nat) returns (block: Bytes)
      requires !Fails() && (n == 0 ==> rest == [])
      modifies this`rest, this`script
      ensures block + rest == old(rest) && |block| <= n && (block == [] <==> old(rest) == [])
      ensures script == if old(script) == [] then [] else old(script)[1..]
      ensures |block| == ReadyLength(old(script), |old(rest)|, n)
    {
      var ready := if script == [] then |rest| else Min(|rest|, Max(1, script[0].n));
      var k := Min(n, ready);
      script := if script == [] then [] else script[1..];
      block := rest[..k];
      rest := rest[k..];
    }

    method Read(amt: Option<int>) returns (r: Result<Bytes, BodyError>)
      requires Valid()
      modifies this
      ensures Valid()
      // the transport fails: a sized read loses nothing, a read-all the blocks it had collected
      ensures old(Fails()) ==> r == Err(Mapped(old(script)[0].error)) && rest == old(rest) && lost == old(lost)
      ensures ReadsAll(amt) && DrainFailure(old(script), |old(rest)|).Some? ==>
        && r == Err(Mapped(DrainFailure(old(script), |old(rest)|).value))
        && lost + rest == old(lost + rest) && amountRead == old(amountRead)
      // it does not
      ensures !old(Breaks(amt)) ==> (r == Err(IncompleteRead) <==>
        && (amt == None || (amt.value > 0 && old(rest) == []))
        && LengthMismatch(contentLength, old(amountRead + if amt == None then |rest| else 0)))
      ensures !old(Breaks(amt)) && r.Err? ==> r == Err(IncompleteRead) && rest == []
      ensures r.Ok? ==> r.value + rest == old(rest) && handed == old(handed) + r.value && lost == old(lost)
      ensures r.Ok? ==> amountRead == old(amountRead) + |r.value| && !old(Breaks(amt))
      ensures r.Ok? && ReadsAll(amt) ==> rest == []
      ensures r.Ok? && ReadsSome(amt) ==> |r.value| <= amt.value && (r.value == [] <==> old(rest) == [])
      ensures r.Ok? && amt == Some(0) ==> r.value == []
      ensures r.Err? ==> handed == old(handed)
      // what the transport has left to say
      ensures r.Ok? && ReadsAll(amt) ==> script == AfterDrain(old(script), |old(rest)|)
      ensures r.Ok? && ReadsSome(amt) ==>
        && |r.value| == ReadyLength(old(script), |old(rest)|, amt.value)
        && script == if old(script) == [] then [] else old(script)[1..]
    {
      hide DrainFailure, AfterDrain, ReadyLength, Mapped, LengthMismatch;
      var taken;
      ghost var dropped;
      taken, dropped := ContentRead(if amt == None then -1 else amt.value);
      if taken.Err? {
        assert handed + (lost + dropped) + rest == handed + lost + (dropped + rest);
        lost := lost + dropped;
        return Err(Mapped(taken.error));
      }
      var chunk := taken.value;
      assert chunk + rest == old(rest);
      r := Deliver(chunk, amt == None || (chunk == [] && amt.value > 0));
    }

    /** The end of `read`: count the chunk, check the length where the stream has just been
        drained, and hand the chunk out. */
    method Deliver(chunk: Bytes, check: bool) returns (r: Result<Bytes, BodyError>)
      requires handed + lost + (chunk + rest) == body
      requires lost != [] ==> chunk == [] && (rest == [] || Fails())
      requires |handed| <= amountRead <= |handed| + |lost| && (check ==> chunk == [] || rest == [])
      modifies this`amountRead, this`handed, this`lost
      ensures Valid() && amountRead == old(amountRead) + |chunk|
      ensures r == if check && LengthMismatch(contentLength, amountRead) then Err(IncompleteRead) else Ok(chunk)
      ensures r.Ok? ==> handed == old(handed) + chunk && lost == old(lost)
      ensures r.Err? ==> handed == old(handed) && lost == old(lost) + chunk
    {
      amountRead := amountRead + |chunk|;
      if check && LengthMismatch(contentLength, amountRead) {
        lost := lost + chunk;
        return Err(IncompleteRead);
      }
      handed := handed + chunk;
      return Ok(chunk);
    }

    method ReadInto(b: array<byte>) returns (r: Result<nat, BodyError>)
      requires Valid()
      modifies this, b
      ensures Valid() && lost == old(lost)
      ensures old(Fails()) ==> r == Err(Mapped(old(script)[0].error)) && rest == old(rest) && b[..] == old(b[..])
      ensures !old(Fails()) ==> (r == Err(IncompleteRead) <==>
        b.Length > 0 && old(rest) == [] && LengthMismatch(contentLength, old(amountRead)))
      ensures !old(Fails()) ==> var n := |old(rest)| - |rest|;
        && 0 <= n <= b.Length && (n == 0 <==> b.Length == 0 || old(rest) == [])
        && rest == old(rest)[n..] && handed == old(handed) + old(rest)[..n]
        && b[..] == old(rest)[..n] + old(b[..])[n..]
        && (r.Ok? ==> r.value == n)
    {
      hide DrainFailure, AfterDrain, ReadyLength, Mapped, LengthMismatch;
      var taken;
      ghost var dropped;
      taken, dropped := ContentRead(b.Length);
      if taken.Err? {
        return Err(Mapped(taken.error));
      }
      var chunk := taken.value;
      var n := |chunk|;
      CopyInto(b, chunk);
      assert chunk == old(rest)[..n] && rest == old(rest)[n..];
      assert chunk + rest == old(rest);
      hide Valid;
      var delivered := Deliver(chunk, n == 0 && b.Length > 0);
      assert chunk == [] ==> handed + chunk == handed && lost + chunk == lost;
      return if delivered.Ok? then Ok(n) else Err(delivered.error);
    }

    method IterChunks(chunkSize: int) returns (chunks: seq<Bytes>, failure: Option<BodyError>)
      requires Valid()
      modifies this
      ensures Valid()
      ensures forall i | 0 <= i < |chunks| :: chunks[i] != []
      ensures handed == old(handed) + Flatten(chunks)
      ensures failure == None && chunkSize != 0 ==> Flatten(chunks) == old(rest) && rest == []
      ensures chunkSize == 0 ==> chunks == []
      ensures failure == Some(IncompleteRead) ==>
        Flatten(chunks) == old(rest) && chunkSize > 0 && LengthMismatch(contentLength, old(amountRead + |rest|))
      ensures failure == None && chunkSize > 0 ==> !LengthMismatch(contentLength, old(amountRead + |rest|))
      ensures match IterFailure(old(script), |old(rest)|, chunkSize)
        case Some(e) => failure == Some(Mapped(e))
        case None => failure == None || failure == Some(IncompleteRead)
    {
      hide Flatten, LengthMismatch, Valid, DrainFailure, AfterDrain, ReadyLength, IterFailure;
      chunks := [];
      FlattenNil<byte>();
      while true
        invariant Valid() && lost == old(lost)
        invariant forall i | 0 <= i < |chunks| :: chunks[i] != []
        invariant handed == old(handed) + Flatten(chunks)
        invariant Flatten(chunks) + rest == old(rest)
        invariant amountRead == old(amountRead) + |Flatten(chunks)|
        invariant chunkSize == 0 ==> chunks == []
        invariant IterFailure(old(script), |old(rest)|, chunkSize) == IterFailure(script, |rest|, chunkSize)
          || (chunkSize < 0 && rest == []
              && IterFailure(old(script), |old(rest)|, chunkSize) == DrainFailure(script, 0))
        decreases |rest|
      {
        ghost var before := rest;
        IterStep(script, |rest|, chunkSize);
        var r := Read(Some(chunkSize));
        match r {
          case Err(e) => return chunks, Some(e);
          case Ok(chunk) =>
            if chunk == [] {
              return chunks, None;
            }
            assert chunk + rest == before;
            Associative(Flatten(chunks), chunk, rest);
            Associative(old(handed), Flatten(chunks), chunk);
            FlattenSnoc(chunks, chunk);
            chunks := chunks + [chunk];
        }
      }
    }

    method IterLines(chunkSize: int, keepEnds: bool) returns (lines: seq<Bytes>, failure: Option<BodyError>)
      requires Valid()
      modifies this
      ensures Valid()
      ensures failure == None && chunkSize != 0 ==> lines == SplitLines(old(rest), keepEnds)
      ensures failure != None ==>
        exists got | old(handed) + got == handed :: lines == AllButLast(SplitLines(got, keepEnds))
      ensures failure == Some(IncompleteRead) ==> lines == AllButLast(SplitLines(old(rest), keepEnds))
      ensures chunkSize == 0 ==> lines == []
      ensures match IterFailure(old(script), |old(rest)|, chunkSize)
        case Some(e) => failure == Some(Mapped(e))
        case None => failure == None || failure == Some(IncompleteRead)
    {
      var chunks;
      chunks, failure := IterChunks(chunkSize);
      lines := LinesOfChunks(chunks, failure != None, keepEnds);
    }
  }

  predicate ReadsAll(amt: Option<int>) {
    amt == None || amt.value < 0
  }

  predicate ReadsSome(amt: Option<int>) {
    amt.Some? && amt.value > 0
  }
}

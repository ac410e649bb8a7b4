# A verified model of aiobotocore's asynchronous core

aiobotocore re-skins botocore for asyncio, and adds state machines of its own whose correctness
hangs on where a stream is cut, on which task runs next, or on rate arithmetic. This project models
those and proves what they promise. It needs Dafny 4.11: `dafny verify dfyconfig.toml`.

| module | what it models |
|---|---|
| `LineSplitting`, `StreamingBody` | streaming bodies of both backends, `iter_chunks`, `iter_lines` |
| `Checksum` | the body that validates a checksum over any mix of reads |
| `AwsChunked`, `Base64` | the aws-chunked encoder, with a decoder for section 7.1 of RFC 9112 and for section 4 of RFC 4648 |
| `Tee` | one asynchronous source fanned out to several consumers |
| `Pagination`, `ResultKeys` | the page iterator, its resume token, and the two ways to collect result keys |
| `TokenBucket` | the token bucket of the adaptive retry mode |
| `RefreshableCredentials` | the two-window, single-flight credential refresh |
| `RefCountedSession` | the reference-counted HTTP session |
| `S3ExpressCache`, `S3ExpressLimits` | the S3 Express identity cache, and exactly how far its promises reach |
| `RetryLoop` | the legacy retry loop with the S3 redirector |
| `SslSearch` | the search for a TLS error among the causes of an exception |
| `Scenarios`, `Text`, `Json` | the evaluation tools' scenario file, printed and parsed |

How the model is built:

- Concurrency. Tasks are cooperative, so what runs between two awaits is one event. A protocol is a
  value `State`, a predicate `Enabled` and a function `Apply`; a run is any sequence of enabled
  events, so every lemma about runs speaks of every interleaving. Any waiter may get a free lock
  next; where the code asks whether a lock is held, it may be held before its owner runs. The class beside each protocol holds the object's own fields; each of its methods is one
  section of the source between two awaits, and is proved to do what `Apply` says. Fields that only
  record history are ghost.
- Streams. A wire is any list of chunks, empty ones included, with a failure anywhere.
- Clocks are monotone parameters. Rates and capacities are reals; rounding is not modelled.
- Exceptions are results. What a helper of botocore does that is not in this repository is taken
  as: `_truncate_response` keeps the first items of a page and records how many of that page have
  been delivered, `_handle_first_request` drops that many, `_verify_content_length` raises exactly
  when a declared length differs from the amount read, and `refresh_needed(t)` means that less than
  `t` is left.

What the code does not promise:

- A read-all that fails midway loses the bytes it had collected (both bodies' `Read`, with `lost`); `read(-1)` drains the stream without a check of length or checksum.
- A caller of the credentials can get some that are inside the mandatory window when the mandatory
  window is the larger one, and only then (`OutsideMandatoryExactly`).
- The S3 Express cache keeps single flight, and its lock map within 100 entries, for up to 100
  distinct buckets and no more (`OneFlightExactly`, `LocksBoundedExactly`).
- The aws-chunked wrapper encodes nothing of a body when the chunk size is zero (`Finished`), and
  iterating to the end never hands out bytes that an earlier sized read held back
  (`IterateToEnd`, `HeldBackBytesAreLost`).
- A call can return expiring credentials before anybody fetches, if the refresh is only advisory
  (`NoReturnBeforeFetchExactly`).
- A page iterator whose service repeats a token fails only if the limit is not reached before, and
  serves a starting page that asks for itself twice (`Outcome`).
- An acquire for more tokens than fit never returns unless the rate is raised (`ServedExactly`,
  `OversizedWaits`).
- A lost release of the session leaves it open (`SessionDiscipline`, `LostReleaseLeavesOpen`).
- A retry policy that stands alone never has its retryable exceptions swallowed (`SwallowsExactly`).
- A title with a character that JSON escapes does not come back from the scenario file
  (`RoundTripExactly`, `AccentComesBackEscaped`).

## Model

| member | source | states |
|---|---|---|
| `LineSplitting.SplittingIsUnique` | aiobotocore/response.py:81-90 | The split used everywhere below is the only way to cut a text into lines: the pieces rebuild the text, each is break-free content and at most one terminator, only the last may lack one, no CR LF pair is torn. Both directions. |
| `LineSplitting.EndsDropped` | aiobotocore/response.py:81-90 | With `keepends=False` there are as many lines, each the content of the line with its end. |
| `LineSplitting.SplitAppend` | aiobotocore/response.py:81-90 | More text changes only the last line, wherever the cut falls, a CR LF pair included. |
| `LineSplitting.ChunkStep` | aiobotocore/response.py:83-88 | One chunk makes all lines of `pending + chunk` but the last final, and the last is the pending text of everything seen. |
| `LineSplitting.SplitLineAgain` | aiobotocore/response.py:87-90 | Splitting one line again yields exactly that line, with or without its end, so `splitlines(keepends)[0]` is safe. |
| `LineSplitting.FinishedLines` | aiobotocore/response.py:85-88 | The inner loop yields all lines but the last and keeps the last one back. |
| `LineSplitting.LinesOfChunks` | aiobotocore/response.py:81-90 | For every list of non-empty chunks the lines yielded are those of the whole text split once; if the stream failed, all but the unfinished one. |
| `StreamingBody.ChunkedArrives` | aiobotocore/response.py:209-225 | Every chunking of a body, empty chunks included, brings the same bytes. |
| `StreamingBody.FirstFailure` | aiobotocore/response.py:214-225 | Exactly the chunks before the first failure arrive, and it is raised as a read timeout if it is a timeout, as a streaming error if the connection was lost. |
| `StreamingBody.HttpxStreamingBody.constructor` | aiobotocore/response.py:198-202 | A new body has everything the wire brings before its first failure still to read. |
| `StreamingBody.HttpxStreamingBody.FillBuffer` | aiobotocore/response.py:209-225 | Filling loses nothing; it stops with enough bytes or at the end, and fails exactly when the wire fails before there are enough, keeping what arrived. |
| `StreamingBody.HttpxStreamingBody.Read` | aiobotocore/response.py:227-259 | `read(n>0)` returns exactly min(n, left) bytes off the front; zero does nothing; all means the rest; a length error arises at a draining check exactly when the declared length differs; a failing sized read keeps every byte, a failing read-all drops what was left. Delivered, lost and remaining bytes always concatenate to the body. |
| `StreamingBody.HttpxStreamingBody.ReadInto` | aiobotocore/response.py:261-274 | The same for `readinto`, with the caller's array overwritten in its first bytes and unchanged behind them. |
| `StreamingBody.HttpxStreamingBody.Readable` | aiobotocore/response.py:276-277 | Readable if and only if something is left or the end has not been seen yet; not readable means, if no read-all failed, that the whole body was delivered. |
| `StreamingBody.HttpxStreamingBody.ReadChunk` | aiobotocore/response.py:97-99 | The read of one iteration: a piece of the asked size unless the end is near, nothing exactly at a clean end, and every failure of the wire. |
| `StreamingBody.HttpxStreamingBody.IterChunks` | aiobotocore/response.py:92-100 | The chunks are non-empty, rebuild what was left, and all but the last have the asked size; the iteration ends with the failure of the wire if and only if the wire fails, and else with the length error exactly when the length is wrong. |
| `StreamingBody.HttpxStreamingBody.IterLines` | aiobotocore/response.py:81-100 | For every wire chunking, chunk size and `keepends` the lines are those of everything left to read, split once; after a length error, all of those but the last; after a transport failure, which is never swallowed, those of what was delivered but the last. |
| `StreamingBody.AioStreamingBody.Read` | aiobotocore/response.py:137-156 | On the aiohttp backend: a prefix of what is left, empty only at the end; everything when all is asked; the length error exactly at a draining check with a wrong length; a transport failure takes nothing from a sized read, and from a read-all, which may fail midway, the blocks collected so far. |
| `StreamingBody.AioStreamingBody.ReadInto` | aiobotocore/response.py:158-176 | The same into the caller's array, which is untouched behind the bytes read. |
| `StreamingBody.AioStreamingBody.IterChunks` | aiobotocore/response.py:92-100 | The chunks rebuild what was left; the iteration ends with a transport failure if and only if the transport fails one of its reads, and else with the length error exactly when the length is wrong. |
| `StreamingBody.AioStreamingBody.IterLines` | aiobotocore/response.py:81-100 | The lines are those of everything left to read, split once; after a length error, all of those but the last; a transport failure is never swallowed. |
| `Checksum.UpdateConcat` | aiobotocore/httpchecksum.py:83-101 | Feeding two pieces is feeding their concatenation, for every incremental algorithm. |
| `Checksum.DigestSeesAll` | aiobotocore/httpchecksum.py:83-101 | Every byte is absorbed, once and in order: the algorithm that records what it absorbs records the whole text. |
| `Checksum.HttpxChecksumBody.Read` | aiobotocore/httpchecksum.py:83-88 | In error-free runs a draining call raises exactly when the length or the digest of the whole body is wrong, and any other call returns its bytes; the running state is the checksum of exactly the bytes handed out; a mismatch is only raised with nothing left to read. |
| `Checksum.HttpxChecksumBody.ReadInto` | aiobotocore/httpchecksum.py:90-101 | The same for `readinto`, of which only the bytes read are fed. |
| `Base64.RoundTrip` | aiobotocore/httpchecksum.py:60 | The checksum text in the trailer decodes to the checksum. |
| `Base64.Alphabet` | aiobotocore/httpchecksum.py:60 | The alphabet of section 4 of RFC 4648. |
| `Base64.Examples` | aiobotocore/httpchecksum.py:60 | The alphabet and the padding, on a text of each remainder. |
| `AwsChunked.HexRoundTrip` | aiobotocore/httpchecksum.py:51 | Every chunk size is written so that the grammar of chunk sizes reads it back. |
| `AwsChunked.DecodeBlocks` | aiobotocore/httpchecksum.py:45-62 | For any blocks and any text checksummed, the chunks and terminator decode to exactly those blocks and that trailer. |
| `AwsChunked.RoundTrip` | aiobotocore/httpchecksum.py:20-62 | However the body was cut by short reads, the encoded text decodes by section 7.1 of RFC 9112 to the body, the sizes add up to its length, and the trailer is the checksum of all of it. |
| `AwsChunked.Example` | aiobotocore/httpchecksum.py:45-62 | A body of 26 bytes in one block, written out: the size is hexadecimal, the end is the zero chunk. |
| `AwsChunked.AioAwsChunkedWrapper.MakeChunk` | aiobotocore/httpchecksum.py:45-62 | One chunk extends the encoded text by itself; without completion the raw body has shrunk. |
| `AwsChunked.AioAwsChunkedWrapper.Read` | aiobotocore/httpchecksum.py:20-43 | Sized reads hand out the encoded text in order without loss or repetition, exactly as much as asked unless it ends; an empty result means the end. |
| `AwsChunked.AioAwsChunkedWrapper.Next` | aiobotocore/httpchecksum.py:64-70 | Each step hands out the next non-empty chunk of the encoded text, and the iteration ends exactly when the text is complete. With nothing held back by an earlier sized read the order is kept; a chunk that overtakes bytes held back keeps it if and only if the two can be swapped. |
| `AwsChunked.AioAwsChunkedWrapper.IterateToEnd` | aiobotocore/httpchecksum.py:64-70 | Iteration to its end never hands out what an earlier sized read held back: the whole text is what was handed out before, then those bytes, then what the iteration yields, so what was handed out is the whole text if and only if nothing was held back when the iteration started. |
| `AwsChunked.HeldBackBytesAreLost` | aiobotocore/httpchecksum.py:20-70 | For a body of one byte, reading one byte and iterating the rest loses a piece in the middle of the text. |
| `AwsChunked.AioAwsChunkedWrapper.Finished` | aiobotocore/httpchecksum.py:20-70 | Once the text is complete and in order, what was handed out followed by what is still held back is the coding of the blocks that the raw read pattern and chunk size determine, whether it was read or iterated. It decodes with sizes that add up and a trailer whose value decodes to the checksum of what it decodes to, which is the whole body if and only if the chunk size is not zero or the body is empty. |
| `Tee.ApplyKeepsInv` | aiobotocore/_tee.py:23-47 | Every event, cancellation included, keeps: each consumer's values followed by its buffer are the values pulled; only the lock holder is in the source, with an empty buffer; a first terminal signal is the source's outcome after every value. |
| `Tee.NoSourceEvents` | aiobotocore/_tee.py:30-44 | Once the outcome is recorded nobody calls the source again. |
| `Tee.RunFacts` | aiobotocore/_tee.py:23-47 | Over any run the values pulled are those the source produced, and the outcome is how it came to its end: exhausted, failed, or poisoned because the consumer asking it was cancelled. |
| `Tee.RepliesExactly` | aiobotocore/_tee.py:59-74 | What each call of `__anext__` answers, and when: the oldest buffered value, the outcome once the buffer is empty, a plain stop after that, the cancellation; it asks the source only with nothing buffered and no outcome. |
| `Tee.RepliesRecorded` | aiobotocore/_tee.py:59-74 | Over any run, the values and the first signal on record are those that the calls gave. |
| `Tee.TeeGuarantee` | aiobotocore/_tee.py:23-74 | For every number of consumers, interleaving and cancellation: the values that a consumer's calls returned, then its buffer, are what the source produced; its first stop or error follows every value and replays how the source came to its end, the poison exactly when the consumer asking it was cancelled; all consumers get the same; the source is asked at most once more than it produced values. |
| `Tee.TeeState.constructor` | aiobotocore/_tee.py:15-21 | The start of every run. |
| `Tee.TeeState.Return` | aiobotocore/_tee.py:65-74 | After `pull`: pop the buffer, or replay the outcome and stay stopped. |
| `Tee.TeeState.Call` | aiobotocore/_tee.py:59-66 | `__anext__` up to its first await refines the call event. |
| `Tee.TeeState.Acquire` | aiobotocore/_tee.py:30-33 | With the lock: bail out if the buffer was filled or the source is done, else ask the source. |
| `Tee.TeeState.SourceYields` | aiobotocore/_tee.py:45-47 | The loop over the buffers appends the value to every one of them, the caller's own included. |
| `Tee.TeeState.SourceEnds` | aiobotocore/_tee.py:34-35 | Exhaustion is recorded and replayed. |
| `Tee.TeeState.SourceFails` | aiobotocore/_tee.py:42-44 | An error of the source is recorded and replayed. |
| `Tee.TeeState.CancelInSource` | aiobotocore/_tee.py:36-41 | A cancellation in the source poisons the others and is raised. |
| `Tee.TeeState.CancelWaiting` | aiobotocore/_tee.py:30 | A cancellation while waiting for the lock changes nothing shared. |
| `Pagination.CutPage` | aiobotocore/paginate.py:63-72 | A page cut in its middle leaves the rest of the listing to the token with the recorded amount. |
| `Pagination.TurnPage` | aiobotocore/paginate.py:73-99 | A page delivered to its end leaves the rest of the listing to its next token. |
| `Pagination.AioPageIterator.Turn` | aiobotocore/paginate.py:39-99 | One request: the page as it is yielded, cut at the limit, and whether the run stops, fails or goes on, with what is still to be served. |
| `Pagination.WholeListing` | aiobotocore/paginate.py:39-99 | For a service whose pages simply follow each other, the listing is the items of all its pages in order. |
| `Pagination.PagesServedAre` | aiobotocore/paginate.py:39-99 | The pages of a run, put together, are the listing that the other properties speak of. |
| `Pagination.AioPageIterator.Iterate` | aiobotocore/paginate.py:21-99 | A fresh run from any starting token yields exactly what the service has from there, up to MaxItems, page for page: each yielded page is a page of the service, only the first may be cut at its start and the last at its end. It fails if and only if the service repeats a token before the limit is reached. If it repeats none, or the limit is reached before the listing is, the items are the next min(MaxItems, remaining) ones and the resume token leads to precisely the rest; no token means nothing is left. It always ends. |
| `Pagination.ChainRebuilds` | tests/test_basic_s3.py:362-401 | Chaining runs of any sizes, each from the resume token before, loses nothing and repeats nothing, and delivers as many items as the limits allow together. |
| `Pagination.ChainThenRest` | tests/test_basic_s3.py:362-401 | Any chain followed by an unlimited run is the unlimited listing. |
| `ResultKeys.BuildFullResult` | aiobotocore/paginate.py:121-164 | Under every list-valued key the result is the concatenation over all pages; a key is present exactly when some page has it; nothing else is present. |
| `ResultKeys.IterateKey` | aiobotocore/paginate.py:214-220 | One key's iterator yields that same concatenation. |
| `ResultKeys.KeyIteratorsAgree` | aiobotocore/paginate.py:114-119 | In every interleaving of the key iterators over a teed listing, each has yielded, even halfway through a page, a prefix of what the full result holds under its key, and all of it once it stops cleanly. |
| `TokenBucket.ApplyKeepsInv` | aiobotocore/retries/bucket.py:53-69 | Every event keeps the capacity within zero and the maximum, the maximum at least 1, the rate at least the minimum. |
| `TokenBucket.RateIsClamped` | aiobotocore/retries/bucket.py:53-69 | Setting a rate sets it to the larger of value and minimum, the maximum to the larger of value and 1, and cuts the refilled capacity to that. |
| `TokenBucket.AcquireAnswers` | aiobotocore/retries/bucket.py:91-106 | An acquire is granted if and only if the refilled bucket has the tokens, which it then loses; else it waits if it blocks; a waiter keeps its place until it is served or cancelled. |
| `TokenBucket.ApplyConserves` | aiobotocore/retries/bucket.py:91-120 | One event: what was there and accrued is what was granted, spilled, or is left. |
| `TokenBucket.Conservation` | aiobotocore/retries/bucket.py:53-120 | The bounds and the balance hold over every run of interleaved acquires, waits, cancellations and rate changes. |
| `TokenBucket.LookingIsFree` | aiobotocore/retries/bucket.py:111-120 | Refilling at any earlier moment changes neither the grants nor the end of a run. |
| `TokenBucket.WindowBound` | aiobotocore/retries/bucket.py:91-120 | In every window the tokens granted are at most the capacity at its start plus the sum of rate times duration over the rates in force. |
| `TokenBucket.FloorOfCapacity` | aiobotocore/retries/bucket.py:53-69 | Whatever rates are set, without competing grants the capacity reaches min(1, elapsed time times the minimum rate). |
| `TokenBucket.SleepMeansShort` | aiobotocore/retries/bucket.py:108-109 | The sleep amount is positive exactly when the tokens do not suffice. |
| `TokenBucket.SleeperIsServed` | aiobotocore/retries/bucket.py:100-106 | At an unchanged rate and without competing grants, a waiter that slept its full sleep amount is served at its next check, if its amount fits. |
| `TokenBucket.GrantsFit` | aiobotocore/retries/bucket.py:91-95 | No grant exceeds the maximal capacity. |
| `TokenBucket.ServedExactly` | aiobotocore/retries/bucket.py:100-106 | A waiter can be served, by waiting long enough, if and only if its amount is at most the maximal capacity. |
| `TokenBucket.OversizedWaits` | aiobotocore/retries/bucket.py:100-104 | A waiter for more than fits is still waiting after every run in which the rate is never set high enough and it is not cancelled. |
| `TokenBucket.AsyncTokenBucket.constructor` | aiobotocore/retries/bucket.py:21-31 | A new bucket is empty, with rate and maximum clamped from below. |
| `TokenBucket.AsyncTokenBucket.RefillAt` | aiobotocore/retries/bucket.py:111-120 | The first refill only reads the clock; later ones add what accrued, up to the maximum. |
| `TokenBucket.AsyncTokenBucket.SetMaxRate` | aiobotocore/retries/bucket.py:53-69 | Refill at the old rate first, then set rate and maximum and cut the capacity. |
| `TokenBucket.AsyncTokenBucket.Acquire` | aiobotocore/retries/bucket.py:91-99 | Grants exactly when the refilled capacity suffices; refuses only a caller that does not block; else sleeps for a positive amount. |
| `TokenBucket.AsyncTokenBucket.Woken` | aiobotocore/retries/bucket.py:100-106 | After each wait: served exactly when the refilled capacity suffices, else asleep again. |
| `RefreshableCredentials.ApplyKeepsInv` | aiobotocore/credentials.py:438-498 | Every event keeps: the frozen credentials are those of the one record installed last; only the lock's owner fetches; every fetch follows a check that found a refresh needed. |
| `RefreshableCredentials.FetchNeedsCheck` | aiobotocore/credentials.py:443-461 | A fetch is started only by the lock's owner, while nobody fetches, after a refresh-needed check made under the lock. |
| `RefreshableCredentials.ReturnsAreFresh` | aiobotocore/credentials.py:438-498 | A normal return hands out one record's credentials: outside the smaller window at the caller's last check, or unexpired ones that the caller installed. |
| `RefreshableCredentials.OutsideMandatoryExactly` | aiobotocore/credentials.py:438-461 | Returned credentials are always outside the mandatory window (or just installed) if and only if that window is not larger than the advisory one. |
| `RefreshableCredentials.FailedFetch` | aiobotocore/credentials.py:463-483 | A failed fetch changes no credentials, and is raised exactly when the refresh was mandatory. |
| `RefreshableCredentials.RepliesExactly` | aiobotocore/credentials.py:438-498 | What a call answers, and when: fresh credentials at once; those that the check under the lock, or a refresh by somebody else, makes good enough; those of a successful fetch unless they are expired; the error of a mandatory fetch and no other. |
| `RefreshableCredentials.RaceFetchesOnce` | tests/test_credentials.py:10-52 | However many callers race, every fetch but one is paid for by a fetch that came to nothing, so a fetch whose record lasts is the only one; when no caller can put the refresh off, no call completes before a fetch has started. |
| `RefreshableCredentials.NoReturnBeforeFetchExactly` | aiobotocore/credentials.py:438-461 | In all races of n callers no call completes before a fetch has started if and only if the credentials need a refresh and, with two callers or more, one that is mandatory. |
| `RefreshableCredentials.ReturnWithoutFetch` | aiobotocore/credentials.py:442-454 | Otherwise there is a run in which a call returns without any fetch: the second caller sees the lock held by a first that has not run yet. |
| `RefreshableCredentials.AioRefreshableCredentials.Call` | aiobotocore/credentials.py:438-454 | `get_frozen_credentials` up to its first await refines the call event. |
| `RefreshableCredentials.AioRefreshableCredentials.Take` | aiobotocore/credentials.py:444-457 | The lock is held from here on, though its owner has not run yet. |
| `RefreshableCredentials.AioRefreshableCredentials.CheckAdvisory` | aiobotocore/credentials.py:443-453 | The advisory branch running with the lock: check again, decide whether the refresh is mandatory, fetch. |
| `RefreshableCredentials.AioRefreshableCredentials.CheckMandatory` | aiobotocore/credentials.py:454-461 | The mandatory branch running with the lock: check again, fetch. |
| `RefreshableCredentials.AioRefreshableCredentials.Install` | aiobotocore/credentials.py:484-487 | All fields and the frozen copy come from the one record. |
| `RefreshableCredentials.AioRefreshableCredentials.FetchOk` | aiobotocore/credentials.py:484-494 | A fetched record is installed; one that is already expired is reported. |
| `RefreshableCredentials.AioRefreshableCredentials.FetchFails` | aiobotocore/credentials.py:467-483 | The lock is free again, the credentials are untouched. |
| `RefreshableCredentials.AioRefreshableCredentials.CancelFetch` | aiobotocore/credentials.py:463-467 | A cancelled fetch frees the lock and installs nothing. |
| `RefCountedSession.ApplyKeepsInv` | aiobotocore/utils.py:56-79 | Every event keeps: the count is the number of tasks holding a reference plus the releases lost; enter and exit happen at a count of one, under the lock. |
| `RefCountedSession.SessionDiscipline` | aiobotocore/utils.py:56-79 | For any number of tasks, failing entries and exits and cancellations: the session's asserts never fire, enters and exits strictly alternate, the session is open while a task is inside, and with everyone out the count is zero and the session closed if and only if no release was lost. |
| `RefCountedSession.LostReleaseLeavesOpen` | aiobotocore/utils.py:72-79 | A run of a lone task that is cancelled while it waits to leave: nobody uses the session, the count is 1 and it is open. |
| `RefCountedSession.FailedEntryRetries` | aiobotocore/utils.py:62-70 | A failed entry leaves no reference, so the next one enters again. |
| `RefCountedSession.AIOHTTPSession.Enter` | aiobotocore/httpsession.py:123-127 | Demands a closed session and opens it. |
| `RefCountedSession.AIOHTTPSession.Exit` | aiobotocore/httpsession.py:129-134 | Demands an open session and closes it. |
| `RefCountedSession.RefCountedSessionMixin.LockIn` | aiobotocore/utils.py:62-67 | The first reference must enter, and finds the session closed. |
| `RefCountedSession.RefCountedSessionMixin.Entered` | aiobotocore/utils.py:66-74 | A successful enter opens the session and lets its caller in. |
| `RefCountedSession.RefCountedSessionMixin.EnterFails` | aiobotocore/utils.py:68-70 | A failed enter gives the reference back. |
| `RefCountedSession.RefCountedSessionMixin.LockOut` | aiobotocore/utils.py:75-79 | The last reference must exit, and finds the session open. |
| `RefCountedSession.RefCountedSessionMixin.Exited` | aiobotocore/utils.py:75-79 | A successful exit closes the session and drops the reference. |
| `RefCountedSession.RefCountedSessionMixin.ExitFails` | aiobotocore/utils.py:75-79 | A failing exit frees the lock but keeps the reference, and the session stays open. |
| `S3ExpressCache.AnswersExactly` | aiobotocore/utils.py:429-450 | What a call returns, and when: the cached credential on arrival or with the lock, else the one it fetched, always for the bucket it asked for. |
| `S3ExpressCache.CacheIsBounded` | aiobotocore/utils.py:429-450 | In every run the map holds at most 100 distinct buckets, each with a credential built for it, and everybody got a credential for the bucket asked for. |
| `S3ExpressCache.EvictsTheOldest` | aiobotocore/utils.py:441-446 | An eviction happens only at 101 entries, and takes the least recently used bucket, never the one just inserted. |
| `S3ExpressCache.OneSessionPerBucket` | aiobotocore/utils.py:429-450 | While nothing is evicted, in every interleaving no two tasks are in `create_session` for the same bucket, at most one completes for it, and all callers for it get that one credential. |
| `S3ExpressCache.AHundredBuckets` | aiobotocore/utils.py:443 | Nothing is evicted when at most 100 distinct buckets are ever requested. |
| `S3ExpressLimits.EvictionAllowsTwoFlights` | aiobotocore/utils.py:443-446 | There is a run that asks for 101 distinct buckets in which two tasks fetch for the same bucket at once, because the eviction dropped a lock that still had a waiter; one event later the bucket was fetched twice and two credentials were handed out. |
| `S3ExpressLimits.OneFlightExactly` | aiobotocore/utils.py:429-450 | All runs that ask for at most k distinct buckets keep single flight if and only if k <= 100: separately for fetches in flight, for completed fetches, and for the credentials handed out. |
| `S3ExpressLimits.LocksBoundedExactly` | aiobotocore/utils.py:435-446 | The lock map never has more entries than buckets were asked for, and all runs that ask for at most k keep it within 100 if and only if k <= 100: failed fetches leave their locks behind. |
| `S3ExpressCache.LruStep` | aiobotocore/utils.py:430-449 | One use of the map is one use of an unbounded most-recently-used order, cut to its last 100. |
| `S3ExpressCache.CacheIsLru` | tests/test_utils.py:46-58 | Run sequentially, failing fetches included, the ordered map is always the 100 buckets of the latest successful uses, in the order of their last use. |
| `S3ExpressCache.AioS3ExpressIdentityCache.ReturnCached` | aiobotocore/utils.py:430-433 | A hit moves to the end and returns the cached credential. |
| `S3ExpressCache.AioS3ExpressIdentityCache.Call` | aiobotocore/utils.py:430-438 | A hit returns at once; a miss finds or makes the bucket's lock. |
| `S3ExpressCache.AioS3ExpressIdentityCache.Acquire` | aiobotocore/utils.py:439-449 | With the lock the cache is consulted again before a fetch. |
| `S3ExpressCache.AioS3ExpressIdentityCache.Store` | aiobotocore/utils.py:442-446 | The assignment and the eviction of the oldest entry with its lock. |
| `S3ExpressCache.AioS3ExpressIdentityCache.FetchOk` | aiobotocore/utils.py:441-450 | A fetched credential is stored, returned, and the lock freed. |
| `S3ExpressCache.AioS3ExpressIdentityCache.FetchFails` | aiobotocore/utils.py:439-441 | A failed fetch frees the lock, which stays in the map. |
| `RetryLoop.MultiChecker` | aiobotocore/retryhandler.py:170-178 | The first checker that wants a retry or raises decides; none means no retry. |
| `RetryLoop.CreateChecker` | aiobotocore/retryhandler.py:29-60 | All policies' checkers in order; the retryable exceptions are dropped when there is exactly one. |
| `RetryLoop.DecoratedMeans` | aiobotocore/retryhandler.py:117-178 | What the decorator's answer means in terms of its checkers: a retry if and only if the first checker that does not accept wishes for one (asks, or raises a listed exception in time) and attempts are left; an exception if and only if that checker raises one that is no such wish; the mark if and only if a wish came at or after the last attempt. |
| `RetryLoop.MaxAttemptsDecorator` | aiobotocore/retryhandler.py:117-167 | The same of the method: never a retry from the last attempt on, no exception lost or invented, and MaxAttemptsReached set exactly on a response whose wished-for retry is refused. |
| `RetryLoop.SwallowsExactly` | aiobotocore/retryhandler.py:149-167 | An exception of a checker becomes a retry exactly when several policies exist, one lists it, and attempts are left; else it is raised. |
| `RetryLoop.RedirectConditions` | aiobotocore/utils.py:526-568 | The redirect conditions one by one, and that there is no other. |
| `RetryLoop.RedirectsExactly` | aiobotocore/utils.py:510-645 | The redirector asks for a retry if and only if the response meets one of the redirect conditions, is not yet redirected and of no access point, a valid region is found (in the header, else the error body, else by a HEAD request) and the new endpoint resolves. |
| `RetryLoop.RedirectFromError` | aiobotocore/utils.py:492-645 | The same of the method, which marks the request exactly when it asks for a retry and passes on what the lookup raises. |
| `RetryLoop.DecisionExactly` | aiobotocore/endpoint.py:272-302 | If no handler raises, the reply is tried again if and only if the checkers wish for it with attempts left, or the redirector does; if one raises, the loop ends with the exception of the one called first. |
| `RetryLoop.NeedsRetry` | aiobotocore/endpoint.py:272-302 | All handlers are asked unless one raises; any wish means a retry, and without a redirector that of the checkers decides alone. |
| `RetryLoop.SendsAreBounded` | aiobotocore/endpoint.py:114-137 | A send past the maximal number of attempts was asked for by the redirector, and there is at most one such send. |
| `RetryLoop.SendRequest` | aiobotocore/endpoint.py:114-153 | The loop ends after at most max_attempts sends, one more with the redirector; it stops at the first reply that nobody wants to retry, without a redirector at the first that the checkers do not wish for or the last attempt; the recorded RetryAttempts is the number of sends minus one. |
| `SslSearch.ClosedSetHoldsPath` | aiobotocore/httpxsession.py:102-109 | A set closed under the links holds everything reachable from its members. |
| `SslSearch.FindSslError` | aiobotocore/httpxsession.py:92-110 | On every finite graph, cycles included, the search ends and finds a reachable TLS error exactly when there is one. |
| `Text.SplitJoined` | plugins/aiobotocore-bot/evals/generate_scenarios.py:186 | Splitting the joined text gives the lines back. |
| `Text.StripQuoted` | plugins/aiobotocore-bot/evals/_common.py:409 | Stripping quotes off a quoted text is stripping them off the text. |
| `Json.QuotesStrippedExactly` | plugins/aiobotocore-bot/evals/_common.py:409 | A JSON string stripped of its quotes is the original text if and only if no character needed an escape. |
| `Json.EscapeExamples` | plugins/aiobotocore-bot/evals/generate_scenarios.py:166 | How quotes, backslashes and line breaks are written. |
| `Json.UnicodeExamples` | plugins/aiobotocore-bot/evals/generate_scenarios.py:166 | How characters beyond ASCII are written, a surrogate pair included. |
| `Json.AccentComesBackEscaped` | plugins/aiobotocore-bot/evals/_common.py:409 | An accented letter is one that does not come back. |
| `Scenarios.SortSorts` | plugins/aiobotocore-bot/evals/generate_scenarios.py:161 | The printing order is ascending and a permutation of the scenarios. |
| `Scenarios.DecimalRoundTrip` | plugins/aiobotocore-bot/evals/generate_scenarios.py:165 | Different pull requests are written differently. |
| `Scenarios.KeyLineParsed` | plugins/aiobotocore-bot/evals/_common.py:403-411 | A key line assigns its stripped value, whatever the value contains, and ends a block it stands in. |
| `Scenarios.FileLineSkipped` | plugins/aiobotocore-bot/evals/_common.py:403-411 | A line of the file list leaves no trace, whatever the file is called. |
| `Scenarios.TailSkipped` | plugins/aiobotocore-bot/evals/_common.py:390-395 | The rationale block and the notes leave no trace. |
| `Scenarios.ScenarioParsed` | plugins/aiobotocore-bot/evals/_common.py:388-411 | One printed scenario becomes exactly one row with the wanted fields. |
| `Scenarios.RoundTrip` | plugins/aiobotocore-bot/evals/generate_scenarios.py:148-186 | Parsing the printed text gives, for any set of field keys, one row for each scenario in ascending order with the wanted fields and nothing else, if the unquoted fields are single lines. |
| `Scenarios.RoundTripExactly` | plugins/aiobotocore-bot/evals/_common.py:373-414 | For any set of field keys the printed text reads back as the scenarios' own fields, in ascending order, if and only if in every scenario the wanted quoted fields need no escape and the wanted unquoted ones are trimmed. |
| `Scenarios.PlainFieldExactly` | plugins/aiobotocore-bot/evals/_common.py:406-409 | An unquoted field comes back if and only if it has neither white space nor a quote at its ends. |
| `Scenarios.RecoveredExactly` | plugins/aiobotocore-bot/evals/_common.py:373-414 | For any of the eight one-line fields, a row is the scenario's own fields if and only if the wanted quoted ones need no escape and the wanted unquoted ones are trimmed. |
| `Scenarios.CaseRow` | plugins/aiobotocore-bot/evals/check_async_need.py:91 | That row and that condition for the keys title, expected, from and to. |
| `Scenarios.FileLinesAre` | plugins/aiobotocore-bot/evals/generate_scenarios.py:175-178 | Every touched file is printed on a line of its own. |
| `Scenarios.RenderYaml` | plugins/aiobotocore-bot/evals/generate_scenarios.py:148-186 | The growing list of lines is the text that the lemmas speak of. |
| `Scenarios.ParseScenariosYaml` | plugins/aiobotocore-bot/evals/_common.py:373-414 | The line loop computes the rows that the lemmas speak of; a missing file gives none. |

## Left out

- Sockets, HTTP, TLS, proxies, signing, parsing, clients and sessions: calls into code that is not part of this model.
- `AioStreamingChecksumBody`: the same mixin over the aiohttp body; only the httpx one is modelled.
- `iter_chunks(None)`: a first draining read followed by an empty one; chunk sizes are integers here.
- Chunk extensions of section 7.1.1 of RFC 9112: the encoder writes none, so the decoder knows none.
- The expected checksum is taken decoded; a malformed checksum header is not modelled.
- One task per tee consumer: two tasks in one consumer's `__anext__` at once are not modelled.
- `aioitertools.tee`, which the asyncio page iterator uses, is not part of this model; `KeyIteratorsAgree` is about the tee of the httpx backend.
- Pagination.AioPageIterator.Iterate: the main clause is about a fresh iterator, because iterating rewrites the iterator's own arguments; a negative MaxItems is not modelled, nor are secondary result keys, which are emptied on a resumed first page.
- Resume tokens are positions: their Base64 and JSON coding is botocore's and taken to round-trip.
- Listings of the service are deterministic, finite, and their tokens lead forward or back to the same page.
- ResultKeys.BuildFullResult: not numbers or strings under a result key, non-aggregate parts, or the `NextToken` entry.
- Floating-point rounding of the token bucket, and negative amounts.
- `notify` and the fairness of locks and conditions: any waiter may wake at any time, which covers every policy.
- `DeferredRefreshableCredentials` and credentials without an expiry time; providers and fetchers are any fetch that succeeds, fails or is cancelled.
- The retries context, `reset_stream`, signing of the resent request and the time slept between sends; exceptions in a handler end the loop.
- RetryLoop.RedirectFromError: the HEAD request, the validity of a region name and the resolving of the new endpoint are answers of the environment; the rewritten URL, signing context and region cache are not modelled.
- RetryLoop.CreateChecker: not a configuration without a `__default__` entry, which leaves the maximal number of attempts unset.
- The version 1 redirector, adaptive and standard retry modes, waiters, event streams, tokens.
- Scenarios.RoundTrip: for key sets within the eight fields the generator writes on one line and the default block keys; `ParseScenariosYaml` takes any.
- The wording of the comments at the head of the scenario file: they are any lines that start with `#`.

/** The S3 Express identity cache: an ordered map of at most 100 buckets with one refresh lock per
    bucket, shared by any number of tasks. */
module S3ExpressCache {
  import opened Prelude

  const LIMIT: nat := 100

  /** A bucket name; only its equality matters here. */
  type Bucket = nat

  /** A credential object, and the bucket it was built for. */
  datatype Credential = Credential(bucket: Bucket, serial: nat)

  /** What a task got when it asked for a bucket. */
  datatype Given = Given(who: nat, asked: Bucket, credential: Credential)

  /** Where a task is in `get_credentials`; `lock` names the lock object it got. */
  datatype Phase = Idle | Waiting(bucket: Bucket, lock: nat) | Fetching(bucket: Bucket, lock: nat)

  datatype Event =
    | Call(who: nat, bucket: Bucket)
    | Acquire(who: nat)
    | FetchOk(who: nat)
    | FetchFails(who: nat)       // `create_session` raises or is cancelled
    | CancelWaiting(who: nat)

  /** The ordered map: its keys, oldest first, and its values. */
  datatype Cache = Cache(order: seq<Bucket>, credentials: map<Bucket, Credential>)

  datatype State = State(
    cache: Cache,
    locks: map<Bucket, nat>,               // `_refresh_locks`
    holders: map<nat, nat>,                // which task holds which lock object
    nextLock: nat,
    phases: seq<Phase>,
    // history
    fetched: seq<Bucket>,                  // successful `create_session` calls
    given: seq<Given>,                     // what was returned to callers
    evictions: nat
  )

  function Start(n: nat): State {
    State(Cache([], map[]), map[], map[], 0, seq(n, _ => Idle), [], [], 0)
  }

  function Remove(s: seq<Bucket>, b: Bucket): seq<Bucket> {
    if s == [] then []
    else if s[0] == b then Remove(s[1..], b)
    else [s[0]] + Remove(s[1..], b)
  }

  /** `move_to_end` */
  function ToEnd(s: seq<Bucket>, b: Bucket): seq<Bucket> {
    Remove(s, b) + [b]
  }

  ghost predicate Enabled(s: State, e: Event) {
    && e.who < |s.phases|
    && match e
       case Call(i, _) => s.phases[i].Idle?
       case Acquire(i) => s.phases[i].Waiting? && s.phases[i].lock !in s.holders
       case FetchOk(i) => s.phases[i].Fetching?
       case FetchFails(i) => s.phases[i].Fetching?
       case CancelWaiting(i) => s.phases[i].Waiting?
  }

  /** A hit: the bucket becomes the most recent one and its credential is returned. */
  function Hit(s: State, i: nat, b: Bucket): State
    requires i < |s.phases| && b in s.cache.credentials
  {
    s.(cache := Cache(ToEnd(s.cache.order, b), s.cache.credentials),
       phases := s.phases[i := Idle], given := s.given + [Given(i, b, s.cache.credentials[b])])
  }

  /** Assignment: an existing key keeps its place, a new one goes to the end. */
  function Put(cache: Cache, b: Bucket, c: Credential): Cache {
    Cache(if b in cache.credentials then cache.order else cache.order + [b], cache.credentials[b := c])
  }

  function DropOldest(cache: Cache): Cache
    requires cache.order != []
  {
    Cache(cache.order[1..], cache.credentials - {cache.order[0]})
  }

  /** `self._credentials[bucket] = credentials`, and the eviction that may follow. */
  function Insert(s: State, b: Bucket, c: Credential): State {
    var cache := Put(s.cache, b, c);
    if |cache.order| > LIMIT then
      s.(cache := DropOldest(cache), locks := s.locks - {cache.order[0]}, evictions := s.evictions + 1)
    else s.(cache := cache)
  }

  function Apply(s: State, e: Event): State
    requires Enabled(s, e)
  {
    match e
    case Call(i, b) =>
      if b in s.cache.credentials then Hit(s, i, b)
      else if b in s.locks then s.(phases := s.phases[i := Waiting(b, s.locks[b])])
      else s.(phases := s.phases[i := Waiting(b, s.nextLock)], locks := s.locks[b := s.nextLock],
              nextLock := s.nextLock + 1)
    case Acquire(i) =>
      var b, l := s.phases[i].bucket, s.phases[i].lock;
      if b in s.cache.credentials then Hit(s, i, b)
      else s.(holders := s.holders[l := i], phases := s.phases[i := Fetching(b, l)])
    case FetchOk(i) =>
      var b, l := s.phases[i].bucket, s.phases[i].lock;
      var c := Credential(b, |s.fetched|);
      Insert(s, b, c).(holders := s.holders - {l}, phases := s.phases[i := Idle],
                       fetched := s.fetched + [b], given := s.given + [Given(i, b, c)])
    case FetchFails(i) =>
      s.(holders := s.holders - {s.phases[i].lock}, phases := s.phases[i := Idle])
    case CancelWaiting(i) =>
      s.(phases := s.phases[i := Idle])
  }

  // ---- What holds in every run, evictions included ----

  ghost predicate Distinct(s: seq<Bucket>) {
    forall i, j | 0 <= i < j < |s| :: s[i] != s[j]
  }

  ghost predicate CacheInv(cache: Cache) {
    && Distinct(cache.order)
    && (forall b :: b in cache.order <==> b in cache.credentials)
    && (forall b <- cache.credentials :: cache.credentials[b].bucket == b)
  }

  ghost predicate Inv(s: State) {
    && CacheInv(s.cache) && |s.cache.order| <= LIMIT
    // whoever asked for a bucket got a credential for that bucket
    && (forall g <- s.given :: g.credential.bucket == g.asked)
  }

  lemma {:induction false} RemoveFacts(s: seq<Bucket>, b: Bucket)
    ensures b !in Remove(s, b) && |Remove(s, b)| <= |s|
    ensures forall x :: x in Remove(s, b) <==> x in s && x != b
    ensures Distinct(s) ==> Distinct(Remove(s, b))
    ensures Distinct(s) && b in s ==> |Remove(s, b)| == |s| - 1
    ensures b !in s ==> Remove(s, b) == s
  {
    if s == [] {
    } else {
      RemoveFacts(s[1..], b);
      assert s == [s[0]] + s[1..];
      if Distinct(s) {
        assert s[0] !in s[1..];
        assert Distinct(s[1..]);
      }
    }
  }

  lemma ToEndFacts(s: seq<Bucket>, b: Bucket)
    requires Distinct(s)
    ensures Distinct(ToEnd(s, b)) && (forall x :: x in ToEnd(s, b) <==> x in s || x == b)
    ensures |ToEnd(s, b)| == if b in s then |s| else |s| + 1
  {
    RemoveFacts(s, b);
  }

  lemma PutKeepsInv(cache: Cache, b: Bucket, c: Credential)
    requires CacheInv(cache) && c.bucket == b
    ensures CacheInv(Put(cache, b, c))
  {
    if b !in cache.credentials {
      DistinctSnoc(cache.order, b);
    }
    hide Distinct;
  }

  lemma DropKeepsInv(cache: Cache)
    requires CacheInv(cache) && cache.order != []
    ensures CacheInv(DropOldest(cache))
  {
    DistinctTail(cache.order);
    hide Distinct;
  }

  lemma InsertKeepsInv(s: State, b: Bucket, c: Credential)
    requires Inv(s) && c.bucket == b
    ensures Inv(Insert(s, b, c))
  {
    hide CacheInv;
    PutKeepsInv(s.cache, b, c);
    var cache := Put(s.cache, b, c);
    if |cache.order| > LIMIT {
      DropKeepsInv(cache);
    }
  }

  lemma DistinctSnoc(s: seq<Bucket>, b: Bucket)
    requires Distinct(s) && b !in s
    ensures Distinct(s + [b]) && forall x :: x in s + [b] <==> x in s || x == b
  {
  }

  lemma DistinctTail(s: seq<Bucket>)
    requires Distinct(s) && s != []
    ensures Distinct(s[1..]) && forall x :: x in s[1..] <==> x in s && x != s[0]
  {
    assert s == [s[0]] + s[1..];
    assert s[0] !in s[1..];
  }

  lemma ApplyKeepsInv(s: State, e: Event)
    requires Inv(s) && Enabled(s, e)
    ensures Inv(Apply(s, e)) && |Apply(s, e).phases| == |s.phases|
  {
    match e {
      case Call(i, b) =>
        ToEndFacts(s.cache.order, b);
      case Acquire(i) =>
        ToEndFacts(s.cache.order, s.phases[i].bucket);
      case FetchOk(i) =>
        InsertKeepsInv(s, s.phases[i].bucket, Credential(s.phases[i].bucket, |s.fetched|));
      case _ =>
    }
  }

  /** The bucket that a task asks for, or asked for. */
  function Asked(s: State, e: Event): Bucket
    requires Enabled(s, e)
  {
    if e.Call? then e.bucket else s.phases[e.who].bucket
  }

  /** What a call returns, and when: the cached credential if there is one on arrival or with the
      lock, else the one that it fetched itself. */
  lemma AnswersExactly(s: State, e: Event)
    requires Inv(s) && Enabled(s, e)
    ensures var t, b := Apply(s, e), Asked(s, e);
            && (t.given != s.given <==> e.FetchOk? || ((e.Call? || e.Acquire?) && b in s.cache.credentials))
            && (t.given != s.given ==>
                  && b in t.cache.credentials && t.given == s.given + [Given(e.who, b, t.cache.credentials[b])]
                  && t.cache.credentials[b].bucket == b && t.phases[e.who].Idle?)
            && (!e.FetchOk? ==> t.cache.credentials == s.cache.credentials)
            && (t.phases[e.who].Fetching? <==> e.Acquire? && b !in s.cache.credentials)
            && (t.phases[e.who].Waiting? <==> e.Call? && b !in s.cache.credentials)
  {
    assert forall g: Given :: s.given + [g] != s.given;
    if e.FetchOk? {
      EvictsTheOldest(s, e.who);
    }
  }

  /** What an eviction takes away is the oldest bucket, never the one just inserted, and only
      when a hundred others are cached. */
  lemma EvictsTheOldest(s: State, i: nat)
    requires Inv(s) && Enabled(s, FetchOk(i))
    ensures var t := Apply(s, FetchOk(i));
            var b := s.phases[i].bucket;
            && b in t.cache.credentials && t.cache.credentials[b].bucket == b
            && (t.evictions > s.evictions ==>
                  && |s.cache.order| == LIMIT && s.cache.order[0] != b
                  && t.cache.order == s.cache.order[1..] + [b]
                  && t.cache.credentials.Keys == s.cache.credentials.Keys + {b} - {s.cache.order[0]})
            && (t.evictions == s.evictions ==> t.cache.credentials.Keys == s.cache.credentials.Keys + {b})
  {
    var b := s.phases[i].bucket;
    if b !in s.cache.credentials && |s.cache.order| == LIMIT {
      assert (s.cache.order + [b])[1..] == s.cache.order[1..] + [b];
      assert s.cache.order[0] in s.cache.order;
    }
  }

  ghost predicate Legal(s: State, run: seq<Event>)
    decreases |run|
  {
    run == [] || (Enabled(s, run[0]) && Legal(Apply(s, run[0]), run[1..]))
  }

  function After(s: State, run: seq<Event>): State
    requires Legal(s, run)
    decreases |run|
  {
    if run == [] then s else After(Apply(s, run[0]), run[1..])
  }

  // ---- Single flight, as long as nothing is evicted ----

  ghost predicate SingleFlight(s: State) {
    && Inv(s)
    && (forall b <- s.locks :: s.locks[b] < s.nextLock)
    && (forall b, b' | b in s.locks && b' in s.locks && b != b' :: s.locks[b] != s.locks[b'])
    && (forall l <- s.holders ::
          s.holders[l] < |s.phases| && s.phases[s.holders[l]].Fetching? && s.phases[s.holders[l]].lock == l)
    && (forall i | 0 <= i < |s.phases| :: TaskInv(s, i))
    && (forall b :: multiset(s.fetched)[b] == if b in s.cache.credentials then 1 else 0)
    && (forall g <- s.given :: g.asked in s.cache.credentials && s.cache.credentials[g.asked] == g.credential)
  }

  ghost predicate TaskInv(s: State, i: nat)
    requires i < |s.phases|
  {
    && (!s.phases[i].Idle? ==> s.phases[i].bucket in s.locks && s.locks[s.phases[i].bucket] == s.phases[i].lock)
    && (s.phases[i].Fetching? ==> s.phases[i].bucket !in s.cache.credentials
                                  && s.phases[i].lock in s.holders && s.holders[s.phases[i].lock] == i)
  }

  lemma HitKeepsSingleFlight(s: State, i: nat, b: Bucket)
    requires SingleFlight(s) && i < |s.phases| && b in s.cache.credentials && !s.phases[i].Fetching?
    ensures SingleFlight(Hit(s, i, b))
  {
    var t := Hit(s, i, b);
    ToEndFacts(s.cache.order, b);
    forall k | 0 <= k < |t.phases| ensures TaskInv(t, k) {
      assert TaskInv(s, k);
    }
  }

  lemma FetchKeepsSingleFlight(s: State, i: nat)
    requires SingleFlight(s) && Enabled(s, FetchOk(i)) && Apply(s, FetchOk(i)).evictions == s.evictions
    ensures SingleFlight(Apply(s, FetchOk(i)))
  {
    var t := Apply(s, FetchOk(i));
    var b, l := s.phases[i].bucket, s.phases[i].lock;
    ApplyKeepsInv(s, FetchOk(i));
    assert TaskInv(s, i);
    forall k | 0 <= k < |t.phases| ensures TaskInv(t, k) {
      assert TaskInv(s, k);
    }
    assert multiset(t.fetched) == multiset(s.fetched) + multiset{b};
  }

  lemma WaitKeepsSingleFlight(s: State, i: nat, b: Bucket)
    requires SingleFlight(s) && Enabled(s, Call(i, b)) && b !in s.cache.credentials
    ensures SingleFlight(Apply(s, Call(i, b)))
  {
    var t := Apply(s, Call(i, b));
    forall k | 0 <= k < |t.phases| ensures TaskInv(t, k) {
      assert TaskInv(s, k);
    }
  }

  lemma AcquireKeepsSingleFlight(s: State, i: nat)
    requires SingleFlight(s) && Enabled(s, Acquire(i)) && s.phases[i].bucket !in s.cache.credentials
    ensures SingleFlight(Apply(s, Acquire(i)))
  {
    var t := Apply(s, Acquire(i));
    assert TaskInv(s, i);
    forall k | 0 <= k < |t.phases| ensures TaskInv(t, k) {
      assert TaskInv(s, k);
    }
  }

  lemma StopKeepsSingleFlight(s: State, e: Event)
    requires SingleFlight(s) && Enabled(s, e) && (e.FetchFails? || e.CancelWaiting?)
    ensures SingleFlight(Apply(s, e))
  {
    var t := Apply(s, e);
    assert TaskInv(s, e.who);
    forall k | 0 <= k < |t.phases| ensures TaskInv(t, k) {
      assert TaskInv(s, k);
    }
  }

  lemma ApplyKeepsSingleFlight(s: State, e: Event)
    requires SingleFlight(s) && Enabled(s, e) && Apply(s, e).evictions == s.evictions
    ensures SingleFlight(Apply(s, e))
  {
    match e {
      case Call(i, b) =>
        if b in s.cache.credentials {
          HitKeepsSingleFlight(s, i, b);
        } else {
          WaitKeepsSingleFlight(s, i, b);
        }
      case Acquire(i) =>
        if s.phases[i].bucket in s.cache.credentials {
          HitKeepsSingleFlight(s, i, s.phases[i].bucket);
        } else {
          AcquireKeepsSingleFlight(s, i);
        }
      case FetchOk(i) => FetchKeepsSingleFlight(s, i);
      case _ => StopKeepsSingleFlight(s, e);
    }
  }

  /** The buckets that callers ask for in a run. */
  function Requested(run: seq<Event>): set<Bucket> {
    if run == [] then {} else (if run[0].Call? then {run[0].bucket} else {}) + Requested(run[1..])
  }

  /** Everything in use was asked for. */
  ghost predicate Within(s: State, asked: set<Bucket>) {
    && s.cache.credentials.Keys <= asked
    && forall i | 0 <= i < |s.phases| :: !s.phases[i].Idle? ==> s.phases[i].bucket in asked
  }

  lemma {:induction false} DistinctFits(s: seq<Bucket>, all: set<Bucket>)
    requires Distinct(s) && forall b <- s :: b in all
    ensures |s| <= |all|
  {
    if s == [] {
    } else {
      assert s == [s[0]] + s[1..];
      assert s[0] !in s[1..];
      DistinctFits(s[1..], all - {s[0]});
      assert |all - {s[0]}| == |all| - 1;
    }
  }

  lemma FewBucketsNoEviction(s: State, e: Event, asked: set<Bucket>)
    requires Inv(s) && Enabled(s, e) && Within(s, asked) && (e.Call? ==> e.bucket in asked) && |asked| <= LIMIT
    ensures Apply(s, e).evictions == s.evictions && Within(Apply(s, e), asked)
  {
    if e.FetchOk? {
      var b := s.phases[e.who].bucket;
      var order := if b in s.cache.credentials then s.cache.order else s.cache.order + [b];
      assert Distinct(order);
      assert forall x <- order :: x in asked;
      DistinctFits(order, asked);
    }
  }

  lemma {:induction false} FewBucketsRun(s: State, run: seq<Event>, asked: set<Bucket>)
    requires Inv(s) && Legal(s, run) && Within(s, asked) && Requested(run) <= asked && |asked| <= LIMIT
    ensures After(s, run).evictions == s.evictions
    decreases |run|
  {
    hide Inv, Apply, Enabled, Within;
    if run == [] {
    } else {
      FewBucketsNoEviction(s, run[0], asked);
      ApplyKeepsInv(s, run[0]);
      FewBucketsRun(Apply(s, run[0]), run[1..], asked);
    }
  }

  lemma {:induction false} EvictionsGrow(s: State, run: seq<Event>)
    requires Legal(s, run)
    ensures After(s, run).evictions >= s.evictions
    decreases |run|
  {
    if run == [] {
    } else {
      EvictionsGrow(Apply(s, run[0]), run[1..]);
    }
  }

  lemma EvictionsStep(s: State, e: Event)
    requires Enabled(s, e)
    ensures Apply(s, e).evictions >= s.evictions
  {
  }

  lemma {:induction false} RunKeepsSingleFlight(s: State, run: seq<Event>)
    requires SingleFlight(s) && Legal(s, run) && After(s, run).evictions == s.evictions
    ensures SingleFlight(After(s, run))
    decreases |run|
  {
    hide SingleFlight, Apply, Enabled;
    if run == [] {
    } else {
      EvictionsGrow(Apply(s, run[0]), run[1..]);
      EvictionsStep(s, run[0]);
      ApplyKeepsSingleFlight(s, run[0]);
      RunKeepsSingleFlight(Apply(s, run[0]), run[1..]);
    }
  }

  lemma StartSingleFlight(n: nat)
    ensures SingleFlight(Start(n))
  {
    var s := Start(n);
    forall k | 0 <= k < |s.phases| ensures TaskInv(s, k) {
    }
  }

  /** No two tasks are in `create_session` for the same bucket. */
  ghost predicate OneInFlight(s: State) {
    forall i, j | 0 <= i < j < |s.phases| && s.phases[i].Fetching? && s.phases[j].Fetching? ::
      s.phases[i].bucket != s.phases[j].bucket
  }

  /** No bucket was fetched twice. */
  ghost predicate OneFetch(s: State) {
    forall b: Bucket :: multiset(s.fetched)[b] <= 1
  }

  /** All callers that succeeded for a bucket got the same credential. */
  ghost predicate OneCredential(s: State) {
    forall i, j | 0 <= i < |s.given| && 0 <= j < |s.given| && s.given[i].asked == s.given[j].asked ::
      s.given[i].credential == s.given[j].credential
  }

  lemma SingleFlightMeans(s: State)
    requires SingleFlight(s)
    ensures OneInFlight(s) && OneFetch(s) && OneCredential(s)
  {
    forall i, j | 0 <= i < j < |s.phases| && s.phases[i].Fetching? && s.phases[j].Fetching?
      ensures s.phases[i].bucket != s.phases[j].bucket
    {
      assert TaskInv(s, i) && TaskInv(s, j);
    }
    forall i | 0 <= i < |s.given|
      ensures var g := s.given[i]; g.asked in s.cache.credentials && s.cache.credentials[g.asked] == g.credential
    {
      assert s.given[i] in s.given;
    }
  }

  /** As long as nothing is evicted, every interleaving has at most one `create_session` per
      bucket, in flight or completed with success, and all callers that succeed for a bucket get
      the credential of that one. */
  lemma OneSessionPerBucket(n: nat, run: seq<Event>)
    requires Legal(Start(n), run) && After(Start(n), run).evictions == 0
    ensures var t := After(Start(n), run);
            OneInFlight(t) && OneFetch(t) && OneCredential(t)
  {
    StartSingleFlight(n);
    RunKeepsSingleFlight(Start(n), run);
    SingleFlightMeans(After(Start(n), run));
  }

  /** Nothing is evicted when at most a hundred distinct buckets are ever asked for. */
  lemma AHundredBuckets(n: nat, run: seq<Event>)
    requires Legal(Start(n), run) && |Requested(run)| <= LIMIT
    ensures After(Start(n), run).evictions == 0
  {
    FewBucketsRun(Start(n), run, Requested(run));
  }

  /** In all runs: at most a hundred entries, each a credential built for its bucket. */
  lemma {:induction false} CacheIsBounded(s: State, run: seq<Event>)
    requires Inv(s) && Legal(s, run)
    ensures Inv(After(s, run))
    decreases |run|
  {
    if run == [] {
    } else {
      ApplyKeepsInv(s, run[0]);
      CacheIsBounded(Apply(s, run[0]), run[1..]);
    }
  }

  // ---- One caller at a time: an abstract LRU ----

  /** The distinct elements of a history, ordered by their last occurrence. */
  function ByLastUse(history: seq<Bucket>): seq<Bucket> {
    if history == [] then [] else ToEnd(ByLastUse(history[..|history| - 1]), history[|history| - 1])
  }

  function LastOf(s: seq<Bucket>, n: nat): seq<Bucket> {
    if |s| <= n then s else s[|s| - n..]
  }

  datatype Request = Request(bucket: Bucket, fetchSucceeds: bool)

  ghost predicate Quiet(s: State) {
    Inv(s) && s.holders == map[] && |s.phases| > 0 && s.phases[0].Idle?
  }

  /** A request that runs to its end before anything else happens. */
  ghost function Serve(s: State, r: Request): (t: State)
    requires Quiet(s)
    ensures Quiet(t)
  {
    var s1 := Apply(s, Call(0, r.bucket));
    ApplyKeepsInv(s, Call(0, r.bucket));
    if r.bucket in s.cache.credentials then s1
    else
      ApplyKeepsInv(s1, Acquire(0));
      var s2 := Apply(s1, Acquire(0));
      var last := if r.fetchSucceeds then FetchOk(0) else FetchFails(0);
      ApplyKeepsInv(s2, last);
      assert Apply(s2, last).holders == map[];
      Apply(s2, last)
  }

  ghost predicate Succeeds(s: State, r: Request) {
    r.bucket in s.cache.credentials || r.fetchSucceeds
  }

  /** The buckets of the requests that succeed, in order. */
  ghost function Successes(s: State, requests: seq<Request>): seq<Bucket>
    requires Quiet(s)
    decreases |requests|
  {
    if requests == [] then []
    else
      var r := requests[0];
      (if Succeeds(s, r) then [r.bucket] else []) + Successes(Serve(s, r), requests[1..])
  }

  ghost function ServeAll(s: State, requests: seq<Request>): (t: State)
    requires Quiet(s)
    decreases |requests|
  {
    if requests == [] then s else ServeAll(Serve(s, requests[0]), requests[1..])
  }

  lemma {:induction false} RemoveConcat(a: seq<Bucket>, c: seq<Bucket>, b: Bucket)
    ensures Remove(a + c, b) == Remove(a, b) + Remove(c, b)
  {
    if a == [] {
      assert a + c == c;
    } else {
      assert (a + c)[0] == a[0] && (a + c)[1..] == a[1..] + c;
      RemoveConcat(a[1..], c, b);
    }
  }

  lemma LruHit(evicted: seq<Bucket>, cached: seq<Bucket>, b: Bucket)
    requires Distinct(evicted + cached) && b in cached
    ensures ToEnd(evicted + cached, b) == evicted + ToEnd(cached, b)
  {
    assert b !in evicted by {
      var k :| 0 <= k < |cached| && cached[k] == b;
      assert (evicted + cached)[|evicted| + k] == b;
      forall j | 0 <= j < |evicted| ensures evicted[j] != b {
        assert (evicted + cached)[j] == evicted[j];
      }
    }
    RemoveConcat(evicted, cached, b);
    RemoveFacts(evicted, b);
    Associative(evicted, Remove(cached, b), [b]);
  }

  lemma DistinctSuffix(a: seq<Bucket>, c: seq<Bucket>)
    requires Distinct(a + c)
    ensures Distinct(c)
  {
    forall i, j | 0 <= i < j < |c| ensures c[i] != c[j] {
      assert (a + c)[|a| + i] == c[i] && (a + c)[|a| + j] == c[j];
    }
  }

  lemma LruMiss(evicted: seq<Bucket>, cached: seq<Bucket>, b: Bucket)
    requires b !in cached
    ensures ToEnd(evicted + cached, b) == Remove(evicted, b) + (cached + [b])
    ensures |Remove(evicted, b)| <= |evicted|
  {
    RemoveConcat(evicted, cached, b);
    RemoveFacts(cached, b);
    RemoveFacts(evicted, b);
    Associative(Remove(evicted, b), cached, [b]);
  }

  /** One use in the cache is one use in the abstract order, cut to its last hundred. */
  lemma LruStep(all: seq<Bucket>, b: Bucket)
    requires Distinct(all)
    ensures LastOf(ToEnd(all, b), LIMIT) == Used(LastOf(all, LIMIT), b)
  {
    hide Remove, Distinct, ToEnd, LastOf;
    var cached := LastOf(all, LIMIT);
    LastOfSplits(all);
    var evicted := all[..|all| - |cached|];
    if b in cached {
      LruHit(evicted, cached, b);
      DistinctSuffix(evicted, cached);
      ToEndFacts(cached, b);
      LastOfSplits(ToEnd(cached, b));
      LruTail(evicted, ToEnd(cached, b));
    } else {
      LruMiss(evicted, cached, b);
      LruTail(Remove(evicted, b), cached + [b]);
      LastOfSnoc(cached, b);
    }
  }

  /** What a use does to a cache of a hundred. */
  function Used(cached: seq<Bucket>, b: Bucket): seq<Bucket> {
    if b in cached then ToEnd(cached, b)
    else if |cached| == LIMIT then cached[1..] + [b]
    else cached + [b]
  }

  lemma LastOfSplits(all: seq<Bucket>)
    ensures var cached := LastOf(all, LIMIT);
            && |cached| <= |all| && all == all[..|all| - |cached|] + cached
            && (if |all| <= LIMIT then cached == all && all[..|all| - |cached|] == [] else |cached| == LIMIT)
  {
  }

  lemma LastOfSnoc(cached: seq<Bucket>, b: Bucket)
    requires |cached| <= LIMIT
    ensures LastOf(cached + [b], LIMIT) == if |cached| == LIMIT then cached[1..] + [b] else cached + [b]
  {
  }

  lemma LruTail(evicted: seq<Bucket>, kept: seq<Bucket>)
    requires |kept| >= LIMIT || evicted == []
    ensures LastOf(evicted + kept, LIMIT) == LastOf(kept, LIMIT)
  {
    assert evicted == [] ==> evicted + kept == kept;
  }

  ghost predicate RefinesLru(s: State, history: seq<Bucket>) {
    Quiet(s) && Distinct(ByLastUse(history)) && s.cache.order == LastOf(ByLastUse(history), LIMIT)
  }

  lemma ServeFacts(s: State, r: Request)
    requires Quiet(s)
    ensures Serve(s, r).cache.order == if Succeeds(s, r) then Used(s.cache.order, r.bucket) else s.cache.order
  {
    hide Remove;
    if r.bucket !in s.cache.credentials && |s.cache.order| == LIMIT {
      assert (s.cache.order + [r.bucket])[1..] == s.cache.order[1..] + [r.bucket];
    }
  }

  lemma ServeRefines(s: State, r: Request, history: seq<Bucket>)
    requires RefinesLru(s, history)
    ensures RefinesLru(Serve(s, r), if Succeeds(s, r) then history + [r.bucket] else history)
  {
    ServeFacts(s, r);
    hide Serve, Used, LastOf, Distinct, ToEnd;
    if Succeeds(s, r) {
      var history' := history + [r.bucket];
      assert history'[..|history|] == history;
      LruStep(ByLastUse(history), r.bucket);
      ToEndFacts(ByLastUse(history), r.bucket);
    }
  }

  lemma {:induction false} ServeAllRefines(s: State, requests: seq<Request>, history: seq<Bucket>)
    requires RefinesLru(s, history)
    ensures RefinesLru(ServeAll(s, requests), history + Successes(s, requests))
    decreases |requests|
  {
    if requests == [] {
      assert history + [] == history;
    } else {
      var r := requests[0];
      ServeRefines(s, r, history);
      var first := if Succeeds(s, r) then [r.bucket] else [];
      assert history + first == if Succeeds(s, r) then history + [r.bucket] else history;
      ServeAllRefines(Serve(s, r), requests[1..], history + first);
      Associative(history, first, Successes(Serve(s, r), requests[1..]));
    }
  }

  /** Run one request at a time, the ordered map always holds the hundred buckets most recently
      used with success, in the order of their last successful use. */
  lemma CacheIsLru(requests: seq<Request>)
    ensures var s := Start(1);
            Quiet(s) && ServeAll(s, requests).cache.order == LastOf(ByLastUse(Successes(s, requests)), LIMIT)
  {
    var s := Start(1);
    assert RefinesLru(s, []);
    ServeAllRefines(s, requests, []);
    assert [] + Successes(s, requests) == Successes(s, requests);
  }

  // ---- The cache object ----

  class AioS3ExpressIdentityCache {
    var order: seq<Bucket>
    var credentials: map<Bucket, Credential>
    var refreshLocks: map<Bucket, nat>
    var lockHolders: map<nat, nat>
    var nextLock: nat
    ghost var phases: seq<Phase>
    ghost var fetched: seq<Bucket>
    ghost var given: seq<Given>
    ghost var evictions: nat

    ghost function View(): State
      reads this
    {
      State(Cache(order, credentials), refreshLocks, lockHolders, nextLock, phases, fetched, given, evictions)
    }

    constructor (n: nat)
      ensures View() == Start(n)
    {
      order := [];
      credentials := map[];
      refreshLocks := map[];
      lockHolders := map[];
      nextLock := 0;
      phases := seq(n, _ => Idle);
      fetched := [];
      given := [];
      evictions := 0;
    }

    method ReturnCached(i: nat, bucket: Bucket) returns (r: Credential)
      requires i < |phases| && bucket in credentials
      modifies this
      ensures View() == Hit(old(View()), i, bucket) && r == credentials[bucket]
    {
      order := Remove(order, bucket) + [bucket];
      r := credentials[bucket];
      phases := phases[i := Idle];
      given := given + [Given(i, bucket, r)];
    }

    /** `get_credentials` up to waiting for the lock. */
    method Call(i: nat, bucket: Bucket) returns (r: Option<Credential>)
      requires Enabled(View(), Event.Call(i, bucket))
      modifies this
      ensures View() == Apply(old(View()), Event.Call(i, bucket))
      ensures r == if bucket in old(credentials) then Some(old(credentials)[bucket]) else None
    {
      if bucket in credentials {
        var c := ReturnCached(i, bucket);
        return Some(c);
      }
      if bucket !in refreshLocks {
        refreshLocks := refreshLocks[bucket := nextLock];
        nextLock := nextLock + 1;
      }
      phases := phases[i := Waiting(bucket, refreshLocks[bucket])];
      return None;
    }

    /** From getting the lock to `create_session`, or to the credential somebody else fetched. */
    method Acquire(i: nat, bucket: Bucket, lock: nat) returns (r: Option<Credential>)
      requires Enabled(View(), Event.Acquire(i)) && phases[i] == Waiting(bucket, lock)
      modifies this
      ensures View() == Apply(old(View()), Event.Acquire(i))
      ensures r == if bucket in old(credentials) then Some(old(credentials)[bucket]) else None
    {
      if bucket !in credentials {
        lockHolders := lockHolders[lock := i];
        phases := phases[i := Fetching(bucket, lock)];
        return None;
      }
      var c := ReturnCached(i, bucket);
      return Some(c);
    }

    /** `self._credentials[bucket] = credentials` and the eviction that may follow. */
    method Store(bucket: Bucket, c: Credential)
      modifies this`order, this`credentials, this`refreshLocks, this`evictions
      ensures View() == Insert(old(View()), bucket, c)
    {
      if bucket !in credentials {
        order := order + [bucket];
      }
      credentials := credentials[bucket := c];
      if |order| > LIMIT {
        var oldest := order[0];
        order := order[1..];
        credentials := credentials - {oldest};
        refreshLocks := refreshLocks - {oldest};
        evictions := evictions + 1;
      }
    }

    /** `create_session` came back. */
    method FetchOk(i: nat, bucket: Bucket, lock: nat, credential: Credential)
      returns (r: Credential)
      requires Enabled(View(), Event.FetchOk(i)) && phases[i] == Fetching(bucket, lock)
      requires credential == Credential(bucket, |fetched|)
      modifies this
      ensures r == credential && r.bucket == bucket
      ensures View() == Apply(old(View()), Event.FetchOk(i))
    {
      hide Insert;
      Store(bucket, credential);
      lockHolders := lockHolders - {lock};
      phases := phases[i := Idle];
      fetched := fetched + [bucket];
      given := given + [Given(i, bucket, credential)];
      return credential;
    }

    /** `create_session` raised: the lock object stays in the map. */
    method FetchFails(i: nat, lock: nat)
      requires Enabled(View(), Event.FetchFails(i)) && phases[i].lock == lock
      modifies this
      ensures View() == Apply(old(View()), Event.FetchFails(i))
    {
      lockHolders := lockHolders - {lock};
      phases := phases[i := Idle];
    }
  }
}

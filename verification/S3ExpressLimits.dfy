/** Exactly how many buckets the S3 Express identity cache can be asked for before single flight
    and the bound on its lock map are gone: a hundred. */
module S3ExpressLimits {
  import opened Prelude
  import opened S3ExpressCache

  lemma {:induction false} SubsetSize(a: set<Bucket>, b: set<Bucket>)
    requires a <= b
    ensures |a| <= |b|
  {
    if a == {} {
    } else {
      var x :| x in a;
      SubsetSize(a - {x}, b - {x});
    }
  }

  lemma {:induction false} RequestedAppend(a: seq<Event>, b: seq<Event>)
    ensures Requested(a + b) == Requested(a) + Requested(b)
  {
    if a == [] {
      assert a + b == b;
    } else {
      assert (a + b)[0] == a[0] && (a + b)[1..] == a[1..] + b;
      RequestedAppend(a[1..], b);
    }
  }

  lemma RequestedThree(a: Event, b: Event, c: Event)
    ensures Requested([a, b, c]) == (if a.Call? then {a.bucket} else {}) + (if b.Call? then {b.bucket} else {})
                                  + (if c.Call? then {c.bucket} else {})
  {
    assert [a, b, c][1..] == [b, c] && [b, c][1..] == [c] && [c][1..] == [];
    assert Requested([c]) == if c.Call? then {c.bucket} else {};
  }

  lemma LegalThree(s: State, a: Event, b: Event, c: Event)
    requires Enabled(s, a) && Enabled(Apply(s, a), b) && Enabled(Apply(Apply(s, a), b), c)
    ensures Legal(s, [a, b, c]) && After(s, [a, b, c]) == Apply(Apply(Apply(s, a), b), c)
  {
    hide Apply, Enabled;
    var s1 := Apply(s, a);
    var s2 := Apply(s1, b);
    assert [c][1..] == [] && Legal(Apply(s2, c), []);
    assert Legal(s2, [c]) && After(s2, [c]) == Apply(s2, c);
    assert [b, c][1..] == [c];
    assert Legal(s1, [b, c]) && After(s1, [b, c]) == Apply(s2, c);
    assert [a, b, c][1..] == [b, c];
  }

  lemma {:induction false} LegalAppend(s: State, a: seq<Event>, b: seq<Event>)
    requires Legal(s, a) && Legal(After(s, a), b)
    ensures Legal(s, a + b) && After(s, a + b) == After(After(s, a), b)
    decreases |a|
  {
    hide Apply, Enabled;
    if a == [] {
      assert a + b == b;
    } else {
      assert (a + b)[0] == a[0] && (a + b)[1..] == a[1..] + b;
      LegalAppend(Apply(s, a[0]), a[1..], b);
    }
  }

  // ---- After an eviction, two flights for one bucket ----

  /** Buckets 0 to `k` were fetched in this order, task 1 is still queued behind the first fetch,
      and nobody holds a lock. */
  ghost predicate Filled(s: State, k: nat) {
    && s.phases == [Idle, Waiting(0, 0), Idle]
    && s.holders == map[] && s.evictions == 0 && s.nextLock > 0
    && s.cache.order == seq(k + 1, i => i)
    && (forall b: Bucket :: b in s.cache.credentials <==> b <= k)
    && (forall b <- s.locks :: b <= k)
    && |s.fetched| == k + 1 && s.fetched[0] == 0
    && s.given != [] && s.given[0] == Given(0, 0, Credential(0, 0))
  }

  /** Tasks 0 and 1 ask for bucket 0; task 0 fetches it, task 1 stays queued. */
  lemma FirstVisit() returns (run: seq<Event>)
    ensures Legal(Start(3), run) && Filled(After(Start(3), run), 0) && Requested(run) == {0}
  {
    var s0 := Start(3);
    var s1 := Apply(s0, Call(0, 0));
    var s2 := Apply(s1, Call(1, 0));
    var s3 := Apply(s2, Acquire(0));
    var s4 := Apply(s3, FetchOk(0));
    assert s3.phases == [Fetching(0, 0), Waiting(0, 0), Idle];
    assert s4.cache.order == [0] == seq(1, i => i);
    assert s4.cache.credentials == map[0 := Credential(0, 0)];
    assert s4.holders == map[];
    LegalThree(s1, Call(1, 0), Acquire(0), FetchOk(0));
    RequestedThree(Call(1, 0), Acquire(0), FetchOk(0));
    assert Filled(s4, 0);
    hide Apply, Enabled, Filled;
    run := [Call(0, 0)] + [Call(1, 0), Acquire(0), FetchOk(0)];
    assert run[1..] == [Call(1, 0), Acquire(0), FetchOk(0)];
  }

  /** Task 2 asks for one more bucket and fetches it. */
  lemma FillStep(s: State, k: nat)
    requires Filled(s, k) && k + 1 < LIMIT
    ensures Legal(s, [Call(2, k + 1), Acquire(2), FetchOk(2)])
    ensures Filled(After(s, [Call(2, k + 1), Acquire(2), FetchOk(2)]), k + 1)
  {
    var s1 := Apply(s, Call(2, k + 1));
    var s2 := Apply(s1, Acquire(2));
    var s3 := Apply(s2, FetchOk(2));
    assert s2.phases == [Idle, Waiting(0, 0), Fetching(k + 1, s1.phases[2].lock)];
    assert s3.cache.order == seq(k + 1, i => i) + [k + 1] == seq(k + 2, i => i);
    assert s3.holders == map[];
    LegalThree(s, Call(2, k + 1), Acquire(2), FetchOk(2));
  }

  lemma {:induction false} FillUp(s: State, k: nat) returns (run: seq<Event>)
    requires Filled(s, k) && k < LIMIT
    ensures Legal(s, run) && Filled(After(s, run), LIMIT - 1)
    ensures forall b: Bucket :: b in Requested(run) <==> k < b < LIMIT
    decreases LIMIT - k
  {
    if k + 1 == LIMIT {
      run := [];
    } else {
      FillStep(s, k);
      hide Apply, Enabled, Filled;
      var visit := [Call(2, k + 1), Acquire(2), FetchOk(2)];
      var rest := FillUp(After(s, visit), k + 1);
      LegalAppend(s, visit, rest);
      RequestedThree(Call(2, k + 1), Acquire(2), FetchOk(2));
      RequestedAppend(visit, rest);
      run := visit + rest;
    }
  }

  /** Tasks 0 and 1 are in `create_session` for bucket 0, which was fetched once before. */
  ghost predicate Clashing(t: State) {
    && |t.phases| == 3 && t.phases[0].Fetching? && t.phases[1].Fetching?
    && t.phases[0].bucket == t.phases[1].bucket == 0
    && t.fetched != [] && t.fetched[0] == 0 && t.given != [] && t.given[0] == Given(0, 0, Credential(0, 0))
  }

  /** Bucket 0 was evicted with its lock, on which task 1 is still queued. */
  ghost predicate Evicted(s: State) {
    && s.phases == [Idle, Waiting(0, 0), Idle] && s.holders == map[] && s.nextLock > 0
    && 0 !in s.cache.credentials && 0 !in s.locks
    && s.fetched != [] && s.fetched[0] == 0 && s.given != [] && s.given[0] == Given(0, 0, Credential(0, 0))
  }

  lemma EvictStep(s: State)
    requires Filled(s, LIMIT - 1)
    ensures Legal(s, [Call(2, LIMIT), Acquire(2), FetchOk(2)])
    ensures Evicted(After(s, [Call(2, LIMIT), Acquire(2), FetchOk(2)]))
  {
    var s1 := Apply(s, Call(2, LIMIT));
    var s2 := Apply(s1, Acquire(2));
    var s3 := Apply(s2, FetchOk(2));
    LegalThree(s, Call(2, LIMIT), Acquire(2), FetchOk(2));
    assert s3.phases == [Idle, Waiting(0, 0), Idle] && s3.holders == map[];
  }

  lemma ClashStep(s: State)
    requires Evicted(s)
    ensures Legal(s, [Call(0, 0), Acquire(1), Acquire(0)])
    ensures Clashing(After(s, [Call(0, 0), Acquire(1), Acquire(0)]))
  {
    var s1 := Apply(s, Call(0, 0));
    var s2 := Apply(s1, Acquire(1));
    assert s1.phases == [Waiting(0, s.nextLock), Waiting(0, 0), Idle];
    LegalThree(s, Call(0, 0), Acquire(1), Acquire(0));
  }

  /** Bucket 100 evicts bucket 0 with its lock; task 0 asks for bucket 0 and gets a new lock. */
  lemma TwoFlights(s: State) returns (run: seq<Event>)
    requires Filled(s, LIMIT - 1)
    ensures Legal(s, run) && Requested(run) == {0, LIMIT}
    ensures Clashing(After(s, run))
  {
    hide Apply, Enabled, Filled, Evicted, Clashing;
    var evict, again := [Call(2, LIMIT), Acquire(2), FetchOk(2)], [Call(0, 0), Acquire(1), Acquire(0)];
    EvictStep(s);
    ClashStep(After(s, evict));
    LegalAppend(s, evict, again);
    RequestedThree(Call(2, LIMIT), Acquire(2), FetchOk(2));
    RequestedThree(Call(0, 0), Acquire(1), Acquire(0));
    RequestedAppend(evict, again);
    run := evict + again;
  }

  /** One bucket more than fit: bucket 0 is evicted with a task still queued on its lock, a new
      caller gets a new lock, and both are in `create_session` for bucket 0 at once. When the
      queued one comes back, bucket 0 was fetched twice, with two credentials handed out. */
  lemma EvictionAllowsTwoFlights() returns (run: seq<Event>, more: seq<Event>)
    ensures Legal(Start(3), run) && Legal(Start(3), more)
    ensures |Requested(run)| == |Requested(more)| == LIMIT + 1
    ensures !OneInFlight(After(Start(3), run))
    ensures !OneFetch(After(Start(3), more)) && !OneCredential(After(Start(3), more))
  {
    hide Apply, Enabled, Legal, After, OneInFlight, OneFetch, OneCredential, Requested;
    run := EvictingRun();
    var t := After(Start(3), run);
    FetchAgain(t);
    more := run + [FetchOk(1)];
    LegalAppend(Start(3), run, [FetchOk(1)]);
    RequestedAppend(run, [FetchOk(1)]);
    assert Requested(more) == Requested(run);
    assert !OneInFlight(t) by {
      TwoInFlight(t);
    }
  }

  lemma EvictingRun() returns (run: seq<Event>)
    ensures Legal(Start(3), run) && |Requested(run)| == LIMIT + 1 && Clashing(After(Start(3), run))
  {
    hide Apply, Enabled, Legal, After, Filled, Requested, Clashing, Start, Upto;
    var first := FirstVisit();
    var rest := FillUp(After(Start(3), first), 0);
    LegalAppend(Start(3), first, rest);
    var last := TwoFlights(After(Start(3), first + rest));
    LegalAppend(Start(3), first + rest, last);
    run := first + rest + last;
    RequestedAppend(first, rest);
    RequestedAppend(first + rest, last);
    assert Requested(run) == Upto(LIMIT + 1);
  }

  lemma TwoInFlight(t: State)
    requires Clashing(t)
    ensures !OneInFlight(t)
  {
  }

  lemma FetchAgain(t: State)
    requires Clashing(t)
    ensures Legal(t, [FetchOk(1)]) && Requested([FetchOk(1)]) == {}
    ensures !OneFetch(After(t, [FetchOk(1)])) && !OneCredential(After(t, [FetchOk(1)]))
  {
    var u := Apply(t, FetchOk(1));
    assert [FetchOk(1)][1..] == [] && After(t, [FetchOk(1)]) == u;
    hide Insert;
    assert u.fetched == [0] + t.fetched[1..] + [0] by {
      assert t.fetched == [0] + t.fetched[1..];
    }
    assert multiset(u.fetched)[0] >= 2;
    assert u.given == t.given + [Given(1, 0, Credential(0, |t.fetched|))];
    assert u.given[0].credential != u.given[|t.given|].credential && u.given[0].asked == u.given[|t.given|].asked;
  }

  /** Single flight holds in every run exactly when at most a hundred distinct buckets are asked
      for: in flight, in completed fetches, and in the credentials handed out. */
  lemma OneFlightExactly(k: nat)
    ensures (forall n: nat, run | Legal(Start(n), run) && |Requested(run)| <= k ::
               OneInFlight(After(Start(n), run))) <==> k <= 100
    ensures (forall n: nat, run | Legal(Start(n), run) && |Requested(run)| <= k ::
               OneFetch(After(Start(n), run))) <==> k <= 100
    ensures (forall n: nat, run | Legal(Start(n), run) && |Requested(run)| <= k ::
               OneCredential(After(Start(n), run))) <==> k <= 100
  {
    hide Legal, After, Requested, OneInFlight, OneFetch, OneCredential, Start;
    if k <= LIMIT {
      forall n: nat, run | Legal(Start(n), run) && |Requested(run)| <= k
        ensures var t := After(Start(n), run); OneInFlight(t) && OneFetch(t) && OneCredential(t)
      {
        AHundredBuckets(n, run);
        OneSessionPerBucket(n, run);
      }
    } else {
      var run, more := EvictionAllowsTwoFlights();
    }
  }

  // ---- The lock map ----

  lemma {:induction false} LocksWereRequested(s: State, run: seq<Event>)
    requires Legal(s, run)
    ensures After(s, run).locks.Keys <= s.locks.Keys + Requested(run)
    decreases |run|
  {
    if run == [] {
    } else {
      LocksWereRequested(Apply(s, run[0]), run[1..]);
    }
  }

  /** A lone task has failed for the first `m` buckets. */
  ghost predicate Leaked(s: State, m: nat) {
    && s.phases == [Idle] && s.holders == map[] && s.cache == Cache([], map[])
    && forall b: Bucket :: b in s.locks <==> b < m
  }

  lemma LeakStep(s: State, b: Bucket)
    requires Leaked(s, b)
    ensures Legal(s, [Call(0, b), Acquire(0), FetchFails(0)])
    ensures Leaked(After(s, [Call(0, b), Acquire(0), FetchFails(0)]), b + 1)
  {
    var s1 := Apply(s, Call(0, b));
    var s2 := Apply(s1, Acquire(0));
    var s3 := Apply(s2, FetchFails(0));
    LegalThree(s, Call(0, b), Acquire(0), FetchFails(0));
    assert s1.phases == [Waiting(b, s.nextLock)] && s2.phases == [Fetching(b, s.nextLock)];
    assert s3.holders == map[];
    assert s3.locks == s.locks[b := s.nextLock];
  }

  /** A lone task whose fetches all fail leaves one lock behind for every bucket. */
  lemma {:induction false} Leak(m: nat) returns (run: seq<Event>)
    ensures Legal(Start(1), run) && Leaked(After(Start(1), run), m)
    ensures forall b: Bucket :: b in Requested(run) <==> b < m
  {
    if m == 0 {
      run := [];
      assert Start(1).phases == [Idle];
    } else {
      var before := Leak(m - 1);
      LeakStep(After(Start(1), before), m - 1);
      hide Apply, Enabled, Leaked;
      var visit := [Call(0, m - 1), Acquire(0), FetchFails(0)];
      LegalAppend(Start(1), before, visit);
      RequestedThree(Call(0, m - 1), Acquire(0), FetchFails(0));
      RequestedAppend(before, visit);
      run := before + visit;
    }
  }

  /** The lock map never outgrows the buckets asked for, and stays within a hundred entries in
      every run exactly when no more than a hundred are. */
  lemma LocksBoundedExactly(k: nat)
    ensures forall n: nat, run | Legal(Start(n), run) :: |After(Start(n), run).locks| <= |Requested(run)|
    ensures (forall n: nat, run | Legal(Start(n), run) && |Requested(run)| <= k ::
               |After(Start(n), run).locks| <= 100) <==> k <= 100
  {
    hide Legal, After, Requested, Upto;
    forall n: nat, run | Legal(Start(n), run)
      ensures |After(Start(n), run).locks| <= |Requested(run)|
    {
      LocksWereRequested(Start(n), run);
      SubsetSize(After(Start(n), run).locks.Keys, Requested(run));
    }
    if k > LIMIT {
      var run := Leak(LIMIT + 1);
      assert After(Start(1), run).locks.Keys == Requested(run) == Upto(LIMIT + 1);
    }
  }
}

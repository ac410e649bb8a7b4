/** The token bucket of the adaptive retry mode: real-valued capacity refilled at a
    piecewise-constant rate, shared by interleaved acquirers. */
module TokenBucket {
  import opened Prelude

  datatype Bucket = Bucket(fillRate: real, maxCapacity: real, capacity: real, last: real, minRate: real)

  /** The bucket and the amounts its blocked acquirers wait for. */
  datatype World = World(bucket: Bucket, waiters: map<nat, real>)

  /** What happens at a clock reading: an acquire starts, a waiter checks again, a waiter is
      cancelled, the rate is set. */
  datatype Event =
    | Start(task: nat, amount: real, block: bool, now: real)
    | Wake(task: nat, now: real)
    | Cancel(task: nat, now: real)
    | SetRate(value: real, now: real)

  /** What accrues in this time at this rate. */
  function Fill(duration: real, rate: real): real {
    duration * rate
  }

  function Refill(b: Bucket, now: real): Bucket {
    b.(capacity := MinR(b.maxCapacity, b.capacity + Fill(now - b.last, b.fillRate)), last := now)
  }

  function WithRate(b: Bucket, value: real): Bucket {
    var maxCapacity := if value >= 1.0 then value else 1.0;
    b.(fillRate := MaxR(value, b.minRate), maxCapacity := maxCapacity, capacity := MinR(b.capacity, maxCapacity))
  }

  ghost predicate Inv(b: Bucket) {
    && 0.0 < b.minRate <= b.fillRate
    && 1.0 <= b.maxCapacity
    && 0.0 <= b.capacity <= b.maxCapacity
  }

  ghost predicate WorldInv(w: World) {
    Inv(w.bucket) && forall t <- w.waiters :: w.waiters[t] >= 0.0
  }

  ghost predicate Enabled(w: World, e: Event) {
    && e.now >= w.bucket.last
    && (e.Start? ==> e.task !in w.waiters && e.amount >= 0.0)
    && (e.Wake? || e.Cancel? ==> e.task in w.waiters)
  }

  /** The amount a task asks for in this event. */
  function Asked(w: World, e: Event): real
    requires Enabled(w, e)
  {
    match e
    case Start(_, amount, _, _) => amount
    case Wake(t, _) => w.waiters[t]
    case _ => 0.0
  }

  predicate Grants(w: World, e: Event)
    requires Enabled(w, e)
  {
    (e.Start? || e.Wake?) && Asked(w, e) <= Refill(w.bucket, e.now).capacity
  }

  function Apply(w: World, e: Event): World
    requires Enabled(w, e)
  {
    var b := Refill(w.bucket, e.now);
    var a := Asked(w, e);
    if Grants(w, e) then World(b.(capacity := b.capacity - a), w.waiters - {e.task})
    else match e
      case Start(t, _, block, _) => World(b, if block then w.waiters[t := a] else w.waiters)
      case Wake(_, _) => World(b, w.waiters)
      case Cancel(t, _) => w.(waiters := w.waiters - {t})
      case SetRate(value, _) => World(WithRate(b, value), w.waiters)
  }

  /** What setting a rate does to it and to the maximal capacity. */
  lemma RateIsClamped(w: World, value: real, now: real)
    requires WorldInv(w) && Enabled(w, SetRate(value, now))
    ensures var b := Apply(w, SetRate(value, now)).bucket;
            && b.fillRate >= value && b.fillRate >= b.minRate && (b.fillRate == value || b.fillRate == b.minRate)
            && b.maxCapacity >= value && b.maxCapacity >= 1.0 && (b.maxCapacity == value || b.maxCapacity == 1.0)
            && b.capacity == MinR(Refill(w.bucket, now).capacity, b.maxCapacity) && b.last == now
  {
  }

  /** What an acquire leads to: tokens if the refilled bucket has them, else a place among the
      waiters, if it is willing to wait. A waiter keeps its place until it is served or cancelled. */
  lemma AcquireAnswers(w: World, e: Event)
    requires WorldInv(w) && Enabled(w, e)
    ensures var t := Apply(w, e);
            && (e.Start? ==> (Grants(w, e) <==> e.amount <= Refill(w.bucket, e.now).capacity))
            && (e.Start? && !Grants(w, e) ==> t.waiters == if e.block then w.waiters[e.task := e.amount] else w.waiters)
            && (e.Wake? ==> (Grants(w, e) <==> w.waiters[e.task] <= Refill(w.bucket, e.now).capacity))
            && (Grants(w, e) ==> t.bucket.capacity == Refill(w.bucket, e.now).capacity - Asked(w, e))
            && (e.Wake? || e.Cancel? ==> (e.task in t.waiters <==> e.Wake? && !Grants(w, e)))
            && (forall k | k in w.waiters && (e.SetRate? || k != e.task) ::
                  k in t.waiters && t.waiters[k] == w.waiters[k])
  {
  }

  // ---- Runs ----

  ghost predicate Legal(w: World, run: seq<Event>)
    decreases |run|
  {
    run == [] || (Enabled(w, run[0]) && Legal(Apply(w, run[0]), run[1..]))
  }

  function After(w: World, run: seq<Event>): World
    requires Legal(w, run)
    decreases |run|
  {
    if run == [] then w else After(Apply(w, run[0]), run[1..])
  }

  function Granted(w: World, run: seq<Event>): real
    requires Legal(w, run)
    decreases |run|
  {
    if run == [] then 0.0
    else (if Grants(w, run[0]) then Asked(w, run[0]) else 0.0) + Granted(Apply(w, run[0]), run[1..])
  }

  /** The sum, over the rates in force up to time `end`, of rate times duration. */
  function Accrued(w: World, run: seq<Event>, end: real): real
    requires Legal(w, run)
    decreases |run|
  {
    if run == [] then Fill(end - w.bucket.last, w.bucket.fillRate)
    else
      var next := Apply(w, run[0]);
      Fill(next.bucket.last - w.bucket.last, w.bucket.fillRate) + Accrued(next, run[1..], end)
  }

  /** Tokens that did not fit. */
  function Spilled(w: World, run: seq<Event>): real
    requires Legal(w, run)
    decreases |run|
  {
    if run == [] then 0.0
    else Overflow(w, run[0]) + Spilled(Apply(w, run[0]), run[1..])
  }

  function Overflow(w: World, e: Event): real {
    if e.Cancel? then 0.0
    else
      var full := w.bucket.capacity + Fill(e.now - w.bucket.last, w.bucket.fillRate);
      var b := Refill(w.bucket, e.now);
      (full - b.capacity) + (if e.SetRate? then b.capacity - WithRate(b, e.value).capacity else 0.0)
  }

  lemma FillIsZero(rate: real)
    ensures Fill(0.0, rate) == 0.0
  {
  }

  lemma FillNonNegative(duration: real, rate: real)
    requires duration >= 0.0 && rate >= 0.0
    ensures Fill(duration, rate) >= 0.0
  {
  }

  lemma FillAdds(d: real, d': real, rate: real)
    ensures Fill(d + d', rate) == Fill(d, rate) + Fill(d', rate)
  {
  }

  lemma FillGrows(duration: real, rate: real, rate': real)
    requires duration >= 0.0 && rate <= rate'
    ensures Fill(duration, rate) <= Fill(duration, rate')
  {
    FillNonNegative(duration, rate' - rate);
  }

  lemma RefillKeepsInv(b: Bucket, now: real)
    requires Inv(b) && now >= b.last
    ensures Inv(Refill(b, now)) && Refill(b, now).capacity >= b.capacity
  {
    hide Fill;
    FillNonNegative(now - b.last, b.fillRate);
  }

  lemma ApplyKeepsInv(w: World, e: Event)
    requires WorldInv(w) && Enabled(w, e)
    ensures WorldInv(Apply(w, e)) && Apply(w, e).bucket.minRate == w.bucket.minRate
    ensures w.bucket.last <= Apply(w, e).bucket.last <= e.now
  {
    RefillKeepsInv(w.bucket, e.now);
    hide Refill;
  }

  /** One event: what was there and what accrued is what was granted, what spilled, what is left. */
  lemma ApplyConserves(w: World, e: Event)
    requires WorldInv(w) && Enabled(w, e)
    ensures var next := Apply(w, e).bucket;
            var granted := if Grants(w, e) then Asked(w, e) else 0.0;
            w.bucket.capacity + Fill(next.last - w.bucket.last, w.bucket.fillRate)
            == granted + Overflow(w, e) + next.capacity
    ensures Overflow(w, e) >= 0.0
  {
    hide Fill;
    FillIsZero(w.bucket.fillRate);
    RefillKeepsInv(w.bucket, e.now);
  }

  /** In every run the capacity stays within its bounds, the rate never falls below the minimum,
      and every token is accounted for: what was there and what accrued is what was granted,
      what spilled, and what is left. */
  lemma {:induction false} Conservation(w: World, run: seq<Event>)
    requires WorldInv(w) && Legal(w, run)
    ensures var end := After(w, run);
            && WorldInv(end) && end.bucket.last >= w.bucket.last && end.bucket.minRate == w.bucket.minRate
            && w.bucket.capacity + Accrued(w, run, end.bucket.last)
            == Granted(w, run) + Spilled(w, run) + end.bucket.capacity
            && Spilled(w, run) >= 0.0
    decreases |run|
  {
    hide Fill, Apply, Enabled, Grants, Asked, Overflow;
    if run == [] {
      FillIsZero(w.bucket.fillRate);
    } else {
      ApplyKeepsInv(w, run[0]);
      ApplyConserves(w, run[0]);
      Conservation(Apply(w, run[0]), run[1..]);
    }
  }

  lemma {:induction false} AccruedUpTo(w: World, run: seq<Event>, end: real)
    requires WorldInv(w) && Legal(w, run) && end >= After(w, run).bucket.last
    ensures Accrued(w, run, end) >= Accrued(w, run, After(w, run).bucket.last)
    decreases |run|
  {
    hide Fill, Apply, Enabled;
    if run == [] {
      FillIsZero(w.bucket.fillRate);
      FillNonNegative(end - w.bucket.last, w.bucket.fillRate);
    } else {
      ApplyKeepsInv(w, run[0]);
      AccruedUpTo(Apply(w, run[0]), run[1..], end);
    }
  }

  // ---- Windows that start between two events ----

  /** The world as a reader at time `s` would find it. */
  function At(w: World, s: real): World {
    w.(bucket := Refill(w.bucket, s))
  }

  ghost predicate NotBefore(run: seq<Event>, s: real) {
    forall i | 0 <= i < |run| :: run[i].now >= s
  }

  /** Refilling in two steps is refilling once. */
  lemma RefillTwice(b: Bucket, s: real, now: real)
    requires Inv(b) && b.last <= s <= now
    ensures Refill(Refill(b, s), now) == Refill(b, now)
  {
    hide Fill;
    FillNonNegative(s - b.last, b.fillRate);
    FillNonNegative(now - s, b.fillRate);
    FillAdds(s - b.last, now - s, b.fillRate);
    assert (s - b.last) + (now - s) == now - b.last;
  }

  /** Looking at the bucket changes nothing that follows. */
  lemma {:induction false} LookingIsFree(w: World, s: real, run: seq<Event>)
    requires WorldInv(w) && Legal(w, run) && w.bucket.last <= s && NotBefore(run, s)
    ensures Legal(At(w, s), run) && Granted(At(w, s), run) == Granted(w, run)
    ensures After(At(w, s), run) == After(w, run) || After(At(w, s), run) == At(After(w, run), s)
    ensures After(At(w, s), run).bucket.last <= MaxR(s, After(w, run).bucket.last)
    decreases |run|
  {
    hide Fill;
    if run == [] {
    } else {
      var e := run[0];
      RefillTwice(w.bucket, s, e.now);
      ApplyKeepsInv(w, e);
      RefillKeepsInv(w.bucket, s);
      assert NotBefore(run[1..], s) by {
        forall i | 0 <= i < |run[1..]| ensures run[1..][i].now >= s {
          assert run[1..][i] == run[i + 1];
        }
      }
      if e.Cancel? {
        assert Apply(At(w, s), e) == At(Apply(w, e), s);
        LookingIsFree(Apply(w, e), s, run[1..]);
      } else {
        assert Apply(At(w, s), e) == Apply(w, e);
      }
    }
  }

  /** In any window from `s` to `t`, whatever acquires, waits and rate changes fall into it, the
      tokens granted are at most the capacity at `s` plus the sum of rate times duration. */
  lemma WindowBound(w: World, s: real, run: seq<Event>, t: real)
    requires WorldInv(w) && Legal(w, run) && w.bucket.last <= s <= t && NotBefore(run, s)
    requires After(w, run).bucket.last <= t
    ensures Legal(At(w, s), run)
    ensures Granted(w, run) <= At(w, s).bucket.capacity + Accrued(At(w, s), run, t)
  {
    LookingIsFree(w, s, run);
    RefillKeepsInv(w.bucket, s);
    Conservation(At(w, s), run);
    AccruedUpTo(At(w, s), run, t);
  }

  // ---- Progress ----

  ghost predicate NoGrants(w: World, run: seq<Event>)
    requires Legal(w, run)
    decreases |run|
  {
    run == [] || (!Grants(w, run[0]) && NoGrants(Apply(w, run[0]), run[1..]))
  }

  /** Whatever rates are set, without competing grants the capacity grows at the minimum rate at
      least, up to one token. */
  lemma {:induction false} FloorOfCapacity(w: World, run: seq<Event>)
    requires WorldInv(w) && Legal(w, run) && NoGrants(w, run)
    ensures After(w, run).bucket.last >= w.bucket.last
    ensures After(w, run).bucket.capacity
         >= MinR(1.0, w.bucket.capacity + Fill(After(w, run).bucket.last - w.bucket.last, w.bucket.minRate))
    decreases |run|
  {
    hide Fill, Apply, Enabled, Grants;
    if run == [] {
      FillIsZero(w.bucket.minRate);
    } else {
      var next := Apply(w, run[0]);
      ApplyKeepsInv(w, run[0]);
      FloorStep(w, run[0]);
      FloorOfCapacity(next, run[1..]);
      var d, d' := next.bucket.last - w.bucket.last, After(w, run).bucket.last - next.bucket.last;
      FillNonNegative(d', w.bucket.minRate);
      FillAdds(d, d', w.bucket.minRate);
      assert d + d' == After(w, run).bucket.last - w.bucket.last;
    }
  }

  lemma FloorStep(w: World, e: Event)
    requires WorldInv(w) && Enabled(w, e) && !Grants(w, e)
    ensures var next := Apply(w, e).bucket;
            next.capacity >= MinR(1.0, w.bucket.capacity + Fill(next.last - w.bucket.last, w.bucket.minRate))
  {
    hide Fill;
    FillIsZero(w.bucket.minRate);
    FillGrows(e.now - w.bucket.last, w.bucket.minRate, w.bucket.fillRate);
    RefillKeepsInv(w.bucket, e.now);
  }

  function SleepAmount(b: Bucket, amount: real): real
    requires b.fillRate != 0.0
  {
    (amount - b.capacity) / b.fillRate
  }

  lemma SleepFills(b: Bucket, amount: real)
    requires b.fillRate > 0.0
    ensures Fill(SleepAmount(b, amount), b.fillRate) == amount - b.capacity
  {
  }

  /** The loop condition of the waiting acquirer is the test of the non-waiting one. */
  lemma SleepMeansShort(b: Bucket, amount: real)
    requires b.fillRate > 0.0
    ensures SleepAmount(b, amount) > 0.0 <==> amount > b.capacity
  {
    SleepFills(b, amount);
    if SleepAmount(b, amount) > 0.0 {
      assert Fill(SleepAmount(b, amount), b.fillRate) > 0.0;
    }
  }

  /** At an unchanged rate and without competing grants, the bucket only refills. */
  lemma {:induction false} OnlyRefills(w: World, run: seq<Event>)
    requires WorldInv(w) && Legal(w, run) && NoGrants(w, run)
    requires forall i | 0 <= i < |run| :: !run[i].SetRate?
    ensures After(w, run).bucket.last >= w.bucket.last
    ensures After(w, run).bucket == Refill(w.bucket, After(w, run).bucket.last)
    decreases |run|
  {
    hide Fill;
    if run == [] {
      FillIsZero(w.bucket.fillRate);
    } else {
      var next := Apply(w, run[0]);
      ApplyKeepsInv(w, run[0]);
      assert forall i | 0 <= i < |run[1..]| :: run[1..][i] == run[i + 1];
      OnlyRefills(next, run[1..]);
      if !run[0].Cancel? {
        RefillTwice(w.bucket, run[0].now, After(w, run).bucket.last);
      }
    }
  }

  /** A waiter that found too little, slept its full sleep amount while nobody else was served
      and the rate stayed as it was, is served at its next check, if its amount fits at all. */
  lemma SleeperIsServed(w: World, run: seq<Event>, task: nat, now: real)
    requires WorldInv(w) && Legal(w, run) && NoGrants(w, run)
    requires forall i | 0 <= i < |run| :: !run[i].SetRate?
    requires task in After(w, run).waiters && now >= After(w, run).bucket.last
    requires var amount := After(w, run).waiters[task];
             && amount <= w.bucket.maxCapacity
             && now >= w.bucket.last + SleepAmount(w.bucket, amount)
    ensures Grants(After(w, run), Wake(task, now))
  {
    hide Fill, SleepAmount;
    var end, b := After(w, run), w.bucket;
    var amount := end.waiters[task];
    OnlyRefills(w, run);
    RefillTwice(b, end.bucket.last, now);
    var sleep := SleepAmount(b, amount);
    SleepFills(b, amount);
    FillAdds(sleep, now - b.last - sleep, b.fillRate);
    FillNonNegative(now - b.last - sleep, b.fillRate);
    assert sleep + (now - b.last - sleep) == now - b.last;
  }

  /** Nothing larger than the maximal capacity is ever granted, so a waiter for more waits until
      the rate is raised. */
  lemma GrantsFit(w: World, e: Event)
    requires WorldInv(w) && Enabled(w, e) && Grants(w, e)
    ensures Asked(w, e) <= w.bucket.maxCapacity
  {
    RefillKeepsInv(w.bucket, e.now);
  }

  lemma LongEnough(b: Bucket, amount: real) returns (now: real)
    requires Inv(b) && amount <= b.maxCapacity
    ensures now >= b.last && Refill(b, now).capacity >= amount
  {
    hide Fill, SleepAmount;
    var sleep := SleepAmount(b, amount);
    SleepFills(b, amount);
    if sleep >= 0.0 {
      now := b.last + sleep;
      assert now - b.last == sleep;
    } else {
      SleepMeansShort(b, amount);
      FillIsZero(b.fillRate);
      now := b.last;
    }
  }

  /** A waiter can be served, by waiting long enough, exactly when its amount fits. */
  lemma ServedExactly(w: World, task: nat)
    requires WorldInv(w) && task in w.waiters
    ensures (exists now: real :: Enabled(w, Wake(task, now)) && Grants(w, Wake(task, now)))
       <==> w.waiters[task] <= w.bucket.maxCapacity
  {
    if w.waiters[task] <= w.bucket.maxCapacity {
      var now := LongEnough(w.bucket, w.waiters[task]);
      hide Refill;
      assert Enabled(w, Wake(task, now)) && Grants(w, Wake(task, now));
    }
    forall now: real | Enabled(w, Wake(task, now)) && Grants(w, Wake(task, now))
      ensures w.waiters[task] <= w.bucket.maxCapacity
    {
      GrantsFit(w, Wake(task, now));
    }
  }

  /** An acquire for more than the maximal capacity does not return in any run in which the rate
      is never set high enough for it. */
  lemma {:induction false} OversizedWaits(w: World, run: seq<Event>, task: nat)
    requires WorldInv(w) && Legal(w, run)
    requires task in w.waiters && w.bucket.maxCapacity < w.waiters[task]
    requires forall i | 0 <= i < |run| && run[i].SetRate? :: MaxR(run[i].value, 1.0) < w.waiters[task]
    requires forall i | 0 <= i < |run| && run[i].Cancel? :: run[i].task != task
    ensures task in After(w, run).waiters && After(w, run).waiters[task] == w.waiters[task]
    decreases |run|
  {
    if run == [] {
    } else {
      var e := run[0];
      ApplyKeepsInv(w, e);
      RefillKeepsInv(w.bucket, e.now);
      hide Refill;
      assert forall i | 0 <= i < |run[1..]| :: run[1..][i] == run[i + 1];
      assert !(e.Wake? && e.task == task && Grants(w, e));
      OversizedWaits(Apply(w, e), run[1..], task);
    }
  }

  // ---- The bucket ----

  datatype Outcome = Acquired | Refused | Sleep(amount: real)

  class AsyncTokenBucket {
    const minRate: real
    var fillRate: real
    var maxCapacity: real
    var currentCapacity: real
    var lastTimestamp: Option<real>
    ghost var waiters: map<nat, real>

    ghost function View(): World
      requires lastTimestamp.Some?
      reads this
    {
      World(Bucket(fillRate, maxCapacity, currentCapacity, lastTimestamp.value, minRate), waiters)
    }

    ghost predicate Valid()
      reads this
    {
      lastTimestamp.Some? && WorldInv(View())
    }

    constructor (maxRate: real, now: real, minRate: real)
      requires minRate > 0.0
      ensures Valid() && waiters == map[] && lastTimestamp == Some(now) && this.minRate == minRate
      ensures fillRate == MaxR(maxRate, minRate) && maxCapacity == MaxR(maxRate, 1.0) && currentCapacity == 0.0
    {
      this.minRate := minRate;
      fillRate := 0.0;
      maxCapacity := 0.0;
      currentCapacity := 0.0;
      lastTimestamp := None;
      waiters := map[];
      new;
      RefillAt(now);
      fillRate := MaxR(maxRate, minRate);
      maxCapacity := if maxRate >= 1.0 then maxRate else 1.0;
      currentCapacity := MinR(currentCapacity, maxCapacity);
    }

    /** `_refill` */
    method RefillAt(now: real)
      modifies this`currentCapacity, this`lastTimestamp
      ensures old(lastTimestamp) == None ==> lastTimestamp == Some(now) && currentCapacity == old(currentCapacity)
      ensures old(lastTimestamp).Some? ==>
        lastTimestamp.Some? && View() == old(View()).(bucket := Refill(old(View()).bucket, now))
    {
      if lastTimestamp == None {
        lastTimestamp := Some(now);
        return;
      }
      var fillAmount := (now - lastTimestamp.value) * fillRate;
      currentCapacity := MinR(maxCapacity, currentCapacity + fillAmount);
      lastTimestamp := Some(now);
    }

    method SetMaxRate(value: real, now: real)
      requires Valid() && Enabled(View(), SetRate(value, now))
      modifies this
      ensures Valid() && View() == Apply(old(View()), SetRate(value, now))
    {
      ApplyKeepsInv(View(), SetRate(value, now));
      RefillAt(now);
      fillRate := MaxR(value, minRate);
      if value >= 1.0 {
        maxCapacity := value;
      } else {
        maxCapacity := 1.0;
      }
      currentCapacity := MinR(currentCapacity, maxCapacity);
    }

    /** `_acquire` up to its first wait. */
    method Acquire(task: nat, amount: real, block: bool, now: real) returns (outcome: Outcome)
      requires Valid() && Enabled(View(), Start(task, amount, block, now))
      modifies this
      ensures Valid() && View() == Apply(old(View()), Start(task, amount, block, now))
      ensures outcome.Acquired? <==> Grants(old(View()), Start(task, amount, block, now))
      ensures outcome.Refused? ==> !block
      ensures outcome.Sleep? ==> block && outcome.amount == SleepAmount(View().bucket, amount) > 0.0
    {
      ApplyKeepsInv(View(), Start(task, amount, block, now));
      RefillAt(now);
      if amount <= currentCapacity {
        currentCapacity := currentCapacity - amount;
        assert old(waiters) - {task} == waiters;
        return Acquired;
      }
      if !block {
        return Refused;
      }
      SleepMeansShort(View().bucket, amount);
      waiters := waiters[task := amount];
      return Sleep((amount - currentCapacity) / fillRate);
    }

    /** The waiting loop of `_acquire`, from one wait to the next or to the end. */
    method Woken(task: nat, amount: real, now: real) returns (outcome: Outcome)
      requires Valid() && Enabled(View(), Wake(task, now)) && waiters[task] == amount
      modifies this
      ensures Valid() && View() == Apply(old(View()), Wake(task, now))
      ensures outcome.Acquired? <==> Grants(old(View()), Wake(task, now))
      ensures !outcome.Acquired? ==> outcome == Sleep(SleepAmount(View().bucket, amount))
    {
      ApplyKeepsInv(View(), Wake(task, now));
      RefillAt(now);
      RefillKeepsInv(old(View()).bucket, now);
      SleepMeansShort(View().bucket, amount);
      var sleepAmount := (amount - currentCapacity) / fillRate;
      if sleepAmount > 0.0 {
        return Sleep(sleepAmount);
      }
      currentCapacity := currentCapacity - amount;
      waiters := waiters - {task};
      return Acquired;
    }
  }
}

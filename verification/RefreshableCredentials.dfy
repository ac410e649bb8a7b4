/** Refreshable credentials: many callers, an advisory and a mandatory refresh window, and one
    fetch at a time. An event is what one caller does between two awaits. The lock may be held
    before its new owner runs, as after a hand-off from the last owner, and callers see it held. */
module RefreshableCredentials {
  import opened Prelude

  datatype Credentials = Credentials(accessKey: string, secretKey: string, token: string, accountId: string)

  /** One metadata record, as a fetch returns it. */
  datatype Record = Record(credentials: Credentials, expiry: real)

  /** The two windows, in seconds before expiry. */
  datatype Timeouts = Timeouts(advisory: real, mandatory: real)

  datatype Phase =
    | Idle
    | Waiting(mandatory: bool)         // for the lock: it was seen free, or the refresh cannot wait
    | Owning(mandatory: bool)          // has the lock, but has not run yet
    | Fetching(mandatory: bool)

  /** `t1` and `t2` are the readings of the clock that the event may make, in this order. */
  datatype Event =
    | Call(who: nat, t1: real, t2: real)
    | Take(who: nat)
    | Check(who: nat, t1: real, t2: real)
    | FetchOk(who: nat, metadata: Record, t1: real)
    | FetchFails(who: nat)
    | CancelWaiting(who: nat)
    | CancelFetch(who: nat)

  datatype Error = FetchError | StillExpired

  datatype Reply = Returned(snapshot: Credentials) | Raised(error: Error) | Cancelled | NoReply

  datatype State = State(
    record: Record,
    frozen: Credentials,
    holder: Option<nat>,
    phases: seq<Phase>,
    now: real,
    // history
    seen: seq<Option<real>>,   // remaining lifetime at each caller's latest check
    records: seq<Record>,      // every record installed so far, the initial one first
    fetches: nat,
    completed: nat             // calls that returned or raised
  )

  datatype Step = Step(state: State, reply: Reply)

  function Start(n: nat, record: Record, now: real): State {
    State(record, record.credentials, None, seq(n, _ => Idle), now, seq(n, _ => None), [record], 0, 0)
  }

  /** `refresh_needed(timeout)` */
  predicate Needed(record: Record, timeout: real, t: real) {
    record.expiry - t < timeout
  }

  ghost predicate Shaped(s: State) {
    |s.phases| == |s.seen| && (s.holder.Some? ==> s.holder.value < |s.phases|)
  }

  ghost predicate Enabled(s: State, e: Event) {
    && Shaped(s) && e.who < |s.phases|
    && match e
       case Call(i, t1, t2) => s.phases[i] == Idle && s.now <= t1 <= t2
       case Take(i) => s.phases[i].Waiting? && s.holder == None
       case Check(i, t1, t2) => s.phases[i].Owning? && s.now <= t1 <= t2
       case FetchOk(i, _, t1) => s.phases[i].Fetching? && s.now <= t1
       case FetchFails(i) => s.phases[i].Fetching?
       case CancelWaiting(i) => s.phases[i].Waiting? || s.phases[i].Owning?
       case CancelFetch(i) => s.phases[i].Fetching?
  }

  /** A check by caller `i` at time `t`. */
  function Checked(s: State, i: nat, t: real): State
    requires i < |s.seen|
  {
    s.(seen := s.seen[i := Some(s.record.expiry - t)], now := t)
  }

  /** The call is over; it hands out the frozen credentials or raises. */
  function Finish(s: State, i: nat, error: Option<Error>): Step
    requires i < |s.phases|
  {
    Step(s.(phases := s.phases[i := Idle], completed := s.completed + 1),
         if error == None then Returned(s.frozen) else Raised(error.value))
  }

  function StartFetch(s: State, i: nat, mandatory: bool): Step
    requires i < |s.phases|
  {
    Step(s.(phases := s.phases[i := Fetching(mandatory)], fetches := s.fetches + 1), NoReply)
  }

  /** A fetched record replaces the old one, and is frozen. */
  function Installed(s: State, metadata: Record): State {
    s.(record := metadata, frozen := metadata.credentials, records := s.records + [metadata])
  }

  function Apply(c: Timeouts, s: State, e: Event): Step
    requires Enabled(s, e)
  {
    match e
    case Call(i, t1, t2) =>
      var s1 := Checked(s, i, t1);
      if !Needed(s.record, c.advisory, t1) then Finish(s1, i, None)
      else if s.holder == None then Step(s1.(phases := s.phases[i := Waiting(false)]), NoReply)
      else
        var s2 := Checked(s1, i, t2);
        if Needed(s.record, c.mandatory, t2) then Step(s2.(phases := s.phases[i := Waiting(true)]), NoReply)
        else Finish(s2, i, None)
    case Take(i) =>
      Step(s.(holder := Some(i), phases := s.phases[i := Owning(s.phases[i].mandatory)]), NoReply)
    case Check(i, t1, t2) =>
      var s1 := Checked(s, i, t1);
      if !s.phases[i].mandatory then
        if !Needed(s.record, c.advisory, t1) then Finish(s1.(holder := None), i, None)
        else StartFetch(Checked(s1, i, t2), i, Needed(s.record, c.mandatory, t2))
      else
        if !Needed(s.record, c.mandatory, t1) then Finish(s1.(holder := None), i, None)
        else StartFetch(s1, i, true)
    case FetchOk(i, metadata, t1) =>
      var s1 := Installed(s, metadata).(holder := None);
      Finish(Checked(s1, i, t1), i, if Needed(metadata, 0.0, t1) then Some(StillExpired) else None)
    case FetchFails(i) =>
      Finish(s.(holder := None), i, if s.phases[i].mandatory then Some(FetchError) else None)
    case CancelWaiting(i) =>
      Step(s.(phases := s.phases[i := Idle], holder := if s.phases[i].Owning? then None else s.holder), Cancelled)
    case CancelFetch(i) =>
      Step(s.(phases := s.phases[i := Idle], holder := None), Cancelled)
  }

  // ---- What every event keeps ----

  ghost predicate Inv(c: Timeouts, s: State) {
    && Shaped(s)
    // the frozen credentials are those of the one record installed last
    && s.records != [] && s.record == s.records[|s.records| - 1] && s.frozen == s.record.credentials
    && (forall i | 0 <= i < |s.phases| :: CallerInv(c, s, i))
  }

  ghost predicate CallerInv(c: Timeouts, s: State, i: nat)
    requires Shaped(s) && i < |s.phases|
  {
    // at most one fetch is in flight: its caller is the one that holds the lock
    && (s.phases[i].Owning? || s.phases[i].Fetching? <==> s.holder == Some(i))
    // it was started after a check, made under the lock, that found a refresh needed
    && (s.phases[i].Fetching? ==> s.seen[i].Some? && s.seen[i].value < MaxR(c.advisory, c.mandatory))
    // it is mandatory exactly when that check saw the mandatory window
    && (s.phases[i].Fetching? ==> (s.phases[i].mandatory <==> s.seen[i].value < c.mandatory))
  }

  lemma ApplyKeepsInv(c: Timeouts, s: State, e: Event)
    requires Inv(c, s) && Enabled(s, e)
    ensures Inv(c, Apply(c, s, e).state)
    ensures |Apply(c, s, e).state.phases| == |s.phases| && s.now <= Apply(c, s, e).state.now
  {
    var t := Apply(c, s, e).state;
    var i := e.who;
    assert CallerInv(c, s, i);
    forall k | 0 <= k < |t.phases| ensures CallerInv(c, t, k) {
      assert CallerInv(c, s, k);
    }
  }

  /** A fetch starts only when the owner of the lock, with nobody fetching, found a refresh needed. */
  lemma FetchNeedsCheck(c: Timeouts, s: State, e: Event)
    requires Inv(c, s) && Enabled(s, e)
    ensures Apply(c, s, e).state.fetches > s.fetches ==>
      && e.Check? && s.holder == Some(e.who) == Apply(c, s, e).state.holder
      && (forall k | 0 <= k < |s.phases| :: !s.phases[k].Fetching?)
      && Needed(s.record, if s.phases[e.who].mandatory then c.mandatory else c.advisory, e.t1)
  {
    assert CallerInv(c, s, e.who);
    forall k | 0 <= k < |s.phases| && Apply(c, s, e).state.fetches > s.fetches ensures !s.phases[k].Fetching? {
      assert CallerInv(c, s, k);
    }
  }

  /** A call that returns normally hands out the credentials of the record installed last. Either
      it installed that record itself and it is unexpired, or its last check saw more time left
      than the smaller of the two windows. */
  lemma ReturnsAreFresh(c: Timeouts, s: State, e: Event)
    requires Inv(c, s) && Enabled(s, e)
    ensures var t := Apply(c, s, e).state;
            var reply := Apply(c, s, e).reply;
            reply.Returned? ==>
              && reply.snapshot == t.records[|t.records| - 1].credentials
              && t.seen[e.who].Some?
              && (t.seen[e.who].value >= MinR(c.advisory, c.mandatory)
                  || (e.FetchOk? && t.record == e.metadata && t.seen[e.who].value >= 0.0))
  {
    assert CallerInv(c, s, e.who);
    ApplyKeepsInv(c, s, e);
  }

  /** "A normal return has seen credentials outside the mandatory window or installed unexpired
      ones itself" holds of every event exactly when the mandatory window is not the larger one. */
  ghost predicate OutsideMandatory(c: Timeouts, s: State, e: Event)
    requires Enabled(s, e)
  {
    var t := Apply(c, s, e).state;
    Apply(c, s, e).reply.Returned? && !e.FetchOk? && e.who < |t.seen| ==>
      t.seen[e.who].Some? && t.seen[e.who].value >= c.mandatory
  }

  lemma OutsideMandatoryExactly(c: Timeouts)
    ensures (forall s, e | Inv(c, s) && Enabled(s, e) :: OutsideMandatory(c, s, e)) <==> c.mandatory <= c.advisory
  {
    if c.mandatory <= c.advisory {
      forall s, e | Inv(c, s) && Enabled(s, e) ensures OutsideMandatory(c, s, e) {
        ReturnsAreFresh(c, s, e);
      }
    } else {
      var s := Start(1, Record(Credentials("", "", "", ""), c.advisory), 0.0);
      var e := Call(0, 0.0, 0.0);
      StartInv(c, 1, s.record, 0.0);
      assert Enabled(s, e) && !OutsideMandatory(c, s, e);
    }
  }

  /** What a call answers, and when. Credentials outside the advisory window are returned at once,
      and so are those that a check under the lock found good enough, or that somebody else is
      refreshing and that need not wait. A fetch that succeeds returns its own credentials, unless
      they are expired already; no other error is raised but that of a mandatory fetch. */
  lemma RepliesExactly(c: Timeouts, s: State, e: Event)
    requires Inv(c, s) && Enabled(s, e)
    ensures var (t, reply) := (Apply(c, s, e).state, Apply(c, s, e).reply);
            && (reply == Raised(StillExpired) <==> e.FetchOk? && e.metadata.expiry < e.t1)
            && (reply == Raised(FetchError) <==> e.FetchFails? && s.phases[e.who].mandatory)
            && (reply.Cancelled? <==> e.CancelWaiting? || e.CancelFetch?)
            && (reply.Returned? ==> reply.snapshot == if e.FetchOk? then e.metadata.credentials else s.frozen)
            && (e.FetchOk? && e.metadata.expiry >= e.t1 ==> reply == Returned(e.metadata.credentials))
            && (e.Call? ==> (reply == Returned(s.frozen) <==>
                  (s.record.expiry - e.t1 >= c.advisory
                   || (s.holder.Some? && s.record.expiry - e.t2 >= c.mandatory))))
            && (e.Check? ==> (reply == Returned(s.frozen) <==>
                  s.record.expiry - e.t1 >= if s.phases[e.who].mandatory then c.mandatory else c.advisory))
            && (e.Check? && !reply.Returned? <==> t.fetches == s.fetches + 1)
            && t.record == (if e.FetchOk? then e.metadata else s.record)
            && (reply.NoReply? <==> !t.phases[e.who].Idle?)
  {
    assert CallerInv(c, s, e.who);
  }

  /** A failing fetch changes no credentials; it is raised only if the refresh was mandatory. */
  lemma FailedFetch(c: Timeouts, s: State, i: nat)
    requires Inv(c, s) && Enabled(s, FetchFails(i))
    ensures var step := Apply(c, s, FetchFails(i));
            && step.state.frozen == s.frozen && step.state.record == s.record && step.state.holder == None
            && (s.phases[i].mandatory ==> step.reply == Raised(FetchError))
            && (!s.phases[i].mandatory ==>
                  step.reply == Returned(s.frozen) && s.seen[i].Some? && s.seen[i].value >= c.mandatory)
  {
    assert CallerInv(c, s, i);
  }

  lemma StartInv(c: Timeouts, n: nat, record: Record, now: real)
    ensures Inv(c, Start(n, record, now))
  {
    var s := Start(n, record, now);
    forall i | 0 <= i < n ensures CallerInv(c, s, i) {
    }
  }

  // ---- Runs ----

  ghost predicate Legal(c: Timeouts, s: State, run: seq<Event>)
    decreases |run|
  {
    run == [] || (Enabled(s, run[0]) && Legal(c, Apply(c, s, run[0]).state, run[1..]))
  }

  function After(c: Timeouts, s: State, run: seq<Event>): State
    requires Legal(c, s, run)
    decreases |run|
  {
    if run == [] then s else After(c, Apply(c, s, run[0]).state, run[1..])
  }

  /** Good until time `end`: no caller that checks by then needs a refresh. */
  predicate Good(c: Timeouts, record: Record, end: real) {
    record.expiry - end >= MaxR(c.advisory, c.mandatory)
  }

  /** Fetches of a run that came to nothing: failed, cancelled, or with a record that does not
      last until `end`. */
  function Wasted(c: Timeouts, run: seq<Event>, end: real): nat {
    if run == [] then 0 else Waste(c, run[0], end) + Wasted(c, run[1..], end)
  }

  function Waste(c: Timeouts, e: Event, end: real): nat {
    if e.FetchFails? || e.CancelFetch? || (e.FetchOk? && !Good(c, e.metadata, end)) then 1 else 0
  }

  predicate InFlight(s: State) {
    s.holder.Some? && s.holder.value < |s.phases| && s.phases[s.holder.value].Fetching?
  }

  ghost predicate Counted(c: Timeouts, s: State, end: real, wasted: nat) {
    && s.fetches <= wasted + (if InFlight(s) then 1 else 0) + (if Good(c, s.record, end) then 1 else 0)
    && (Good(c, s.record, end) ==> !InFlight(s))
  }

  lemma CountStep(c: Timeouts, s: State, e: Event, end: real, wasted: nat)
    requires Inv(c, s) && Enabled(s, e) && Counted(c, s, end, wasted)
    requires Apply(c, s, e).state.now <= end
    ensures Counted(c, Apply(c, s, e).state, end, wasted + Waste(c, e, end))
  {
    assert CallerInv(c, s, e.who);
    if s.holder.Some? {
      assert CallerInv(c, s, s.holder.value);
    }
  }

  lemma {:induction false} NowGrows(c: Timeouts, s: State, run: seq<Event>)
    requires Inv(c, s) && Legal(c, s, run)
    ensures s.now <= After(c, s, run).now && Inv(c, After(c, s, run))
    decreases |run|
  {
    if run == [] {
    } else {
      ApplyKeepsInv(c, s, run[0]);
      NowGrows(c, Apply(c, s, run[0]).state, run[1..]);
    }
  }

  lemma {:induction false} CountRun(c: Timeouts, s: State, run: seq<Event>, end: real, wasted: nat)
    requires Inv(c, s) && Legal(c, s, run) && Counted(c, s, end, wasted)
    requires After(c, s, run).now <= end
    ensures Counted(c, After(c, s, run), end, wasted + Wasted(c, run, end))
    decreases |run|
  {
    if run == [] {
    } else {
      var next := Apply(c, s, run[0]).state;
      ApplyKeepsInv(c, s, run[0]);
      NowGrows(c, next, run[1..]);
      CountStep(c, s, run[0], end, wasted);
      CountRun(c, next, run[1..], end, wasted + Waste(c, run[0], end));
    }
  }

  /** Any number of callers racing on any credentials: in every interleaving each fetch but one is
      paid for by one that came to nothing. In particular, when the first fetch brings a record
      that lasts, it is the only one. */
  lemma RaceFetchesOnce(c: Timeouts, n: nat, record: Record, now: real, run: seq<Event>)
    requires Legal(c, Start(n, record, now), run)
    ensures var end := After(c, Start(n, record, now), run);
            && Inv(c, end)
            && end.fetches <= 1 + Wasted(c, run, end.now)
            && (RefreshBeforeReturn(c, n, record, now) && end.completed > 0 ==> end.fetches > 0)
            && (RefreshBeforeReturn(c, n, record, now) && end.completed > 0 && Wasted(c, run, end.now) == 0 ==>
                  end.fetches == 1)
  {
    var s := Start(n, record, now);
    StartInv(c, n, record, now);
    NowGrows(c, s, run);
    var end := After(c, s, run);
    CountRun(c, s, run, end.now, 0);
    if RefreshBeforeReturn(c, n, record, now) {
      FirstFetch(c, s, run);
    }
  }

  /** No call may complete before a fetch has started: the credentials need a refresh, and unless
      there is a single caller, one that cannot wait. */
  predicate RefreshBeforeReturn(c: Timeouts, n: nat, record: Record, now: real) {
    n == 0 || (Needed(record, c.advisory, now) && (n == 1 || Needed(record, c.mandatory, now)))
  }

  /** Before the first fetch nobody has completed a call, and only a second caller finds the lock
      held. */
  ghost predicate Untouched(c: Timeouts, s: State) {
    s.fetches == 0 ==>
      && s.completed == 0 && RefreshBeforeReturn(c, |s.phases|, s.record, s.now)
      && (forall i | 0 <= i < |s.phases| ::
            !s.phases[i].Fetching? && (s.phases[i].Waiting? || s.phases[i].Owning? ==>
              s.phases[i].mandatory ==> |s.phases| > 1))
  }

  lemma FirstFetchStep(c: Timeouts, s: State, e: Event)
    requires Inv(c, s) && Enabled(s, e) && Untouched(c, s)
    ensures Untouched(c, Apply(c, s, e).state)
  {
    assert CallerInv(c, s, e.who);
    if s.holder.Some? {
      assert CallerInv(c, s, s.holder.value);
    }
  }

  lemma {:induction false} FirstFetch(c: Timeouts, s: State, run: seq<Event>)
    requires Inv(c, s) && Legal(c, s, run) && Untouched(c, s)
    ensures Untouched(c, After(c, s, run))
    decreases |run|
  {
    hide Apply, Inv, Enabled, Untouched;
    if run == [] {
    } else {
      ApplyKeepsInv(c, s, run[0]);
      FirstFetchStep(c, s, run[0]);
      FirstFetch(c, Apply(c, s, run[0]).state, run[1..]);
    }
  }

  /** A call that returns without any fetch: the first caller finds nothing to refresh, or the
      second one finds the lock held by a first that has not run yet, and no need to wait for it. */
  lemma ReturnWithoutFetch(c: Timeouts, n: nat, record: Record, now: real) returns (run: seq<Event>)
    requires !RefreshBeforeReturn(c, n, record, now)
    ensures Legal(c, Start(n, record, now), run)
    ensures var end := After(c, Start(n, record, now), run); end.completed == 1 && end.fetches == 0
  {
    var s := Start(n, record, now);
    if !Needed(record, c.advisory, now) {
      run := [Call(0, now, now)];
      var s1 := Apply(c, s, run[0]).state;
      assert Legal(c, s1, run[1..]) && After(c, s1, run[1..]) == s1;
    } else {
      run := [Call(0, now, now), Take(0), Call(1, now, now)];
      var s1 := Apply(c, s, run[0]).state;
      var s2 := Apply(c, s1, run[1]).state;
      var s3 := Apply(c, s2, run[2]).state;
      assert s1.phases[1] == s2.phases[1] == Idle;
      assert Legal(c, s3, run[3..]) && After(c, s3, run[3..]) == s3;
      assert run[2..][1..] == run[3..] && Legal(c, s2, run[2..]) && After(c, s2, run[2..]) == s3;
      assert run[1..][1..] == run[2..] && Legal(c, s1, run[1..]) && After(c, s1, run[1..]) == s3;
    }
  }

  /** In every race no call completes before a fetch has started, exactly when the credentials
      need a refresh from the start that no second caller can put off. */
  lemma NoReturnBeforeFetchExactly(c: Timeouts, n: nat, record: Record, now: real)
    ensures (forall run | Legal(c, Start(n, record, now), run) ::
               var end := After(c, Start(n, record, now), run); end.completed > 0 ==> end.fetches > 0)
       <==> RefreshBeforeReturn(c, n, record, now)
  {
    if RefreshBeforeReturn(c, n, record, now) {
      forall run | Legal(c, Start(n, record, now), run)
        ensures var end := After(c, Start(n, record, now), run); end.completed > 0 ==> end.fetches > 0
      {
        RaceFetchesOnce(c, n, record, now, run);
      }
    } else {
      var run := ReturnWithoutFetch(c, n, record, now);
    }
  }

  // ---- The credentials object ----

  class AioRefreshableCredentials {
    const timeouts: Timeouts
    var accessKey: string
    var secretKey: string
    var token: string
    var accountId: string
    var expiryTime: real
    var frozenCredentials: Credentials
    var lockHolder: Option<nat>

    ghost var phases: seq<Phase>
    ghost var now: real
    ghost var seen: seq<Option<real>>
    ghost var records: seq<Record>
    ghost var fetches: nat
    ghost var completed: nat

    ghost function View(): State
      reads this
    {
      State(Record(Credentials(accessKey, secretKey, token, accountId), expiryTime),
            frozenCredentials, lockHolder, phases, now, seen, records, fetches, completed)
    }

    constructor (timeouts: Timeouts, n: nat, record: Record, now: real)
      ensures View() == Start(n, record, now) && this.timeouts == timeouts
    {
      this.timeouts := timeouts;
      accessKey := record.credentials.accessKey;
      secretKey := record.credentials.secretKey;
      token := record.credentials.token;
      accountId := record.credentials.accountId;
      expiryTime := record.expiry;
      frozenCredentials := record.credentials;
      lockHolder := None;
      phases := seq(n, _ => Idle);
      this.now := now;
      seen := seq(n, _ => None);
      records := [record];
      fetches := 0;
      completed := 0;
    }

    method RefreshNeeded(i: nat, timeout: real, t: real) returns (r: bool)
      requires i < |seen|
      modifies this`seen, this`now
      ensures View() == Checked(old(View()), i, t)
      ensures r == Needed(View().record, timeout, t)
    {
      seen := seen[i := Some(expiryTime - t)];
      now := t;
      return expiryTime - t < timeout;
    }

    /** `return self._frozen_credentials` after `_refresh` is done. */
    method Return(i: nat) returns (reply: Reply)
      requires i < |phases|
      modifies this`phases, this`completed
      ensures Step(View(), reply) == Finish(old(View()), i, None)
    {
      phases := phases[i := Idle];
      completed := completed + 1;
      return Returned(frozenCredentials);
    }

    method Raise(i: nat, error: Error) returns (reply: Reply)
      requires i < |phases|
      modifies this`phases, this`completed
      ensures Step(View(), reply) == Finish(old(View()), i, Some(error))
    {
      phases := phases[i := Idle];
      completed := completed + 1;
      return Raised(error);
    }

    /** `get_frozen_credentials` up to its first await. */
    method Call(i: nat, t1: real, t2: real) returns (reply: Reply)
      requires Enabled(View(), Event.Call(i, t1, t2))
      modifies this
      ensures Step(View(), reply) == Apply(timeouts, old(View()), Event.Call(i, t1, t2))
    {
      var needed := RefreshNeeded(i, timeouts.advisory, t1);
      if !needed {
        reply := Return(i);
        return;
      }
      if lockHolder == None {
        phases := phases[i := Waiting(false)];
        return NoReply;
      }
      needed := RefreshNeeded(i, timeouts.mandatory, t2);
      if needed {
        phases := phases[i := Waiting(true)];
        return NoReply;
      }
      reply := Return(i);
    }

    /** The lock becomes this caller's. */
    method Take(i: nat)
      requires Enabled(View(), Event.Take(i))
      modifies this
      ensures Step(View(), NoReply) == Apply(timeouts, old(View()), Event.Take(i))
    {
      lockHolder := Some(i);
      phases := phases[i := Owning(phases[i].mandatory)];
    }

    /** The first branch of `_refresh` from running with the lock to the fetch. */
    method CheckAdvisory(i: nat, t1: real, t2: real) returns (reply: Reply)
      requires Enabled(View(), Event.Check(i, t1, t2)) && phases[i] == Owning(false)
      modifies this
      ensures Step(View(), reply) == Apply(timeouts, old(View()), Event.Check(i, t1, t2))
    {
      var needed := RefreshNeeded(i, timeouts.advisory, t1);
      if !needed {
        lockHolder := None;
        reply := Return(i);
        return;
      }
      var isMandatory := RefreshNeeded(i, timeouts.mandatory, t2);
      phases := phases[i := Fetching(isMandatory)];
      fetches := fetches + 1;
      return NoReply;
    }

    /** The second branch of `_refresh` from running with the lock to the fetch. */
    method CheckMandatory(i: nat, t1: real, t2: real) returns (reply: Reply)
      requires Enabled(View(), Event.Check(i, t1, t2)) && phases[i] == Owning(true)
      modifies this
      ensures Step(View(), reply) == Apply(timeouts, old(View()), Event.Check(i, t1, t2))
    {
      var needed := RefreshNeeded(i, timeouts.mandatory, t1);
      if !needed {
        lockHolder := None;
        reply := Return(i);
        return;
      }
      phases := phases[i := Fetching(true)];
      fetches := fetches + 1;
      return NoReply;
    }

    /** `_set_from_data` and the freezing of its result. */
    method Install(metadata: Record)
      modifies this`accessKey, this`secretKey, this`token, this`accountId, this`expiryTime,
               this`frozenCredentials, this`records
      ensures View() == Installed(old(View()), metadata)
    {
      accessKey := metadata.credentials.accessKey;
      secretKey := metadata.credentials.secretKey;
      token := metadata.credentials.token;
      accountId := metadata.credentials.accountId;
      expiryTime := metadata.expiry;
      frozenCredentials := Credentials(accessKey, secretKey, token, accountId);
      records := records + [metadata];
    }

    /** `_protected_refresh` after the fetch came back. */
    method FetchOk(i: nat, metadata: Record, t: real) returns (reply: Reply)
      requires Enabled(View(), Event.FetchOk(i, metadata, t))
      modifies this
      ensures Step(View(), reply) == Apply(timeouts, old(View()), Event.FetchOk(i, metadata, t))
    {
      ghost var s := View();
      Install(metadata);
      lockHolder := None;
      ghost var s1 := Installed(s, metadata).(holder := None);
      assert View() == s1;
      var expired := RefreshNeeded(i, 0.0, t);
      assert View() == Checked(s1, i, t);
      hide View;
      if expired {
        reply := Raise(i, StillExpired);
      } else {
        reply := Return(i);
      }
    }

    /** `_protected_refresh` after the fetch raised. */
    method FetchFails(i: nat, isMandatory: bool) returns (reply: Reply)
      requires Enabled(View(), Event.FetchFails(i)) && phases[i] == Fetching(isMandatory)
      modifies this
      ensures Step(View(), reply) == Apply(timeouts, old(View()), Event.FetchFails(i))
    {
      lockHolder := None;
      if isMandatory {
        reply := Raise(i, FetchError);
      } else {
        reply := Return(i);
      }
    }

    method CancelWaiting(i: nat) returns (reply: Reply)
      requires Enabled(View(), Event.CancelWaiting(i)) && phases[i].Waiting?
      modifies this
      ensures Step(View(), reply) == Apply(timeouts, old(View()), Event.CancelWaiting(i))
    {
      phases := phases[i := Idle];
      return Cancelled;
    }

    /** Cancelled with the lock, before running with it. */
    method CancelOwning(i: nat) returns (reply: Reply)
      requires Enabled(View(), Event.CancelWaiting(i)) && phases[i].Owning?
      modifies this
      ensures Step(View(), reply) == Apply(timeouts, old(View()), Event.CancelWaiting(i))
    {
      lockHolder := None;
      phases := phases[i := Idle];
      return Cancelled;
    }

    method CancelFetch(i: nat) returns (reply: Reply)
      requires Enabled(View(), Event.CancelFetch(i))
      modifies this
      ensures Step(View(), reply) == Apply(timeouts, old(View()), Event.CancelFetch(i))
    {
      lockHolder := None;
      phases := phases[i := Idle];
      return Cancelled;
    }
  }
}

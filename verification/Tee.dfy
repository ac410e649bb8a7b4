/** One asynchronous source fanned out to several consumers under a lock.

    Code between two awaits is atomic, so a run is a sequence of events: a consumer calls
    `__anext__`, gets the lock, the awaited source call comes back, or a consumer is cancelled
    while it waits. Any waiter may get the lock next. */
module Tee {
  import opened Prelude

  /** What ended the source, kept to be replayed to every consumer. */
  datatype Outcome<E> = Exhausted | Failed(error: E) | Poisoned

  datatype Phase = Idle | Waiting | InSource

  datatype Event<T, E> =
    | Call(who: nat)
    | Acquire(who: nat)
    | SourceYields(who: nat, value: T)
    | SourceEnds(who: nat)
    | SourceFails(who: nat, error: E)
    | Cancel(who: nat)

  /** What the consumer's `__anext__` does in this event: hands out an item, ends the
      iteration with an outcome, stops again, raises the cancellation, or keeps waiting. */
  datatype Reply<T, E> = Item(value: T) | Terminal(outcome: Outcome<E>) | StopAgain | CancelRaised | NoReply

  datatype State<T, E> = State(
    buffers: seq<seq<T>>,
    outcome: Option<Outcome<E>>,
    holder: Option<nat>,
    done: seq<bool>,
    phases: seq<Phase>,
    // history
    pulled: seq<T>,                       // the values the source has produced
    delivered: seq<seq<T>>,               // the values each consumer was given
    signals: seq<Option<Outcome<E>>>,     // each consumer's first terminal signal
    calls: nat                            // how often the source was asked
  )

  datatype Step<T, E> = Step(state: State<T, E>, reply: Reply<T, E>)

  ghost predicate Shaped<T, E>(s: State<T, E>) {
    && |s.buffers| == |s.done| == |s.phases| == |s.delivered| == |s.signals|
    && (s.holder.Some? ==> s.holder.value < |s.buffers|)
  }

  function Start<T, E>(n: nat): State<T, E> {
    State(seq(n, _ => []), None, None, seq(n, _ => false), seq(n, _ => Idle), [], seq(n, _ => []), seq(n, _ => None), 0)
  }

  ghost predicate Enabled<T, E>(s: State<T, E>, event: Event<T, E>) {
    && Shaped(s)
    && event.who < |s.buffers|
    && match event
       case Call(i) => s.phases[i] == Idle
       case Acquire(i) => s.phases[i] == Waiting && s.holder == None
       case SourceYields(i, _) => s.phases[i] == InSource
       case SourceEnds(i) => s.phases[i] == InSource
       case SourceFails(i, _) => s.phases[i] == InSource
       case Cancel(i) => s.phases[i] != Idle
  }

  /** Back in `__anext__` after `pull`: pop if there is something, else replay the outcome. */
  function Resume<T, E>(s: State<T, E>, i: nat): Step<T, E>
    requires Shaped(s) && i < |s.buffers| && (s.buffers[i] == [] ==> s.outcome.Some?)
  {
    var t := s.(phases := s.phases[i := Idle]);
    if s.buffers[i] != [] then
      var value := s.buffers[i][0];
      Step(t.(buffers := s.buffers[i := s.buffers[i][1..]],
              delivered := s.delivered[i := s.delivered[i] + [value]]), Item(value))
    else
      Step(t.(done := s.done[i := true], signals := s.signals[i := s.outcome]), Terminal(s.outcome.value))
  }

  function Appended<T>(buffers: seq<seq<T>>, value: T): seq<seq<T>> {
    seq(|buffers|, k requires 0 <= k < |buffers| => buffers[k] + [value])
  }

  function Apply<T, E>(s: State<T, E>, event: Event<T, E>): Step<T, E>
    requires Enabled(s, event)
  {
    match event
    case Call(i) =>
      if s.done[i] then Step(s, StopAgain)
      else if s.buffers[i] != [] then Resume(s, i)
      else Step(s.(phases := s.phases[i := Waiting]), NoReply)
    case Acquire(i) =>
      if s.buffers[i] != [] || s.outcome.Some? then Resume(s, i)
      else Step(s.(holder := Some(i), phases := s.phases[i := InSource], calls := s.calls + 1), NoReply)
    case SourceYields(i, value) =>
      Resume(s.(holder := None, buffers := Appended(s.buffers, value), pulled := s.pulled + [value]), i)
    case SourceEnds(i) =>
      Closed(s, i, Exhausted)
    case SourceFails(i, error) =>
      Closed(s, i, Failed(error))
    case Cancel(i) =>
      var t := s.(phases := s.phases[i := Idle]);
      if s.phases[i] == Waiting then Step(t, CancelRaised)
      else Step(t.(holder := None, outcome := Some(Poisoned)), CancelRaised)
  }

  function Closed<T, E>(s: State<T, E>, i: nat, outcome: Outcome<E>): Step<T, E>
    requires Shaped(s) && i < |s.buffers|
  {
    Resume(s.(holder := None, outcome := Some(outcome)), i)
  }

  // ---- What every event keeps ----

  ghost predicate Inv<T, E>(s: State<T, E>) {
    && Shaped(s)
    && (forall i | 0 <= i < |s.buffers| :: ConsumerInv(s, i))
    && (s.holder.Some? ==> s.outcome == None)
    && s.calls == |s.pulled| + (if s.outcome.Some? then 1 else 0) + (if s.holder.Some? then 1 else 0)
  }

  ghost predicate ConsumerInv<T, E>(s: State<T, E>, i: nat)
    requires Shaped(s) && i < |s.buffers|
  {
    // no value is lost, repeated or reordered on its way to this consumer
    && s.delivered[i] + s.buffers[i] == s.pulled
    // only the holder of the lock is in the source, and only with an empty buffer
    && (s.phases[i] == InSource <==> s.holder == Some(i))
    && (s.phases[i] == InSource ==> s.buffers[i] == [])
    // the first terminal signal is the outcome of the source, after every value it produced
    && (s.done[i] <==> s.signals[i].Some?)
    && (s.signals[i].Some? ==> s.signals[i] == s.outcome && s.delivered[i] == s.pulled)
    && (s.phases[i] != Idle ==> !s.done[i])
  }

  lemma ResumeKeepsInv<T, E>(s: State<T, E>, i: nat)
    requires Shaped(s) && i < |s.buffers| && !s.done[i] && (s.buffers[i] == [] ==> s.outcome.Some?)
    requires s.holder == None && (forall k | 0 <= k < |s.buffers| && k != i :: ConsumerInv(s, k))
    requires s.delivered[i] + s.buffers[i] == s.pulled && s.signals[i] == None
    requires s.calls == |s.pulled| + (if s.outcome.Some? then 1 else 0)
    ensures Inv(Resume(s, i).state)
  {
    var t := Resume(s, i).state;
    forall k | 0 <= k < |t.buffers|
      ensures ConsumerInv(t, k)
    {
      if k != i {
        assert ConsumerInv(s, k);
      } else if s.buffers[i] != [] {
        assert s.buffers[i] == [s.buffers[i][0]] + s.buffers[i][1..];
        Associative(s.delivered[i], [s.buffers[i][0]], s.buffers[i][1..]);
      } else {
        assert s.delivered[i] + [] == s.delivered[i];
      }
    }
  }

  lemma FanOutKeepsInv<T, E>(s: State<T, E>, i: nat, value: T)
    requires Inv(s) && i < |s.buffers| && s.phases[i] == InSource
    ensures Inv(Apply(s, SourceYields(i, value)).state)
  {
    var t := s.(holder := None, buffers := Appended(s.buffers, value), pulled := s.pulled + [value]);
    assert ConsumerInv(s, i);
    forall k | 0 <= k < |t.buffers|
      ensures t.delivered[k] + t.buffers[k] == t.pulled
      ensures k != i ==> ConsumerInv(t, k)
    {
      assert ConsumerInv(s, k);
      Associative(s.delivered[k], s.buffers[k], [value]);
    }
    ResumeKeepsInv(t, i);
  }

  lemma ApplyKeepsInv<T, E>(s: State<T, E>, event: Event<T, E>)
    requires Inv(s) && Enabled(s, event)
    ensures Inv(Apply(s, event).state)
  {
    var i := event.who;
    assert ConsumerInv(s, i);
    match event {
      case Call(_) =>
        if !s.done[i] && s.buffers[i] == [] {
          OnlyPhase(s, Apply(s, event).state, i);
        } else if !s.done[i] {
          CallPops(s, i);
        }
      case Acquire(_) =>
        if s.buffers[i] != [] || s.outcome.Some? {
          ResumeKeepsInv(s, i);
        } else {
          var t := Apply(s, event).state;
          forall k | 0 <= k < |t.buffers| ensures ConsumerInv(t, k) {
            assert ConsumerInv(s, k);
          }
        }
      case SourceYields(_, value) => FanOutKeepsInv(s, i, value);
      case SourceEnds(_) => CloseKeepsInv(s, i, Exhausted);
      case SourceFails(_, error) => CloseKeepsInv(s, i, Failed(error));
      case Cancel(_) =>
        var t := Apply(s, event).state;
        forall k | 0 <= k < |t.buffers| ensures ConsumerInv(t, k) {
          assert ConsumerInv(s, k);
        }
    }
  }

  lemma OnlyPhase<T, E>(s: State<T, E>, t: State<T, E>, i: nat)
    requires Inv(s) && i < |s.buffers| && s.phases[i] == Idle && !s.done[i]
    requires t == s.(phases := s.phases[i := Waiting])
    ensures Inv(t)
  {
    forall k | 0 <= k < |t.buffers| ensures ConsumerInv(t, k) {
      assert ConsumerInv(s, k);
    }
  }

  /** An idle consumer pops while another one may be in the source. */
  lemma CallPops<T, E>(s: State<T, E>, i: nat)
    requires Inv(s) && i < |s.buffers| && s.phases[i] == Idle && !s.done[i] && s.buffers[i] != []
    ensures Inv(Resume(s, i).state)
  {
    var t := Resume(s, i).state;
    forall k | 0 <= k < |t.buffers| ensures ConsumerInv(t, k) {
      assert ConsumerInv(s, k);
      if k == i {
        assert s.buffers[i] == [s.buffers[i][0]] + s.buffers[i][1..];
        Associative(s.delivered[i], [s.buffers[i][0]], s.buffers[i][1..]);
      }
    }
  }

  lemma CloseKeepsInv<T, E>(s: State<T, E>, i: nat, outcome: Outcome<E>)
    requires Inv(s) && i < |s.buffers| && s.phases[i] == InSource
    ensures Inv(Closed(s, i, outcome).state)
  {
    var t := s.(holder := None, outcome := Some(outcome));
    assert ConsumerInv(s, i);
    forall k | 0 <= k < |t.buffers| && k != i ensures ConsumerInv(t, k) {
      assert ConsumerInv(s, k);
    }
    ResumeKeepsInv(t, i);
  }

  // ---- Runs ----

  ghost predicate Legal<T, E>(s: State<T, E>, run: seq<Event<T, E>>)
    decreases |run|
  {
    run == [] || (Enabled(s, run[0]) && Legal(Apply(s, run[0]).state, run[1..]))
  }

  function After<T, E>(s: State<T, E>, run: seq<Event<T, E>>): State<T, E>
    requires Legal(s, run)
    decreases |run|
  {
    if run == [] then s else After(Apply(s, run[0]).state, run[1..])
  }

  /** The values the source produced in a run, read off its events alone. */
  function Produced<T, E>(run: seq<Event<T, E>>): seq<T> {
    if run == [] then []
    else (if run[0].SourceYields? then [run[0].value] else []) + Produced(run[1..])
  }

  /** How the source came to its end: by itself, by an error, or because the consumer that was
      asking it was cancelled. */
  function Ending<T, E>(s: State<T, E>, run: seq<Event<T, E>>): Option<Outcome<E>>
    requires Legal(s, run)
    decreases |run|
  {
    if run == [] then None
    else if run[0].SourceEnds? then Some(Exhausted)
    else if run[0].SourceFails? then Some(Failed(run[0].error))
    else if run[0].Cancel? && s.phases[run[0].who] == InSource then Some(Poisoned)
    else Ending(Apply(s, run[0]).state, run[1..])
  }

  /** What the calls of consumer `i` returned in a run, read off the replies. */
  function Items<T, E>(s: State<T, E>, run: seq<Event<T, E>>, i: nat): seq<T>
    requires Legal(s, run)
    decreases |run|
  {
    if run == [] then []
    else
      var step := Apply(s, run[0]);
      (if run[0].who == i && step.reply.Item? then [step.reply.value] else []) + Items(step.state, run[1..], i)
  }

  /** The first stop or error that a call of consumer `i` ended with. */
  function FirstSignal<T, E>(s: State<T, E>, run: seq<Event<T, E>>, i: nat): Option<Outcome<E>>
    requires Legal(s, run)
    decreases |run|
  {
    if run == [] then None
    else
      var step := Apply(s, run[0]);
      if run[0].who == i && step.reply.Terminal? then Some(step.reply.outcome) else FirstSignal(step.state, run[1..], i)
  }

  // ---- Replies ----

  /** What every call of `__anext__` answers, and when: the oldest buffered value first, the
      outcome once the buffer is empty, a plain stop after that; it asks the source only with
      nothing buffered and no outcome, and waits only with nothing buffered. */
  lemma RepliesExactly<T, E>(s: State<T, E>, e: Event<T, E>)
    requires Inv(s) && Enabled(s, e)
    ensures var (t, reply, i) := (Apply(s, e).state, Apply(s, e).reply, e.who);
            && t.delivered[i] == s.delivered[i] + (if reply.Item? then [reply.value] else [])
            && (reply.Terminal? <==> s.signals[i] == None && t.signals[i].Some?)
            && (reply.Terminal? ==> t.signals[i] == Some(reply.outcome))
            && (reply.StopAgain? <==> e.Call? && s.signals[i].Some?)
            && (reply.CancelRaised? <==> e.Cancel?)
            && (reply.NoReply? <==>
                  (s.buffers[i] == [] && !s.done[i] && (e.Call? || (e.Acquire? && s.outcome == None))))
            && t.calls == s.calls + (if e.Acquire? && s.buffers[i] == [] && s.outcome == None then 1 else 0)
    ensures forall k | 0 <= k < |s.buffers| && k != e.who ::
              Apply(s, e).state.delivered[k] == s.delivered[k] && Apply(s, e).state.signals[k] == s.signals[k]
  {
    assert ConsumerInv(s, e.who);
  }

  /** Over a run, the values and the signal on record are those that the calls gave. */
  lemma {:induction false} RepliesRecorded<T, E>(s: State<T, E>, run: seq<Event<T, E>>, i: nat)
    requires Inv(s) && Legal(s, run) && i < |s.buffers|
    ensures var t := After(s, run);
            && i < |t.delivered| && i < |t.signals|
            && t.delivered[i] == s.delivered[i] + Items(s, run, i)
            && t.signals[i] == if s.signals[i].Some? then s.signals[i] else FirstSignal(s, run, i)
    ensures s.signals[i].Some? ==> FirstSignal(s, run, i) == None
    decreases |run|
  {
    if run == [] {
      assert s.delivered[i] + [] == s.delivered[i];
    } else {
      var step := Apply(s, run[0]);
      StepFacts(s, run[0]);
      RepliesExactly(s, run[0]);
      SignalsStay(s, run[0], i);
      hide Apply, Inv, Enabled;
      RepliesRecorded(step.state, run[1..], i);
      Associative(s.delivered[i], if run[0].who == i && step.reply.Item? then [step.reply.value] else [],
                  Items(step.state, run[1..], i));
      if !(run[0].who == i && step.reply.Item?) {
        assert s.delivered[i] + [] == s.delivered[i];
      }
    }
  }

  lemma SignalsStay<T, E>(s: State<T, E>, e: Event<T, E>, i: nat)
    requires Inv(s) && Enabled(s, e) && i < |s.buffers|
    ensures s.signals[i].Some? ==> Apply(s, e).state.signals[i] == s.signals[i]
    ensures Apply(s, e).state.signals[i] != s.signals[i] ==> e.who == i && Apply(s, e).reply.Terminal?
  {
    assert ConsumerInv(s, e.who) && ConsumerInv(s, i);
  }

  lemma StartInv<T, E>(n: nat)
    ensures Inv(Start<T, E>(n))
  {
    var s := Start<T, E>(n);
    forall i | 0 <= i < |s.buffers| ensures ConsumerInv(s, i) {
    }
  }

  lemma StepFacts<T, E>(s: State<T, E>, event: Event<T, E>)
    requires Inv(s) && Enabled(s, event)
    ensures var t := Apply(s, event).state;
            && Inv(t) && |t.buffers| == |s.buffers|
            && t.pulled == s.pulled + (if event.SourceYields? then [event.value] else [])
            && (s.outcome.Some? ==> t.outcome == s.outcome)
            && (event.SourceEnds? ==> t.outcome == Some(Exhausted))
            && (event.SourceFails? ==> t.outcome == Some(Failed(event.error)))
            && (event.SourceYields? || event.SourceEnds? || event.SourceFails? ==> s.outcome == None)
            && (event.Cancel? && s.phases[event.who] == InSource ==> s.outcome == None && t.outcome == Some(Poisoned))
            && (!event.SourceEnds? && !event.SourceFails? && !(event.Cancel? && s.phases[event.who] == InSource) ==>
                  t.outcome == s.outcome)
  {
    ApplyKeepsInv(s, event);
    assert ConsumerInv(s, event.who);
  }

  lemma {:induction false} RunFacts<T, E>(s: State<T, E>, run: seq<Event<T, E>>)
    requires Inv(s) && Legal(s, run)
    ensures var t := After(s, run);
            && Inv(t) && |t.buffers| == |s.buffers|
            && t.pulled == s.pulled + Produced(run)
            && t.outcome == if s.outcome.Some? then s.outcome else Ending(s, run)
    decreases |run|
  {
    hide Apply, Inv, Enabled;
    if run == [] {
      assert s.pulled + [] == s.pulled;
    } else {
      StepFacts(s, run[0]);
      var next := Apply(s, run[0]).state;
      RunFacts(next, run[1..]);
      if next.outcome.Some? {
        NoSourceEvents(next, run[1..]);
      }
      Associative(s.pulled, if run[0].SourceYields? then [run[0].value] else [], Produced(run[1..]));
    }
  }

  /** Once the outcome is recorded, nobody calls the source again. */
  lemma {:induction false} NoSourceEvents<T, E>(s: State<T, E>, run: seq<Event<T, E>>)
    requires Inv(s) && Legal(s, run) && s.outcome.Some?
    ensures Ending(s, run) == None && Produced(run) == []
    decreases |run|
  {
    hide Apply, Inv, Enabled;
    if run == [] {
    } else {
      StepFacts(s, run[0]);
      NoSourceEvents(Apply(s, run[0]).state, run[1..]);
    }
  }

  /** The guarantee of `tee`, for every interleaving of its consumers and every cancellation.
      The values that a consumer's calls returned, followed by its buffer, are what the source
      produced. The first stop or error comes after every one of them and replays how the source
      came to its end: a clean stop exactly when it ended, its own error exactly when it raised
      one, the poison exactly when the consumer that was asking it was cancelled. All consumers get
      the same, and the source is asked at most once more than it produced values. */
  lemma TeeGuarantee<T, E>(n: nat, run: seq<Event<T, E>>, i: nat)
    requires Legal(Start<T, E>(n), run) && i < n
    ensures var s, t := Start<T, E>(n), After(Start(n), run);
            && Inv(t) && |t.buffers| == n
            && Items(s, run, i) + t.buffers[i] == Produced(run)
            && (FirstSignal(s, run, i).Some? ==> Items(s, run, i) == Produced(run))
            && (FirstSignal(s, run, i).Some? ==> FirstSignal(s, run, i) == Ending(s, run))
            && (forall j | 0 <= j < n && FirstSignal(s, run, i).Some? && FirstSignal(s, run, j).Some? ::
                  FirstSignal(s, run, i) == FirstSignal(s, run, j))
            && t.calls <= |Produced(run)| + 1
  {
    var s := Start<T, E>(n);
    StartInv<T, E>(n);
    RunFacts(s, run);
    RepliesRecorded(s, run, i);
    var t := After(s, run);
    assert s.pulled + Produced(run) == Produced(run);
    assert s.delivered[i] + Items(s, run, i) == Items(s, run, i);
    assert ConsumerInv(t, i);
    forall j | 0 <= j < n && FirstSignal(s, run, j).Some? ensures FirstSignal(s, run, j) == t.outcome {
      RepliesRecorded(s, run, j);
      assert ConsumerInv(t, j);
    }
  }

  // ---- The shared state and its consumers ----

  class TeeState<T, E> {
    var buffers: seq<seq<T>>
    var outcome: Option<Outcome<E>>
    var holder: Option<nat>      // who holds the lock
    var done: seq<bool>          // the `_done` flag of each consumer

    ghost var phases: seq<Phase>
    ghost var pulled: seq<T>
    ghost var delivered: seq<seq<T>>
    ghost var signals: seq<Option<Outcome<E>>>
    ghost var calls: nat

    ghost function View(): State<T, E>
      reads this
    {
      State(buffers, outcome, holder, done, phases, pulled, delivered, signals, calls)
    }

    constructor (n: nat)
      ensures View() == Start(n)
    {
      buffers := seq(n, _ => []);
      outcome := None;
      holder := None;
      done := seq(n, _ => false);
      phases := seq(n, _ => Idle);
      pulled := [];
      delivered := seq(n, _ => []);
      signals := seq(n, _ => None);
      calls := 0;
    }

    /** The rest of `__anext__` once `pull` has returned. */
    method Return(i: nat) returns (reply: Reply<T, E>)
      requires Shaped(View()) && i < |buffers| && (buffers[i] == [] ==> outcome.Some?)
      modifies this
      ensures Step(View(), reply) == Resume(old(View()), i)
    {
      phases := phases[i := Idle];
      if buffers[i] != [] {
        var value := buffers[i][0];
        buffers := buffers[i := buffers[i][1..]];
        delivered := delivered[i := delivered[i] + [value]];
        return Item(value);
      }
      done := done[i := true];
      signals := signals[i := outcome];
      return Terminal(outcome.value);
    }

    /** `__anext__` up to its first await. */
    method Call(i: nat) returns (reply: Reply<T, E>)
      requires Enabled(View(), Event<T, E>.Call(i))
      modifies this
      ensures Step(View(), reply) == Apply(old(View()), Event<T, E>.Call(i))
    {
      if done[i] {
        return StopAgain;
      }
      if buffers[i] != [] {
        reply := Return(i);
      } else {
        phases := phases[i := Waiting];
        reply := NoReply;
      }
    }

    /** `pull` from getting the lock to the source call. */
    method Acquire(i: nat) returns (reply: Reply<T, E>)
      requires Enabled(View(), Event<T, E>.Acquire(i))
      modifies this
      ensures Step(View(), reply) == Apply(old(View()), Event<T, E>.Acquire(i))
    {
      holder := Some(i);
      if buffers[i] != [] || outcome.Some? {
        holder := None;
        reply := Return(i);
      } else {
        phases := phases[i := InSource];
        calls := calls + 1;
        reply := NoReply;
      }
    }

    /** The source came back with a value: it goes to every buffer. */
    method SourceYields(i: nat, value: T) returns (reply: Reply<T, E>)
      requires Enabled(View(), Event<T, E>.SourceYields(i, value))
      modifies this
      ensures Step(View(), reply) == Apply(old(View()), Event<T, E>.SourceYields(i, value))
    {
      for k := 0 to |buffers|
        invariant |buffers| == old(|buffers|)
        invariant forall j | 0 <= j < |buffers| :: buffers[j] == old(buffers)[j] + if j < k then [value] else []
        invariant View() == old(View()).(buffers := buffers)
      {
        buffers := buffers[k := buffers[k] + [value]];
      }
      assert buffers == Appended(old(buffers), value);
      pulled := pulled + [value];
      holder := None;
      reply := Return(i);
    }

    method SourceEnds(i: nat) returns (reply: Reply<T, E>)
      requires Enabled(View(), Event<T, E>.SourceEnds(i))
      modifies this
      ensures Step(View(), reply) == Apply(old(View()), Event<T, E>.SourceEnds(i))
    {
      outcome := Some(Exhausted);
      holder := None;
      reply := Return(i);
    }

    method SourceFails(i: nat, error: E) returns (reply: Reply<T, E>)
      requires Enabled(View(), Event<T, E>.SourceFails(i, error))
      modifies this
      ensures Step(View(), reply) == Apply(old(View()), Event<T, E>.SourceFails(i, error))
    {
      outcome := Some(Failed(error));
      holder := None;
      reply := Return(i);
    }

    /** The consumer is cancelled while it waits for the lock. */
    method CancelWaiting(i: nat) returns (reply: Reply<T, E>)
      requires Enabled(View(), Event<T, E>.Cancel(i)) && phases[i] == Waiting
      modifies this
      ensures Step(View(), reply) == Apply(old(View()), Event<T, E>.Cancel(i))
    {
      phases := phases[i := Idle];
      return CancelRaised;
    }

    /** The consumer is cancelled in the source call, which tears the shared source down. */
    method CancelInSource(i: nat) returns (reply: Reply<T, E>)
      requires Enabled(View(), Event<T, E>.Cancel(i)) && phases[i] == InSource
      modifies this
      ensures Step(View(), reply) == Apply(old(View()), Event<T, E>.Cancel(i))
    {
      outcome := Some(Poisoned);
      holder := None;
      phases := phases[i := Idle];
      return CancelRaised;
    }
  }
}

/** The reference-counted HTTP session: the first user enters it, the last one exits it, under a
    lock, and the asserts of the session itself never fire. */
module RefCountedSession {
  import opened Prelude

  /** Where a task is in `acquire`. */
  datatype Phase =
    | Outside
    | WantsIn      // waits for the lock to come in
    | Entering     // holds the lock, awaits `__aenter__`
    | Inside       // in the body of the context manager
    | WantsOut     // waits for the lock to leave
    | Exiting      // holds the lock, awaits `__aexit__`

  datatype Event =
    | Arrive(who: nat)
    | LockIn(who: nat)
    | Entered(who: nat)
    | EnterFails(who: nat)       // any exception, a cancellation included
    | CancelArrival(who: nat)    // cancelled while waiting to come in
    | Leave(who: nat)            // the body ends, normally or not
    | LockOut(who: nat)
    | Exited(who: nat)
    | ExitFails(who: nat)        // `__aexit__` raises
    | CancelRelease(who: nat)    // cancelled while waiting to leave

  datatype SessionCall = Enter | Exit

  datatype State = State(
    count: int,
    holder: Option<nat>,
    open: bool,                // `_sessions` is not None
    phases: seq<Phase>,
    // history
    calls: seq<SessionCall>,   // completed enters and exits of the session
    asserted: bool,            // an assert of the session has fired
    leaked: nat                // releases that were lost
  )

  function Start(n: nat): State {
    State(0, None, false, seq(n, _ => Outside), [], false, 0)
  }

  ghost predicate Shaped(s: State) {
    s.holder.Some? ==> s.holder.value < |s.phases|
  }

  ghost predicate Enabled(s: State, e: Event) {
    && Shaped(s) && e.who < |s.phases|
    && match e
       case Arrive(i) => s.phases[i] == Outside
       case LockIn(i) => s.phases[i] == WantsIn && s.holder == None
       case Entered(i) => s.phases[i] == Entering
       case EnterFails(i) => s.phases[i] == Entering
       case CancelArrival(i) => s.phases[i] == WantsIn
       case Leave(i) => s.phases[i] == Inside
       case LockOut(i) => s.phases[i] == WantsOut && s.holder == None
       case Exited(i) => s.phases[i] == Exiting
       case ExitFails(i) => s.phases[i] == Exiting
       case CancelRelease(i) => s.phases[i] == WantsOut
  }

  function Apply(s: State, e: Event): State
    requires Enabled(s, e)
  {
    match e
    case Arrive(i) => s.(phases := s.phases[i := WantsIn])
    case LockIn(i) =>
      var s1 := s.(count := s.count + 1);
      if s1.count == 1 then
        // `__aenter__` begins with `assert self._sessions is None`
        s1.(holder := Some(i), phases := s.phases[i := Entering], asserted := s.asserted || s.open)
      else s1.(phases := s.phases[i := Inside])
    case Entered(i) =>
      s.(holder := None, phases := s.phases[i := Inside], open := true, calls := s.calls + [Enter])
    case EnterFails(i) =>
      s.(holder := None, phases := s.phases[i := Outside], count := s.count - 1)
    case CancelArrival(i) => s.(phases := s.phases[i := Outside])
    case Leave(i) => s.(phases := s.phases[i := WantsOut])
    case LockOut(i) =>
      if s.count == 1 then
        // `__aexit__` begins with `assert self._sessions is not None`
        s.(holder := Some(i), phases := s.phases[i := Exiting], asserted := s.asserted || !s.open)
      else s.(count := s.count - 1, phases := s.phases[i := Outside])
    case Exited(i) =>
      s.(holder := None, phases := s.phases[i := Outside], count := s.count - 1, open := false,
         calls := s.calls + [Exit])
    case ExitFails(i) =>
      s.(holder := None, phases := s.phases[i := Outside], leaked := s.leaked + 1)
    case CancelRelease(i) =>
      s.(phases := s.phases[i := Outside], leaked := s.leaked + 1)
  }

  // ---- What every event keeps ----

  /** In this phase a reference is held. */
  predicate Holds(p: Phase) {
    p == Entering || p == Inside || p == WantsOut || p == Exiting
  }

  function Holders(phases: seq<Phase>): nat {
    if phases == [] then 0 else (if Holds(phases[0]) then 1 else 0) + Holders(phases[1..])
  }

  ghost predicate Inv(s: State) {
    && Shaped(s)
    && s.count == Holders(s.phases) + s.leaked
    && (forall i | 0 <= i < |s.phases| :: TaskInv(s, i))
    // the session is open exactly while somebody counts, but for the first one still entering
    && (s.open <==> s.count > 0 && !(s.holder.Some? && s.phases[s.holder.value] == Entering))
    && Alternates(s.calls, s.open)
    && !s.asserted
  }

  ghost predicate TaskInv(s: State, i: nat)
    requires Shaped(s) && i < |s.phases|
  {
    && (s.phases[i] == Entering || s.phases[i] == Exiting <==> s.holder == Some(i))
    && (s.phases[i] == Entering || s.phases[i] == Exiting ==> s.count == 1)
    && (s.phases[i] == Inside || s.phases[i] == WantsOut || s.phases[i] == Exiting ==> s.open)
  }

  /** Enter, exit, enter, ..., and an enter last exactly when the session is open. */
  ghost predicate Alternates(calls: seq<SessionCall>, open: bool) {
    && (forall k | 0 <= k < |calls| :: calls[k] == if k % 2 == 0 then Enter else Exit)
    && (|calls| % 2 == 1 <==> open)
  }

  lemma {:induction false} HoldersUpdate(phases: seq<Phase>, i: nat, p: Phase)
    requires i < |phases|
    ensures Holders(phases[i := p])
         == Holders(phases) - (if Holds(phases[i]) then 1 else 0) + (if Holds(p) then 1 else 0)
    ensures Holds(phases[i]) ==> Holders(phases) > 0
  {
    if i == 0 {
      assert phases[0 := p][1..] == phases[1..];
    } else {
      HoldersUpdate(phases[1..], i - 1, p);
      assert phases[i := p][1..] == phases[1..][i - 1 := p];
    }
  }

  /** A count of one leaves no room for a second holder. */
  lemma OnlyHolder(phases: seq<Phase>, i: nat, k: nat)
    requires i < |phases| && k < |phases| && i != k && Holds(phases[i]) && Holds(phases[k])
    ensures Holders(phases) >= 2
  {
    HoldersUpdate(phases, i, Outside);
    HoldersUpdate(phases[i := Outside], k, Outside);
  }

  lemma ApplyKeepsInv(s: State, e: Event)
    requires Inv(s) && Enabled(s, e)
    ensures Inv(Apply(s, e)) && |Apply(s, e).phases| == |s.phases|
  {
    var t := Apply(s, e);
    var i := e.who;
    HoldersUpdate(s.phases, i, t.phases[i]);
    assert TaskInv(s, i);
    if s.holder.Some? {
      assert TaskInv(s, s.holder.value);
    }
    forall k | 0 <= k < |t.phases| ensures TaskInv(t, k) {
      assert TaskInv(s, k);
      if k != i && Holds(s.phases[k]) && Holds(s.phases[i]) {
        OnlyHolder(s.phases, i, k);
      }
      if k != i && Holds(t.phases[k]) && Holds(t.phases[i]) {
        OnlyHolder(t.phases, i, k);
      }
    }
  }

  // ---- Runs ----

  ghost predicate Legal(s: State, run: seq<Event>)
    decreases |run|
  {
    run == [] || (Enabled(s, run[0]) && Legal(Apply(s, run[0]), run[1..]))
  }

  function After(s: State, run: seq<Event>): State
    requires Legal(s, run)
    decreases |run|
  {
    if run == [] then s else After(Apply(s, run[0]), run[1..])
  }

  /** Releases lost in a run: `__aexit__` raised, or the releasing `finally` was cancelled. */
  function Lost(run: seq<Event>): nat {
    if run == [] then 0 else (if run[0].ExitFails? || run[0].CancelRelease? then 1 else 0) + Lost(run[1..])
  }

  lemma StartInv(n: nat)
    ensures Inv(Start(n))
  {
    NobodyHolds(Start(n).phases);
  }

  lemma {:induction false} NobodyHolds(phases: seq<Phase>)
    requires forall i | 0 <= i < |phases| :: !Holds(phases[i])
    ensures Holders(phases) == 0
  {
    if phases == [] {
    } else {
      NobodyHolds(phases[1..]);
    }
  }

  lemma {:induction false} RunKeepsInv(s: State, run: seq<Event>)
    requires Inv(s) && Legal(s, run)
    ensures Inv(After(s, run)) && |After(s, run).phases| == |s.phases|
    ensures After(s, run).leaked == s.leaked + Lost(run)
    decreases |run|
  {
    if run == [] {
    } else {
      ApplyKeepsInv(s, run[0]);
      RunKeepsInv(Apply(s, run[0]), run[1..]);
    }
  }

  lemma EveryoneOut(s: State)
    requires Inv(s) && forall i | 0 <= i < |s.phases| :: s.phases[i] == Outside
    ensures (s.count == 0 && !s.open) <==> s.leaked == 0
  {
    NobodyHolds(s.phases);
    if s.holder.Some? {
      assert TaskInv(s, s.holder.value);
    }
  }

  /** In every interleaving of any number of tasks, with failing entries, failing exits and
      cancellations anywhere: the asserts of the session never fire, enters and exits strictly
      alternate, and the session is open whenever a task is in the body. Once every task is out,
      the count is zero and the session closed exactly when no release was lost. */
  lemma SessionDiscipline(n: nat, run: seq<Event>)
    requires Legal(Start(n), run)
    ensures var t := After(Start(n), run);
            && |t.phases| == n && !t.asserted && Alternates(t.calls, t.open)
            && (forall i | 0 <= i < n :: t.phases[i] == Inside ==> t.open)
            && t.count == Holders(t.phases) + Lost(run)
            && ((forall i | 0 <= i < n :: t.phases[i] == Outside) ==>
                  ((t.count == 0 && !t.open) <==> Lost(run) == 0))
  {
    hide Legal, After, Lost, Apply;
    StartInv(n);
    RunKeepsInv(Start(n), run);
    var t := After(Start(n), run);
    forall i | 0 <= i < n ensures t.phases[i] == Inside ==> t.open {
      assert TaskInv(t, i);
    }
    if forall i | 0 <= i < n :: t.phases[i] == Outside {
      EveryoneOut(t);
    }
  }

  /** One lost release is enough to leave a session open that nobody uses: the lone user is
      cancelled while it waits for the lock to leave. */
  lemma LostReleaseLeavesOpen() returns (run: seq<Event>)
    ensures Legal(Start(1), run) && Lost(run) == 1
    ensures var t := After(Start(1), run);
            t.phases == [Outside] && t.count == 1 && t.open
  {
    var s1 := Apply(Start(1), Arrive(0));
    var s2 := Apply(s1, LockIn(0));
    var s3 := Apply(s2, Entered(0));
    var s4 := Apply(s3, Leave(0));
    var s5 := Apply(s4, CancelRelease(0));
    assert s5.phases == [Outside] && s5.count == 1 && s5.open;
    hide Apply, Enabled;
    run := PrependEvent(s4, CancelRelease(0), []);
    run := PrependEvent(s3, Leave(0), run);
    run := PrependEvent(s2, Entered(0), run);
    run := PrependEvent(s1, LockIn(0), run);
    run := PrependEvent(Start(1), Arrive(0), run);
  }

  lemma PrependEvent(s: State, e: Event, rest: seq<Event>) returns (run: seq<Event>)
    requires Enabled(s, e) && Legal(Apply(s, e), rest)
    ensures Legal(s, run) && After(s, run) == After(Apply(s, e), rest)
    ensures Lost(run) == Lost(rest) + if e.ExitFails? || e.CancelRelease? then 1 else 0
  {
    hide Apply, Enabled;
    run := [e] + rest;
    assert run[1..] == rest;
  }

  /** A failed entry leaves no reference behind, so the next user tries to enter again. */
  lemma FailedEntryRetries(s: State, i: nat, k: nat)
    requires Inv(s) && Enabled(s, EnterFails(i)) && k < |s.phases| && k != i && s.phases[k] == WantsIn
    ensures var t := Apply(s, EnterFails(i));
            && t.count == 0 && !t.open && Enabled(t, LockIn(k))
            && Apply(t, LockIn(k)).phases[k] == Entering && !Apply(t, LockIn(k)).asserted
  {
    assert TaskInv(s, i) && TaskInv(s, k);
  }

  // ---- The session and its mixin ----

  /** The asserted enter/exit discipline of the session. */
  class AIOHTTPSession {
    var sessions: Option<map<string, nat>>   // `_sessions`; the entries stand for the pools in it

    constructor ()
      ensures sessions == None
    {
      sessions := None;
    }

    method Enter()
      requires sessions == None
      modifies this
      ensures sessions == Some(map[])
    {
      sessions := Some(map[]);
    }

    method Exit()
      requires sessions.Some?
      modifies this
      ensures sessions == None
    {
      sessions := Some(map[]);
      sessions := None;
    }
  }

  class RefCountedSessionMixin {
    const session: AIOHTTPSession
    var refCount: int
    var lockHolder: Option<nat>
    ghost var phases: seq<Phase>
    ghost var calls: seq<SessionCall>
    ghost var leaked: nat

    ghost function View(): State
      reads this, session
    {
      State(refCount, lockHolder, session.sessions.Some?, phases, calls, false, leaked)
    }

    constructor (n: nat)
      ensures View() == Start(n) && fresh(session)
    {
      session := new AIOHTTPSession();
      refCount := 0;
      lockHolder := None;
      phases := seq(n, _ => Outside);
      calls := [];
      leaked := 0;
    }

    /** From getting the lock on the way in to `__aenter__`, or into the body. */
    method LockIn(i: nat) returns (mustEnter: bool)
      requires Inv(View()) && Enabled(View(), Event.LockIn(i))
      modifies this
      ensures View() == Apply(old(View()), Event.LockIn(i)) && Inv(View())
      ensures mustEnter <==> phases[i] == Entering
      ensures mustEnter ==> session.sessions == None
    {
      ApplyKeepsInv(View(), Event.LockIn(i));
      lockHolder := Some(i);
      refCount := refCount + 1;
      mustEnter := refCount == 1;
      if mustEnter {
        phases := phases[i := Entering];
      } else {
        lockHolder := None;
        phases := phases[i := Inside];
      }
    }

    /** `__aenter__` succeeds; its assert holds. */
    method Entered(i: nat)
      requires Inv(View()) && Enabled(View(), Event.Entered(i))
      modifies this, session
      ensures View() == Apply(old(View()), Event.Entered(i)) && Inv(View())
    {
      ApplyKeepsInv(View(), Event.Entered(i));
      assert TaskInv(View(), i);
      session.Enter();
      calls := calls + [SessionCall.Enter];
      lockHolder := None;
      phases := phases[i := Inside];
    }

    /** `__aenter__` raises: the reference is given back. */
    method EnterFails(i: nat)
      requires Inv(View()) && Enabled(View(), Event.EnterFails(i))
      modifies this
      ensures View() == Apply(old(View()), Event.EnterFails(i)) && Inv(View())
    {
      ApplyKeepsInv(View(), Event.EnterFails(i));
      refCount := refCount - 1;
      lockHolder := None;
      phases := phases[i := Outside];
    }

    /** From getting the lock on the way out to `__aexit__`, or out. */
    method LockOut(i: nat) returns (mustExit: bool)
      requires Inv(View()) && Enabled(View(), Event.LockOut(i))
      modifies this
      ensures View() == Apply(old(View()), Event.LockOut(i)) && Inv(View())
      ensures mustExit <==> phases[i] == Exiting
      ensures mustExit ==> session.sessions.Some?
    {
      ApplyKeepsInv(View(), Event.LockOut(i));
      assert TaskInv(View(), i);
      lockHolder := Some(i);
      mustExit := refCount == 1;
      if mustExit {
        phases := phases[i := Exiting];
      } else {
        refCount := refCount - 1;
        lockHolder := None;
        phases := phases[i := Outside];
      }
    }

    /** `__aexit__` succeeds; its assert holds. */
    method Exited(i: nat)
      requires Inv(View()) && Enabled(View(), Event.Exited(i))
      modifies this, session
      ensures View() == Apply(old(View()), Event.Exited(i)) && Inv(View())
    {
      ApplyKeepsInv(View(), Event.Exited(i));
      assert TaskInv(View(), i);
      session.Exit();
      calls := calls + [SessionCall.Exit];
      refCount := refCount - 1;
      lockHolder := None;
      phases := phases[i := Outside];
    }

    /** `__aexit__` raises: the lock is free again, but the reference stays and so does the session. */
    method ExitFails(i: nat)
      requires Inv(View()) && Enabled(View(), Event.ExitFails(i))
      modifies this
      ensures View() == Apply(old(View()), Event.ExitFails(i)) && Inv(View())
    {
      ApplyKeepsInv(View(), Event.ExitFails(i));
      lockHolder := None;
      phases := phases[i := Outside];
      leaked := leaked + 1;
    }
  }
}

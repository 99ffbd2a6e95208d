/**
 The action queue of src/common/ActionManager.cc: producers push requests under a mutex, one
 loop pops them and hands them to its listener.

 An interleaving is a schedule of events, each of them one region of code under the mutex. The
 state machine below is what any schedule does; the class keeps the source's two nested loops
 and is proved to do the same for every schedule.
 */
module ActionManagers {

  const ACTION_TIMER := "ACTION_TIMER"
  const ACTION_FINALIZE := "ACTION_FINALIZE"

  datatype ActionRequest = ActionRequest(name: string, args: int)

  datatype Event =
    | Trigger(request: ActionRequest) // a producer pushes and signals
    | Enter                           // the loop takes the mutex at the top of its body
    | Wakeup                          // the wait returns, signalled or for no reason
    | Timeout                         // the timed wait returns ETIMEDOUT

  /** Where the loop is: outside the mutex (perhaps in `do_action`), in the wait, or ended. */
  datatype Place = Outside | Waiting | Stopped

  datatype LoopState = LoopState(
    queue: seq<ActionRequest>, place: Place,
    pushed: seq<ActionRequest>, dispatched: seq<ActionRequest>)

  function Push(s: LoopState, r: ActionRequest): LoopState {
    s.(queue := s.queue + [r], pushed := s.pushed + [r])
  }

  /** The end of the locked region: pop the front, unlock, call the listener, look for FINALIZE. */
  function Pop(s: LoopState): LoopState
    requires s.queue != []
  {
    var r := s.queue[0];
    LoopState(s.queue[1..], if r.name == ACTION_FINALIZE then Stopped else Outside, s.pushed, s.dispatched + [r])
  }

  /** `timer` is the request for ACTION_TIMER when the loop runs with a timer. */
  datatype Timer = NoTimer | Every(request: ActionRequest)

  function Next(s: LoopState, e: Event, timer: Timer): LoopState {
    match e
    case Trigger(r) => Push(s, r)
    case Enter =>
      if s.place != Outside then s
      else if s.queue == [] then s.(place := Waiting)
      else Pop(s)
    case Wakeup =>
      if s.place == Waiting && s.queue != [] then Pop(s) else s
    case Timeout =>
      if s.place == Waiting && timer.Every? then Pop(Push(s, timer.request)) else s
  }

  function Run(s: LoopState, es: seq<Event>, timer: Timer): LoopState {
    if es == [] then s else Next(Run(s, es[..|es| - 1], timer), es[|es| - 1], timer)
  }

  lemma RunNone(s: LoopState, es: seq<Event>, timer: Timer)
    ensures Run(s, es[..0], timer) == s
  {
  }

  lemma RunOne(s: LoopState, es: seq<Event>, t: nat, timer: Timer)
    requires t < |es|
    ensures Run(s, es[..t + 1], timer) == Next(Run(s, es[..t], timer), es[t], timer)
  {
    assert es[..t + 1][..t] == es[..t];
  }

  const START := LoopState([], Outside, [], [])

  ghost predicate Inv(s: LoopState) {
    && s.dispatched + s.queue == s.pushed
    && (forall i :: 0 <= i < |s.dispatched| - 1 ==> s.dispatched[i].name != ACTION_FINALIZE)
    && (s.place == Stopped <==> s.dispatched != [] && s.dispatched[|s.dispatched| - 1].name == ACTION_FINALIZE)
  }

  lemma PushKeepsInv(s: LoopState, r: ActionRequest)
    requires Inv(s)
    ensures Inv(Push(s, r))
  {
    assert s.dispatched + (s.queue + [r]) == (s.dispatched + s.queue) + [r];
  }

  lemma PopKeepsInv(s: LoopState)
    requires Inv(s) && s.place != Stopped && s.queue != []
    ensures Inv(Pop(s))
  {
    var first, t := s.queue[0], Pop(s);
    assert s.queue == [first] + s.queue[1..];
    assert t.dispatched + t.queue == s.dispatched + s.queue;
    assert t.dispatched[..|s.dispatched|] == s.dispatched && t.dispatched[|s.dispatched|] == first;
  }

  lemma NextKeepsInv(s: LoopState, e: Event, timer: Timer)
    requires Inv(s)
    ensures Inv(Next(s, e, timer))
  {
    hide Push, Pop;
    match e
    case Trigger(r) => PushKeepsInv(s, r);
    case Timeout =>
      if s.place == Waiting && timer.Every? {
        TimeoutKeepsInv(s, timer.request);
      }
    case _ =>
      if s.place != Stopped && s.queue != [] {
        PopKeepsInv(s);
      }
  }

  lemma TimeoutKeepsInv(s: LoopState, r: ActionRequest)
    requires Inv(s) && s.place == Waiting
    ensures Inv(Pop(Push(s, r)))
  {
    PushKeepsInv(s, r);
    PopKeepsInv(Push(s, r));
  }

  /**
   Every interleaving: what was dispatched and then what is queued are all pushes in their
   order, and nothing is dispatched after the first FINALIZE.
   */
  lemma {:induction false} RunKeepsInv(es: seq<Event>, timer: Timer)
    ensures Inv(Run(START, es, timer))
  {
    if es != [] {
      RunKeepsInv(es[..|es| - 1], timer);
      NextKeepsInv(Run(START, es[..|es| - 1], timer), es[|es| - 1], timer);
    }
  }

  lemma {:induction false} StoppedForGood(s: LoopState, es: seq<Event>, timer: Timer)
    requires s.place == Stopped
    ensures Run(s, es, timer).place == Stopped && Run(s, es, timer).dispatched == s.dispatched
  {
    if es != [] { StoppedForGood(s, es[..|es| - 1], timer); }
  }

  // ---------------------------------------------------------------------------
  // Progress
  // ---------------------------------------------------------------------------

  /** The requests up to and including the first FINALIZE, or all of them if there is none. */
  function UpToFinalize(q: seq<ActionRequest>): seq<ActionRequest> {
    if q == [] then []
    else if q[0].name == ACTION_FINALIZE then [q[0]]
    else [q[0]] + UpToFinalize(q[1..])
  }

  /** The waiting loop is woken and the running loop comes round, `n` times. */
  function Rounds(n: nat): seq<Event> {
    if n == 0 then [] else Rounds(n - 1) + [Wakeup, Enter]
  }

  lemma RunMore(s: LoopState, es: seq<Event>, e: Event, timer: Timer)
    ensures Run(s, es + [e], timer) == Next(Run(s, es, timer), e, timer)
  {
    assert (es + [e])[..|es|] == es;
  }

  lemma {:induction false} RunJoin(s: LoopState, first: seq<Event>, rest: seq<Event>, timer: Timer)
    ensures Run(s, first + rest, timer) == Run(Run(s, first, timer), rest, timer)
  {
    if rest == [] {
      assert first + rest == first;
    } else {
      var init, last := rest[..|rest| - 1], rest[|rest| - 1];
      assert first + rest == (first + init) + [last];
      RunMore(s, first + init, last, timer);
      RunJoin(s, first, init, timer);
    }
  }

  lemma RoundsOne(s: LoopState, n: nat, timer: Timer)
    ensures Run(s, Rounds(n + 1), timer) == Next(Next(Run(s, Rounds(n), timer), Wakeup, timer), Enter, timer)
  {
    assert Rounds(n + 1) == (Rounds(n) + [Wakeup]) + [Enter];
    RunMore(s, Rounds(n) + [Wakeup], Enter, timer);
    RunMore(s, Rounds(n), Wakeup, timer);
  }

  /** A round takes something off a queue that is not empty, unless the loop has ended, and pushes nothing. */
  lemma RoundPops(s: LoopState, timer: Timer)
    ensures var t := Next(Next(s, Wakeup, timer), Enter, timer);
            && t.pushed == s.pushed
            && (s.place == Stopped ==> t.place == Stopped)
            && |t.queue| <= |s.queue|
            && (s.queue != [] && t.place != Stopped ==> |t.queue| < |s.queue|)
  {
  }

  lemma {:induction false} RoundsEmpty(s: LoopState, n: nat, timer: Timer)
    ensures var t := Run(s, Rounds(n), timer);
            t.pushed == s.pushed && (t.place == Stopped || |t.queue| <= (if n < |s.queue| then |s.queue| - n else 0))
  {
    if n > 0 {
      RoundsEmpty(s, n - 1, timer);
      RoundsOne(s, n - 1, timer);
      RoundPops(Run(s, Rounds(n - 1), timer), timer);
      hide Next, Run;
    }
  }

  lemma {:induction false} FirstFinalize(done: seq<ActionRequest>, rest: seq<ActionRequest>)
    requires forall i :: 0 <= i < |done| - 1 ==> done[i].name != ACTION_FINALIZE
    requires rest == [] || (done != [] && done[|done| - 1].name == ACTION_FINALIZE)
    ensures UpToFinalize(done + rest) == done
  {
    if done == [] {
      assert done + rest == [];
    } else {
      assert (done + rest)[0] == done[0] && (done + rest)[1..] == done[1..] + rest;
      if |done| > 1 || done[0].name != ACTION_FINALIZE {
        FirstFinalize(done[1..], rest);
      }
    }
  }

  /**
   The loop gets through: after any schedule, as many rounds as there are queued requests dispatch
   everything that was pushed, in order, up to and including the first FINALIZE.
   */
  lemma Drains(es: seq<Event>, timer: Timer)
    ensures var s := Run(START, es, timer);
            var t := Run(START, es + Rounds(|s.queue|), timer);
            t.pushed == s.pushed && t.dispatched == UpToFinalize(s.pushed)
  {
    hide Next, Run, Rounds;
    var s := Run(START, es, timer);
    RunJoin(START, es, Rounds(|s.queue|), timer);
    RoundsEmpty(s, |s.queue|, timer);
    RunKeepsInv(es + Rounds(|s.queue|), timer);
    var t := Run(START, es + Rounds(|s.queue|), timer);
    FirstFinalize(t.dispatched, t.queue);
  }

  /** A time-out in the wait dispatches a request at once: the oldest one, which is the timer's if none came before. */
  lemma TimeoutDispatches(s: LoopState, request: ActionRequest)
    requires s.place == Waiting
    ensures var t := Next(s, Timeout, Every(request));
            && t.pushed == s.pushed + [request]
            && t.dispatched == s.dispatched + [if s.queue == [] then request else s.queue[0]]
            && t.dispatched + t.queue == s.dispatched + s.queue + [request]
  {
    assert s.queue + [request] == [(s.queue + [request])[0]] + (s.queue + [request])[1..];
  }

  function Timers(q: seq<ActionRequest>): nat {
    if q == [] then 0 else (if q[0].name == ACTION_TIMER then 1 else 0) + Timers(q[1..])
  }

  lemma {:induction false} TimersJoin(p: seq<ActionRequest>, q: seq<ActionRequest>)
    ensures Timers(p + q) == Timers(p) + Timers(q)
  {
    if p == [] {
      assert p + q == q;
    } else {
      assert (p + q)[1..] == p[1..] + q;
      TimersJoin(p[1..], q);
    }
  }

  predicate NoTimerPushed(es: seq<Event>) {
    forall i :: 0 <= i < |es| && es[i].Trigger? ==> es[i].request.name != ACTION_TIMER
  }

  /**
   If producers never push ACTION_TIMER, at most one timer request is queued at any time, and
   none while the loop waits, even if a request is pushed between the timeout and the push of
   the timer request.
   */
  lemma {:induction false} OneTimer(es: seq<Event>, timer: Timer)
    requires NoTimerPushed(es)
    ensures var s := Run(START, es, timer);
            Timers(s.queue) <= 1 && (s.place == Waiting ==> Timers(s.queue) == 0)
  {
    if es != [] {
      OneTimer(es[..|es| - 1], timer);
      var s, e := Run(START, es[..|es| - 1], timer), es[|es| - 1];
      match e
      case Trigger(r) => TimersJoin(s.queue, [r]);
      case Enter =>
      case Wakeup =>
      case Timeout =>
        if s.place == Waiting && timer.Every? {
          TimersJoin(s.queue, [timer.request]);
        }
    }
  }

  // ---------------------------------------------------------------------------
  // The queue object
  // ---------------------------------------------------------------------------

  class ActionManager {
    var actions: seq<ActionRequest>
    ghost var pushed: seq<ActionRequest>
    ghost var dispatched: seq<ActionRequest>

    ghost function State(place: Place): LoopState
      reads this
    {
      LoopState(actions, place, pushed, dispatched)
    }

    constructor ()
      ensures State(Outside) == START
    {
      actions, pushed, dispatched := [], [], [];
    }

    method TriggerAction(action: string, args: int)
      modifies this
      ensures forall p :: State(p) == Push(old(State(p)), ActionRequest(action, args))
    {
      var request := ActionRequest(action, args);
      actions := actions + [request];
      pushed := pushed + [request];
    }

    /** `actions.front()`, `pop()` and the call of the listener. */
    method PopAndDispatch() returns (action: ActionRequest)
      requires actions != []
      modifies this
      ensures action == old(actions)[0] && actions == old(actions)[1..]
      ensures pushed == old(pushed) && dispatched == old(dispatched) + [action]
    {
      action := actions[0];
      actions := actions[1..];
      dispatched := dispatched + [action];
    }

    /**
     The loop under a schedule: it follows the state machine event by event and returns only
     when it has dispatched FINALIZE or the schedule is over, `t` events having happened.
     */
    method Loop(timer: Timer, schedule: seq<Event>) returns (t: nat, ghost place: Place)
      modifies this
      ensures t <= |schedule| && (place == Stopped || t == |schedule|)
      ensures State(place) == Run(old(State(Outside)), schedule[..t], timer)
    {
      hide Run;
      ghost var s0 := State(Outside);
      RunNone(s0, schedule, timer);
      var finalize := false;
      t, place := 0, Outside;
      while !finalize && t < |schedule|
        invariant t <= |schedule| && place == (if finalize then Stopped else Outside)
        invariant State(place) == Run(s0, schedule[..t], timer)
        decreases |schedule| - t
      {
        RunOne(s0, schedule, t, timer);
        var e := schedule[t];
        t := t + 1;
        if e.Trigger? {
          TriggerAction(e.request.name, e.request.args);
        }
        if e != Enter {
          continue;
        }
        var empty := actions == [];
        if empty { place := Waiting; }
        while empty && t < |schedule|
          invariant t <= |schedule|
          invariant empty ==> place == Waiting && State(Waiting) == Run(s0, schedule[..t], timer)
          invariant !empty ==> actions != [] && Pop(State(place)) == Run(s0, schedule[..t], timer)
          decreases |schedule| - t
        {
          RunOne(s0, schedule, t, timer);
          var w := schedule[t];
          t := t + 1;
          match w
          case Trigger(r) =>
            TriggerAction(r.name, r.args);
          case Enter =>
          case Wakeup =>
            empty := actions == [];
          case Timeout =>
            if timer.Every? {
              TriggerAction(timer.request.name, timer.request.args);
              empty := false;
            }
        }
        if empty {
          return;
        }
        var action := PopAndDispatch();
        finalize := action.name == ACTION_FINALIZE;
        place := if finalize then Stopped else Outside;
      }
    }
  }
}

/**
 The Auth Manager (src/authm/AuthManager.cc, include/AuthManager.h): requests wait in a map
 until the driver answers, a timer tick finds them too old, or their owner discards them.

 The manager as a value comes first, with one step for each region of code under its mutex, and
 the properties of every interleaving; then the objects, whose methods do those steps.
 */
module AuthManagers {
  import opened AclRules
  import Acl = AclManagers
  import opened Wrappers

  /** A part of a message; the source joins the parts with "; ". */
  datatype Note = Text(text: string) | Denied(op: Operation, t: ObjectType, oid: Int32)

  datatype Item = Item(op: Operation, perms: ObjectAuth, auth: bool)

  /**
   A request. `id` is -1 until the manager registers it, `notified` counts the calls of
   `notify`, `submitted` says whether it has been triggered, and `hollow` whether it has been
   registered for authorization without any item to authorize.
   */
  datatype Req = Req(
    id: int, auths: seq<Item>, timeOut: int, result: bool, timedOut: bool, message: seq<Note>,
    notified: nat, submitted: bool, hollow: bool)

  /** The pending requests by id, the next id, and all requests there are; `H` identifies a request. */
  datatype AuthState<!H> = AuthState(pending: map<int, H>, nextId: int, reqs: map<H, Req>)

  datatype Event<H> =
    | Authenticate(r: H, driver: bool)
    | Authorize(r: H, driver: bool)
    | Reply(id: int, result: bool, message: string)
    | Tick(now: int)
    | Discard(id: int)
    | Wait(r: H, until: int)

  const NO_DRIVER := [Text("Could not find Authorization driver")]
  const NO_AUTHS := [Text("Empty authorization string")]
  const TIMED_OUT := [Text("Auth request timeout")]

  function Refuse(q: Req, message: seq<Note>): Req {
    q.(result := false, message := message, notified := q.notified + 1)
  }

  function Answer(q: Req, result: bool, message: string): Req {
    q.(result := result, message := if message == "-" then q.message else q.message + [Text(message)],
       notified := q.notified + 1)
  }

  function Expire(q: Req): Req {
    Refuse(q, TIMED_OUT).(timedOut := true)
  }

  function Register(q: Req, id: int): Req {
    q.(submitted := true, id := id)
  }

  /** An authorization registered under `id`: one without items is refused on the spot. */
  function RegisterAuthorization(q: Req, id: int): Req {
    if q.auths == [] then Refuse(Register(q, id), NO_AUTHS).(hollow := true) else Register(q, id)
  }

  /** No time-out is set while it is 0; it has passed when it is earlier than now. */
  predicate Expired(q: Req, now: int) {
    q.timeOut != 0 && now > q.timeOut
  }

  /** The pending request of this id has passed its time-out. */
  ghost predicate Late<H>(s: AuthState<H>, id: int, now: int) {
    id in s.pending && s.pending[id] in s.reqs && Expired(s.reqs[s.pending[id]], now)
  }

  /** The request is in the map under the id it was given. */
  ghost predicate Pending<H>(s: AuthState<H>, r: H) {
    r in s.reqs && s.reqs[r].id in s.pending && s.pending[s.reqs[r].id] == r
  }

  ghost function Step<H>(s: AuthState<H>, e: Event<H>): AuthState<H> {
    match e
    case Authenticate(r, driver) =>
      if r !in s.reqs then s
      else if !driver then s.(reqs := s.reqs[r := Refuse(s.reqs[r].(submitted := true), NO_DRIVER)])
      else AuthState(s.pending[s.nextId := r], s.nextId + 1, s.reqs[r := Register(s.reqs[r], s.nextId)])
    case Authorize(r, driver) =>
      if r !in s.reqs then s
      else if !driver then s.(reqs := s.reqs[r := Refuse(s.reqs[r].(submitted := true), NO_DRIVER)])
      else AuthState(s.pending[s.nextId := r], s.nextId + 1, s.reqs[r := RegisterAuthorization(s.reqs[r], s.nextId)])
    case Reply(id, result, message) =>
      if id !in s.pending || s.pending[id] !in s.reqs then s
      else
        var r := s.pending[id];
        AuthState(s.pending - {id}, s.nextId, s.reqs[r := Answer(s.reqs[r], result, message)])
    case Tick(now) =>
      AuthState(
        map id | id in s.pending && !Late(s, id, now) :: s.pending[id],
        s.nextId,
        map r | r in s.reqs :: if Pending(s, r) && Expired(s.reqs[r], now) then Expire(s.reqs[r]) else s.reqs[r])
    case Discard(id) => s.(pending := s.pending - {id})
    case Wait(r, until) =>
      if r !in s.reqs then s else s.(reqs := s.reqs[r := s.reqs[r].(timeOut := until)])
  }

  ghost function Run<H>(s: AuthState<H>, es: seq<Event<H>>): AuthState<H>
    decreases |es|
  {
    if es == [] then s else Run(Step(s, es[0]), es[1..])
  }

  /** A request is triggered once: it is new when it comes. */
  ghost predicate Fresh<H>(s: AuthState<H>, e: Event<H>) {
    e.Authenticate? || e.Authorize? ==> e.r in s.reqs ==> !s.reqs[e.r].submitted
  }

  ghost predicate FreshRun<H>(s: AuthState<H>, es: seq<Event<H>>)
    decreases |es|
  {
    es == [] || (Fresh(s, es[0]) && FreshRun(Step(s, es[0]), es[1..]))
  }

  /** Notifications so far and one to come if the request is pending: at most one, two for a hollow one. */
  ghost predicate Counted<H>(s: AuthState<H>, r: H)
    requires r in s.reqs
  {
    s.reqs[r].notified + (if Pending(s, r) then 1 else 0) <= 1 + if s.reqs[r].hollow then 1 else 0
  }

  ghost predicate Inv<H>(s: AuthState<H>) {
    && 0 <= s.nextId
    && (forall id :: id in s.pending ==> id >= 0 && s.pending[id] in s.reqs && s.reqs[s.pending[id]].id == id)
    && (forall r :: r in s.reqs ==> -1 <= s.reqs[r].id < s.nextId && Counted(s, r))
    && (forall r :: r in s.reqs && !s.reqs[r].submitted ==>
          s.reqs[r].id == -1 && s.reqs[r].notified == 0 && !s.reqs[r].hollow)
    && (forall r, p :: r in s.reqs && p in s.reqs && s.reqs[r].id == s.reqs[p].id && s.reqs[r].id >= 0 ==> r == p)
  }

  lemma RegisterKeepsInv<H>(s: AuthState<H>, r: H, q: Req)
    requires Inv(s) && r in s.reqs && !s.reqs[r].submitted
    requires q.submitted && q.id == s.nextId && q.notified == if q.hollow then 1 else 0
    ensures Inv(AuthState(s.pending[s.nextId := r], s.nextId + 1, s.reqs[r := q]))
  {
    var t := AuthState(s.pending[s.nextId := r], s.nextId + 1, s.reqs[r := q]);
    forall p | p in t.reqs ensures Counted(t, p) {
      assert Counted(s, p);
    }
  }

  lemma EnterKeepsInv<H>(s: AuthState<H>, r: H, q: Req)
    requires Inv(s) && r !in s.reqs
    requires q.id == -1 && q.notified == 0 && !q.submitted && !q.hollow
    ensures Inv(s.(reqs := s.reqs[r := q]))
  {
    var t := s.(reqs := s.reqs[r := q]);
    forall p | p in t.reqs ensures Counted(t, p) {
      if p != r { assert Counted(s, p); }
    }
  }

  lemma RefuseKeepsInv<H>(s: AuthState<H>, r: H, q: Req)
    requires Inv(s) && r in s.reqs && !s.reqs[r].submitted
    requires q.submitted && q.id == -1 && q.notified == 1 && !q.hollow
    ensures Inv(s.(reqs := s.reqs[r := q]))
  {
    var t := s.(reqs := s.reqs[r := q]);
    forall p | p in t.reqs ensures Counted(t, p) {
      assert Counted(s, p);
      assert p != r ==> (Pending(t, p) <==> Pending(s, p));
      assert !Pending(t, r);
    }
    hide Counted, Pending;
  }

  lemma RemoveKeepsInv<H>(s: AuthState<H>, t: AuthState<H>)
    requires Inv(s)
    requires t.nextId == s.nextId && t.reqs.Keys == s.reqs.Keys
    requires forall id :: id in t.pending ==> id in s.pending && t.pending[id] == s.pending[id]
    requires forall r :: r in s.reqs ==>
               && t.reqs[r].id == s.reqs[r].id && t.reqs[r].submitted == s.reqs[r].submitted
               && t.reqs[r].hollow == s.reqs[r].hollow
               && (|| t.reqs[r].notified == s.reqs[r].notified
                   || (t.reqs[r].notified == s.reqs[r].notified + 1 && Pending(s, r) && !Pending(t, r)))
    ensures Inv(t)
  {
    forall p | p in t.reqs ensures Counted(t, p) && -1 <= t.reqs[p].id < t.nextId {
      assert p in s.reqs && Counted(s, p);
    }
    forall p | p in t.reqs && !t.reqs[p].submitted
      ensures t.reqs[p].id == -1 && t.reqs[p].notified == 0 && !t.reqs[p].hollow
    {
      assert p in s.reqs && !s.reqs[p].submitted;
    }
  }

  lemma StepKeepsInv<H>(s: AuthState<H>, e: Event<H>)
    requires Inv(s) && Fresh(s, e)
    ensures Inv(Step(s, e)) && s.nextId <= Step(s, e).nextId
  {
    hide Inv, Counted;
    match e
    case Authenticate(r, driver) =>
      if r in s.reqs {
        NewIsClean(s, r);
        RefuseKeepsInv(s, r, Refuse(s.reqs[r].(submitted := true), NO_DRIVER));
        RegisterKeepsInv(s, r, Register(s.reqs[r], s.nextId));
      }
    case Authorize(r, driver) =>
      if r in s.reqs {
        NewIsClean(s, r);
        RefuseKeepsInv(s, r, Refuse(s.reqs[r].(submitted := true), NO_DRIVER));
        RegisterKeepsInv(s, r, RegisterAuthorization(s.reqs[r], s.nextId));
      }
    case Reply(id, result, message) =>
      if id in s.pending {
        PendingIds(s);
        RemoveKeepsInv(s, Step(s, e));
      }
    case Tick(now) =>
      PendingIds(s);
      RemoveKeepsInv(s, Step(s, e));
    case Discard(id) =>
      RemoveKeepsInv(s, Step(s, e));
    case Wait(r, until) =>
      if r in s.reqs {
        RemoveKeepsInv(s, Step(s, e));
      }
  }

  lemma NewIsClean<H>(s: AuthState<H>, r: H)
    requires Inv(s) && r in s.reqs && !s.reqs[r].submitted
    ensures s.reqs[r].notified == 0 && !s.reqs[r].hollow && s.reqs[r].id == -1
  {
  }

  lemma PendingIds<H>(s: AuthState<H>)
    requires Inv(s)
    ensures 0 <= s.nextId
    ensures forall id :: id in s.pending ==>
              0 <= id < s.nextId && s.pending[id] in s.reqs && s.reqs[s.pending[id]].id == id
  {
  }

  /** Any interleaving of triggers, replies, ticks, discards and waits. */
  lemma {:induction false} RunKeepsInv<H>(s: AuthState<H>, es: seq<Event<H>>)
    requires Inv(s) && FreshRun(s, es)
    ensures Inv(Run(s, es))
    decreases |es|
  {
    if es != [] {
      StepKeepsInv(s, es[0]);
      RunKeepsInv(Step(s, es[0]), es[1..]);
    }
  }

  lemma StepHollow<H>(s: AuthState<H>, e: Event<H>, r: H)
    requires r in s.reqs
    ensures var t := Step(s, e);
            && r in t.reqs && t.reqs[r].auths == s.reqs[r].auths
            && (t.reqs[r].hollow <==> s.reqs[r].hollow || (e == Authorize(r, true) && s.reqs[r].auths == []))
  {
  }

  /** A request becomes hollow in a run exactly if it has no items and a driver is found to authorize it. */
  lemma {:induction false} HollowExactly<H>(s: AuthState<H>, es: seq<Event<H>>, r: H)
    requires r in s.reqs
    ensures var t := Run(s, es);
            && r in t.reqs
            && (t.reqs[r].hollow <==> s.reqs[r].hollow || (s.reqs[r].auths == [] && Authorize(r, true) in es))
    decreases |es|
  {
    if es != [] {
      StepHollow(s, es[0], r);
      HollowExactly(Step(s, es[0]), es[1..], r);
      hide Step;
      assert es == [es[0]] + es[1..];
    }
  }

  /**
   In every interleaving a request is notified at most once, or at most twice if it comes to be
   authorized without items; ids are its own.
   */
  lemma NotifiedOnce<H>(s: AuthState<H>, es: seq<Event<H>>, r: H, p: H)
    requires Inv(s) && FreshRun(s, es)
    requires r in s.reqs && !s.reqs[r].hollow && p in s.reqs
    ensures var t := Run(s, es);
            && r in t.reqs && p in t.reqs
            && t.reqs[r].notified <= (if s.reqs[r].auths == [] && Authorize(r, true) in es then 2 else 1)
            && (t.reqs[r].notified == 1 && !(s.reqs[r].auths == [] && Authorize(r, true) in es) ==> !Pending(t, r))
            && (r != p && t.reqs[r].id >= 0 ==> t.reqs[r].id != t.reqs[p].id)
  {
    RunKeepsInv(s, es);
    HollowExactly(s, es, r);
    HollowExactly(s, es, p);
    assert Counted(Run(s, es), r);
  }

  /** Runs whose authorizations all have items notify nobody twice. */
  lemma NobodyNotifiedTwice<H>(s: AuthState<H>, es: seq<Event<H>>)
    requires Inv(s) && FreshRun(s, es)
    requires forall r :: r in s.reqs ==> !s.reqs[r].hollow && (Authorize(r, true) in es ==> s.reqs[r].auths != [])
    ensures forall r :: r in s.reqs ==> r in Run(s, es).reqs && Run(s, es).reqs[r].notified <= 1
  {
    forall r | r in s.reqs ensures r in Run(s, es).reqs && Run(s, es).reqs[r].notified <= 1 {
      NotifiedOnce(s, es, r, r);
    }
  }

  /**
   Two notifications do occur: a request without items is told so at once but stays in the map,
   although no driver was asked, and the first tick after its time-out tells it again.
   */
  lemma HollowNotifiedTwice<H>(s: AuthState<H>, r: H, until: int, now: int)
    requires Inv(s) && r in s.reqs && !s.reqs[r].submitted
    requires 0 != until < now
    ensures var t := Run(s, [Authorize(r, true), Wait(r, until), Tick(now)]);
            r in t.reqs && t.reqs[r].notified == if s.reqs[r].auths == [] then 2 else 1
  {
    var a, w, k := Authorize(r, true), Wait(r, until), Tick(now);
    var s1 := Step(s, a);
    assert s1.reqs[r].id == s.nextId && Pending(s1, r);
    var s2 := Step(s1, w);
    assert Pending(s2, r) && Expired(s2.reqs[r], now);
    var s3 := Step(s2, k);
    assert s3.reqs[r].notified == s2.reqs[r].notified + 1;
    hide Step;
    assert [a, w, k][1..] == [w, k] && [w, k][1..] == [k] && [k][1..] == [];
    assert Run(s3, []) == s3;
    assert Run(s2, [k]) == s3;
    assert Run(s1, [w, k]) == s3;
  }

  // ---------------------------------------------------------------------------
  // What the client is told
  // ---------------------------------------------------------------------------

  /** A step that turns the result of a request to true is a positive reply to its own id. */
  lemma StepGrants<H>(s: AuthState<H>, e: Event<H>, r: H)
    requires Inv(s) && r in s.reqs && !s.reqs[r].result
    ensures var t := Step(s, e);
            && r in t.reqs
            && (t.reqs[r].result ==>
                  && Pending(s, r) && s.reqs[r].submitted && e.Reply? && e.id == s.reqs[r].id && e.result
                  && t.reqs[r].id == s.reqs[r].id && t.reqs[r].submitted && !Pending(t, r))
  {
    if e.Reply? && e.id in s.pending {
      assert s.reqs[s.pending[e.id]].id == e.id;
    }
  }

  /** Some event is a positive reply to this id. */
  ghost predicate SaidYes<H(!new)>(es: seq<Event<H>>, id: int) {
    exists m :: Reply(id, true, m) in es
  }

  /** In every interleaving a client is told yes only if the driver said yes to the id of that request. */
  lemma {:induction false} YesOnlyFromDriver<H(!new)>(s: AuthState<H>, es: seq<Event<H>>, r: H)
    requires Inv(s) && FreshRun(s, es)
    requires r in s.reqs && !s.reqs[r].result
    ensures var t := Run(s, es); r in t.reqs && (t.reqs[r].result ==> SaidYes(es, t.reqs[r].id))
    decreases |es|
  {
    if es != [] {
      var e, rest, next := es[0], es[1..], Step(s, es[0]);
      StepKeepsInv(s, e);
      StepGrants(s, e, r);
      hide Inv, Step, Pending;
      assert es == [e] + rest;
      if next.reqs[r].result {
        LeftAlone(next, rest, r);
        assert e == Reply(e.id, true, e.message) && e in es;
      } else {
        YesOnlyFromDriver(next, rest, r);
        var t := Run(s, es);
        if t.reqs[r].result {
          var m :| Reply(t.reqs[r].id, true, m) in rest;
          assert Reply(t.reqs[r].id, true, m) in es;
        }
      }
    }
  }

  /** What is left of a request that is no longer pending does not change but for its time-out. */
  ghost predicate Settled(t: Req, q: Req) {
    t.(timeOut := 0) == q.(timeOut := 0)
  }

  lemma SettledAfter<H>(s: AuthState<H>, e: Event<H>, es: seq<Event<H>>, r: H)
    requires Inv(s) && Fresh(s, e) && FreshRun(Step(s, e), es)
    requires var t := Step(s, e); r in t.reqs && t.reqs[r].submitted && !Pending(t, r)
    ensures var t := Run(s, [e] + es); r in t.reqs && Settled(t.reqs[r], Step(s, e).reqs[r])
  {
    hide Inv, Step;
    StepKeepsInv(s, e);
    LeftAlone(Step(s, e), es, r);
    assert ([e] + es)[0] == e && ([e] + es)[1..] == es;
  }

  /**
   The driver's answer reaches the client, whatever follows: the result is the driver's, and its
   text comes behind what was noted before, unless it is `-`.
   */
  lemma AnswerIsTold<H>(s: AuthState<H>, id: int, ok: bool, text: string, es: seq<Event<H>>, r: H)
    requires Inv(s) && id in s.pending && s.pending[id] == r && r in s.reqs
    requires FreshRun(Step(s, Reply(id, ok, text)), es)
    ensures var was, t := s.reqs[r], Run(s, [Reply(id, ok, text)] + es);
            && r in t.reqs
            && t.reqs[r].result == ok && t.reqs[r].notified == was.notified + 1
            && t.reqs[r].message == (if text == "-" then was.message else was.message + [Text(text)])
            && t.reqs[r].timedOut == was.timedOut
  {
    assert s.reqs[r].id == id && s.reqs[r].submitted;
    SettledAfter(s, Reply(id, ok, text), es, r);
  }

  /** A tick after its time-out tells a pending request no, whatever follows; an earlier one leaves it as it is. */
  lemma ExpiredIsTold<H>(s: AuthState<H>, now: int, es: seq<Event<H>>, r: H)
    requires Inv(s) && Pending(s, r)
    requires FreshRun(Step(s, Tick(now)), es)
    ensures var was := s.reqs[r];
            if was.timeOut != 0 && was.timeOut < now then
              var t := Run(s, [Tick(now)] + es);
              && r in t.reqs && !t.reqs[r].result && t.reqs[r].timedOut && t.reqs[r].notified == was.notified + 1
              && t.reqs[r].message == [Text("Auth request timeout")]
            else
              var t := Step(s, Tick(now));
              r in t.reqs && t.reqs[r] == was && Pending(t, r)
  {
    var was := s.reqs[r];
    assert was.id in s.pending && s.pending[was.id] == r && was.submitted;
    if was.timeOut != 0 && was.timeOut < now {
      SettledAfter(s, Tick(now), es, r);
    }
  }

  /** Without a driver the client is told no at once, and nothing follows. */
  lemma NoDriverIsTold<H>(s: AuthState<H>, authorize: bool, es: seq<Event<H>>, r: H)
    requires Inv(s) && r in s.reqs && !s.reqs[r].submitted
    requires var e := if authorize then Authorize(r, false) else Authenticate(r, false); FreshRun(Step(s, e), es)
    ensures var e := if authorize then Authorize(r, false) else Authenticate(r, false);
            var t := Run(s, [e] + es);
            && r in t.reqs && !t.reqs[r].result && !Pending(t, r) && t.reqs[r].notified == 1
            && t.reqs[r].message == [Text("Could not find Authorization driver")]
  {
    var e := if authorize then Authorize(r, false) else Authenticate(r, false);
    SettledAfter(s, e, es, r);
    var t := Step(s, e);
    assert t.reqs[r].id == -1 && -1 !in t.pending;
    StepKeepsInv(s, e);
    StaysUnregistered(t, es, r);
    assert ([e] + es)[0] == e && ([e] + es)[1..] == es;
  }

  lemma {:induction false} StaysUnregistered<H>(s: AuthState<H>, es: seq<Event<H>>, r: H)
    requires Inv(s) && FreshRun(s, es)
    requires r in s.reqs && s.reqs[r].submitted && !Pending(s, r)
    ensures !Pending(Run(s, es), r)
    decreases |es|
  {
    if es != [] {
      StepKeepsInv(s, es[0]);
      StepLeavesAlone(s, es[0], r);
      hide Inv, Step, Pending;
      StaysUnregistered(Step(s, es[0]), es[1..], r);
    }
  }

  /** A discarded request is told nothing any more. */
  lemma DiscardedIsSilent<H>(s: AuthState<H>, es: seq<Event<H>>, r: H)
    requires Inv(s) && Pending(s, r)
    requires FreshRun(Step(s, Discard(s.reqs[r].id)), es)
    ensures var t := Run(s, [Discard(s.reqs[r].id)] + es); r in t.reqs && Settled(t.reqs[r], s.reqs[r])
  {
    assert s.reqs[r].submitted;
    SettledAfter(s, Discard(s.reqs[r].id), es, r);
  }

  /** With a driver, a request that is triggered waits under the next id; one without items has been told no. */
  lemma RegisteredUnderNext<H>(s: AuthState<H>, authorize: bool, r: H)
    requires Inv(s) && r in s.reqs && !s.reqs[r].submitted
    ensures var e := if authorize then Authorize(r, true) else Authenticate(r, true);
            var was, t := s.reqs[r], Step(s, e);
            && Pending(t, r) && t.reqs[r].id == s.nextId && t.nextId == s.nextId + 1
            && if authorize && was.auths == [] then
                 && !t.reqs[r].result && t.reqs[r].notified == 1
                 && t.reqs[r].message == [Text("Empty authorization string")]
               else
                 t.reqs[r].result == was.result && t.reqs[r].notified == 0 && t.reqs[r].message == was.message
  {
  }

  /** A request that is submitted and not pending any more is left alone, so its owner may free it. */
  lemma {:induction false} LeftAlone<H>(s: AuthState<H>, es: seq<Event<H>>, r: H)
    requires Inv(s) && FreshRun(s, es)
    requires r in s.reqs && s.reqs[r].submitted && !Pending(s, r)
    ensures var t := Run(s, es); r in t.reqs && t.reqs[r].(timeOut := 0) == s.reqs[r].(timeOut := 0)
    decreases |es|
  {
    if es != [] {
      StepKeepsInv(s, es[0]);
      StepLeavesAlone(s, es[0], r);
      LeftAlone(Step(s, es[0]), es[1..], r);
    }
  }

  lemma StepLeavesAlone<H>(s: AuthState<H>, e: Event<H>, r: H)
    requires Inv(s) && Fresh(s, e)
    requires r in s.reqs && s.reqs[r].submitted && !Pending(s, r)
    ensures var t := Step(s, e);
            r in t.reqs && t.reqs[r].submitted && !Pending(t, r) && t.reqs[r].(timeOut := 0) == s.reqs[r].(timeOut := 0)
  {
  }

  // ---------------------------------------------------------------------------
  // The objects
  // ---------------------------------------------------------------------------

  class AuthRequest {
    const uid: Int32
    const gid: Int32
    var id: int
    var auths: seq<Item>
    var timeOut: int
    var result: bool
    var timedOut: bool
    var message: seq<Note>
    var selfAuthorize: bool
    ghost var notified: nat
    ghost var submitted: bool
    ghost var hollow: bool

    constructor (uid: Int32, gid: Int32)
      ensures this.uid == uid && this.gid == gid && CoreAuthorize()
      ensures Value() == Req(-1, [], 0, false, false, [], 0, false, false)
      ensures selfAuthorize == AllGranted(auths)
    {
      this.uid, this.gid := uid, gid;
      id, auths, timeOut, result, timedOut, message := -1, [], 0, false, false, [];
      selfAuthorize, notified, submitted, hollow := true, 0, false, false;
    }

    ghost function Value(): Req
      reads this
    {
      Req(id, auths, timeOut, result, timedOut, message, notified, submitted, hollow)
    }

    predicate CoreAuthorize()
      reads this
    {
      uid == {} || selfAuthorize
    }

    /** The number 0 is both the user id and the group id of oneadmin. */
    predicate Admin() {
      uid == {} || gid == {}
    }

    function RequestFor(op: Operation, perms: ObjectAuth): AclRules.Request {
      AclRules.Request(uid, gid, perms.t, perms.oid, perms.gid, op)
    }

    /**
     Adds one item. The request authorizes itself as long as every item was granted: by the
     user being oneadmin or in its group, or else by the rules of the ACL engine.
     */
    method AddAuth(op: Operation, perms: ObjectAuth, aclm: Acl.AclManager)
      requires selfAuthorize == AllGranted(auths)
      modifies this`auths, this`selfAuthorize, this`message
      ensures selfAuthorize == AllGranted(auths)
      ensures CoreAuthorize() <==> uid == {} || forall i :: 0 <= i < |auths| ==> auths[i].auth
      ensures exists auth :: && auths == old(auths) + [Item(op, perms, auth)]
                             && (auth <==> uid == {} || gid == {} || BitsGrant(perms, uid, gid, op)
                                           || Acl.IndexGrants(aclm.aclRules, RequestFor(op, perms)))
                             && message == old(message) + if auth then [] else [Denied(op, perms.t, perms.oid)]
      ensures aclm.Indexed() ==>
                var q := RequestFor(op, perms); Acl.IndexGrants(aclm.aclRules, q) <==> Acl.Allowed(aclm.View(), q)
    {
      var auth := true;
      if !Admin() {
        auth := aclm.Authorize(uid, gid, perms, op);
      }
      hide Acl.IndexGrants, Acl.Allowed, Acl.Agrees, BitsGrant;
      IndexMeaning(aclm, RequestFor(op, perms));
      selfAuthorize := selfAuthorize && auth;
      auths := auths + [Item(op, perms, auth)];
      if !auth {
        message := message + [Denied(op, perms.t, perms.oid)];
      }
      GrantedMore(old(auths), Item(op, perms, auth));
    }

    ghost method Notify()
      modifies this`notified
      ensures notified == old(notified) + 1
    {
      notified := notified + 1;
    }

    /** `result = false`, a message of its own and `notify` */
    method Reject(text: seq<Note>)
      modifies this`result, this`message, this`notified
      ensures Value() == Refuse(old(Value()), text)
    {
      result := false;
      message := text;
      Notify();
    }

    /** The driver's answer: `-` stands for no message. */
    method Respond(result: bool, text: string)
      modifies this`result, this`message, this`notified
      ensures Value() == Answer(old(Value()), result, text)
    {
      this.result := result;
      if text != "-" {
        message := message + [Text(text)];
      }
      Notify();
    }

    /** The part of `wait` before the loop. */
    method SetTimeOut(until: int)
      modifies this`timeOut
      ensures Value() == old(Value()).(timeOut := until)
    {
      timeOut := until;
    }
  }

  lemma IndexMeaning(aclm: Acl.AclManager, q: AclRules.Request)
    ensures aclm.Indexed() ==> (Acl.IndexGrants(aclm.aclRules, q) <==> Acl.Allowed(aclm.View(), q))
  {
    if aclm.Indexed() {
      Acl.AllowedMeaning(aclm.aclRules, aclm.aclRulesOids, Acl.Rows(aclm.aclRulesOids), aclm.lastOID, q);
    }
  }

  predicate AllGranted(items: seq<Item>) {
    forall i :: 0 <= i < |items| ==> items[i].auth
  }

  lemma StepAuthenticate<H>(s: AuthState<H>, r: H, driver: bool)
    requires r in s.reqs
    ensures Step(s, Authenticate(r, driver)) ==
            if !driver then s.(reqs := s.reqs[r := Refuse(s.reqs[r].(submitted := true), NO_DRIVER)])
            else AuthState(s.pending[s.nextId := r], s.nextId + 1, s.reqs[r := Register(s.reqs[r], s.nextId)])
  {
  }

  lemma StepAuthorize<H>(s: AuthState<H>, r: H, driver: bool)
    requires r in s.reqs
    ensures Step(s, Authorize(r, driver)) ==
            if !driver then s.(reqs := s.reqs[r := Refuse(s.reqs[r].(submitted := true), NO_DRIVER)])
            else
              var q := RegisterAuthorization(s.reqs[r], s.nextId);
              AuthState(s.pending[s.nextId := r], s.nextId + 1, s.reqs[r := q])
  {
  }

  lemma StepReply<H>(s: AuthState<H>, id: int, result: bool, message: string)
    requires id in s.pending ==> s.pending[id] in s.reqs
    ensures Step(s, Reply(id, result, message)) ==
            if id !in s.pending then s
            else
              var r := s.pending[id];
              AuthState(s.pending - {id}, s.nextId, s.reqs[r := Answer(s.reqs[r], result, message)])
  {
  }

  ghost function Values(known: set<AuthRequest>): map<AuthRequest, Req>
    reads known
  {
    map r | r in known :: r.Value()
  }

  lemma ValuesOf(known: set<AuthRequest>)
    ensures Values(known).Keys == known && forall r :: r in known ==> Values(known)[r] == r.Value()
  {
  }

  lemma OneChanged(before: map<AuthRequest, Req>, after: map<AuthRequest, Req>, r: AuthRequest)
    requires r in before && after.Keys == before.Keys
    requires forall p :: p in before && p != r ==> after[p] == before[p]
    ensures after == before[r := after[r]]
  {
  }

  lemma GrantedMore(items: seq<Item>, item: Item)
    ensures AllGranted(items + [item]) <==> AllGranted(items) && item.auth
  {
    var more := items + [item];
    assert more[|items|] == item && forall i :: 0 <= i < |items| ==> more[i] == items[i];
  }

  class AuthManager {
    var authRequests: map<int, AuthRequest>
    var authId: int
    /** All requests that clients have made. */
    ghost var known: set<AuthRequest>

    ghost function View(): AuthState<AuthRequest>
      reads this, known
    {
      AuthState(authRequests, authId, Values(known))
    }

    ghost predicate Valid()
      reads this, known
    {
      Inv(View())
    }

    constructor ()
      ensures Valid() && View() == AuthState(map[], 0, map[])
    {
      authRequests, authId, known := map[], 0, {};
    }

    /** A client makes a request of its own. */
    ghost method Enter(r: AuthRequest)
      requires Valid() && r !in known && r.Value() == Req(-1, r.auths, 0, false, false, r.message, 0, false, false)
      modifies this`known
      ensures Valid() && known == old(known) + {r} && authRequests == old(authRequests) && authId == old(authId)
    {
      hide Inv, Values;
      ghost var s := View();
      ValuesOf(known);
      EnterKeepsInv(s, r, r.Value());
      known := known + {r};
      ValuesOf(known);
      assert View().reqs == s.reqs[r := r.Value()];
    }

    method AddRequest(r: AuthRequest) returns (id: int)
      modifies this`authRequests, this`authId
      ensures id == old(authId) && authId == id + 1
      ensures authRequests == old(authRequests)[id := r]
    {
      id := authId;
      authId := authId + 1;
      authRequests := authRequests[id := r];
    }

    method AuthenticateAction(r: AuthRequest, driver: bool)
      requires Valid() && r in known && Fresh(View(), Authenticate(r, driver))
      modifies this`authRequests, this`authId, r
      ensures Valid() && View() == Step(old(View()), Authenticate(r, driver))
    {
      hide Inv, Step, Refuse, Values;
      ghost var s := View();
      ValuesOf(known);
      StepAuthenticate(s, r, driver);
      StepKeepsInv(s, Authenticate(r, driver));
      r.submitted := true;
      if driver {
        r.id := AddRequest(r);
      } else {
        r.Reject(NO_DRIVER);
      }
      ValuesOf(known);
      OneChanged(s.reqs, View().reqs, r);
      assert View() == Step(s, Authenticate(r, driver));
    }

    /** A request without items is notified although it stays registered. */
    method AuthorizeAction(r: AuthRequest, driver: bool)
      requires Valid() && r in known && Fresh(View(), Authorize(r, driver))
      modifies this`authRequests, this`authId, r
      ensures Valid() && View() == Step(old(View()), Authorize(r, driver))
    {
      hide Inv, Step, Refuse, Values;
      ghost var s := View();
      ValuesOf(known);
      StepAuthorize(s, r, driver);
      StepKeepsInv(s, Authorize(r, driver));
      r.submitted := true;
      if !driver {
        r.Reject(NO_DRIVER);
      } else {
        r.id := AddRequest(r);
        if r.auths == [] {
          r.Reject(NO_AUTHS);
          r.hollow := true;
        }
        assert r.Value() == RegisterAuthorization(s.reqs[r], s.nextId);
      }
      ValuesOf(known);
      OneChanged(s.reqs, View().reqs, r);
      assert View() == Step(s, Authorize(r, driver));
    }

    method GetRequest(id: int) returns (r: AuthRequest?)
      modifies this`authRequests
      ensures r == if id in old(authRequests) then old(authRequests)[id] else null
      ensures authRequests == old(authRequests) - {id}
    {
      r := null;
      if id in authRequests {
        r := authRequests[id];
        authRequests := authRequests - {id};
      }
    }

    method NotifyRequest(id: int, result: bool, message: string)
      requires Valid()
      modifies this`authRequests, if id in authRequests then {authRequests[id]} else {}
      ensures Valid() && View() == Step(old(View()), Reply(id, result, message))
    {
      hide Inv, Step, Values, Answer;
      ghost var s := View();
      ValuesOf(known);
      PendingIds(s);
      StepReply(s, id, result, message);
      StepKeepsInv(s, Reply(id, result, message));
      var r := GetRequest(id);
      if r == null {
        assert authRequests == old(authRequests);
        return;
      }
      r.Respond(result, message);
      ValuesOf(known);
      OneChanged(s.reqs, View().reqs, r);
    }

    method DiscardRequest(id: int)
      requires Valid()
      modifies this`authRequests
      ensures Valid() && View() == Step(old(View()), Discard(id))
    {
      hide Inv;
      StepKeepsInv(View(), Discard(id));
      authRequests := authRequests - {id};
      assert View() == Step(old(View()), Discard(id));
    }

    /** The owner of a request starts to wait for it. */
    method AwaitRequest(r: AuthRequest, until: int)
      requires Valid() && r in known
      modifies r
      ensures Valid() && View() == Step(old(View()), Wait(r, until))
    {
      hide Inv, Values;
      ghost var s := View();
      ValuesOf(known);
      StepKeepsInv(s, Wait(r, until));
      r.SetTimeOut(until);
      ValuesOf(known);
      OneChanged(s.reqs, View().reqs, r);
      assert View() == Step(s, Wait(r, until));
    }

    /** One pass over the map in the order of its keys, erasing and notifying what has expired. */
    method TimerAction(theTime: int)
      requires Valid()
      modifies this`authRequests, known
      ensures Valid() && View() == Step(old(View()), Tick(theTime))
    {
      hide Inv, Swept, Step, Values, Expire, Expired;
      ghost var s := View();
      ValuesOf(known);
      PendingIds(s);
      StepKeepsInv(s, Tick(theTime));
      SweepStart(s, theTime);
      var rest := authRequests.Keys;
      ghost var bound := 0;
      while |rest| > 0
        invariant authId == s.nextId && known == old(known) && 0 <= bound <= s.nextId
        invariant forall id :: id in rest <==> id in authRequests && bound <= id
        invariant Swept(s, View(), bound, theTime)
        decreases |rest|
      {
        var id := LeastId(rest);
        VisitNext(s, bound, id, theTime);
        rest := rest - {id};
        bound := id + 1;
      }
      assert rest == {};
      SweepSkips(s, View(), bound, s.nextId, theTime);
      AllSwept(s, View(), theTime);
    }

    /** The next entry of the map after those below `bound`: the sweep of `s` gets past it. */
    method VisitNext(ghost s: AuthState<AuthRequest>, ghost bound: int, id: int, theTime: int)
      requires Inv(s) && Swept(s, View(), bound, theTime) && 0 <= bound <= id
      requires id in authRequests && forall other :: other in authRequests && bound <= other ==> id <= other
      modifies this`authRequests, known
      ensures id < s.nextId && known == old(known)
      ensures Swept(s, View(), id + 1, theTime)
      ensures forall other :: other != id ==> (other in authRequests <==> other in old(authRequests))
    {
      hide Inv, Swept, Values, Expire, Expired;
      ValuesOf(known);
      SweepTo(s, View(), bound, id, theTime);
      VisitEntry(id, theTime);
    }

    /** The body of the loop for one entry of the map. */
    method VisitEntry(id: int, theTime: int)
      requires id in authRequests && authRequests[id] in View().reqs
      modifies this`authRequests, authRequests[id]
      ensures known == old(known)
      ensures var t, r := old(View()), old(authRequests[id]);
              View() == if Expired(t.reqs[r], theTime)
                        then AuthState(t.pending - {id}, t.nextId, t.reqs[r := Expire(t.reqs[r])]) else t
      ensures forall other :: other != id ==> (other in authRequests <==> other in old(authRequests))
    {
      hide Values;
      ghost var t := View();
      ValuesOf(known);
      var r := authRequests[id];
      if r.timeOut != 0 && theTime > r.timeOut {
        authRequests := authRequests - {id};
        r.timedOut := true;
        r.Reject(TIMED_OUT);
        assert r.Value() == Expire(t.reqs[r]);
        ValuesOf(known);
        OneChanged(t.reqs, View().reqs, r);
      }
    }
  }

  /** The ids below `bound` have been swept: the late ones are gone and their requests told. */
  ghost predicate Swept<H>(s: AuthState<H>, t: AuthState<H>, bound: int, now: int) {
    && t.reqs.Keys == s.reqs.Keys
    && (forall id :: id in t.pending <==> id in s.pending && (id >= bound || !Late(s, id, now)))
    && (forall id :: id in t.pending ==> t.pending[id] == s.pending[id])
    && (forall r :: r in s.reqs ==>
          t.reqs[r] ==
          if Pending(s, r) && Expired(s.reqs[r], now) && s.reqs[r].id < bound then Expire(s.reqs[r]) else s.reqs[r])
  }

  /** The first key of those to come, which is where a map's iterator points. */
  method LeastId(rest: set<int>) returns (id: int)
    requires |rest| > 0
    ensures id in rest && forall other :: other in rest ==> id <= other
  {
    ghost var some := ElementOf(rest);
    id :| id in rest;
    var others := rest - {id};
    while |others| > 0
      invariant id in rest && others <= rest
      invariant forall other :: other in rest && other !in others ==> id <= other
      decreases |others|
    {
      some := ElementOf(others);
      var other :| other in others;
      if other < id {
        id := other;
      }
      others := others - {other};
    }
  }

  lemma SweepIds<H>(s: AuthState<H>, t: AuthState<H>, bound: int, now: int)
    requires Inv(s) && Swept(s, t, bound, now)
    ensures forall id :: id in t.pending ==> 0 <= id < s.nextId && t.pending[id] in t.reqs
  {
    forall id | id in t.pending ensures 0 <= id < s.nextId && t.pending[id] in t.reqs {
      assert id in s.pending && s.pending[id] in s.reqs && s.reqs[s.pending[id]].id == id;
    }
  }

  /** Ids that are not in the map any more count as swept. */
  lemma SweepSkips<H>(s: AuthState<H>, t: AuthState<H>, low: int, high: int, now: int)
    requires Inv(s) && Swept(s, t, low, now) && low <= high
    requires forall id :: id in t.pending ==> !(low <= id < high)
    ensures Swept(s, t, high, now)
  {
    hide Expire;
    forall id | id in s.pending ensures !(low <= id < high) {
      assert low <= id ==> id in t.pending;
    }
    forall r | r in s.reqs && Pending(s, r) ensures !(low <= s.reqs[r].id < high) {
      assert s.reqs[r].id in s.pending;
    }
  }

  /** The iterator moves on to entry `id`; what the loop body does to it carries the sweep past it. */
  lemma SweepTo<H>(s: AuthState<H>, t: AuthState<H>, bound: int, id: int, now: int)
    requires Inv(s) && Swept(s, t, bound, now)
    requires 0 <= bound <= id && id in t.pending && forall other :: other in t.pending && bound <= other ==> id <= other
    ensures id < s.nextId && t.pending[id] in t.reqs
    ensures if Expired(t.reqs[t.pending[id]], now)
            then
              var r := t.pending[id];
              Swept(s, AuthState(t.pending - {id}, t.nextId, t.reqs[r := Expire(t.reqs[r])]), id + 1, now)
            else Swept(s, t, id + 1, now)
  {
    SweepIds(s, t, bound, now);
    SweepSkips(s, t, bound, id, now);
    SweepNext(s, t, id, now);
  }

  lemma SweepStart<H>(s: AuthState<H>, now: int)
    requires Inv(s)
    ensures Swept(s, s, 0, now)
  {
  }

  /** What the loop body does to the entry of one id carries the sweep one id on. */
  lemma SweepNext<H>(s: AuthState<H>, t: AuthState<H>, id: int, now: int)
    requires Inv(s) && Swept(s, t, id, now) && id >= 0
    ensures id in t.pending ==> t.pending[id] in t.reqs
    ensures if id in t.pending && Expired(t.reqs[t.pending[id]], now)
            then
              var r := t.pending[id];
              Swept(s, AuthState(t.pending - {id}, t.nextId, t.reqs[r := Expire(t.reqs[r])]), id + 1, now)
            else Swept(s, t, id + 1, now)
  {
    hide Expire;
    if id in t.pending {
      assert id in s.pending && s.pending[id] == t.pending[id];
      assert s.reqs[s.pending[id]].id == id;
    }
    forall r | r in s.reqs && Pending(s, r) && s.reqs[r].id == id ensures id in t.pending && t.pending[id] == r {
      assert id in s.pending && s.pending[id] == r;
    }
  }

  lemma AllSwept<H>(s: AuthState<H>, t: AuthState<H>, now: int)
    requires Inv(s) && t.nextId == s.nextId && Swept(s, t, s.nextId, now)
    ensures t == Step(s, Tick(now))
  {
    SweptPending(s, t, now);
    SweptReqs(s, t, now);
  }

  lemma SweptPending<H>(s: AuthState<H>, t: AuthState<H>, now: int)
    requires Inv(s) && Swept(s, t, s.nextId, now)
    ensures t.pending == Step(s, Tick(now)).pending
  {
    hide Late, Pending;
    var u := Step(s, Tick(now)).pending;
    forall id ensures id in t.pending <==> id in u {
      if id in s.pending { assert s.reqs[s.pending[id]].id == id < s.nextId; }
    }
    forall id | id in t.pending ensures t.pending[id] == u[id] {}
  }

  lemma SweptReqs<H>(s: AuthState<H>, t: AuthState<H>, now: int)
    requires Inv(s) && Swept(s, t, s.nextId, now)
    ensures t.reqs == Step(s, Tick(now)).reqs
  {
    hide Late, Pending;
  }
}

/** The Home Assistant WebRTC provider (custom_components/lalmax_nvr/webrtc.py).
    Code between two awaits is one atomic step; offers, closes, unregistrations
    and shutdown interleave freely between them. The law is a conservation of
    tokens: each one obtained from the recorder is in exactly one live session or
    has been handed to exactly one close. It holds of a run if and only if no
    answer was stored over a session still live. */
module WebRtcProvider {
  import opened Options

  type SessionId = string

  datatype Session = Session(entity: string, stream: string, token: string)

  /** A token as the answer to one session's offer. */
  datatype Ticket = Ticket(session: SessionId, token: string)

  /** An offer coroutine suspended in create_webrtc. */
  datatype Offer = Offer(session: SessionId, entity: string, stream: string)

  /** The provider's four fields, then the world around them: suspended offers,
      offers suspended in a close of their own, the tokens obtained, the closes
      issued, and those that have returned. */
  datatype State = State(
    pending: map<SessionId, string>,
    sessions: map<SessionId, Session>,
    closeTasks: set<Ticket>,
    closed: bool,
    offers: map<nat, Offer>,
    direct: set<Ticket>,
    obtained: set<Ticket>,
    closes: multiset<Ticket>,
    finished: multiset<Ticket>)

  const START := State(map[], map[], {}, false, map[], {}, {}, multiset{}, multiset{})

  /** This session is stored, with this token. */
  predicate Holds(sessions: map<SessionId, Session>, t: Ticket) {
    t.session in sessions && sessions[t.session].token == t.token
  }

  function Tickets(sessions: map<SessionId, Session>, ids: set<SessionId>): (ts: set<Ticket>)
    ensures forall t :: t in ts <==> t.session in ids && Holds(sessions, t)
  {
    set id | id in sessions && id in ids :: Ticket(id, sessions[id].token)
  }

  function Live(s: State): set<Ticket> { Tickets(s.sessions, s.sessions.Keys) }

  // ------------------------------------------------------------- transitions

  /** Up to the await of create_webrtc, when the stream is published. */
  function Begun(s: State, offer: nat, o: Offer): State {
    if s.closed then s
    else s.(pending := s.pending[o.session := o.entity], offers := s.offers[offer := o])
  }

  /** Whether a completed negotiation still has someone waiting for it. */
  predicate Wanted(s: State, session: SessionId) { !s.closed && session in s.pending }

  /** create_webrtc has returned a token. */
  function Completed(s: State, offer: nat, token: string): State
    requires offer in s.offers
  {
    var o := s.offers[offer];
    var t := Ticket(o.session, token);
    var s' := s.(offers := s.offers - {offer}, obtained := s.obtained + {t});
    if Wanted(s, o.session) then
      s'.(sessions := s.sessions[o.session := Session(o.entity, o.stream, token)], pending := s.pending - {o.session})
    else s'.(direct := s.direct + {t}, closes := s.closes + multiset{t})
  }

  /** create_webrtc has raised, or the task was cancelled in it. */
  function Failed(s: State, offer: nat): State
    requires offer in s.offers
  {
    s.(offers := s.offers - {offer}, pending := s.pending - {s.offers[offer].session})
  }

  /** The offer's own close has returned; its finally clause runs. */
  function DirectClosed(s: State, t: Ticket): State {
    s.(direct := s.direct - {t}, finished := s.finished + multiset{t}, pending := s.pending - {t.session})
  }

  /** async_close_session: forget the pending offer, and give the token, if there
      is one, to a new close task. */
  function ClosedOne(s: State, id: SessionId): State {
    var s' := s.(pending := s.pending - {id});
    if id in s.sessions then
      var t := Ticket(id, s.sessions[id].token);
      s'.(sessions := s.sessions - {id}, closeTasks := s.closeTasks + {t}, closes := s.closes + multiset{t})
    else s'
  }

  /** Closing a set of sessions: each forgets its pending offer, and gives its
      token, if it has one, to a new close task. */
  function ClosedAll(s: State, ids: set<SessionId>): State {
    var ts := Tickets(s.sessions, ids);
    s.(pending := s.pending - ids, sessions := s.sessions - ids,
       closeTasks := s.closeTasks + ts, closes := s.closes + multiset(ts))
  }

  function TaskDone(s: State, t: Ticket): State {
    s.(closeTasks := s.closeTasks - {t}, finished := s.finished + multiset{t})
  }

  function OfEntity(s: State, entity: string): set<SessionId> {
    (set id | id in s.pending && s.pending[id] == entity) + (set id | id in s.sessions && s.sessions[id].entity == entity)
  }

  function ShutDown(s: State): State {
    ClosedAll(s.(closed := true, pending := map[]), s.sessions.Keys)
  }

  // ------------------------------------------------------------ the program

  class NVRWebRTCProvider {
    var sessions: map<SessionId, Session>
    var pending: map<SessionId, string>
    var closeTasks: set<Ticket>
    var closed: bool
    ghost var offers: map<nat, Offer>
    ghost var direct: set<Ticket>
    ghost var obtained: set<Ticket>
    ghost var closes: multiset<Ticket>
    ghost var finished: multiset<Ticket>

    ghost function View(): State
      reads this
    {
      State(pending, sessions, closeTasks, closed, offers, direct, obtained, closes, finished)
    }

    constructor ()
      ensures View() == START
    {
      sessions, pending, closeTasks, closed := map[], map[], {}, false;
      offers, direct, obtained, closes, finished := map[], {}, {}, multiset{}, multiset{};
    }

    /** The stream lookup and all up to the request; None is "not available". */
    method OfferBegins(session: SessionId, entity: string, stream: Option<string>, ghost offer: nat) returns (asks: bool)
      modifies this
      ensures asks <==> !old(closed) && stream.Some?
      ensures View() == if stream.Some? then Begun(old(View()), offer, Offer(session, entity, stream.value)) else old(View())
      ensures pending == if asks then old(pending)[session := entity] else old(pending)
      ensures sessions == old(sessions) && closes == old(closes) && closed == old(closed)
    {
      if closed || stream.None? {
        return false;
      }
      pending := pending[session := entity];
      offers := offers[offer := Offer(session, entity, stream.value)];
      return true;
    }

    /** The answer has come: store the session, or close the token again. */
    method OfferCompletes(session: SessionId, entity: string, stream: string, token: string, ghost offer: nat) returns (answered: bool)
      requires offer in offers && offers[offer] == Offer(session, entity, stream)
      modifies this
      ensures View() == Completed(old(View()), offer, token)
      ensures answered <==> !old(closed) && session in old(pending)
      ensures answered ==> sessions == old(sessions)[session := Session(entity, stream, token)] && closes == old(closes)
      ensures !answered ==> sessions == old(sessions) && closes == old(closes) + multiset{Ticket(session, token)}
      ensures pending == if answered then old(pending) - {session} else old(pending)
    {
      var t := Ticket(session, token);
      offers, obtained := offers - {offer}, obtained + {t};
      if closed || session !in pending {
        direct, closes := direct + {t}, closes + multiset{t};
        return false;
      }
      sessions := sessions[session := Session(entity, stream, token)];
      pending := pending - {session};
      return true;
    }

    method OfferFails(session: SessionId, ghost offer: nat)
      requires offer in offers && offers[offer].session == session
      modifies this
      ensures View() == Failed(old(View()), offer)
      ensures pending == old(pending) - {session} && sessions == old(sessions) && closes == old(closes)
    {
      offers := offers - {offer};
      pending := pending - {session};
    }

    method OfferCloseReturns(t: Ticket)
      modifies this
      ensures View() == DirectClosed(old(View()), t)
      ensures pending == old(pending) - {t.session} && sessions == old(sessions) && closes == old(closes)
      ensures finished == old(finished) + multiset{t}
    {
      direct, finished := direct - {t}, finished + multiset{t};
      pending := pending - {t.session};
    }

    method CloseSession(id: SessionId)
      modifies this
      ensures View() == ClosedOne(old(View()), id)
      ensures pending == old(pending) - {id} && sessions == old(sessions) - {id}
      ensures closes == old(closes) + if id in old(sessions) then multiset{Ticket(id, old(sessions)[id].token)} else multiset{}
    {
      pending := pending - {id};
      if id in sessions {
        var t := Ticket(id, sessions[id].token);
        sessions := sessions - {id};
        closeTasks, closes := closeTasks + {t}, closes + multiset{t};
      }
    }

    method CloseTaskReturns(t: Ticket)
      modifies this
      ensures View() == TaskDone(old(View()), t)
      ensures closeTasks == old(closeTasks) - {t} && finished == old(finished) + multiset{t}
      ensures sessions == old(sessions) && pending == old(pending) && closes == old(closes)
    {
      closeTasks, finished := closeTasks - {t}, finished + multiset{t};
    }

    /** The loops of unregister and shutdown: close each session of a snapshot. */
    method CloseEach(ids: set<SessionId>)
      modifies this
      ensures View() == ClosedAll(old(View()), ids)
    {
      var todo := ids;
      while todo != {}
        invariant ClosedAll(View(), todo) == ClosedAll(old(View()), ids)
        decreases todo
      {
        var id :| id in todo;
        CloseMore(View(), {id}, todo - {id});
        CloseOne(View(), id);
        assert {id} + (todo - {id}) == todo;
        todo := todo - {id};
        CloseSession(id);
      }
      CloseNothing(View());
    }

    method UnregisterCamera(entity: string)
      modifies this
      ensures View() == ClosedAll(old(View()), OfEntity(old(View()), entity))
      ensures var p, ss := old(pending), old(sessions);
        forall id :: id in pending <==> id in p && p[id] != entity && (id in ss ==> ss[id].entity != entity)
      ensures var p, ss := old(pending), old(sessions);
        forall id :: id in sessions <==> id in ss && ss[id].entity != entity && (id in p ==> p[id] != entity)
      ensures forall id | id in pending :: pending[id] == old(pending)[id]
      ensures forall id | id in sessions :: sessions[id] == old(sessions)[id]
      ensures var p, ss := old(pending), old(sessions);
        forall t: Ticket :: closes[t] == old(closes)[t] + (
          if t.session in ss && ss[t.session].token == t.token
             && (ss[t.session].entity == entity || (t.session in p && p[t.session] == entity)) then 1 else 0)
    {
      var first := set id | id in pending && pending[id] == entity;
      CloseEach(first);
      var second := set id | id in sessions && sessions[id].entity == entity;
      CloseMore(old(View()), first, second);
      TicketsOf(old(View()), first + second, OfEntity(old(View()), entity));
      CloseEach(second);
      UnregisterExact(old(View()), entity);
    }

    /** Up to the await of the close tasks. */
    method Shutdown()
      modifies this
      ensures View() == ShutDown(old(View()))
      ensures closed && pending == map[] && sessions == map[]
      ensures forall t: Ticket :: closes[t] == old(closes)[t] + (
                if t.session in old(sessions) && old(sessions)[t.session].token == t.token then 1 else 0)
    {
      closed := true;
      pending := map[];
      CloseEach(sessions.Keys);
    }
  }

  /** Unregistering a camera forgets the ids with an offer or a session of its,
      hands each of their tokens to one close, and touches nothing else. */
  lemma UnregisterExact(s: State, entity: string)
    ensures var s', p, ss := ClosedAll(s, OfEntity(s, entity)), s.pending, s.sessions;
      && (forall id :: id in s'.pending <==> id in p && p[id] != entity && (id in ss ==> ss[id].entity != entity))
      && (forall id :: id in s'.sessions <==> id in ss && ss[id].entity != entity && (id in p ==> p[id] != entity))
    ensures var s', p, ss := ClosedAll(s, OfEntity(s, entity)), s.pending, s.sessions;
      forall t: Ticket :: s'.closes[t] == s.closes[t] + (
        if t.session in ss && ss[t.session].token == t.token
           && (ss[t.session].entity == entity || (t.session in p && p[t.session] == entity)) then 1 else 0)
  {
  }

  lemma CloseOne(s: State, id: SessionId)
    ensures ClosedAll(s, {id}) == ClosedOne(s, id)
  {
    TicketsOne(s.sessions, id);
    if id !in s.sessions {
      assert s.sessions - {id} == s.sessions;
      assert s.closeTasks + {} == s.closeTasks && s.closes + multiset{} == s.closes;
    }
  }

  lemma TicketsOne(m: map<SessionId, Session>, id: SessionId)
    ensures id !in m ==> multiset(Tickets(m, {id})) == multiset{} && Tickets(m, {id}) == {}
    ensures id in m ==> var t := Ticket(id, m[id].token); multiset(Tickets(m, {id})) == multiset{t} && Tickets(m, {id}) == {t}
  {
    if id in m {
      assert Tickets(m, {id}) == {Ticket(id, m[id].token)};
    } else {
      assert Tickets(m, {id}) == {};
    }
  }

  lemma CloseNothing(s: State)
    ensures ClosedAll(s, {}) == s
  {
    assert Tickets(s.sessions, {}) == {};
    assert s.pending - {} == s.pending && s.sessions - {} == s.sessions;
  }

  lemma TicketsUnion(m: map<SessionId, Session>, a: set<SessionId>, b: set<SessionId>)
    ensures Tickets(m, a) !! Tickets(m - a, b)
    ensures multiset(Tickets(m, a + b)) == multiset(Tickets(m, a)) + multiset(Tickets(m - a, b))
    ensures Tickets(m, a + b) == Tickets(m, a) + Tickets(m - a, b)
  {
    assert Tickets(m, a + b) == Tickets(m, a) + Tickets(m - a, b);
    DisjointUnion(Tickets(m, a), Tickets(m - a, b));
  }

  lemma DisjointUnion<T>(a: set<T>, b: set<T>)
    requires a !! b
    ensures multiset(a + b) == multiset(a) + multiset(b)
  {
  }

  /** Closing in two rounds is closing in one. */
  lemma CloseMore(s: State, a: set<SessionId>, b: set<SessionId>)
    ensures ClosedAll(ClosedAll(s, a), b) == ClosedAll(s, a + b)
  {
    TicketsUnion(s.sessions, a, b);
    MinusTwice(s.pending, a, b);
    MinusTwice(s.sessions, a, b);
    var ts, ts' := Tickets(s.sessions, a), Tickets(s.sessions - a, b);
    assert s.closeTasks + ts + ts' == s.closeTasks + (ts + ts');
    assert s.closes + multiset(ts) + multiset(ts') == s.closes + (multiset(ts) + multiset(ts'));
  }

  lemma MinusTwice<K, V>(m: map<K, V>, a: set<K>, b: set<K>)
    ensures m - a - b == m - (a + b)
  {
  }

  /** Ids without a session or pending offer do not matter. */
  lemma TicketsOf(s: State, a: set<SessionId>, b: set<SessionId>)
    requires forall id | id in s.pending || id in s.sessions :: id in a <==> id in b
    ensures ClosedAll(s, a) == ClosedAll(s, b)
  {
    assert Tickets(s.sessions, a) == Tickets(s.sessions, b);
    assert s.pending - a == s.pending - b;
    assert s.sessions - a == s.sessions - b;
  }

  // ---------------------------------------------------------------- steps

  datatype Step =
    | Begin(offer: nat, o: Offer)
    | Complete(offer: nat, token: string)
    | Fail(offer: nat)
    | DirectClose(t: Ticket)
    | Close(id: SessionId)
    | FinishTask(t: Ticket)
    | Unregister(entity: string)
    | Shut

  /** When a step can happen: coroutines resume once, and the recorder does not
      give a token twice. */
  ghost predicate Enabled(s: State, step: Step) {
    match step
    case Begin(offer, _) => offer !in s.offers
    case Complete(offer, token) => offer in s.offers && forall t | t in s.obtained :: t.token != token
    case Fail(offer) => offer in s.offers
    case DirectClose(t) => t in s.direct
    case FinishTask(t) => t in s.closeTasks
    case _ => true
  }

  ghost function Next(s: State, step: Step): State
    requires Enabled(s, step)
  {
    match step
    case Begin(offer, o) => Begun(s, offer, o)
    case Complete(offer, token) => Completed(s, offer, token)
    case Fail(offer) => Failed(s, offer)
    case DirectClose(t) => DirectClosed(s, t)
    case Close(id) => ClosedOne(s, id)
    case FinishTask(t) => TaskDone(s, t)
    case Unregister(entity) => ClosedAll(s, OfEntity(s, entity))
    case Shut => ShutDown(s)
  }

  /** An answer is stored over a session still live under its id. */
  ghost predicate Overwrites(s: State, step: Step)
    requires Enabled(s, step)
  {
    step.Complete? && Wanted(s, s.offers[step.offer].session) && s.offers[step.offer].session in s.sessions
  }

  /** A step after which this id has no pending offer, whatever it had before. */
  ghost predicate Forgets(s: State, step: Step, id: SessionId)
    requires Enabled(s, step)
  {
    match step
    case Begin(_, _) => false
    case Complete(offer, _) => !s.closed && s.offers[offer].session == id
    case Fail(offer) => s.offers[offer].session == id
    case DirectClose(t) => t.session == id
    case Close(i) => i == id
    case FinishTask(_) => false
    case Unregister(entity) => (id in s.pending && s.pending[id] == entity) || (id in s.sessions && s.sessions[id].entity == entity)
    case Shut => true
  }

  /** An id is pending from the offer that names it until a step forgets it. */
  lemma PendingIff(s: State, step: Step, id: SessionId)
    requires Enabled(s, step)
    ensures id in Next(s, step).pending <==>
            (id in s.pending && !Forgets(s, step, id)) || (step.Begin? && !s.closed && step.o.session == id)
    ensures var p := Next(s, step).pending;
      id in p ==> p[id] == (if step.Begin? && !s.closed && step.o.session == id then step.o.entity else s.pending[id])
  {
  }

  /** A session is stored when an answer comes for an id still pending, and until
      it is closed by id, with its camera, or with the provider. */
  lemma StoredIff(s: State, step: Step, id: SessionId)
    requires Enabled(s, step)
    ensures id in Next(s, step).sessions <==>
            || (id in s.sessions && step != Close(id) && step != Shut
                && !(step.Unregister? && Forgets(s, step, id)))
            || (step.Complete? && !s.closed && s.offers[step.offer].session == id && id in s.pending)
    ensures id in Next(s, step).sessions && !(step.Complete? && s.offers[step.offer].session == id) ==>
            id in s.sessions && Next(s, step).sessions[id] == s.sessions[id]
    ensures step.Complete? && s.offers[step.offer].session == id && id in s.pending && !s.closed ==>
            var o := s.offers[step.offer]; Next(s, step).sessions[id] == Session(o.entity, o.stream, step.token)
  {
  }

  // ------------------------------------------------------------ the ledger

  /** Where the tokens are: in live sessions, or handed to a close. */
  ghost function Accounted(s: State): multiset<Ticket> { multiset(Live(s)) + s.closes }

  /** Every token obtained is accounted for, and so in one place, once. */
  ghost predicate Conserved(s: State) { Accounted(s) == multiset(s.obtained) }

  /** What every step keeps: no token is accounted for twice, a closed provider
      stores nothing, and a close is running or has returned. */
  ghost predicate Inv(s: State) {
    && Accounted(s) <= multiset(s.obtained)
    && (s.closed ==> s.pending == map[] && s.sessions == map[])
    && s.closes == s.finished + multiset(s.closeTasks) + multiset(s.direct)
  }

  lemma LiveNotClosed(s: State, t: Ticket)
    requires Inv(s)
    ensures t in Live(s) ==> s.closes[t] == 0
    ensures t !in s.obtained ==> t !in Live(s) && s.closes[t] == 0
  {
    assert multiset(Live(s))[t] + s.closes[t] == Accounted(s)[t] <= multiset(s.obtained)[t];
  }

  lemma LiveSplit(m: map<SessionId, Session>, ids: set<SessionId>)
    ensures multiset(Tickets(m, m.Keys)) == multiset(Tickets(m - ids, (m - ids).Keys)) + multiset(Tickets(m, ids))
  {
    TicketsUnion(m, ids, m.Keys);
    assert Tickets(m, ids + m.Keys) == Tickets(m, m.Keys);
    assert Tickets(m - ids, m.Keys) == Tickets(m - ids, (m - ids).Keys);
  }

  /** Closing moves tokens and loses none. */
  lemma CloseInv(s: State, ids: set<SessionId>)
    requires Inv(s)
    ensures Inv(ClosedAll(s, ids)) && Accounted(ClosedAll(s, ids)) == Accounted(s)
  {
    var ts := Tickets(s.sessions, ids);
    LiveSplit(s.sessions, ids);
    assert ts !! s.closeTasks by {
      forall t | t in ts ensures t !in s.closeTasks {
        LiveNotClosed(s, t);
        assert multiset(s.closeTasks)[t] <= s.closes[t];
      }
    }
    DisjointUnion(s.closeTasks, ts);
  }

  lemma ShutInv(s: State)
    requires Inv(s)
    ensures Inv(ShutDown(s)) && Accounted(ShutDown(s)) == Accounted(s)
  {
    CloseInv(s.(pending := map[]), s.sessions.Keys);
  }

  /** Storing under an id adds one live token and drops what was there. */
  lemma LiveStored(m: map<SessionId, Session>, id: SessionId, session: Session)
    ensures var m' := m[id := session];
      multiset(Tickets(m', m'.Keys)) + multiset(Tickets(m, {id})) == multiset(Tickets(m, m.Keys)) + multiset{Ticket(id, session.token)}
  {
    var m', t, rest := m[id := session], Ticket(id, session.token), m - {id};
    LiveSplit(m, {id});
    assert Tickets(m', m'.Keys) == Tickets(rest, rest.Keys) + {t};
    DisjointUnion(Tickets(rest, rest.Keys), {t});
  }

  /** What a completed offer overwrites. */
  ghost function Gone(s: State, offer: nat): multiset<Ticket>
    requires offer in s.offers
  {
    var id := s.offers[offer].session;
    if Wanted(s, id) then multiset(Tickets(s.sessions, {id})) else multiset{}
  }

  lemma CompleteAccounts(s: State, offer: nat, token: string)
    requires offer in s.offers
    ensures Accounted(Completed(s, offer, token)) + Gone(s, offer) == Accounted(s) + multiset{Ticket(s.offers[offer].session, token)}
  {
    var o := s.offers[offer];
    if Wanted(s, o.session) {
      LiveStored(s.sessions, o.session, Session(o.entity, o.stream, token));
    }
  }

  lemma CompleteObtains(s: State, offer: nat, token: string)
    requires Enabled(s, Complete(offer, token))
    ensures multiset(Completed(s, offer, token).obtained) == multiset(s.obtained) + multiset{Ticket(s.offers[offer].session, token)}
  {
    DisjointUnion(s.obtained, {Ticket(s.offers[offer].session, token)});
  }

  lemma CompleteInv(s: State, offer: nat, token: string)
    requires Inv(s) && Enabled(s, Complete(offer, token))
    ensures Inv(Completed(s, offer, token))
  {
    var t := Ticket(s.offers[offer].session, token);
    CompleteAccounts(s, offer, token);
    CompleteObtains(s, offer, token);
    assert Accounted(Completed(s, offer, token)) <= Accounted(s) + multiset{t};
    if !Wanted(s, t.session) {
      LiveNotClosed(s, t);
      assert t !in s.direct by { assert multiset(s.direct)[t] <= s.closes[t]; }
      DisjointUnion(s.direct, {t});
    }
  }

  lemma DirectReturnInv(s: State, t: Ticket)
    requires Inv(s) && t in s.direct
    ensures Inv(DirectClosed(s, t)) && Accounted(DirectClosed(s, t)) == Accounted(s)
  {
    DisjointUnion(s.direct - {t}, {t});
    assert s.direct - {t} + {t} == s.direct;
  }

  lemma TaskReturnInv(s: State, t: Ticket)
    requires Inv(s) && t in s.closeTasks
    ensures Inv(TaskDone(s, t)) && Accounted(TaskDone(s, t)) == Accounted(s)
  {
    DisjointUnion(s.closeTasks - {t}, {t});
    assert s.closeTasks - {t} + {t} == s.closeTasks;
  }

  /** Tokens obtained that are neither live nor handed to a close. */
  ghost function Lost(s: State): int { |s.obtained| - |Accounted(s)| }

  /** Every step whatever keeps the invariant, and loses one token if it
      overwrites a live session and none if not. */
  lemma StepInv(s: State, step: Step)
    requires Inv(s) && Enabled(s, step)
    ensures Inv(Next(s, step))
    ensures Lost(Next(s, step)) == Lost(s) + if Overwrites(s, step) then 1 else 0
  {
    match step {
      case Begin(offer, o) =>
      case Complete(offer, token) =>
        CompleteInv(s, offer, token);
        CompleteLoses(s, offer, token);
      case Fail(offer) =>
      case DirectClose(t) => DirectReturnInv(s, t);
      case Close(id) =>
        CloseOne(s, id);
        CloseInv(s, {id});
      case FinishTask(t) => TaskReturnInv(s, t);
      case Unregister(entity) => CloseInv(s, OfEntity(s, entity));
      case Shut => ShutInv(s);
    }
  }

  lemma CompleteLoses(s: State, offer: nat, token: string)
    requires Inv(s) && Enabled(s, Complete(offer, token))
    ensures Lost(Completed(s, offer, token)) == Lost(s) + if Overwrites(s, Complete(offer, token)) then 1 else 0
  {
    var s', t := Completed(s, offer, token), Ticket(s.offers[offer].session, token);
    CompleteAccounts(s, offer, token);
    CompleteObtains(s, offer, token);
    TicketsOne(s.sessions, t.session);
    assert |Accounted(s')| + |Gone(s, offer)| == |Accounted(s') + Gone(s, offer)|;
    assert |multiset(s'.obtained)| == |multiset(s.obtained)| + 1;
  }

  lemma ConservedIffNoneLost(s: State)
    requires Inv(s)
    ensures Lost(s) >= 0 && (Conserved(s) <==> Lost(s) == 0)
  {
    var missing := multiset(s.obtained) - Accounted(s);
    assert Accounted(s) + missing == multiset(s.obtained);
    assert |Accounted(s)| + |missing| == |multiset(s.obtained)|;
    if missing == multiset{} {
      assert Accounted(s) == multiset(s.obtained);
    }
  }

  /** A completed offer keeps the ledger exactly when it overwrites nothing. */
  lemma CompletionConservesIff(s: State, offer: nat, token: string)
    requires Conserved(s) && Enabled(s, Complete(offer, token))
    ensures Conserved(Completed(s, offer, token)) <==>
            !(Wanted(s, s.offers[offer].session) && s.offers[offer].session in s.sessions)
  {
    CompleteAccounts(s, offer, token);
    CompleteObtains(s, offer, token);
    TicketsOne(s.sessions, s.offers[offer].session);
    assert |Accounted(Completed(s, offer, token)) + Gone(s, offer)| == |Accounted(Completed(s, offer, token))| + |Gone(s, offer)|;
  }

  // ------------------------------------------------------------- whole runs

  ghost predicate Possible(s: State, steps: seq<Step>)
    decreases |steps|
  {
    steps == [] || (Enabled(s, steps[0]) && Possible(Next(s, steps[0]), steps[1..]))
  }

  ghost function Run(s: State, steps: seq<Step>): State
    requires Possible(s, steps)
    decreases |steps|
  {
    if steps == [] then s else Run(Next(s, steps[0]), steps[1..])
  }

  /** How many steps of a run overwrite a live session. */
  ghost function Overwritten(s: State, steps: seq<Step>): nat
    requires Possible(s, steps)
    decreases |steps|
  {
    if steps == [] then 0
    else (if Overwrites(s, steps[0]) then 1 else 0) + Overwritten(Next(s, steps[0]), steps[1..])
  }

  lemma {:induction false} RunInv(s: State, steps: seq<Step>)
    requires Inv(s) && Possible(s, steps)
    ensures Inv(Run(s, steps))
    ensures Lost(Run(s, steps)) == Lost(s) + Overwritten(s, steps)
    ensures s.closed ==> Run(s, steps).closed
    decreases |steps|
  {
    if steps != [] {
      StepInv(s, steps[0]);
      RunInv(Next(s, steps[0]), steps[1..]);
    }
  }

  /** In every interleaving, exactly as many tokens are lost as live sessions are
      overwritten; so the ledger holds if and only if none is. */
  lemma LedgerIff(steps: seq<Step>)
    requires Possible(START, steps)
    ensures Lost(Run(START, steps)) == Overwritten(START, steps)
    ensures Conserved(Run(START, steps)) <==> Overwritten(START, steps) == 0
  {
    StartInv();
    RunInv(START, steps);
    ConservedIffNoneLost(Run(START, steps));
  }

  lemma StartInv()
    ensures Inv(START) && Lost(START) == 0
  {
    assert Live(START) == {};
    assert Accounted(START) == multiset{};
  }

  /** In every interleaving no token is live and closed, or closed twice, and none
      appears from nowhere; if no live session is overwritten, each token
      obtained is live or was given to exactly one close. */
  lemma TokensConserved(steps: seq<Step>, t: Ticket)
    requires Possible(START, steps)
    ensures var s := Run(START, steps);
      && (t in Live(s) ==> t in s.obtained && s.closes[t] == 0)
      && s.closes[t] <= (if t in s.obtained then 1 else 0)
      && (Overwritten(START, steps) == 0 && t in s.obtained ==> (if t in Live(s) then s.closes[t] == 0 else s.closes[t] == 1))
  {
    StartInv();
    RunInv(START, steps);
    LedgerIff(steps);
    var s := Run(START, steps);
    LiveNotClosed(s, t);
    assert multiset(Live(s))[t] + s.closes[t] == Accounted(s)[t] <= multiset(s.obtained)[t];
  }

  /** Shutdown and waiting for what it started is final: nothing is live, every
      close has returned, and every token obtained was closed exactly once unless
      a session was overwritten before. */
  lemma ShutdownSettles(steps: seq<Step>)
    requires Possible(START, steps)
    requires Shut in steps
    ensures var s := Run(START, steps);
      s.closed && s.sessions == map[] && s.pending == map[]
      && (s.direct == {} && s.closeTasks == {} ==>
        s.finished == s.closes && (s.finished == multiset(s.obtained) <==> Overwritten(START, steps) == 0))
  {
    StartInv();
    RunInv(START, steps);
    ShutCloses(START, steps);
    LedgerIff(steps);
    var s := Run(START, steps);
    assert Live(s) == {};
    assert Accounted(s) == s.closes;
  }

  lemma {:induction false} ShutCloses(s: State, steps: seq<Step>)
    requires Inv(s) && Possible(s, steps) && Shut in steps
    ensures Run(s, steps).closed
    decreases |steps|
  {
    StepInv(s, steps[0]);
    if steps[0] == Shut {
      RunInv(Next(s, Shut), steps[1..]);
    } else {
      ShutCloses(Next(s, steps[0]), steps[1..]);
    }
  }

  // ------------------------------------------------------------- fresh ids

  /** The frontend's part: it does not offer again under a live session's id. */
  ghost predicate FreshIds(s: State, step: Step) {
    step.Begin? ==> step.o.session !in s.sessions
  }

  ghost predicate AllFresh(s: State, steps: seq<Step>)
    requires Possible(s, steps)
    decreases |steps|
  {
    steps == [] || (FreshIds(s, steps[0]) && AllFresh(Next(s, steps[0]), steps[1..]))
  }

  ghost predicate Disjoint(s: State) { s.pending.Keys !! s.sessions.Keys }

  /** With fresh ids no id is ever both pending and live, so nothing is
      overwritten and the ledger holds. */
  lemma {:induction false} FreshRuns(s: State, steps: seq<Step>)
    requires Possible(s, steps) && AllFresh(s, steps) && Disjoint(s)
    ensures Disjoint(Run(s, steps)) && Overwritten(s, steps) == 0
    decreases |steps|
  {
    if steps != [] {
      DisjointStep(s, steps[0]);
      FreshRuns(Next(s, steps[0]), steps[1..]);
    }
  }

  lemma DisjointStep(s: State, step: Step)
    requires Enabled(s, step) && FreshIds(s, step) && Disjoint(s)
    ensures Disjoint(Next(s, step)) && !Overwrites(s, step)
  {
  }

  /** An offer keeps them apart exactly when its id is not live. */
  lemma BeginKeepsDisjointIff(s: State, offer: nat, o: Offer)
    requires Disjoint(s) && !s.closed
    ensures Disjoint(Begun(s, offer, o)) <==> o.session !in s.sessions
  {
    assert o.session in Begun(s, offer, o).pending;
  }

  /** Two offers, one after the other, under one id. */
  function Reoffer(id: SessionId, entity: string, stream: string, a: string, b: string): seq<Step> {
    var o := Offer(id, entity, stream);
    [Begin(0, o)] + ([Complete(0, a)] + ([Begin(1, o)] + ([Complete(1, b)] + [])))
  }

  lemma RunCons(s: State, step: Step, rest: seq<Step>)
    requires Enabled(s, step) && Possible(Next(s, step), rest)
    ensures Possible(s, [step] + rest) && Run(s, [step] + rest) == Run(Next(s, step), rest)
  {
    assert ([step] + rest)[1..] == rest;
  }

  /** The loss is reachable: the first token is then obtained, not live, and
      handed to no close. */
  lemma ReofferLosesToken(id: SessionId, entity: string, stream: string, a: string, b: string)
    requires a != b
    ensures Possible(START, Reoffer(id, entity, stream, a, b))
    ensures var s, t := Run(START, Reoffer(id, entity, stream, a, b)), Ticket(id, a);
      t in s.obtained && t !in Live(s) && s.closes[t] == 0
  {
    var o := Offer(id, entity, stream);
    var s1 := Next(START, Begin(0, o));
    var s2 := Next(s1, Complete(0, a));
    var s3 := Next(s2, Begin(1, o));
    var s4 := Next(s3, Complete(1, b));
    RunCons(s3, Complete(1, b), []);
    RunCons(s2, Begin(1, o), [Complete(1, b)] + []);
    RunCons(s1, Complete(0, a), [Begin(1, o)] + ([Complete(1, b)] + []));
    RunCons(START, Begin(0, o), [Complete(0, a)] + ([Begin(1, o)] + ([Complete(1, b)] + [])));
  }
}

/** How Esql hands queries to its connections: `esql_events.c`, `esql_pool.c`, `esql_query.c` and `esql_connect.c` as steps
    over values. A pool has several members; an Esql of its own is the one member of a state that is not pooled. What the
    backend, the clock, the descriptors and the callbacks do is the answer of the environment at each tick. */
module Scheduler {
  const ID_MAX := 0xFFFF_FFFF

  datatype Option<T> = None | Some(value: T)

  /* Esql_Connect_Type */
  datatype Phase = Idle | Init | DbSet | Query

  /** A query that was accepted: its id, text and user data (0 for NULL), and the how many-eth it was. */
  datatype Sent = Sent(id: nat, text: string, data: nat, no: nat)

  /** A queued call. */
  datatype Call = SetDatabase(name: string) | RunQuery(sent: Sent)

  /** How a query left: its result or its error went to the callback, its result went out as an event, it was forgotten
      after an error, or it was overwritten by a new connection. */
  datatype Ending = Called | Emitted | Failed | Dropped | Lost

  datatype Settled = Settled(sent: Sent, how: Ending)

  /** One Esql. `held` is cur_id, cur_query and cur_data, None when cur_query is NULL; `started` is query_start. */
  datatype Member = Member(connected: bool, open: bool, current: Phase, held: Option<Sent>, started: real, queue: seq<Call>)

  datatype Io = Done | Again | Bad

  /** A query that a callback submits, with or without a callback of its own. */
  datatype Ask = Ask(text: string, data: nat, hook: bool)

  /** What the environment answers: `io`, `error_get`, the error state of the descriptor, the time, a callback's queries. */
  datatype Answer = Answer(io: Io, fails: bool, broken: bool, now: real, asks: seq<Ask>)

  datatype State = State(
    pooled: bool, members: seq<Member>, eConnected: int, poolConnected: bool,
    lastId: nat, data: map<nat, nat>, callbacks: set<nat>,
    env: nat -> Answer, tick: nat, budget: nat, // budget: queries that callbacks may still submit in this step
    accepted: seq<Sent>, settled: seq<Settled>, registered: multiset<nat>, fired: multiset<nat>,
    announced: nat, unique: bool, dbSets: nat,
    notified: nat) // notified: how often the connect callback has been called

  /** A new pool of `n` members, or a new Esql (`n` is 1). */
  function Start(pooled: bool, n: nat, env: nat -> Answer): State
  {
    State(pooled, seq(n, _ => Member(false, false, Idle, None, 0.0, [])), 0, false, 0, map[], {}, env, 0, 0,
          [], [], multiset{}, multiset{}, 0, true, 0, 0)
  }

  /** `while (++esql_id < 1)` */
  function NextId(last: nat): nat { if last >= ID_MAX then 1 else last + 1 }

  /** `while (!(--esql_id))` */
  function PrevId(id: nat): nat { if id <= 1 then ID_MAX else id - 1 }

  function Answered(s: State): Answer { s.env(s.tick) }

  function With(s: State, m: nat, e: Member): State
    requires m < |s.members|
  {
    s.(members := s.members[m := e])
  }

  /* What is where. */

  /** The query a connection is working on. */
  function Slot(e: Member): seq<Sent>
  {
    if e.current.Query? && e.held.Some? then [e.held.value] else []
  }

  /** The queries among queued calls. */
  function Queries(queue: seq<Call>): seq<Sent>
  {
    if queue == [] then []
    else (if queue[0].RunQuery? then [queue[0].sent] else []) + Queries(queue[1..])
  }

  /** The queries in the current slots. */
  ghost function Working(ms: seq<Member>): multiset<Sent>
  {
    if ms == [] then multiset{} else multiset(Slot(ms[0])) + Working(ms[1..])
  }

  /** The queries in the queues. */
  ghost function Waiting(ms: seq<Member>): multiset<Sent>
  {
    if ms == [] then multiset{} else multiset(Queries(ms[0].queue)) + Waiting(ms[1..])
  }

  ghost predicate Outstanding(s: State, id: nat)
  {
    exists x :: x in Working(s.members) + Waiting(s.members) && x.id == id
  }

  function Ended(settled: seq<Settled>): (r: seq<Sent>)
    ensures |r| == |settled|
  {
    seq(|settled|, k requires 0 <= k < |settled| => settled[k].sent)
  }

  /* esql_pool_idle_find_ */

  /** The first idle member from `k` on, |ms| if there is none. */
  function FirstIdle(ms: seq<Member>, k: nat): (r: nat)
    requires k <= |ms|
    ensures k <= r <= |ms| && (r < |ms| ==> ms[r].current.Idle?)
    ensures forall j :: k <= j < r ==> !ms[j].current.Idle?
    decreases |ms| - k
  {
    if k == |ms| || ms[k].current.Idle? then k else FirstIdle(ms, k + 1)
  }

  /** The scan for the query that has run longest, from member `k` on: `use` has run for `cur`, |ms| is nobody yet. */
  function Longest(ms: seq<Member>, now: real, k: nat, cur: real, use: nat): (r: nat)
    requires k <= |ms| && use <= |ms|
    ensures r <= |ms|
    decreases |ms| - k
  {
    if k == |ms| then use
    else if now - ms[k].started > cur then Longest(ms, now, k + 1, now - ms[k].started, k)
    else Longest(ms, now, k + 1, cur, use)
  }

  function IdleFind(ms: seq<Member>, now: real): (r: nat)
    requires |ms| > 0
    ensures r < |ms|
  {
    var i := FirstIdle(ms, 0);
    if i < |ms| then i
    else
      var use := Longest(ms, now, 0, 0.0, |ms|);
      if use < |ms| then use else 0
  }

  /* esql_query */

  /** A connected member that is given the query `x`: an idle one starts it, unless the backend fails. */
  function Given(e: Member, x: Sent, a: Answer): Member
  {
    if !e.current.Idle? then e.(queue := e.queue + [RunQuery(x)])
    else if a.fails then e.(started := a.now)
    else e.(started := a.now, current := Query, held := Some(x))
  }

  /** `esql_query` on member `m`: the new state, and the id or 0. */
  ghost function SubmitTo(s: State, m: nat, text: string, data: nat): (r: (State, nat))
    requires m < |s.members|
    ensures |r.0.members| == |s.members| && r.0.pooled == s.pooled && r.0.budget == s.budget && r.0.dbSets == s.dbSets
  {
    var e, a, id := s.members[m], Answered(s), NextId(s.lastId);
    var x := Sent(id, text, data, |s.accepted|);
    var s1 := s.(members := s.members[m := Given(e, x, a)], tick := if e.current.Idle? then s.tick + 1 else s.tick);
    if !e.connected then (s, 0)
    else if e.current.Idle? && a.fails then (s1.(lastId := PrevId(id)), 0)
    else
      (s1.(lastId := id, accepted := s.accepted + [x], unique := s.unique && !Outstanding(s, id),
           data := if !e.current.Idle? && data != 0 then s.data[id := data] else s.data), id)
  }

  ghost function Submit(s: State, text: string, data: nat): (r: (State, nat))
    requires |s.members| > 0
    ensures |r.0.members| == |s.members| && r.0.dbSets == s.dbSets
  {
    if !s.pooled then SubmitTo(s, 0, text, data)
    else if !s.poolConnected then (s, 0)
    else SubmitTo(s, IdleFind(s.members, Answered(s).now), text, data)
  }

  /** `esql_query_callback_set` */
  function Hook(s: State, id: nat): State
  {
    if id < 1 then s else s.(callbacks := s.callbacks + {id}, registered := s.registered + multiset{id})
  }

  /** The queries a callback submits, one after the other. */
  ghost function Asks(s: State, asks: seq<Ask>): (r: State)
    requires |s.members| > 0
    ensures |r.members| == |s.members| && r.dbSets == s.dbSets
    decreases |asks|
  {
    if asks == [] then s
    else
      var (s1, id) := Submit(s, asks[0].text, asks[0].data);
      Asks(if asks[0].hook then Hook(s1, id) else s1, asks[1..])
  }

  /* esql_events.c: each function ends by calling at most one other, on the same member. */

  datatype Control = Return | AtHandler(m: nat) | AtComplete(m: nat) | AtError(m: nat) | AtNext(m: nat)

  /** `esql_disconnect` */
  function Disconnect(s: State, m: nat): State
    requires m < |s.members|
  {
    var e := s.members[m];
    With(s, m, e.(connected := false, open := false))
      .(eConnected := if e.connected && s.pooled then s.eConnected - 1 else s.eConnected)
  }

  /** The query of member `m` is over. */
  function Settle(s: State, m: nat, how: Ending): State
    requires m < |s.members| && s.members[m].held.Some?
  {
    With(s, m, s.members[m].(held := None)).(settled := s.settled + [Settled(s.members[m].held.value, how)])
  }

  /** What a callback does: it may submit queries. */
  ghost function Respond(s: State): (r: State)
    requires |s.members| > 0
    ensures |r.members| == |s.members| && r.dbSets == s.dbSets
  {
    var asks := Answered(s).asks;
    var n := if |asks| <= s.budget then |asks| else s.budget;
    Asks(s.(tick := s.tick + 1, budget := s.budget - n), asks[..n])
  }

  /** The connect callback. */
  ghost function Notify(s: State): (r: State)
    requires |s.members| > 0
    ensures |r.members| == |s.members| && r.dbSets == s.dbSets
  {
    Respond(s.(notified := s.notified + 1))
  }

  /** The callback of query `id` of member `m`, which is unhooked when it returns. */
  ghost function Callback(s: State, m: nat, id: nat): (r: State)
    requires m < |s.members|
    ensures |r.members| == |s.members| && r.dbSets == s.dbSets
  {
    var s1 := Respond(s);
    With(s1, m, s1.members[m].(started := 0.0)).(callbacks := s1.callbacks - {id}, fired := s1.fired + multiset{id})
  }

  /** `esql_connect_handler` */
  function HandlerStep(s: State, m: nat): (State, Control)
  {
    var s1 := s.(tick := s.tick + 1);
    match Answered(s).io
    case Done => (s1, AtComplete(m))
    case Again => (s1, Return)
    case Bad => (s1, AtError(m))
  }

  /** A connection has been made. */
  function Connected(s: State, m: nat): State
    requires m < |s.members|
  {
    var s1 := With(s, m, s.members[m].(connected := true));
    if !s.pooled then s1.(announced := s.announced + 1)
    else
      var s2 := s1.(eConnected := s.eConnected + 1);
      if !s.poolConnected && s2.eConnected == |s.members| then s2.(poolConnected := true, announced := s.announced + 1)
      else s2
  }

  /** The same with the connect callback, which is called when the connection is announced. */
  ghost function Announce(s: State, m: nat): (r: State)
    requires m < |s.members|
    ensures |r.members| == |s.members| && r.dbSets == s.dbSets
  {
    var s1 := Connected(s, m);
    if s1.announced > s.announced then Notify(s1) else s1
  }

  /** `esql_call_complete` */
  ghost function CompleteStep(s: State, m: nat): (State, Control)
    requires m < |s.members|
  {
    var e := s.members[m];
    match e.current
    case Init => (Announce(s, m), AtNext(m))
    case Query =>
      if e.held.None? then (s, AtNext(m))
      else
        var id := e.held.value.id;
        if id in s.callbacks then (Callback(Settle(s, m, Called), m, id), AtNext(m))
        else (Settle(s, m, Emitted), AtNext(m))
    case _ => (s, AtNext(m))
  }

  /** `esql_event_error`; a connection that fails calls the connect callback. */
  ghost function ErrorStep(s: State, m: nat): (State, Control)
    requires m < |s.members|
  {
    var e := s.members[m];
    if e.current.Query? then
      var s1 := if e.held.Some? && e.held.value.id in s.callbacks
                then Callback(Settle(s, m, Failed), m, e.held.value.id) else s;
      var s2 := s1.(tick := s1.tick + 1);
      if Answered(s1).broken then (Disconnect(s2, m), Return) else (s2, AtNext(m))
    else
      (Disconnect(Notify(s), m), Return)
  }

  /* esql_pool_rebalance */

  predicate Ready(e: Member)
  {
    e.queue != [] && e.queue[0].RunQuery?
  }

  /** The first member from `k` on whose next call is a query, |ms| if there is none. */
  function FirstReady(ms: seq<Member>, k: nat): (r: nat)
    requires k <= |ms|
    ensures k <= r <= |ms| && (r < |ms| ==> Ready(ms[r]))
    ensures forall j :: k <= j < r ==> !Ready(ms[j])
    decreases |ms| - k
  {
    if k == |ms| || Ready(ms[k]) then k else FirstReady(ms, k + 1)
  }

  /** Moves the first call of member `i` to the end of the queue of member `m`. */
  function Move(s: State, i: nat, m: nat): State
    requires i < |s.members| && m < |s.members| && i != m && s.members[i].queue != []
  {
    var from, to := s.members[i], s.members[m];
    With(With(s, i, from.(queue := from.queue[1..])), m, to.(queue := to.queue + [from.queue[0]]))
  }

  /** The part of `esql_next` that forgets what the member was doing. */
  function Forget(s: State, m: nat): State
    requires m < |s.members|
  {
    var e := s.members[m];
    With(s, m, e.(current := Idle))
      .(settled := if Slot(e) == [] then s.settled else s.settled + [Settled(e.held.value, Dropped)])
  }

  function Lookup(data: map<nat, nat>, id: nat): nat { if id in data then data[id] else 0 }

  /** The part of `esql_next` that starts the next call; a database change that cannot be made is queued again. */
  function Dispatch(s: State, m: nat): (State, Control)
    requires m < |s.members| && s.members[m].queue != []
  {
    var e := s.members[m];
    match e.queue[0]
    case SetDatabase(_) =>
      if e.connected then (With(s, m, e.(current := DbSet, queue := e.queue[1..])), AtHandler(m))
      else (With(s, m, e.(queue := e.queue[1..] + [e.queue[0]])), AtHandler(m))
    case RunQuery(x) =>
      var s1 := With(s, m, e.(current := Query, held := Some(x.(data := Lookup(s.data, x.id))), started := Answered(s).now,
                              queue := e.queue[1..]));
      (s1.(tick := s.tick + 1, data := if Lookup(s.data, x.id) != 0 then s.data - {x.id} else s.data),
       if Answered(s).fails then AtError(m) else AtHandler(m))
  }

  /** `esql_next` */
  function NextStep(s: State, m: nat): (State, Control)
    requires m < |s.members|
  {
    var s1 := Forget(s, m);
    if s.members[m].queue != [] then Dispatch(s1, m)
    else if !s.pooled then (s1, Return)
    else
      var i := FirstReady(s1.members, 0);
      if i < |s1.members| then Dispatch(Move(s1, i, m), m) else (s1, Return)
  }

  ghost function Step(s: State, c: Control): (State, Control)
    requires !c.Return? && c.m < |s.members|
  {
    match c
    case AtHandler(m) => HandlerStep(s, m)
    case AtComplete(m) => CompleteStep(s, m)
    case AtError(m) => ErrorStep(s, m)
    case AtNext(m) => NextStep(s, m)
  }

  /* Every call returns. */

  /** A connection is open when it is connected or being made, and an open one that runs a query holds it, except
      between the end of the query and the next call. */
  predicate MemberOk(e: Member, between: bool)
  {
    && (e.connected ==> e.open) && (e.current.Init? && !between ==> !e.connected)
    && (e.open && !e.connected ==> e.current.Init?)
    && (e.open && e.current.Query? && !between ==> e.held.Some?)
  }

  predicate Ok(s: State, c: Control)
  {
    && |s.members| > 0 && (!s.pooled ==> |s.members| == 1)
    && (forall j :: 0 <= j < |s.members| ==> MemberOk(s.members[j], c.AtNext? && c.m == j))
    && (!c.Return? ==> c.m < |s.members| && s.members[c.m].open)
    && (c.AtNext? ==> s.members[c.m].connected)
  }

  function Queued(ms: seq<Member>): nat
  {
    if ms == [] then 0 else |ms[0].queue| + Queued(ms[1..])
  }

  /** Calls that are queued or may still be. */
  function Work(s: State): nat { Queued(s.members) + s.budget }

  function Rank(c: Control): nat
  {
    match c
    case AtHandler(_) => 3
    case AtComplete(_) => 2
    case AtError(_) => 2
    case AtNext(_) => 1
    case Return => 0
  }

  lemma {:induction false} QueuedWith(ms: seq<Member>, m: nat, e: Member)
    requires m < |ms|
    ensures Queued(ms[m := e]) == Queued(ms) - |ms[m].queue| + |e.queue|
  {
    if m == 0 {
      assert ms[m := e] == [e] + ms[1..];
    } else {
      assert ms[m := e][1..] == ms[1..][m - 1 := e];
      QueuedWith(ms[1..], m - 1, e);
    }
  }

  /** A change of member `m` alone. */
  lemma OkWith(s: State, s': State, m: nat, e: Member, c: Control)
    requires Ok(s, c) && m < |s.members| && MemberOk(e, c.AtNext? && c.m == m)
    requires !c.Return? && c.m == m ==> e.open && (c.AtNext? ==> e.connected)
    requires s'.members == s.members[m := e] && s'.pooled == s.pooled
    ensures Ok(s', c) && Queued(s'.members) == Queued(s.members) - |s.members[m].queue| + |e.queue|
  {
    QueuedWith(s.members, m, e);
  }

  lemma SubmitToOk(s: State, m: nat, text: string, data: nat, c: Control)
    requires Ok(s, c) && m < |s.members|
    ensures var s1 := SubmitTo(s, m, text, data).0; Ok(s1, c) && Queued(s1.members) <= Queued(s.members) + 1
  {
    hide Ok, Outstanding;
    MembersOk(s, c, m);
    if s.members[m].connected {
      OkWith(s, SubmitTo(s, m, text, data).0, m,
             Given(s.members[m], Sent(NextId(s.lastId), text, data, |s.accepted|), Answered(s)), c);
    }
  }

  lemma MembersOk(s: State, c: Control, m: nat)
    requires Ok(s, c) && (m < |s.members| || (!c.Return? && c.m == m))
    ensures m < |s.members| && MemberOk(s.members[m], c.AtNext? && c.m == m)
    ensures !c.Return? && c.m == m ==> s.members[m].open && (c.AtNext? ==> s.members[m].connected)
    ensures |s.members| > 0 && (!s.pooled ==> m == 0) && (!c.Return? ==> c.m < |s.members|)
  {}

  lemma SubmitOk(s: State, text: string, data: nat, c: Control)
    requires Ok(s, c)
    ensures var s1 := Submit(s, text, data).0;
            Ok(s1, c) && Queued(s1.members) <= Queued(s.members) + 1 && s1.budget == s.budget
  {
    hide SubmitTo, IdleFind;
    if !s.pooled {
      SubmitToOk(s, 0, text, data, c);
    } else if s.poolConnected {
      SubmitToOk(s, IdleFind(s.members, Answered(s).now), text, data, c);
    }
  }

  lemma {:induction false} AsksOk(s: State, asks: seq<Ask>, c: Control)
    requires Ok(s, c)
    ensures Ok(Asks(s, asks), c) && Work(Asks(s, asks)) <= Work(s) + |asks|
    decreases |asks|
  {
    hide Submit;
    if asks != [] {
      SubmitOk(s, asks[0].text, asks[0].data, c);
      var (s1, id) := Submit(s, asks[0].text, asks[0].data);
      AsksOk(if asks[0].hook then Hook(s1, id) else s1, asks[1..], c);
    }
  }

  lemma RespondOk(s: State, c: Control)
    requires Ok(s, c)
    ensures |s.members| > 0 && Ok(Respond(s), c) && Work(Respond(s)) <= Work(s)
  {
    hide Asks;
    var asks := Answered(s).asks;
    var n := if |asks| <= s.budget then |asks| else s.budget;
    var s0 := s.(tick := s.tick + 1, budget := s.budget - n);
    OkSame(s, s0, c);
    AsksOk(s0, asks[..n], c);
  }

  lemma NotifyOk(s: State, c: Control)
    requires Ok(s, c)
    ensures |s.members| > 0 && Ok(Notify(s), c) && Work(Notify(s)) <= Work(s)
  {
    hide Respond;
    OkSame(s, s.(notified := s.notified + 1), c);
    RespondOk(s.(notified := s.notified + 1), c);
  }

  lemma CallbackOk(s: State, m: nat, id: nat, c: Control)
    requires Ok(s, c) && m < |s.members|
    ensures Ok(Callback(s, m, id), c) && Work(Callback(s, m, id)) <= Work(s)
  {
    hide Respond, Ok;
    MembersOk(s, c, m);
    RespondOk(s, c);
    var s1 := Respond(s);
    MembersOk(s1, c, m);
    OkWith(s1, Callback(s, m, id), m, s1.members[m].(started := 0.0), c);
  }

  lemma OkSame(s: State, s': State, c: Control)
    requires Ok(s, c) && s'.members == s.members && s'.pooled == s.pooled
    ensures Ok(s', c)
  {}

  lemma SettleOk(s: State, m: nat, how: Ending)
    requires Ok(s, AtComplete(m)) && s.members[m].held.Some? && s.members[m].connected
    ensures Ok(Settle(s, m, how), AtNext(m)) && Work(Settle(s, m, how)) == Work(s)
  {
    OkWith(s, Settle(s, m, how), m, s.members[m].(held := None), AtNext(m));
  }

  lemma MoveOk(s: State, i: nat, m: nat)
    requires Ok(s, AtNext(m)) && i < |s.members| && m < |s.members| && i != m && s.members[i].queue != []
    ensures Ok(Move(s, i, m), AtNext(m)) && Work(Move(s, i, m)) == Work(s) && Move(s, i, m).members[m].queue != []
  {
    hide Ok;
    var from, to := s.members[i], s.members[m];
    var s1 := With(s, i, from.(queue := from.queue[1..]));
    MembersOk(s, AtNext(m), i);
    OkWith(s, s1, i, from.(queue := from.queue[1..]), AtNext(m));
    MembersOk(s1, AtNext(m), m);
    OkWith(s1, Move(s, i, m), m, to.(queue := to.queue + [from.queue[0]]), AtNext(m));
  }

  lemma DispatchOk(s: State, m: nat)
    requires Ok(s, AtNext(m)) && s.members[m].queue != []
    ensures var (s1, c1) := Dispatch(s, m); Ok(s1, c1) && Work(s1) == Work(s) - 1 && !c1.Return? && c1.m == m
  {
    var (s1, c1) := Dispatch(s, m);
    assert s1.members == s.members[m := s1.members[m]];
    OkWith(s, s1, m, s1.members[m], AtNext(m));
  }

  lemma NextOk(s: State, m: nat)
    requires Ok(s, AtNext(m))
    ensures var (s1, c1) := NextStep(s, m); Ok(s1, c1) && Work(s1) <= Work(s) && (!c1.Return? ==> Work(s1) < Work(s))
  {
    hide Ok, Dispatch, Move;
    MembersOk(s, AtNext(m), m);
    var s0 := Forget(s, m);
    OkWith(s, s0, m, s.members[m].(current := Idle), AtNext(m));
    if s.members[m].queue != [] {
      DispatchOk(s0, m);
    } else {
      ForgetOk(s, m);
      var i := FirstReady(s0.members, 0);
      if s.pooled && i < |s0.members| {
        MoveOk(s0, i, m);
        DispatchOk(Move(s0, i, m), m);
      }
    }
  }

  lemma ForgetOk(s: State, m: nat)
    requires Ok(s, AtNext(m))
    ensures Ok(Forget(s, m), Return)
  {}

  lemma DisconnectOk(s: State, m: nat, c: Control)
    requires Ok(s, c) && m < |s.members| && (c.AtNext? ==> c.m == m)
    ensures Ok(Disconnect(s, m), Return) && Work(Disconnect(s, m)) == Work(s)
  {
    QueuedWith(s.members, m, s.members[m].(connected := false, open := false));
  }

  lemma CompleteOk(s: State, m: nat)
    requires Ok(s, AtComplete(m))
    ensures var (s1, c1) := CompleteStep(s, m); Ok(s1, c1) && Work(s1) <= Work(s) && c1 == AtNext(m)
  {
    hide Callback, Ok, Settle, Connected, Notify;
    MembersOk(s, AtComplete(m), m);
    var e := s.members[m];
    if e.current.Init? {
      ConnectedOk(s, m);
      NotifyOk(Connected(s, m), AtNext(m));
    } else if e.current.Query? {
      SettleOk(s, m, Called);
      SettleOk(s, m, Emitted);
      CallbackOk(Settle(s, m, Called), m, e.held.value.id, AtNext(m));
    } else {
      OkWith(s, s, m, e, AtComplete(m));
      OkOn(s, m);
    }
  }

  lemma ConnectedOk(s: State, m: nat)
    requires Ok(s, AtComplete(m)) && s.members[m].current.Init?
    ensures Ok(Connected(s, m), AtNext(m)) && Work(Connected(s, m)) == Work(s)
  {
    QueuedWith(s.members, m, s.members[m].(connected := true));
  }

  /** From a finished call to the next one. */
  lemma OkOn(s: State, m: nat)
    requires Ok(s, AtComplete(m)) && s.members[m].connected
    ensures Ok(s, AtNext(m))
  {}

  lemma ErrorOk(s: State, m: nat)
    requires Ok(s, AtError(m))
    ensures var (s1, c1) := ErrorStep(s, m); Ok(s1, c1) && Work(s1) <= Work(s) && c1 in {AtNext(m), Return}
  {
    hide Callback, Ok, Settle, Disconnect, Notify;
    MembersOk(s, AtError(m), m);
    var e := s.members[m];
    OkOther(s, m);
    if e.current.Query? {
      SettleOk(s, m, Failed);
      CallbackOk(Settle(s, m, Failed), m, e.held.value.id, AtNext(m));
      OkOn(s, m);
      var s1 := if e.held.value.id in s.callbacks then Callback(Settle(s, m, Failed), m, e.held.value.id) else s;
      OkSame(s1, s1.(tick := s1.tick + 1), AtNext(m));
      DisconnectOk(s1.(tick := s1.tick + 1), m, AtNext(m));
    } else {
      NotifyOk(s, AtError(m));
      DisconnectOk(Notify(s), m, AtError(m));
    }
  }

  lemma OkOther(s: State, m: nat)
    requires Ok(s, AtError(m))
    ensures Ok(s, AtComplete(m))
  {}

  /** One step of a chain of calls brings it nearer to its end. */
  lemma StepOk(s: State, c: Control)
    requires Ok(s, c) && !c.Return?
    ensures var (s1, c1) := Step(s, c); Ok(s1, c1) && Work(s1) <= Work(s) && (Work(s1) < Work(s) || Rank(c1) < Rank(c))
  {
    hide CompleteStep, ErrorStep, NextStep;
    match c
    case AtHandler(_) =>
    case AtComplete(m) => CompleteOk(s, m);
    case AtError(m) => ErrorOk(s, m);
    case AtNext(m) => NextOk(s, m);
  }

  /** The chain of calls that begins at `c`, to its end. */
  ghost function Finish(s: State, c: Control): State
    requires Ok(s, c)
    decreases Work(s), Rank(c)
  {
    if c.Return? then s
    else
      StepOk(s, c);
      var (s1, c1) := Step(s, c);
      Finish(s1, c1)
  }
}

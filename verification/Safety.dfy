/** What every run of the scheduler keeps. */
module Safety {
  import opened Scheduler
  import opened Ledger

  /* What a user and the event loop can do. */

  /** `esql_connect` on member `m`; a query that a closed connection was working on is forgotten. */
  function Connect(s: State, m: nat): State
    requires m < |s.members|
  {
    var e := s.members[m];
    if e.connected then s
    else if Answered(s).fails then s.(tick := s.tick + 1)
    else
      With(s, m, e.(open := true, current := Init))
        .(tick := s.tick + 1, settled := if Slot(e) == [] then s.settled else s.settled + [Settled(e.held.value, Lost)])
  }

  /** `esql_database_set` on member `m` */
  function ChangeDatabase(s: State, m: nat, name: string): State
    requires m < |s.members|
  {
    var e := s.members[m];
    With(s, m, if e.current.Idle? && e.connected then e.(current := DbSet) else e.(queue := e.queue + [SetDatabase(name)]))
      .(dbSets := s.dbSets + 1)
  }

  /** Members from `k` on, one after the other. */
  function ConnectFrom(s: State, k: nat): (r: State)
    requires k <= |s.members|
    ensures |r.members| == |s.members|
    decreases |s.members| - k
  {
    if k == |s.members| then s else ConnectFrom(Connect(s, k), k + 1)
  }

  function ChangeFrom(s: State, k: nat, name: string): (r: State)
    requires k <= |s.members|
    ensures |r.members| == |s.members|
    decreases |s.members| - k
  {
    if k == |s.members| then s else ChangeFrom(ChangeDatabase(s, k, name), k + 1, name)
  }

  function DisconnectFrom(s: State, k: nat): (r: State)
    requires k <= |s.members|
    ensures |r.members| == |s.members|
    decreases |s.members| - k
  {
    if k == |s.members| then s
    else DisconnectFrom(if s.members[k].connected then Disconnect(s, k) else s, k + 1)
  }

  /** `esql_disconnect` on the pool, or on the Esql */
  function DisconnectAll(s: State): State
    requires |s.members| > 0
  {
    if s.pooled then DisconnectFrom(s.(poolConnected := false, announced := 0), 0) else Disconnect(s, 0)
  }

  datatype Op =
    | DoSubmit(text: string, data: nat)
    | DoHook(id: nat)
    | DoChangeDatabase(name: string)
    | DoConnect
    | DoDisconnect
    | DoTimeout(m: nat)
    | DoIo(m: nat, budget: nat) // the descriptor of member m is ready; callbacks submit at most `budget` queries

  ghost function Apply(s: State, op: Op): (r: State)
    requires Ok(s, Return)
  {
    match op
    case DoSubmit(text, data) => Submit(s, text, data).0
    case DoHook(id) => Hook(s, id)
    case DoChangeDatabase(name) => ChangeFrom(s, 0, name)
    case DoConnect => ConnectFrom(s, 0)
    case DoDisconnect => DisconnectAll(s)
    case DoTimeout(m) => if m < |s.members| then Disconnect(s, m) else s
    case DoIo(m, budget) =>
      if m < |s.members| && s.members[m].open then Finish(s.(budget := budget), AtHandler(m)) else s
  }

  /* The invariants. */

  /** The numbers rise, and stay below `n`. */
  ghost predicate Rising(q: seq<Sent>, n: nat)
  {
    && (forall k :: 0 <= k < |q| ==> q[k].no < n)
    && (forall j, k :: 0 <= j < k < |q| ==> q[j].no < q[k].no)
  }

  /** Every queue is in the order of submission. */
  ghost predicate Sorted(s: State)
  {
    forall m :: 0 <= m < |s.members| ==> Rising(Queries(s.members[m].queue), |s.accepted|)
  }

  /** An Esql of its own ends queries in the order in which it accepted them. */
  ghost predicate InOrder(s: State)
  {
    !s.pooled && |s.members| == 1 && s.unique ==>
      s.accepted == Ended(s.settled) + Slot(s.members[0]) + Queries(s.members[0].queue)
  }

  /** An idle Esql has no query waiting. */
  ghost predicate Resting(s: State)
  {
    !s.pooled && |s.members| == 1 && s.members[0].current.Idle? ==> Queries(s.members[0].queue) == []
  }

  /** Unless the database has been changed, no query waits while a member is idle. */
  ghost predicate Busy(s: State)
  {
    s.dbSets == 0 ==>
      && (forall m, k :: 0 <= m < |s.members| && 0 <= k < |s.members[m].queue| ==> s.members[m].queue[k].RunQuery?)
      && (forall j, k :: 0 <= j < |s.members| && 0 <= k < |s.members| && s.members[j].current.Idle? ==>
            s.members[k].queue == [])
  }

  function NumConnected(ms: seq<Member>): nat
  {
    if ms == [] then 0 else (if ms[0].connected then 1 else 0) + NumConnected(ms[1..])
  }

  /** The pool counts its connected members, and has announced its connection once since it was disconnected if it says
      that it is connected, else not. */
  ghost predicate Counted(s: State)
  {
    s.pooled ==> s.eConnected == NumConnected(s.members) && s.announced == if s.poolConnected then 1 else 0
  }

  /** A callback is called at most as often as it was set, once more if it is still set. */
  ghost predicate Hooked(s: State)
  {
    forall id :: s.fired[id] + (if id in s.callbacks then 1 else 0) <= s.registered[id]
  }

  /** The first 2^32 - 1 queries are numbered in a row, so no id is given twice at a time. */
  ghost predicate Few(s: State)
  {
    && (|s.accepted| < ID_MAX ==> NextId(s.lastId) == |s.accepted| + 1)
    && (|s.accepted| <= ID_MAX ==> s.unique && forall i :: 0 <= i < |s.accepted| ==> s.accepted[i].id == i + 1)
  }

  /** What holds between any two steps. */
  ghost predicate Told(s: State)
  {
    Balanced(Books(s)) && Sorted(s) && InOrder(s) && Hooked(s) && Few(s)
  }

  ghost predicate Safe(s: State)
  {
    Told(s) && Resting(s) && Busy(s) && Counted(s)
  }

  /* The steps keep what holds between any two steps. */

  /** A change of member `m` that leaves its queries where they are. */
  lemma ToldWith(s: State, s': State, m: nat, e: Member)
    requires Told(s) && m < |s.members| && s'.members == s.members[m := e]
    requires Slot(e) == Slot(s.members[m]) && Queries(e.queue) == Queries(s.members[m].queue)
    requires s'.accepted == s.accepted && s'.settled == s.settled && s'.data == s.data
    requires s'.unique == s.unique && s'.lastId == s.lastId
    requires s'.pooled == s.pooled && Hooked(s')
    ensures Told(s')
  {
    hide Balanced, Slot, Queries, Hooked, Working, Waiting, Rising;
    WorkingSame(s.members, m, e);
    WaitingSame(s.members, m, e);
    assert Books(s') == Books(s);
  }

  lemma ToldSame(s: State, s': State)
    requires Told(s) && s'.members == s.members
    requires s'.accepted == s.accepted && s'.settled == s.settled && s'.data == s.data
    requires s'.unique == s.unique && s'.lastId == s.lastId
    requires s'.pooled == s.pooled && Hooked(s')
    ensures Told(s')
  {
    hide Balanced, Slot, Queries, Hooked, Working, Waiting, Rising;
    assert Books(s') == Books(s);
  }

  lemma SubmitBooks(s: State, m: nat, text: string, data: nat)
    requires m < |s.members| && s.members[m].connected && !(s.members[m].current.Idle? && Answered(s).fails)
    ensures var x := Sent(NextId(s.lastId), text, data, |s.accepted|);
            Accepts(Books(s), Books(SubmitTo(s, m, text, data).0), x, !s.members[m].current.Idle?)
  {
    hide Queries, Working, Waiting;
    var e, a := s.members[m], Answered(s);
    var x := Sent(NextId(s.lastId), text, data, |s.accepted|);
    QueriesSnoc(e.queue, RunQuery(x));
    if e.current.Idle? {
      WorkingMore(s.members, m, Given(e, x, a), x);
      WaitingSame(s.members, m, Given(e, x, a));
    } else {
      WorkingSame(s.members, m, Given(e, x, a));
      WaitingMore(s.members, m, Given(e, x, a), x);
    }
    forall y | !Outstanding(s, x.id) && y in Working(s.members) + Waiting(s.members) ensures y.id != x.id {}
  }

  lemma SortedWith(s: State, s': State, m: nat, e: Member)
    requires Sorted(s) && m < |s.members| && s'.members == s.members[m := e] && |s.accepted| <= |s'.accepted|
    requires Rising(Queries(e.queue), |s'.accepted|)
    ensures Sorted(s')
  {
    hide Queries;
  }

  lemma SubmitSorted(s: State, m: nat, text: string, data: nat)
    requires Sorted(s) && m < |s.members|
    ensures Sorted(SubmitTo(s, m, text, data).0)
  {
    hide Sorted, Outstanding;
    var e, a := s.members[m], Answered(s);
    var x := Sent(NextId(s.lastId), text, data, |s.accepted|);
    assert Rising(Queries(e.queue), |s.accepted|) by {
      RisingAt(s, m);
    }
    QueriesSnoc(e.queue, RunQuery(x));
    if e.connected {
      SortedWith(s, SubmitTo(s, m, text, data).0, m, Given(e, x, a));
    }
  }

  lemma RisingAt(s: State, m: nat)
    requires Sorted(s) && m < |s.members|
    ensures Rising(Queries(s.members[m].queue), |s.accepted|)
  {}

  lemma SubmitInOrder(s: State, m: nat, text: string, data: nat)
    requires InOrder(s) && m < |s.members| && (!s.pooled ==> Resting(s) || !s.members[m].current.Idle?)
    ensures InOrder(SubmitTo(s, m, text, data).0)
  {
    hide Outstanding, Queries;
    var e := s.members[m];
    var x := Sent(NextId(s.lastId), text, data, |s.accepted|);
    QueriesSnoc(e.queue, RunQuery(x));
  }

  lemma SubmitFew(s: State, m: nat, text: string, data: nat)
    requires Few(s) && Balanced(Books(s)) && m < |s.members|
    ensures Few(SubmitTo(s, m, text, data).0)
  {
    hide Outstanding, Working, Waiting, Kept, Found;
    if |s.accepted| < ID_MAX {
      NewId(s);
    }
  }

  lemma NewId(s: State)
    requires Few(s) && Balanced(Books(s)) && |s.accepted| < ID_MAX
    ensures !Outstanding(s, NextId(s.lastId))
  {
    hide Working, Waiting, Kept, Found;
    forall y | y in Working(s.members) + Waiting(s.members) ensures y.id != NextId(s.lastId) {
      assert y in multiset(s.accepted) by {
        assert y in Books(s).ended + Books(s).working + Books(s).waiting;
      }
      assert y in s.accepted;
    }
  }

  lemma SubmitToTold(s: State, m: nat, text: string, data: nat)
    requires Told(s) && m < |s.members| && (!s.pooled ==> Resting(s) || !s.members[m].current.Idle?)
    ensures Told(SubmitTo(s, m, text, data).0)
  {
    hide Balanced, Accepts, Outstanding, Sorted, InOrder, Resting, Working, Waiting, Queries, Few;
    var e, a, s1 := s.members[m], Answered(s), SubmitTo(s, m, text, data).0;
    var x := Sent(NextId(s.lastId), text, data, |s.accepted|);
    SubmitSorted(s, m, text, data);
    SubmitInOrder(s, m, text, data);
    SubmitFew(s, m, text, data);
    if e.connected {
      if e.current.Idle? && a.fails {
        WorkingSame(s.members, m, Given(e, x, a));
        WaitingSame(s.members, m, Given(e, x, a));
        assert Books(s1) == Books(s);
      } else {
        SubmitBooks(s, m, text, data);
        AcceptsBalanced(Books(s), Books(s1), x, !e.current.Idle?);
      }
    }
  }

  /** What a callback finds: no Esql is idle with a query waiting. */
  lemma SubmitTold(s: State, text: string, data: nat)
    requires Told(s) && Resting(s) && |s.members| > 0
    ensures Told(Submit(s, text, data).0) && Resting(Submit(s, text, data).0)
  {
    hide Told, IdleFind;
    var m := if s.pooled then IdleFind(s.members, Answered(s).now) else 0;
    SubmitToTold(s, m, text, data);
  }

  lemma {:induction false} AsksTold(s: State, asks: seq<Ask>)
    requires Told(s) && Resting(s) && |s.members| > 0
    ensures Told(Asks(s, asks)) && Resting(Asks(s, asks))
    decreases |asks|
  {
    hide Submit;
    if asks != [] {
      SubmitTold(s, asks[0].text, asks[0].data);
      var (s1, id) := Submit(s, asks[0].text, asks[0].data);
      HookTold(s1, id);
      AsksTold(if asks[0].hook then Hook(s1, id) else s1, asks[1..]);
    }
  }

  lemma HookTold(s: State, id: nat)
    requires Told(s)
    ensures Told(Hook(s, id)) && (Resting(s) ==> Resting(Hook(s, id)))
  {
    hide Balanced, Sorted, InOrder;
    ToldHook(s, id);
    ToldSame(s, Hook(s, id));
  }

  lemma ToldHook(s: State, id: nat)
    requires Hooked(s)
    ensures Hooked(Hook(s, id))
  {}

  /** A change of member `m` that ends its query `x`. */
  lemma EndTold(s: State, s': State, m: nat, e: Member, x: Sent, how: Ending)
    requires Told(s) && m < |s.members| && s'.members == s.members[m := e]
    requires Slot(s.members[m]) == [x] && Slot(e) == [] && e.queue == s.members[m].queue
    requires s'.settled == s.settled + [Settled(x, how)]
    requires s'.accepted == s.accepted && s'.data == s.data && s'.unique == s.unique && s'.pooled == s.pooled
    requires s'.lastId == s.lastId && s'.callbacks == s.callbacks && s'.fired == s.fired && s'.registered == s.registered
    ensures Told(s')
  {
    hide Balanced, Slot, Queries, Working, Waiting, Sorted, Rising;
    WorkingLess(s.members, m, e, x);
    WaitingSame(s.members, m, e);
    assert Ended(s'.settled) == Ended(s.settled) + [x];
    assert Ends(Books(s), Books(s'), x);
    EndsBalanced(Books(s), Books(s'), x);
    RisingAt(s, m);
    SortedWith(s, s', m, e);
  }

  lemma SettleTold(s: State, m: nat, how: Ending)
    requires Told(s) && m < |s.members| && s.members[m].held.Some? && s.members[m].current.Query?
    ensures Told(Settle(s, m, how))
  {
    hide Told;
    EndTold(s, Settle(s, m, how), m, s.members[m].(held := None), s.members[m].held.value, how);
  }

  lemma ForgetTold(s: State, m: nat)
    requires Told(s) && m < |s.members|
    ensures Told(Forget(s, m))
  {
    hide Told;
    var e := s.members[m].(current := Idle);
    if Slot(s.members[m]) == [] {
      assert Hooked(Forget(s, m)) by { ToldHooked(s, Forget(s, m)); }
      ToldWith(s, Forget(s, m), m, e);
    } else {
      EndTold(s, Forget(s, m), m, e, s.members[m].held.value, Dropped);
    }
  }

  lemma ToldHooked(s: State, s': State)
    requires Told(s) && s'.callbacks == s.callbacks && s'.fired == s.fired && s'.registered == s.registered
    ensures Hooked(s')
  {
    hide Balanced, Sorted, InOrder;
  }

  lemma {:induction false} AsksHooks(s: State, asks: seq<Ask>, id: nat)
    requires |s.members| > 0
    ensures id in s.callbacks ==> id in Asks(s, asks).callbacks
    decreases |asks|
  {
    hide SubmitTo, IdleFind;
    if asks != [] {
      var (s1, i) := Submit(s, asks[0].text, asks[0].data);
      SubmitHooks(s, asks[0].text, asks[0].data);
      AsksHooks(if asks[0].hook then Hook(s1, i) else s1, asks[1..], id);
    }
  }

  lemma SubmitHooks(s: State, text: string, data: nat)
    requires |s.members| > 0
    ensures Submit(s, text, data).0.callbacks == s.callbacks
  {}

  lemma RespondTold(s: State, id: nat)
    requires Told(s) && Resting(s) && |s.members| > 0
    ensures Told(Respond(s)) && Resting(Respond(s)) && (id in s.callbacks ==> id in Respond(s).callbacks)
  {
    hide Told, Resting, Asks;
    var asks := Answered(s).asks;
    var n := if |asks| <= s.budget then |asks| else s.budget;
    var s0 := s.(tick := s.tick + 1, budget := s.budget - n);
    ToldHooked(s, s0);
    ToldSame(s, s0);
    RestingSame(s, s0);
    AsksTold(s0, asks[..n]);
    AsksHooks(s0, asks[..n], id);
  }

  lemma CallbackTold(s: State, m: nat, id: nat)
    requires Told(s) && Resting(s) && m < |s.members| && id in s.callbacks
    ensures Told(Callback(s, m, id))
  {
    hide Told, Resting, Respond;
    RespondTold(s, id);
    var s1 := Respond(s);
    CallbackHooked(s1, Callback(s, m, id), id);
    ToldWith(s1, Callback(s, m, id), m, s1.members[m].(started := 0.0));
  }

  lemma CallbackHooked(s: State, s': State, id: nat)
    requires Told(s) && id in s.callbacks && s'.registered == s.registered
    requires s'.callbacks == s.callbacks - {id} && s'.fired == s.fired + multiset{id}
    ensures Hooked(s')
  {
    hide Balanced, Sorted, InOrder;
    assert s.fired[id] + 1 <= s.registered[id];
  }

  lemma RestingSame(s: State, s': State)
    requires Resting(s) && s'.members == s.members && s'.pooled == s.pooled
    ensures Resting(s')
  {}

  lemma MoveTold(s: State, i: nat, m: nat)
    requires Told(s) && i < |s.members| && m < |s.members| && i != m && s.pooled
    requires Ready(s.members[i]) && s.members[m].queue == []
    ensures Told(Move(s, i, m))
  {
    hide Balanced, Sorted, Hooked, Queries, Rising;
    var from, to := s.members[i], s.members[m];
    var x, s' := from.queue[0].sent, Move(s, i, m);
    ToldHooked(s, s');
    QueriesHead(from.queue);
    QueriesSnoc([], from.queue[0]);
    NoQueries();
    var from', to' := from.(queue := from.queue[1..]), to.(queue := to.queue + [from.queue[0]]);
    var ms := s.members[i := from'];
    assert to'.queue == [] + [from.queue[0]] && [] + [x] == [x];
    MoveBooks(s, i, m);
    RisingAt(s, i);
    RisingTail(x, Queries(from'.queue), |s.accepted|);
    var s1 := s.(members := ms);
    SortedWith(s, s1, i, from');
    SortedWith(s1, s', m, to');
  }

  lemma NoQueries()
    ensures Queries([]) == []
  {}

  lemma RisingTail(x: Sent, q: seq<Sent>, n: nat)
    requires Rising([x] + q, n)
    ensures Rising(q, n) && Rising([x], n)
  {
    assert ([x] + q)[0] == x;
    forall j, k | 0 <= j < k < |q| ensures q[j].no < q[k].no {
      assert ([x] + q)[j + 1] == q[j] && ([x] + q)[k + 1] == q[k];
    }
    forall k | 0 <= k < |q| ensures q[k].no < n {
      assert ([x] + q)[k + 1] == q[k];
    }
  }

  lemma MoveBooks(s: State, i: nat, m: nat)
    requires i < |s.members| && m < |s.members| && i != m && Ready(s.members[i]) && s.members[m].queue == []
    ensures Books(Move(s, i, m)) == Books(s)
  {
    hide Working, Waiting;
    var from, to := s.members[i], s.members[m];
    var x, s' := from.queue[0].sent, Move(s, i, m);
    var from', to' := from.(queue := from.queue[1..]), to.(queue := to.queue + [from.queue[0]]);
    var ms := s.members[i := from'];
    assert Queries(from.queue) == [x] + Queries(from'.queue);
    assert Queries(to'.queue) == [x] by { QueriesSnoc([], from.queue[0]); }
    WaitingLess(s.members, i, from', x);
    WorkingSame(s.members, i, from');
    WaitingMore(ms, m, to', x);
    WorkingSame(ms, m, to');
  }

  lemma DispatchTold(s: State, m: nat)
    requires Told(s) && m < |s.members| && s.members[m].current.Idle? && s.members[m].queue != [] && s.members[m].connected
    ensures Told(Dispatch(s, m).0)
  {
    hide Balanced, Sorted, Hooked, InOrder, Queries;
    var e, s' := s.members[m], Dispatch(s, m).0;
    if e.queue[0].RunQuery? {
      StartTold(s, m);
    } else {
      QueriesHead(e.queue);
      ToldHooked(s, s');
      ToldWith(s, s', m, s'.members[m]);
    }
  }

  lemma StartTold(s: State, m: nat)
    requires Told(s) && m < |s.members| && s.members[m].current.Idle? && Ready(s.members[m])
    ensures Told(Dispatch(s, m).0)
  {
    hide Balanced, Sorted, Hooked, InOrder, Queries;
    var e, s' := s.members[m], Dispatch(s, m).0;
    var x := e.queue[0].sent;
    QueriesHead(e.queue);
    ToldHooked(s, s');
    DispatchBooks(s, m);
    StartsBalanced(Books(s), Books(s'), x);
    RisingAt(s, m);
    RisingTail(x, Queries(e.queue[1..]), |s.accepted|);
    SortedWith(s, s', m, s'.members[m]);
    DispatchInOrder(s, m);
  }

  lemma QueriesHead(queue: seq<Call>)
    requires queue != []
    ensures Queries(queue) == (if queue[0].RunQuery? then [queue[0].sent] else []) + Queries(queue[1..])
  {}

  lemma DispatchInOrder(s: State, m: nat)
    requires InOrder(s) && Balanced(Books(s)) && m < |s.members| && s.members[m].current.Idle? && Ready(s.members[m])
    ensures InOrder(Dispatch(s, m).0)
  {
    hide Balanced, Books, Queries;
    var e := s.members[m];
    DispatchData(s, m);
    QueriesHead(e.queue);
  }

  /** The data of a query that is started is the data it was submitted with. */
  lemma DispatchData(s: State, m: nat)
    requires Balanced(Books(s)) && m < |s.members| && s.members[m].current.Idle? && Ready(s.members[m])
    ensures var x := s.members[m].queue[0].sent; s.unique ==> x.(data := Lookup(s.data, x.id)) == x
  {
    hide Balanced, Starts;
    DispatchBooks(s, m);
    StartsBalanced(Books(s), Books(Dispatch(s, m).0), s.members[m].queue[0].sent);
  }

  lemma DispatchBooks(s: State, m: nat)
    requires m < |s.members| && s.members[m].current.Idle? && Ready(s.members[m])
    ensures Starts(Books(s), Books(Dispatch(s, m).0), s.members[m].queue[0].sent)
  {
    hide Working, Waiting;
    var e, s' := s.members[m], Dispatch(s, m).0;
    var x := e.queue[0].sent;
    QueriesHead(e.queue);
    WaitingLess(s.members, m, s'.members[m], x);
    WorkingMore(s.members, m, s'.members[m], x.(data := Lookup(s.data, x.id)));
  }

  /* The pool. */

  lemma BusyFrame(s: State, s': State)
    requires Busy(s) && |s'.members| == |s.members| && s'.dbSets == s.dbSets
    requires forall j :: 0 <= j < |s.members| ==>
      && s'.members[j].queue == s.members[j].queue
      && (s'.members[j].current.Idle? ==> s.members[j].current.Idle?)
    ensures Busy(s')
  {}

  lemma SubmitBusy(s: State, text: string, data: nat)
    requires Busy(s) && |s.members| > 0 && (!s.pooled ==> |s.members| == 1)
    ensures Busy(Submit(s, text, data).0)
  {
    hide Longest, Outstanding;
    var s1 := Submit(s, text, data).0;
    if s1 != s {
      var m := if s.pooled then IdleFind(s.members, Answered(s).now) else 0;
      assert !s.members[m].current.Idle? ==> forall j :: 0 <= j < |s.members| ==> !s.members[j].current.Idle?;
      SubmitToBusy(s, m, text, data);
    }
  }

  lemma SubmitToBusy(s: State, m: nat, text: string, data: nat)
    requires Busy(s) && m < |s.members|
    requires !s.members[m].current.Idle? ==> forall j :: 0 <= j < |s.members| ==> !s.members[j].current.Idle?
    ensures Busy(SubmitTo(s, m, text, data).0)
  {
    hide Outstanding;
  }

  lemma {:induction false} AsksBusy(s: State, asks: seq<Ask>)
    requires Busy(s) && |s.members| > 0 && (!s.pooled ==> |s.members| == 1)
    ensures Busy(Asks(s, asks))
    decreases |asks|
  {
    hide Submit;
    if asks != [] {
      SubmitBusy(s, asks[0].text, asks[0].data);
      SubmitShape(s, asks[0].text, asks[0].data);
      var (s1, id) := Submit(s, asks[0].text, asks[0].data);
      BusyFrame(s1, Hook(s1, id));
      AsksBusy(if asks[0].hook then Hook(s1, id) else s1, asks[1..]);
    }
  }

  lemma SubmitShape(s: State, text: string, data: nat)
    requires |s.members| > 0
    ensures Submit(s, text, data).0.pooled == s.pooled
  {
    hide SubmitTo, IdleFind;
  }

  lemma RespondBusy(s: State)
    requires Busy(s) && |s.members| > 0 && (!s.pooled ==> |s.members| == 1)
    ensures Busy(Respond(s))
  {
    hide Asks;
    var asks := Answered(s).asks;
    var n := if |asks| <= s.budget then |asks| else s.budget;
    var s0 := s.(tick := s.tick + 1, budget := s.budget - n);
    BusyFrame(s, s0);
    AsksBusy(s0, asks[..n]);
  }

  lemma CallbackBusy(s: State, m: nat, id: nat)
    requires Busy(s) && m < |s.members| && (!s.pooled ==> |s.members| == 1)
    ensures Busy(Callback(s, m, id))
  {
    hide Respond;
    RespondBusy(s);
    BusyFrame(Respond(s), Callback(s, m, id));
  }

  /** `esql_next` leaves a member idle only when nothing waits. */
  lemma NextBusy(s: State, m: nat)
    requires Busy(s) && m < |s.members| && (!s.pooled ==> |s.members| == 1) && s.members[m].connected
    ensures Busy(NextStep(s, m).0)
  {
    hide FirstReady, Dispatch, Move, OthersBusy;
    var s0 := Forget(s, m);
    var i := FirstReady(s0.members, 0);
    if s.members[m].queue != [] {
      ForgetBusy(s, m);
      DispatchBusy(s0, m);
    } else if s.pooled && i < |s0.members| {
      assert s.members[i].queue == s0.members[i].queue;
      ForgetBusy(s, m);
      MoveBusy(s0, i, m);
      DispatchBusy(Move(s0, i, m), m);
    } else if s.dbSets == 0 && s.pooled {
      forall k | 0 <= k < |s.members| ensures s.members[k].queue == [] {
        assert !Ready(s0.members[k]) && s0.members[k].queue == s.members[k].queue;
      }
    }
  }

  lemma ForgetBusy(s: State, m: nat)
    requires Busy(s) && m < |s.members| && exists k :: 0 <= k < |s.members| && s.members[k].queue != []
    ensures OthersBusy(Forget(s, m), m)
  {}

  /** Nobody but member `m` may be idle. */
  ghost predicate OthersBusy(s: State, m: nat)
  {
    s.dbSets == 0 ==>
      && (forall j, k :: 0 <= j < |s.members| && 0 <= k < |s.members[j].queue| ==> s.members[j].queue[k].RunQuery?)
      && (forall j :: 0 <= j < |s.members| && j != m ==> !s.members[j].current.Idle?)
  }

  lemma MoveBusy(s: State, i: nat, m: nat)
    requires m < |s.members| && i < |s.members| && i != m && s.members[i].queue != [] && OthersBusy(s, m)
    ensures OthersBusy(Move(s, i, m), m) && |Move(s, i, m).members| == |s.members|
    ensures Move(s, i, m).members[m].connected == s.members[m].connected && Move(s, i, m).members[m].queue != []
  {
    if s.dbSets == 0 {
      var s' := Move(s, i, m);
      forall j, k | 0 <= j < |s'.members| && 0 <= k < |s'.members[j].queue| ensures s'.members[j].queue[k].RunQuery? {
        assert s.members[i].queue[0].RunQuery?;
        assert j == i ==> s'.members[j].queue[k] == s.members[i].queue[k + 1];
        assert j == m && k < |s.members[m].queue| ==> s'.members[j].queue[k] == s.members[m].queue[k];
      }
    }
  }

  lemma DispatchBusy(s: State, m: nat)
    requires m < |s.members| && OthersBusy(s, m) && s.members[m].queue != [] && s.members[m].connected
    ensures Busy(Dispatch(s, m).0)
  {
    var s' := Dispatch(s, m).0;
    assert forall j :: 0 <= j < |s.members| && j != m ==> s'.members[j] == s.members[j];
  }

  lemma {:induction false} NumWith(ms: seq<Member>, m: nat, e: Member)
    requires m < |ms|
    ensures NumConnected(ms[m := e]) - (if e.connected then 1 else 0) == NumConnected(ms) - (if ms[m].connected then 1 else 0)
  {
    if m == 0 {
      assert ms[m := e][1..] == ms[1..];
    } else {
      assert ms[m := e][1..] == ms[1..][m - 1 := e];
      NumWith(ms[1..], m - 1, e);
    }
  }

  /** All members are connected exactly when the count says so. */
  lemma {:induction false} NumAll(ms: seq<Member>)
    ensures NumConnected(ms) <= |ms|
    ensures NumConnected(ms) == |ms| <==> forall m :: 0 <= m < |ms| ==> ms[m].connected
  {
    if ms != [] {
      NumAll(ms[1..]);
      if NumConnected(ms) == |ms| {
        forall m | 0 <= m < |ms| ensures ms[m].connected {
          assert m > 0 ==> ms[m] == ms[1..][m - 1];
        }
      }
    }
  }

  lemma {:induction false} NumSame(ms: seq<Member>, ms': seq<Member>)
    requires |ms| == |ms'| && forall m :: 0 <= m < |ms| ==> ms'[m].connected == ms[m].connected
    ensures NumConnected(ms') == NumConnected(ms)
  {
    if ms != [] {
      assert ms'[0].connected == ms[0].connected;
      forall m | 0 <= m < |ms[1..]| ensures ms'[1..][m].connected == ms[1..][m].connected {
        assert ms'[1..][m] == ms'[m + 1] && ms[1..][m] == ms[m + 1];
      }
      NumSame(ms[1..], ms'[1..]);
    }
  }

  lemma CountedFrame(s: State, s': State)
    requires Counted(s) && Alike(s, s')
    ensures Counted(s')
  {
    NumSame(s.members, s'.members);
  }

  lemma ConnectedCounted(s: State, m: nat)
    requires Counted(s) && m < |s.members| && !s.members[m].connected
    ensures Counted(Connected(s, m))
  {
    NumWith(s.members, m, s.members[m].(connected := true));
  }

  lemma DisconnectCounted(s: State, m: nat)
    requires Counted(s) && m < |s.members|
    ensures Counted(Disconnect(s, m))
  {
    NumWith(s.members, m, s.members[m].(connected := false, open := false));
  }

  /* Chains of calls. */

  lemma NextTold(s: State, m: nat)
    requires Told(s) && Ok(s, AtNext(m))
    ensures Told(NextStep(s, m).0) && Resting(NextStep(s, m).0)
  {
    hide Told, Ok, Dispatch, Move, Queries;
    MembersOk(s, AtNext(m), m);
    var s0 := Forget(s, m);
    ForgetTold(s, m);
    if s.members[m].queue != [] {
      DispatchTold(s0, m);
      DispatchRests(s0, m);
    } else {
      NoQueries();
      var i := FirstReady(s0.members, 0);
      if s.pooled && i < |s0.members| {
        MoveTold(s0, i, m);
        MoveRests(s0, i, m);
        DispatchTold(Move(s0, i, m), m);
        DispatchRests(Move(s0, i, m), m);
      }
    }
  }

  lemma DispatchRests(s: State, m: nat)
    requires m < |s.members| && s.members[m].queue != [] && s.members[m].connected
    ensures Resting(Dispatch(s, m).0)
  {}

  lemma MoveRests(s: State, i: nat, m: nat)
    requires i < |s.members| && m < |s.members| && i != m && s.members[i].queue != []
    ensures |Move(s, i, m).members| == |s.members|
    ensures var e := Move(s, i, m).members[m]; e == s.members[m].(queue := e.queue) && e.queue != []
  {}

  lemma NextSafe(s: State, m: nat)
    requires Safe(s) && Ok(s, AtNext(m))
    ensures Safe(NextStep(s, m).0)
  {
    hide Told, Resting, Busy, Counted, Ok;
    MembersOk(s, AtNext(m), m);
    NextTold(s, m);
    assert !s.pooled ==> |s.members| == 1 by { OneMember(s, AtNext(m)); }
    NextBusy(s, m);
    NextShape(s, m);
    CountedFrame(s, NextStep(s, m).0);
  }

  lemma OneMember(s: State, c: Control)
    requires Ok(s, c)
    ensures |s.members| > 0 && (!s.pooled ==> |s.members| == 1)
  {}

  /** A step that connects and disconnects nobody. */
  ghost predicate Alike(s: State, s': State)
  {
    && |s'.members| == |s.members| && s'.pooled == s.pooled
    && s'.eConnected == s.eConnected && s'.poolConnected == s.poolConnected && s'.announced == s.announced
    && forall j :: 0 <= j < |s.members| ==> s'.members[j].connected == s.members[j].connected
  }

  lemma DispatchShape(s: State, m: nat)
    requires m < |s.members| && s.members[m].queue != []
    ensures Alike(s, Dispatch(s, m).0)
  {}

  lemma MoveShape(s: State, i: nat, m: nat)
    requires i < |s.members| && m < |s.members| && i != m && s.members[i].queue != []
    ensures Alike(s, Move(s, i, m)) && Move(s, i, m).members[m].queue != []
  {}

  lemma NextShape(s: State, m: nat)
    requires m < |s.members|
    ensures Alike(s, NextStep(s, m).0)
  {
    hide Dispatch, Move;
    var s0 := Forget(s, m);
    assert Alike(s, s0);
    if s.members[m].queue != [] {
      DispatchShape(s0, m);
    } else {
      var i := FirstReady(s0.members, 0);
      if s.pooled && i < |s0.members| {
        MoveShape(s0, i, m);
        DispatchShape(Move(s0, i, m), m);
      }
    }
  }

  lemma SettleSafe(s: State, m: nat, how: Ending)
    requires Safe(s) && m < |s.members| && s.members[m].held.Some? && s.members[m].current.Query?
    ensures Safe(Settle(s, m, how))
  {
    hide Told, Busy, Counted, Queries;
    SettleTold(s, m, how);
    BusyFrame(s, Settle(s, m, how));
    CountedFrame(s, Settle(s, m, how));
  }

  lemma CallbackSafe(s: State, m: nat, id: nat, c: Control)
    requires Safe(s) && Ok(s, c) && m < |s.members| && id in s.callbacks
    ensures Safe(Callback(s, m, id))
  {
    hide Told, Resting, Busy, Counted, Ok, Respond;
    OneMember(s, c);
    CallbackTold(s, m, id);
    CallbackBusy(s, m, id);
    CallbackRests(s, m, id);
    CallbackShape(s, m, id);
    CountedFrame(s, Callback(s, m, id));
  }

  lemma CallbackRests(s: State, m: nat, id: nat)
    requires Told(s) && Resting(s) && m < |s.members|
    ensures Resting(Callback(s, m, id))
  {
    hide Told, Respond;
    RespondTold(s, id);
  }

  lemma RespondSafe(s: State, c: Control)
    requires Safe(s) && Ok(s, c)
    ensures |s.members| > 0 && Safe(Respond(s))
  {
    hide Told, Resting, Busy, Counted, Ok, Respond;
    OneMember(s, c);
    RespondTold(s, 0);
    RespondBusy(s);
    RespondShape(s);
    CountedFrame(s, Respond(s));
  }

  lemma {:induction false} AsksShape(s: State, asks: seq<Ask>)
    requires |s.members| > 0
    ensures Alike(s, Asks(s, asks))
    decreases |asks|
  {
    hide SubmitTo, IdleFind;
    if asks != [] {
      var (s1, id) := Submit(s, asks[0].text, asks[0].data);
      SubmitToShape(s, if s.pooled then IdleFind(s.members, Answered(s).now) else 0, asks[0].text, asks[0].data);
      AsksShape(if asks[0].hook then Hook(s1, id) else s1, asks[1..]);
    }
  }

  lemma SubmitToShape(s: State, m: nat, text: string, data: nat)
    requires m < |s.members|
    ensures Alike(s, SubmitTo(s, m, text, data).0)
  {
    hide Outstanding;
  }

  lemma RespondShape(s: State)
    requires |s.members| > 0
    ensures Alike(s, Respond(s))
  {
    hide Asks;
    var asks := Answered(s).asks;
    var n := if |asks| <= s.budget then |asks| else s.budget;
    AsksShape(s.(tick := s.tick + 1, budget := s.budget - n), asks[..n]);
  }

  lemma CallbackShape(s: State, m: nat, id: nat)
    requires m < |s.members|
    ensures Alike(s, Callback(s, m, id))
  {
    hide Respond;
    RespondShape(s);
  }

  lemma NotifySafe(s: State, c: Control)
    requires Safe(s) && Ok(s, c)
    ensures |s.members| > 0 && Safe(Notify(s))
  {
    hide Told, Resting, Busy, Ok, Respond;
    var s1 := s.(notified := s.notified + 1);
    SafeSame(s, s1);
    OkSame(s, s1, c);
    RespondSafe(s1, c);
  }

  lemma NotifyShape(s: State)
    requires |s.members| > 0
    ensures Alike(s, Notify(s))
  {
    hide Respond;
    RespondShape(s.(notified := s.notified + 1));
  }

  /** A change of member `m` that connects or disconnects it, or makes it busy, and leaves its queries where they are. */
  lemma SafeWith(s: State, s': State, m: nat, e: Member)
    requires Safe(s) && m < |s.members| && s'.members == s.members[m := e]
    requires Slot(e) == Slot(s.members[m]) && e.queue == s.members[m].queue
    requires e.current.Idle? ==> s.members[m].current.Idle?
    requires s'.accepted == s.accepted && s'.settled == s.settled && s'.data == s.data
    requires s'.unique == s.unique && s'.lastId == s.lastId
    requires s'.callbacks == s.callbacks && s'.fired == s.fired && s'.registered == s.registered
    requires s'.pooled == s.pooled && s'.dbSets == s.dbSets && Counted(s')
    ensures Safe(s')
  {
    hide Told, Busy, Counted, Slot, Queries;
    ToldHooked(s, s');
    ToldWith(s, s', m, e);
    BusyFrame(s, s');
  }

  lemma SafeSame(s: State, s': State)
    requires Safe(s) && s'.members == s.members
    requires s'.accepted == s.accepted && s'.settled == s.settled && s'.data == s.data
    requires s'.unique == s.unique && s'.lastId == s.lastId
    requires s'.callbacks == s.callbacks && s'.fired == s.fired && s'.registered == s.registered
    requires s'.pooled == s.pooled && s'.dbSets == s.dbSets && Counted(s')
    ensures Safe(s')
  {
    hide Told, Busy, Counted;
    ToldHooked(s, s');
    ToldSame(s, s');
    BusyFrame(s, s');
  }

  lemma ConnectedSafe(s: State, m: nat)
    requires Safe(s) && m < |s.members| && !s.members[m].connected && s.members[m].current.Init?
    ensures Safe(Connected(s, m))
  {
    hide Told, Busy, Counted, Resting, Connected;
    ConnectedCounted(s, m);
    ConnectedKeeps(s, m);
    SafeWith(s, Connected(s, m), m, s.members[m].(connected := true));
  }

  lemma ConnectedKeeps(s: State, m: nat)
    requires m < |s.members|
    ensures var r := Connected(s, m);
            r == s.(members := s.members[m := s.members[m].(connected := true)], eConnected := r.eConnected,
                    poolConnected := r.poolConnected, announced := r.announced)
  {}

  lemma DisconnectSafe(s: State, m: nat)
    requires Safe(s) && m < |s.members|
    ensures Safe(Disconnect(s, m))
  {
    DisconnectCounted(s, m);
    hide Told, Busy, Counted, Resting;
    SafeWith(s, Disconnect(s, m), m, s.members[m].(connected := false, open := false));
  }

  lemma CompleteSafe(s: State, m: nat)
    requires Safe(s) && Ok(s, AtComplete(m))
    ensures Safe(CompleteStep(s, m).0)
  {
    hide Safe, Ok, Settle, Callback, Connected, Notify;
    MembersOk(s, AtComplete(m), m);
    var e := s.members[m];
    if e.current.Init? {
      ConnectedSafe(s, m);
      ConnectedOk(s, m);
      NotifySafe(Connected(s, m), AtNext(m));
    } else if e.current.Query? {
      SettleOk(s, m, Called);
      SettleSafe(s, m, Called);
      SettleSafe(s, m, Emitted);
      SettleShape(s, m, Called);
      if e.held.value.id in s.callbacks {
        CallbackSafe(Settle(s, m, Called), m, e.held.value.id, AtNext(m));
      }
    }
  }

  lemma SettleShape(s: State, m: nat, how: Ending)
    requires m < |s.members| && s.members[m].held.Some?
    ensures Settle(s, m, how).callbacks == s.callbacks && |Settle(s, m, how).members| == |s.members|
  {}

  lemma ErrorSafe(s: State, m: nat)
    requires Safe(s) && Ok(s, AtError(m))
    ensures Safe(ErrorStep(s, m).0)
  {
    hide Safe, Ok, Settle, Callback, Disconnect, Notify;
    MembersOk(s, AtError(m), m);
    var e := s.members[m];
    if e.current.Query? {
      OkOther(s, m);
      SettleOk(s, m, Failed);
      SettleSafe(s, m, Failed);
      SettleShape(s, m, Failed);
      if e.held.value.id in s.callbacks {
        CallbackSafe(Settle(s, m, Failed), m, e.held.value.id, AtNext(m));
      }
      var s1 := if e.held.value.id in s.callbacks then Callback(Settle(s, m, Failed), m, e.held.value.id) else s;
      TickSafe(s1);
      DisconnectSafe(s1.(tick := s1.tick + 1), m);
    } else {
      NotifySafe(s, AtError(m));
      DisconnectSafe(Notify(s), m);
    }
  }

  lemma TickSafe(s: State)
    requires Safe(s)
    ensures Safe(s.(tick := s.tick + 1))
  {
    assert Counted(s.(tick := s.tick + 1));
    hide Told, Busy, Counted, Resting;
    SafeSame(s, s.(tick := s.tick + 1));
  }

  lemma StepSafe(s: State, c: Control)
    requires Safe(s) && Ok(s, c) && !c.Return?
    ensures Safe(Step(s, c).0)
  {
    hide Safe, Ok, CompleteStep, ErrorStep, NextStep;
    match c
    case AtHandler(_) => TickSafe(s);
    case AtComplete(m) => CompleteSafe(s, m);
    case AtError(m) => ErrorSafe(s, m);
    case AtNext(m) => NextSafe(s, m);
  }

  /** So does every chain of calls, to its end. */
  lemma {:induction false} FinishSafe(s: State, c: Control)
    requires Safe(s) && Ok(s, c)
    ensures Safe(Finish(s, c)) && Ok(Finish(s, c), Return)
    decreases Work(s), Rank(c)
  {
    hide Safe, Ok, Step;
    if !c.Return? {
      MembersOk(s, c, c.m);
      StepOk(s, c);
      StepSafe(s, c);
      var (s1, c1) := Step(s, c);
      FinishSafe(s1, c1);
    }
  }

  /* Runs. */

  lemma ConnectSafe(s: State, m: nat)
    requires Safe(s) && Ok(s, Return) && m < |s.members|
    ensures Safe(Connect(s, m)) && Ok(Connect(s, m), Return)
  {
    hide Safe;
    MembersOk(s, Return, m);
    var e, s' := s.members[m], Connect(s, m);
    if !e.connected {
      if Answered(s).fails {
        TickSafe(s);
      } else {
        ConnectTold(s, m);
        assert Alike(s, s');
      }
    }
  }

  lemma ConnectTold(s: State, m: nat)
    requires Safe(s) && m < |s.members| && !s.members[m].connected && !Answered(s).fails
    ensures Safe(Connect(s, m))
  {
    assert Alike(s, Connect(s, m));
    CountedFrame(s, Connect(s, m));
    hide Told, Busy, Counted, Queries, Alike;
    var e, s' := s.members[m].(open := true, current := Init), Connect(s, m);
    BusyFrame(s, s');
    if Slot(s.members[m]) == [] {
      ToldHooked(s, s');
      ToldWith(s, s', m, e);
    } else {
      EndTold(s, s', m, e, s.members[m].held.value, Lost);
    }
  }

  lemma ChangeSafe(s: State, m: nat, name: string)
    requires Safe(s) && Ok(s, Return) && m < |s.members|
    ensures Safe(ChangeDatabase(s, m, name)) && Ok(ChangeDatabase(s, m, name), Return)
  {
    hide Told, Counted, Queries, Ok, Busy, Alike;
    var e, s' := s.members[m], ChangeDatabase(s, m, name);
    ChangeShape(s, m, name);
    CountedFrame(s, s');
    ToldHooked(s, s');
    QueriesSnoc(e.queue, SetDatabase(name));
    ToldWith(s, s', m, s'.members[m]);
    MembersOk(s, Return, m);
    OkWith(s, s', m, s'.members[m], Return);
  }

  lemma ChangeShape(s: State, m: nat, name: string)
    requires m < |s.members|
    ensures var s' := ChangeDatabase(s, m, name);
            Alike(s, s') && Busy(s') && s'.members == s.members[m := s'.members[m]]
  {}

  lemma {:induction false} ConnectFromSafe(s: State, k: nat)
    requires Safe(s) && Ok(s, Return) && k <= |s.members|
    ensures Safe(ConnectFrom(s, k)) && Ok(ConnectFrom(s, k), Return)
    decreases |s.members| - k
  {
    hide Safe, Ok, Connect;
    if k < |s.members| {
      ConnectSafe(s, k);
      assert |Connect(s, k).members| == |s.members| by { ConnectSize(s, k); }
      ConnectFromSafe(Connect(s, k), k + 1);
    }
  }

  lemma ConnectSize(s: State, k: nat)
    requires k < |s.members|
    ensures |Connect(s, k).members| == |s.members|
    ensures Connect(s, k).dbSets == s.dbSets && Connect(s, k).pooled == s.pooled
  {}

  lemma {:induction false} ChangeFromSafe(s: State, k: nat, name: string)
    requires Safe(s) && Ok(s, Return) && k <= |s.members|
    ensures Safe(ChangeFrom(s, k, name)) && Ok(ChangeFrom(s, k, name), Return)
    decreases |s.members| - k
  {
    hide Safe, Ok;
    if k < |s.members| {
      ChangeSafe(s, k, name);
      ChangeFromSafe(ChangeDatabase(s, k, name), k + 1, name);
    }
  }

  lemma {:induction false} DisconnectFromSafe(s: State, k: nat)
    requires Safe(s) && Ok(s, Return) && k <= |s.members|
    ensures Safe(DisconnectFrom(s, k)) && Ok(DisconnectFrom(s, k), Return)
    decreases |s.members| - k
  {
    hide Safe, Ok;
    if k < |s.members| {
      DisconnectSafe(s, k);
      DisconnectOk(s, k, Return);
      DisconnectFromSafe(if s.members[k].connected then Disconnect(s, k) else s, k + 1);
    }
  }

  lemma ApplySafe(s: State, op: Op)
    requires Safe(s) && Ok(s, Return)
    ensures Safe(Apply(s, op)) && Ok(Apply(s, op), Return)
  {
    hide Told, Resting, Busy, Counted, Submit, Finish, Disconnect, ConnectFrom, ChangeFrom, DisconnectFrom;
    match op
    case DoSubmit(text, data) =>
      SubmitOk(s, text, data, Return);
      SubmitTold(s, text, data);
      SubmitBusy(s, text, data);
      AsksShape(s, [Ask(text, data, false)]);
      CountedFrame(s, Submit(s, text, data).0);
    case DoHook(id) =>
      HookTold(s, id);
      BusyFrame(s, Hook(s, id));
      CountedFrame(s, Hook(s, id));
    case DoChangeDatabase(name) => ChangeFromSafe(s, 0, name);
    case DoConnect => ConnectFromSafe(s, 0);
    case DoDisconnect =>
      if s.pooled {
        ResetSafe(s);
        DisconnectFromSafe(s.(poolConnected := false, announced := 0), 0);
      } else {
        DisconnectSafe(s, 0);
        DisconnectOk(s, 0, Return);
      }
    case DoTimeout(m) =>
      if m < |s.members| {
        DisconnectSafe(s, m);
        DisconnectOk(s, m, Return);
      }
    case DoIo(m, budget) =>
      if m < |s.members| && s.members[m].open {
        assert Counted(s.(budget := budget)) by { assert Alike(s, s.(budget := budget)); CountedFrame(s, s.(budget := budget)); }
        SafeSame(s, s.(budget := budget));
        FinishSafe(s.(budget := budget), AtHandler(m));
      }
  }

  lemma ResetSafe(s: State)
    requires Safe(s) && Ok(s, Return) && s.pooled
    ensures Safe(s.(poolConnected := false, announced := 0)) && Ok(s.(poolConnected := false, announced := 0), Return)
  {
    var s' := s.(poolConnected := false, announced := 0);
    assert Counted(s');
    hide Told, Busy, Counted, Resting;
    SafeSame(s, s');
  }

  ghost function Run(s: State, ops: seq<Op>): (r: State)
    requires Safe(s) && Ok(s, Return)
    ensures Safe(r) && Ok(r, Return)
    decreases |ops|
  {
    if ops == [] then s
    else
      ApplySafe(s, ops[0]);
      Run(Apply(s, ops[0]), ops[1..])
  }

  lemma StartSafe(pooled: bool, n: nat, env: nat -> Answer)
    requires n > 0 && (!pooled ==> n == 1)
    ensures Safe(Start(pooled, n, env)) && Ok(Start(pooled, n, env), Return)
  {
    StartEmpty(Start(pooled, n, env).members);
  }

  lemma {:induction false} StartEmpty(ms: seq<Member>)
    requires forall m :: 0 <= m < |ms| ==> ms[m] == Member(false, false, Idle, None, 0.0, [])
    ensures Working(ms) == multiset{} && Waiting(ms) == multiset{} && NumConnected(ms) == 0
  {
    if ms != [] {
      forall m | 0 <= m < |ms[1..]| ensures ms[1..][m] == Member(false, false, Idle, None, 0.0, []) {
        assert ms[1..][m] == ms[m + 1];
      }
      StartEmpty(ms[1..]);
    }
  }

  /* What the runs show. */

  /** Only database changes count as such. */
  lemma StepStatic(s: State, c: Control)
    requires !c.Return? && c.m < |s.members|
    ensures Step(s, c).0.dbSets == s.dbSets && Step(s, c).0.pooled == s.pooled
  {
    hide Callback, Notify, Connected, Dispatch, Move, FirstReady, NextStep;
    match c
    case AtHandler(_) =>
    case AtComplete(m) =>
      ConnectedStatic(s, m);
      NotifyShape(Connected(s, m));
      if s.members[m].current.Query? && s.members[m].held.Some? {
        CallbackShape(Settle(s, m, Called), m, s.members[m].held.value.id);
      }
    case AtError(m) =>
      NotifyShape(s);
      if s.members[m].current.Query? && s.members[m].held.Some? {
        CallbackShape(Settle(s, m, Failed), m, s.members[m].held.value.id);
      }
    case AtNext(m) => NextStatic(s, m);
  }

  lemma ConnectedStatic(s: State, m: nat)
    requires m < |s.members|
    ensures Connected(s, m).dbSets == s.dbSets && Connected(s, m).pooled == s.pooled
    ensures |Connected(s, m).members| == |s.members|
  {}

  lemma NextStatic(s: State, m: nat)
    requires m < |s.members|
    ensures NextStep(s, m).0.dbSets == s.dbSets && NextStep(s, m).0.pooled == s.pooled
  {
    hide Dispatch, Move;
    var s0 := Forget(s, m);
    NextShape(s, m);
    if s.members[m].queue != [] {
      DispatchStatic(s0, m);
    } else {
      var i := FirstReady(s0.members, 0);
      if s.pooled && i < |s0.members| {
        MoveStatic(s0, i, m);
        DispatchStatic(Move(s0, i, m), m);
      }
    }
  }

  lemma DispatchStatic(s: State, m: nat)
    requires m < |s.members| && s.members[m].queue != []
    ensures Dispatch(s, m).0.dbSets == s.dbSets
  {}

  lemma MoveStatic(s: State, i: nat, m: nat)
    requires m < |s.members| && i < |s.members| && i != m && s.members[i].queue != []
    ensures Move(s, i, m).dbSets == s.dbSets && |Move(s, i, m).members| == |s.members|
    ensures Move(s, i, m).members[m].queue != []
  {}

  lemma {:induction false} FinishStatic(s: State, c: Control)
    requires Ok(s, c)
    ensures Finish(s, c).dbSets == s.dbSets && Finish(s, c).pooled == s.pooled
    decreases Work(s), Rank(c)
  {
    hide Ok, Step;
    if !c.Return? {
      MembersOk(s, c, c.m);
      StepOk(s, c);
      StepStatic(s, c);
      FinishStatic(Step(s, c).0, Step(s, c).1);
    }
  }

  lemma {:induction false} ConnectStatic(s: State, k: nat)
    requires k <= |s.members|
    ensures ConnectFrom(s, k).dbSets == s.dbSets && ConnectFrom(s, k).pooled == s.pooled
    decreases |s.members| - k
  {
    hide Connect;
    if k < |s.members| {
      ConnectSize(s, k);
      ConnectStatic(Connect(s, k), k + 1);
    }
  }

  lemma {:induction false} DisconnectStatic(s: State, k: nat)
    requires k <= |s.members|
    ensures DisconnectFrom(s, k).dbSets == s.dbSets && DisconnectFrom(s, k).pooled == s.pooled
    decreases |s.members| - k
  {
    if k < |s.members| { DisconnectStatic(if s.members[k].connected then Disconnect(s, k) else s, k + 1); }
  }

  lemma {:induction false} ChangeStatic(s: State, k: nat, name: string)
    requires k <= |s.members|
    ensures ChangeFrom(s, k, name).pooled == s.pooled
    decreases |s.members| - k
  {
    if k < |s.members| { ChangeStatic(ChangeDatabase(s, k, name), k + 1, name); }
  }

  lemma ApplyStatic(s: State, op: Op)
    requires Ok(s, Return)
    ensures Apply(s, op).pooled == s.pooled && (!op.DoChangeDatabase? ==> Apply(s, op).dbSets == s.dbSets)
  {
    hide Ok, Submit, Finish, ConnectFrom, DisconnectFrom, ChangeFrom;
    OneMember(s, Return);
    match op
    case DoSubmit(text, data) => SubmitShape(s, text, data);
    case DoHook(_) =>
    case DoChangeDatabase(name) => ChangeStatic(s, 0, name);
    case DoConnect => ConnectStatic(s, 0);
    case DoDisconnect => DisconnectStatic(s.(poolConnected := false, announced := 0), 0);
    case DoTimeout(_) =>
    case DoIo(m, budget) =>
      if m < |s.members| && s.members[m].open {
        IoOk(s, m, budget);
        FinishStatic(s.(budget := budget), AtHandler(m));
      }
  }

  lemma IoOk(s: State, m: nat, budget: nat)
    requires Ok(s, Return) && m < |s.members| && s.members[m].open
    ensures Ok(s.(budget := budget), AtHandler(m))
  {}

  lemma {:induction false} RunStatic(s: State, ops: seq<Op>)
    requires Safe(s) && Ok(s, Return)
    ensures Run(s, ops).pooled == s.pooled
    ensures (forall op :: op in ops ==> !op.DoChangeDatabase?) ==> Run(s, ops).dbSets == s.dbSets
    decreases |ops|
  {
    hide Safe, Ok, Apply;
    if ops != [] {
      ApplySafe(s, ops[0]);
      ApplyStatic(s, ops[0]);
      RunStatic(Apply(s, ops[0]), ops[1..]);
    }
  }

  ghost function Reached(pooled: bool, n: nat, env: nat -> Answer, ops: seq<Op>): State
    requires n > 0 && (!pooled ==> n == 1)
  {
    StartSafe(pooled, n, env);
    Run(Start(pooled, n, env), ops)
  }

  /** Work conservation: in every run without database changes, as soon as some member is idle no query waits. */
  lemma WorkConserving(pooled: bool, n: nat, env: nat -> Answer, ops: seq<Op>, j: nat, k: nat)
    requires n > 0 && (!pooled ==> n == 1) && forall op :: op in ops ==> !op.DoChangeDatabase?
    ensures var s := Reached(pooled, n, env, ops);
            j < |s.members| && k < |s.members| && s.members[j].current.Idle? ==> s.members[k].queue == []
  {
    hide Told, Ok, Run;
    StartSafe(pooled, n, env);
    RunStatic(Start(pooled, n, env), ops);
  }

  lemma {:induction false} LongestFound(ms: seq<Member>, now: real, k: nat, cur: real, use: nat)
    requires k <= |ms| && use <= |ms| && 0.0 <= cur
    requires forall j :: 0 <= j < k ==> now - ms[j].started <= cur
    requires if use < |ms| then use < k && now - ms[use].started == cur > 0.0 else cur == 0.0
    requires use < |ms| ==> forall j :: 0 <= j < use ==> now - ms[j].started < cur
    ensures var r := Longest(ms, now, k, cur, use);
            && (forall j :: 0 <= j < |ms| ==> now - ms[j].started <= if r < |ms| then now - ms[r].started else 0.0)
            && (r < |ms| ==> now - ms[r].started > 0.0)
            && (r < |ms| ==> forall j :: 0 <= j < r ==> now - ms[j].started < now - ms[r].started)
    decreases |ms| - k
  {
    if k < |ms| {
      if now - ms[k].started > cur {
        LongestFound(ms, now, k + 1, now - ms[k].started, k);
      } else {
        LongestFound(ms, now, k + 1, cur, use);
      }
    }
  }

  /** Where a query goes: to the first idle member; if none is idle, to the first of those whose query has run longest;
      to the first member if no time has passed since any query was started. */
  lemma PlacedRight(ms: seq<Member>, now: real)
    requires |ms| > 0
    ensures var use := IdleFind(ms, now);
            && (ms[use].current.Idle? <==> exists j :: 0 <= j < |ms| && ms[j].current.Idle?)
            && (ms[use].current.Idle? ==> forall j :: 0 <= j < use ==> !ms[j].current.Idle?)
            && (!ms[use].current.Idle? ==>
                  || (forall j :: 0 <= j < |ms| ==> now - ms[j].started <= now - ms[use].started)
                  || (use == 0 && forall j :: 0 <= j < |ms| ==> now - ms[j].started <= 0.0))
            && (!ms[use].current.Idle? ==> forall j :: 0 <= j < use ==> now - ms[j].started < now - ms[use].started)
  {
    LongestFound(ms, now, 0, 0.0, |ms|);
  }

  /** With database changes in the queues, what may be hoped for is that no query is at the head of a queue while a
      member is idle. */
  ghost predicate Prompt(s: State)
  {
    forall j, k :: 0 <= j < |s.members| && 0 <= k < |s.members| && s.members[j].current.Idle? ==> !Ready(s.members[k])
  }

  /** Member `m` comes to a database change with a query behind it, and another member is idle. */
  ghost predicate Starves(s: State, m: nat)
    requires m < |s.members|
  {
    && |s.members[m].queue| >= 2 && s.members[m].queue[0].SetDatabase? && s.members[m].queue[1].RunQuery?
    && exists j :: 0 <= j < |s.members| && j != m && s.members[j].current.Idle?
  }

  /** `esql_next` keeps that exactly when this is not the case: a change that is sent uncovers the query behind it, and
      nobody tells the idle member. */
  lemma PromptExactly(s: State, m: nat)
    requires m < |s.members| && (!s.pooled ==> |s.members| == 1) && s.members[m].connected && Prompt(s)
    ensures Prompt(NextStep(s, m).0) <==> !Starves(s, m)
  {
    hide FirstReady, Move, Dispatch;
    var s0 := Forget(s, m);
    var i := FirstReady(s0.members, 0);
    if s.members[m].queue != [] {
      DispatchPrompt(s0, m);
      assert forall j :: 0 <= j < |s.members| && j != m ==> s0.members[j] == s.members[j];
      assert Starves(s, m) <==> Starves(s0, m);
    } else if s.pooled && i < |s0.members| {
      assert Ready(s0.members[i]) && s0.members[i].queue == s.members[i].queue && i != m;
      MovedHead(s0, i, m);
      DispatchPrompt(Move(s0, i, m), m);
    } else {
      forall k | 0 <= k < |s.members| ensures !Ready(s0.members[k]) {}
    }
  }

  /* Promptness over runs. */

  lemma PromptFrame(s: State, s': State)
    requires Prompt(s) && |s'.members| == |s.members|
    requires forall j :: 0 <= j < |s.members| ==>
      && (s'.members[j].current.Idle? ==> s.members[j].current.Idle?)
      && (Ready(s'.members[j]) ==> Ready(s.members[j]))
    ensures Prompt(s')
  {}

  /** A query goes to an idle member while there is one. */
  lemma SubmitPrompt(s: State, text: string, data: nat)
    requires Prompt(s) && |s.members| > 0 && (!s.pooled ==> |s.members| == 1)
    ensures Prompt(Submit(s, text, data).0)
  {
    hide Longest, Outstanding;
    var s1 := Submit(s, text, data).0;
    if s1.members != s.members {
      var m := if s.pooled then IdleFind(s.members, Answered(s).now) else 0;
      assert forall j :: 0 <= j < |s.members| && j != m ==> s1.members[j] == s.members[j];
      if !s.members[m].current.Idle? {
        assert forall j :: 0 <= j < |s.members| ==> !s.members[j].current.Idle?;
      }
    }
  }

  lemma {:induction false} AsksPrompt(s: State, asks: seq<Ask>)
    requires Prompt(s) && |s.members| > 0 && (!s.pooled ==> |s.members| == 1)
    ensures Prompt(Asks(s, asks))
    decreases |asks|
  {
    hide Submit;
    if asks != [] {
      SubmitPrompt(s, asks[0].text, asks[0].data);
      SubmitShape(s, asks[0].text, asks[0].data);
      var (s1, id) := Submit(s, asks[0].text, asks[0].data);
      PromptFrame(s1, Hook(s1, id));
      AsksPrompt(if asks[0].hook then Hook(s1, id) else s1, asks[1..]);
    }
  }

  lemma RespondPrompt(s: State)
    requires Prompt(s) && |s.members| > 0 && (!s.pooled ==> |s.members| == 1)
    ensures Prompt(Respond(s))
  {
    hide Asks;
    var asks := Answered(s).asks;
    var n := if |asks| <= s.budget then |asks| else s.budget;
    var s0 := s.(tick := s.tick + 1, budget := s.budget - n);
    PromptFrame(s, s0);
    AsksPrompt(s0, asks[..n]);
  }

  lemma NotifyPrompt(s: State)
    requires Prompt(s) && |s.members| > 0 && (!s.pooled ==> |s.members| == 1)
    ensures Prompt(Notify(s))
  {
    hide Respond;
    PromptFrame(s, s.(notified := s.notified + 1));
    RespondPrompt(s.(notified := s.notified + 1));
  }

  lemma CallbackPrompt(s: State, m: nat, id: nat)
    requires Prompt(s) && m < |s.members| && (!s.pooled ==> |s.members| == 1)
    ensures Prompt(Callback(s, m, id))
  {
    hide Respond;
    RespondPrompt(s);
    PromptFrame(Respond(s), Callback(s, m, id));
  }

  /** A query that ends, and a connection that closes or is made, leave the heads of the queues alone. */
  lemma QuietPrompt(s: State, m: nat, how: Ending)
    requires Prompt(s) && m < |s.members|
    ensures Prompt(Disconnect(s, m)) && Prompt(Connected(s, m)) && Prompt(s.(tick := s.tick + 1))
    ensures s.members[m].held.Some? ==> Prompt(Settle(s, m, how)) && Settle(s, m, how).pooled == s.pooled
  {
    PromptFrame(s, Disconnect(s, m));
    PromptFrame(s, Connected(s, m));
    PromptFrame(s, s.(tick := s.tick + 1));
    if s.members[m].held.Some? { PromptFrame(s, Settle(s, m, how)); }
  }

  /** Of all the steps of the event functions, only an `esql_next` that starves ends promptness. */
  lemma StepPrompt(s: State, c: Control)
    requires Prompt(s) && Ok(s, c) && !c.Return? && c.m < |s.members|
    ensures Prompt(Step(s, c).0) <==> !(c.AtNext? && Starves(s, c.m))
  {
    hide Ok, Prompt, Starves, NextStep, Callback, Notify, Disconnect, Settle, Connected;
    var m, e := c.m, s.members[c.m];
    MembersOk(s, c, m);
    OneMember(s, c);
    QuietPrompt(s, m, Called);
    QuietPrompt(s, m, Emitted);
    QuietPrompt(s, m, Failed);
    match c
    case AtHandler(_) =>
    case AtComplete(_) =>
      ConnectedStatic(s, m);
      NotifyPrompt(Connected(s, m));
      if e.current.Query? && e.held.Some? {
        SettleSize(s, m, Called);
        CallbackPrompt(Settle(s, m, Called), m, e.held.value.id);
      }
    case AtError(_) =>
      NotifyPrompt(s);
      QuietPrompt(Notify(s), m, Failed);
      if e.current.Query? && e.held.Some? {
        SettleSize(s, m, Failed);
        CallbackPrompt(Settle(s, m, Failed), m, e.held.value.id);
      }
      if e.current.Query? {
        var s1 := if e.held.Some? && e.held.value.id in s.callbacks
                  then Callback(Settle(s, m, Failed), m, e.held.value.id) else s;
        QuietPrompt(s1, m, Failed);
        QuietPrompt(s1.(tick := s1.tick + 1), m, Failed);
      }
    case AtNext(_) => PromptExactly(s, m);
  }

  lemma SettleSize(s: State, m: nat, how: Ending)
    requires m < |s.members| && s.members[m].held.Some?
    ensures |Settle(s, m, how).members| == |s.members|
  {}

  /** No step of the chain of calls from `c` starves. */
  ghost predicate Calm(s: State, c: Control)
    requires Ok(s, c)
    decreases Work(s), Rank(c)
  {
    c.Return? ||
    (StepOk(s, c);
     var (s1, c1) := Step(s, c);
     (c.AtNext? ==> !Starves(s, c.m)) && Calm(s1, c1))
  }

  /** Promptness holds before, between and after its steps. */
  ghost predicate PromptChain(s: State, c: Control)
    requires Ok(s, c)
    decreases Work(s), Rank(c)
  {
    Prompt(s) &&
    (c.Return? ||
     (StepOk(s, c);
      var (s1, c1) := Step(s, c);
      PromptChain(s1, c1)))
  }

  lemma {:induction false} ChainPrompt(s: State, c: Control)
    requires Prompt(s) && Ok(s, c)
    ensures PromptChain(s, c) <==> Calm(s, c)
    ensures Calm(s, c) ==> Prompt(Finish(s, c))
    decreases Work(s), Rank(c)
  {
    hide Ok, Step, Prompt, Starves;
    if !c.Return? {
      MembersOk(s, c, c.m);
      StepOk(s, c);
      StepPrompt(s, c);
      var (s1, c1) := Step(s, c);
      if Prompt(s1) {
        ChainPrompt(s1, c1);
      }
    }
  }

  /** The same for one call of the user or turn of the loop, and for a run of them. */
  ghost predicate CalmCall(s: State, op: Op)
    requires Ok(s, Return)
  {
    op.DoIo? && op.m < |s.members| && s.members[op.m].open ==>
      (IoOk(s, op.m, op.budget); Calm(s.(budget := op.budget), AtHandler(op.m)))
  }

  ghost predicate PromptCall(s: State, op: Op)
    requires Ok(s, Return)
  {
    op.DoIo? && op.m < |s.members| && s.members[op.m].open ==>
      (IoOk(s, op.m, op.budget); PromptChain(s.(budget := op.budget), AtHandler(op.m)))
  }

  ghost predicate CalmRun(s: State, ops: seq<Op>)
    requires Safe(s) && Ok(s, Return)
    decreases |ops|
  {
    ops == [] || (ApplySafe(s, ops[0]); CalmCall(s, ops[0]) && CalmRun(Apply(s, ops[0]), ops[1..]))
  }

  ghost predicate PromptRun(s: State, ops: seq<Op>)
    requires Safe(s) && Ok(s, Return)
    decreases |ops|
  {
    Prompt(s) && (ops == [] || (ApplySafe(s, ops[0]); PromptCall(s, ops[0]) && PromptRun(Apply(s, ops[0]), ops[1..])))
  }

  lemma ConnectPrompt(s: State, m: nat)
    requires Prompt(s) && m < |s.members|
    ensures Prompt(Connect(s, m))
  {
    PromptFrame(s, Connect(s, m));
  }

  lemma ChangePrompt(s: State, m: nat, name: string)
    requires Prompt(s) && m < |s.members|
    ensures Prompt(ChangeDatabase(s, m, name))
  {
    PromptFrame(s, ChangeDatabase(s, m, name));
  }

  lemma {:induction false} AllPrompt(s: State, k: nat, name: string)
    requires Prompt(s) && k <= |s.members|
    ensures Prompt(ConnectFrom(s, k)) && Prompt(ChangeFrom(s, k, name)) && Prompt(DisconnectFrom(s, k))
    decreases |s.members| - k
  {
    hide Prompt, Connect, ChangeDatabase, Disconnect;
    if k < |s.members| {
      ConnectPrompt(s, k);
      ChangePrompt(s, k, name);
      QuietPrompt(s, k, Lost);
      Sizes(s, k, name);
      AllPrompt(Connect(s, k), k + 1, name);
      AllPrompt(ChangeDatabase(s, k, name), k + 1, name);
      AllPrompt(if s.members[k].connected then Disconnect(s, k) else s, k + 1, name);
    }
  }

  lemma Sizes(s: State, k: nat, name: string)
    requires k < |s.members|
    ensures |Connect(s, k).members| == |ChangeDatabase(s, k, name).members| == |Disconnect(s, k).members| == |s.members|
  {}

  lemma CallPrompt(s: State, op: Op)
    requires Prompt(s) && Safe(s) && Ok(s, Return)
    ensures PromptCall(s, op) <==> CalmCall(s, op)
    ensures CalmCall(s, op) ==> Prompt(Apply(s, op))
  {
    hide Safe, Ok, Prompt, Submit, Finish, Calm, PromptChain, Disconnect, ConnectFrom, ChangeFrom, DisconnectFrom;
    OneMember(s, Return);
    match op
    case DoSubmit(text, data) => SubmitPrompt(s, text, data);
    case DoHook(id) => PromptSame(s, Hook(s, id));
    case DoChangeDatabase(name) => AllPrompt(s, 0, name);
    case DoConnect => AllPrompt(s, 0, "");
    case DoDisconnect =>
      PromptSame(s, s.(poolConnected := false, announced := 0));
      AllPrompt(s.(poolConnected := false, announced := 0), 0, "");
      QuietPrompt(s, 0, Lost);
    case DoTimeout(m) =>
      if m < |s.members| { QuietPrompt(s, m, Lost); }
    case DoIo(m, budget) =>
      if m < |s.members| && s.members[m].open {
        IoOk(s, m, budget);
        PromptSame(s, s.(budget := budget));
        ChainPrompt(s.(budget := budget), AtHandler(m));
      }
  }

  lemma PromptSame(s: State, s': State)
    requires Prompt(s) && s'.members == s.members
    ensures Prompt(s')
  {}

  lemma {:induction false} RunPrompt(s: State, ops: seq<Op>)
    requires Prompt(s) && Safe(s) && Ok(s, Return)
    ensures PromptRun(s, ops) <==> CalmRun(s, ops)
    ensures CalmRun(s, ops) ==> Prompt(Run(s, ops))
    decreases |ops|
  {
    hide Safe, Ok, Prompt, Apply, CalmCall, PromptCall;
    if ops != [] {
      ApplySafe(s, ops[0]);
      CallPrompt(s, ops[0]);
      var s1 := Apply(s, ops[0]);
      if Prompt(s1) {
        RunPrompt(s1, ops[1..]);
      }
    }
  }

  /** Promptness: a run is prompt in all its states, those within the chains of calls included, exactly when it never comes
      to a database change with a query behind it while another member is idle; then it is prompt at its end. */
  lemma PromptWhenCalm(pooled: bool, n: nat, env: nat -> Answer, ops: seq<Op>)
    requires n > 0 && (!pooled ==> n == 1)
    ensures Safe(Start(pooled, n, env)) && Ok(Start(pooled, n, env), Return)
    ensures PromptRun(Start(pooled, n, env), ops) <==> CalmRun(Start(pooled, n, env), ops)
    ensures CalmRun(Start(pooled, n, env), ops) ==> Prompt(Reached(pooled, n, env, ops))
  {
    hide Safe, Ok, CalmRun, PromptRun, Run;
    StartSafe(pooled, n, env);
    RunPrompt(Start(pooled, n, env), ops);
  }

  /* A run in which a query waits behind a database change while a member is idle. */

  /** A pool of two at `tick`, of which `up` are connected, without callbacks and user data. */
  ghost predicate Pair(s: State, env: nat -> Answer, tick: nat, up: int)
  {
    && s.pooled && |s.members| == 2 && s.env == env && s.tick == tick && s.callbacks == {} && s.data == map[]
    && s.eConnected == up && s.poolConnected == (up == 2)
  }

  predicate Connecting(e: Member) { !e.connected && e.open && e.current.Init? && e.held.None? && e.queue == [] }

  predicate Free(e: Member) { e.connected && e.open && e.current.Idle? && e.queue == [] }

  predicate Runs(e: Member, at: real, queue: seq<Call>)
  {
    e.connected && e.open && e.current.Query? && e.held.Some? && e.started == at && e.queue == queue
  }

  /** A change of database with a query behind it. */
  predicate ChangeThenQuery(queue: seq<Call>)
  {
    |queue| == 2 && queue[0].SetDatabase? && queue[1].RunQuery?
  }

  /** Both members connect and are given a query; the database is changed; a third query is queued behind the change of
      member 0; member 1 finishes its query and its change, then member 0 finishes its query. */
  function Starving(): seq<Op>
  {
    [DoConnect] + ([DoIo(0, 0)] + ([DoIo(1, 0)] + ([DoSubmit("a", 0)] + ([DoSubmit("b", 0)] + ([DoChangeDatabase("d")]
      + ([DoSubmit("c", 0)] + ([DoIo(1, 0)] + ([DoIo(0, 0)] + []))))))))
  }

  /** Nothing fails, and all answers are there at once but the one to the change of member 0. */
  lemma ChangeStarves(env: nat -> Answer)
    requires forall t :: 0 <= t < 10 ==> env(t).io.Done? && !env(t).fails
    requires env(10).io.Again? && env(5).now <= env(6).now
    ensures var s := Reached(true, 2, env, Starving());
            |s.members| == 2 && s.members[1].current.Idle? && Ready(s.members[0]) && !Prompt(s)
  {
    hide Run, Apply, Safe, Ok;
    StartSafe(true, 2, env);
    var s := Start(true, 2, env);
    var ops := Starving();
    s, ops := BothWorking(s, ops, env);
    BothChange(s, env, 7, env(5).now, env(6).now);
    s, ops := RunOn(s, ops);
    BehindChange(s, env, 7, env(5).now, env(6).now);
    s, ops := RunOn(s, ops);
    Changed(s, env, 7, env(6).now);
    s, ops := RunOn(s, ops);
    Uncovered(s, env, 9, env(5).now);
    s, ops := RunOn(s, ops);
    RunEnd(s);
  }

  /** The first five calls of that run. */
  lemma BothWorking(s: State, ops: seq<Op>, env: nat -> Answer) returns (s': State, rest: seq<Op>)
    requires s == Start(true, 2, env) && Safe(s) && Ok(s, Return)
    requires |ops| >= 5 && ops[..5] == [DoConnect, DoIo(0, 0), DoIo(1, 0), DoSubmit("a", 0), DoSubmit("b", 0)]
    requires forall t :: 0 <= t < 10 ==> env(t).io.Done? && !env(t).fails
    ensures rest == ops[5..] && Safe(s') && Ok(s', Return) && Run(s, ops) == Run(s', rest)
    ensures Pair(s', env, 7, 2) && Runs(s'.members[0], env(5).now, []) && Runs(s'.members[1], env(6).now, [])
  {
    hide Run, Apply, Safe, Ok;
    BothConnect(s, env);
    s', rest := RunOn(s, ops);
    OneConnects(s', env, 2, 0, 0);
    s', rest := RunOn(s', rest);
    OneConnects(s', env, 3, 1, 1);
    s', rest := RunOn(s', rest);
    Started(s', env, 5, 0, "a");
    s', rest := RunOn(s', rest);
    Started(s', env, 6, 1, "b");
    s', rest := RunOn(s', rest);
  }

  lemma RunEnd(s: State)
    requires Safe(s) && Ok(s, Return)
    ensures Run(s, []) == s
  {}

  /** The next call of a run. */
  lemma RunOn(s: State, ops: seq<Op>) returns (s': State, rest: seq<Op>)
    requires Safe(s) && Ok(s, Return) && ops != []
    ensures s' == Apply(s, ops[0]) && rest == ops[1..] && Safe(s') && Ok(s', Return) && Run(s, ops) == Run(s', rest)
  {
    hide Safe, Ok, Apply;
    ApplySafe(s, ops[0]);
    s', rest := Apply(s, ops[0]), ops[1..];
  }

  /* The steps of its chains of calls. */

  lemma HandlerDone(s: State, m: nat)
    requires m < |s.members| && Answered(s).io.Done?
    ensures Step(s, AtHandler(m)) == (s.(tick := s.tick + 1), AtComplete(m))
  {}

  lemma QueryCompletes(s: State, m: nat)
    requires m < |s.members| && s.members[m].current.Query? && s.members[m].held.Some? && s.callbacks == {}
    ensures Step(s, AtComplete(m)) == (Settle(s, m, Emitted), AtNext(m))
  {
    hide Callback;
  }

  lemma NextRests(s: State, m: nat)
    requires m < |s.members| && s.members[m].queue == [] && forall k :: 0 <= k < |s.members| ==> !Ready(s.members[k])
    ensures Step(s, AtNext(m)) == (Forget(s, m), Return)
  {
    var s0 := Forget(s, m);
    assert forall k :: 0 <= k < |s.members| ==> s0.members[k].queue == s.members[k].queue;
  }

  lemma NextChanges(s: State, m: nat)
    requires m < |s.members| && s.members[m].queue != [] && s.members[m].queue[0].SetDatabase? && s.members[m].connected
    ensures Step(s, AtNext(m))
         == (With(Forget(s, m), m, s.members[m].(current := DbSet, queue := s.members[m].queue[1..])), AtHandler(m))
  {}

  /** The next step of a chain of calls. */
  lemma ChainOn(s: State, c: Control) returns (s': State, c': Control)
    requires Ok(s, c) && !c.Return? && c.m < |s.members|
    ensures (s', c') == Step(s, c) && Ok(s', c') && Finish(s, c) == Finish(s', c')
  {
    hide Ok, Step;
    StepOk(s, c);
    s', c' := Step(s, c).0, Step(s, c).1;
  }

  lemma BothConnect(s: State, env: nat -> Answer)
    requires s == Start(true, 2, env) && Ok(s, Return) && !env(0).fails && !env(1).fails
    ensures var r := Apply(s, DoConnect);
            Pair(r, env, 2, 0) && Connecting(r.members[0]) && Connecting(r.members[1]) && r.accepted == []
  {
    var s1 := Connect(s, 0);
    assert ConnectFrom(s, 0) == ConnectFrom(s1, 1) == ConnectFrom(Connect(s1, 1), 2) == Connect(s1, 1);
  }

  lemma OneConnects(s: State, env: nat -> Answer, t: nat, up: nat, m: nat)
    requires Ok(s, Return) && Pair(s, env, t, up) && m < 2 && up < 2 && env(t).io.Done? && Connecting(s.members[m])
    requires s.members[0].queue == [] && s.members[1].queue == []
    ensures var r := Apply(s, DoIo(m, 0));
            && Pair(r, env, if up == 1 then t + 2 else t + 1, up + 1) // the connect callback takes an answer, too
            && Free(r.members[m]) && r.members[1 - m] == s.members[1 - m] && r.accepted == s.accepted
  {
    hide Ok, NextStep, Announce;
    IoOk(s, m, 0);
    HandlerDone(s.(budget := 0), m);
    var s', c := ChainOn(s.(budget := 0), AtHandler(m));
    OneAnnounced(s', up, m);
    assert Step(s', c) == (Announce(s', m), AtNext(m));
    s', c := ChainOn(s', c);
    NextRests(s', m);
    s', c := ChainOn(s', c);
  }

  lemma OneAnnounced(s: State, up: nat, m: nat)
    requires s.pooled && |s.members| == 2 && m < 2 && up < 2 && s.budget == 0
    requires s.eConnected == up && !s.poolConnected
    ensures var r := Announce(s, m);
            && r.members == s.members[m := s.members[m].(connected := true)]
            && r == s.(members := r.members, eConnected := up + 1, poolConnected := up == 1, announced := r.announced,
                       tick := if up == 1 then s.tick + 1 else s.tick, notified := r.notified)
  {
    NothingToSubmit(Connected(s, m));
  }

  lemma NothingToSubmit(s: State)
    requires |s.members| > 0 && s.budget == 0
    ensures Respond(s) == s.(tick := s.tick + 1)
    ensures Notify(s) == s.(tick := s.tick + 1, notified := s.notified + 1)
  {}

  lemma Started(s: State, env: nat -> Answer, t: nat, m: nat, text: string)
    requires Ok(s, Return) && Pair(s, env, t, 2) && m < 2 && !env(t).fails && Free(s.members[m])
    requires m == 1 ==> !s.members[0].current.Idle?
    ensures var r := Apply(s, DoSubmit(text, 0));
            Pair(r, env, t + 1, 2) && Runs(r.members[m], env(t).now, []) && r.members[1 - m] == s.members[1 - m]
  {
    hide Outstanding;
  }

  lemma BothChange(s: State, env: nat -> Answer, t: nat, first: real, second: real)
    requires Ok(s, Return) && Pair(s, env, t, 2) && Runs(s.members[0], first, []) && Runs(s.members[1], second, [])
    ensures var r := Apply(s, DoChangeDatabase("d"));
            && Pair(r, env, t, 2) && Runs(r.members[0], first, [SetDatabase("d")])
            && Runs(r.members[1], second, [SetDatabase("d")])
  {
    var s1 := ChangeDatabase(s, 0, "d");
    assert ChangeFrom(s, 0, "d") == ChangeFrom(s1, 1, "d") == ChangeFrom(ChangeDatabase(s1, 1, "d"), 2, "d");
  }

  lemma BehindChange(s: State, env: nat -> Answer, t: nat, first: real, second: real)
    requires Ok(s, Return) && Pair(s, env, t, 2) && first <= second
    requires Runs(s.members[0], first, [SetDatabase("d")]) && Runs(s.members[1], second, [SetDatabase("d")])
    ensures var r := Apply(s, DoSubmit("c", 0));
            && Pair(r, env, t, 2) && r.members[1] == s.members[1]
            && Runs(r.members[0], first, r.members[0].queue) && ChangeThenQuery(r.members[0].queue)
  {
    hide Outstanding, IdleFind;
    PlacedRight(s.members, Answered(s).now);
  }

  lemma Changed(s: State, env: nat -> Answer, t: nat, at: real)
    requires Ok(s, Return) && Pair(s, env, t, 2) && env(t).io.Done? && env(t + 1).io.Done?
    requires ChangeThenQuery(s.members[0].queue) && Runs(s.members[1], at, [SetDatabase("d")])
    ensures var r := Apply(s, DoIo(1, 0));
            Pair(r, env, t + 2, 2) && Free(r.members[1]) && r.members[0] == s.members[0]
  {
    hide Ok, Callback, NextStep;
    IoOk(s, 1, 0);
    HandlerDone(s.(budget := 0), 1);
    var s', c := ChainOn(s.(budget := 0), AtHandler(1));
    QueryCompletes(s', 1);
    s', c := ChainOn(s', c);
    NextChanges(s', 1);
    s', c := ChainOn(s', c);
    HandlerDone(s', 1);
    s', c := ChainOn(s', c);
    assert Step(s', c) == (s', AtNext(1));
    s', c := ChainOn(s', c);
    NextRests(s', 1);
    s', c := ChainOn(s', c);
  }

  lemma Uncovered(s: State, env: nat -> Answer, t: nat, at: real)
    requires Ok(s, Return) && Pair(s, env, t, 2) && env(t).io.Done? && env(t + 1).io.Again?
    requires Runs(s.members[0], at, s.members[0].queue) && ChangeThenQuery(s.members[0].queue) && Free(s.members[1])
    ensures var r := Apply(s, DoIo(0, 0));
            |r.members| == 2 && r.members[1] == s.members[1] && Ready(r.members[0])
  {
    hide Ok, Callback, NextStep;
    IoOk(s, 0, 0);
    HandlerDone(s.(budget := 0), 0);
    var s', c := ChainOn(s.(budget := 0), AtHandler(0));
    QueryCompletes(s', 0);
    s', c := ChainOn(s', c);
    NextChanges(s', 0);
    s', c := ChainOn(s', c);
    assert Ready(s'.members[0]) && s'.members[1] == s.members[1];
    s', c := ChainOn(s', c);
  }

  lemma MovedHead(s: State, i: nat, m: nat)
    requires i < |s.members| && m < |s.members| && i != m && Ready(s.members[i]) && s.members[m].queue == []
    ensures var s' := Move(s, i, m);
            && |s'.members| == |s.members| && s'.members[m] == s.members[m].(queue := [s.members[i].queue[0]])
            && forall j :: 0 <= j < |s.members| ==> s'.members[j].current == s.members[j].current
  {}

  /** When the member that starts its next call is the only idle one, or no other member's next call is a query. */
  lemma DispatchPrompt(s: State, m: nat)
    requires m < |s.members| && s.members[m].queue != [] && s.members[m].connected
    requires (exists j :: 0 <= j < |s.members| && j != m && s.members[j].current.Idle?) ==>
      !Ready(s.members[m]) && forall k :: 0 <= k < |s.members| ==> !Ready(s.members[k])
    ensures Prompt(Dispatch(s, m).0) <==> !Starves(s, m)
  {
    var e, s' := s.members[m], Dispatch(s, m).0;
    assert forall j :: 0 <= j < |s.members| && j != m ==> s'.members[j] == s.members[j];
    if e.queue[0].SetDatabase? && |e.queue| >= 2 {
      assert s'.members[m].queue[0] == e.queue[1];
    }
    if Starves(s, m) {
      var j :| 0 <= j < |s.members| && j != m && s.members[j].current.Idle?;
      assert s'.members[j].current.Idle? && Ready(s'.members[m]);
    }
  }

  /** Conservation: every accepted query has ended, is being worked on, or waits, exactly one of these and once. */
  lemma NothingLost(pooled: bool, n: nat, env: nat -> Answer, ops: seq<Op>, i: nat)
    requires n > 0 && (!pooled ==> n == 1)
    ensures var s := Reached(pooled, n, env, ops);
            s.unique && i < |s.accepted| ==>
              multiset(Ended(s.settled))[s.accepted[i]] + Working(s.members)[s.accepted[i]]
                + Waiting(s.members)[s.accepted[i]] == 1
  {
    hide Ok, Run, Working, Waiting, Apart, Filed, Sorted, InOrder, Hooked, Few;
    var s := Reached(pooled, n, env, ops);
    if s.unique && i < |s.accepted| {
      Once(s.accepted, i);
      assert multiset(s.accepted) == Books(s).ended + Books(s).working + Books(s).waiting;
    }
  }

  lemma Once(accepted: seq<Sent>, i: nat)
    requires forall k :: 0 <= k < |accepted| ==> accepted[k].no == k
    requires i < |accepted|
    ensures multiset(accepted)[accepted[i]] == 1
  {
    var x := accepted[i];
    assert accepted == accepted[..i] + [x] + accepted[i + 1..];
    assert x !in accepted[..i] && x !in accepted[i + 1..];
  }

  /** Routing: a query that has ended carries the id, the text and the user data it was submitted with. */
  lemma Routed(pooled: bool, n: nat, env: nat -> Answer, ops: seq<Op>, i: nat)
    requires n > 0 && (!pooled ==> n == 1)
    ensures var s := Reached(pooled, n, env, ops);
            s.unique && i < |s.settled| ==>
              s.settled[i].sent.no < |s.accepted| && s.accepted[s.settled[i].sent.no] == s.settled[i].sent
  {
    hide Ok, Run, Working, Waiting, Apart, Filed, Sorted, InOrder, Hooked, Few;
    var s := Reached(pooled, n, env, ops);
    if s.unique && i < |s.settled| {
      var x := s.settled[i].sent;
      assert x == Ended(s.settled)[i];
      assert x in Books(s).ended + Books(s).working + Books(s).waiting;
      assert x in multiset(s.accepted);
    }
  }

  /** The user data that is kept is that of the waiting queries that have some. */
  lemma DataKept(pooled: bool, n: nat, env: nat -> Answer, ops: seq<Op>, id: nat)
    requires n > 0 && (!pooled ==> n == 1)
    ensures var s := Reached(pooled, n, env, ops);
            s.unique ==> (id in s.data <==> exists x :: x in Waiting(s.members) && x.id == id && x.data != 0)
  {
    hide Ok, Run, Working, Waiting, Apart, Sorted, InOrder, Hooked, Few;
    var s := Reached(pooled, n, env, ops);
    if s.unique && id in s.data {
      var x :| x in Waiting(s.members) && x.id == id;
      assert Lookup(s.data, x.id) == x.data;
    }
  }

  /** An Esql of its own is first in, first out: what it has accepted is what has ended, then what it works on, then
      what waits. */
  lemma FirstInFirstOut(env: nat -> Answer, ops: seq<Op>)
    ensures var s := Reached(false, 1, env, ops);
            |s.members| == 1 && (s.unique ==>
              s.accepted == Ended(s.settled) + Slot(s.members[0]) + Queries(s.members[0].queue))
  {
    hide Run, Balanced, Sorted, Hooked, Few;
    StartSafe(false, 1, env);
    RunStatic(Start(false, 1, env), ops);
  }

  /** In the first 2^32 - 1 accepted queries no id is given twice, so all of the above holds without that condition. */
  lemma UniqueAtFirst(pooled: bool, n: nat, env: nat -> Answer, ops: seq<Op>)
    requires n > 0 && (!pooled ==> n == 1)
    ensures var s := Reached(pooled, n, env, ops); |s.accepted| <= ID_MAX ==> s.unique
  {
    hide Ok, Run, Balanced, Sorted, InOrder, Hooked;
  }

  /** A callback that was set once for an id is called at most once. */
  lemma CalledOnce(pooled: bool, n: nat, env: nat -> Answer, ops: seq<Op>, id: nat)
    requires n > 0 && (!pooled ==> n == 1)
    ensures var s := Reached(pooled, n, env, ops); s.fired[id] <= s.registered[id]
  {
    hide Ok, Run, Balanced, Sorted, InOrder, Few;
  }

  /** The pool's count is the number of connected members, and its connection has been announced once since it was last
      disconnected if it says that it is connected, and not at all if it does not. */
  lemma CountRight(n: nat, env: nat -> Answer, ops: seq<Op>)
    requires n > 0
    ensures var s := Reached(true, n, env, ops);
            s.eConnected == NumConnected(s.members) && s.announced == if s.poolConnected then 1 else 0
  {
    hide Ok, Run, Told;
    StartSafe(true, n, env);
    RunStatic(Start(true, n, env), ops);
  }

  ghost predicate AllConnected(ms: seq<Member>)
  {
    forall m :: 0 <= m < |ms| ==> ms[m].connected
  }

  /** A step announces the connection only when every member is connected, and the pool was not. */
  lemma AnnouncedComplete(s: State, c: Control)
    requires Safe(s) && Ok(s, c) && !c.Return? && s.pooled && Step(s, c).0.announced > s.announced
    ensures !s.poolConnected && AllConnected(Step(s, c).0.members)
  {
    hide Told, Ok, Callback, Notify, NextStep;
    MembersOk(s, c, c.m);
    var m, e := c.m, s.members[c.m];
    match c
    case AtHandler(_) =>
    case AtComplete(_) =>
      if e.current.Init? {
        ConnectedCounted(s, m);
        NumAll(Connected(s, m).members);
        NotifyShape(Connected(s, m));
      } else if e.current.Query? && e.held.Some? {
        CallbackShape(Settle(s, m, Called), m, e.held.value.id);
      }
    case AtError(_) =>
      NotifyShape(s);
      if e.current.Query? && e.held.Some? {
        CallbackShape(Settle(s, m, Failed), m, e.held.value.id);
      }
    case AtNext(_) => NextShape(s, m);
  }

  /** Every queue is in the order of submission. */
  lemma QueueOrder(pooled: bool, n: nat, env: nat -> Answer, ops: seq<Op>, m: nat)
    requires n > 0 && (!pooled ==> n == 1)
    ensures var s := Reached(pooled, n, env, ops);
            m < |s.members| ==> Rising(Queries(s.members[m].queue), |s.accepted|)
  {
    hide Ok, Run, Balanced, InOrder, Hooked, Few, Rising;
  }
}

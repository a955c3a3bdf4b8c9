/** What one call or one step does to each member. */
module Effects {
  import opened Scheduler
  import opened Ledger
  import opened Safety

  /* Closing. */

  /** Connected members are closed, nothing else has changed in a member. */
  ghost predicate Closed(e: Member, e': Member)
  {
    && !e'.connected && (e.connected ==> !e'.open) && (!e.connected ==> e'.open == e.open)
    && e'.current == e.current && e'.held == e.held && e'.started == e.started && e'.queue == e.queue
  }

  lemma {:induction false} ClosedFrom(s: State, k: nat)
    requires k <= |s.members|
    ensures var r := DisconnectFrom(s, k);
            && r == s.(members := r.members, eConnected := r.eConnected)
            && forall j :: 0 <= j < |s.members| ==>
                 if j < k then r.members[j] == s.members[j] else Closed(s.members[j], r.members[j])
    decreases |s.members| - k
  {
    if k < |s.members| {
      var s1 := if s.members[k].connected then Disconnect(s, k) else s;
      ClosedFrom(s1, k + 1);
    }
  }

  /** `esql_disconnect` on a pool or an Esql: nobody is connected any more, every descriptor of a connected member is closed,
      and what the members were working on and what waits stays where it is. */
  ghost predicate AllClosed(s: State, s': State)
  {
    && |s'.members| == |s.members| && (s.pooled ==> !s'.poolConnected) && s'.accepted == s.accepted && s'.settled == s.settled
    && s'.data == s.data && s'.callbacks == s.callbacks && s'.lastId == s.lastId
    && (forall j :: 0 <= j < |s.members| && s.pooled ==> Closed(s.members[j], s'.members[j]))
    && (!s.pooled ==> |s.members| > 0 && Closed(s.members[0].(connected := true), s'.members[0]))
    && (s.pooled ==> s'.eConnected == 0)
  }

  lemma DisconnectsAll(s: State)
    requires Safe(s) && Ok(s, Return)
    ensures AllClosed(s, Apply(s, DoDisconnect))
  {
    hide Told, Resting, Busy, DisconnectFrom;
    OneMember(s, Return);
    var r := Apply(s, DoDisconnect);
    if s.pooled {
      var s1 := s.(poolConnected := false, announced := 0);
      ClosedFrom(s1, 0);
      ApplySafe(s, DoDisconnect);
      NobodyConnected(r.members);
    }
  }

  lemma {:induction false} NobodyConnected(ms: seq<Member>)
    requires forall j :: 0 <= j < |ms| ==> !ms[j].connected
    ensures NumConnected(ms) == 0
  {
    if ms != [] {
      forall j | 0 <= j < |ms[1..]| ensures !ms[1..][j].connected { assert ms[1..][j] == ms[j + 1]; }
      NobodyConnected(ms[1..]);
    }
  }

  /* Connecting. */

  /** How many of the first `j` members are not connected. */
  function Unconnected(ms: seq<Member>, j: nat): nat
    requires j <= |ms|
  {
    if j == 0 then 0 else Unconnected(ms, j - 1) + (if ms[j - 1].connected then 0 else 1)
  }

  /** A member that is not connected is being connected, unless its backend fails, which is answer `t` of the environment. */
  ghost predicate Reconnected(env: nat -> Answer, t: nat, e: Member, e': Member)
  {
    e' == if e.connected || env(t).fails then e else e.(open := true, current := Init)
  }

  ghost predicate AllReconnected(s: State, s': State)
  {
    && |s'.members| == |s.members| && s'.poolConnected == s.poolConnected && s'.eConnected == s.eConnected
    && s'.accepted == s.accepted && s'.data == s.data && s'.callbacks == s.callbacks && s'.lastId == s.lastId
    && forall j :: 0 <= j < |s.members| ==>
         Reconnected(s.env, s.tick + Unconnected(s.members, j), s.members[j], s'.members[j])
  }

  lemma {:induction false} ReconnectedFrom(s: State, s0: State, k: nat)
    requires k <= |s.members| == |s0.members| && s.env == s0.env && s.tick == s0.tick + Unconnected(s0.members, k)
    requires forall j :: k <= j < |s.members| ==> s.members[j] == s0.members[j]
    ensures var r := ConnectFrom(s, k);
            && r == s.(members := r.members, tick := r.tick, settled := r.settled) && |r.members| == |s.members|
            && forall j :: 0 <= j < |s.members| ==>
                 if j < k then r.members[j] == s.members[j]
                 else Reconnected(s0.env, s0.tick + Unconnected(s0.members, j), s0.members[j], r.members[j])
    decreases |s.members| - k
  {
    hide Connect, Reconnected;
    if k < |s.members| {
      OneReconnected(s, k);
      ReconnectedFrom(Connect(s, k), s0, k + 1);
    }
  }

  lemma OneReconnected(s: State, k: nat)
    requires k < |s.members|
    ensures var r := Connect(s, k);
            && r == s.(members := s.members[k := r.members[k]], tick := r.tick, settled := r.settled)
            && |r.members| == |s.members| && Reconnected(s.env, s.tick, s.members[k], r.members[k])
            && r.tick == if s.members[k].connected then s.tick else s.tick + 1
  {}

  lemma ConnectsEach(s: State)
    ensures AllReconnected(s, ConnectFrom(s, 0))
  {
    hide Reconnected, ConnectFrom;
    ReconnectedFrom(s, s, 0);
  }

  lemma ConnectsAll(s: State)
    requires Ok(s, Return)
    ensures AllReconnected(s, Apply(s, DoConnect))
  {
    hide AllReconnected;
    ConnectsEach(s);
  }

  /* Changing the database. */

  ghost predicate DatabaseGiven(name: string, e: Member, e': Member)
  {
    e' == if e.current.Idle? && e.connected then e.(current := DbSet) else e.(queue := e.queue + [SetDatabase(name)])
  }

  /** Idle connections change at once, the others behind what they have queued; all to the database that was named. */
  ghost predicate AllChanged(name: string, s: State, s': State)
  {
    && s' == s.(members := s'.members, dbSets := s'.dbSets) && |s'.members| == |s.members|
    && forall j :: 0 <= j < |s.members| ==> DatabaseGiven(name, s.members[j], s'.members[j])
  }

  lemma {:induction false} ChangedFrom(s: State, k: nat, name: string)
    requires k <= |s.members|
    ensures var r := ChangeFrom(s, k, name);
            && r == s.(members := r.members, dbSets := r.dbSets) && |r.members| == |s.members|
            && forall j :: 0 <= j < |s.members| ==>
                 if j < k then r.members[j] == s.members[j] else DatabaseGiven(name, s.members[j], r.members[j])
    decreases |s.members| - k
  {
    if k < |s.members| {
      ChangedFrom(ChangeDatabase(s, k, name), k + 1, name);
    }
  }

  lemma ChangesEach(s: State, name: string)
    ensures AllChanged(name, s, ChangeFrom(s, 0, name))
  {
    hide DatabaseGiven, ChangeFrom;
    ChangedFrom(s, 0, name);
  }

  lemma ChangesAll(s: State, name: string)
    requires Ok(s, Return)
    ensures AllChanged(name, s, Apply(s, DoChangeDatabase(name)))
  {
    hide AllChanged;
    ChangesEach(s, name);
  }

  /* Submitting. */

  /** Query `x` has been accepted by member `m`: it works on it from now on if it was idle, else `x` is the last of its
      queue. No other member has changed. */
  ghost predicate AcceptedBy(s: State, s': State, m: nat, x: Sent)
  {
    && m < |s.members| == |s'.members| && s.members[m].connected
    && (forall j :: 0 <= j < |s.members| && j != m ==> s'.members[j] == s.members[j])
    && var e, e' := s.members[m], s'.members[m];
       if e.current.Idle? then e' == e.(current := Query, held := Some(x), started := s.env(s.tick).now)
       else e' == e.(queue := e.queue + [RunQuery(x)])
  }

  lemma SubmitsOne(s: State, text: string, data: nat)
    requires |s.members| > 0
    ensures var (r, id) := Submit(s, text, data);
            var x := Sent(id, text, data, |s.accepted|);
            id != 0 ==> exists m :: AcceptedBy(s, r, m, x)
    ensures var (r, id) := Submit(s, text, data); 0 <= id <= ID_MAX
  {
    hide IdleFind, Outstanding;
    var m := if s.pooled then IdleFind(s.members, Answered(s).now) else 0;
    var (r, id) := Submit(s, text, data);
    if id != 0 {
      assert AcceptedBy(s, r, m, Sent(id, text, data, |s.accepted|));
    }
  }

  /** The counter goes back to where it was when the backend refuses a query. */
  lemma IdBack(id: nat)
    ensures 1 <= NextId(id) <= ID_MAX
    ensures 0 < id <= ID_MAX ==> PrevId(NextId(id)) == id
  {}

  /* The next call. */

  /** The member whose queue the next call of member `m` comes from: itself, or in a pool the first whose next call is a
      query; |members| if there is none. */
  ghost predicate Source(s: State, m: nat, i: nat)
  {
    && m < |s.members| && i <= |s.members|
    && (s.members[m].queue != [] ==> i == m)
    && (s.members[m].queue == [] && !s.pooled ==> i == |s.members|)
    && (s.members[m].queue == [] && s.pooled ==>
          && (i < |s.members| ==> i != m && Ready(s.members[i]))
          && (forall j :: 0 <= j < i ==> !Ready(s.members[j])))
  }

  /** `esql_next` takes the first call of that queue, and no other. A query is handed to the backend, whose failure is
      handled at once, and its clock starts; a database change is sent; without a call the member is idle. */
  lemma NextTakes(s: State, m: nat, i: nat)
    requires Ok(s, AtNext(m)) && Source(s, m, i)
    ensures var (r, c) := NextStep(s, m);
            && |r.members| == |s.members|
            && (forall j :: 0 <= j < |s.members| && j != m && j != i ==> r.members[j] == s.members[j])
            && (i == |s.members| ==> c == Return && r.members[m] == s.members[m].(current := Idle))
            && (i < |s.members| ==>
                  && s.members[i].queue != [] && (i != m ==> r.members[i] == s.members[i].(queue := s.members[i].queue[1..]))
                  && r.members[m].queue == (if i == m then s.members[m].queue[1..] else [])
                  && match s.members[i].queue[0]
                     case SetDatabase(_) => r.members[m].current.DbSet? && c == AtHandler(m)
                     case RunQuery(x) =>
                       && r.members[m].current.Query? && r.members[m].held == Some(x.(data := Lookup(s.data, x.id)))
                       && r.members[m].started == s.env(s.tick).now
                       && c == if s.env(s.tick).fails then AtError(m) else AtHandler(m))
  {
    hide Ok, Dispatch, Move;
    MembersOk(s, AtNext(m), m);
    var s0 := Forget(s, m);
    ForgetKeeps(s, m);
    if s.members[m].queue != [] {
      DispatchDoes(s0, m);
    } else if s.pooled {
      assert FirstReady(s0.members, 0) == i;
      if i < |s.members| {
        MoveDoes(s0, i, m);
        DispatchDoes(Move(s0, i, m), m);
      }
    }
  }

  lemma ForgetKeeps(s: State, m: nat)
    requires m < |s.members|
    ensures var r := Forget(s, m);
            && r == s.(members := s.members[m := s.members[m].(current := Idle)], settled := r.settled)
            && forall j :: 0 <= j < |s.members| ==>
                 r.members[j].queue == s.members[j].queue && (Ready(r.members[j]) <==> Ready(s.members[j]))
  {}

  lemma MoveDoes(s: State, i: nat, m: nat)
    requires i < |s.members| && m < |s.members| && i != m && Ready(s.members[i]) && s.members[m].queue == []
    ensures var r := Move(s, i, m);
            && r == s.(members := r.members) && |r.members| == |s.members|
            && (forall j :: 0 <= j < |s.members| && j != m && j != i ==> r.members[j] == s.members[j])
            && r.members[i] == s.members[i].(queue := s.members[i].queue[1..])
            && r.members[m] == s.members[m].(queue := [s.members[i].queue[0]])
  {}

  lemma DispatchDoes(s: State, m: nat)
    requires m < |s.members| && s.members[m].queue != [] && s.members[m].connected
    ensures var (r, c) := Dispatch(s, m);
            && |r.members| == |s.members| && r.members[m].queue == s.members[m].queue[1..]
            && (forall j :: 0 <= j < |s.members| && j != m ==> r.members[j] == s.members[j])
            && match s.members[m].queue[0]
               case SetDatabase(_) => r.members[m].current.DbSet? && c == AtHandler(m)
               case RunQuery(x) =>
                 && r.members[m].current.Query? && r.members[m].held == Some(x.(data := Lookup(s.data, x.id)))
                 && r.members[m].started == s.env(s.tick).now
                 && c == if s.env(s.tick).fails then AtError(m) else AtHandler(m)
  {}

  /** So a query that is started has waited longest in its queue. */
  lemma NextOldest(s: State, m: nat, i: nat, k: nat)
    requires Safe(s) && Ok(s, AtNext(m)) && Source(s, m, i) && i < |s.members| && Ready(s.members[i])
    ensures var q := Queries(s.members[i].queue);
            && q != [] && q[0] == s.members[i].queue[0].sent
            && (0 < k < |q| ==> q[0].no < q[k].no)
  {
    hide Balanced, InOrder, Hooked, Few, Resting, Busy, Counted;
    QueriesHead(s.members[i].queue);
    RisingAt(s, i);
  }

  /** A query that ends with its callback takes the member's clock with it, whatever the callback did. */
  lemma ClockCleared(s: State, c: Control)
    requires (c.AtComplete? || c.AtError?) && c.m < |s.members| && Slot(s.members[c.m]) != []
    requires s.members[c.m].held.value.id in s.callbacks
    ensures var r := Step(s, c).0; |r.members| == |s.members| && r.members[c.m].started == 0.0
  {
    hide Respond;
  }

  /** A member is left with its connection after an error if it was running a query and its descriptor goes on; else it is
      closed. */
  lemma ErrorCloses(s: State, m: nat)
    requires Ok(s, AtError(m))
    ensures var (r, c) := ErrorStep(s, m);
            && m < |s.members| == |r.members|
            && (c == Return ==> !r.members[m].connected && !r.members[m].open)
            && (c != Return ==> c == AtNext(m) && s.members[m].current.Query? && r.members[m].connected)
            && (!s.members[m].current.Query? ==> c == Return)
  {
    hide Ok, Callback, Notify, Settle, Disconnect;
    ErrorOk(s, m);
    MembersOk(s, AtError(m), m);
    var e := s.members[m];
    var (r, c) := ErrorStep(s, m);
    if !e.current.Query? {
      DisconnectCloses(Notify(s), m);
    } else {
      if e.held.Some? { SettleSize(s, m, Failed); }
      if c.AtNext? { MembersOk(r, c, m); }
      var s1 := if e.held.Some? && e.held.value.id in s.callbacks
                then Callback(Settle(s, m, Failed), m, e.held.value.id) else s;
      DisconnectCloses(s1.(tick := s1.tick + 1), m);
    }
  }

  lemma DisconnectCloses(s: State, m: nat)
    requires m < |s.members|
    ensures var r := Disconnect(s, m); |r.members| == |s.members| && !r.members[m].connected && !r.members[m].open
  {}

  /* The connect callback. */

  /** The step makes the last missing connection of a pool that has not been announced, or the one of an Esql. */
  ghost predicate Announces(s: State, c: Control)
  {
    && c.AtComplete? && c.m < |s.members| && s.members[c.m].current.Init?
    && (s.pooled ==> !s.poolConnected && forall j :: 0 <= j < |s.members| && j != c.m ==> s.members[j].connected)
  }

  /** A connection fails that is not running a query. */
  ghost predicate Breaks(s: State, c: Control)
  {
    c.AtError? && c.m < |s.members| && !s.members[c.m].current.Query?
  }

  /** The connect callback is called for these, and for nothing else. */
  lemma StepNotifies(s: State, c: Control)
    requires Safe(s) && Ok(s, c) && !c.Return?
    ensures Step(s, c).0.notified == s.notified + (if Announces(s, c) || Breaks(s, c) then 1 else 0)
  {
    hide Told, Resting, Busy, Ok, CompleteStep, ErrorStep, NextStep;
    MembersOk(s, c, c.m);
    match c
    case AtHandler(_) =>
    case AtComplete(m) => CompleteNotifies(s, m);
    case AtError(m) => ErrorNotifies(s, m);
    case AtNext(m) => NextNotifies(s, m);
  }

  lemma SubmitNotifies(s: State, text: string, data: nat)
    requires |s.members| > 0
    ensures Submit(s, text, data).0.notified == s.notified
  {
    hide IdleFind, Outstanding;
  }

  lemma {:induction false} AsksNotify(s: State, asks: seq<Ask>)
    requires |s.members| > 0
    ensures Asks(s, asks).notified == s.notified
    decreases |asks|
  {
    hide Submit;
    if asks != [] {
      SubmitNotifies(s, asks[0].text, asks[0].data);
      var (s1, id) := Submit(s, asks[0].text, asks[0].data);
      AsksNotify(if asks[0].hook then Hook(s1, id) else s1, asks[1..]);
    }
  }

  lemma RespondNotifies(s: State, m: nat, id: nat)
    requires m < |s.members|
    ensures Respond(s).notified == s.notified && Notify(s).notified == s.notified + 1
    ensures Callback(s, m, id).notified == s.notified
  {
    hide Asks;
    var asks := Answered(s).asks;
    var n := if |asks| <= s.budget then |asks| else s.budget;
    AsksNotify(s.(tick := s.tick + 1, budget := s.budget - n), asks[..n]);
    AsksNotify(s.(tick := s.tick + 1, budget := s.budget - n, notified := s.notified + 1), asks[..n]);
  }

  lemma CompleteNotifies(s: State, m: nat)
    requires Counted(s) && Ok(s, AtComplete(m))
    ensures CompleteStep(s, m).0.notified == s.notified + (if Announces(s, AtComplete(m)) then 1 else 0)
  {
    hide Ok, Counted, Callback, Notify, Connected;
    MembersOk(s, AtComplete(m), m);
    var e := s.members[m];
    if e.current.Init? {
      ConnectedKeeps(s, m);
      RespondNotifies(Connected(s, m), m, 0);
      AnnouncedWhen(s, m);
    } else if e.current.Query? && e.held.Some? {
      RespondNotifies(Settle(s, m, Called), m, e.held.value.id);
    }
  }

  lemma AnnouncedWhen(s: State, m: nat)
    requires Counted(s) && m < |s.members| && !s.members[m].connected
    ensures Connected(s, m).announced > s.announced
            <==> (s.pooled ==> !s.poolConnected && forall j :: 0 <= j < |s.members| && j != m ==> s.members[j].connected)
  {
    var s1 := Connected(s, m);
    ConnectedCounted(s, m);
    NumAll(s1.members);
    assert forall j :: 0 <= j < |s.members| && j != m ==> s1.members[j].connected == s.members[j].connected;
    assert s1.members[m].connected;
  }

  lemma ErrorNotifies(s: State, m: nat)
    requires m < |s.members|
    ensures ErrorStep(s, m).0.notified == s.notified + (if Breaks(s, AtError(m)) then 1 else 0)
  {
    hide Callback, Notify;
    var e := s.members[m];
    RespondNotifies(s, m, 0);
    if e.current.Query? && e.held.Some? {
      RespondNotifies(Settle(s, m, Failed), m, e.held.value.id);
    }
  }

  lemma NextNotifies(s: State, m: nat)
    requires m < |s.members|
    ensures NextStep(s, m).0.notified == s.notified
  {}

  /** A callback asks for queries one after the other, each of which is accepted or not as any other; and a connect callback
      asks before the connection that failed is closed. */
  lemma CallbackSubmits(s: State, a: Ask)
    requires |s.members| > 0 && Answered(s).asks == [a] && s.budget > 0
    ensures var (r, id) := Submit(s.(tick := s.tick + 1, budget := s.budget - 1), a.text, a.data);
            && Respond(s) == (if a.hook then Hook(r, id) else r)
  {
    hide Submit;
    var s0 := s.(tick := s.tick + 1, budget := s.budget - 1);
    var (r, id) := Submit(s0, a.text, a.data);
    var s1 := if a.hook then Hook(r, id) else r;
    assert [a][..1] == [a] && [a][0] == a && [a][1..] == [];
    assert Asks(s1, []) == s1;
    assert Asks(s0, [a]) == Asks(s1, [a][1..]);
  }

  /** Of several the last is submitted behind what has become of the others. */
  lemma {:induction false} AsksInTurn(s: State, asks: seq<Ask>, last: Ask)
    requires |s.members| > 0
    ensures var (r, id) := Submit(Asks(s, asks), last.text, last.data);
            Asks(s, asks + [last]) == if last.hook then Hook(r, id) else r
    decreases |asks|
  {
    hide Submit;
    if asks == [] {
      var (r, id) := Submit(s, last.text, last.data);
      assert [] + [last] == [last] && [last][1..] == [];
      assert Asks(if last.hook then Hook(r, id) else r, []) == if last.hook then Hook(r, id) else r;
    } else {
      var (s1, id) := Submit(s, asks[0].text, asks[0].data);
      assert (asks + [last])[1..] == asks[1..] + [last];
      AsksInTurn(if asks[0].hook then Hook(s1, id) else s1, asks[1..], last);
    }
  }

  lemma ErrorAsks(s: State, m: nat, a: Ask)
    requires m < |s.members| && Breaks(s, AtError(m)) && Answered(s).asks == [a] && s.budget > 0
    ensures var (r, id) := Submit(s.(tick := s.tick + 1, budget := s.budget - 1, notified := s.notified + 1), a.text, a.data);
            && ErrorStep(s, m).0.accepted == r.accepted
            && ErrorStep(s, m).0.members == r.members[m := r.members[m].(connected := false, open := false)]
  {
    hide Submit;
    CallbackSubmits(s.(notified := s.notified + 1), a);
  }

  /** How many steps of a chain, of a call, and of a run do that. */
  ghost function ChainNotices(s: State, c: Control): nat
    requires Ok(s, c)
    decreases Work(s), Rank(c)
  {
    if c.Return? then 0
    else
      StepOk(s, c);
      var (s1, c1) := Step(s, c);
      (if Announces(s, c) || Breaks(s, c) then 1 else 0) + ChainNotices(s1, c1)
  }

  ghost function CallNotices(s: State, op: Op): nat
    requires Ok(s, Return)
  {
    if op.DoIo? && op.m < |s.members| && s.members[op.m].open then
      IoOk(s, op.m, op.budget);
      ChainNotices(s.(budget := op.budget), AtHandler(op.m))
    else 0
  }

  ghost function Notices(s: State, ops: seq<Op>): nat
    requires Safe(s) && Ok(s, Return)
    decreases |ops|
  {
    if ops == [] then 0 else ApplySafe(s, ops[0]); CallNotices(s, ops[0]) + Notices(Apply(s, ops[0]), ops[1..])
  }

  lemma {:induction false} ChainNotifies(s: State, c: Control)
    requires Safe(s) && Ok(s, c)
    ensures Finish(s, c).notified == s.notified + ChainNotices(s, c)
    decreases Work(s), Rank(c)
  {
    hide Safe, Ok, Step, Announces, Breaks;
    if !c.Return? {
      MembersOk(s, c, c.m);
      StepOk(s, c);
      StepSafe(s, c);
      StepNotifies(s, c);
      ChainNotifies(Step(s, c).0, Step(s, c).1);
    }
  }

  lemma CallNotifies(s: State, op: Op)
    requires Safe(s) && Ok(s, Return)
    ensures Apply(s, op).notified == s.notified + CallNotices(s, op)
  {
    hide Told, Resting, Busy, Counted, Ok, Submit, Finish, ConnectFrom, ChangeFrom, DisconnectFrom, ChainNotices;
    OneMember(s, Return);
    match op
    case DoSubmit(text, data) => SubmitNotifies(s, text, data);
    case DoHook(_) =>
    case DoChangeDatabase(name) => ChangedFrom(s, 0, name);
    case DoConnect => ReconnectedFrom(s, s, 0);
    case DoDisconnect => ClosedFrom(s.(poolConnected := false, announced := 0), 0);
    case DoTimeout(_) =>
    case DoIo(m, budget) =>
      if m < |s.members| && s.members[m].open {
        IoOk(s, m, budget);
        assert Counted(s.(budget := budget)) by { CountedFrame(s, s.(budget := budget)); }
        SafeSame(s, s.(budget := budget));
        ChainNotifies(s.(budget := budget), AtHandler(m));
      }
  }

  /** Over every run the connect callback is called exactly as often as there are such steps. */
  lemma {:induction false} RunNotifies(s: State, ops: seq<Op>)
    requires Safe(s) && Ok(s, Return)
    ensures Run(s, ops).notified == s.notified + Notices(s, ops)
    decreases |ops|
  {
    hide Safe, Ok, Apply, CallNotices;
    if ops != [] {
      ApplySafe(s, ops[0]);
      CallNotifies(s, ops[0]);
      RunNotifies(Apply(s, ops[0]), ops[1..]);
    }
  }
}

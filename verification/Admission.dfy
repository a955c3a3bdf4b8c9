/** When a query is accepted, and how long a pool says that it is connected. */
module Admission {
  import opened Scheduler
  import opened Safety

  /** The member a query is given to. */
  function Target(s: State): (m: nat)
    requires |s.members| > 0
    ensures m < |s.members|
  {
    if s.pooled then IdleFind(s.members, Answered(s).now) else 0
  }

  /** It is connected, and its backend takes the query if it is to start at once; a pool must say that it is connected. */
  predicate Admits(s: State)
    requires |s.members| > 0
  {
    var e := s.members[Target(s)];
    (s.pooled ==> s.poolConnected) && e.connected && (e.current.Idle? ==> !Answered(s).fails)
  }

  /** A submission gives an id, which is not 0, exactly then; else nothing is accepted. */
  lemma AcceptedExactly(s: State, text: string, data: nat)
    requires |s.members| > 0
    ensures var (r, id) := Submit(s, text, data);
            && (id != 0 <==> Admits(s))
            && r.accepted == if id != 0 then s.accepted + [Sent(id, text, data, |s.accepted|)] else s.accepted
  {
    hide IdleFind, Outstanding;
  }

  /** The first idle member is found whether or not it is connected, so one that is not shuts out all others. */
  lemma RefusedAll(s: State, k: nat)
    requires s.pooled && k < |s.members| && s.members[k].current.Idle? && !s.members[k].connected
    requires forall j :: 0 <= j < k ==> !s.members[j].current.Idle?
    ensures !Admits(s)
  {
    PlacedRight(s.members, Answered(s).now);
  }

  /* A pool whose first member is closed and idle. */

  ghost predicate Shut(s: State)
  {
    s.pooled && s.members != [] && !s.members[0].connected && !s.members[0].open && s.members[0].current.Idle?
  }

  lemma ShutSubmit(s: State, text: string, data: nat)
    requires Shut(s)
    ensures Submit(s, text, data) == (s, 0)
  {
    hide Longest;
    assert FirstIdle(s.members, 0) == 0;
  }

  lemma {:induction false} ShutAsks(s: State, asks: seq<Ask>)
    requires Shut(s)
    ensures Asks(s, asks) == s
    decreases |asks|
  {
    hide Submit, Shut;
    if asks != [] {
      ShutSubmit(s, asks[0].text, asks[0].data);
      ShutAsks(s, asks[1..]);
    }
  }

  /** What callbacks submit is refused, too. */
  lemma ShutRespond(s: State)
    requires Shut(s)
    ensures Respond(s) == s.(tick := s.tick + 1, budget := Respond(s).budget)
  {
    hide Asks;
    var asks := Answered(s).asks;
    var n := if |asks| <= s.budget then |asks| else s.budget;
    ShutAsks(s.(tick := s.tick + 1, budget := s.budget - n), asks[..n]);
  }

  /** Nothing is accepted, and the first member stays closed and idle. */
  ghost predicate StaysShut(s: State, s': State)
  {
    Shut(s') && s'.accepted == s.accepted && |s'.members| == |s.members|
  }

  lemma ShutQuiet(s: State, m: nat, how: Ending)
    requires Shut(s) && 0 < m < |s.members|
    ensures StaysShut(s, Disconnect(s, m)) && StaysShut(s, Connected(s, m)) && StaysShut(s, s.(tick := s.tick + 1))
    ensures s.members[m].held.Some? ==> StaysShut(s, Settle(s, m, how))
  {}

  lemma ShutCallback(s: State, m: nat, id: nat)
    requires Shut(s) && 0 < m < |s.members|
    ensures StaysShut(s, Respond(s)) && StaysShut(s, Notify(s)) && StaysShut(s, Callback(s, m, id))
  {
    hide Respond;
    ShutRespond(s);
    ShutRespond(s.(notified := s.notified + 1));
  }

  lemma ShutNext(s: State, m: nat)
    requires Shut(s) && 0 < m < |s.members| && s.members[m].connected
    ensures StaysShut(s, NextStep(s, m).0)
  {
    hide Dispatch, Move;
    var s0 := Forget(s, m);
    if s.members[m].queue != [] {
      ShutDispatch(s0, m);
    } else {
      var i := FirstReady(s0.members, 0);
      if i < |s0.members| {
        ShutMove(s0, i, m);
        ShutDispatch(Move(s0, i, m), m);
      }
    }
  }

  lemma ShutMove(s: State, i: nat, m: nat)
    requires Shut(s) && i < |s.members| && 0 < m < |s.members| && i != m && s.members[i].queue != []
    ensures StaysShut(s, Move(s, i, m)) && Move(s, i, m).members[m].queue != []
  {}

  lemma ShutDispatch(s: State, m: nat)
    requires Shut(s) && 0 < m < |s.members| && s.members[m].queue != []
    ensures StaysShut(s, Dispatch(s, m).0)
  {}

  lemma ShutStep(s: State, c: Control)
    requires Shut(s) && Ok(s, c) && !c.Return?
    ensures StaysShut(s, Step(s, c).0)
  {
    hide Ok, CompleteStep, ErrorStep, NextStep;
    MembersOk(s, c, c.m);
    match c
    case AtHandler(_) =>
    case AtComplete(m) => ShutComplete(s, m);
    case AtError(m) => ShutError(s, m);
    case AtNext(m) => ShutNext(s, m);
  }

  lemma ShutComplete(s: State, m: nat)
    requires Shut(s) && 0 < m < |s.members|
    ensures StaysShut(s, CompleteStep(s, m).0)
  {
    hide Callback, Notify, Settle, Connected;
    var e := s.members[m];
    ShutQuiet(s, m, Called);
    ShutQuiet(s, m, Emitted);
    ShutCallback(Connected(s, m), m, 0);
    if e.current.Query? && e.held.Some? {
      ShutCallback(Settle(s, m, Called), m, e.held.value.id);
    }
  }

  lemma ShutError(s: State, m: nat)
    requires Shut(s) && 0 < m < |s.members|
    ensures StaysShut(s, ErrorStep(s, m).0)
  {
    hide Callback, Notify, Disconnect, Settle;
    var e := s.members[m];
    if !e.current.Query? {
      ShutCallback(s, m, 0);
      ShutQuiet(Notify(s), m, Failed);
    } else {
      ShutQuiet(s, m, Failed);
      if e.held.Some? {
        ShutCallback(Settle(s, m, Failed), m, e.held.value.id);
      }
      var s1 := if e.held.Some? && e.held.value.id in s.callbacks
                then Callback(Settle(s, m, Failed), m, e.held.value.id) else s;
      ShutQuiet(s1, m, Failed);
      ShutQuiet(s1.(tick := s1.tick + 1), m, Failed);
    }
  }

  lemma {:induction false} ShutFinish(s: State, c: Control)
    requires Shut(s) && Ok(s, c)
    ensures StaysShut(s, Finish(s, c))
    decreases Work(s), Rank(c)
  {
    hide Ok, Step, Shut;
    if !c.Return? {
      MembersOk(s, c, c.m);
      StepOk(s, c);
      ShutStep(s, c);
      ShutFinish(Step(s, c).0, Step(s, c).1);
    }
  }

  lemma {:induction false} ShutFrom(s: State, k: nat, name: string)
    requires Shut(s) && k <= |s.members|
    ensures StaysShut(s, ChangeFrom(s, k, name)) && StaysShut(s, DisconnectFrom(s, k))
    decreases |s.members| - k
  {
    if k < |s.members| {
      ShutFrom(ChangeDatabase(s, k, name), k + 1, name);
      ShutFrom(if s.members[k].connected then Disconnect(s, k) else s, k + 1, name);
    }
  }

  lemma ShutApply(s: State, op: Op)
    requires Shut(s) && Ok(s, Return) && !op.DoConnect?
    ensures StaysShut(s, Apply(s, op))
  {
    hide Ok, Submit, Finish, ConnectFrom, ChangeFrom, DisconnectFrom;
    match op
    case DoSubmit(text, data) => ShutSubmit(s, text, data);
    case DoHook(_) =>
    case DoChangeDatabase(name) => ShutFrom(s, 0, name);
    case DoDisconnect => ShutFrom(s.(poolConnected := false, announced := 0), 0, "");
    case DoTimeout(_) =>
    case DoIo(m, budget) =>
      if m < |s.members| && s.members[m].open {
        IoOk(s, m, budget);
        ShutFinish(s.(budget := budget), AtHandler(m));
      }
  }

  /** A pool whose first member is closed and idle accepts no query until it is told to connect, whatever else happens, and
      however many of its members are connected and idle. */
  lemma {:induction false} ShutRun(s: State, ops: seq<Op>)
    requires Safe(s) && Ok(s, Return) && Shut(s) && DoConnect !in ops
    ensures Run(s, ops).accepted == s.accepted && Shut(Run(s, ops))
    decreases |ops|
  {
    hide Safe, Ok, Shut, Apply;
    if ops != [] {
      ApplySafe(s, ops[0]);
      ShutApply(s, ops[0]);
      forall op | op in ops[1..] ensures op != DoConnect { assert op in ops; }
      ShutRun(Apply(s, ops[0]), ops[1..]);
    }
  }

  /** Two members are connected, and the first times out. */
  function TimesOut(): seq<Op> { [DoConnect, DoIo(0, 0), DoIo(1, 0), DoTimeout(0)] }

  /** From then on nothing is accepted, though the pool says that it is connected, and its second member is and is idle. */
  lemma OneShutsOut(env: nat -> Answer, ops: seq<Op>)
    requires !env(0).fails && !env(1).fails && env(2).io.Done? && env(3).io.Done? && DoConnect !in ops
    ensures var s := Reached(true, 2, env, TimesOut());
            s.poolConnected && |s.members| == 2 && s.members[1].connected && s.members[1].current.Idle?
    ensures Reached(true, 2, env, TimesOut() + ops).accepted == []
  {
    hide Run, Apply, Safe, Ok, Shut;
    var s := TimedOut(env, []);
    assert TimesOut() + [] == TimesOut();
    RunEnd(s);
    s := TimedOut(env, ops);
    ShutRun(s, ops);
  }

  lemma TimedOut(env: nat -> Answer, ops: seq<Op>) returns (s: State)
    requires !env(0).fails && !env(1).fails && env(2).io.Done? && env(3).io.Done?
    ensures Safe(s) && Ok(s, Return) && Shut(s) && s.accepted == [] && s.poolConnected && |s.members| == 2
    ensures s.members[1].connected && s.members[1].current.Idle?
    ensures Reached(true, 2, env, TimesOut() + ops) == Run(s, ops)
  {
    hide Run, Apply, Safe, Ok;
    StartSafe(true, 2, env);
    s := Start(true, 2, env);
    var rest := TimesOut() + ops;
    BothConnect(s, env);
    s, rest := RunOn(s, rest);
    OneConnects(s, env, 2, 0, 0);
    s, rest := RunOn(s, rest);
    OneConnects(s, env, 3, 1, 1);
    s, rest := RunOn(s, rest);
    Closes(s);
    s, rest := RunOn(s, rest);
    assert rest == ops;
  }

  lemma Closes(s: State)
    requires Ok(s, Return) && s.pooled && |s.members| == 2 && Free(s.members[0]) && Free(s.members[1])
    ensures var r := Apply(s, DoTimeout(0));
            && Shut(r) && |r.members| == 2 && r.members[1] == s.members[1] && r.accepted == s.accepted
            && r.poolConnected == s.poolConnected
  {}

  /* What a pool says. */

  lemma {:induction false} FromConnected(s: State, k: nat, name: string)
    requires k <= |s.members|
    ensures ChangeFrom(s, k, name).poolConnected == s.poolConnected && ConnectFrom(s, k).poolConnected == s.poolConnected
    ensures DisconnectFrom(s, k).poolConnected == s.poolConnected
    decreases |s.members| - k
  {
    hide Connect, ChangeDatabase, Disconnect;
    if k < |s.members| {
      OneConnected(s, k, name);
      FromConnected(Connect(s, k), k + 1, name);
      FromConnected(ChangeDatabase(s, k, name), k + 1, name);
      FromConnected(if s.members[k].connected then Disconnect(s, k) else s, k + 1, name);
    }
  }

  lemma OneConnected(s: State, k: nat, name: string)
    requires k < |s.members|
    ensures Connect(s, k).poolConnected == s.poolConnected && |Connect(s, k).members| == |s.members|
    ensures ChangeDatabase(s, k, name).poolConnected == s.poolConnected
    ensures Disconnect(s, k).poolConnected == s.poolConnected
    ensures |ChangeDatabase(s, k, name).members| == |s.members| == |Disconnect(s, k).members|
  {}

  lemma StepConnected(s: State, c: Control)
    requires !c.Return? && c.m < |s.members| && s.poolConnected
    ensures Step(s, c).0.poolConnected
  {
    hide Callback, Notify, NextStep;
    var m, e := c.m, s.members[c.m];
    match c
    case AtHandler(_) =>
    case AtComplete(_) =>
      ConnectedStatic(s, m);
      NotifyShape(Connected(s, m));
      if e.current.Query? && e.held.Some? {
        CallbackShape(Settle(s, m, Called), m, e.held.value.id);
      }
    case AtError(_) =>
      NotifyShape(s);
      if e.current.Query? && e.held.Some? {
        CallbackShape(Settle(s, m, Failed), m, e.held.value.id);
      }
    case AtNext(_) => NextShape(s, m);
  }

  lemma {:induction false} FinishConnected(s: State, c: Control)
    requires Ok(s, c) && s.poolConnected
    ensures Finish(s, c).poolConnected
    decreases Work(s), Rank(c)
  {
    hide Ok, Step;
    if !c.Return? {
      MembersOk(s, c, c.m);
      StepOk(s, c);
      StepConnected(s, c);
      FinishConnected(Step(s, c).0, Step(s, c).1);
    }
  }

  /** A pool that says that it is connected stops saying so when it is disconnected as a whole, and not before: not for any
      error of its members, nor when all of them are closed. */
  lemma ApplyConnected(s: State, op: Op)
    requires Ok(s, Return) && s.pooled && s.poolConnected
    ensures Apply(s, op).poolConnected <==> !op.DoDisconnect?
  {
    hide Ok, Submit, Finish, ConnectFrom, ChangeFrom, DisconnectFrom;
    OneMember(s, Return);
    match op
    case DoSubmit(text, data) => AsksShape(s, [Ask(text, data, false)]); SubmitIsAsk(s, text, data);
    case DoHook(_) =>
    case DoChangeDatabase(name) => FromConnected(s, 0, name);
    case DoConnect => FromConnected(s, 0, "");
    case DoDisconnect => FromConnected(s.(poolConnected := false, announced := 0), 0, "");
    case DoTimeout(_) =>
    case DoIo(m, budget) =>
      if m < |s.members| && s.members[m].open {
        IoOk(s, m, budget);
        FinishConnected(s.(budget := budget), AtHandler(m));
      }
  }

  lemma SubmitIsAsk(s: State, text: string, data: nat)
    requires |s.members| > 0
    ensures Asks(s, [Ask(text, data, false)]) == Submit(s, text, data).0
  {
    hide Submit;
    assert [Ask(text, data, false)][1..] == [];
  }

  lemma {:induction false} RunConnected(s: State, ops: seq<Op>)
    requires Safe(s) && Ok(s, Return) && s.pooled && s.poolConnected
    ensures DoDisconnect !in ops ==> Run(s, ops).poolConnected
    decreases |ops|
  {
    hide Safe, Ok, Apply;
    if ops != [] && DoDisconnect !in ops {
      ApplySafe(s, ops[0]);
      ApplyConnected(s, ops[0]);
      ApplyStatic(s, ops[0]);
      assert ops[0] in ops;
      forall op | op in ops[1..] ensures op != DoDisconnect { assert op in ops; }
      RunConnected(Apply(s, ops[0]), ops[1..]);
    }
  }
}

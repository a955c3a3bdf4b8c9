/** Which queries are reported, and which are not: how every run of the scheduler ends the queries it has accepted. */
module Delivery {
  import opened Scheduler
  import opened Ledger
  import opened Safety

  /* How often. */

  /** The ids for which a callback was called. */
  function Calls(e: seq<Settled>): multiset<nat>
  {
    if e == [] then multiset{}
    else
      var last := e[|e| - 1];
      Calls(e[..|e| - 1]) + (if last.how.Called? || last.how.Failed? then multiset{last.sent.id} else multiset{})
  }

  lemma {:induction false} CallsJoin(a: seq<Settled>, b: seq<Settled>)
    ensures Calls(a + b) == Calls(a) + Calls(b)
    decreases |b|
  {
    if b == [] {
      assert a + b == a;
    } else {
      assert (a + b)[..|a + b| - 1] == a + b[..|b| - 1];
      CallsJoin(a, b[..|b| - 1]);
    }
  }

  function Tally(e: seq<Settled>, how: Ending): nat
  {
    if e == [] then 0 else Tally(e[..|e| - 1], how) + (if e[|e| - 1].how == how then 1 else 0)
  }

  lemma {:induction false} TallyJoin(a: seq<Settled>, b: seq<Settled>, how: Ending)
    ensures Tally(a + b, how) == Tally(a, how) + Tally(b, how)
    decreases |b|
  {
    if b == [] {
      assert a + b == a;
    } else {
      assert (a + b)[..|a + b| - 1] == a + b[..|b| - 1];
      TallyJoin(a, b[..|b| - 1], how);
    }
  }

  lemma {:induction false} TallyNone(e: seq<Settled>, how: Ending)
    ensures Tally(e, how) == 0 <==> forall k :: 0 <= k < |e| ==> e[k].how != how
  {
    if e != [] {
      TallyNone(e[..|e| - 1], how);
      assert e == e[..|e| - 1] + [e[|e| - 1]];
    }
  }

  /* One step. */

  /** What a step tells of the query its member works on: a finished one to its callback or as an event, a failed one to
      its callback. One that is still there when the next call is looked for is dropped. */
  ghost function Outcome(s: State, c: Control): (e: seq<Settled>)
    requires !c.Return? && c.m < |s.members|
    ensures |e| <= 1
  {
    if Slot(s.members[c.m]) == [] then []
    else
      var x := s.members[c.m].held.value;
      match c
      case AtHandler(_) => []
      case AtComplete(_) => [Settled(x, if x.id in s.callbacks then Called else Emitted)]
      case AtError(_) => if x.id in s.callbacks then [Settled(x, Failed)] else []
      case AtNext(_) => [Settled(x, Dropped)]
  }

  /** Queries that are submitted end none, and leave a busy member to its work. */
  ghost predicate Quiet(s: State, s': State)
  {
    && s'.settled == s.settled && s'.fired == s.fired && |s'.members| == |s.members|
    && forall j :: 0 <= j < |s.members| && !s.members[j].current.Idle? ==>
         s'.members[j].current == s.members[j].current && s'.members[j].held == s.members[j].held
  }

  lemma SubmitQuiet(s: State, text: string, data: nat)
    requires |s.members| > 0
    ensures Quiet(s, Submit(s, text, data).0)
  {
    hide Outstanding, IdleFind;
  }

  lemma {:induction false} AsksQuiet(s: State, asks: seq<Ask>)
    requires |s.members| > 0
    ensures Quiet(s, Asks(s, asks))
    decreases |asks|
  {
    hide Submit;
    if asks != [] {
      SubmitQuiet(s, asks[0].text, asks[0].data);
      var (s1, id) := Submit(s, asks[0].text, asks[0].data);
      AsksQuiet(if asks[0].hook then Hook(s1, id) else s1, asks[1..]);
    }
  }

  lemma RespondQuiet(s: State)
    requires |s.members| > 0
    ensures Quiet(s, Respond(s))
  {
    hide Asks;
    var asks := Answered(s).asks;
    var n := if |asks| <= s.budget then |asks| else s.budget;
    AsksQuiet(s.(tick := s.tick + 1, budget := s.budget - n), asks[..n]);
  }

  lemma NotifyQuiet(s: State)
    requires |s.members| > 0
    ensures Quiet(s, Notify(s))
  {
    hide Respond;
    RespondQuiet(s.(notified := s.notified + 1));
  }

  lemma CallbackQuiet(s: State, m: nat, id: nat)
    requires m < |s.members|
    ensures var r := Callback(s, m, id);
            && r.settled == s.settled && r.fired == s.fired + multiset{id} && |r.members| == |s.members|
            && (!s.members[m].current.Idle? ==>
                  r.members[m].current == s.members[m].current && r.members[m].held == s.members[m].held)
  {
    hide Respond;
    RespondQuiet(s);
  }

  lemma ConnectedQuiet(s: State, m: nat)
    requires m < |s.members|
    ensures var r := Connected(s, m);
            && r.settled == s.settled && r.fired == s.fired && |r.members| == |s.members|
            && r.members[m] == s.members[m].(connected := true)
  {}

  /** A step records exactly this, and calls exactly the callbacks it says. */
  lemma StepSettles(s: State, c: Control)
    requires !c.Return? && c.m < |s.members|
    ensures Step(s, c).0.settled == s.settled + Outcome(s, c)
    ensures Step(s, c).0.fired == s.fired + Calls(Outcome(s, c))
  {
    hide CompleteStep, ErrorStep, NextStep, Calls, Outcome;
    match c
    case AtHandler(_) => NoOutcome(s, c);
    case AtComplete(m) => CompleteSettles(s, m);
    case AtError(m) => ErrorSettles(s, m);
    case AtNext(m) => NextSettles(s, m);
  }

  lemma NoOutcome(s: State, c: Control)
    requires c.AtHandler? && c.m < |s.members|
    ensures Outcome(s, c) == [] && Calls([]) == multiset{}
  {}

  lemma NoCall()
    ensures Calls([]) == multiset{}
  {}

  lemma OneCall(x: Settled)
    ensures Calls([x]) == if x.how.Called? || x.how.Failed? then multiset{x.sent.id} else multiset{}
  {
    assert [x][..0] == [];
  }

  lemma CompleteSettles(s: State, m: nat)
    requires m < |s.members|
    ensures CompleteStep(s, m).0.settled == s.settled + Outcome(s, AtComplete(m))
    ensures CompleteStep(s, m).0.fired == s.fired + Calls(Outcome(s, AtComplete(m)))
  {
    hide Callback, Notify, Connected, Calls;
    var e := s.members[m];
    ConnectedQuiet(s, m);
    NotifyQuiet(Connected(s, m));
    NoCall();
    if Slot(e) != [] {
      CallbackQuiet(Settle(s, m, Called), m, e.held.value.id);
      OneCall(Outcome(s, AtComplete(m))[0]);
    }
  }

  lemma ErrorSettles(s: State, m: nat)
    requires m < |s.members|
    ensures ErrorStep(s, m).0.settled == s.settled + Outcome(s, AtError(m))
    ensures ErrorStep(s, m).0.fired == s.fired + Calls(Outcome(s, AtError(m)))
  {
    hide Callback, Notify, Calls, Settle, Disconnect;
    var e := s.members[m];
    NoCall();
    if !e.current.Query? {
      NotifyQuiet(s);
      ClosedQuiet(Notify(s), m);
    } else if e.held.Some? && e.held.value.id in s.callbacks {
      var x := e.held.value;
      SettleRecords(s, m, Failed);
      CallbackQuiet(Settle(s, m, Failed), m, x.id);
      OneCall(Settled(x, Failed));
      ClosedQuiet(Callback(Settle(s, m, Failed), m, x.id), m);
    } else {
      ClosedQuiet(s, m);
    }
  }

  lemma SettleRecords(s: State, m: nat, how: Ending)
    requires m < |s.members| && s.members[m].held.Some?
    ensures var r := Settle(s, m, how);
            && r.settled == s.settled + [Settled(s.members[m].held.value, how)] && r.fired == s.fired
            && |r.members| == |s.members|
  {}

  lemma ClosedQuiet(s: State, m: nat)
    requires m < |s.members|
    ensures var r := Disconnect(s.(tick := s.tick + 1), m); r.settled == s.settled && r.fired == s.fired
    ensures var r := Disconnect(s, m); r.settled == s.settled && r.fired == s.fired
  {}

  lemma NextSettles(s: State, m: nat)
    requires m < |s.members|
    ensures NextStep(s, m).0.settled == s.settled + Outcome(s, AtNext(m))
    ensures NextStep(s, m).0.fired == s.fired + Calls(Outcome(s, AtNext(m)))
  {
    hide Calls;
    NextForgets(s, m);
    NoCall();
    if Slot(s.members[m]) != [] {
      OneCall(Settled(s.members[m].held.value, Dropped));
    }
  }

  lemma NextForgets(s: State, m: nat)
    requires m < |s.members|
    ensures NextStep(s, m).0.settled == Forget(s, m).settled && NextStep(s, m).0.fired == s.fired
  {}

  /** The step that leaves a query to be dropped: it fails, nobody has set a callback for it, and the descriptor goes on. */
  ghost predicate Unheard(s: State, c: Control)
  {
    && c.AtError? && c.m < |s.members| && Slot(s.members[c.m]) != []
    && s.members[c.m].held.value.id !in s.callbacks && !Answered(s).broken
  }

  ghost predicate Pends(s: State, c: Control)
  {
    c.AtNext? && c.m < |s.members| && Slot(s.members[c.m]) != []
  }

  /** The next call is looked for with a query still there exactly behind such a step. */
  lemma StepPends(s: State, c: Control)
    requires !c.Return? && c.m < |s.members|
    ensures Pends(Step(s, c).0, Step(s, c).1) <==> Unheard(s, c)
  {
    hide Callback, Notify, Connected, NextStep;
    var m, e := c.m, s.members[c.m];
    match c
    case AtHandler(_) =>
    case AtComplete(_) =>
      ConnectedQuiet(s, m);
      NotifyQuiet(Connected(s, m));
      if Slot(e) != [] {
        CallbackQuiet(Settle(s, m, Called), m, e.held.value.id);
      }
    case AtError(_) =>
      if Slot(e) != [] {
        CallbackQuiet(Settle(s, m, Failed), m, e.held.value.id);
      }
    case AtNext(_) => NextCalls(s, m);
  }

  lemma NextCalls(s: State, m: nat)
    requires m < |s.members|
    ensures !NextStep(s, m).1.AtNext?
  {}

  /* Chains of calls. */

  ghost function ChainEndings(s: State, c: Control): seq<Settled>
    requires Ok(s, c)
    decreases Work(s), Rank(c)
  {
    if c.Return? then []
    else
      StepOk(s, c);
      var (s1, c1) := Step(s, c);
      Outcome(s, c) + ChainEndings(s1, c1)
  }

  lemma {:induction false} ChainSettles(s: State, c: Control)
    requires Ok(s, c)
    ensures Finish(s, c).settled == s.settled + ChainEndings(s, c)
    ensures Finish(s, c).fired == s.fired + Calls(ChainEndings(s, c))
    decreases Work(s), Rank(c)
  {
    hide Ok, Step, Outcome, Calls;
    NoCall();
    if !c.Return? {
      MembersOk(s, c, c.m);
      StepOk(s, c);
      StepSettles(s, c);
      var (s1, c1) := Step(s, c);
      ChainSettles(s1, c1);
      CallsJoin(Outcome(s, c), ChainEndings(s1, c1));
    }
  }

  /** How many of its steps leave a query to be dropped. */
  ghost function ChainUnheard(s: State, c: Control): nat
    requires Ok(s, c)
    decreases Work(s), Rank(c)
  {
    if c.Return? then 0
    else
      StepOk(s, c);
      var (s1, c1) := Step(s, c);
      (if Unheard(s, c) then 1 else 0) + ChainUnheard(s1, c1)
  }

  /** Each of them is one query that is dropped, and there are no others, but for one that is there at the beginning. */
  lemma {:induction false} ChainDrops(s: State, c: Control)
    requires Ok(s, c)
    ensures Tally(ChainEndings(s, c), Dropped) == ChainUnheard(s, c) + (if Pends(s, c) then 1 else 0)
    ensures Tally(ChainEndings(s, c), Lost) == 0
    decreases Work(s), Rank(c)
  {
    hide Ok, Step, Outcome, Unheard, Pends;
    if c.Return? {
      NoneLeft(s);
    } else {
      MembersOk(s, c, c.m);
      StepOk(s, c);
      StepPends(s, c);
      OutcomeDrops(s, c);
      var (s1, c1) := Step(s, c);
      ChainDrops(s1, c1);
      TallyJoin(Outcome(s, c), ChainEndings(s1, c1), Dropped);
      TallyJoin(Outcome(s, c), ChainEndings(s1, c1), Lost);
    }
  }

  lemma NoneLeft(s: State)
    ensures !Pends(s, Return)
  {}

  lemma OutcomeDrops(s: State, c: Control)
    requires !c.Return? && c.m < |s.members|
    ensures Tally(Outcome(s, c), Dropped) == (if Pends(s, c) then 1 else 0) && Tally(Outcome(s, c), Lost) == 0
  {
    assert Outcome(s, c) != [] ==> Outcome(s, c)[..0] == [];
  }

  /* Runs. */

  /** A connection is made for a closed member that still has a query. */
  predicate Interrupts(s: State, m: nat)
  {
    m < |s.members| && !s.members[m].connected && !Answered(s).fails && Slot(s.members[m]) != []
  }

  function ConnectEndings(s: State, k: nat): seq<Settled>
    requires k <= |s.members|
    decreases |s.members| - k
  {
    if k == |s.members| then []
    else
      (if Interrupts(s, k) then [Settled(s.members[k].held.value, Lost)] else []) + ConnectEndings(Connect(s, k), k + 1)
  }

  /** How many members lose a query when the members from `k` on are connected. */
  function ConnectLosses(s: State, k: nat): nat
    requires k <= |s.members|
    decreases |s.members| - k
  {
    if k == |s.members| then 0 else (if Interrupts(s, k) then 1 else 0) + ConnectLosses(Connect(s, k), k + 1)
  }

  lemma {:induction false} ConnectSettles(s: State, k: nat)
    requires k <= |s.members|
    ensures var e := ConnectEndings(s, k);
            ConnectFrom(s, k).settled == s.settled + e && ConnectFrom(s, k).fired == s.fired + Calls(e)
    decreases |s.members| - k
  {
    hide Connect, Interrupts, Calls;
    if k < |s.members| {
      ConnectSize(s, k);
      OneSettles(s, k);
      ConnectSettles(Connect(s, k), k + 1);
      var e := if Interrupts(s, k) then [Settled(s.members[k].held.value, Lost)] else [];
      CallsJoin(e, ConnectEndings(Connect(s, k), k + 1));
    } else {
      NoCall();
    }
  }

  lemma {:induction false} ConnectDrops(s: State, k: nat)
    requires k <= |s.members|
    ensures Tally(ConnectEndings(s, k), Lost) == ConnectLosses(s, k) && Tally(ConnectEndings(s, k), Dropped) == 0
    decreases |s.members| - k
  {
    hide Connect, Interrupts;
    if k < |s.members| {
      ConnectSize(s, k);
      OneSettles(s, k);
      ConnectDrops(Connect(s, k), k + 1);
      var e := if Interrupts(s, k) then [Settled(s.members[k].held.value, Lost)] else [];
      TallyJoin(e, ConnectEndings(Connect(s, k), k + 1), Lost);
      TallyJoin(e, ConnectEndings(Connect(s, k), k + 1), Dropped);
    }
  }

  lemma OneSettles(s: State, k: nat)
    requires k < |s.members|
    ensures Connect(s, k).fired == s.fired
    ensures Interrupts(s, k) ==> s.members[k].held.Some?
    ensures var e := if Interrupts(s, k) then [Settled(s.members[k].held.value, Lost)] else [];
            && Connect(s, k).settled == s.settled + e && Calls(e) == multiset{}
            && Tally(e, Lost) == |e| && Tally(e, Dropped) == 0
  {
    NoCall();
    if Interrupts(s, k) {
      OneCall(Settled(s.members[k].held.value, Lost));
      assert [Settled(s.members[k].held.value, Lost)][..0] == [];
    }
  }

  predicate Turns(s: State, op: Op)
  {
    op.DoIo? && op.m < |s.members| && s.members[op.m].open
  }

  /** What one call of the user or turn of the loop ends, and what a run does. */
  ghost function CallEndings(s: State, op: Op): seq<Settled>
    requires Ok(s, Return)
  {
    if op.DoConnect? then ConnectEndings(s, 0)
    else if Turns(s, op) then IoOk(s, op.m, op.budget); ChainEndings(s.(budget := op.budget), AtHandler(op.m))
    else []
  }

  ghost function CallUnheard(s: State, op: Op): nat
    requires Ok(s, Return)
  {
    if Turns(s, op) then IoOk(s, op.m, op.budget); ChainUnheard(s.(budget := op.budget), AtHandler(op.m)) else 0
  }

  ghost function CallLosses(s: State, op: Op): nat
  {
    if op.DoConnect? then ConnectLosses(s, 0) else 0
  }

  ghost function Endings(s: State, ops: seq<Op>): seq<Settled>
    requires Safe(s) && Ok(s, Return)
    decreases |ops|
  {
    if ops == [] then [] else ApplySafe(s, ops[0]); CallEndings(s, ops[0]) + Endings(Apply(s, ops[0]), ops[1..])
  }

  /** How many steps of a run leave a query to be dropped, and how many connections are made over one. */
  ghost function UnheardSteps(s: State, ops: seq<Op>): nat
    requires Safe(s) && Ok(s, Return)
    decreases |ops|
  {
    if ops == [] then 0 else ApplySafe(s, ops[0]); CallUnheard(s, ops[0]) + UnheardSteps(Apply(s, ops[0]), ops[1..])
  }

  ghost function Losses(s: State, ops: seq<Op>): nat
    requires Safe(s) && Ok(s, Return)
    decreases |ops|
  {
    if ops == [] then 0 else ApplySafe(s, ops[0]); CallLosses(s, ops[0]) + Losses(Apply(s, ops[0]), ops[1..])
  }

  lemma {:induction false} QuietFrom(s: State, k: nat, name: string)
    requires k <= |s.members|
    ensures ChangeFrom(s, k, name).settled == s.settled && ChangeFrom(s, k, name).fired == s.fired
    ensures DisconnectFrom(s, k).settled == s.settled && DisconnectFrom(s, k).fired == s.fired
    decreases |s.members| - k
  {
    if k < |s.members| {
      QuietFrom(ChangeDatabase(s, k, name), k + 1, name);
      QuietFrom(if s.members[k].connected then Disconnect(s, k) else s, k + 1, name);
    }
  }

  lemma CallSettles(s: State, op: Op)
    requires Ok(s, Return)
    ensures var e := CallEndings(s, op);
            && Apply(s, op).settled == s.settled + e && Apply(s, op).fired == s.fired + Calls(e)
            && Tally(e, Dropped) == CallUnheard(s, op) && Tally(e, Lost) == CallLosses(s, op)
  {
    hide Ok, Submit, Finish, Calls, ConnectFrom, ChangeFrom, DisconnectFrom, ConnectEndings, ConnectLosses,
         ChainEndings, ChainUnheard;
    OneMember(s, Return);
    NoCall();
    match op
    case DoSubmit(text, data) => SubmitQuiet(s, text, data);
    case DoHook(_) =>
    case DoChangeDatabase(name) => QuietFrom(s, 0, name);
    case DoConnect =>
      ConnectSettles(s, 0);
      ConnectDrops(s, 0);
    case DoDisconnect => QuietFrom(s.(poolConnected := false, announced := 0), 0, "");
    case DoTimeout(_) =>
    case DoIo(m, budget) =>
      if Turns(s, op) {
        IoOk(s, m, budget);
        ChainSettles(s.(budget := budget), AtHandler(m));
        ChainDrops(s.(budget := budget), AtHandler(m));
      }
  }

  lemma {:induction false} RunSettles(s: State, ops: seq<Op>)
    requires Safe(s) && Ok(s, Return)
    ensures Run(s, ops).settled == s.settled + Endings(s, ops)
    ensures Run(s, ops).fired == s.fired + Calls(Endings(s, ops))
    decreases |ops|
  {
    hide Safe, Ok, Apply, CallEndings, Calls;
    if ops == [] {
      NoCall();
    } else {
      ApplySafe(s, ops[0]);
      CallSettles(s, ops[0]);
      var s1 := Apply(s, ops[0]);
      RunSettles(s1, ops[1..]);
      CallsJoin(CallEndings(s, ops[0]), Endings(s1, ops[1..]));
    }
  }

  lemma {:induction false} RunDrops(s: State, ops: seq<Op>)
    requires Safe(s) && Ok(s, Return)
    ensures Tally(Endings(s, ops), Dropped) == UnheardSteps(s, ops) && Tally(Endings(s, ops), Lost) == Losses(s, ops)
    decreases |ops|
  {
    hide Safe, Ok, Apply, CallEndings, CallUnheard, CallLosses;
    if ops != [] {
      ApplySafe(s, ops[0]);
      CallSettles(s, ops[0]);
      var s1 := Apply(s, ops[0]);
      RunDrops(s1, ops[1..]);
      TallyJoin(CallEndings(s, ops[0]), Endings(s1, ops[1..]), Dropped);
      TallyJoin(CallEndings(s, ops[0]), Endings(s1, ops[1..]), Lost);
    }
  }

  /** What the descriptor's turn tells of the query its member works on: nothing while the backend is not ready; its result
      when it is; its error when it fails, if somebody has set a callback for it. Otherwise it is dropped if the descriptor
      goes on, and stays with a closed connection if it does not. Nothing else ends before it. */
  lemma TurnTells(s: State, m: nat, budget: nat)
    requires Ok(s, Return) && m < |s.members| && s.members[m].open && Slot(s.members[m]) != []
    ensures var told, r := CallEndings(s, DoIo(m, budget)), Apply(s, DoIo(m, budget));
            r.settled == s.settled + told && Tells(s, m, told, r)
  {
    hide Ok, Apply, CallEndings, Outcome, ChainEndings, Slot;
    var s0 := s.(budget := budget);
    CallSettles(s, DoIo(m, budget));
    TurnChain(s, m, budget);
    Unroll(s0, AtHandler(m));
    NoOutcome(s0, AtHandler(m));
    var s1 := s0.(tick := s.tick + 1);
    match Answered(s).io
    case Done => CompleteTells(s1, m);
    case Again => Unroll(s1, Return);
    case Bad => ErrorTells(s1, m);
  }

  ghost predicate Tells(s: State, m: nat, told: seq<Settled>, r: State)
    requires m < |s.members| && Slot(s.members[m]) != []
  {
    var x, hooked := s.members[m].held.value, s.members[m].held.value.id in s.callbacks;
    match Answered(s).io
    case Again => told == [] && r.members == s.members
    case Done => told != [] && told[0] == Settled(x, if hooked then Called else Emitted)
    case Bad =>
      if hooked then told != [] && told[0] == Settled(x, Failed)
      else if s.env(s.tick + 1).broken then
        told == [] && r.members == s.members[m := s.members[m].(connected := false, open := false)]
      else told != [] && told[0] == Settled(x, Dropped)
  }

  lemma TurnChain(s: State, m: nat, budget: nat)
    requires Ok(s, Return) && m < |s.members| && s.members[m].open
    ensures var s0 := s.(budget := budget);
            && Ok(s0, AtHandler(m)) && Apply(s, DoIo(m, budget)) == Finish(s0, AtHandler(m))
            && CallEndings(s, DoIo(m, budget)) == ChainEndings(s0, AtHandler(m))
  {
    hide Ok, Finish, ChainEndings;
    IoOk(s, m, budget);
  }

  lemma CompleteTells(s: State, m: nat)
    requires Ok(s, AtComplete(m)) && m < |s.members| && Slot(s.members[m]) != []
    ensures var e, x := ChainEndings(s, AtComplete(m)), s.members[m].held.value;
            e != [] && e[0] == Settled(x, if x.id in s.callbacks then Called else Emitted)
  {
    hide Ok, Step, ChainEndings;
    Unroll(s, AtComplete(m));
  }

  lemma ErrorTells(s: State, m: nat)
    requires Ok(s, AtError(m)) && m < |s.members| && Slot(s.members[m]) != []
    ensures var e, x, r := ChainEndings(s, AtError(m)), s.members[m].held.value, Finish(s, AtError(m));
            if x.id in s.callbacks then e != [] && e[0] == Settled(x, Failed)
            else if Answered(s).broken then
              e == [] && r.members == s.members[m := s.members[m].(connected := false, open := false)]
            else e != [] && e[0] == Settled(x, Dropped)
  {
    hide Ok, ErrorStep, NextStep, ChainEndings, Finish;
    Unroll(s, AtError(m));
    if s.members[m].held.value.id !in s.callbacks {
      ErrorUnheard(s, m);
      var (s1, c1) := Step(s, AtError(m));
      Unroll(s1, c1);
    }
  }

  lemma Unroll(s: State, c: Control)
    requires Ok(s, c)
    ensures if c.Return? then Finish(s, c) == s && ChainEndings(s, c) == []
            else
              && c.m < |s.members| && Ok(Step(s, c).0, Step(s, c).1)
              && Finish(s, c) == Finish(Step(s, c).0, Step(s, c).1)
              && ChainEndings(s, c) == Outcome(s, c) + ChainEndings(Step(s, c).0, Step(s, c).1)
  {
    hide Ok, Step, Outcome;
    if !c.Return? {
      MembersOk(s, c, c.m);
      StepOk(s, c);
    }
  }

  lemma ErrorUnheard(s: State, m: nat)
    requires m < |s.members| && Slot(s.members[m]) != [] && s.members[m].held.value.id !in s.callbacks
    ensures var (r, c) := ErrorStep(s, m);
            if Answered(s).broken then
              c == Return && r.members == s.members[m := s.members[m].(connected := false, open := false)]
            else c == AtNext(m) && r.members == s.members
  {}

  /* What the runs show. */

  /** What a run has ended is what its steps tell, in order; and callbacks are called for exactly the queries recorded as
      called or failed, each as often as there are such queries of its id. */
  lemma History(pooled: bool, n: nat, env: nat -> Answer, ops: seq<Op>)
    requires n > 0 && (!pooled ==> n == 1)
    ensures var s0, s := Start(pooled, n, env), Reached(pooled, n, env, ops);
            Safe(s0) && Ok(s0, Return) && s.settled == Endings(s0, ops) && s.fired == Calls(s.settled)
  {
    hide Safe, Ok, Run, Endings, Calls;
    StartSafe(pooled, n, env);
    RunSettles(Start(pooled, n, env), ops);
    assert [] + Endings(Start(pooled, n, env), ops) == Endings(Start(pooled, n, env), ops);
  }

  /** Queries are dropped exactly by the steps of the run at which a query fails that has no callback, on a descriptor that
      goes on; and lost exactly where a connection is made for a closed member that still has one. */
  lemma UnreportedExactly(pooled: bool, n: nat, env: nat -> Answer, ops: seq<Op>)
    requires n > 0 && (!pooled ==> n == 1)
    ensures var s0, s := Start(pooled, n, env), Reached(pooled, n, env, ops);
            && Safe(s0) && Ok(s0, Return)
            && Tally(s.settled, Dropped) == UnheardSteps(s0, ops) && Tally(s.settled, Lost) == Losses(s0, ops)
  {
    hide Safe, Ok, Run, Endings, UnheardSteps, Losses;
    History(pooled, n, env, ops);
    RunDrops(Start(pooled, n, env), ops);
  }

  /** The query went to its callback, as a result or as an error, or out as an event. */
  predicate Reported(how: Ending) { how.Called? || how.Failed? || how.Emitted? }

  /** Delivery: every query that a run ends is reported if and only if the run has no such step and no such connection. */
  lemma ReportedExactly(pooled: bool, n: nat, env: nat -> Answer, ops: seq<Op>)
    requires n > 0 && (!pooled ==> n == 1)
    ensures var s0, s := Start(pooled, n, env), Reached(pooled, n, env, ops);
            && Safe(s0) && Ok(s0, Return)
            && ((forall k :: 0 <= k < |s.settled| ==> Reported(s.settled[k].how))
                <==> UnheardSteps(s0, ops) == 0 && Losses(s0, ops) == 0)
  {
    hide Safe, Ok, Run, UnheardSteps, Losses;
    UnreportedExactly(pooled, n, env, ops);
    TallyNone(Reached(pooled, n, env, ops).settled, Dropped);
    TallyNone(Reached(pooled, n, env, ops).settled, Lost);
  }

  /** In a run without them every accepted query has been reported, is being worked on, or waits, exactly one of these and
      once. */
  lemma Delivered(pooled: bool, n: nat, env: nat -> Answer, ops: seq<Op>, i: nat)
    requires n > 0 && (!pooled ==> n == 1)
    requires Safe(Start(pooled, n, env)) && Ok(Start(pooled, n, env), Return)
    requires UnheardSteps(Start(pooled, n, env), ops) == 0 && Losses(Start(pooled, n, env), ops) == 0
    ensures var s := Reached(pooled, n, env, ops);
            s.unique && i < |s.accepted| ==>
              multiset(Heard(s.settled))[s.accepted[i]] + Working(s.members)[s.accepted[i]]
                + Waiting(s.members)[s.accepted[i]] == 1
  {
    hide Safe, Ok, Run, UnheardSteps, Losses, Working, Waiting;
    ReportedExactly(pooled, n, env, ops);
    AllHeard(Reached(pooled, n, env, ops).settled);
    NothingLost(pooled, n, env, ops, i);
  }

  /** The queries that were reported. */
  function Heard(e: seq<Settled>): seq<Sent>
  {
    if e == [] then []
    else Heard(e[..|e| - 1]) + (if Reported(e[|e| - 1].how) then [e[|e| - 1].sent] else [])
  }

  lemma {:induction false} AllHeard(e: seq<Settled>)
    requires forall k :: 0 <= k < |e| ==> Reported(e[k].how)
    ensures Heard(e) == Ended(e)
  {
    if e != [] { AllHeard(e[..|e| - 1]); }
  }

  /* Two runs that do not report a query. */

  /** An Esql of its own at `tick` that works on its first query, for which no callback is set. */
  ghost predicate Single(s: State, env: nat -> Answer, tick: nat)
  {
    && !s.pooled && |s.members| == 1 && s.env == env && s.tick == tick && s.callbacks == {} && s.settled == []
    && Runs(s.members[0], s.members[0].started, []) && s.accepted == [s.members[0].held.value]
  }

  /** An Esql is connected and given a query ... */
  function Asking(): seq<Op> { [DoConnect, DoIo(0, 0), DoSubmit("a", 0)] }

  lemma FirstQuery(env: nat -> Answer, rest: seq<Op>) returns (s: State)
    requires !env(0).fails && env(1).io.Done? && !env(3).fails
    ensures Safe(s) && Ok(s, Return) && Single(s, env, 4)
    ensures Reached(false, 1, env, Asking() + rest) == Run(s, rest)
  {
    hide Run, Apply, Safe, Ok;
    StartSafe(false, 1, env);
    s := Start(false, 1, env);
    var ops := Asking() + rest;
    AloneConnects(s, env);
    s, ops := RunOn(s, ops);
    AloneConnected(s, env);
    s, ops := RunOn(s, ops);
    AloneStarts(s, env);
    s, ops := RunOn(s, ops);
    assert ops == rest;
  }

  ghost predicate Alone(s: State, env: nat -> Answer, tick: nat)
  {
    && !s.pooled && |s.members| == 1 && s.env == env && s.tick == tick && s.callbacks == {} && s.settled == []
    && s.accepted == [] && s.data == map[]
  }

  lemma AloneConnects(s: State, env: nat -> Answer)
    requires s == Start(false, 1, env) && Ok(s, Return) && !env(0).fails
    ensures var r := Apply(s, DoConnect); Alone(r, env, 1) && Connecting(r.members[0])
  {
    assert ConnectFrom(s, 0) == ConnectFrom(Connect(s, 0), 1) == Connect(s, 0);
  }

  lemma AloneConnected(s: State, env: nat -> Answer)
    requires Ok(s, Return) && Alone(s, env, 1) && Connecting(s.members[0]) && env(1).io.Done?
    ensures var r := Apply(s, DoIo(0, 0)); Alone(r, env, 3) && Free(r.members[0])
  {
    hide Ok, NextStep;
    IoOk(s, 0, 0);
    HandlerDone(s.(budget := 0), 0);
    var s', c := ChainOn(s.(budget := 0), AtHandler(0));
    NothingToSubmit(Connected(s', 0));
    assert Step(s', c) == (Announce(s', 0), AtNext(0));
    s', c := ChainOn(s', c);
    NextRests(s', 0);
    s', c := ChainOn(s', c);
  }

  lemma AloneStarts(s: State, env: nat -> Answer)
    requires Ok(s, Return) && Alone(s, env, 3) && Free(s.members[0]) && !env(3).fails
    ensures Single(Apply(s, DoSubmit("a", 0)), env, 4)
  {
    hide Outstanding;
  }

  /** ... which fails, and is dropped. */
  lemma OneDropped(env: nat -> Answer)
    requires !env(0).fails && env(1).io.Done? && !env(3).fails && env(4).io.Bad? && !env(5).broken
    ensures var s := Reached(false, 1, env, Asking() + [DoIo(0, 0)]);
            |s.accepted| == 1 && s.settled == [Settled(s.accepted[0], Dropped)] && s.members[0].current.Idle?
  {
    hide Run, Apply, Safe, Ok;
    var s := FirstQuery(env, [DoIo(0, 0)]);
    FailsUnheard(s, env);
    var s', rest := RunOn(s, [DoIo(0, 0)]);
    RunEnd(s');
  }

  lemma FailsUnheard(s: State, env: nat -> Answer)
    requires Ok(s, Return) && Single(s, env, 4) && env(4).io.Bad? && !env(5).broken
    ensures var r := Apply(s, DoIo(0, 0));
            && r.accepted == s.accepted && r.settled == [Settled(s.accepted[0], Dropped)]
            && |r.members| == 1 && r.members[0].current.Idle?
  {
    hide Ok, NextStep, Notify;
    IoOk(s, 0, 0);
    var s', c := ChainOn(s.(budget := 0), AtHandler(0));
    assert c == AtError(0);
    s', c := ChainOn(s', c);
    assert c == AtNext(0);
    NextRests(s', 0);
    s', c := ChainOn(s', c);
  }

  /** Or it is disconnected while it works on the query, and connected again; the query is lost. */
  lemma OneLost(env: nat -> Answer)
    requires !env(0).fails && env(1).io.Done? && !env(3).fails && !env(4).fails
    ensures var s := Reached(false, 1, env, Asking() + [DoTimeout(0), DoConnect]);
            |s.accepted| == 1 && s.settled == [Settled(s.accepted[0], Lost)] && s.members[0].current.Init?
  {
    hide Run, Apply, Safe, Ok;
    var s := FirstQuery(env, [DoTimeout(0), DoConnect]);
    Reconnects(s, env);
    var s1, rest := RunOn(s, [DoTimeout(0), DoConnect]);
    var s2;
    s2, rest := RunOn(s1, rest);
    RunEnd(s2);
  }

  lemma Reconnects(s: State, env: nat -> Answer)
    requires Ok(s, Return) && Single(s, env, 4) && !env(4).fails
    ensures Ok(Apply(s, DoTimeout(0)), Return)
    ensures var r := Apply(Apply(s, DoTimeout(0)), DoConnect);
            && r.accepted == s.accepted && r.settled == [Settled(s.accepted[0], Lost)]
            && |r.members| == 1 && r.members[0].current.Init?
  {
    var s1 := Disconnect(s, 0);
    DisconnectOk(s, 0, Return);
    assert ConnectFrom(s1, 0) == ConnectFrom(Connect(s1, 0), 1) == Connect(s1, 0);
  }
}

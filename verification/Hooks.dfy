/** A callback that has been set is kept until its query ends, and then it is called. */
module Hooks {
  import opened Scheduler
  import opened Ledger
  import opened Safety
  import opened Delivery

  /** A query of that id is among those that have ended. */
  ghost predicate Over(e: seq<Settled>, id: nat)
  {
    exists k :: 0 <= k < |e| && e[k].sent.id == id
  }

  /** The first of them has not ended in silence: its result or error went to its callback, or a new connection was made
      over it. */
  ghost predicate Honoured(e: seq<Settled>, id: nat)
  {
    forall k :: 0 <= k < |e| && e[k].sent.id == id && (forall j :: 0 <= j < k ==> e[j].sent.id != id) ==>
      e[k].how.Called? || e[k].how.Failed? || e[k].how.Lost?
  }

  lemma Joined(a: seq<Settled>, b: seq<Settled>, id: nat)
    requires Honoured(a, id) && (Over(a, id) || Honoured(b, id))
    ensures Honoured(a + b, id) && (Over(a, id) || Over(b, id) ==> Over(a + b, id))
  {
    var c := a + b;
    if Over(a, id) {
      var k :| 0 <= k < |a| && a[k].sent.id == id;
      assert c[k].sent.id == id;
    } else if Over(b, id) {
      var k :| 0 <= k < |b| && b[k].sent.id == id;
      assert c[|a| + k].sent.id == id;
    }
    forall k | 0 <= k < |c| && c[k].sent.id == id && (forall j :: 0 <= j < k ==> c[j].sent.id != id)
      ensures c[k].how.Called? || c[k].how.Failed? || c[k].how.Lost?
    {
      if k < |a| {
        assert forall j :: 0 <= j < k ==> a[j] == c[j];
        assert a[k] == c[k];
      } else {
        assert forall j :: 0 <= j < |a| ==> a[j] == c[j];
        assert forall j :: 0 <= j < k - |a| ==> b[j] == c[|a| + j];
        assert b[k - |a|] == c[k];
      }
    }
  }

  lemma SubmitKeeps(s: State, text: string, data: nat)
    requires |s.members| > 0
    ensures Submit(s, text, data).0.callbacks == s.callbacks
  {
    hide IdleFind, Outstanding;
  }

  lemma {:induction false} AsksKeep(s: State, asks: seq<Ask>)
    requires |s.members| > 0
    ensures s.callbacks <= Asks(s, asks).callbacks
    decreases |asks|
  {
    hide Submit;
    if asks != [] {
      SubmitKeeps(s, asks[0].text, asks[0].data);
      var (s1, id) := Submit(s, asks[0].text, asks[0].data);
      AsksKeep(if asks[0].hook then Hook(s1, id) else s1, asks[1..]);
    }
  }

  lemma RespondKeeps(s: State, m: nat, id: nat)
    requires m < |s.members|
    ensures s.callbacks <= Respond(s).callbacks && s.callbacks <= Notify(s).callbacks
    ensures s.callbacks - {id} <= Callback(s, m, id).callbacks
  {
    hide Asks;
    var asks := Answered(s).asks;
    var n := if |asks| <= s.budget then |asks| else s.budget;
    AsksKeep(s.(tick := s.tick + 1, budget := s.budget - n), asks[..n]);
    AsksKeep(s.(tick := s.tick + 1, budget := s.budget - n, notified := s.notified + 1), asks[..n]);
  }

  /** The query that is about to be dropped is not this one. */
  ghost predicate Clear(s: State, c: Control, id: nat)
  {
    Pends(s, c) ==> s.members[c.m].held.value.id != id
  }

  lemma StepHonours(s: State, c: Control, id: nat)
    requires !c.Return? && c.m < |s.members| && id in s.callbacks && Clear(s, c, id)
    ensures Honoured(Outcome(s, c), id) && (id in Step(s, c).0.callbacks || Over(Outcome(s, c), id))
    ensures Clear(Step(s, c).0, Step(s, c).1, id)
  {
    hide Step, Over;
    var m, e := c.m, s.members[c.m];
    if Slot(e) != [] { One(Outcome(s, c), e.held.value, id); }
    StepClear(s, c, id);
    StepKeeps(s, c, id);
  }

  /** The step takes the callback of its own query away when it calls it, and no other. */
  lemma StepKeeps(s: State, c: Control, id: nat)
    requires !c.Return? && c.m < |s.members| && id in s.callbacks
    ensures || id in Step(s, c).0.callbacks
            || ((c.AtComplete? || c.AtError?) && Slot(s.members[c.m]) != [] && s.members[c.m].held.value.id == id)
  {
    hide CompleteStep, ErrorStep, NextStep;
    match c
    case AtHandler(_) =>
    case AtComplete(m) => CompleteKeeps(s, m, id);
    case AtError(m) => ErrorKeeps(s, m, id);
    case AtNext(m) => NextKeeps(s, m);
  }

  lemma CompleteKeeps(s: State, m: nat, id: nat)
    requires m < |s.members| && id in s.callbacks
    ensures id in CompleteStep(s, m).0.callbacks || (Slot(s.members[m]) != [] && s.members[m].held.value.id == id)
  {
    hide Callback, Notify, Connected;
    ConnectedKeepsHooks(s, m);
    RespondKeeps(Connected(s, m), m, id);
    if Slot(s.members[m]) != [] { RespondKeeps(Settle(s, m, Called), m, s.members[m].held.value.id); }
  }

  lemma ErrorKeeps(s: State, m: nat, id: nat)
    requires m < |s.members| && id in s.callbacks
    ensures id in ErrorStep(s, m).0.callbacks || (Slot(s.members[m]) != [] && s.members[m].held.value.id == id)
  {
    hide Callback, Notify;
    RespondKeeps(s, m, id);
    if Slot(s.members[m]) != [] { RespondKeeps(Settle(s, m, Failed), m, s.members[m].held.value.id); }
  }

  lemma One(e: seq<Settled>, x: Sent, id: nat)
    ensures |e| == 1 && e[0].sent == x && x.id == id ==> Over(e, id)
  {}

  lemma ConnectedKeepsHooks(s: State, m: nat)
    requires m < |s.members|
    ensures Connected(s, m).callbacks == s.callbacks && |Connected(s, m).members| == |s.members|
  {}

  lemma NextKeeps(s: State, m: nat)
    requires m < |s.members|
    ensures NextStep(s, m).0.callbacks == s.callbacks
  {}

  lemma StepClear(s: State, c: Control, id: nat)
    requires !c.Return? && c.m < |s.members| && id in s.callbacks
    ensures Clear(Step(s, c).0, Step(s, c).1, id)
  {
    StepPends(s, c);
    if Unheard(s, c) { assert Step(s, c).0.members == s.members; }
  }

  /* Chains, calls and runs. */

  lemma {:induction false} ChainHonours(s: State, c: Control, id: nat)
    requires Ok(s, c) && id in s.callbacks && Clear(s, c, id)
    ensures Honoured(ChainEndings(s, c), id) && (id in Finish(s, c).callbacks || Over(ChainEndings(s, c), id))
    decreases Work(s), Rank(c)
  {
    hide Ok, Step, Outcome, Honoured, Over, Clear;
    if c.Return? {
      Nothing(id);
    } else {
      MembersOk(s, c, c.m);
      StepOk(s, c);
      StepHonours(s, c, id);
      var (s1, c1) := Step(s, c);
      if id in s1.callbacks { ChainHonours(s1, c1, id); }
      Joined(Outcome(s, c), ChainEndings(s1, c1), id);
    }
  }

  lemma Nothing(id: nat)
    ensures Honoured([], id)
  {}

  lemma {:induction false} ConnectHonours(s: State, k: nat, id: nat)
    requires k <= |s.members|
    ensures Honoured(ConnectEndings(s, k), id) && ConnectFrom(s, k).callbacks == s.callbacks
    decreases |s.members| - k
  {
    hide Connect, Interrupts, Over;
    if k < |s.members| {
      ConnectSize(s, k);
      OneConnected(s, k);
      ConnectHonours(Connect(s, k), k + 1, id);
      var e := if Interrupts(s, k) then [Settled(s.members[k].held.value, Lost)] else [];
      Joined(e, ConnectEndings(Connect(s, k), k + 1), id);
    }
  }

  lemma OneConnected(s: State, k: nat)
    requires k < |s.members|
    ensures Connect(s, k).callbacks == s.callbacks && (Interrupts(s, k) ==> s.members[k].held.Some?)
  {}

  lemma {:induction false} KeepsFrom(s: State, k: nat, name: string)
    requires k <= |s.members|
    ensures ChangeFrom(s, k, name).callbacks == s.callbacks && DisconnectFrom(s, k).callbacks == s.callbacks
    decreases |s.members| - k
  {
    if k < |s.members| {
      KeepsFrom(ChangeDatabase(s, k, name), k + 1, name);
      KeepsFrom(if s.members[k].connected then Disconnect(s, k) else s, k + 1, name);
    }
  }

  lemma CallHonours(s: State, op: Op, id: nat)
    requires Ok(s, Return) && id in s.callbacks
    ensures Honoured(CallEndings(s, op), id) && (id in Apply(s, op).callbacks || Over(CallEndings(s, op), id))
  {
    hide Ok, Submit, Finish, ConnectFrom, ChangeFrom, DisconnectFrom, ConnectEndings, ChainEndings, Honoured, Over;
    OneMember(s, Return);
    Nothing(id);
    match op
    case DoSubmit(text, data) => SubmitKeeps(s, text, data);
    case DoHook(_) =>
    case DoChangeDatabase(name) => KeepsFrom(s, 0, name);
    case DoConnect => ConnectHonours(s, 0, id);
    case DoDisconnect => KeepsFrom(s.(poolConnected := false, announced := 0), 0, "");
    case DoTimeout(_) =>
    case DoIo(m, budget) =>
      if Turns(s, op) {
        IoOk(s, m, budget);
        ChainHonours(s.(budget := budget), AtHandler(m), id);
      }
  }

  lemma {:induction false} RunHonours(s: State, ops: seq<Op>, id: nat)
    requires Safe(s) && Ok(s, Return) && id in s.callbacks
    ensures Honoured(Endings(s, ops), id) && (id in Run(s, ops).callbacks || Over(Endings(s, ops), id))
    decreases |ops|
  {
    hide Safe, Ok, Apply, CallEndings, Honoured, Over;
    if ops == [] {
      Nothing(id);
    } else {
      ApplySafe(s, ops[0]);
      CallHonours(s, ops[0], id);
      var s1 := Apply(s, ops[0]);
      if id in s1.callbacks { RunHonours(s1, ops[1..], id); }
      Joined(CallEndings(s, ops[0]), Endings(s1, ops[1..]), id);
    }
  }

  /** Once a callback has been set for an id, the first query of that id to end in the rest of the run goes to it, unless a
      new connection is made over the query; and until one ends, the callback stays set. */
  lemma HookHonoured(s: State, id: nat, ops: seq<Op>)
    requires Safe(s) && Ok(s, Return) && id > 0
    ensures Safe(Apply(s, DoHook(id))) && Ok(Apply(s, DoHook(id)), Return)
    ensures var r := Run(Apply(s, DoHook(id)), ops);
            && |r.settled| >= |s.settled| && r.settled[..|s.settled|] == s.settled
            && Honoured(r.settled[|s.settled|..], id)
            && (id in r.callbacks || Over(r.settled[|s.settled|..], id))
            && r.fired == s.fired + Calls(r.settled[|s.settled|..])
  {
    hide Safe, Ok, Honoured, Over, Endings, Run, Calls;
    ApplySafe(s, DoHook(id));
    var s1 := Apply(s, DoHook(id));
    RunSettles(s1, ops);
    RunHonours(s1, ops, id);
    assert Run(s1, ops).settled[|s.settled|..] == Endings(s1, ops);
  }
}

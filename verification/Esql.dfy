/** Esql objects and pools as the library keeps them: three parallel queues for each connection, a counter of ids, a table
    of user data, and functions that call each other until nothing is left to do. */
module Esql {
  import opened Scheduler
  import Safety
  import Effects

  /* what a queued call is: the entries of backend_set_funcs */
  datatype Func = EsqlDatabaseSet | EsqlQuery

  /** The calls in three parallel lists, with the data and numbers of the queries. */
  function Zip(funcs: seq<Func>, params: seq<string>, ids: seq<nat>, given: seq<nat>, nos: seq<nat>): (q: seq<Call>)
    requires |funcs| == |params| == |ids| == |given| == |nos|
    ensures |q| == |funcs|
  {
    seq(|funcs|, k requires 0 <= k < |funcs| =>
      if funcs[k].EsqlDatabaseSet? then SetDatabase(params[k]) else RunQuery(Sent(ids[k], params[k], given[k], nos[k])))
  }

  /** One connection. */
  class Connection {
    var connected: bool
    var fdh: bool // there is a descriptor handler
    var current: Phase
    var curId: nat
    var curQuery: Option<string>
    var curData: nat
    var queryStart: real

    /* the queue */
    var funcs: seq<Func>
    var params: seq<string>
    var ids: seq<nat>

    /* how many-eth query each one was, and the user data it was submitted with */
    ghost var curNo: nat
    ghost var nos: seq<nat>
    ghost var given: seq<nat>

    constructor ()
      ensures Aligned() && View() == Member(false, false, Idle, None, 0.0, [])
    {
      connected, fdh, current, curId, curQuery, curData, queryStart := false, false, Idle, 0, None, 0, 0.0;
      funcs, params, ids := [], [], [];
      curNo, nos, given := 0, [], [];
    }

    /** The lists have an entry each for every queued call. */
    ghost predicate Aligned()
      reads this
    {
      |funcs| == |params| == |ids| == |nos| == |given|
    }

    ghost function Queue(): seq<Call>
      requires Aligned()
      reads this
    {
      Zip(funcs, params, ids, given, nos)
    }

    ghost function Held(): Option<Sent>
      reads this
    {
      if curQuery.Some? then Some(Sent(curId, curQuery.value, curData, curNo)) else None
    }

    ghost function View(): Member
      requires Aligned()
      reads this
    {
      Member(connected, fdh, current, Held(), queryStart, Queue())
    }

    lemma About()
      requires Aligned()
      ensures View().current == current && View().connected == connected && View().open == fdh && View().held == Held()
      ensures View().started == queryStart && |View().queue| == |funcs|
      ensures funcs != [] ==> View().queue[0] == if funcs[0].EsqlDatabaseSet? then SetDatabase(params[0])
                                                 else RunQuery(Sent(ids[0], params[0], given[0], nos[0]))
    {}

    /** Appends a call to the three lists. */
    method Append(func: Func, param: string, id: nat, ghost data: nat, ghost no: nat)
      requires Aligned()
      modifies this
      ensures Aligned() && funcs == old(funcs) + [func]
      ensures View() == old(View()).(queue := old(View()).queue +
        [if func.EsqlDatabaseSet? then SetDatabase(param) else RunQuery(Sent(id, param, data, no))])
    {
      ghost var q := Queue();
      funcs := funcs + [func];
      params := params + [param];
      ids := ids + [id];
      given, nos := given + [data], nos + [no];
      assert Queue() == q + [if func.EsqlDatabaseSet? then SetDatabase(param) else RunQuery(Sent(id, param, data, no))];
    }

    /** UPDATE_LISTS: takes the first call off when it is a `func`. */
    method UpdateLists(func: Func)
      requires Aligned()
      modifies this
      ensures Aligned()
      ensures funcs == if old(|funcs|) > 0 && old(funcs)[0] == func then old(funcs)[1..] else old(funcs)
      ensures View() == old(View()).(queue := if old(|funcs|) > 0 && old(funcs)[0] == func then old(View()).queue[1..]
                                              else old(View()).queue)
    {
      if funcs != [] && funcs[0] == func {
        ghost var q := Queue();
        funcs := funcs[1..];
        params := params[1..];
        ids := ids[1..];
        given, nos := given[1..], nos[1..];
        assert Queue() == q[1..];
      }
    }

    /** The fields of a query that has been handed to the backend. */
    method Begin(id: nat, query: string, data: nat, now: real, ghost no: nat)
      requires Aligned()
      modifies this
      ensures Aligned() && funcs == old(funcs)
      ensures View() == old(View()).(current := Query, held := Some(Sent(id, query, data, no)), started := now)
    {
      ghost var q := Queue();
      queryStart := now;
      current := Query;
      curData := data;
      curId := id;
      curQuery := Some(query);
      curNo := no;
      assert Queue() == q;
    }

    /** Moves the first call of the three lists to the lists of `to`. */
    method MoveHead(to: Connection)
      requires Aligned() && to.Aligned() && to != this && funcs != []
      modifies this, to
      ensures Aligned() && to.Aligned() && to.funcs != [] && to.current == old(to.current)
      ensures View() == old(View()).(queue := old(View()).queue[1..])
      ensures to.View() == old(to.View()).(queue := old(to.View()).queue + [old(View()).queue[0]])
    {
      ghost var q, q' := Queue(), to.Queue();
      to.funcs := to.funcs + [funcs[0]];
      funcs := funcs[1..];
      to.params := to.params + [params[0]];
      params := params[1..];
      to.ids := to.ids + [ids[0]];
      ids := ids[1..];
      to.given, given := to.given + [given[0]], given[1..];
      to.nos, nos := to.nos + [nos[0]], nos[1..];
      assert Queue() == q[1..];
      assert to.Queue() == q' + [q[0]];
    }

    method SetCurrent(phase: Phase)
      requires Aligned()
      modifies `current
      ensures Aligned() && View() == old(View()).(current := phase)
    {
      current := phase;
    }

    /** cur_query is handed over to a result. */
    method Release() returns (query: Option<string>)
      requires Aligned()
      modifies `curQuery
      ensures Aligned() && View() == old(View()).(held := None) && query == old(curQuery)
    {
      query := curQuery;
      curQuery := None;
    }

    method SetClock(time: real)
      requires Aligned()
      modifies `queryStart
      ensures Aligned() && View() == old(View()).(started := time)
    {
      queryStart := time;
    }

    method SetLine(connected: bool, fdh: bool)
      requires Aligned()
      modifies `connected, `fdh
      ensures Aligned() && View() == old(View()).(connected := connected, open := fdh)
    {
      this.connected, this.fdh := connected, fdh;
    }
  }

  function Increment(id: nat): nat { if id >= ID_MAX then 0 else id + 1 }

  function Decrement(id: nat): nat { if id == 0 then ID_MAX else id - 1 }

  /** A member that is not connected takes no query. */
  lemma Refused(s: State, m: nat, text: string, data: nat)
    requires m < |s.members| && !s.members[m].connected
    ensures SubmitTo(s, m, text, data) == (s, 0)
  {}

  /** What a query given to a connected member changes. */
  lemma SubmitParts(s: State, m: nat, text: string, data: nat)
    requires m < |s.members| && s.members[m].connected
    ensures var (r, id) := SubmitTo(s, m, text, data);
            var e, a, new_ := s.members[m], Answered(s), NextId(s.lastId);
            var x, started := Sent(new_, text, data, |s.accepted|), e.current.Idle? && !a.fails;
            var refused := e.current.Idle? && a.fails;
            && r == s.(members := s.members[m := Given(e, x, a)], tick := r.tick, lastId := r.lastId,
                       accepted := r.accepted, unique := r.unique, data := r.data)
            && r.tick == (if e.current.Idle? then s.tick + 1 else s.tick)
            && r.lastId == (if refused then PrevId(new_) else new_) && id == (if refused then 0 else new_)
            && r.accepted == (if refused then s.accepted else s.accepted + [x])
            && r.unique == (if refused then s.unique else s.unique && !Outstanding(s, new_))
            && r.data == (if !e.current.Idle? && data != 0 then s.data[new_ := data] else s.data)
  {
    hide Outstanding;
  }

  /** A pool, or an Esql of its own, with the library's counter of ids and its two tables. */
  class Pool {
    const pooled: bool
    const esqls: seq<Connection>
    const env: nat -> Answer

    /* Esql_Pool */
    var eConnected: int
    var connected: bool

    /* esql_id, esql_query_data and the keys of esql_query_callbacks */
    var esqlId: nat
    var queryData: map<nat, nat>
    var callbacks: set<nat>

    /* how often the environment has answered, and how many queries callbacks may still submit in this turn */
    var tick: nat
    var budget: nat

    /* the books */
    ghost var accepted: seq<Sent>
    ghost var settled: seq<Settled>
    ghost var registered: multiset<nat>
    ghost var fired: multiset<nat>
    ghost var announced: nat
    ghost var unique: bool
    ghost var dbSets: nat
    ghost var notified: nat

    /** The connections are different objects, with aligned queues. */
    ghost predicate Linked()
      reads esqls
    {
      && |esqls| > 0 && (!pooled ==> |esqls| == 1)
      && (forall j, k :: 0 <= j < k < |esqls| ==> esqls[j] != esqls[k])
      && (forall m :: 0 <= m < |esqls| ==> esqls[m].Aligned())
    }

    ghost predicate Valid()
      reads `esqlId, esqls
    {
      Linked() && esqlId <= ID_MAX
    }

    ghost function Members(): (ms: seq<Member>)
      requires Linked()
      reads esqls
      ensures |ms| == |esqls|
    {
      seq(|esqls|, m requires 0 <= m < |esqls| && esqls[m].Aligned() reads esqls => esqls[m].View())
    }

    ghost function View(): State
      requires Valid()
      reads this, esqls
    {
      State(pooled, Members(), eConnected, connected, esqlId, queryData, callbacks, env, tick, budget,
            accepted, settled, registered, fired, announced, unique, dbSets, notified)
    }

    /** esql_pool_new, or esql_new. */
    constructor (pooled: bool, esqls: seq<Connection>, env: nat -> Answer)
      requires |esqls| > 0 && (!pooled ==> |esqls| == 1) && forall j, k :: 0 <= j < k < |esqls| ==> esqls[j] != esqls[k]
      requires forall m :: 0 <= m < |esqls| ==>
        esqls[m].Aligned() && esqls[m].View() == Member(false, false, Idle, None, 0.0, [])
      ensures this.pooled == pooled && this.esqls == esqls && this.env == env
      ensures Valid() && View() == Start(pooled, |esqls|, env)
    {
      this.pooled, this.esqls, this.env := pooled, esqls, env;
      eConnected, connected, esqlId, queryData, callbacks, tick, budget := 0, false, 0, map[], {}, 0, 0;
      accepted, settled, registered, fired, announced, unique, dbSets, notified := [], [], multiset{}, multiset{}, 0, true, 0, 0;
      new;
      assert Members() == Start(pooled, |esqls|, env).members;
    }

    lemma NotEmpty()
      requires Linked()
      ensures |esqls| > 0 && (!pooled ==> |esqls| == 1)
    {}

    lemma At(m: nat)
      requires Linked() && m < |esqls|
      ensures esqls[m].Aligned() && Members()[m] == esqls[m].View() && (!pooled ==> m == 0)
    {}

    /** Connection `m` alone has changed. */
    twostate lemma OneChanged(m: nat)
      requires old(Linked()) && m < |esqls| && esqls[m].Aligned()
      requires forall e: Connection :: e in esqls && e != esqls[m] ==> unchanged(e)
      ensures Linked() && Members() == old(Members())[m := esqls[m].View()]
    {
      forall j | 0 <= j < |esqls| ensures esqls[j].Aligned() && (j != m ==> esqls[j].View() == old(esqls[j].View())) {
        if j != m {
          assert esqls[j] != esqls[m] && esqls[j] in esqls;
          assert old(esqls[j].Aligned());
        }
      }
    }

    /** esql_pool_idle_find_ */
    method IdleFind() returns (use: nat)
      requires Valid()
      ensures use == Scheduler.IdleFind(Members(), env(tick).now)
    {
      ghost var ms := Members();
      for i := 0 to |esqls|
        invariant FirstIdle(ms, 0) == FirstIdle(ms, i)
      {
        if esqls[i].current.Idle? {
          return i;
        }
      }
      var ti, cur, found := env(tick).now, 0.0, false;
      use := |esqls|;
      for i := 0 to |esqls|
        invariant use <= |esqls| && found == (use < |esqls|)
        invariant Longest(ms, ti, 0, 0.0, |ms|) == Longest(ms, ti, i, cur, use)
      {
        if ti - esqls[i].queryStart > cur {
          cur := ti - esqls[i].queryStart;
          use := i;
          found := true;
        }
      }
      if !found {
        use := 0;
      }
    }

    /** `while (++esql_id < 1)` */
    method TakeId()
      requires esqlId <= ID_MAX
      modifies `esqlId
      ensures esqlId == NextId(old(esqlId)) <= ID_MAX
    {
      esqlId := Increment(esqlId);
      while esqlId < 1
        invariant esqlId == (if old(esqlId) >= ID_MAX then 0 else old(esqlId) + 1) || (old(esqlId) >= ID_MAX && esqlId == 1)
        decreases 1 - esqlId
      {
        esqlId := Increment(esqlId);
      }
    }

    /** `while (!(--esql_id))` */
    method GiveIdBack()
      requires 0 < esqlId <= ID_MAX
      modifies `esqlId
      ensures esqlId == PrevId(old(esqlId)) <= ID_MAX
    {
      esqlId := Decrement(esqlId);
      while esqlId == 0
        invariant esqlId == old(esqlId) - 1 || (old(esqlId) == 1 && esqlId == ID_MAX)
        decreases ID_MAX - esqlId, esqlId == 0
      {
        esqlId := Decrement(esqlId);
      }
    }

    /** A query has been accepted. */
    ghost method Book(id: nat, query: string, data: nat, clash: bool)
      modifies `accepted, `unique
      ensures accepted == old(accepted) + [Sent(id, query, data, |old(accepted)|)] && unique == (old(unique) && !clash)
    {
      accepted, unique := accepted + [Sent(id, query, data, |accepted|)], unique && !clash;
    }

    /** The part of esql_query for an idle connection. */
    method StartQuery(m: nat, query: string, data: nat) returns (id: nat)
      requires Valid() && m < |esqls| && esqls[m].connected && esqls[m].current.Idle?
      modifies `tick, `esqlId, `accepted, `unique, esqls[m]
      ensures Valid() && tick == old(tick) + 1
      ensures Members() == old(Members())[m :=
        Given(old(esqls[m].View()), Sent(NextId(old(esqlId)), query, data, old(|accepted|)), env(old(tick)))]
      ensures env(old(tick)).fails ==>
        id == 0 && esqlId == PrevId(NextId(old(esqlId))) && accepted == old(accepted) && unique == old(unique)
      ensures !env(old(tick)).fails ==> id == esqlId == NextId(old(esqlId))
      ensures !env(old(tick)).fails ==> accepted == old(accepted) + [Sent(id, query, data, old(|accepted|))]
      ensures !env(old(tick)).fails ==> unique == old(unique && !Outstanding(View(), NextId(esqlId)))
    {
      hide Outstanding, Linked, Members, Connection.View, Connection.Aligned;
      At(m);
      esqls[m].About();
      ghost var clash := Outstanding(View(), NextId(esqlId));
      var a := env(tick);
      tick := tick + 1;
      TakeId();
      id := esqlId;
      if a.fails {
        esqls[m].SetClock(a.now);
        OneChanged(m);
        GiveIdBack();
        return 0;
      }
      esqls[m].Begin(id, query, data, a.now, |accepted|);
      OneChanged(m);
      Book(id, query, data, clash);
    }

    /** The part of esql_query for a busy connection. */
    method QueueQuery(m: nat, query: string, data: nat) returns (id: nat)
      requires Valid() && m < |esqls| && esqls[m].connected && !esqls[m].current.Idle?
      modifies `esqlId, `queryData, `accepted, `unique, esqls[m]
      ensures Valid() && id == esqlId == NextId(old(esqlId))
      ensures Members() == old(Members())[m :=
        Given(old(esqls[m].View()), Sent(id, query, data, old(|accepted|)), env(tick))]
      ensures accepted == old(accepted) + [Sent(id, query, data, old(|accepted|))]
      ensures unique == old(unique && !Outstanding(View(), NextId(esqlId)))
      ensures queryData == if data != 0 then old(queryData)[id := data] else old(queryData)
    {
      hide Outstanding, Linked, Members, Connection.View, Connection.Aligned;
      At(m);
      esqls[m].About();
      ghost var clash := Outstanding(View(), NextId(esqlId));
      TakeId();
      id := esqlId;
      esqls[m].Append(EsqlQuery, query, id, data, |accepted|);
      OneChanged(m);
      Book(id, query, data, clash);
      if data != 0 {
        queryData := queryData[id := data];
      }
    }

    /** esql_query on connection `m` */
    method Query(m: nat, query: string, data: nat) returns (id: nat)
      requires Valid() && m < |esqls|
      modifies `tick, `esqlId, `queryData, `accepted, `unique, esqls[m]
      ensures Valid() && View() == SubmitTo(old(View()), m, query, data).0
      ensures id == SubmitTo(old(View()), m, query, data).1
    {
      hide SubmitTo, Outstanding, Linked, Members, Connection.View, Connection.Aligned, Given;
      At(m);
      esqls[m].About();
      ghost var s := View();
      if !esqls[m].connected {
        Refused(s, m, query, data);
        return 0;
      }
      SubmitParts(s, m, query, data);
      if esqls[m].current.Idle? {
        id := StartQuery(m, query, data);
      } else {
        id := QueueQuery(m, query, data);
      }
    }

    /** esql_query on the pool, or on the Esql */
    method Submit(query: string, data: nat) returns (id: nat)
      requires Valid()
      modifies this, esqls
      ensures Valid() && View() == Scheduler.Submit(old(View()), query, data).0
      ensures id == Scheduler.Submit(old(View()), query, data).1
    {
      hide SubmitTo;
      if !pooled {
        id := Query(0, query, data);
        return;
      }
      if !connected {
        return 0;
      }
      var m := IdleFind();
      id := Query(m, query, data);
    }

    /** esql_query_callback_set */
    method SetCallback(id: nat) returns (ok: bool)
      requires Valid()
      modifies this
      ensures Valid() && View() == Hook(old(View()), id) && ok == (id >= 1)
    {
      if id < 1 {
        return false;
      }
      callbacks := callbacks + {id};
      registered := registered + multiset{id};
      assert Members() == old(Members());
      ok := true;
    }

    /** What a callback does with the library: it submits queries, and may set callbacks for them. */
    method RunCallback(asks: seq<Ask>)
      requires Valid()
      modifies this, esqls
      ensures Valid() && View() == Asks(old(View()), asks)
    {
      hide Scheduler.Submit;
      ghost var s := View();
      for i := 0 to |asks|
        invariant Valid() && Asks(View(), asks[i..]) == Asks(s, asks)
      {
        assert asks[i..][0] == asks[i] && asks[i..][1..] == asks[i + 1..];
        var id := Submit(asks[i].text, asks[i].data);
        if asks[i].hook {
          var _ := SetCallback(id);
        }
      }
      assert asks[|asks|..] == [];
    }

    /** The scan of esql_pool_rebalance. */
    method FindReady() returns (i: nat)
      requires Valid()
      ensures i == FirstReady(Members(), 0)
    {
      ghost var ms := Members();
      i := 0;
      while i < |esqls|
        invariant i <= |esqls| && FirstReady(ms, 0) == FirstReady(ms, i)
      {
        At(i);
        esqls[i].About();
        if esqls[i].funcs != [] && esqls[i].funcs[0].EsqlQuery? {
          return;
        }
        i := i + 1;
      }
    }

    method MoveBetween(i: nat, m: nat)
      requires Valid() && i < |esqls| && m < |esqls| && i != m && esqls[i].funcs != []
      modifies esqls[i], esqls[m]
      ensures Valid() && old(Members())[i].queue != [] && esqls[m].funcs != [] && esqls[m].current == old(esqls[m].current)
      ensures View() == Move(old(View()), i, m)
    {
      hide Connection.View, Connection.Queue;
      At(i);
      At(m);
      esqls[i].About();
      esqls[i].MoveHead(esqls[m]);
    }

    /** esql_pool_rebalance */
    method Rebalance(m: nat) returns (moved: bool)
      requires Valid() && m < |esqls| && esqls[m].funcs == []
      modifies esqls
      ensures Valid() && moved == (FirstReady(old(Members()), 0) < |esqls|)
      ensures moved ==> FirstReady(old(Members()), 0) != m
      ensures moved ==> View() == Move(old(View()), FirstReady(old(Members()), 0), m) && esqls[m].funcs != []
      ensures !moved ==> View() == old(View())
      ensures esqls[m].current == old(esqls[m].current)
    {
      var i := FindReady();
      if i == |esqls| {
        return false;
      }
      At(i);
      At(m);
      esqls[i].About();
      esqls[m].About();
      assert esqls[i] != esqls[m] && esqls[i].funcs != [];
      MoveBetween(i, m);
      moved := true;
    }

    /** A query of connection `m` is over. */
    ghost method Record(x: Sent, how: Ending)
      modifies `settled
      ensures settled == old(settled) + [Settled(x, how)]
    {
      settled := settled + [Settled(x, how)];
    }

    /** Connection `m` stops what it was doing. */
    method Leave(m: nat)
      requires Valid() && m < |esqls|
      modifies `settled, esqls[m]
      ensures Valid() && View() == Forget(old(View()), m) && esqls[m].funcs == old(esqls[m].funcs)
    {
      hide Linked, Members, Connection.View, Connection.Aligned;
      At(m);
      esqls[m].About();
      if esqls[m].current.Query? && esqls[m].curQuery.Some? {
        Record(esqls[m].Held().value, Dropped);
      }
      esqls[m].SetCurrent(Idle);
      OneChanged(m);
    }

    /** The query of connection `m` is handed to its result. */
    method HandOver(m: nat, ghost how: Ending)
      requires Valid() && m < |esqls| && esqls[m].curQuery.Some?
      modifies `settled, esqls[m]
      ensures Valid() && View() == Settle(old(View()), m, how)
    {
      hide Linked, Members, Connection.View, Connection.Aligned;
      At(m);
      esqls[m].About();
      Record(esqls[m].Held().value, how);
      var _ := esqls[m].Release();
      OneChanged(m);
    }

    /** Another answer of the environment, of which a callback uses `n` queries. */
    method Spend(n: nat)
      requires Valid() && n <= budget
      modifies `tick, `budget
      ensures Valid() && View() == old(View()).(tick := old(tick) + 1, budget := old(budget) - n)
    {
      hide Linked, Members;
      tick := tick + 1;
      budget := budget - n;
    }

    /** Drops the callback of query `id`, which connection `m` has run, from the table. */
    method Unhook(m: nat, id: nat)
      requires Valid() && m < |esqls|
      modifies `callbacks, `fired, esqls[m]
      ensures Valid() && View() == old(With(View(), m, View().members[m].(started := 0.0))
                                         .(callbacks := callbacks - {id}, fired := fired + multiset{id}))
    {
      hide Linked, Members, Connection.View, Connection.Aligned;
      At(m);
      esqls[m].SetClock(0.0);
      OneChanged(m);
      callbacks := callbacks - {id};
      fired := fired + multiset{id};
    }

    /** Calls a callback. */
    method Invoke()
      requires Valid()
      modifies this, esqls
      ensures Valid() && |old(View()).members| > 0 && View() == Respond(old(View()))
    {
      hide Linked, Members, View, Asks;
      Environment();
      var asks := env(tick).asks;
      var n := if |asks| <= budget then |asks| else budget;
      Spend(n);
      RunCallback(asks[..n]);
    }

    /** Calls the connect callback. */
    method InvokeConnect()
      requires Valid()
      modifies this, esqls
      ensures Valid() && |old(View()).members| > 0 && View() == Notify(old(View()))
    {
      hide Linked, Members, Respond;
      Environment();
      notified := notified + 1;
      assert View() == old(View()).(notified := old(View()).notified + 1);
      Invoke();
    }

    /** Calls the callback of query `id`, which connection `m` has run, and drops it. */
    method CallBack(m: nat, id: nat)
      requires Valid() && m < |esqls|
      modifies this, esqls
      ensures Valid() && View() == Callback(old(View()), m, id)
    {
      hide Linked, Members, View, Respond;
      Environment();
      Invoke();
      Environment();
      Unhook(m, id);
    }

    lemma Environment()
      requires Valid()
      ensures View().tick == tick && View().env == env && View().budget == budget && |View().members| == |esqls| > 0
      ensures View().callbacks == callbacks && View().fired == fired
    {
      hide Linked;
      NotEmpty();
    }

    method MarkConnected(m: nat)
      requires Valid() && m < |esqls|
      modifies esqls[m]
      ensures Valid() && Members() == old(Members())[m := old(Members())[m].(connected := true)]
    {
      hide Linked, Members, Connection.View, Connection.Aligned;
      At(m);
      esqls[m].About();
      esqls[m].SetLine(true, esqls[m].fdh);
      OneChanged(m);
    }

    /** The connect case of esql_call_complete. */
    method AnnounceConnected(m: nat)
      requires Valid() && m < |esqls|
      modifies this, esqls
      ensures Valid() && View() == Announce(old(View()), m)
    {
      hide Linked, Members, View, Connected, Notify;
      Environment();
      var announce := NoteConnected(m);
      if announce {
        InvokeConnect();
      }
    }

    /** Counts a new connection: whether the connect callback is called for it. */
    method NoteConnected(m: nat) returns (announce: bool)
      requires Valid() && m < |esqls|
      modifies `eConnected, `connected, `announced, esqls[m]
      ensures Valid() && View() == Connected(old(View()), m)
      ensures announce == (Connected(old(View()), m).announced > old(View()).announced)
    {
      hide Linked, Members, Connected;
      ConnectedParts(View(), m);
      MarkConnected(m);
      if pooled {
        eConnected := eConnected + 1;
      }
      announce := !pooled || (!connected && eConnected == |esqls|);
      if announce {
        if pooled {
          connected := true;
        }
        announced := announced + 1;
      }
    }

    /** esql_disconnect on connection `m` */
    method Disconnect(m: nat)
      requires Valid() && m < |esqls|
      modifies `eConnected, esqls[m]
      ensures Valid() && View() == Scheduler.Disconnect(old(View()), m)
    {
      hide Linked, Members, Connection.View, Connection.Aligned;
      At(m);
      esqls[m].About();
      if esqls[m].connected && pooled {
        eConnected := eConnected - 1;
      }
      esqls[m].SetLine(false, false);
      OneChanged(m);
    }

    /** esql_database_set on connection `m`: sent at once when it is idle, else queued. */
    method SetDatabase(m: nat, name: string)
      requires Valid() && m < |esqls|
      modifies esqls[m]
      ensures Valid() && Members() == old(Members())[m := var e := old(Members())[m];
        if e.current.Idle? && e.connected then e.(current := DbSet) else e.(queue := e.queue + [Call.SetDatabase(name)])]
      ensures esqls[m].funcs ==
        if old(esqls[m].current.Idle? && esqls[m].connected) then old(esqls[m].funcs) else old(esqls[m].funcs) + [EsqlDatabaseSet]
    {
      hide Linked, Members, Connection.View, Connection.Aligned;
      At(m);
      esqls[m].About();
      if esqls[m].current.Idle? && esqls[m].connected {
        esqls[m].SetCurrent(DbSet);
      } else {
        esqls[m].Append(EsqlDatabaseSet, name, 0, 0, 0); // the list of ids takes the object's address, which is not read
      }
      OneChanged(m);
    }

    lemma Twice(ms: seq<Member>, m: nat, e: Member, e': Member)
      requires m < |ms|
      ensures ms[m := e][m := e'] == ms[m := e'] && ms[m := e][m] == e
    {}

    method DropFirst(m: nat, func: Func)
      requires Valid() && m < |esqls| && esqls[m].funcs != [] && esqls[m].funcs[0] == func
      modifies esqls[m]
      ensures Valid() && Members() == old(Members())[m := var e := old(Members())[m]; e.(queue := e.queue[1..])]
    {
      hide Linked, Members, Connection.View, Connection.Aligned;
      At(m);
      esqls[m].About();
      esqls[m].UpdateLists(func);
      OneChanged(m);
    }

    /** The part of esql_next for a queued database change. */
    method NextDatabase(m: nat)
      requires Valid() && m < |esqls| && esqls[m].funcs != [] && esqls[m].funcs[0].EsqlDatabaseSet?
      requires esqls[m].current.Idle?
      modifies esqls[m]
      ensures Valid() && View() == Dispatch(old(View()), m).0 && AtHandler(m) == Dispatch(old(View()), m).1
    {
      hide Linked, Members, Connection.View, Connection.Aligned;
      At(m);
      esqls[m].About();
      ghost var q := View().members[m].queue;
      ghost var ms := Members();
      SetDatabase(m, esqls[m].params[0]);
      ghost var e := Members()[m];
      assert (q + [q[0]])[1..] == q[1..] + [q[0]];
      DropFirst(m, EsqlDatabaseSet);
      Twice(ms, m, e, e.(queue := e.queue[1..]));
    }

    /** The first queued query becomes the current one. */
    method TakeFirst(m: nat, data: nat, now: real)
      requires Valid() && m < |esqls| && esqls[m].funcs != [] && esqls[m].funcs[0].EsqlQuery?
      modifies esqls[m]
      ensures Valid() && old(Members())[m].queue != [] && old(Members())[m].queue[0].RunQuery?
      ensures Members() == old(Members())[m := var e := old(Members())[m];
        e.(current := Phase.Query, held := Some(e.queue[0].sent.(data := data)), started := now, queue := e.queue[1..])]
    {
      hide Linked, Members, Connection.View, Connection.Aligned;
      At(m);
      var e := esqls[m];
      e.About();
      ghost var ms, v := Members(), e.View();
      e.Begin(e.ids[0], e.params[0], data, now, e.nos[0]);
      OneChanged(m);
      Twice(ms, m, e.View(), e.View().(queue := v.queue[1..]));
      DropFirst(m, EsqlQuery);
    }

    /** The part of esql_next for a queued query: `failed` if the backend reports an error. */
    method NextQuery(m: nat) returns (failed: bool)
      requires Valid() && m < |esqls| && esqls[m].funcs != [] && esqls[m].funcs[0].EsqlQuery?
      modifies `tick, `queryData, esqls[m]
      ensures Valid() && View() == Dispatch(old(View()), m).0
      ensures Dispatch(old(View()), m).1 == if failed then AtError(m) else AtHandler(m)
    {
      hide Linked, Members, Connection.View, Connection.Aligned, Dispatch;
      At(m);
      esqls[m].About();
      DispatchParts(View(), m);
      var id := esqls[m].ids[0];
      var data := if id in queryData then queryData[id] else 0;
      TakeFirst(m, data, env(tick).now);
      failed := env(tick).fails;
      DropData(id, data);
    }

    /** The data of query `id` is not kept any more. */
    method DropData(id: nat, data: nat)
      modifies `tick, `queryData
      ensures tick == old(tick) + 1 && queryData == if data != 0 then old(queryData) - {id} else old(queryData)
    {
      tick := tick + 1;
      if data != 0 {
        queryData := queryData - {id};
      }
    }

    /** The part of esql_next before it calls on: what comes after it. */
    method StartNext(m: nat) returns (c: Control)
      requires Valid() && m < |esqls|
      modifies this, esqls
      ensures Valid() && View() == NextStep(old(View()), m).0 && c == NextStep(old(View()), m).1
      ensures c == Return || c == AtHandler(m) || c == AtError(m)
    {
      hide Linked, Members, Connection.View, Connection.Aligned, Dispatch, Forget, Move;
      ForgetShape(View(), m);
      Leave(m);
      At(m);
      esqls[m].About();
      if esqls[m].funcs == [] {
        if !pooled {
          return Return;
        }
        var moved := Rebalance(m);
        if !moved {
          return Return;
        }
      }
      At(m);
      esqls[m].About();
      if esqls[m].funcs[0].EsqlDatabaseSet? {
        NextDatabase(m);
        c := AtHandler(m);
      } else {
        var failed := NextQuery(m);
        c := if failed then AtError(m) else AtHandler(m);
      }
    }

    /** The part of esql_call_complete before esql_next. */
    method CompleteCall(m: nat)
      requires Valid() && m < |esqls|
      modifies this, esqls
      ensures Valid() && View() == CompleteStep(old(View()), m).0 && AtNext(m) == CompleteStep(old(View()), m).1
    {
      hide Linked, Members, Connection.View, Connection.Aligned, Callback, Settle, Announce;
      At(m);
      esqls[m].About();
      if esqls[m].current.Init? {
        AnnounceConnected(m);
      } else if esqls[m].current.Query? && esqls[m].curQuery.Some? {
        var id := esqls[m].curId;
        SettleParts(View(), m, Called);
        if id in callbacks {
          HandOver(m, Called);
          CallBack(m, id);
        } else {
          HandOver(m, Emitted);
        }
      }
    }

    /** The part of esql_event_error before esql_next: whether it is called. */
    method ErrorCall(m: nat) returns (next: bool)
      requires Valid() && m < |esqls|
      modifies this, esqls
      ensures Valid() && View() == ErrorStep(old(View()), m).0
      ensures ErrorStep(old(View()), m).1 == if next then AtNext(m) else Return
    {
      hide Linked, Members, Connection.View, Connection.Aligned, Callback, Notify, Settle, Scheduler.Disconnect;
      At(m);
      esqls[m].About();
      if esqls[m].current.Query? {
        SettleFailed(m);
        var broken := env(tick).broken;
        Environment();
        Spend(0);
        if broken {
          Disconnect(m);
        }
        next := !broken;
      } else {
        InvokeConnect();
        Disconnect(m);
        next := false;
      }
    }

    /** The callback of a query that failed, if it has one. */
    method SettleFailed(m: nat)
      requires Valid() && m < |esqls|
      modifies this, esqls
      ensures Valid()
      ensures View() == var s, e := old(View()), old(View()).members[m];
                        if e.held.Some? && e.held.value.id in s.callbacks
                        then Callback(Settle(s, m, Failed), m, e.held.value.id) else s
    {
      hide Linked, Members, Connection.View, Connection.Aligned, Callback, Settle;
      At(m);
      esqls[m].About();
      if esqls[m].curQuery.Some? && esqls[m].curId in callbacks {
        var id := esqls[m].curId;
        SettleParts(View(), m, Failed);
        HandOver(m, Failed);
        CallBack(m, id);
      }
    }

    /** esql_next */
    method Next(m: nat)
      requires Valid() && Ok(View(), AtNext(m))
      modifies this, esqls
      ensures Valid() && View() == Finish(old(View()), AtNext(m))
      decreases Work(View()), 1
    {
      hide Ok, Linked, Members, View, Finish, NextStep, Work;
      ghost var s1, c1 := Chain(View(), AtNext(m));
      Environment();
      var c := StartNext(m);
      if c.AtError? {
        EventError(m);
      } else if c.AtHandler? {
        ConnectHandler(m);
      }
    }

    /** esql_call_complete */
    method CallComplete(m: nat)
      requires Valid() && Ok(View(), AtComplete(m))
      modifies this, esqls
      ensures Valid() && View() == Finish(old(View()), AtComplete(m))
      decreases Work(View()), 2
    {
      hide Ok, Linked, Members, View, Finish, CompleteStep, Work;
      ghost var s1, c1 := Chain(View(), AtComplete(m));
      Environment();
      CompleteCall(m);
      Next(m);
    }

    /** esql_event_error */
    method EventError(m: nat)
      requires Valid() && Ok(View(), AtError(m))
      modifies this, esqls
      ensures Valid() && View() == Finish(old(View()), AtError(m))
      decreases Work(View()), 2
    {
      hide Ok, Linked, Members, View, Finish, ErrorStep, Work;
      ghost var s1, c1 := Chain(View(), AtError(m));
      Environment();
      var next := ErrorCall(m);
      if next {
        Next(m);
      }
    }

    /** esql_connect_handler */
    method ConnectHandler(m: nat)
      requires Valid() && Ok(View(), AtHandler(m))
      modifies this, esqls
      ensures Valid() && View() == Finish(old(View()), AtHandler(m))
      decreases Work(View()), 3
    {
      hide Ok, Linked, Members, View, Finish, Work;
      ghost var s1, c1 := Chain(View(), AtHandler(m));
      Environment();
      var ret := env(tick).io;
      Spend(0);
      match ret
      case Done => CallComplete(m);
      case Again =>
      case Bad => EventError(m);
    }

    /* The calls of the user and of the event loop. */

    /** esql_connect on connection `m` */
    method ConnectOne(m: nat) returns (ok: bool)
      requires Valid() && m < |esqls|
      modifies `tick, `settled, esqls[m]
      ensures Valid() && View() == Safety.Connect(old(View()), m)
      ensures ok == (!old(esqls[m].connected) && !env(old(tick)).fails)
    {
      hide Linked, Members, Connection.View, Connection.Aligned, Safety.Connect;
      At(m);
      esqls[m].About();
      ConnectParts(View(), m);
      if esqls[m].connected {
        return false;
      }
      ok := !env(tick).fails;
      tick := tick + 1;
      if ok {
        if esqls[m].current.Query? && esqls[m].curQuery.Some? {
          Record(esqls[m].Held().value, Lost);
        }
        Reopen(m);
      }
    }

    /** The descriptor of connection `m` is open, and the connection is being made. */
    method Reopen(m: nat)
      requires Valid() && m < |esqls| && !esqls[m].connected
      modifies esqls[m]
      ensures Valid() && Members() == old(Members())[m := old(Members())[m].(open := true, current := Init)]
    {
      hide Linked, Members, Connection.View, Connection.Aligned;
      At(m);
      esqls[m].About();
      esqls[m].SetLine(false, true);
      esqls[m].SetCurrent(Init);
      OneChanged(m);
    }

    /** esql_connect on the pool, or on the Esql. */
    method Connect()
      requires Valid()
      modifies this, esqls
      ensures Valid() && View() == Safety.ConnectFrom(old(View()), 0)
      ensures Effects.AllReconnected(old(View()), View())
    {
      hide View, Linked, Members, Safety.ConnectFrom, Effects.AllReconnected;
      ReopenAll();
      Effects.ConnectsEach(old(View()));
    }

    method ReopenAll()
      requires Valid()
      modifies this, esqls
      ensures Valid() && View() == Safety.ConnectFrom(old(View()), 0)
    {
      hide Linked, Members, Safety.Connect;
      ghost var s := View();
      for m := 0 to |esqls|
        invariant Valid() && Safety.ConnectFrom(s, 0) == Safety.ConnectFrom(View(), m)
      {
        Environment();
        Safety.ConnectSize(View(), m);
        var _ := ConnectOne(m);
      }
      Environment();
    }

    /** esql_database_set on connection `m` */
    method ChangeOne(m: nat, name: string)
      requires Valid() && m < |esqls|
      modifies `dbSets, esqls[m]
      ensures Valid() && View() == Safety.ChangeDatabase(old(View()), m, name)
    {
      hide Linked, Members;
      SetDatabase(m, name);
      dbSets := dbSets + 1;
    }

    /** esql_database_set on the pool, or on the Esql. */
    method ChangeDatabase(name: string)
      requires Valid()
      modifies this, esqls
      ensures Valid() && View() == Safety.ChangeFrom(old(View()), 0, name)
      ensures Effects.AllChanged(name, old(View()), View())
    {
      hide View, Linked, Members, Safety.ChangeFrom, Effects.AllChanged;
      ChangeAll(name);
      Effects.ChangesEach(old(View()), name);
    }

    method ChangeAll(name: string)
      requires Valid()
      modifies this, esqls
      ensures Valid() && View() == Safety.ChangeFrom(old(View()), 0, name)
    {
      hide Linked, Members, Safety.ChangeDatabase;
      ghost var s := View();
      for m := 0 to |esqls|
        invariant Valid() && Safety.ChangeFrom(s, 0, name) == Safety.ChangeFrom(View(), m, name)
      {
        Environment();
        ChangeSize(View(), m, name);
        ChangeOne(m, name);
      }
      Environment();
    }

    /** esql_disconnect on the pool, or on the Esql. */
    method DisconnectAll()
      requires Valid()
      modifies this, esqls
      ensures Valid() && View() == Safety.DisconnectAll(old(View()))
      ensures Safety.Safe(old(View())) && Ok(old(View()), Return) ==> Effects.AllClosed(old(View()), View())
    {
      hide View, Linked, Members, Safety.DisconnectAll, Safety.Safe, Ok, Effects.AllClosed;
      CloseAll();
      if Safety.Safe(old(View())) && Ok(old(View()), Return) {
        Effects.DisconnectsAll(old(View()));
      }
    }

    method CloseAll()
      requires Valid()
      modifies this, esqls
      ensures Valid() && View() == Safety.DisconnectAll(old(View()))
    {
      hide Linked, Members, Scheduler.Disconnect;
      assert |esqls| > 0 by { NotEmpty(); }
      if !pooled {
        Disconnect(0);
        return;
      }
      connected := false;
      announced := 0;
      ghost var s := View();
      for m := 0 to |esqls|
        invariant Valid() && Safety.DisconnectFrom(s, 0) == Safety.DisconnectFrom(View(), m)
      {
        Environment();
        At(m);
        DisconnectSize(View(), m);
        if esqls[m].connected {
          Disconnect(m);
        }
      }
      Environment();
    }

    /** One turn of the program around the library. It keeps all that `Safety.Safe` says. */
    method Turn(op: Safety.Op)
      requires Valid() && Safety.Safe(View()) && Ok(View(), Return)
      modifies this, esqls
      ensures Valid() && View() == Safety.Apply(old(View()), op) && Safety.Safe(View()) && Ok(View(), Return)
    {
      hide Linked, Members, View, Safety.Safe, Ok, Safety.ConnectFrom, Safety.ChangeFrom, Safety.DisconnectAll, Finish,
           Scheduler.Submit, Scheduler.Disconnect;
      Safety.ApplySafe(View(), op);
      Environment();
      match op
      case DoSubmit(text, data) => var _ := Submit(text, data);
      case DoHook(id) => var _ := SetCallback(id);
      case DoChangeDatabase(name) => ChangeDatabase(name);
      case DoConnect => Connect();
      case DoDisconnect => DisconnectAll();
      case DoTimeout(m) =>
        if m < |esqls| {
          Disconnect(m);
        }
      case DoIo(m, n) =>
        if m < |esqls| && IsOpen(m) {
          Safety.IoOk(View(), m, n);
          Allow(n);
          ConnectHandler(m);
        }
    }

    /** Whether there is a descriptor that can become ready. */
    function IsOpen(m: nat): (r: bool)
      requires Valid() && m < |esqls|
      reads this, esqls
      ensures r == View().members[m].open
    {
      esqls[m].fdh
    }

    method Allow(n: nat)
      requires Valid()
      modifies `budget
      ensures Valid() && View() == old(View()).(budget := n)
    {
      budget := n;
    }

    /** A whole run. */
    method Drive(ops: seq<Safety.Op>)
      requires Valid() && Safety.Safe(View()) && Ok(View(), Return)
      modifies this, esqls
      ensures Valid() && Safety.Safe(View()) && View() == Safety.Run(old(View()), ops)
    {
      hide Linked, Members, View, Safety.Safe, Ok, Safety.Apply;
      ghost var s := View();
      for i := 0 to |ops|
        invariant Valid() && Safety.Safe(View()) && Ok(View(), Return)
        invariant Safety.Run(View(), ops[i..]) == Safety.Run(s, ops)
      {
        assert ops[i..][0] == ops[i] && ops[i..][1..] == ops[i + 1..];
        Turn(ops[i]);
      }
      assert ops[|ops|..] == [];
    }
  }

  lemma ChangeSize(s: State, m: nat, name: string)
    requires m < |s.members|
    ensures |Safety.ChangeDatabase(s, m, name).members| == |s.members|
  {}

  lemma DisconnectSize(s: State, m: nat)
    requires m < |s.members|
    ensures |Disconnect(s, m).members| == |s.members|
  {}

  /** What a chain of calls does is what its first step does, and then the rest, which is shorter. */
  lemma Chain(s: State, c: Control) returns (s1: State, c1: Control)
    requires Ok(s, c) && !c.Return?
    ensures c.m < |s.members| && Ok(s1, c1) && Finish(s, c) == Finish(s1, c1) && (c1.Return? ==> Finish(s1, c1) == s1)
    ensures Work(s1) <= Work(s) && (Work(s1) < Work(s) || Rank(c1) < Rank(c))
    ensures c.AtHandler? ==> s1 == HandlerStep(s, c.m).0 && c1 == HandlerStep(s, c.m).1
    ensures c.AtComplete? ==> s1 == CompleteStep(s, c.m).0 && c1 == CompleteStep(s, c.m).1
    ensures c.AtError? ==> s1 == ErrorStep(s, c.m).0 && c1 == ErrorStep(s, c.m).1
    ensures c.AtNext? ==> s1 == NextStep(s, c.m).0 && c1 == NextStep(s, c.m).1
  {
    hide HandlerStep, CompleteStep, ErrorStep, NextStep, Ok, Work;
    MembersOk(s, c, c.m);
    StepOk(s, c);
    s1, c1 := Step(s, c).0, Step(s, c).1;
  }

  lemma SettleParts(s: State, m: nat, how: Ending)
    requires m < |s.members| && s.members[m].held.Some?
    ensures |Settle(s, m, how).members| == |s.members| && Settle(s, m, how).callbacks == s.callbacks
  {}

  /** What the start of a queued query changes. */
  lemma DispatchParts(s: State, m: nat)
    requires m < |s.members| && Ready(s.members[m])
    ensures var (r, c) := Dispatch(s, m);
            var e, x := s.members[m], s.members[m].queue[0].sent;
            var e' := e.(current := Query, held := Some(x.(data := Lookup(s.data, x.id))), started := Answered(s).now,
                         queue := e.queue[1..]);
            && r == s.(members := s.members[m := e'], tick := s.tick + 1, data := r.data)
            && r.data == (if Lookup(s.data, x.id) != 0 then s.data - {x.id} else s.data)
            && c == if Answered(s).fails then AtError(m) else AtHandler(m)
  {}

  /** What an attempt to connect changes. */
  lemma ConnectParts(s: State, m: nat)
    requires m < |s.members|
    ensures var r, e := Safety.Connect(s, m), s.members[m];
            && (e.connected ==> r == s)
            && (!e.connected && Answered(s).fails ==> r == s.(tick := s.tick + 1))
            && (!e.connected && !Answered(s).fails ==>
                  && r == s.(members := s.members[m := e.(open := true, current := Init)], tick := s.tick + 1,
                             settled := r.settled)
                  && r.settled == if e.current.Query? && e.held.Some? then s.settled + [Settled(e.held.value, Lost)]
                                  else s.settled)
  {}

  /** What a new connection changes. */
  lemma ConnectedParts(s: State, m: nat)
    requires m < |s.members|
    ensures var r := Connected(s, m);
            var all := s.pooled && !s.poolConnected && s.eConnected + 1 == |s.members|;
            && r == s.(members := s.members[m := s.members[m].(connected := true)], eConnected := r.eConnected,
                       poolConnected := r.poolConnected, announced := r.announced)
            && r.eConnected == (if s.pooled then s.eConnected + 1 else s.eConnected)
            && r.poolConnected == (s.poolConnected || all)
            && r.announced == if !s.pooled || all then s.announced + 1 else s.announced
  {}

  lemma ForgetShape(s: State, m: nat)
    requires m < |s.members|
    ensures |Forget(s, m).members| == |s.members| && Forget(s, m).members[m] == s.members[m].(current := Idle)
  {}
}

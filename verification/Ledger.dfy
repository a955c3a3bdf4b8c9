/** The books of the scheduler: which queries were accepted, are waiting in a queue, are being worked on, or have ended. */
module Ledger {
  import opened Scheduler

  datatype Ledger = Ledger(accepted: seq<Sent>, ended: multiset<Sent>, working: multiset<Sent>, waiting: multiset<Sent>,
                           data: map<nat, nat>, unique: bool)

  ghost function Books(s: State): Ledger
  {
    Ledger(s.accepted, multiset(Ended(s.settled)), Working(s.members), Waiting(s.members), s.data, s.unique)
  }

  /** Every accepted query has the number of its place, and, as long as no id was given twice at a time: every query is
      in exactly one place, outstanding ids differ, and the table of user data has the data of the waiting queries that
      have some, and nothing else. */
  ghost predicate Balanced(l: Ledger)
  {
    && (forall i :: 0 <= i < |l.accepted| ==> l.accepted[i].no == i)
    && (l.unique ==> Conserved(l) && Apart(l) && Filed(l))
  }

  ghost predicate Conserved(l: Ledger)
  {
    multiset(l.accepted) == l.ended + l.working + l.waiting
  }

  ghost predicate Apart(l: Ledger)
  {
    && (forall x :: x in l.working + l.waiting ==> x.no < |l.accepted| && (l.working + l.waiting)[x] == 1)
    && (forall x, y :: x in l.working + l.waiting && y in l.working + l.waiting && x.id == y.id ==> x == y)
  }

  ghost predicate Filed(l: Ledger)
  {
    Found(l) && Kept(l)
  }

  /** The data of every waiting query can be found. */
  ghost predicate Found(l: Ledger)
  {
    forall x :: x in l.waiting ==> Lookup(l.data, x.id) == x.data
  }

  /** Nothing else is kept. */
  ghost predicate Kept(l: Ledger)
  {
    forall id :: id in l.data ==> l.data[id] != 0 && exists x :: x in l.waiting && x.id == id
  }

  /* What a step can do to the books. */

  ghost predicate Accepts(l: Ledger, l': Ledger, x: Sent, queued: bool)
  {
    && x.no == |l.accepted| && l'.accepted == l.accepted + [x] && l'.ended == l.ended
    && (l'.unique ==> l.unique && forall y :: y in l.working + l.waiting ==> y.id != x.id)
    && (queued ==> l'.working == l.working && l'.waiting == l.waiting + multiset{x}
                   && l'.data == if x.data != 0 then l.data[x.id := x.data] else l.data)
    && (!queued ==> l'.working == l.working + multiset{x} && l'.waiting == l.waiting && l'.data == l.data)
  }

  ghost predicate Starts(l: Ledger, l': Ledger, x: Sent)
  {
    && x in l.waiting && l'.waiting == l.waiting - multiset{x}
    && l'.working == l.working + multiset{x.(data := Lookup(l.data, x.id))}
    && l'.data == (if Lookup(l.data, x.id) != 0 then l.data - {x.id} else l.data)
    && l'.accepted == l.accepted && l'.ended == l.ended && l'.unique == l.unique
  }

  ghost predicate Ends(l: Ledger, l': Ledger, x: Sent)
  {
    && x in l.working && l'.working == l.working - multiset{x} && l'.ended == l.ended + multiset{x}
    && l'.waiting == l.waiting && l'.data == l.data && l'.accepted == l.accepted && l'.unique == l.unique
  }

  lemma AcceptsBalanced(l: Ledger, l': Ledger, x: Sent, queued: bool)
    requires Balanced(l) && Accepts(l, l', x, queued)
    ensures Balanced(l')
  {
    hide Kept, Found;
    if l'.unique {
      assert multiset(l.accepted + [x]) == multiset(l.accepted) + multiset{x};
      assert l'.working + l'.waiting == l.working + l.waiting + multiset{x};
      assert x !in l.working + l.waiting;
      AcceptsFound(l, l', x, queued);
      AcceptsKept(l, l', x, queued);
    }
  }

  lemma AcceptsFound(l: Ledger, l': Ledger, x: Sent, queued: bool)
    requires Filed(l) && Accepts(l, l', x, queued) && l'.unique
    ensures Found(l')
  {
    if queued {
      if x.data == 0 && x.id in l.data {
        KeptAt(l, x.id);
      }
      hide Kept;
      forall y | y in l'.waiting ensures Lookup(l'.data, y.id) == y.data {
        if y != x {
          assert y in l.working + l.waiting;
        }
      }
    }
  }

  /** A key belongs to an outstanding query. */
  lemma KeptAt(l: Ledger, id: nat)
    requires Kept(l) && id in l.data
    ensures exists y :: y in l.working + l.waiting && y.id == id
  {
    var y :| y in l.waiting && y.id == id;
    assert y in l.working + l.waiting;
  }

  lemma AcceptsKept(l: Ledger, l': Ledger, x: Sent, queued: bool)
    requires Kept(l) && Accepts(l, l', x, queued)
    ensures Kept(l')
  {
    if queued {
      forall id | id in l'.data ensures l'.data[id] != 0 && exists y :: y in l'.waiting && y.id == id {
        if id == x.id && x.data != 0 {
          assert x in l'.waiting;
        } else {
          var y :| y in l.waiting && y.id == id;
          assert y in l'.waiting;
        }
      }
    }
  }

  lemma StartsBalanced(l: Ledger, l': Ledger, x: Sent)
    requires Balanced(l) && Starts(l, l', x)
    ensures Balanced(l') && (l.unique ==> x.data == Lookup(l.data, x.id))
  {
    hide Kept, Found, Apart;
    if l.unique {
      ApartAt(l, x);
      StartsFound(l, l', x);
      StartsKept(l, l', x);
      Handed(l.working, l.waiting, x);
      assert l'.working + l'.waiting == l.working + l.waiting;
      ApartSame(l, l');
    }
  }

  lemma Handed(working: multiset<Sent>, waiting: multiset<Sent>, x: Sent)
    requires x in waiting
    ensures (working + multiset{x}) + (waiting - multiset{x}) == working + waiting
    ensures forall ended :: ended + (working + multiset{x}) + (waiting - multiset{x}) == ended + working + waiting
  {}

  lemma ApartAt(l: Ledger, x: Sent)
    requires Apart(l) && Found(l) && x in l.waiting
    ensures l.waiting[x] == 1 && x.data == Lookup(l.data, x.id) && x.(data := x.data) == x
  {
    assert x in l.working + l.waiting;
  }

  lemma ApartSame(l: Ledger, l': Ledger)
    requires Apart(l) && l'.working + l'.waiting == l.working + l.waiting && l'.accepted == l.accepted
    ensures Apart(l')
  {}

  lemma StartsFound(l: Ledger, l': Ledger, x: Sent)
    requires Apart(l) && Found(l) && Starts(l, l', x) && l.waiting[x] == 1
    ensures Found(l')
  {
    forall y | y in l'.waiting ensures y in l.waiting && y.id != x.id {
      assert x in l.working + l.waiting && y in l.working + l.waiting;
    }
  }

  lemma StartsKept(l: Ledger, l': Ledger, x: Sent)
    requires Kept(l) && Starts(l, l', x)
    ensures Kept(l')
  {
    forall id | id in l'.data ensures exists y :: y in l'.waiting && y.id == id {
      var y :| y in l.waiting && y.id == id;
      assert y in l'.waiting;
    }
  }

  lemma EndsBalanced(l: Ledger, l': Ledger, x: Sent)
    requires Balanced(l) && Ends(l, l', x)
    ensures Balanced(l')
  {
    if l.unique {
      forall y | y in l'.working + l'.waiting ensures y in l.working + l.waiting {}
    }
  }

  /* Sums over the members. */

  lemma Regroup(first: multiset<Sent>, rest: multiset<Sent>, rest': multiset<Sent>, was: multiset<Sent>, now: multiset<Sent>)
    requires rest' + was == rest + now && was <= rest
    ensures (first + rest') + was == (first + rest) + now && was <= first + rest
  {
    forall x ensures (first + rest' + was)[x] == (first + rest + now)[x] {
      assert (rest' + was)[x] == (rest + now)[x];
    }
  }

  lemma {:induction false} WorkingWith(ms: seq<Member>, m: nat, e: Member)
    requires m < |ms|
    ensures Working(ms[m := e]) + multiset(Slot(ms[m])) == Working(ms) + multiset(Slot(e))
    ensures multiset(Slot(ms[m])) <= Working(ms)
  {
    hide Slot;
    if m == 0 {
      assert ms[m := e][1..] == ms[1..];
    } else {
      assert ms[m := e][1..] == ms[1..][m - 1 := e];
      WorkingWith(ms[1..], m - 1, e);
      Regroup(multiset(Slot(ms[0])), Working(ms[1..]), Working(ms[1..][m - 1 := e]), multiset(Slot(ms[m])), multiset(Slot(e)));
    }
  }

  lemma {:induction false} WaitingWith(ms: seq<Member>, m: nat, e: Member)
    requires m < |ms|
    ensures Waiting(ms[m := e]) + multiset(Queries(ms[m].queue)) == Waiting(ms) + multiset(Queries(e.queue))
    ensures multiset(Queries(ms[m].queue)) <= Waiting(ms)
  {
    hide Queries;
    if m == 0 {
      assert ms[m := e][1..] == ms[1..];
    } else {
      assert ms[m := e][1..] == ms[1..][m - 1 := e];
      WaitingWith(ms[1..], m - 1, e);
      Regroup(multiset(Queries(ms[0].queue)), Waiting(ms[1..]), Waiting(ms[1..][m - 1 := e]),
              multiset(Queries(ms[m].queue)), multiset(Queries(e.queue)));
    }
  }

  lemma {:induction false} QueriesSnoc(queue: seq<Call>, c: Call)
    ensures Queries(queue + [c]) == Queries(queue) + (if c.RunQuery? then [c.sent] else [])
  {
    if queue != [] {
      assert (queue + [c])[1..] == queue[1..] + [c];
      QueriesSnoc(queue[1..], c);
    }
  }

  /* The effect of a change of one member. */

  lemma WorkingSame(ms: seq<Member>, m: nat, e: Member)
    requires m < |ms| && Slot(e) == Slot(ms[m])
    ensures Working(ms[m := e]) == Working(ms)
  {
    hide Slot, Working;
    WorkingWith(ms, m, e);
    Cancel(Working(ms[m := e]), Working(ms), multiset(Slot(e)));
  }

  lemma WorkingMore(ms: seq<Member>, m: nat, e: Member, x: Sent)
    requires m < |ms| && Slot(ms[m]) == [] && Slot(e) == [x]
    ensures Working(ms[m := e]) == Working(ms) + multiset{x}
  {
    hide Slot, Working;
    WorkingWith(ms, m, e);
  }

  lemma WorkingLess(ms: seq<Member>, m: nat, e: Member, x: Sent)
    requires m < |ms| && Slot(ms[m]) == [x] && Slot(e) == []
    ensures x in Working(ms) && Working(ms[m := e]) == Working(ms) - multiset{x}
  {
    hide Slot, Working;
    WorkingWith(ms, m, e);
    Cancel(Working(ms[m := e]), Working(ms) - multiset{x}, multiset{x});
  }

  lemma WaitingSame(ms: seq<Member>, m: nat, e: Member)
    requires m < |ms| && Queries(e.queue) == Queries(ms[m].queue)
    ensures Waiting(ms[m := e]) == Waiting(ms)
  {
    hide Queries, Waiting;
    WaitingWith(ms, m, e);
    Cancel(Waiting(ms[m := e]), Waiting(ms), multiset(Queries(e.queue)));
  }

  lemma WaitingMore(ms: seq<Member>, m: nat, e: Member, x: Sent)
    requires m < |ms| && Queries(e.queue) == Queries(ms[m].queue) + [x]
    ensures Waiting(ms[m := e]) == Waiting(ms) + multiset{x}
  {
    hide Queries, Waiting;
    WaitingWith(ms, m, e);
    Cancel(Waiting(ms[m := e]), Waiting(ms) + multiset{x}, multiset(Queries(ms[m].queue)));
  }

  lemma WaitingLess(ms: seq<Member>, m: nat, e: Member, x: Sent)
    requires m < |ms| && Queries(ms[m].queue) == [x] + Queries(e.queue)
    ensures x in Waiting(ms) && Waiting(ms[m := e]) == Waiting(ms) - multiset{x}
  {
    hide Queries, Waiting;
    WaitingWith(ms, m, e);
    assert x in multiset(Queries(ms[m].queue));
    Cancel(Waiting(ms[m := e]), Waiting(ms) - multiset{x}, multiset(Queries(ms[m].queue)));
  }

  lemma Cancel(a: multiset<Sent>, b: multiset<Sent>, c: multiset<Sent>)
    requires a + c == b + c
    ensures a == b
  {
    forall x ensures a[x] == b[x] {
      assert (a + c)[x] == (b + c)[x];
    }
  }
}

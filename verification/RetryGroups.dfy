/**
 Clients that come in groups: a run of a few clients is also a run of many, with the others served before or
 still to come. So the runs that exhaust the retry budget of a few clients can be strung together.
 */
module RetryGroups {
  import opened Options
  import opened RetryBudget

  // ---- A run among others -------------------------------------------------------------------

  /** How a client looks among m others that are through: their closes and services count. */
  function LiftClient(c: Client, m: nat): Client {
    if c.status.Outstanding? then c.(status := Outstanding(c.status.captured + m, c.status.seen + 2 * m)) else c
  }

  function LiftClients(cs: seq<Client>, m: nat): seq<Client> {
    seq(|cs|, i requires 0 <= i < |cs| => LiftClient(cs[i], m))
  }

  function LiftLine(q: seq<nat>, m: nat): seq<nat> {
    seq(|q|, j requires 0 <= j < |q| => q[j] + m)
  }

  function ToCome(r: nat): seq<Client> {
    seq(r, i => Client(Ready, 0, 0))
  }

  /** The same situation behind the clients `through` and before r more, with a answers given so far. */
  function Lift(s: State, through: seq<Client>, r: nat, a: nat): State {
    var m := |through|;
    State(through + LiftClients(s.clients, m) + ToCome(r), s.closes + m, s.answered + a,
          if s.worker.Some? then Some(s.worker.value + m) else None, LiftLine(s.queue, m))
  }

  function LiftEvent(e: Event, m: nat): Event {
    match e
    case Attempt(i) => Attempt(i + m)
    case Close(i) => Close(i + m)
    case _ => e
  }

  predicate AllClosed(cs: seq<Client>) {
    forall c :: c in cs ==> c.status.Closed?
  }

  lemma {:induction false} DoneJoins(a: seq<Client>, b: seq<Client>)
    ensures DoneCount(a + b) == DoneCount(a) + DoneCount(b)
    ensures TotalAttempts(a + b) == TotalAttempts(a) + TotalAttempts(b)
  {
    if a == [] {
      assert a + b == b;
    } else {
      assert (a + b)[1..] == a[1..] + b;
      DoneJoins(a[1..], b);
    }
  }

  lemma {:induction false} LiftedDone(cs: seq<Client>, m: nat)
    ensures DoneCount(LiftClients(cs, m)) == DoneCount(cs)
  {
    if cs != [] {
      assert LiftClients(cs, m)[1..] == LiftClients(cs[1..], m);
      LiftedDone(cs[1..], m);
    }
  }

  lemma {:induction false} NoneDone(r: nat)
    ensures DoneCount(ToCome(r)) == 0 && TotalAttempts(ToCome(r)) == 0
  {
    if r > 0 {
      assert ToCome(r)[1..] == ToCome(r - 1);
      NoneDone(r - 1);
    }
  }

  lemma {:induction false} LiftedProgress(s: State, through: seq<Client>, r: nat, a: nat)
    requires AllClosed(through)
    ensures Progress(Lift(s, through, r, a)) == Progress(s) + 2 * |through|
  {
    var mine := LiftClients(s.clients, |through|);
    DoneJoins(through + mine, ToCome(r));
    DoneJoins(through, mine);
    AllDone(through);
    LiftedDone(s.clients, |through|);
    NoneDone(r);
  }

  lemma {:induction false} LiftedReplace(cs: seq<Client>, i: nat, c: Client, through: seq<Client>, r: nat)
    requires i < |cs|
    ensures var m := |through|;
            && (through + LiftClients(cs, m) + ToCome(r))[i + m] == LiftClient(cs[i], m)
            && (through + LiftClients(cs, m) + ToCome(r))[i + m := LiftClient(c, m)] ==
               through + LiftClients(cs[i := c], m) + ToCome(r)
  {
  }

  lemma {:induction false} LiftedPush(q: seq<nat>, i: nat, m: nat)
    ensures LiftLine(q + [i], m) == LiftLine(q, m) + [i + m]
  {
  }

  lemma {:induction false} LiftedPop(q: seq<nat>, m: nat)
    requires q != []
    ensures LiftLine(q, m) != [] && LiftLine(q, m)[0] == q[0] + m && LiftLine(q, m)[1..] == LiftLine(q[1..], m)
  {
  }

  lemma {:induction false} LiftAttempt(s: State, i: nat, through: seq<Client>, r: nat, a: nat)
    requires AllClosed(through) && Enabled(s, Attempt(i)) && Unrefused(s) && |s.queue| < QUEUE_LEN
    ensures var t, f := Lift(s, through, r, a), Attempt(i + |through|);
            Enabled(t, f) && Step(t, f) == Lift(Step(s, Attempt(i)), through, r, a)
  {
    LiftedProgress(s, through, r, a);
    LiftedReplace(s.clients, i, Step(s, Attempt(i)).clients[i], through, r);
    LiftedPush(s.queue, i, |through|);
    assert s.clients[i] in s.clients;
  }

  lemma {:induction false} LiftFetch(s: State, through: seq<Client>, r: nat, a: nat)
    requires Enabled(s, Fetch)
    ensures var t := Lift(s, through, r, a); Enabled(t, Fetch) && Step(t, Fetch) == Lift(Step(s, Fetch), through, r, a)
  {
    LiftedPop(s.queue, |through|);
  }

  lemma {:induction false} LiftAnswer(s: State, through: seq<Client>, r: nat, a: nat)
    requires Enabled(s, Answer)
    ensures var t := Lift(s, through, r, a);
            Enabled(t, Answer) && Step(t, Answer) == Lift(Step(s, Answer), through, r, a)
  {
    var i := s.worker.value;
    LiftedReplace(s.clients, i, Step(s, Answer).clients[i], through, r);
  }

  lemma {:induction false} LiftClose(s: State, i: nat, through: seq<Client>, r: nat, a: nat)
    requires Enabled(s, Close(i))
    ensures var t, f := Lift(s, through, r, a), Close(i + |through|);
            Enabled(t, f) && Step(t, f) == Lift(Step(s, Close(i)), through, r, a)
  {
    LiftedReplace(s.clients, i, Step(s, Close(i)).clients[i], through, r);
  }

  /** One step among others, as long as nobody is refused. */
  lemma {:induction false} LiftStep(s: State, e: Event, through: seq<Client>, r: nat, a: nat)
    requires AllClosed(through) && Enabled(s, e) && Unrefused(s) && (e.Attempt? ==> |s.queue| < QUEUE_LEN)
    ensures var t, f := Lift(s, through, r, a), LiftEvent(e, |through|);
            Enabled(t, f) && Step(t, f) == Lift(Step(s, e), through, r, a)
  {
    match e
    case Attempt(i) => LiftAttempt(s, i, through, r, a);
    case Fetch => LiftFetch(s, through, r, a);
    case Answer => LiftAnswer(s, through, r, a);
    case Close(i) => LiftClose(s, i, through, r, a);
  }

  function LiftRun(es: seq<Event>, m: nat): seq<Event> {
    seq(|es|, i requires 0 <= i < |es| => LiftEvent(es[i], m))
  }

  lemma {:induction false} LiftsRun(s: State, es: seq<Event>, through: seq<Client>, r: nat, a: nat)
    requires AllClosed(through) && Runnable(s, es) && Lined(s) && Unrefused(s) && |s.clients| <= QUEUE_LEN
    ensures var t, fs := Lift(s, through, r, a), LiftRun(es, |through|);
            Runnable(t, fs) && Run(t, fs) == Lift(Run(s, es), through, r, a)
    decreases |es|
  {
    if es != [] {
      var e := es[0];
      if e.Attempt? {
        RoomFor(s, e.i);
      }
      LiftStep(s, e, through, r, a);
      StepKeepsLine(s, e);
      OneStep(s, e);
      NobodyRefused(s, [e]);
      LiftsRun(Step(s, e), es[1..], through, r, a);
      assert LiftRun(es, |through|)[1..] == LiftRun(es[1..], |through|);
    }
  }

  // ---- Group after group --------------------------------------------------------------------

  /** Between two groups: some are through, r are to come, nothing is under way. */
  function Between(through: seq<Client>, r: nat, a: nat): State {
    State(through + ToCome(r), |through|, a, None, [])
  }

  lemma {:induction false} LiftedEnds(through: seq<Client>, g: nat, r: nat, a: nat, b: nat)
    ensures Lift(Start(g), through, r, a) == Between(through, g + r, a)
    ensures Lift(Round(g, g, b), through, r, a) == Between(through + AllThrough(g), r, b + a)
  {
    assert Upto(g, g) == [];
    assert Lift(Start(g), through, r, a).clients == through + ToCome(g + r);
    assert LiftClients(Round(g, g, b).clients, |through|) == AllThrough(g);
    assert |AllThrough(g)| == g;
  }

  /** A group of g clients takes all its g(g+1)/2 attempts. */
  lemma {:induction false} PlayGroup(through: seq<Client>, g: nat, r: nat, a: nat) returns (es: seq<Event>, b: nat)
    requires AllClosed(through) && g <= QUEUE_LEN
    ensures Runnable(Between(through, g + r, a), es)
    ensures Run(Between(through, g + r, a), es) == Between(through + AllThrough(g), r, b)
  {
    var fs, c := PlayRounds(g, g);
    Fresh(g);
    LiftsRun(Start(g), fs, through, r, a);
    LiftedEnds(through, g, r, a, c);
    es, b := LiftRun(fs, |through|), c + a;
  }

  /** Three at a time, and three to five at the end: r clients take at least 2r attempts, one of them three. */
  lemma {:induction false} PlayGroups(through: seq<Client>, r: nat, a: nat)
    returns (es: seq<Event>, all: seq<Client>, b: nat)
    requires AllClosed(through) && r >= 3
    ensures Runnable(Between(through, r, a), es) && Run(Between(through, r, a), es) == Between(all, 0, b)
    ensures |all| == |through| + r && AllClosed(all) && TotalAttempts(all) >= TotalAttempts(through) + 2 * r
    ensures exists c :: c in all && c.attempts >= 3
    decreases r
  {
    var g := if r <= 5 then r else 3;
    var next := through + AllThrough(g);
    RoundTotal(g);
    DoneJoins(through, AllThrough(g));
    es, b := PlayGroup(through, g, r - g, a);
    all := next;
    assert next[|through| + 2] == Client(Closed, 3, 0);
    if r > 5 {
      var rest;
      rest, all, b := PlayGroups(next, r - g, b);
      RunThen(Between(through, r, a), es, rest);
      es := es + rest;
    }
  }

  lemma {:induction false} ManyExceedIt(n: nat) returns (es: seq<Event>)
    requires n >= 3
    ensures Runnable(Start(n), es) && DoneCount(Run(Start(n), es).clients) == n
    ensures TotalAttempts(Run(Start(n), es).clients) >= 2 * n
    ensures exists c :: c in Run(Start(n), es).clients && c.attempts >= 3
  {
    var all, b;
    assert Start(n) == Between([], n, 0);
    es, all, b := PlayGroups([], n, 0);
    AllDone(all);
    assert all + ToCome(0) == all;
  }

  predicate WithinLinear(n: nat, es: seq<Event>)
    requires Runnable(Start(n), es)
  {
    TotalAttempts(Run(Start(n), es).clients) <= 2 * n - 1
  }

  /** One attempt each and one more. */
  predicate WithinOneRetry(n: nat, es: seq<Event>)
    requires Runnable(Start(n), es)
  {
    TotalAttempts(Run(Start(n), es).clients) <= n + 1
  }

  predicate WithinTwoEach(n: nat, es: seq<Event>)
    requires Runnable(Start(n), es)
  {
    forall c :: c in Run(Start(n), es).clients ==> c.attempts <= 2
  }

  lemma {:induction false} FewStayWithin(n: nat, es: seq<Event>)
    requires 0 < n <= 2 && Runnable(Start(n), es)
    ensures WithinLinear(n, es) && WithinOneRetry(n, es) && WithinTwoEach(n, es)
  {
    FewClientsBound(n, es);
  }

  /** For every number of clients: every run stays within one retry in all exactly if there are at most two of
      them, and exactly then within 2n-1 attempts in all, and within two attempts per client. */
  lemma {:induction false} LinearBudgetHoldsExactly(n: nat)
    requires n > 0
    ensures (forall es :: Runnable(Start(n), es) ==> WithinOneRetry(n, es)) <==> n <= 2
    ensures (forall es :: Runnable(Start(n), es) ==> WithinLinear(n, es)) <==> n <= 2
    ensures (forall es :: Runnable(Start(n), es) ==> WithinTwoEach(n, es)) <==> n <= 2
  {
    if n <= 2 {
      forall es | Runnable(Start(n), es)
        ensures WithinLinear(n, es) && WithinOneRetry(n, es) && WithinTwoEach(n, es)
      {
        FewStayWithin(n, es);
      }
    } else {
      var es := ManyExceedIt(n);
      assert Runnable(Start(n), es);
      assert !WithinLinear(n, es) && !WithinOneRetry(n, es) && !WithinTwoEach(n, es);
    }
  }
}

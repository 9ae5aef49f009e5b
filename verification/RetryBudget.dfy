/**
 How many attempts a set of gateway clients needs (api_tests/21_test_gateway_e2e_multiconn.py) when
 each sends one request, repeats it on the same socket whenever it got no reply, and closes once served.

 The worker takes one request at a time off a queue of ten. The generation check drops every reply whose
 request was received before the latest close; a full queue drops the request itself. Every client waits
 equally long for its reply and every request that gets in is answered within that time, so a client whose
 request was dropped asks again only after all the requests then ahead of it have been answered.
 */
module RetryBudget {
  import opened Options

  const QUEUE_LEN := 10

  /**
   What a client is waiting for. `captured` counts the closes before its request came in, `mark` the answers
   a refused client sits out. The other fields record what the state was then; no step reads them.
   */
  datatype Status =
    | Ready
    | Outstanding(captured: nat, seen: nat)
    | Refused(mark: nat, seen: nat, closed: nat, allStale: bool)
    | Served
    | Closed

  datatype Client = Client(status: Status, attempts: nat, refusals: nat) {
    predicate Done() {
      status.Served? || status.Closed?
    }
  }

  datatype State = State(clients: seq<Client>, closes: nat, answered: nat, worker: Option<nat>, queue: seq<nat>) {
    /** The clients whose requests are in, in the order they will be answered. */
    function Line(): seq<nat> {
      (if worker.Some? then [worker.value] else []) + queue
    }
  }

  datatype Event = Attempt(i: nat) | Fetch | Answer | Close(i: nat)

  function Start(n: nat): State {
    State(seq(n, i => Client(Ready, 0, 0)), 0, 0, None, [])
  }

  /** Closes and clients served so far. */
  function Progress(s: State): nat {
    s.closes + DoneCount(s.clients)
  }

  predicate MayAsk(s: State, c: Client) {
    c.status.Ready? || (c.status.Refused? && s.answered >= c.status.mark)
  }

  predicate Enabled(s: State, e: Event) {
    match e
    case Attempt(i) => i < |s.clients| && MayAsk(s, s.clients[i])
    case Fetch => s.worker.None? && s.queue != []
    case Answer => s.worker.Some? && s.worker.value < |s.clients| && s.clients[s.worker.value].status.Outstanding?
    case Close(i) => i < |s.clients| && s.clients[i].status.Served?
  }

  /** Every request in line came in before the latest close. */
  predicate AllStale(s: State) {
    forall i :: i in s.Line() && i < |s.clients| && s.clients[i].status.Outstanding? ==>
        s.clients[i].status.captured < s.closes
  }

  /** The slave always answers; the answer gets through iff nobody closed since the request came in. */
  function Step(s: State, e: Event): State
    requires Enabled(s, e)
  {
    match e
    case Attempt(i) =>
      var c := s.clients[i];
      if |s.queue| < QUEUE_LEN then
        var in_ := Client(Outstanding(s.closes, Progress(s)), c.attempts + 1, c.refusals);
        s.(clients := s.clients[i := in_], queue := s.queue + [i])
      else
        var status := Refused(s.answered + |s.Line()|, Progress(s), s.closes, AllStale(s));
        s.(clients := s.clients[i := Client(status, c.attempts + 1, c.refusals + 1)])
    case Fetch => s.(worker := Some(s.queue[0]), queue := s.queue[1..])
    case Answer =>
      var i := s.worker.value;
      var c := s.clients[i];
      var served := c.status.captured == s.closes;
      s.(clients := s.clients[i := c.(status := if served then Served else Ready)], answered := s.answered + 1,
          worker := None)
    case Close(i) =>
      s.(clients := s.clients[i := s.clients[i].(status := Closed)], closes := s.closes + 1)
  }

  predicate Runnable(s: State, es: seq<Event>)
    decreases |es|
  {
    es == [] || (Enabled(s, es[0]) && Runnable(Step(s, es[0]), es[1..]))
  }

  function Run(s: State, es: seq<Event>): State
    requires Runnable(s, es)
    decreases |es|
  {
    if es == [] then s else Run(Step(s, es[0]), es[1..])
  }

  // ---- Counting -----------------------------------------------------------------------------

  function Queued(cs: seq<Client>): nat {
    if cs == [] then 0 else (if cs[0].status.Outstanding? then 1 else 0) + Queued(cs[1..])
  }

  function TotalAttempts(cs: seq<Client>): nat {
    if cs == [] then 0 else cs[0].attempts + TotalAttempts(cs[1..])
  }

  function TotalRefusals(cs: seq<Client>): nat {
    if cs == [] then 0 else cs[0].refusals + TotalRefusals(cs[1..])
  }

  function Triangle(n: nat): nat {
    n * (n + 1) / 2
  }

  function DoneCount(cs: seq<Client>): (k: nat)
    ensures k <= |cs|
  {
    if cs == [] then 0 else (if cs[0].Done() then 1 else 0) + DoneCount(cs[1..])
  }

  /** The attempts of clients that are through, refused ones aside. */
  function DoneAttempts(cs: seq<Client>): int {
    if cs == [] then 0 else (if cs[0].Done() then cs[0].attempts - cs[0].refusals else 0) + DoneAttempts(cs[1..])
  }

  function ClosedCount(cs: seq<Client>): (k: nat)
    ensures k <= DoneCount(cs)
  {
    if cs == [] then 0 else (if cs[0].status.Closed? then 1 else 0) + ClosedCount(cs[1..])
  }

  function One(b: bool): nat {
    if b then 1 else 0
  }

  lemma {:induction false} ReplacingCounts(cs: seq<Client>, i: nat, c: Client)
    requires i < |cs|
    ensures var ds := cs[i := c];
            && Queued(ds) == Queued(cs) - One(cs[i].status.Outstanding?) + One(c.status.Outstanding?)
            && DoneCount(ds) == DoneCount(cs) - One(cs[i].Done()) + One(c.Done())
            && ClosedCount(ds) == ClosedCount(cs) - One(cs[i].status.Closed?) + One(c.status.Closed?)
  {
    var ds := cs[i := c];
    if i == 0 {
      assert ds[1..] == cs[1..];
    } else {
      assert ds[1..] == cs[1..][i - 1 := c];
      ReplacingCounts(cs[1..], i - 1, c);
    }
  }

  lemma {:induction false} ReplacingDone(cs: seq<Client>, i: nat, c: Client)
    requires i < |cs|
    ensures DoneAttempts(cs[i := c]) == DoneAttempts(cs)
            - (if cs[i].Done() then cs[i].attempts - cs[i].refusals else 0) +
                (if c.Done() then c.attempts - c.refusals else 0)
  {
    var ds := cs[i := c];
    if i == 0 {
      assert ds[1..] == cs[1..];
    } else {
      assert ds[1..] == cs[1..][i - 1 := c];
      ReplacingDone(cs[1..], i - 1, c);
    }
  }

  lemma {:induction false} QueuedAtMostAll(cs: seq<Client>, i: nat)
    requires i < |cs| && !cs[i].status.Outstanding?
    ensures Queued(cs) < |cs|
  {
    QueuedBelow(cs[1..]);
    if i > 0 {
      assert cs[1..][i - 1] == cs[i];
      QueuedAtMostAll(cs[1..], i - 1);
    }
  }

  lemma {:induction false} QueuedBelow(cs: seq<Client>)
    ensures Queued(cs) <= |cs|
  {
    if cs != [] {
      QueuedBelow(cs[1..]);
    }
  }

  // ---- The line -----------------------------------------------------------------------------

  predicate Distinct(line: seq<nat>) {
    forall j, k :: 0 <= j < k < |line| ==> line[j] != line[k]
  }

  /** The line holds exactly the clients whose requests are in, each once. */
  predicate Lined(s: State) {
    && Distinct(s.Line()) && |s.Line()| == Queued(s.clients)
    && forall i :: i in s.Line() ==> i < |s.clients| && s.clients[i].status.Outstanding?
  }

  lemma {:induction false} StepLines(s: State, e: Event)
    requires Enabled(s, e) && Lined(s)
    ensures var t, line := Step(s, e), s.Line();
            match e {
              case Attempt(i) => i !in line && t.Line() == if |s.queue| < QUEUE_LEN then line + [i] else line
              case Fetch => t.Line() == line
              case Answer => line != [] && line[0] == s.worker.value && t.Line() == line[1..] && line[0] !in line[1..]
              case Close(i) => i !in line && t.Line() == line
            }
  {
    match e
    case Fetch => assert [s.queue[0]] + s.queue[1..] == s.queue;
    case _ =>
  }

  lemma {:induction false} LeavesLine(s: State, t: State, i: nat, now: Client)
    requires Lined(s) && i < |s.clients| && t.clients == s.clients[i := now] && !now.status.Outstanding?
    requires if s.clients[i].status.Outstanding? then s.Line() != [] && s.Line()[0] == i && t.Line() == s.Line()[1..]
             else t.Line() == s.Line()
    ensures Lined(t)
  {
    ReplacingCounts(s.clients, i, now);
    forall k | k in t.Line()
      ensures k < |t.clients| && t.clients[k].status.Outstanding?
    {
      assert k in s.Line();
      assert k != i;
    }
  }

  lemma {:induction false} JoinsLine(s: State, t: State, i: nat, now: Client)
    requires Lined(s) && i < |s.clients| && t.clients == s.clients[i := now]
    requires now.status.Outstanding? && !s.clients[i].status.Outstanding? && t.Line() == s.Line() + [i]
    ensures Lined(t)
  {
    ReplacingCounts(s.clients, i, now);
    assert i !in s.Line();
  }

  lemma {:induction false} StepKeepsLine(s: State, e: Event)
    requires Enabled(s, e) && Lined(s)
    ensures Lined(Step(s, e)) && |Step(s, e).clients| == |s.clients|
  {
    var t := Step(s, e);
    StepLines(s, e);
    match e
    case Attempt(i) =>
      if |s.queue| < QUEUE_LEN {
        JoinsLine(s, t, i, t.clients[i]);
      } else {
        LeavesLine(s, t, i, t.clients[i]);
      }
    case Answer => LeavesLine(s, t, s.worker.value, t.clients[s.worker.value]);
    case Close(i) => LeavesLine(s, t, i, t.clients[i]);
    case _ =>
  }

  // ---- The bound ----------------------------------------------------------------------------

  /** Refusals aside: one attempt per close so far, one more while a request is in; served clients took their
      turn's worth. */
  predicate WithinBudget(c: Client, closes: nat, done: nat) {
    c.refusals <= c.attempts &&
    var net := c.attempts - c.refusals;
    match c.status
    case Outstanding(captured, _) => captured <= closes && net <= captured + 1
    case Served => net <= done
    case Closed => net <= done
    case _ => net <= closes
  }

  predicate Budgeted(s: State) {
    && s.closes == ClosedCount(s.clients)
    && (forall c :: c in s.clients ==> WithinBudget(c, s.closes, DoneCount(s.clients)))
    && DoneAttempts(s.clients) <= Triangle(DoneCount(s.clients))
  }

  lemma {:induction false} TriangleStep(k: nat)
    ensures Triangle(k + 1) == Triangle(k) + k + 1
  {
  }

  /** What one step does to its client and to the totals. */
  lemma {:induction false} ClientSteps(s: State, e: Event, i: nat)
    requires Budgeted(s) && Enabled(s, e) && !e.Fetch? && i == if e.Answer? then s.worker.value else e.i
    ensures var t := Step(s, e);
            var was, now := s.clients[i], t.clients[i];
            && t.clients == s.clients[i := now]
            && (was.Done() ==> now.Done() && now.attempts == was.attempts && now.refusals == was.refusals)
            && t.closes == s.closes + One(now.status.Closed?)
            && (now.status.Closed? ==> !was.status.Closed?)
            && (now.Done() && !was.Done() ==> now.attempts - now.refusals <= s.closes + 1)
            && now.refusals <= now.attempts
            && (!now.Done() ==> WithinBudget(now, t.closes, 0))
  {
    assert s.clients[i] in s.clients;
    assert WithinBudget(s.clients[i], s.closes, DoneCount(s.clients));
  }

  lemma {:induction false} StepKeepsBudget(s: State, e: Event)
    requires Budgeted(s) && Enabled(s, e)
    ensures Budgeted(Step(s, e))
  {
    if !e.Fetch? {
      var i := if e.Answer? then s.worker.value else e.i;
      var t := Step(s, e);
      var now := t.clients[i];
      ClientSteps(s, e, i);
      ReplacingCounts(s.clients, i, now);
      ReplacingDone(s.clients, i, now);
      TriangleStep(DoneCount(s.clients));
      forall c | c in t.clients
        ensures WithinBudget(c, t.closes, DoneCount(t.clients))
      {
        if c == now {
          assert s.clients[i] in s.clients;
        } else {
          assert c in s.clients;
          assert WithinBudget(c, s.closes, DoneCount(s.clients));
        }
      }
    }
  }

  lemma {:induction false} Fresh(n: nat)
    ensures Budgeted(Start(n)) && Lined(Start(n)) && DoneCount(Start(n).clients) == 0
  {
    if n > 0 {
      Fresh(n - 1);
      assert Start(n).clients[1..] == Start(n - 1).clients;
    }
  }

  lemma {:induction false} AtMostPerClient(cs: seq<Client>, cap: nat)
    requires forall c :: c in cs && !c.Done() ==> c.attempts - c.refusals <= cap
    ensures TotalAttempts(cs) - TotalRefusals(cs) <= DoneAttempts(cs) + (|cs| - DoneCount(cs)) * cap
  {
    if cs != [] {
      AtMostPerClient(cs[1..], cap);
      assert cs[0] in cs;
      OneMoreShare(|cs[1..]| - DoneCount(cs[1..]), cap);
    }
  }

  lemma {:induction false} OneMoreShare(k: nat, cap: nat)
    ensures (k + 1) * cap == k * cap + cap
  {
  }

  lemma {:induction false} TriangleCovers(k: nat, n: nat)
    requires k <= n
    ensures Triangle(k) + (n - k) * (k + 1) <= Triangle(n)
    decreases n - k
  {
    if k < n {
      TriangleCovers(k + 1, n);
      TriangleStep(k);
      assert (n - k) * (k + 1) == (n - k - 1) * (k + 1) + k + 1;
      assert (n - k - 1) * (k + 2) == (n - k - 1) * (k + 1) + (n - k - 1);
    }
  }

  lemma {:induction false} OpenMeansFewerDone(cs: seq<Client>, c: Client)
    requires c in cs && !c.Done()
    ensures DoneCount(cs) < |cs|
  {
    if c != cs[0] {
      OpenMeansFewerDone(cs[1..], c);
    }
  }

  lemma {:induction false} BudgetMeans(s: State)
    requires Budgeted(s)
    ensures TotalAttempts(s.clients) - TotalRefusals(s.clients) <= Triangle(|s.clients|)
    ensures forall c :: c in s.clients ==> c.attempts - c.refusals <= |s.clients|
  {
    var k := DoneCount(s.clients);
    forall c | c in s.clients
      ensures c.attempts - c.refusals <= |s.clients| && (!c.Done() ==> c.attempts - c.refusals <= k + 1)
    {
      assert WithinBudget(c, s.closes, k);
      if !c.Done() {
        OpenMeansFewerDone(s.clients, c);
      }
    }
    AtMostPerClient(s.clients, k + 1);
    TriangleCovers(k, |s.clients|);
  }

  lemma {:induction false} RunKeeps(s: State, es: seq<Event>)
    requires Budgeted(s) && Lined(s) && Runnable(s, es)
    ensures Budgeted(Run(s, es)) && Lined(Run(s, es)) && |Run(s, es).clients| == |s.clients|
    decreases |es|
  {
    if es != [] {
      StepKeepsBudget(s, es[0]);
      StepKeepsLine(s, es[0]);
      RunKeeps(Step(s, es[0]), es[1..]);
    }
  }

  /** In every run of n clients, refused attempts aside: n(n+1)/2 attempts in all, and n for any one client. */
  lemma {:induction false} AttemptBound(n: nat, es: seq<Event>)
    requires Runnable(Start(n), es)
    ensures var cs := Run(Start(n), es).clients;
            && TotalAttempts(cs) - TotalRefusals(cs) <= Triangle(n)
            && forall c :: c in cs ==> c.attempts - c.refusals <= n
  {
    Fresh(n);
    RunKeeps(Start(n), es);
    BudgetMeans(Run(Start(n), es));
  }

  // ---- When nobody is refused ---------------------------------------------------------------

  /** A request finds the worker busy or the queue empty: the worker does not leave requests lying. */
  predicate PromptWorker(s: State, es: seq<Event>)
    requires Runnable(s, es)
    decreases |es|
  {
    es == [] ||
    ((es[0].Attempt? ==> s.worker.Some? || s.queue == []) && PromptWorker(Step(s, es[0]), es[1..]))
  }

  lemma {:induction false} RoomFor(s: State, i: nat)
    requires Lined(s) && i < |s.clients| && MayAsk(s, s.clients[i])
    requires |s.clients| <= QUEUE_LEN || (|s.clients| <= QUEUE_LEN + 1 && (s.worker.Some? || s.queue == []))
    ensures |s.queue| < QUEUE_LEN
  {
    QueuedAtMostAll(s.clients, i);
  }

  predicate Unrefused(s: State) {
    forall c :: c in s.clients ==> c.refusals == 0 && !c.status.Refused?
  }

  lemma {:induction false} NobodyRefused(s: State, es: seq<Event>)
    requires Lined(s) && Unrefused(s) && Runnable(s, es)
    requires |s.clients| <= QUEUE_LEN || (|s.clients| <= QUEUE_LEN + 1 && PromptWorker(s, es))
    ensures Unrefused(Run(s, es))
    decreases |es|
  {
    if es != [] {
      var e, t := es[0], Step(s, es[0]);
      StepKeepsLine(s, e);
      if e.Attempt? {
        RoomFor(s, e.i);
      }
      assert Unrefused(t) by {
        forall c | c in t.clients
          ensures c.refusals == 0 && !c.status.Refused?
        {
          if c !in s.clients {
            var i := if e.Answer? then s.worker.value else e.i;
            assert c == t.clients[i] && s.clients[i] in s.clients;
          }
        }
      }
      NobodyRefused(t, es[1..]);
    }
  }

  lemma {:induction false} NoRefusals(cs: seq<Client>)
    requires forall c :: c in cs ==> c.refusals == 0
    ensures TotalRefusals(cs) == 0
  {
    if cs != [] {
      assert cs[0] in cs;
      NoRefusals(cs[1..]);
    }
  }

  /** Up to ten clients, or eleven if the worker is prompt: n(n+1)/2 attempts in all, and n for any one. */
  lemma {:induction false} FewClientsBound(n: nat, es: seq<Event>)
    requires Runnable(Start(n), es)
    requires n <= QUEUE_LEN || (n <= QUEUE_LEN + 1 && PromptWorker(Start(n), es))
    ensures TotalAttempts(Run(Start(n), es).clients) <= Triangle(n)
    ensures forall c :: c in Run(Start(n), es).clients ==> c.attempts <= n
  {
    Fresh(n);
    AttemptBound(n, es);
    NobodyRefused(Start(n), es);
    NoRefusals(Run(Start(n), es).clients);
  }

  /** For the two clients of the test this is its asserted budget: three attempts, two for either. */
  lemma {:induction false} TwoClientBudget(es: seq<Event>)
    requires Runnable(Start(2), es)
    ensures TotalAttempts(Run(Start(2), es).clients) <= 3
    ensures forall c :: c in Run(Start(2), es).clients ==> c.attempts <= 2
  {
    FewClientsBound(2, es);
  }

  // ---- The bound is met ---------------------------------------------------------------------

  lemma {:induction false} RunThen(s: State, es: seq<Event>, fs: seq<Event>)
    requires Runnable(s, es) && Runnable(Run(s, es), fs)
    ensures Runnable(s, es + fs) && Run(s, es + fs) == Run(Run(s, es), fs)
    decreases |es|
  {
    if es == [] {
      assert es + fs == fs;
    } else {
      assert (es + fs)[1..] == es[1..] + fs;
      RunThen(Step(s, es[0]), es[1..], fs);
    }
  }

  lemma {:induction false} OneStep(s: State, e: Event)
    requires Enabled(s, e)
    ensures Runnable(s, [e]) && Run(s, [e]) == Step(s, e)
  {
  }

  /** The clients from k up to j, in line. */
  function Upto(k: nat, j: nat): seq<nat>
    requires k <= j
  {
    seq(j - k, i requires 0 <= i < j - k => k + i)
  }

  /** Round k: the first k clients are through, client i after i+1 attempts; the rest have lost k each. */
  function Round(n: nat, k: nat, a: nat): State
    requires k <= n
  {
    Asking(n, k, k, a)
  }

  /** In round k the clients from k up to j have asked. */
  function Asking(n: nat, k: nat, j: nat, a: nat): State
    requires k <= j <= n
  {
    State(seq(n, i requires 0 <= i < n =>
                if i < k then Client(Closed, i + 1, 0)
                else if i < j then Client(Outstanding(k, 2 * k), k + 1, 0)
                else Client(Ready, k, 0)),
          k, a, None, Upto(k, j))
  }

  /** Client k is through and the answers up to j have been lost. */
  function Losing(n: nat, k: nat, j: nat, a: nat): State
    requires k < j <= n
  {
    State(seq(n, i requires 0 <= i < n =>
                if i <= k then Client(Closed, i + 1, 0)
                else if i < j then Client(Ready, k + 1, 0)
                else Client(Outstanding(k, 2 * k), k + 1, 0)),
          k + 1, a, None, Upto(j, n))
  }

  lemma {:induction false} DonePrefix(cs: seq<Client>, k: nat)
    requires k <= |cs| && forall i :: 0 <= i < |cs| ==> (cs[i].Done() <==> i < k)
    ensures DoneCount(cs) == k
  {
    if cs != [] {
      DonePrefix(cs[1..], if k == 0 then 0 else k - 1);
    }
  }

  lemma {:induction false} AskOne(n: nat, k: nat, j: nat, a: nat)
    requires k <= j < n <= QUEUE_LEN
    ensures Enabled(Asking(n, k, j, a), Attempt(j)) && Step(Asking(n, k, j, a), Attempt(j)) == Asking(n, k, j + 1, a)
  {
    var s := Asking(n, k, j, a);
    DonePrefix(s.clients, k);
    assert Upto(k, j) + [j] == Upto(k, j + 1);
    assert Step(s, Attempt(j)).clients == Asking(n, k, j + 1, a).clients;
  }

  lemma {:induction false} AskAll(n: nat, k: nat, j: nat, a: nat) returns (es: seq<Event>)
    requires k <= j <= n <= QUEUE_LEN
    ensures Runnable(Asking(n, k, j, a), es) && Run(Asking(n, k, j, a), es) == Asking(n, k, n, a)
    decreases n - j
  {
    es := [];
    if j < n {
      var rest := AskAll(n, k, j + 1, a);
      AskOne(n, k, j, a);
      OneStep(Asking(n, k, j, a), Attempt(j));
      RunThen(Asking(n, k, j, a), [Attempt(j)], rest);
      es := [Attempt(j)] + rest;
    }
  }

  lemma {:induction false} TwoSteps(s: State, e: Event, f: Event)
    requires Enabled(s, e) && Enabled(Step(s, e), f)
    ensures Runnable(s, [e, f]) && Run(s, [e, f]) == Step(Step(s, e), f)
  {
    assert [e, f][1..] == [f];
    OneStep(Step(s, e), f);
  }

  lemma {:induction false} LoseOne(n: nat, k: nat, j: nat, a: nat)
    requires k < j < n
    ensures var s := Losing(n, k, j, a);
            Enabled(s, Fetch) && Enabled(Step(s, Fetch), Answer) &&
                Step(Step(s, Fetch), Answer) == Losing(n, k, j + 1, a + 1)
  {
    var s := Losing(n, k, j, a);
    assert s.queue[0] == j && s.queue[1..] == Upto(j + 1, n);
    assert Step(Step(s, Fetch), Answer).clients == Losing(n, k, j + 1, a + 1).clients;
  }

  lemma {:induction false} LoseAll(n: nat, k: nat, j: nat, a: nat) returns (es: seq<Event>)
    requires k < j <= n
    ensures Runnable(Losing(n, k, j, a), es) && Run(Losing(n, k, j, a), es) == Round(n, k + 1, a + n - j)
    decreases n - j
  {
    es := [];
    if j < n {
      var rest := LoseAll(n, k, j + 1, a + 1);
      LoseOne(n, k, j, a);
      TwoSteps(Losing(n, k, j, a), Fetch, Answer);
      RunThen(Losing(n, k, j, a), [Fetch, Answer], rest);
      es := [Fetch, Answer] + rest;
    } else {
      assert Losing(n, k, n, a).clients == Round(n, k + 1, a).clients;
      assert Upto(n, n) == Upto(k + 1, k + 1) == [];
    }
  }

  lemma {:induction false} ServeFirst(n: nat, k: nat, a: nat)
    requires k < n <= QUEUE_LEN
    ensures var s := Asking(n, k, n, a);
            && Enabled(s, Fetch) && Enabled(Step(s, Fetch), Answer) && Enabled(Step(Step(s, Fetch), Answer), Close(k))
            && Step(Step(Step(s, Fetch), Answer), Close(k)) == Losing(n, k, k + 1, a + 1)
  {
    var s := Asking(n, k, n, a);
    assert s.queue[0] == k && s.queue[1..] == Upto(k + 1, n);
    var served := Step(Step(s, Fetch), Answer);
    assert served.clients[k] == Client(Served, k + 1, 0);
    assert Step(served, Close(k)).clients == Losing(n, k, k + 1, a + 1).clients;
  }

  lemma {:induction false} ThreeSteps(s: State, e: Event, f: Event, g: Event)
    requires Enabled(s, e) && Enabled(Step(s, e), f) && Enabled(Step(Step(s, e), f), g)
    ensures Runnable(s, [e, f, g]) && Run(s, [e, f, g]) == Step(Step(Step(s, e), f), g)
  {
    assert [e, f, g][1..] == [f, g];
    TwoSteps(Step(s, e), f, g);
  }

  /** Everybody asks, client k is served and closes, and that close costs all the others their attempt. */
  lemma {:induction false} PlayRound(n: nat, k: nat, a: nat) returns (es: seq<Event>, b: nat)
    requires k < n <= QUEUE_LEN
    ensures Runnable(Round(n, k, a), es) && Run(Round(n, k, a), es) == Round(n, k + 1, b)
  {
    var ask := AskAll(n, k, k, a);
    ServeFirst(n, k, a);
    ThreeSteps(Asking(n, k, n, a), Fetch, Answer, Close(k));
    RunThen(Round(n, k, a), ask, [Fetch, Answer, Close(k)]);
    var lose := LoseAll(n, k, k + 1, a + 1);
    RunThen(Round(n, k, a), ask + [Fetch, Answer, Close(k)], lose);
    es := ask + [Fetch, Answer, Close(k)] + lose;
    b := a + 1 + n - (k + 1);
  }

  lemma {:induction false} PlayRounds(n: nat, k: nat) returns (es: seq<Event>, a: nat)
    requires k <= n <= QUEUE_LEN
    ensures Runnable(Start(n), es) && Run(Start(n), es) == Round(n, k, a)
  {
    es, a := [], 0;
    if k == 0 {
      assert Start(n).clients == Round(n, 0, 0).clients;
      assert Upto(0, 0) == [];
    } else {
      es, a := PlayRounds(n, k - 1);
      var last, b := PlayRound(n, k - 1, a);
      RunThen(Start(n), es, last);
      es, a := es + last, b;
    }
  }

  function AllThrough(n: nat): seq<Client> {
    seq(n, i requires 0 <= i < n => Client(Closed, i + 1, 0))
  }

  lemma {:induction false} RoundTotal(n: nat)
    ensures TotalAttempts(AllThrough(n)) == Triangle(n)
  {
    if n > 0 {
      RoundTotal(n - 1);
      TriangleStep(n - 1);
      assert AllThrough(n) == AllThrough(n - 1) + [Client(Closed, n, 0)];
      TotalAppend(AllThrough(n - 1), Client(Closed, n, 0));
    }
  }

  lemma {:induction false} TotalAppend(cs: seq<Client>, c: Client)
    ensures TotalAttempts(cs + [c]) == TotalAttempts(cs) + c.attempts
  {
    if cs != [] {
      assert (cs + [c])[1..] == cs[1..] + [c];
      TotalAppend(cs[1..], c);
    }
  }

  /**
   For every n up to ten some run serves all n clients and uses the whole n(n+1)/2, its last client
   taking n attempts. So the linear budget 2n-1, and two attempts per client, hold only up to n = 2.
   */
  lemma {:induction false} BoundIsMet(n: nat) returns (es: seq<Event>)
    requires n <= QUEUE_LEN
    ensures Runnable(Start(n), es) && DoneCount(Run(Start(n), es).clients) == n
    ensures TotalAttempts(Run(Start(n), es).clients) == Triangle(n)
    ensures n > 0 ==> (Triangle(n) <= 2 * n - 1 <==> n <= 2)
    ensures n > 0 ==> Run(Start(n), es).clients[n - 1].attempts == n
  {
    var a;
    es, a := PlayRounds(n, n);
    assert Round(n, n, a).clients == AllThrough(n);
    RoundTotal(n);
    AllDone(Round(n, n, a).clients);
    LinearBudgetExactly(n);
  }

  lemma {:induction false} LinearBudgetExactly(n: nat)
    ensures n > 0 ==> (Triangle(n) <= 2 * n - 1 <==> n <= 2)
  {
  }

  lemma {:induction false} AllDone(cs: seq<Client>)
    requires forall c :: c in cs ==> c.Done()
    ensures DoneCount(cs) == |cs|
  {
    if cs != [] {
      assert cs[0] in cs;
      AllDone(cs[1..]);
    }
  }
}

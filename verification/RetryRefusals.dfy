/**
 More clients than the gateway's queue and worker can hold: requests are refused, but not for ever. Two
 refusals of one client in a row see a client served or a connection closed, and there are only so many.
 */
module RetryRefusals {
  import opened Options
  import opened RetryBudget

  /** The closes the j-th request in line was received after. */
  function CapturedAt(s: State, j: nat): nat
    requires Lined(s) && j < |s.Line()|
  {
    assert s.Line()[j] in s.Line();
    s.clients[s.Line()[j]].status.captured
  }

  /** Every request that came in after the refusal was received after the closes counted then. */
  predicate LaterAreFresher(s: State, mark: nat, closed: nat)
    requires Lined(s)
  {
    forall j :: 0 <= j < |s.Line()| && s.answered + j >= mark ==> CapturedAt(s, j) >= closed
  }

  /** Somewhere among the requests a refused client waits for is one received after the latest close. */
  predicate FreshAhead(s: State, mark: nat)
    requires Lined(s)
  {
    exists j :: 0 <= j < |s.Line()| && s.answered + j < mark && CapturedAt(s, j) == s.closes
  }

  /** Two refusals per close or service seen so far; a client refused behind nothing but stale requests has
      one more in hand. */
  predicate Patient(s: State, c: Client)
    requires Lined(s)
  {
    var now := Progress(s);
    match c.status
    case Ready => c.refusals <= 2 * now
    case Outstanding(captured, seen) =>
      captured <= s.closes && seen <= now && (captured < s.closes ==> seen < now) && c.refusals <= 2 * seen + 1
    case Refused(mark, seen, closed, allStale) =>
      && seen <= now && closed <= s.closes && (seen == now ==> closed == s.closes)
      && (if allStale then c.refusals <= 2 * seen + 1 && LaterAreFresher(s, mark, closed)
          else c.refusals <= 2 * seen + 2 && (seen == now ==> FreshAhead(s, mark)))
    case _ => c.refusals + 2 <= 4 * |s.clients|
  }

  predicate AllPatient(s: State) {
    Lined(s) && Budgeted(s) && forall c :: c in s.clients ==> Patient(s, c)
  }

  /** An open client leaves at most n-1 others to be served and to close. */
  lemma {:induction false} ProgressBelow(s: State, c: Client)
    requires Budgeted(s) && c in s.clients && !c.Done()
    ensures Progress(s) + 2 <= 2 * |s.clients|
  {
    OpenMeansFewerDone(s.clients, c);
  }

  // ---- Attempts -----------------------------------------------------------------------------

  /** A longer line keeps what was said about the line. */
  lemma {:induction false} LongerLine(s: State, t: State, mark: nat, closed: nat)
    requires Lined(s) && Lined(t) && s.Line() <= t.Line() && t.answered == s.answered && t.closes == s.closes
    requires forall j :: 0 <= j < |s.Line()| ==> CapturedAt(t, j) == CapturedAt(s, j)
    requires forall j :: |s.Line()| <= j < |t.Line()| ==> CapturedAt(t, j) >= closed
    ensures FreshAhead(s, mark) ==> FreshAhead(t, mark)
    ensures LaterAreFresher(s, mark, closed) ==> LaterAreFresher(t, mark, closed)
  {
    if FreshAhead(s, mark) {
      var j :| 0 <= j < |s.Line()| && s.answered + j < mark && CapturedAt(s, j) == s.closes;
      assert CapturedAt(t, j) == t.closes;
    }
  }

  lemma {:induction false} OthersAfterJoin(s: State, i: nat, c: Client)
    requires AllPatient(s) && Enabled(s, Attempt(i)) && |s.queue| < QUEUE_LEN && c in s.clients
    ensures Lined(Step(s, Attempt(i))) && Patient(Step(s, Attempt(i)), c)
  {
    var t := Step(s, Attempt(i));
    StepKeepsLine(s, Attempt(i));
    StepLines(s, Attempt(i));
    ReplacingCounts(s.clients, i, t.clients[i]);
    assert Patient(s, c);
    if c.status.Refused? {
      SameCaptures(s, t, i);
      NewestInLine(t, i);
      LongerLine(s, t, c.status.mark, c.status.closed);
    }
  }

  lemma {:induction false} NewestInLine(t: State, i: nat)
    requires Lined(t) && t.Line() != [] && t.Line()[|t.Line()| - 1] == i
    ensures i < |t.clients| && t.clients[i].status.Outstanding?
    ensures CapturedAt(t, |t.Line()| - 1) == t.clients[i].status.captured
  {
    assert i in t.Line();
  }

  /** Changing a client that is not in line leaves the captures in line as they were. */
  lemma {:induction false} SameCaptures(s: State, t: State, i: nat)
    requires Lined(s) && Lined(t) && i !in s.Line() && i < |s.clients| && |t.clients| == |s.clients|
    requires t.clients == s.clients[i := t.clients[i]] && s.Line() <= t.Line()
    ensures forall j :: 0 <= j < |s.Line()| ==> CapturedAt(t, j) == CapturedAt(s, j)
  {
    forall j | 0 <= j < |s.Line()|
      ensures CapturedAt(t, j) == CapturedAt(s, j)
    {
      assert s.Line()[j] in s.Line() && t.Line()[j] == s.Line()[j];
    }
  }

  lemma {:induction false} JoinKeepsPatience(s: State, i: nat)
    requires AllPatient(s) && Enabled(s, Attempt(i)) && |s.queue| < QUEUE_LEN
    ensures AllPatient(Step(s, Attempt(i)))
  {
    var t := Step(s, Attempt(i));
    StepKeepsLine(s, Attempt(i));
    StepKeepsBudget(s, Attempt(i));
    ReplacingCounts(s.clients, i, t.clients[i]);
    assert s.clients[i] in s.clients;
    assert Patient(s, s.clients[i]);
    RetryCredit(s, s.clients[i]);
    forall c | c in t.clients
      ensures Patient(t, c)
    {
      if c != t.clients[i] {
        assert c in s.clients;
        OthersAfterJoin(s, i, c);
      }
    }
  }

  /** A client about to ask again has seen enough happen. */
  lemma {:induction false} RetryCredit(s: State, c: Client)
    requires AllPatient(s) && c in s.clients && MayAsk(s, c)
    ensures c.refusals <= 2 * Progress(s) + 1
    ensures c.refusals == 2 * Progress(s) + 1 && s.Line() != [] ==> !AllStale(s)
  {
    assert Patient(s, c);
    if c.status.Refused? && c.status.allStale && c.status.seen == Progress(s) && s.Line() != [] {
      assert CapturedAt(s, 0) >= c.status.closed;
      assert s.Line()[0] in s.Line();
    }
  }

  lemma {:induction false} FreshOneInLine(s: State) returns (j: nat)
    requires Lined(s) && Budgeted(s) && !AllStale(s)
    ensures j < |s.Line()| && CapturedAt(s, j) == s.closes
  {
    var i :| i in s.Line() && i < |s.clients| && s.clients[i].status.Outstanding? &&
        s.clients[i].status.captured >= s.closes;
    j :| 0 <= j < |s.Line()| && s.Line()[j] == i;
    assert s.clients[i] in s.clients;
    assert WithinBudget(s.clients[i], s.closes, DoneCount(s.clients));
  }

  lemma {:induction false} RefusalKeepsPatience(s: State, i: nat)
    requires AllPatient(s) && Enabled(s, Attempt(i)) && |s.queue| >= QUEUE_LEN
    ensures AllPatient(Step(s, Attempt(i)))
  {
    var t := Step(s, Attempt(i));
    StepKeepsLine(s, Attempt(i));
    StepKeepsBudget(s, Attempt(i));
    StepLines(s, Attempt(i));
    ReplacingCounts(s.clients, i, t.clients[i]);
    assert s.clients[i] in s.clients;
    RetryCredit(s, s.clients[i]);
    SameCaptures(s, t, i);
    if !AllStale(s) {
      var j := FreshOneInLine(s);
      assert CapturedAt(t, j) == t.closes;
    }
    forall c | c in t.clients
      ensures Patient(t, c)
    {
      if c != t.clients[i] {
        assert c in s.clients && Patient(s, c);
        StillAhead(s, t, c);
      }
    }
  }

  lemma {:induction false} StillAhead(s: State, t: State, c: Client)
    requires Lined(s) && Lined(t) && Patient(s, c) && t.Line() == s.Line() && t.answered == s.answered &&
            t.closes == s.closes
    requires Progress(t) == Progress(s) && |t.clients| == |s.clients|
    requires forall j :: 0 <= j < |s.Line()| ==> CapturedAt(t, j) == CapturedAt(s, j)
    ensures Patient(t, c)
  {
    if c.status.Refused? && !c.status.allStale && c.status.seen == Progress(s) {
      var j :| 0 <= j < |s.Line()| && s.answered + j < c.status.mark && CapturedAt(s, j) == s.closes;
      assert CapturedAt(t, j) == t.closes;
    }
  }

  // ---- Answers and closes -------------------------------------------------------------------

  lemma {:induction false} AnswerShifts(s: State)
    requires Lined(s) && Enabled(s, Answer)
    ensures var t := Step(s, Answer);
            && Lined(t) && |t.Line()| + 1 == |s.Line()|
            && forall j :: 0 <= j < |t.Line()| ==> CapturedAt(t, j) == CapturedAt(s, j + 1)
  {
    var t := Step(s, Answer);
    StepKeepsLine(s, Answer);
    StepLines(s, Answer);
    forall j | 0 <= j < |t.Line()|
      ensures CapturedAt(t, j) == CapturedAt(s, j + 1)
    {
      SameCaptured(s, t, s.worker.value, j);
    }
  }

  lemma {:induction false} SameCaptured(s: State, t: State, i: nat, j: nat)
    requires Lined(s) && Lined(t) && i < |s.clients| == |t.clients| && t.clients == s.clients[i := t.clients[i]]
    requires s.Line() != [] && t.Line() == s.Line()[1..] && i !in t.Line() && j < |t.Line()|
    ensures CapturedAt(t, j) == CapturedAt(s, j + 1)
  {
    assert t.Line()[j] == s.Line()[j + 1] && t.Line()[j] in t.Line();
  }

  /** A line that has moved up by one keeps what was said about it, unless its head was what mattered. */
  lemma {:induction false} ShorterLine(s: State, t: State, mark: nat, closed: nat)
    requires Lined(s) && Lined(t) && |t.Line()| + 1 == |s.Line()| && t.answered == s.answered + 1 &&
            t.closes == s.closes
    requires forall j :: 0 <= j < |t.Line()| ==> CapturedAt(t, j) == CapturedAt(s, j + 1)
    ensures FreshAhead(s, mark) && CapturedAt(s, 0) != s.closes ==> FreshAhead(t, mark)
    ensures LaterAreFresher(s, mark, closed) ==> LaterAreFresher(t, mark, closed)
  {
    if FreshAhead(s, mark) && CapturedAt(s, 0) != s.closes {
      var j :| 0 <= j < |s.Line()| && s.answered + j < mark && CapturedAt(s, j) == s.closes;
      assert CapturedAt(t, j - 1) == t.closes;
    }
  }

  lemma {:induction false} OthersAfterAnswer(s: State, c: Client)
    requires AllPatient(s) && Enabled(s, Answer) && c in s.clients
    requires !c.status.Outstanding? || c != s.clients[s.worker.value]
    ensures Lined(Step(s, Answer)) && Patient(Step(s, Answer), c)
  {
    var i, t := s.worker.value, Step(s, Answer);
    AnswerShifts(s);
    StepLines(s, Answer);
    ReplacingCounts(s.clients, i, t.clients[i]);
    assert Patient(s, c);
    assert CapturedAt(s, 0) == s.clients[i].status.captured;
    if c.status.Refused? {
      ShorterLine(s, t, c.status.mark, c.status.closed);
    }
  }

  lemma {:induction false} AnswerKeepsPatience(s: State)
    requires AllPatient(s) && Enabled(s, Answer)
    ensures AllPatient(Step(s, Answer))
  {
    var i, t := s.worker.value, Step(s, Answer);
    StepKeepsLine(s, Answer);
    StepKeepsBudget(s, Answer);
    ReplacingCounts(s.clients, i, t.clients[i]);
    var was := s.clients[i];
    assert was in s.clients && Patient(s, was);
    ProgressBelow(s, was);
    forall c | c in t.clients
      ensures Patient(t, c)
    {
      if c != t.clients[i] {
        var k :| 0 <= k < |t.clients| && t.clients[k] == c;
        assert s.clients[k] == c && c in s.clients;
        if c.status.Outstanding? {
          OutstandingAfterAnswer(s, c);
        } else {
          OthersAfterAnswer(s, c);
        }
      }
    }
  }

  lemma {:induction false} OutstandingAfterAnswer(s: State, c: Client)
    requires AllPatient(s) && Enabled(s, Answer) && c in s.clients && c.status.Outstanding?
    ensures Lined(Step(s, Answer)) && Patient(Step(s, Answer), c)
  {
    var i, t := s.worker.value, Step(s, Answer);
    StepKeepsLine(s, Answer);
    ReplacingCounts(s.clients, i, t.clients[i]);
    assert Patient(s, c);
  }

  lemma {:induction false} CloseKeepsPatience(s: State, i: nat)
    requires AllPatient(s) && Enabled(s, Close(i))
    ensures AllPatient(Step(s, Close(i)))
  {
    var t := Step(s, Close(i));
    StepKeepsLine(s, Close(i));
    StepKeepsBudget(s, Close(i));
    StepLines(s, Close(i));
    ReplacingCounts(s.clients, i, t.clients[i]);
    SameCaptures(s, t, i);
    assert s.clients[i] in s.clients && Patient(s, s.clients[i]);
    forall c | c in t.clients
      ensures Patient(t, c)
    {
      if c != t.clients[i] {
        assert c in s.clients && Patient(s, c);
      }
    }
  }

  lemma {:induction false} FetchKeepsPatience(s: State)
    requires AllPatient(s) && Enabled(s, Fetch)
    ensures AllPatient(Step(s, Fetch))
  {
    var t := Step(s, Fetch);
    StepKeepsLine(s, Fetch);
    StepLines(s, Fetch);
    forall c | c in t.clients
      ensures Patient(t, c)
    {
      assert Patient(s, c);
      StillAhead(s, t, c);
    }
  }

  // ---- The bound ----------------------------------------------------------------------------

  lemma {:induction false} RunKeepsPatience(s: State, es: seq<Event>)
    requires AllPatient(s) && Runnable(s, es)
    ensures AllPatient(Run(s, es)) && |Run(s, es).clients| == |s.clients|
    decreases |es|
  {
    if es != [] {
      match es[0] {
        case Attempt(i) =>
          if |s.queue| < QUEUE_LEN {
            JoinKeepsPatience(s, i);
          } else {
            RefusalKeepsPatience(s, i);
          }
        case Fetch => FetchKeepsPatience(s);
        case Answer => AnswerKeepsPatience(s);
        case Close(i) => CloseKeepsPatience(s, i);
      }
      RunKeepsPatience(Step(s, es[0]), es[1..]);
    }
  }

  /** However many clients there are, in every run: none is refused more than 4n-2 times, so none needs more
      than 5n-2 attempts. */
  lemma {:induction false} RefusalBound(n: nat, es: seq<Event>)
    requires Runnable(Start(n), es)
    ensures forall c :: c in Run(Start(n), es).clients ==> c.refusals <= 4 * n - 2 && c.attempts <= 5 * n - 2
  {
    Fresh(n);
    forall c | c in Start(n).clients
      ensures Patient(Start(n), c)
    {
    }
    RunKeepsPatience(Start(n), es);
    AttemptBound(n, es);
    var s := Run(Start(n), es);
    forall c | c in s.clients
      ensures c.refusals <= 4 * n - 2
    {
      assert Patient(s, c);
      if !c.Done() {
        ProgressBelow(s, c);
      }
    }
  }

  // ---- Refusals do happen -------------------------------------------------------------------

  lemma {:induction false} FillQueue(n: nat, j: nat) returns (es: seq<Event>)
    requires j <= QUEUE_LEN <= n
    ensures Runnable(Start(n), es) && Run(Start(n), es) == Asking(n, 0, j, 0)
  {
    es := [];
    if j == 0 {
      assert Start(n).clients == Asking(n, 0, 0, 0).clients;
      assert Upto(0, 0) == [];
    } else {
      es := FillQueue(n, j - 1);
      var s := Asking(n, 0, j - 1, 0);
      DonePrefix(s.clients, 0);
      assert Upto(0, j - 1) + [j - 1] == Upto(0, j);
      assert Step(s, Attempt(j - 1)).clients == Asking(n, 0, j, 0).clients;
      OneStep(s, Attempt(j - 1));
      RunThen(Start(n), es, [Attempt(j - 1)]);
      es := es + [Attempt(j - 1)];
    }
  }

  /** An eleventh client is refused if the worker has not come round to the first request yet. */
  lemma {:induction false} EleventhCanBeRefused(n: nat) returns (es: seq<Event>)
    requires n > QUEUE_LEN
    ensures Runnable(Start(n), es) && |Run(Start(n), es).clients| == n
    ensures Run(Start(n), es).clients[QUEUE_LEN].refusals == 1
  {
    es := FillQueue(n, QUEUE_LEN);
    var s := Asking(n, 0, QUEUE_LEN, 0);
    OneStep(s, Attempt(QUEUE_LEN));
    RunThen(Start(n), es, [Attempt(QUEUE_LEN)]);
    es := es + [Attempt(QUEUE_LEN)];
  }

  /** The worker is busy with the first client, and the clients up to j are in line behind it. */
  function Busy(n: nat, j: nat): State
    requires 0 < j <= n
  {
    Asking(n, 0, j, 0).(worker := Some(0), queue := Upto(1, j))
  }

  lemma {:induction false} PromptThen(s: State, es: seq<Event>, e: Event)
    requires Runnable(s, es) && Enabled(Run(s, es), e) && PromptWorker(s, es)
    requires e.Attempt? ==> Run(s, es).worker.Some? || Run(s, es).queue == []
    ensures Runnable(s, es + [e]) && PromptWorker(s, es + [e]) && Run(s, es + [e]) == Step(Run(s, es), e)
    decreases |es|
  {
    if es == [] {
      assert es + [e] == [e];
      OneStep(s, e);
    } else {
      assert (es + [e])[1..] == es[1..] + [e];
      PromptThen(Step(s, es[0]), es[1..], e);
    }
  }

  lemma {:induction false} BusyOne(n: nat, j: nat)
    requires 0 < j < n && j <= QUEUE_LEN
    ensures Enabled(Busy(n, j), Attempt(j)) && Step(Busy(n, j), Attempt(j)) == Busy(n, j + 1)
  {
    var s := Busy(n, j);
    DonePrefix(s.clients, 0);
    assert Upto(1, j) + [j] == Upto(1, j + 1);
    assert Step(s, Attempt(j)).clients == Busy(n, j + 1).clients;
  }

  lemma {:induction false} AskFirst(n: nat)
    requires n > 0
    ensures Enabled(Start(n), Attempt(0)) && Step(Start(n), Attempt(0)) == Asking(n, 0, 1, 0)
  {
    DonePrefix(Start(n).clients, 0);
    assert [] + [0] == Upto(0, 1);
    assert Step(Start(n), Attempt(0)).clients == Asking(n, 0, 1, 0).clients;
  }

  lemma {:induction false} TakeFirst(n: nat)
    requires n > 0
    ensures Enabled(Asking(n, 0, 1, 0), Fetch) && Step(Asking(n, 0, 1, 0), Fetch) == Busy(n, 1)
  {
    assert Upto(0, 1)[0] == 0 && Upto(0, 1)[1..] == Upto(1, 1);
  }

  lemma {:induction false} FirstTaken(n: nat) returns (es: seq<Event>)
    requires n > 0
    ensures Runnable(Start(n), es) && PromptWorker(Start(n), es) && Run(Start(n), es) == Busy(n, 1)
  {
    AskFirst(n);
    TakeFirst(n);
    PromptThen(Start(n), [], Attempt(0));
    PromptThen(Start(n), [] + [Attempt(0)], Fetch);
    es := [] + [Attempt(0)] + [Fetch];
  }

  lemma {:induction false} FillBusy(n: nat, j: nat) returns (es: seq<Event>)
    requires 0 < j <= QUEUE_LEN + 1 <= n
    ensures Runnable(Start(n), es) && PromptWorker(Start(n), es) && Run(Start(n), es) == Busy(n, j)
  {
    if j == 1 {
      es := FirstTaken(n);
    } else {
      es := FillBusy(n, j - 1);
      BusyOne(n, j - 1);
      PromptThen(Start(n), es, Attempt(j - 1));
      es := es + [Attempt(j - 1)];
    }
  }

  /** A twelfth is refused even by a prompt worker, which holds one request while ten are queued. */
  lemma {:induction false} TwelfthCanBeRefused(n: nat) returns (es: seq<Event>)
    requires n > QUEUE_LEN + 1
    ensures Runnable(Start(n), es) && PromptWorker(Start(n), es) && |Run(Start(n), es).clients| == n
    ensures Run(Start(n), es).clients[QUEUE_LEN + 1].refusals == 1
  {
    es := FillBusy(n, QUEUE_LEN + 1);
    PromptThen(Start(n), es, Attempt(QUEUE_LEN + 1));
    es := es + [Attempt(QUEUE_LEN + 1)];
  }
}

/**
 How often the gateway answers a request: requests are taken in the order they came in, each is answered at most
 once over any run, and one the gateway answers itself exactly once unless somebody was retired in between.
 */
module GatewayAnswers {
  import opened Bytes
  import opened Options
  import opened Gateway
  import opened GatewaySchedule

  // ---- What each event sends ----------------------------------------------------------------

  /** The request an event answers, if the answer goes out. */
  function Answers(s: State, e: Event): seq<Request> {
    match e
    case AnswerLocally => if s.worker.Fetched? && s.worker.r.captured == s.retired then [s.worker.r] else []
    case SendReply => if s.uart.Replying? && Leaves(s) then [s.uart.origin] else []
    case _ => []
  }

  function Answered(ds: seq<Delivery>): seq<Request> {
    if ds == [] then [] else [ds[0].answers] + Answered(ds[1..])
  }

  /** One delivery for the request that an event answers, to the connection whose socket and generation were
      captured with the request fetched last, and none for any other event. */
  lemma {:induction false} StepAnswers(s: State, e: Event)
    requires Sane(s) && Enabled(s, e) && Recent(s)
    requires s.worker != Idle ==> s.retired - s.worker.r.captured < GENERATIONS
    ensures var rs, ds := Answers(s, e), Step(s, e).delivered;
            && Answered(ds) == rs && |ds| == |rs| <= 1
            && (rs != [] ==> ds[0].conn == (if e == AnswerLocally then s.worker.r.conn else s.adopted.value.conn))
            && (rs != [] ==> ds[0].tid == if e == AnswerLocally then s.worker.r.tid else s.uart.tid)
  {
    match e
    case AnswerLocally =>
      GenerationEquality(s.worker.r.captured, s.retired);
      assert Captured(s, s.worker.r);
    case SendReply =>
      if s.adopted.Some? {
        GenerationEquality(s.adopted.value.captured, s.retired);
        assert Captured(s, s.adopted.value);
      }
    case _ =>
  }

  /** The requests answered in a run, one entry for each answer. */
  function AnsweredIn(s: State, es: seq<Event>): seq<Request>
    requires Runnable(s, es)
    decreases |es|
  {
    if es == [] then [] else Answers(s, es[0]) + AnsweredIn(Step(s, es[0]).state, es[1..])
  }

  lemma {:induction false} AnsweredJoins(a: seq<Delivery>, b: seq<Delivery>)
    ensures Answered(a + b) == Answered(a) + Answered(b)
  {
    if a == [] {
      assert a + b == b;
    } else {
      assert (a + b)[1..] == a[1..] + b;
      AnsweredJoins(a[1..], b);
    }
  }

  /** Over every run, the deliveries are exactly these answers, one for one. */
  lemma {:induction false} RunAnswers(s: State, es: seq<Event>)
    requires Sane(s) && Runnable(s, es) && NeverWraps(s, es)
    ensures Answered(Run(s, es).delivered) == AnsweredIn(s, es)
    decreases |es|
  {
    if es != [] {
      var first := Step(s, es[0]);
      StepAnswers(s, es[0]);
      StepKeepsSane(s, es[0]);
      RunAnswers(first.state, es[1..]);
      AnsweredJoins(first.delivered, Run(first.state, es[1..]).delivered);
    }
  }

  // ---- Each request is in one place ---------------------------------------------------------

  /** The queue holds the latest requests, in the order they were given their numbers. */
  predicate InOrder(s: State) {
    |s.queue| <= s.issued && forall i :: 0 <= i < |s.queue| ==> s.queue[i].serial == s.issued - |s.queue| + i
  }

  /** The number of the request that would be fetched next. */
  function Next(s: State): int {
    s.issued - |s.queue|
  }

  /** Every request that has left the queue has a number below those in it, and is in one place only. */
  predicate Once(s: State) {
    && InOrder(s)
    && (s.worker.Fetched? ==> s.worker.r.serial < Next(s))
    && (forall r :: r in s.bus ==> r.serial < Next(s) && !r.local)
    && (s.uart.Replying? ==> s.uart.origin.serial < Next(s) && !s.uart.origin.local)
    && (forall r, q :: r in s.bus && q in s.bus && r.serial == q.serial ==> r == q)
    && (s.worker.Fetched? ==> forall r :: r in s.bus ==> r.serial != s.worker.r.serial)
    && (s.worker.Fetched? && s.uart.Replying? ==> s.uart.origin.serial != s.worker.r.serial)
    && (s.uart.Replying? ==> forall r :: r in s.bus ==> r.serial != s.uart.origin.serial)
  }

  lemma {:induction false} BootOnce()
    ensures Once(Boot())
  {
  }

  lemma {:induction false} FetchOnce(s: State)
    requires Once(s) && s.queue != []
    ensures Once(FetchRequest(s))
  {
    var t := FetchRequest(s);
    assert t.worker.r.serial == Next(s) && Next(t) == Next(s) + 1;
  }

  lemma {:induction false} ConvertOnce(s: State, ok: bool, sent: bool)
    requires Once(s) && s.worker.Fetched? && !s.worker.r.local
    ensures Once(ConvertRequest(s, ok, sent))
  {
  }

  lemma {:induction false} PushOnce(s: State, fd: nat, tid: Word, unit: Byte, local: bool)
    requires Once(s) && Enabled(s, Push(fd, tid, unit, local))
    ensures Once(PushRequest(s, fd, tid, unit, local))
  {
  }

  lemma {:induction false} BuildOnce(s: State, origin: Request)
    requires Once(s) && Enabled(s, BuildReply(origin))
    ensures Once(BuildFrom(s, origin))
  {
  }

  /** Nothing is anywhere that was not there before. */
  lemma {:induction false} FewerOnce(s: State, t: State)
    requires Once(s) && t.queue == s.queue && t.issued == s.issued && t.bus == s.bus
    requires t.worker == s.worker || t.worker == Idle
    requires t.uart == s.uart || t.uart == Quiet
    ensures Once(t)
  {
  }

  lemma {:induction false} StepOnce(s: State, e: Event)
    requires Once(s) && Enabled(s, e)
    ensures Once(Step(s, e).state)
  {
    match e
    case Push(fd, tid, unit, local) => PushOnce(s, fd, tid, unit, local);
    case Fetch => FetchOnce(s);
    case Convert(ok, sent) => ConvertOnce(s, ok, sent);
    case BuildReply(origin) => BuildOnce(s, origin);
    case _ => FewerOnce(s, Step(s, e).state);
  }

  // ---- Counting answers ---------------------------------------------------------------------

  function Times(rs: seq<Request>, k: nat): nat {
    if rs == [] then 0 else (if rs[0].serial == k then 1 else 0) + Times(rs[1..], k)
  }

  lemma {:induction false} TimesJoin(a: seq<Request>, b: seq<Request>, k: nat)
    ensures Times(a + b, k) == Times(a, k) + Times(b, k)
  {
    if a == [] {
      assert a + b == b;
    } else {
      assert (a + b)[1..] == a[1..] + b;
      TimesJoin(a[1..], b, k);
    }
  }

  /** Request k may still be answered: it is to come, queued, in hand, on the bus, or its reply is being sent. */
  predicate Open(s: State, k: nat) {
    || k >= Next(s)
    || (s.worker.Fetched? && s.worker.r.serial == k)
    || (exists r :: r in s.bus && r.serial == k)
    || (s.uart.Replying? && s.uart.origin.serial == k)
  }

  function One(b: bool): nat {
    if b then 1 else 0
  }

  lemma {:induction false} AnswerCloses(s: State, e: Event, k: nat)
    requires Once(s) && Enabled(s, e)
    ensures Times(Answers(s, e), k) + One(Open(Step(s, e).state, k)) <= One(Open(s, k))
  {
    match e
    case Fetch => FetchStaysOpen(s, k);
    case Convert(ok, sent) => ConvertStaysOpen(s, ok, sent, k);
    case BuildReply(origin) => BuildStaysOpen(s, origin, k);
    case _ => OthersClose(s, e, k);
  }

  lemma {:induction false} FetchStaysOpen(s: State, k: nat)
    requires Once(s) && s.queue != [] && s.worker.Idle?
    ensures Open(FetchRequest(s), k) ==> Open(s, k)
  {
    assert FetchRequest(s).bus == s.bus;
  }

  lemma {:induction false} ConvertStaysOpen(s: State, ok: bool, sent: bool, k: nat)
    requires Once(s) && s.worker.Fetched?
    ensures Open(ConvertRequest(s, ok, sent), k) ==> Open(s, k)
  {
    var t := ConvertRequest(s, ok, sent);
    assert forall r :: r in t.bus ==> r in s.bus || r == s.worker.r;
  }

  lemma {:induction false} BuildStaysOpen(s: State, origin: Request, k: nat)
    requires Once(s) && origin in s.bus
    ensures Open(BuildFrom(s, origin), k) ==> Open(s, k)
  {
    var t := BuildFrom(s, origin);
    assert forall r :: r in t.bus ==> r in s.bus;
  }

  lemma {:induction false} OthersClose(s: State, e: Event, k: nat)
    requires Once(s) && Enabled(s, e) && !e.Fetch? && !e.Convert? && !e.BuildReply?
    ensures Times(Answers(s, e), k) + One(Open(Step(s, e).state, k)) <= One(Open(s, k))
  {
    var t, rs := Step(s, e).state, Answers(s, e);
    assert t.bus == s.bus;
    if rs != [] {
      assert rs[1..] == [];
    }
  }

  lemma {:induction false} AnsweredLimit(s: State, es: seq<Event>, k: nat)
    requires Once(s) && Runnable(s, es)
    ensures Once(Run(s, es).state)
    ensures Times(AnsweredIn(s, es), k) + One(Open(Run(s, es).state, k)) <= One(Open(s, k))
    decreases |es|
  {
    if es != [] {
      AnswerCloses(s, es[0], k);
      StepOnce(s, es[0]);
      AnsweredLimit(Step(s, es[0]).state, es[1..], k);
      TimesJoin(Answers(s, es[0]), AnsweredIn(Step(s, es[0]).state, es[1..]), k);
    }
  }

  /** From power-up, over every interleaving: no request is ever answered twice. */
  lemma {:induction false} AnsweredAtMostOnce(es: seq<Event>, k: nat)
    requires Runnable(Boot(), es) && NeverWraps(Boot(), es)
    ensures Times(Answered(Run(Boot(), es).delivered), k) <= 1
  {
    BootIsSane();
    BootOnce();
    RunAnswers(Boot(), es);
    AnsweredLimit(Boot(), es, k);
  }

  // ---- Requests the gateway answers itself --------------------------------------------------

  lemma {:induction false} RunSplits(s: State, a: seq<Event>, b: seq<Event>)
    requires Runnable(s, a + b)
    ensures Runnable(s, a) && Runnable(Run(s, a).state, b)
    ensures Run(s, a + b).state == Run(Run(s, a).state, b).state
    ensures AnsweredIn(s, a + b) == AnsweredIn(s, a) + AnsweredIn(Run(s, a).state, b)
    decreases |a|
  {
    if a == [] {
      assert a + b == b;
    } else {
      assert (a + b)[1..] == a[1..] + b;
      RunSplits(Step(s, a[0]).state, a[1..], b);
    }
  }

  lemma {:induction false} StateAtEnd(s: State, a: seq<Event>, b: seq<Event>)
    requires Runnable(s, a + b) && Runnable(s, a)
    ensures StateAt(s, a + b, |a|) == Run(s, a).state
    decreases |a|
  {
    if a == [] {
      assert a + b == b;
    } else {
      assert (a + b)[1..] == a[1..] + b;
      StateAtEnd(Step(s, a[0]).state, a[1..], b);
    }
  }

  lemma {:induction false} NotOpenAfterAnswer(s: State)
    requires Once(s) && Enabled(s, AnswerLocally)
    ensures !Open(Step(s, AnswerLocally).state, s.worker.r.serial)
  {
  }

  lemma {:induction false} OneAnswer(s: State, r: Request)
    requires s.worker == Fetched(r)
    ensures Times(Answers(s, AnswerLocally), r.serial) == if r.captured == s.retired then 1 else 0
  {
    assert [r][1..] == [];
  }

  /** What the worker answers at position k is the request fetched last. */
  lemma {:induction false} AnsweredIsFetched(es: seq<Event>, k: nat)
    requires Runnable(Boot(), es) && k < |es| && es[k] == AnswerLocally
    ensures FetchAt(es, k) >= 0 && Runnable(Boot(), es[..k])
    ensures var s, r := Run(Boot(), es[..k]).state, FetchedAt(es, FetchAt(es, k));
            s.worker == Fetched(r) && r.local && s.retired == Retirements(es, k)
  {
    var before, after := es[..k], es[k + 1..];
    assert es == before + ([AnswerLocally] + after);
    AddressedThroughout(es, k);
    EntitledThroughout(es, k);
    StateNext(Boot(), es, k);
    RunSplits(Boot(), before, [AnswerLocally] + after);
    StateAtEnd(Boot(), before, [AnswerLocally] + after);
  }

  /** The answers of a run around a local one. */
  lemma {:induction false} AnswersAround(before: seq<Event>, after: seq<Event>, r: Request)
    requires Runnable(Boot(), before + ([AnswerLocally] + after)) && Runnable(Boot(), before)
    requires Run(Boot(), before).state.worker == Fetched(r)
    ensures Times(AnsweredIn(Boot(), before + ([AnswerLocally] + after)), r.serial) ==
            if r.captured == Run(Boot(), before).state.retired then 1 else 0
  {
    var s := Run(Boot(), before).state;
    RunSplits(Boot(), before, [AnswerLocally] + after);
    assert ([AnswerLocally] + after)[1..] == after;
    BootOnce();
    AnsweredLimit(Boot(), before, r.serial);
    NotOpenAfterAnswer(s);
    StepOnce(s, AnswerLocally);
    AnsweredLimit(Step(s, AnswerLocally).state, after, r.serial);
    TimesJoin(AnsweredIn(Boot(), before), AnsweredIn(s, [AnswerLocally] + after), r.serial);
    TimesJoin(Answers(s, AnswerLocally), AnsweredIn(Step(s, AnswerLocally).state, after), r.serial);
    OneAnswer(s, r);
  }

  /**
   From power-up, over every interleaving: a request the gateway answers itself, at position k, is answered exactly
   once in the whole run if nobody has been retired between its receipt and then, and never otherwise.
   */
  lemma {:induction false} LocalAnsweredOnce(es: seq<Event>, k: nat)
    requires Runnable(Boot(), es) && NeverWraps(Boot(), es) && k < |es| && es[k] == AnswerLocally
    ensures FetchAt(es, k) >= 0
    ensures var r := FetchedAt(es, FetchAt(es, k));
            r.local && Times(Answered(Run(Boot(), es).delivered), r.serial) ==
            if r.captured == Retirements(es, k) then 1 else 0
  {
    AnsweredIsFetched(es, k);
    assert es == es[..k] + ([AnswerLocally] + es[k + 1..]);
    AnswersAround(es[..k], es[k + 1..], FetchedAt(es, FetchAt(es, k)));
    BootIsSane();
    RunAnswers(Boot(), es);
  }

  // ---- Requests that go to the bus ----------------------------------------------------------

  /** The replies built for request k, and those sent that leave. */
  function BuiltFor(es: seq<Event>, k: nat): nat {
    if es == [] then 0 else (if es[0].BuildReply? && es[0].origin.serial == k then 1 else 0) + BuiltFor(es[1..], k)
  }

  /** A reply to k is being sent. */
  predicate Replies(s: State, k: nat) {
    s.uart.Replying? && s.uart.origin.serial == k
  }

  lemma {:induction false} SentWasBuilt(s: State, es: seq<Event>, k: nat)
    requires Once(s) && Runnable(s, es) && NeverLocal(s, es, k)
    ensures Times(AnsweredIn(s, es), k) <= BuiltFor(es, k) + One(Replies(s, k))
    decreases |es|
  {
    if es != [] {
      var e, t := es[0], Step(s, es[0]).state;
      StepOnce(s, e);
      SentWasBuilt(t, es[1..], k);
      TimesJoin(Answers(s, e), AnsweredIn(t, es[1..]), k);
      if Answers(s, e) != [] {
        assert Answers(s, e)[1..] == [];
      }
    }
  }

  /** Request k is none the gateway answers itself. */
  predicate NeverLocal(s: State, es: seq<Event>, k: nat)
    requires Runnable(s, es)
    decreases |es|
  {
    es == [] ||
    (!(es[0] == AnswerLocally && s.worker.r.serial == k) && NeverLocal(Step(s, es[0]).state, es[1..], k))
  }

  /** A request that goes to the bus is answered at most as often as replies are built for it; so never
      without one. */
  lemma {:induction false} NoAnswerWithoutReply(es: seq<Event>, k: nat)
    requires Runnable(Boot(), es) && NeverWraps(Boot(), es) && NeverLocal(Boot(), es, k)
    ensures Times(Answered(Run(Boot(), es).delivered), k) <= BuiltFor(es, k)
  {
    BootIsSane();
    BootOnce();
    RunAnswers(Boot(), es);
    SentWasBuilt(Boot(), es, k);
  }

  // ---- In the order of receipt --------------------------------------------------------------

  function Fetches(es: seq<Event>, k: nat): nat
    requires k <= |es|
  {
    if k == 0 then 0 else Fetches(es, k - 1) + if es[k - 1] == Fetch then 1 else 0
  }

  /** The last receive on this socket before position k, or -1. */
  function RecvAt(es: seq<Event>, fd: nat, k: nat): (q: int)
    requires k <= |es|
    ensures -1 <= q < k && (q >= 0 ==> es[q] == Recv(fd))
    ensures forall j :: q < j < k ==> es[j] != Recv(fd)
  {
    if k == 0 then -1 else if es[k - 1] == Recv(fd) then k - 1 else RecvAt(es, fd, k - 1)
  }

  /** The request that a push at position j adds, told from the order of events. */
  predicate PushedAt(es: seq<Event>, j: nat, r: Request)
    requires Runnable(Boot(), es) && j < |es|
  {
    && es[j] == Push(r.fd, r.tid, r.unit, r.local)
    && var s, q := StateAt(Boot(), es, j), RecvAt(es, r.fd, j);
       && r.fd in s.conns && r.conn == s.conns[r.fd] && r.serial == s.issued && |s.queue| < QUEUE_LEN
       && q >= 0 && r.captured == Retirements(es, q)
  }

  predicate CameIn(es: seq<Event>, k: nat, r: Request)
    requires Runnable(Boot(), es) && k <= |es|
  {
    exists j :: 0 <= j < k && PushedAt(es, j, r)
  }

  /** What is sampled for an open connection is the number of retirements before its latest receive. */
  predicate Sampled(es: seq<Event>, k: nat)
    requires Runnable(Boot(), es) && k <= |es|
  {
    var s := StateAt(Boot(), es, k);
    && (forall c :: c in s.sampled ==> c < s.admitted)
    && (forall fd :: fd in s.conns ==> s.conns[fd] < s.admitted)
    && (forall fd, gd :: fd in s.conns && gd in s.conns && s.conns[fd] == s.conns[gd] ==> fd == gd)
    && (forall fd :: fd in s.conns && s.conns[fd] in s.sampled ==>
          RecvAt(es, fd, k) >= 0 && s.sampled[s.conns[fd]] == Retirements(es, RecvAt(es, fd, k)))
  }

  lemma {:induction false} SampledNext(es: seq<Event>, k: nat)
    requires Runnable(Boot(), es) && k < |es| && Sampled(es, k)
    ensures Sampled(es, k + 1)
  {
    StateNext(Boot(), es, k);
    EntitledThroughout(es, k);
    var s, t := StateAt(Boot(), es, k), StateAt(Boot(), es, k + 1);
    SampledStep(s, es[k]);
    forall fd | fd in t.conns && t.conns[fd] in t.sampled
      ensures RecvAt(es, fd, k + 1) >= 0 && t.sampled[t.conns[fd]] == Retirements(es, RecvAt(es, fd, k + 1))
    {
      if es[k] != Recv(fd) {
        assert RecvAt(es, fd, k + 1) == RecvAt(es, fd, k);
        assert fd in s.conns && s.conns[fd] == t.conns[fd];
      }
    }
  }

  /** What a step does to connections and samples. */
  lemma {:induction false} SampledStep(s: State, e: Event)
    requires Enabled(s, e)
    ensures var t := Step(s, e).state;
            match e {
              case Admit(fd) =>
                t.conns == s.conns[fd := s.admitted] && t.admitted == s.admitted + 1 && t.sampled == s.sampled
              case Recv(fd) =>
                t.conns == s.conns && t.admitted == s.admitted && t.sampled == s.sampled[s.conns[fd] := s.retired]
              case Retire(fd) => t.conns == s.conns - {fd} && t.admitted == s.admitted && t.sampled == s.sampled
              case _ => t.conns == s.conns && t.admitted == s.admitted && t.sampled == s.sampled
            }
  {
  }

  lemma {:induction false} SampledThroughout(es: seq<Event>, k: nat)
    requires Runnable(Boot(), es) && k <= |es|
    ensures Sampled(es, k)
  {
    if k > 0 {
      SampledThroughout(es, k - 1);
      SampledNext(es, k - 1);
    }
  }

  predicate QueueCameIn(es: seq<Event>, k: nat)
    requires Runnable(Boot(), es) && k <= |es|
  {
    var s := StateAt(Boot(), es, k);
    Once(s) && Next(s) == Fetches(es, k) && forall r :: r in s.queue ==> CameIn(es, k, r)
  }

  lemma {:induction false} CameInStays(es: seq<Event>, k: nat, r: Request)
    requires Runnable(Boot(), es) && k < |es| && CameIn(es, k, r)
    ensures CameIn(es, k + 1, r)
  {
    var j :| 0 <= j < k && PushedAt(es, j, r);
    assert 0 <= j < k + 1;
  }

  lemma {:induction false} QueueStep(s: State, e: Event)
    requires Enabled(s, e) && (e.Push? ==> s.conns[e.fd] in s.sampled)
    ensures var t := Step(s, e).state;
            match e {
              case Push(fd, tid, unit, local) =>
                if |s.queue| >= QUEUE_LEN then t.queue == s.queue && t.issued == s.issued
                else
                  && t.issued == s.issued + 1
                  && t.queue == s.queue + [Request(s.issued, s.conns[fd], fd, s.sampled[s.conns[fd]], tid, unit, local)]
              case Fetch => t.queue == s.queue[1..] && t.issued == s.issued
              case _ => t.queue == s.queue && t.issued == s.issued
            }
  {
  }

  lemma {:induction false} QueueCameInNext(es: seq<Event>, k: nat)
    requires Runnable(Boot(), es) && k < |es| && QueueCameIn(es, k)
    ensures QueueCameIn(es, k + 1)
  {
    StateNext(Boot(), es, k);
    var s, t := StateAt(Boot(), es, k), StateAt(Boot(), es, k + 1);
    StepOnce(s, es[k]);
    QueueStep(s, es[k]);
    SampledThroughout(es, k);
    forall r | r in t.queue
      ensures CameIn(es, k + 1, r)
    {
      if r in s.queue {
        CameInStays(es, k, r);
      } else {
        assert PushedAt(es, k, r);
      }
    }
  }

  lemma {:induction false} QueueCameInThroughout(es: seq<Event>, k: nat)
    requires Runnable(Boot(), es) && k <= |es|
    ensures QueueCameIn(es, k)
  {
    if k == 0 {
      BootOnce();
    } else {
      QueueCameInThroughout(es, k - 1);
      QueueCameInNext(es, k - 1);
    }
  }

  /**
   From power-up, over every interleaving: the fetches take the requests in the order in which they found room in
   the queue, none left out, each as it was pushed, with the number of retirements before its bytes were received.
   */
  lemma {:induction false} FetchedInOrder(es: seq<Event>, f: nat)
    requires Runnable(Boot(), es) && f < |es| && es[f] == Fetch
    ensures FetchedAt(es, f).serial == Fetches(es, f) && CameIn(es, f, FetchedAt(es, f))
  {
    QueueCameInThroughout(es, f);
    StateNext(Boot(), es, f);
    assert FetchedAt(es, f) in StateAt(Boot(), es, f).queue;
  }
}

/**
 The Modbus TCP gateway's transaction protocol (main/bridge/modbus_tcp.c, main/bridge/tcp_server.c):
 many TCP masters, one RS-485 bus, one worker, and one set of "pending" fields that addresses
 whatever reply comes back from the bus.

 The receiver tasks, the worker task and the UART task interleave freely; every event below is one
 stretch of code between two points where another task can get in. In particular building a reply
 (which reads the pending transaction id and releases the worker) and sending it (which reads the
 pending socket and generation) are two events.
 */
module Gateway {
  import opened Bytes
  import opened Options

  const QUEUE_LEN := 10
  const GENERATIONS := 0x1_0000_0000
  const NO_SOCK := -1

  /**
   A request on the packet queue. `captured` is the number of connections the descriptor had
   retired when the bytes were received; what the code stores is that number modulo 2^32.
   `conn` identifies the connection for the proofs only: the code knows just the fd.
   */
  datatype Request = Request(serial: nat, conn: nat, fd: nat, captured: nat, tid: Word, unit: Byte, local: bool)

  datatype Worker = Idle | Fetched(r: Request) | Waiting(r: Request)

  datatype Uart = Quiet | Replying(origin: Request, tid: Word)

  /** `adopted` and `titled` record which requests the pending fields were last taken from; no step reads them. */
  datatype State = State(
    conns: map<nat, nat>, closing: set<nat>, sampled: map<nat, nat>, admitted: nat, retired: nat,
    queue: seq<Request>, issued: nat,
    worker: Worker, bus: set<Request>, uart: Uart,
    pendingSock: int, pendingGeneration: nat, pendingTid: Word,
    adopted: Option<Request>, titled: Option<Request>)

  datatype Event =
    | Admit(fd: nat)
    | Recv(fd: nat)
    | Push(fd: nat, tid: Word, unit: Byte, local: bool)
    | Fetch
    | AnswerLocally
    | Convert(ok: bool, sent: bool)
    | GiveUp
    | BuildReply(origin: Request)
    | SendReply
    | CloseHook(fd: nat)
    | Retire(fd: nat)

  /** Bytes written to a client: the connection they reach, the header they carry, the request they answer. */
  datatype Delivery = Delivery(conn: nat, tid: Word, unit: Byte, answers: Request)

  datatype Outcome = Outcome(state: State, delivered: seq<Delivery>)

  function Boot(): State {
    State(map[], {}, map[], 0, 0, [], 0, Idle, {}, Quiet, NO_SOCK, 0, 0, None, None)
  }

  function Generation(retirements: nat): nat {
    retirements % GENERATIONS
  }

  /** tcp_server_send_to_captured_client: the generation must match, the socket must be a client's. */
  predicate Sendable(s: State, sock: int, generation: nat) {
    generation == Generation(s.retired) && sock >= 0 && sock in s.conns
  }

  function Send(s: State, sock: int, generation: nat, tid: Word, answers: Request): seq<Delivery> {
    if Sendable(s, sock, generation) then [Delivery(s.conns[sock], tid, answers.unit, answers)] else []
  }

  predicate Enabled(s: State, e: Event) {
    match e
    case Admit(fd) => fd !in s.conns
    case Recv(fd) => fd in s.conns && fd !in s.closing
    case Push(fd, _, _, _) => fd in s.conns && fd !in s.closing && s.conns[fd] in s.sampled
    case Fetch => s.worker.Idle? && s.queue != []
    case AnswerLocally => s.worker.Fetched? && s.worker.r.local
    case Convert(_, _) => s.worker.Fetched? && !s.worker.r.local
    case GiveUp => s.worker.Waiting?
    case BuildReply(origin) => origin in s.bus && s.uart.Quiet?
    case SendReply => s.uart.Replying?
    case CloseHook(fd) => fd in s.conns && fd !in s.closing
    case Retire(fd) => fd in s.conns && fd in s.closing
  }

  function PushRequest(s: State, fd: nat, tid: Word, unit: Byte, local: bool): State
    requires fd in s.conns && s.conns[fd] in s.sampled
  {
    if |s.queue| >= QUEUE_LEN then s
    else
      var r := Request(s.issued, s.conns[fd], fd, s.sampled[s.conns[fd]], tid, unit, local);
      s.(queue := s.queue + [r], issued := s.issued + 1)
  }

  function FetchRequest(s: State): State
    requires s.queue != []
  {
    var r := s.queue[0];
    s.(queue := s.queue[1..], worker := Fetched(r),
       pendingSock := r.fd, pendingGeneration := Generation(r.captured), adopted := Some(r))
  }

  function ConvertRequest(s: State, ok: bool, sent: bool): State
    requires s.worker.Fetched?
  {
    var r := s.worker.r;
    if !ok then s.(worker := Idle)
    else
      var t := s.(pendingTid := r.tid, titled := Some(r));
      if sent then t.(worker := Waiting(r), bus := t.bus + {r}) else t.(worker := Idle)
  }

  /** A frame from the bus is dropped if nobody is connected; otherwise it ends whatever wait is on. */
  function BuildFrom(s: State, origin: Request): State {
    var t := s.(bus := s.bus - {origin});
    if s.conns == map[] then t
    else t.(uart := Replying(origin, s.pendingTid), worker := if s.worker.Waiting? then Idle else s.worker)
  }

  function ClearPending(s: State, fd: nat): State {
    var t := s.(closing := s.closing + {fd});
    if s.pendingSock != fd then t
    else t.(pendingTid := 0, pendingSock := NO_SOCK, pendingGeneration := 0, titled := None)
  }

  function Step(s: State, e: Event): Outcome
    requires Enabled(s, e)
  {
    match e
    case Admit(fd) => Outcome(s.(conns := s.conns[fd := s.admitted], admitted := s.admitted + 1), [])
    case Recv(fd) => Outcome(s.(sampled := s.sampled[s.conns[fd] := s.retired]), [])
    case Push(fd, tid, unit, local) => Outcome(PushRequest(s, fd, tid, unit, local), [])
    case Fetch => Outcome(FetchRequest(s), [])
    case AnswerLocally =>
      var r := s.worker.r;
      Outcome(s.(worker := Idle), Send(s, r.fd, Generation(r.captured), r.tid, r))
    case Convert(ok, sent) => Outcome(ConvertRequest(s, ok, sent), [])
    case GiveUp => Outcome(s.(worker := Idle), [])
    case BuildReply(origin) => Outcome(BuildFrom(s, origin), [])
    case SendReply =>
      Outcome(s.(uart := Quiet), Send(s, s.pendingSock, s.pendingGeneration, s.uart.tid, s.uart.origin))
    case CloseHook(fd) => Outcome(ClearPending(s, fd), [])
    case Retire(fd) => Outcome(s.(conns := s.conns - {fd}, closing := s.closing - {fd}, retired := s.retired + 1), [])
  }

  // ---- What every step keeps ----------------------------------------------------------------

  /** The capture rule: until somebody is retired, the fd still means the connection that asked. */
  predicate Captured(s: State, r: Request) {
    r.captured <= s.retired && (r.captured == s.retired ==> r.fd in s.conns && s.conns[r.fd] == r.conn)
  }

  /** Every request the gateway still holds was captured so. */
  predicate AllCaptured(s: State) {
    && (forall r :: r in s.queue ==> Captured(s, r))
    && (s.worker != Idle ==> Captured(s, s.worker.r))
    && (s.adopted.Some? ==> Captured(s, s.adopted.value))
  }

  /** The pending fields say what the adopted and the titled request say. */
  predicate Booked(s: State) {
    && (forall c :: c in s.sampled ==> s.sampled[c] <= s.retired)
    && (s.pendingSock != NO_SOCK ==>
          && s.adopted.Some?
          && s.pendingSock == s.adopted.value.fd
          && s.pendingGeneration == Generation(s.adopted.value.captured))
    && s.pendingTid == (if s.titled.Some? then s.titled.value.tid else 0)
  }

  predicate Sane(s: State) {
    AllCaptured(s) && Booked(s)
  }

  lemma {:induction false} BootIsSane()
    ensures Sane(Boot())
  {
  }

  lemma {:induction false} CapturedStays(s: State, e: Event, r: Request)
    requires Captured(s, r) && Enabled(s, e)
    ensures Captured(Step(s, e).state, r)
  {
  }

  lemma {:induction false} PushKeepsSane(s: State, fd: nat, tid: Word, unit: Byte, local: bool)
    requires Sane(s) && Enabled(s, Push(fd, tid, unit, local))
    ensures Sane(PushRequest(s, fd, tid, unit, local))
  {
  }

  lemma {:induction false} FetchKeepsSane(s: State)
    requires Sane(s) && s.queue != []
    ensures Sane(FetchRequest(s))
  {
    assert Captured(s, s.queue[0]);
    forall q | q in s.queue[1..]
      ensures Captured(FetchRequest(s), q)
    {
      assert Captured(s, q);
    }
  }

  /** Steps that leave the queue alone. */
  lemma {:induction false} OtherStepKeepsCaptures(s: State, e: Event)
    requires AllCaptured(s) && Enabled(s, e) && !e.Push? && !e.Fetch?
    ensures AllCaptured(Step(s, e).state)
  {
    var t := Step(s, e).state;
    forall r | r in t.queue
      ensures Captured(t, r)
    {
      CapturedStays(s, e, r);
    }
    if s.worker != Idle {
      CapturedStays(s, e, s.worker.r);
    }
    if s.adopted.Some? {
      CapturedStays(s, e, s.adopted.value);
    }
  }

  lemma {:induction false} OtherStepKeepsBooks(s: State, e: Event)
    requires Booked(s) && Enabled(s, e) && !e.Push? && !e.Fetch?
    ensures Booked(Step(s, e).state)
  {
  }

  lemma {:induction false} StepKeepsSane(s: State, e: Event)
    requires Sane(s) && Enabled(s, e)
    ensures Sane(Step(s, e).state)
  {
    match e
    case Push(fd, tid, unit, local) => PushKeepsSane(s, fd, tid, unit, local);
    case Fetch => FetchKeepsSane(s);
    case _ =>
      OtherStepKeepsCaptures(s, e);
      OtherStepKeepsBooks(s, e);
  }

  /** What the worker is at after each event: a fetch gives it a request; an answer, a request that cannot be
      converted or sent, a wait given up and a reply that finds somebody connected free it; nothing else does. */
  lemma {:induction false} WorkerStep(s: State, e: Event)
    requires Enabled(s, e)
    ensures Step(s, e).state.worker ==
            match e {
              case Fetch => Fetched(s.queue[0])
              case AnswerLocally => Idle
              case Convert(ok, sent) => if ok && sent then Waiting(s.worker.r) else Idle
              case GiveUp => Idle
              case BuildReply(_) => if s.conns != map[] && s.worker.Waiting? then Idle else s.worker
              case _ => s.worker
            }
  {
  }

  /** Generation equality is retirement-count equality, up to whole turns of the 32-bit counter. */
  lemma {:induction false} GenerationEquality(captured: nat, now: nat)
    requires captured <= now
    ensures Generation(captured) == Generation(now) <==> (now - captured) % GENERATIONS == 0
    ensures now - captured < GENERATIONS ==> (Generation(captured) == Generation(now) <==> captured == now)
  {
  }

  // ---- Where replies go ---------------------------------------------------------------------

  /** Fewer than 2^32 connections have been retired since the latest fetched request came in. */
  predicate Recent(s: State) {
    s.adopted.Some? ==> s.retired - s.adopted.value.captured < GENERATIONS
  }

  /**
   A reply leaves exactly when no connection at all has been retired since the latest fetched
   request was received and that request's own close hook has not run; it then reaches the
   connection that request came from, which is still open.
   */
  lemma {:induction false} ReplyReachesLatestRequester(s: State)
    requires Sane(s) && s.uart.Replying? && Recent(s)
    ensures Step(s, SendReply).delivered != [] <==>
            s.pendingSock != NO_SOCK && s.adopted.value.captured == s.retired
    ensures forall d :: d in Step(s, SendReply).delivered ==>
            d.conn == s.adopted.value.conn && d.conn in s.conns.Values && d.answers == s.uart.origin
  {
  }

  /** Requests the gateway answers itself are answered right or not at all. */
  lemma {:induction false} LocalAnswersAreRight(s: State)
    requires Sane(s) && Enabled(s, AnswerLocally) && s.retired - s.worker.r.captured < GENERATIONS
    ensures forall d :: d in Step(s, AnswerLocally).delivered ==> Right(d) && d.answers == s.worker.r
    ensures Step(s, AnswerLocally).delivered != [] <==> s.worker.r.captured == s.retired
  {
  }

  /** The promise: the answer reaches the connection that asked, under its own transaction and unit id. */
  predicate Right(d: Delivery) {
    d.conn == d.answers.conn && d.tid == d.answers.tid && d.unit == d.answers.unit
  }

  /** What has to hold when a reply is sent: the latest fetch was for the same connection, and the
      transaction id taken when the reply was built is the one of the request being answered. */
  predicate Matches(s: State) {
    s.uart.Replying? && s.adopted.Some? &&
    s.adopted.value.conn == s.uart.origin.conn && s.uart.tid == s.uart.origin.tid
  }

  predicate Runnable(s: State, es: seq<Event>)
    decreases |es|
  {
    es == [] || (Enabled(s, es[0]) && Runnable(Step(s, es[0]).state, es[1..]))
  }

  function Run(s: State, es: seq<Event>): Outcome
    requires Runnable(s, es)
    decreases |es|
  {
    if es == [] then Outcome(s, [])
    else
      var first := Step(s, es[0]);
      var rest := Run(first.state, es[1..]);
      Outcome(rest.state, first.delivered + rest.delivered)
  }

  /** No 2^32 retirements pass while a request is being worked on. */
  predicate NeverWraps(s: State, es: seq<Event>)
    requires Runnable(s, es)
    decreases |es|
  {
    Recent(s) && (s.worker != Idle ==> s.retired - s.worker.r.captured < GENERATIONS) &&
    (es != [] ==> NeverWraps(Step(s, es[0]).state, es[1..]))
  }

  /** A reply sent now would leave: the pending socket is set, and nobody has been retired since its request came. */
  predicate Leaves(s: State) {
    s.pendingSock != NO_SOCK && s.adopted.Some? && s.adopted.value.captured == s.retired
  }

  predicate EveryReplyMatches(s: State, es: seq<Event>)
    requires Runnable(s, es)
    decreases |es|
  {
    es == [] ||
    ((es[0] == SendReply && Leaves(s) ==> Matches(s)) && EveryReplyMatches(Step(s, es[0]).state, es[1..]))
  }

  predicate AllRight(ds: seq<Delivery>) {
    forall d :: d in ds ==> Right(d)
  }

  lemma {:induction false} StepRightExactly(s: State, e: Event)
    requires Sane(s) && Enabled(s, e) && Recent(s)
    requires s.worker != Idle ==> s.retired - s.worker.r.captured < GENERATIONS
    ensures AllRight(Step(s, e).delivered) <==> (e == SendReply && Leaves(s) ==> Matches(s))
  {
    match e
    case AnswerLocally => LocalAnswersAreRight(s);
    case SendReply =>
      ReplyReachesLatestRequester(s);
      var ds := Step(s, SendReply).delivered;
      if ds != [] {
        assert ds == [ds[0]];
        assert Right(ds[0]) <==> Matches(s);
      }
    case _ =>
  }

  /** Over every interleaving: all answers are right exactly when every reply matched as it was sent. */
  lemma {:induction false} RunRightExactly(s: State, es: seq<Event>)
    requires Sane(s) && Runnable(s, es) && NeverWraps(s, es)
    ensures AllRight(Run(s, es).delivered) <==> EveryReplyMatches(s, es)
    decreases |es|
  {
    if es != [] {
      var first := Step(s, es[0]);
      StepRightExactly(s, es[0]);
      StepKeepsSane(s, es[0]);
      RunRightExactly(first.state, es[1..]);
      var rest := Run(first.state, es[1..]).delivered;
      assert Run(s, es).delivered == first.delivered + rest;
      assert AllRight(first.delivered + rest) <==> AllRight(first.delivered) && AllRight(rest) by {
        forall d ensures d in first.delivered + rest <==> d in first.delivered || d in rest {
        }
      }
    }
  }

  // ---- The discipline that makes it true ----------------------------------------------------

  /** The slave answers while the gateway is still waiting for it, and the worker does not fetch
      the next request until that answer has been sent. */
  predicate Prompt(s: State, e: Event) {
    match e
    case BuildReply(origin) => s.worker == Waiting(origin)
    case Fetch => s.uart.Quiet?
    case _ => true
  }

  predicate PromptRun(s: State, es: seq<Event>)
    requires Runnable(s, es)
    decreases |es|
  {
    es == [] || (Prompt(s, es[0]) && PromptRun(Step(s, es[0]).state, es[1..]))
  }

  /** Under that discipline the pending fields belong to the request in hand, or have been cleared. */
  predicate OneInFlight(s: State) {
    && (s.worker != Idle ==> s.adopted == Some(s.worker.r) && s.uart.Quiet?)
    && (s.worker.Waiting? && s.pendingSock != NO_SOCK ==> s.titled == Some(s.worker.r))
    && (s.uart.Replying? && s.pendingSock != NO_SOCK ==>
       s.adopted == Some(s.uart.origin) && s.uart.tid == s.uart.origin.tid)
  }

  lemma {:induction false} PromptStepKeepsOneInFlight(s: State, e: Event)
    requires Sane(s) && OneInFlight(s) && Enabled(s, e) && Prompt(s, e)
    ensures OneInFlight(Step(s, e).state)
  {
  }

  lemma {:induction false} PromptRepliesMatch(s: State, es: seq<Event>)
    requires Sane(s) && OneInFlight(s) && Runnable(s, es) && PromptRun(s, es)
    ensures EveryReplyMatches(s, es)
    decreases |es|
  {
    if es != [] {
      StepKeepsSane(s, es[0]);
      PromptStepKeepsOneInFlight(s, es[0]);
      PromptRepliesMatch(Step(s, es[0]).state, es[1..]);
    }
  }

  /** From power-up, over every interleaving of sends, closes, replies and timeouts in which replies
      are prompt, every byte the gateway delivers answers the connection, transaction and unit that asked. */
  lemma {:induction false} PromptGatewayIsRight(es: seq<Event>)
    requires Runnable(Boot(), es) && PromptRun(Boot(), es) && NeverWraps(Boot(), es)
    ensures AllRight(Run(Boot(), es).delivered)
  {
    BootIsSane();
    PromptRepliesMatch(Boot(), es);
    RunRightExactly(Boot(), es);
  }

  lemma {:induction false} RetirementsGrow(s: State, e: Event)
    requires Enabled(s, e)
    ensures s.retired <= Step(s, e).state.retired
  {
  }

  lemma {:induction false} FewRetirementsNeverWrap(s: State, es: seq<Event>)
    requires Runnable(s, es) && Run(s, es).state.retired < GENERATIONS
    ensures NeverWraps(s, es) && s.retired < GENERATIONS
    decreases |es|
  {
    if es != [] {
      RetirementsGrow(s, es[0]);
      FewRetirementsNeverWrap(Step(s, es[0]).state, es[1..]);
    }
  }

  // ---- Where it is not true -----------------------------------------------------------------

  lemma {:induction false} RunCons(s: State, e: Event, es: seq<Event>)
    requires Enabled(s, e) && Runnable(Step(s, e).state, es)
    ensures Runnable(s, [e] + es)
    ensures Run(s, [e] + es).state == Run(Step(s, e).state, es).state
    ensures Run(s, [e] + es).delivered == Step(s, e).delivered + Run(Step(s, e).state, es).delivered
  {
  }

  /** Someone else's request is next in the queue and nobody has hung up since it was received. */
  predicate OtherClientIsNext(s: State, o: Request) {
    Sane(s) && s.worker == Waiting(o) && s.titled == Some(o) && o in s.bus && s.uart.Quiet? &&
    s.queue != [] && s.queue[0].conn != o.conn && s.queue[0].captured == s.retired
  }

  /** A reply that comes after the wait was given up goes to the next client, under the old transaction id. */
  lemma {:induction false} LateReplyGoesToTheNextClient(s: State, o: Request)
    requires OtherClientIsNext(s, o)
    ensures Runnable(s, [GiveUp, Fetch, BuildReply(o), SendReply])
    ensures Run(s, [GiveUp, Fetch, BuildReply(o), SendReply]).delivered ==
            [Delivery(s.queue[0].conn, o.tid, o.unit, o)]
  {
    assert Captured(s, s.queue[0]);
    var s1 := Step(s, GiveUp).state;
    var s2 := Step(s1, Fetch).state;
    var s3 := Step(s2, BuildReply(o)).state;
    var s4 := Step(s3, SendReply).state;
    assert Runnable(s4, []);
    RunCons(s3, SendReply, []);
    RunCons(s2, BuildReply(o), [SendReply]);
    RunCons(s1, Fetch, [BuildReply(o)] + [SendReply]);
    RunCons(s, GiveUp, [Fetch] + ([BuildReply(o)] + [SendReply]));
    assert [GiveUp, Fetch, BuildReply(o), SendReply] == [GiveUp] + ([Fetch] + ([BuildReply(o)] + [SendReply]));
  }

  /** The same happens to a reply that came in time, if the worker it released fetches before it is sent. */
  lemma {:induction false} ReleasedWorkerOvertakesTheReply(s: State, o: Request)
    requires OtherClientIsNext(s, o)
    ensures Runnable(s, [BuildReply(o), Fetch, SendReply])
    ensures Run(s, [BuildReply(o), Fetch, SendReply]).delivered ==
            [Delivery(s.queue[0].conn, o.tid, o.unit, o)]
  {
    var s1 := Step(s, BuildReply(o)).state;
    assert Captured(s, s.queue[0]);
    var s2 := Step(s1, Fetch).state;
    var s3 := Step(s2, SendReply).state;
    assert Runnable(s3, []);
    RunCons(s2, SendReply, []);
    RunCons(s1, Fetch, [SendReply]);
    RunCons(s, BuildReply(o), [Fetch] + [SendReply]);
    assert [BuildReply(o), Fetch, SendReply] == [BuildReply(o)] + ([Fetch] + [SendReply]);
  }

  /** Two clients, one request each: power-up leads to such a state. */
  lemma {:induction false} OtherClientCanBeNext() returns (es: seq<Event>, o: Request)
    ensures Runnable(Boot(), es) && OtherClientIsNext(Run(Boot(), es).state, o)
  {
    o := Request(0, 0, 3, 0, 1, 5, false);
    var s1 := Step(Boot(), Admit(3)).state;
    var s2 := Step(s1, Admit(4)).state;
    var s3 := Step(s2, Recv(3)).state;
    var s4 := Step(s3, Push(3, 1, 5, false)).state;
    var s5 := Step(s4, Recv(4)).state;
    var s6 := Step(s5, Push(4, 2, 7, false)).state;
    var s7 := Step(s6, Fetch).state;
    var s8 := Step(s7, Convert(true, true)).state;
    assert s8.worker == Waiting(o);
    BootIsSane();
    StepKeepsSane(Boot(), Admit(3));
    StepKeepsSane(s1, Admit(4));
    StepKeepsSane(s2, Recv(3));
    StepKeepsSane(s3, Push(3, 1, 5, false));
    StepKeepsSane(s4, Recv(4));
    StepKeepsSane(s5, Push(4, 2, 7, false));
    StepKeepsSane(s6, Fetch);
    StepKeepsSane(s7, Convert(true, true));
    assert Runnable(s8, []);
    RunCons(s7, Convert(true, true), []);
    es := [Convert(true, true)] + [];
    RunCons(s6, Fetch, es);
    es := [Fetch] + es;
    RunCons(s5, Push(4, 2, 7, false), es);
    es := [Push(4, 2, 7, false)] + es;
    RunCons(s4, Recv(4), es);
    es := [Recv(4)] + es;
    RunCons(s3, Push(3, 1, 5, false), es);
    es := [Push(3, 1, 5, false)] + es;
    RunCons(s2, Recv(3), es);
    es := [Recv(3)] + es;
    RunCons(s1, Admit(4), es);
    es := [Admit(4)] + es;
    RunCons(Boot(), Admit(3), es);
    es := [Admit(3)] + es;
  }
}

/**
 The retrying clients are clients of the gateway: every run of RetryBudget is a run of Gateway, each of its
 steps a few of the gateway's, and a client is served exactly when the gateway delivers to it.
 */
module RetryGateway {
  import opened Bytes
  import opened Options
  import R = RetryBudget
  import G = Gateway

  /** The transaction id and the unit of an attempt; every attempt has its own. */
  datatype Ask = Ask(tid: Word, unit: Byte)

  /** What each client asked for last. */
  function Asked(asked: seq<Ask>, e: R.Event, a: Ask): seq<Ask> {
    if e.Attempt? && e.i < |asked| then asked[e.i := a] else asked
  }

  /** Client i is connection i on socket i, and open until it closes. */
  function Conns(cs: seq<R.Client>): map<nat, nat> {
    map i | 0 <= i < |cs| && !cs[i].status.Closed? :: i
  }

  /** A gateway request of client i. */
  predicate Carries(r: G.Request, s: R.State, asked: seq<Ask>, i: nat) {
    && i < |s.clients| == |asked| && s.clients[i].status.Outstanding?
    && r.conn == i && r.fd == i && r.captured == s.clients[i].status.captured && !r.local
    && r.tid == asked[i].tid && r.unit == asked[i].unit
  }

  predicate QueueCarries(g: G.State, s: R.State, asked: seq<Ask>) {
    |g.queue| == |s.queue| && forall j :: 0 <= j < |s.queue| ==> Carries(g.queue[j], s, asked, s.queue[j])
  }

  predicate WorkerCarries(g: G.State, s: R.State, asked: seq<Ask>) {
    if s.worker.None? then g.worker == G.Idle
    else
      && g.worker.Waiting? && Carries(g.worker.r, s, asked, s.worker.value) && g.worker.r in g.bus
      && g.adopted == Some(g.worker.r) && g.titled == Some(g.worker.r) && g.pendingSock == s.worker.value
  }

  predicate Related(g: G.State, s: R.State, asked: seq<Ask>) {
    && G.Sane(g) && R.Lined(s) && R.Budgeted(s) && |asked| == |s.clients|
    && g.conns == Conns(s.clients) && g.closing == {} && g.retired == s.closes && g.uart == G.Quiet
    && QueueCarries(g, s, asked) && WorkerCarries(g, s, asked)
  }

  // ---- One step at a time -------------------------------------------------------------------

  /** What the gateway does, and what it delivers. */
  datatype Played = Played(state: G.State, delivered: seq<G.Delivery>)

  ghost predicate Plays(g: G.State, es: seq<G.Event>, p: Played) {
    G.Runnable(g, es) && G.Run(g, es) == G.Outcome(p.state, p.delivered)
  }

  lemma {:induction false} PlayTwo(g: G.State, e: G.Event, f: G.Event)
    requires G.Enabled(g, e) && G.Enabled(G.Step(g, e).state, f)
    ensures var h := G.Step(g, e).state;
            Plays(g, [e, f], Played(G.Step(h, f).state, G.Step(g, e).delivered + G.Step(h, f).delivered))
  {
    var h := G.Step(g, e).state;
    G.RunCons(h, f, []);
    G.RunCons(g, e, [f] + []);
    assert [e] + ([f] + []) == [e, f];
  }

  lemma {:induction false} SameConns(cs: seq<R.Client>, i: nat, c: R.Client)
    requires i < |cs| && (c.status.Closed? <==> cs[i].status.Closed?)
    ensures Conns(cs[i := c]) == Conns(cs)
  {
  }

  lemma {:induction false} OneConnLess(cs: seq<R.Client>, i: nat, c: R.Client)
    requires i < |cs| && c.status.Closed?
    ensures Conns(cs[i := c]) == Conns(cs) - {i}
  {
  }

  /** Client i alone has changed, and what it asks for. */
  predicate Elsewhere(s: R.State, t: R.State, asked: seq<Ask>, next: seq<Ask>, i: nat) {
    && i < |s.clients| == |t.clients| == |asked| == |next|
    && t.clients == s.clients[i := t.clients[i]] && next == asked[i := next[i]]
  }

  /** Requests of clients in line are not touched by a change to another client. */
  lemma {:induction false} StillCarries(g: G.State, s: R.State, t: R.State, asked: seq<Ask>, next: seq<Ask>, i: nat)
    requires QueueCarries(g, s, asked) && Elsewhere(s, t, asked, next, i) && i !in s.queue
    ensures forall j :: 0 <= j < |s.queue| ==> Carries(g.queue[j], t, next, s.queue[j])
  {
    forall j | 0 <= j < |s.queue|
      ensures Carries(g.queue[j], t, next, s.queue[j])
    {
      assert s.queue[j] in s.queue;
    }
  }

  lemma {:induction false} WorkerStays(
      g: G.State, k: G.State, s: R.State, t: R.State, asked: seq<Ask>, next: seq<Ask>, i: nat)
    requires WorkerCarries(g, s, asked) && Elsewhere(s, t, asked, next, i)
    requires t.worker == s.worker && (s.worker.Some? ==> s.worker.value != i)
    requires k.worker == g.worker && k.bus == g.bus && k.adopted == g.adopted
    requires s.worker.Some? ==> k.titled == g.titled && k.pendingSock == g.pendingSock
    ensures WorkerCarries(k, t, next)
  {
  }

  lemma {:induction false} QueueGrows(g: G.State, k: G.State, s: R.State, asked: seq<Ask>, i: nat, a: Ask)
    requires QueueCarries(g, s, asked) && |asked| == |s.clients| && R.Enabled(s, R.Attempt(i)) && i !in s.queue
    requires k.queue == g.queue + if |g.queue| < G.QUEUE_LEN
            then [G.Request(g.issued, i, i, s.closes, a.tid, a.unit, false)] else []
    ensures QueueCarries(k, R.Step(s, R.Attempt(i)), asked[i := a])
  {
    StillCarries(g, s, R.Step(s, R.Attempt(i)), asked, asked[i := a], i);
  }

  /** Nothing but the queue and what a hang-up touches. */
  predicate SameElse(g: G.State, k: G.State) {
    && k.conns == g.conns && k.closing == g.closing && k.retired == g.retired && k.uart == g.uart
    && k.worker == g.worker && k.bus == g.bus && k.adopted == g.adopted
    && k.titled == g.titled && k.pendingSock == g.pendingSock
  }

  lemma {:induction false} PushMeans(h: G.State, i: nat, a: Ask)
    requires G.Sane(h) && G.Enabled(h, G.Push(i, a.tid, a.unit, false)) && h.conns[i] == i && h.sampled[i] == h.retired
    ensures var k := G.Step(h, G.Push(i, a.tid, a.unit, false)).state;
            && G.Sane(k) && SameElse(h, k)
            && k.queue == h.queue + if |h.queue| < G.QUEUE_LEN
               then [G.Request(h.issued, i, i, h.retired, a.tid, a.unit, false)] else []
  {
    G.StepKeepsSane(h, G.Push(i, a.tid, a.unit, false));
  }

  /** A received request is queued if there is room, and changes nothing else that matters here. */
  lemma {:induction false} ReceivePlays(g: G.State, i: nat, a: Ask) returns (k: G.State)
    requires G.Sane(g) && i in g.conns && g.conns[i] == i && i !in g.closing
    ensures Plays(g, [G.Recv(i), G.Push(i, a.tid, a.unit, false)], Played(k, []))
    ensures G.Sane(k) && SameElse(g, k)
    ensures k.queue == g.queue + if |g.queue| < G.QUEUE_LEN
            then [G.Request(g.issued, i, i, g.retired, a.tid, a.unit, false)] else []
  {
    var h := G.Step(g, G.Recv(i)).state;
    G.StepKeepsSane(g, G.Recv(i));
    PushMeans(h, i, a);
    PlayTwo(g, G.Recv(i), G.Push(i, a.tid, a.unit, false));
    k := G.Step(h, G.Push(i, a.tid, a.unit, false)).state;
  }

  lemma {:induction false} AttemptMeans(s: R.State, i: nat)
    requires R.Enabled(s, R.Attempt(i))
    ensures var t := R.Step(s, R.Attempt(i));
            && |t.clients| == |s.clients| && t.clients == s.clients[i := t.clients[i]]
            && t.worker == s.worker && t.closes == s.closes
            && !t.clients[i].status.Closed? && !s.clients[i].status.Closed?
  {
  }

  lemma {:induction false} AttemptRelates(
      g: G.State, k: G.State, s: R.State, t: R.State, asked: seq<Ask>, next: seq<Ask>, i: nat)
    requires Related(g, s, asked) && R.Lined(t) && R.Budgeted(t) && G.Sane(k) && QueueCarries(k, t, next)
    requires Elsewhere(s, t, asked, next, i) && i !in s.Line()
    requires t.worker == s.worker && t.closes == s.closes
    requires !t.clients[i].status.Closed? && !s.clients[i].status.Closed?
    requires SameElse(g, k)
    ensures Related(k, t, next)
  {
    SameConns(s.clients, i, t.clients[i]);
    NotWorking(s, i);
    WorkerStays(g, k, s, t, asked, next, i);
  }

  lemma {:induction false} AttemptPlays(g: G.State, s: R.State, asked: seq<Ask>, i: nat, a: Ask) returns (p: Played)
    requires Related(g, s, asked) && R.Enabled(s, R.Attempt(i))
    ensures Plays(g, [G.Recv(i), G.Push(i, a.tid, a.unit, false)], p) && p.delivered == [] &&
            Related(p.state, R.Step(s, R.Attempt(i)), asked[i := a])
  {
    R.StepLines(s, R.Attempt(i));
    assert i in g.conns;
    var k := ReceivePlays(g, i, a);
    p := Played(k, []);
    PushedRelates(g, k, s, asked, i, a);
  }

  lemma {:induction false} PushedRelates(g: G.State, k: G.State, s: R.State, asked: seq<Ask>, i: nat, a: Ask)
    requires Related(g, s, asked) && R.Enabled(s, R.Attempt(i)) && i !in s.Line() && G.Sane(k) && SameElse(g, k)
    requires k.queue == g.queue + if |g.queue| < G.QUEUE_LEN
            then [G.Request(g.issued, i, i, g.retired, a.tid, a.unit, false)] else []
    ensures Related(k, R.Step(s, R.Attempt(i)), asked[i := a])
  {
    AttemptMeans(s, i);
    R.StepKeepsLine(s, R.Attempt(i));
    R.StepKeepsBudget(s, R.Attempt(i));
    QueueGrows(g, k, s, asked, i, a);
    AttemptRelates(g, k, s, R.Step(s, R.Attempt(i)), asked, asked[i := a], i);
  }

  lemma {:induction false} NotWorking(s: R.State, i: nat)
    requires i !in s.Line()
    ensures s.worker.Some? ==> s.worker.value != i
  {
    if s.worker.Some? {
      assert s.Line()[0] == s.worker.value;
    }
  }

  lemma {:induction false} FetchPlays(g: G.State, s: R.State, asked: seq<Ask>) returns (p: Played)
    requires Related(g, s, asked) && R.Enabled(s, R.Fetch)
    ensures Plays(g, [G.Fetch, G.Convert(true, true)], p) && p.delivered == [] &&
            Related(p.state, R.Step(s, R.Fetch), asked)
  {
    R.StepKeepsLine(s, R.Fetch);
    R.StepKeepsBudget(s, R.Fetch);
    var r := g.queue[0];
    assert Carries(r, s, asked, s.queue[0]);
    var h := G.Step(g, G.Fetch).state;
    G.StepKeepsSane(g, G.Fetch);
    G.StepKeepsSane(h, G.Convert(true, true));
    PlayTwo(g, G.Fetch, G.Convert(true, true));
    p := Played(G.Step(h, G.Convert(true, true)).state, []);
  }

  /** The answer is delivered exactly if the client counts as served, to that client and under the id and unit
      of its own attempt. */
  lemma {:induction false} AnswerPlays(g: G.State, s: R.State, asked: seq<Ask>) returns (p: Played)
    requires Related(g, s, asked) && R.Enabled(s, R.Answer) && |s.clients| < G.GENERATIONS
    ensures Plays(g, [G.BuildReply(g.worker.r), G.SendReply], p) && Related(p.state, R.Step(s, R.Answer), asked)
    ensures var i, r := s.worker.value, g.worker.r;
            && Carries(r, s, asked, i)
            && p.delivered == if s.clients[i].status.captured == s.closes
                              then [G.Delivery(i, asked[i].tid, asked[i].unit, r)] else []
  {
    var i, r := s.worker.value, g.worker.r;
    var t := R.Step(s, R.Answer);
    R.StepLines(s, R.Answer);
    R.StepKeepsLine(s, R.Answer);
    R.StepKeepsBudget(s, R.Answer);
    SameConns(s.clients, i, t.clients[i]);
    assert i in g.conns;
    var h := G.Step(g, G.BuildReply(r)).state;
    G.StepKeepsSane(g, G.BuildReply(r));
    G.StepKeepsSane(h, G.SendReply);
    FewRetired(s);
    G.ReplyReachesLatestRequester(h);
    PlayTwo(g, G.BuildReply(r), G.SendReply);
    p := Played(G.Step(h, G.SendReply).state, G.Step(h, G.SendReply).delivered);
    StillCarries(g, s, t, asked, asked, i);
    assert s.queue == s.Line()[1..];
  }

  lemma {:induction false} FewRetired(s: R.State)
    requires R.Budgeted(s)
    ensures s.closes <= |s.clients|
  {
  }

  lemma {:induction false} HungUpAndRetired(g: G.State, i: nat)
    requires G.Sane(g) && i in g.conns && g.closing == {}
    ensures var h := G.Step(g, G.CloseHook(i)).state;
            && G.Enabled(h, G.Retire(i))
            && var k := G.Step(h, G.Retire(i)).state;
               && G.Sane(k) && k.conns == g.conns - {i} && k.closing == {} && k.retired == g.retired + 1 &&
                  k.uart == g.uart
               && k.queue == g.queue && k.worker == g.worker && k.bus == g.bus && k.adopted == g.adopted
               && (g.pendingSock != i ==> k.titled == g.titled && k.pendingSock == g.pendingSock)
  {
    var h := G.Step(g, G.CloseHook(i)).state;
    G.StepKeepsSane(g, G.CloseHook(i));
    G.StepKeepsSane(h, G.Retire(i));
  }

  lemma {:induction false} HangUpPlays(g: G.State, i: nat) returns (k: G.State)
    requires G.Sane(g) && i in g.conns && g.closing == {}
    ensures Plays(g, [G.CloseHook(i), G.Retire(i)], Played(k, []))
    ensures k == G.Step(G.Step(g, G.CloseHook(i)).state, G.Retire(i)).state
  {
    HungUpAndRetired(g, i);
    PlayTwo(g, G.CloseHook(i), G.Retire(i));
    k := G.Step(G.Step(g, G.CloseHook(i)).state, G.Retire(i)).state;
  }

  lemma {:induction false} ClosedRelates(g: G.State, k: G.State, s: R.State, asked: seq<Ask>, i: nat)
    requires Related(g, s, asked) && R.Enabled(s, R.Close(i)) && i !in s.Line() && G.Sane(k)
    requires k.conns == g.conns - {i} && k.closing == {} && k.retired == g.retired + 1 && k.uart == g.uart
    requires k.queue == g.queue && k.worker == g.worker && k.bus == g.bus && k.adopted == g.adopted
    requires g.pendingSock != i ==> k.titled == g.titled && k.pendingSock == g.pendingSock
    ensures Related(k, R.Step(s, R.Close(i)), asked)
  {
    var t := R.Step(s, R.Close(i));
    R.StepKeepsLine(s, R.Close(i));
    R.StepKeepsBudget(s, R.Close(i));
    OneConnLess(s.clients, i, t.clients[i]);
    NotWorking(s, i);
    StillCarries(g, s, t, asked, asked, i);
    WorkerStays(g, k, s, t, asked, asked, i);
  }

  lemma {:induction false} ClosePlays(g: G.State, s: R.State, asked: seq<Ask>, i: nat) returns (p: Played)
    requires Related(g, s, asked) && R.Enabled(s, R.Close(i))
    ensures Plays(g, [G.CloseHook(i), G.Retire(i)], p) && p.delivered == [] &&
            Related(p.state, R.Step(s, R.Close(i)), asked)
  {
    R.StepLines(s, R.Close(i));
    assert i in g.conns;
    HungUpAndRetired(g, i);
    var k := HangUpPlays(g, i);
    p := Played(k, []);
    ClosedRelates(g, k, s, asked, i);
  }

  // ---- Whole runs ---------------------------------------------------------------------------

  /** What a client sees of a reply. */
  datatype Reply = Reply(client: nat, tid: Word, unit: Byte)

  /** What an event is owed: a client that is served by it gets the answer to its own last attempt. */
  function Owed(s: R.State, asked: seq<Ask>, e: R.Event): seq<Reply>
    requires R.Enabled(s, e) && |asked| == |s.clients|
  {
    if !e.Answer? then []
    else
      var i := s.worker.value;
      if s.clients[i].status.captured == s.closes then [Reply(i, asked[i].tid, asked[i].unit)] else []
  }

  /** The clients served in a run in which attempt after attempt carries `asks`, in order, with the id and unit of
      the attempt that each had made last. */
  function ServedIn(s: R.State, es: seq<R.Event>, asks: seq<Ask>, asked: seq<Ask>): seq<Reply>
    requires R.Runnable(s, es) && |asks| == |es| && |asked| == |s.clients|
    decreases |es|
  {
    if es == [] then []
    else
      Owed(s, asked, es[0]) + ServedIn(R.Step(s, es[0]), es[1..], asks[1..], Asked(asked, es[0], asks[0]))
  }

  function Replies(ds: seq<G.Delivery>): seq<Reply> {
    if ds == [] then [] else [Reply(ds[0].conn, ds[0].tid, ds[0].unit)] + Replies(ds[1..])
  }

  lemma {:induction false} RepliesJoin(a: seq<G.Delivery>, b: seq<G.Delivery>)
    ensures Replies(a + b) == Replies(a) + Replies(b)
  {
    if a == [] {
      assert a + b == b;
    } else {
      assert (a + b)[1..] == a[1..] + b;
      RepliesJoin(a[1..], b);
    }
  }

  lemma {:induction false} PlayOn(g: G.State, a: seq<G.Event>, p: Played, b: seq<G.Event>, q: Played)
    requires Plays(g, a, p) && Plays(p.state, b, q)
    ensures Plays(g, a + b, Played(q.state, p.delivered + q.delivered))
    decreases |a|
  {
    if a == [] {
      assert a + b == b && p.delivered + q.delivered == q.delivered;
    } else {
      var first := G.Step(g, a[0]);
      var rest := G.Run(first.state, a[1..]);
      assert (a + b)[1..] == a[1..] + b;
      PlayOn(first.state, a[1..], Played(rest.state, rest.delivered), b, q);
      Associative(first.delivered, rest.delivered, q.delivered);
    }
  }

  /** One step of the clients, as the gateway plays it. */
  lemma {:induction false} StepPlays(g: G.State, s: R.State, asked: seq<Ask>, e: R.Event, a: Ask)
    returns (es: seq<G.Event>, p: Played)
    requires Related(g, s, asked) && R.Enabled(s, e) && |s.clients| < G.GENERATIONS
    ensures Plays(g, es, p) && Related(p.state, R.Step(s, e), Asked(asked, e, a)) && G.AllRight(p.delivered)
    ensures Replies(p.delivered) == Owed(s, asked, e)
  {
    match e
    case Attempt(i) =>
      es := [G.Recv(i), G.Push(i, a.tid, a.unit, false)];
      p := AttemptPlays(g, s, asked, i, a);
    case Fetch =>
      es := [G.Fetch, G.Convert(true, true)];
      p := FetchPlays(g, s, asked);
    case Answer =>
      es := [G.BuildReply(g.worker.r), G.SendReply];
      p := AnswerPlays(g, s, asked);
      if p.delivered != [] {
        assert p.delivered[1..] == [];
      }
    case Close(i) =>
      es := [G.CloseHook(i), G.Retire(i)];
      p := ClosePlays(g, s, asked, i);
  }

  lemma {:induction false} RunPlays(g: G.State, s: R.State, es: seq<R.Event>, asks: seq<Ask>, asked: seq<Ask>)
    returns (gs: seq<G.Event>, p: Played, last: seq<Ask>)
    requires Related(g, s, asked) && R.Runnable(s, es) && |asks| == |es| && |s.clients| < G.GENERATIONS
    ensures Plays(g, gs, p) && Related(p.state, R.Run(s, es), last)
    ensures G.AllRight(p.delivered) && Replies(p.delivered) == ServedIn(s, es, asks, asked)
    decreases |es|
  {
    gs, p, last := [], Played(g, []), asked;
    if es != [] {
      var gs', p' := StepPlays(g, s, asked, es[0], asks[0]);
      R.StepKeepsLine(s, es[0]);
      var rest, q;
      rest, q, last := RunPlays(p'.state, R.Step(s, es[0]), es[1..], asks[1..], Asked(asked, es[0], asks[0]));
      PlayOn(g, gs', p', rest, q);
      RepliesJoin(p'.delivered, q.delivered);
      gs, p := gs' + rest, Played(q.state, p'.delivered + q.delivered);
      BothRight(p'.delivered, q.delivered);
    }
  }

  lemma {:induction false} BothRight(a: seq<G.Delivery>, b: seq<G.Delivery>)
    requires G.AllRight(a) && G.AllRight(b)
    ensures G.AllRight(a + b)
  {
  }

  function Connected(n: nat): G.State {
    G.Boot().(conns := Conns(R.Start(n).clients), admitted := n)
  }

  lemma {:induction false} ConnectOne(n: nat)
    ensures Plays(Connected(n), [G.Admit(n)], Played(Connected(n + 1), []))
  {
    var g := Connected(n);
    assert G.Step(g, G.Admit(n)).state.conns == Connected(n + 1).conns;
    assert G.Runnable(G.Step(g, G.Admit(n)).state, []) && [G.Admit(n)][1..] == [];
  }

  lemma {:induction false} ConnectAll(n: nat) returns (gs: seq<G.Event>)
    ensures Plays(G.Boot(), gs, Played(Connected(n), []))
  {
    gs := [];
    if n == 0 {
      assert Connected(0).conns == G.Boot().conns;
    } else {
      gs := ConnectAll(n - 1);
      ConnectOne(n - 1);
      PlayOn(G.Boot(), gs, Played(Connected(n - 1), []), [G.Admit(n - 1)], Played(Connected(n), []));
      gs := gs + [G.Admit(n - 1)];
    }
  }

  /** What the clients have asked for before any of them has. */
  function Nothing(n: nat): seq<Ask> {
    seq(n, i => Ask(0, 0))
  }

  lemma {:induction false} ConnectedRelates(n: nat, asked: seq<Ask>)
    requires |asked| == n
    ensures Related(Connected(n), R.Start(n), asked)
  {
    R.Fresh(n);
    assert Conns(R.Start(n).clients) == Connected(n).conns;
  }

  lemma {:induction false} ConnectedPlays(n: nat, es: seq<R.Event>, asks: seq<Ask>)
    returns (gs: seq<G.Event>, p: Played, last: seq<Ask>)
    requires R.Runnable(R.Start(n), es) && |asks| == |es| && n < G.GENERATIONS
    ensures Plays(Connected(n), gs, p) && Related(p.state, R.Run(R.Start(n), es), last)
    ensures G.AllRight(p.delivered) && Replies(p.delivered) == ServedIn(R.Start(n), es, asks, Nothing(n))
  {
    ConnectedRelates(n, Nothing(n));
    gs, p, last := RunPlays(Connected(n), R.Start(n), es, asks, Nothing(n));
  }

  lemma {:induction false} AfterConnecting(n: nat, connect: seq<G.Event>, gs: seq<G.Event>, p: Played)
    requires Plays(G.Boot(), connect, Played(Connected(n), [])) && Plays(Connected(n), gs, p)
    ensures Plays(G.Boot(), connect + gs, p)
  {
    PlayOn(G.Boot(), connect, Played(Connected(n), []), gs, p);
    var none: seq<G.Delivery> := [];
    assert none + p.delivered == p.delivered;
  }

  /**
   Every run of the retrying clients, whatever transaction ids and units their attempts carry, is a run of the
   gateway from power-up. The gateway delivers exactly to the clients that count as served, in that order, each
   time under the id and unit of the attempt that client had made last, and as the answer to it.
   */
  lemma {:induction false} RetriesAreGatewayRuns(n: nat, es: seq<R.Event>, asks: seq<Ask>)
    returns (gs: seq<G.Event>, p: Played, last: seq<Ask>)
    requires R.Runnable(R.Start(n), es) && |asks| == |es| && n < G.GENERATIONS
    ensures Plays(G.Boot(), gs, p) && Related(p.state, R.Run(R.Start(n), es), last)
    ensures G.AllRight(p.delivered)
    ensures Replies(p.delivered) == ServedIn(R.Start(n), es, asks, Nothing(n))
  {
    var connect := ConnectAll(n);
    var fs;
    fs, p, last := ConnectedPlays(n, es, asks);
    AfterConnecting(n, connect, fs, p);
    gs := connect + fs;
  }
}

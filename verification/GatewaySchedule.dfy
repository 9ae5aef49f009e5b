/**
 When the gateway's replies are right, told from the order of events alone: where the fetches, conversions,
 hang-ups and retirements lie between a request and its reply.
 */
module GatewaySchedule {
  import opened Bytes
  import opened Options
  import opened Gateway

  function StateAt(s: State, es: seq<Event>, k: nat): State
    requires Runnable(s, es) && k <= |es|
    decreases k
  {
    if k == 0 then s else StateAt(Step(s, es[0]).state, es[1..], k - 1)
  }

  lemma {:induction false} StateNext(s: State, es: seq<Event>, k: nat)
    requires Runnable(s, es) && k < |es|
    ensures Enabled(StateAt(s, es, k), es[k])
    ensures StateAt(s, es, k + 1) == Step(StateAt(s, es, k), es[k]).state
    decreases k
  {
    if k > 0 {
      StateNext(Step(s, es[0]).state, es[1..], k - 1);
    } else {
      assert StateAt(s, es, 1) == StateAt(Step(s, es[0]).state, es[1..], 0);
    }
  }

  // ---- Positions ----------------------------------------------------------------------------

  /** The last fetch before position k, or -1. */
  function FetchAt(es: seq<Event>, k: nat): (f: int)
    requires k <= |es|
    ensures -1 <= f < k && (f >= 0 ==> es[f] == Fetch)
    ensures forall j :: f < j < k ==> es[j] != Fetch
  {
    if k == 0 then -1 else if es[k - 1] == Fetch then k - 1 else FetchAt(es, k - 1)
  }

  /** The last reply built before position k, or -1. */
  function BuildAt(es: seq<Event>, k: nat): (b: int)
    requires k <= |es|
    ensures -1 <= b < k && (b >= 0 ==> es[b].BuildReply?)
    ensures forall j :: b < j < k ==> !es[j].BuildReply?
  {
    if k == 0 then -1 else if es[k - 1].BuildReply? then k - 1 else BuildAt(es, k - 1)
  }

  function Retirements(es: seq<Event>, k: nat): nat
    requires k <= |es|
  {
    if k == 0 then 0 else Retirements(es, k - 1) + if es[k - 1].Retire? then 1 else 0
  }

  /** The request the fetch at position f takes off the queue. */
  function FetchedAt(es: seq<Event>, f: nat): Request
    requires Runnable(Boot(), es) && f < |es| && es[f] == Fetch
  {
    StateNext(Boot(), es, f);
    StateAt(Boot(), es, f).queue[0]
  }

  /** The client of the last fetched request has begun to hang up since. */
  predicate HungUp(es: seq<Event>, k: nat)
    requires Runnable(Boot(), es) && k <= |es|
  {
    var f := FetchAt(es, k);
    f >= 0 && exists j :: f < j < k && es[j] == CloseHook(FetchedAt(es, f).fd)
  }

  /** A hang-up at position j that clears the pending fields: the first of the last fetched client. */
  predicate ClearsAt(es: seq<Event>, j: nat)
    requires Runnable(Boot(), es) && j < |es|
  {
    var f := FetchAt(es, j);
    f >= 0 && es[j] == CloseHook(FetchedAt(es, f).fd) && !HungUp(es, j)
  }

  predicate ConvertsAt(es: seq<Event>, j: nat)
    requires j < |es|
  {
    es[j].Convert? && es[j].ok
  }

  /** The last event before position k that set or cleared the pending transaction id, or -1. */
  function TitleAt(es: seq<Event>, k: nat): (t: int)
    requires Runnable(Boot(), es) && k <= |es|
    ensures -1 <= t < k && (t >= 0 ==> ConvertsAt(es, t) || ClearsAt(es, t))
    ensures forall j :: t < j < k ==> !ConvertsAt(es, j) && !ClearsAt(es, j)
  {
    if k == 0 then -1 else if ConvertsAt(es, k - 1) || ClearsAt(es, k - 1) then k - 1 else TitleAt(es, k - 1)
  }

  /** The transaction id a reply built at position k is given. */
  function TitleTid(es: seq<Event>, k: nat): Word
    requires Runnable(Boot(), es) && k <= |es|
  {
    var t := TitleAt(es, k);
    if t >= 0 && ConvertsAt(es, t) && FetchAt(es, t) >= 0 then FetchedAt(es, FetchAt(es, t)).tid else 0
  }

  // ---- The pending fields, told from the positions -------------------------------------------

  predicate Addressed(es: seq<Event>, k: nat)
    requires Runnable(Boot(), es) && k <= |es|
  {
    var st, f := StateAt(Boot(), es, k), FetchAt(es, k);
    if f < 0 then st.adopted.None? && st.pendingSock == NO_SOCK && st.worker == Idle
    else
      var r := FetchedAt(es, f);
      && st.adopted == Some(r) && (st.worker != Idle ==> st.worker.r == r)
      && st.pendingSock == if HungUp(es, k) then NO_SOCK else r.fd
  }

  predicate Entitled(es: seq<Event>, k: nat)
    requires Runnable(Boot(), es) && k <= |es|
  {
    var st := StateAt(Boot(), es, k);
    && st.retired == Retirements(es, k) && st.pendingTid == TitleTid(es, k)
    && (st.uart.Replying? ==>
          var b := BuildAt(es, k);
          b >= 0 && es[b] == BuildReply(st.uart.origin) && st.uart.tid == TitleTid(es, b))
  }

  lemma {:induction false} HangingUp(es: seq<Event>, k: nat)
    requires Runnable(Boot(), es) && k < |es|
    ensures HungUp(es, k + 1) <==>
            es[k] != Fetch && (HungUp(es, k) || (FetchAt(es, k) >= 0 &&
                es[k] == CloseHook(FetchedAt(es, FetchAt(es, k)).fd)))
  {
    var f := FetchAt(es, k);
    if es[k] != Fetch && f >= 0 {
      assert FetchAt(es, k + 1) == f;
      if HungUp(es, k) {
        var j :| f < j < k && es[j] == CloseHook(FetchedAt(es, f).fd);
        assert f < j < k + 1;
      }
    }
  }

  lemma {:induction false} AddressedNext(es: seq<Event>, k: nat)
    requires Runnable(Boot(), es) && k < |es| && Addressed(es, k)
    ensures Addressed(es, k + 1)
  {
    StateNext(Boot(), es, k);
    HangingUp(es, k);
    var s := StateAt(Boot(), es, k);
    if es[k] == Fetch {
      assert FetchAt(es, k + 1) == k;
      assert FetchedAt(es, k) == s.queue[0];
    } else {
      assert FetchAt(es, k + 1) == FetchAt(es, k);
      OtherStepsAddress(s, es[k]);
    }
  }

  /** No step but a fetch changes whom replies are addressed to, except the hang-up of that client. */
  lemma {:induction false} OtherStepsAddress(s: State, e: Event)
    requires Enabled(s, e) && e != Fetch
    ensures var t := Step(s, e).state;
            && t.adopted == s.adopted && (t.worker != Idle ==> s.worker != Idle && t.worker.r == s.worker.r)
            && t.pendingSock == if e.CloseHook? && s.pendingSock == e.fd then NO_SOCK else s.pendingSock
  {
  }

  lemma {:induction false} AddressedThroughout(es: seq<Event>, k: nat)
    requires Runnable(Boot(), es) && k <= |es|
    ensures Addressed(es, k)
  {
    if k > 0 {
      AddressedThroughout(es, k - 1);
      AddressedNext(es, k - 1);
    }
  }

  /** What a step does to the retirements, the pending transaction id and the reply being sent. */
  lemma {:induction false} StepsTitle(s: State, e: Event)
    requires Enabled(s, e)
    ensures var t := Step(s, e).state;
            && t.retired == s.retired + (if e.Retire? then 1 else 0)
            && t.pendingTid == (if e.Convert? && e.ok then s.worker.r.tid
                                else if e.CloseHook? && s.pendingSock == e.fd then 0 else s.pendingTid)
            && (t.uart.Replying? ==>
                  if e.BuildReply? then t.uart == Replying(e.origin, s.pendingTid) else t.uart == s.uart)
  {
  }

  lemma {:induction false} ClearsExactly(es: seq<Event>, k: nat)
    requires Runnable(Boot(), es) && k < |es| && Addressed(es, k) && es[k].CloseHook?
    ensures ClearsAt(es, k) <==> StateAt(Boot(), es, k).pendingSock == es[k].fd
  {
  }

  lemma {:induction false} EntitledNext(es: seq<Event>, k: nat)
    requires Runnable(Boot(), es) && k < |es| && Addressed(es, k) && Entitled(es, k)
    ensures Entitled(es, k + 1)
  {
    StateNext(Boot(), es, k);
    var s := StateAt(Boot(), es, k);
    StepsTitle(s, es[k]);
    if es[k].CloseHook? {
      ClearsExactly(es, k);
    }
    if ConvertsAt(es, k) {
      assert TitleAt(es, k + 1) == k;
      assert FetchAt(es, k) >= 0;
    } else if ClearsAt(es, k) {
      assert TitleAt(es, k + 1) == k;
    } else {
      assert TitleAt(es, k + 1) == TitleAt(es, k);
    }
    if es[k].BuildReply? {
      assert BuildAt(es, k + 1) == k;
    } else {
      assert BuildAt(es, k + 1) == BuildAt(es, k);
    }
  }

  lemma {:induction false} EntitledThroughout(es: seq<Event>, k: nat)
    requires Runnable(Boot(), es) && k <= |es|
    ensures Entitled(es, k)
  {
    if k > 0 {
      EntitledThroughout(es, k - 1);
      AddressedThroughout(es, k - 1);
      EntitledNext(es, k - 1);
    }
  }

  // ---- Right exactly when --------------------------------------------------------------------

  /** The reply sent at position k leaves: the client of the last fetch has not hung up, and nobody has been
      retired since its request was received. */
  predicate LeavesAt(es: seq<Event>, k: nat)
    requires Runnable(Boot(), es) && k <= |es|
  {
    var f := FetchAt(es, k);
    f >= 0 && !HungUp(es, k) && FetchedAt(es, f).captured == Retirements(es, k)
  }

  /** The last fetch before the reply is sent was for the connection it answers, and the last conversion before
      it was built, with no clearing hang-up since, was of a request with its transaction id. */
  predicate FitsAt(es: seq<Event>, k: nat)
    requires Runnable(Boot(), es) && k <= |es|
  {
    var f, b := FetchAt(es, k), BuildAt(es, k);
    f >= 0 && b >= 0 && FetchedAt(es, f).conn == es[b].origin.conn && TitleTid(es, b) == es[b].origin.tid
  }

  lemma {:induction false} PositionsDecide(es: seq<Event>, k: nat)
    requires Runnable(Boot(), es) && k < |es| && es[k] == SendReply
    ensures var st := StateAt(Boot(), es, k);
            (Leaves(st) <==> LeavesAt(es, k)) && (Matches(st) <==> FitsAt(es, k))
  {
    StateNext(Boot(), es, k);
    AddressedThroughout(es, k);
    EntitledThroughout(es, k);
  }

  lemma {:induction false} MatchesByPosition(s: State, es: seq<Event>)
    requires Runnable(s, es)
    ensures EveryReplyMatches(s, es) <==>
            forall k :: 0 <= k < |es| && es[k] == SendReply && Leaves(StateAt(s, es, k)) ==> Matches(StateAt(s, es, k))
    decreases |es|
  {
    if es != [] {
      var next, rest := Step(s, es[0]).state, es[1..];
      MatchesByPosition(next, rest);
      assert StateAt(s, es, 0) == s;
      assert forall k :: 0 <= k < |rest| ==> rest[k] == es[k + 1] && StateAt(s, es, k + 1) == StateAt(next, rest, k);
      assert forall k :: 0 < k < |es| ==> es[k] == rest[k - 1] && StateAt(s, es, k) == StateAt(next, rest, k - 1);
    }
  }

  /**
   From power-up, over every interleaving: every answer reaches the connection that asked under its own
   transaction id exactly if each reply that leaves was sent after a last fetch for its own connection and
   built after a last conversion of a request with its transaction id.
   */
  lemma {:induction false} RightExactlyByPosition(es: seq<Event>)
    requires Runnable(Boot(), es) && NeverWraps(Boot(), es)
    ensures AllRight(Run(Boot(), es).delivered) <==>
            forall k :: 0 <= k < |es| && es[k] == SendReply && LeavesAt(es, k) ==> FitsAt(es, k)
  {
    BootIsSane();
    RunRightExactly(Boot(), es);
    MatchesByPosition(Boot(), es);
    forall k | 0 <= k < |es| && es[k] == SendReply
      ensures Leaves(StateAt(Boot(), es, k)) <==> LeavesAt(es, k)
      ensures Matches(StateAt(Boot(), es, k)) <==> FitsAt(es, k)
    {
      PositionsDecide(es, k);
    }
  }

  /** The request a conversion at position c puts on the bus. */
  predicate ConvertsRequest(es: seq<Event>, c: nat, o: Request)
    requires Runnable(Boot(), es) && c < |es|
  {
    ConvertsAt(es, c) && FetchAt(es, c) >= 0 && FetchedAt(es, FetchAt(es, c)) == o
  }

  /**
   When nobody else uses its transaction id, and it is not zero, a reply built at position b carries it exactly
   if neither another conversion nor a clearing hang-up lies between the request's own conversion and b.
   */
  lemma {:induction false} TitleKeptExactly(es: seq<Event>, c: nat, b: nat, o: Request)
    requires Runnable(Boot(), es) && c < b <= |es| && ConvertsRequest(es, c, o) && o.tid != 0
    requires forall j :: c < j < b && ConvertsAt(es, j) && FetchAt(es, j) >= 0 ==>
            FetchedAt(es, FetchAt(es, j)).tid != o.tid
    ensures TitleTid(es, b) == o.tid <==> forall j :: c < j < b ==> !ConvertsAt(es, j) && !ClearsAt(es, j)
  {
    var t := TitleAt(es, b);
    assert t >= c;
    if t > c {
      if ConvertsAt(es, t) {
        AddressedThroughout(es, t);
        StateNext(Boot(), es, t);
      }
    }
  }
}

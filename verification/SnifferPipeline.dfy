/**
 Around the sniffer's state machine (main/bridge/sniffer.c): gap-less buffers are taken apart before
 it, and behind it packets are numbered for the web client and fed to the register cache.
 */
module SnifferPipeline {
  import opened Bytes
  import opened Wire
  import opened Splitter
  import opened Sniffer
  import RegisterCache
  import CacheServer

  // ---- Buffers ------------------------------------------------------------------------------

  predicate NeedsSplit(f: Frame) {
    |f| > 8 && !Intact(f) && f[0] != 0xFF
  }

  /** One turn of the loop: the frames to dispatch, and what still has to be split. */
  datatype Turn = Turn(frames: seq<Frame>, tail: Frame)

  function BytesOf(ps: seq<Piece>): seq<Frame> {
    if ps == [] then [] else [ps[0].bytes] + BytesOf(ps[1..])
  }

  /** Several pieces: the last one goes round again if it may still hold frames. */
  function FromPieces(ps: seq<Piece>): Turn
    requires |ps| > 1
  {
    var n := |ps| - 1;
    if !ps[n].crcValid && NeedsSplit(ps[n].bytes) then Turn(BytesOf(ps[..n]), ps[n].bytes)
    else Turn(BytesOf(ps), [])
  }

  function TakeApart(buf: Frame, hint: bool): (t: Turn)
    ensures |t.tail| < |buf| || t.tail == []
    ensures t.tail != [] ==> NeedsSplit(t.tail)
  {
    var e := Strip(buf);
    var ps := if NeedsSplit(e) then Split(e, hint) else [];
    if |ps| <= 1 then Turn([buf], [])
    else
      SplitPartitions(e, 0, hint);
      SplitSettles(e, 0, hint, 0);
      LastPieceShorter(ps);
      FromPieces(ps)
  }

  lemma {:induction false} LastPieceShorter(ps: seq<Piece>)
    requires |ps| > 1
    ensures ps[0].bytes != [] ==> |ps[|ps| - 1].bytes| < |Join(ps)|
  {
    JoinSplitsAt(ps);
    assert ps[..|ps| - 1] == [ps[0]] + ps[..|ps| - 1][1..];
    JoinCons(ps[0], ps[..|ps| - 1][1..]);
  }

  lemma {:induction false} JoinSplitsAt(ps: seq<Piece>)
    requires ps != []
    ensures Join(ps) == Join(ps[..|ps| - 1]) + ps[|ps| - 1].bytes
  {
    if |ps| == 1 {
      assert ps[1..] == [];
    } else {
      var init := ps[..|ps| - 1];
      JoinSplitsAt(ps[1..]);
      assert ps[1..][..|ps| - 2] == init[1..];
      assert ps == [ps[0]] + ps[1..] && init == [ps[0]] + init[1..];
      JoinCons(ps[0], ps[1..]);
      JoinCons(ps[0], init[1..]);
    }
  }

  lemma {:induction false} FlattenBytes(ps: seq<Piece>)
    ensures Flatten(BytesOf(ps)) == Join(ps)
  {
    if ps != [] {
      FlattenBytes(ps[1..]);
      assert ([ps[0].bytes] + BytesOf(ps[1..]))[1..] == BytesOf(ps[1..]);
    }
  }

  lemma {:induction false} FromPiecesConserves(ps: seq<Piece>)
    requires |ps| > 1
    ensures Flatten(FromPieces(ps).frames) + FromPieces(ps).tail == Join(ps)
  {
    JoinSplitsAt(ps);
    FlattenBytes(ps);
    FlattenBytes(ps[..|ps| - 1]);
    assert Join(ps) + [] == Join(ps);
  }

  lemma {:induction false} WholeBuffer(buf: Frame)
    ensures Flatten([buf]) + [] == buf
  {
  }

  /** The frames of a turn and its tail are the buffer, less the arbitration bytes that were stripped. */
  lemma {:induction false} TurnConserves(buf: Frame, hint: bool)
    ensures var t := TakeApart(buf, hint);
            Flatten(t.frames) + t.tail == buf || Flatten(t.frames) + t.tail == Strip(buf)
  {
    var e := Strip(buf);
    var ps := if NeedsSplit(e) then Split(e, hint) else [];
    if |ps| <= 1 {
      WholeBuffer(buf);
    } else {
      SplitPartitions(e, 0, hint);
      FromPiecesConserves(ps);
    }
  }

  /** All the frames one buffer is dispatched as, for whatever hints the port gave turn by turn. */
  function Dispatched(buf: Frame, hints: seq<bool>): seq<Frame>
    decreases |buf|
  {
    var t := TakeApart(buf, hints != [] && hints[0]);
    if t.tail == [] then t.frames
    else t.frames + Dispatched(t.tail, if hints == [] then [] else hints[1..])
  }

  /** Eight bytes or fewer, one intact frame, and what still begins with arbitration are not taken apart. */
  lemma {:induction false} DispatchedWhole(buf: Frame, hints: seq<bool>)
    requires var e := Strip(buf); |e| <= 8 || Intact(e) || e[0] == 0xFF
    ensures Dispatched(buf, hints) == [buf]
  {
  }

  lemma {:induction false} UnstrippedTail(f: Frame)
    requires NeedsSplit(f)
    ensures Strip(f) == f
  {
  }

  /** Every byte of a buffer is dispatched once and in order, whatever the traffic and the hints. */
  lemma {:induction false} BufferConserved(buf: Frame, hints: seq<bool>)
    ensures Flatten(Dispatched(buf, hints)) == buf || Flatten(Dispatched(buf, hints)) == Strip(buf)
    decreases |buf|
  {
    var hint := hints != [] && hints[0];
    var t := TakeApart(buf, hint);
    TurnConserves(buf, hint);
    assert Flatten(t.frames) + [] == Flatten(t.frames);
    if t.tail != [] {
      var rest := if hints == [] then [] else hints[1..];
      BufferConserved(t.tail, rest);
      UnstrippedTail(t.tail);
      FlattenConcat(t.frames, Dispatched(t.tail, rest));
    }
  }

  // ---- The port -----------------------------------------------------------------------------

  const QUEUE_LEN := 64

  function Frames(p: Port, fs: seq<Frame>, envs: seq<Env>): Outcome
    requires |envs| == |fs|
    decreases |fs|
  {
    if fs == [] then Outcome(p, [])
    else
      var first := Sniffer.ProcessFrame(p, fs[0], envs[0]);
      var rest := Frames(first.port, fs[1..], envs[1..]);
      Outcome(rest.port, first.packets + rest.packets)
  }

  lemma {:induction false} FramesFirst(p: Port, fs: seq<Frame>, envs: seq<Env>)
    requires |envs| == |fs| && fs != []
    ensures var first := Sniffer.ProcessFrame(p, fs[0], envs[0]);
            var rest := Frames(first.port, fs[1..], envs[1..]);
            Frames(p, fs, envs) == Outcome(rest.port, first.packets + rest.packets)
  {
  }

  lemma {:induction false} FramesConcat(p: Port, fs: seq<Frame>, envs: seq<Env>, gs: seq<Frame>, hs: seq<Env>)
    requires |envs| == |fs| && |hs| == |gs|
    ensures var a := Frames(p, fs, envs);
            var b := Frames(a.port, gs, hs);
            Frames(p, fs + gs, envs + hs) == Outcome(b.port, a.packets + b.packets)
    decreases |fs|
  {
    if fs == [] {
      assert fs + gs == gs && envs + hs == hs;
      var none: seq<Packet> := [];
      assert none + Frames(p, gs, hs).packets == Frames(p, gs, hs).packets;
    } else {
      assert (fs + gs)[1..] == fs[1..] + gs && (envs + hs)[1..] == envs[1..] + hs;
      var first := Sniffer.ProcessFrame(p, fs[0], envs[0]);
      FramesConcat(first.port, fs[1..], envs[1..], gs, hs);
      var a := Frames(first.port, fs[1..], envs[1..]);
      Associative(first.packets, a.packets, Frames(a.port, gs, hs).packets);
      FramesFirst(p, fs, envs);
      FramesFirst(p, fs + gs, envs + hs);
    }
  }

  /** The frames dispatched so far, then those of the current remainder, are those of the buffer. */
  ghost predicate Ahead(buf: Frame, hints: seq<bool>, frames: seq<Frame>, cur: Frame) {
    forall h: seq<bool> :: Dispatched(buf, hints + h) == frames + Dispatched(cur, h)
  }

  lemma {:induction false} AheadAtFirst(buf: Frame)
    ensures Ahead(buf, [], [], buf)
  {
    forall h: seq<bool>
      ensures Dispatched(buf, [] + h) == [] + Dispatched(buf, h)
    {
      assert [] + h == h;
    }
  }

  lemma {:induction false} DispatchedStep(cur: Frame, hint: bool, h: seq<bool>)
    ensures var t := TakeApart(cur, hint);
            Dispatched(cur, [hint] + h) == if t.tail == [] then t.frames else t.frames + Dispatched(t.tail, h)
  {
  }

  lemma {:induction false} AheadAt(buf: Frame, hints: seq<bool>, frames: seq<Frame>, cur: Frame, h: seq<bool>)
    requires Ahead(buf, hints, frames, cur)
    ensures Dispatched(buf, hints + h) == frames + Dispatched(cur, h)
  {
  }

  lemma {:induction false} AheadNextAt(buf: Frame, hints: seq<bool>, frames: seq<Frame>, cur: Frame, hint: bool,
                                       h: seq<bool>, step: seq<Frame>)
    requires Ahead(buf, hints, frames, cur) && Dispatched(cur, [hint] + h) == step
    ensures Dispatched(buf, hints + [hint] + h) == frames + step
  {
    AheadAt(buf, hints, frames, cur, [hint] + h);
    Associative(hints, [hint], h);
  }

  lemma {:induction false} AheadNext(buf: Frame, hints: seq<bool>, frames: seq<Frame>, cur: Frame, hint: bool, t: Turn)
    requires Ahead(buf, hints, frames, cur) && t == TakeApart(cur, hint)
    ensures t.tail == [] ==> Dispatched(buf, hints + [hint]) == frames + t.frames
    ensures t.tail != [] ==> Ahead(buf, hints + [hint], frames + t.frames, t.tail)
  {
    if t.tail == [] {
      DispatchedStep(cur, hint, []);
      AheadNextAt(buf, hints, frames, cur, hint, [], t.frames);
      assert hints + [hint] + [] == hints + [hint];
    } else {
      forall h: seq<bool>
        ensures Dispatched(buf, hints + [hint] + h) == frames + t.frames + Dispatched(t.tail, h)
      {
        DispatchedStep(cur, hint, h);
        AheadNextAt(buf, hints, frames, cur, hint, h, t.frames + Dispatched(t.tail, h));
        Associative(frames, t.frames, Dispatched(t.tail, h));
      }
    }
  }

  /** From p0 and q0, these frames under these conditions lead to p and q. */
  ghost predicate Processed(p0: Port, q0: seq<Packet>, fs: seq<Frame>, envs: seq<Env>, p: Port, q: seq<Packet>) {
    |envs| == |fs| && p == Frames(p0, fs, envs).port && q == q0 + Frames(p0, fs, envs).packets
  }

  lemma {:induction false} ProcessedThen(p0: Port, q0: seq<Packet>, fs: seq<Frame>, envs: seq<Env>, p: Port,
                                         q: seq<Packet>,
                      gs: seq<Frame>, hs: seq<Env>, p': Port, q': seq<Packet>)
    requires Processed(p0, q0, fs, envs, p, q) && Processed(p, q, gs, hs, p', q')
    ensures Processed(p0, q0, fs + gs, envs + hs, p', q')
  {
    FramesConcat(p0, fs, envs, gs, hs);
    Associative(q0, Frames(p0, fs, envs).packets, Frames(p, gs, hs).packets);
  }

  class SnifferPort {
    var port: Port
    var queue: seq<Packet>

    constructor ()
      ensures port == Reset() && queue == []
    {
      port, queue := Reset(), [];
    }

    method EnableReason(r: Reason)
      modifies `port
      ensures port == Step(old(port), Enable(r)).port
    {
      port := if r == Display then port.(display := true) else port.(cache := true);
    }

    /** The timer is stopped only when the last reason has gone, and the command may be lost. */
    method DisableReason(r: Reason) returns (ghost stopLost: bool)
      modifies `port
      ensures port == Step(old(port), Disable(r, stopLost)).port
    {
      var lost: bool := *;
      stopLost := lost;
      var was := On(port);
      port := if r == Display then port.(display := false) else port.(cache := false);
      if was && !On(port) {
        port := port.(state := Idle, reqValid := false);
        if !lost {
          port := port.(armed := false);
        }
      }
    }

    /** The response timer runs out. */
    method TimerCallback()
      requires port.armed
      modifies this
      ensures var o := Step(old(port), Expiry(|old(queue)| >= QUEUE_LEN));
              port == o.port && queue == old(queue) + o.packets
    {
      var k := Packet([port.reqSlave, port.reqFc], true, true, true);
      var report := port.reqValid && On(port);
      if report {
        port := port.(synchronized := true, lastWasMaster := true);
      }
      port := port.(state := Idle, armed := false);
      if report && |queue| < QUEUE_LEN {
        queue := queue + [k];
      }
    }

    /** The state update and the timer commands of one decision. */
    method Update(x: Facts, env: Env) returns (d: Decision)
      modifies `port
      ensures d == Decide(old(port), x) && port == Advance(old(port), x, env)
    {
      d := Decide(port, x);
      port := port.(state := d.next);
      if d.emit {
        port := port.(synchronized := true, lastWasMaster := d.isMaster);
      }
      if d.latch {
        port := port.(reqValid := true, reqSlave := x.slave, reqFc := x.fc);
      }
      if d.stop && !env.stopLost {
        port := port.(armed := false);
      }
      if d.emit && env.queueFull {
        port := port.(state := Idle, reqValid := false);
      } else if d.start {
        port := if env.startLost then port.(state := Idle, reqValid := false) else port.(armed := true);
      }
    }

    /** One frame; timer commands may be lost, the packet if the queue is full. */
    method ProcessFrame(raw: Frame) returns (ghost env: Env)
      modifies this
      ensures env.queueFull <==> |old(queue)| >= QUEUE_LEN
      ensures port == Sniffer.ProcessFrame(old(port), raw, env).port
      ensures queue == old(queue) + Sniffer.ProcessFrame(old(port), raw, env).packets
    {
      var stopLost, startLost: bool := *, *;
      var around := Env(|queue| >= QUEUE_LEN, stopLost, startLost);
      env := around;
      if !On(port) || |raw| < 4 {
        return;
      }
      var f := Strip(raw);
      var d := Update(FactsOf(f), around);
      if d.emit && !around.queueFull {
        queue := queue + [Packet(Truncated(f), d.isMaster, d.crcValid, false)];
      }
    }

    /** One turn: split what is at hand and dispatch its frames. */
    method TakeTurn(cur: Frame) returns (t: Turn, ghost hint: bool, ghost more: seq<Env>)
      modifies this
      ensures t == TakeApart(cur, hint) && |more| == |t.frames|
      ensures port == Frames(old(port), t.frames, more).port
      ensures queue == old(queue) + Frames(old(port), t.frames, more).packets
    {
      var pending := port.reqValid && port.reqFc != 0;
      hint := pending;
      t := TakeApart(cur, pending);
      more := DispatchAll(t.frames);
    }

    /** A received buffer: split, dispatch, go on with the tail until nothing is left to split. */
    method Process(buf: Frame) returns (ghost hints: seq<bool>, ghost envs: seq<Env>)
      modifies this
      ensures |buf| < 4 || !On(old(port)) ==> port == old(port) && queue == old(queue)
      ensures |buf| >= 4 && On(old(port)) ==> Processed(old(port), old(queue), Dispatched(buf, hints), envs, port,
              queue)
    {
      hints, envs := [], [];
      if !On(port) || |buf| < 4 {
        return;
      }
      var cur, more := buf, true;
      ghost var frames: seq<Frame> := [];
      AheadAtFirst(buf);
      while more
        invariant more ==> Ahead(buf, hints, frames, cur)
        invariant !more ==> frames == Dispatched(buf, hints)
        invariant Processed(old(port), old(queue), frames, envs, port, queue)
        decreases more, |cur|
      {
        ghost var was, queued := port, queue;
        ghost var hint, envs';
        var t;
        t, hint, envs' := TakeTurn(cur);
        AheadNext(buf, hints, frames, cur, hint, t);
        ProcessedThen(old(port), old(queue), frames, envs, was, queued, t.frames, envs', port, queue);
        hints, frames, envs := hints + [hint], frames + t.frames, envs + envs';
        cur, more := t.tail, t.tail != [];
      }
    }

    method DispatchAll(fs: seq<Frame>) returns (ghost envs: seq<Env>)
      modifies this
      ensures |envs| == |fs|
      ensures port == Frames(old(port), fs, envs).port
      ensures queue == old(queue) + Frames(old(port), fs, envs).packets
    {
      envs := [];
      for i := 0 to |fs|
        invariant |envs| == i
        invariant port == Frames(old(port), fs[..i], envs).port
        invariant queue == old(queue) + Frames(old(port), fs[..i], envs).packets
      {
        ghost var before := port;
        ghost var env := ProcessFrame(fs[i]);
        OneFrame(before, fs[i], env);
        FramesConcat(old(port), fs[..i], envs, [fs[i]], [env]);
        assert fs[..i] + [fs[i]] == fs[..i + 1];
        envs := envs + [env];
      }
      assert fs[..|fs|] == fs;
    }
  }

  lemma {:induction false} OneFrame(p: Port, f: Frame, env: Env)
    ensures Frames(p, [f], [env]) == Sniffer.ProcessFrame(p, f, env)
  {
  }

  // ---- Numbering ----------------------------------------------------------------------------

  const IDS := 0x1_0000_0000

  /** A packet taken off the queue, and whether the web client is still there to see it. */
  datatype Item = Item(packet: Packet, connected: bool)

  datatype Message = Message(id: nat, packet: Packet)

  /** The counter counts timeouts too, but only the other packets are sent; an id is 32 bits of it. */
  function Sent(counter: nat, items: seq<Item>): seq<Message>
    decreases |items|
  {
    if items == [] then []
    else if !items[0].connected then Sent(counter, items[1..])
    else if items[0].packet.isTimeout then Sent(counter + 1, items[1..])
    else [Message((counter + 1) % IDS, items[0].packet)] + Sent(counter + 1, items[1..])
  }

  function Visible(items: seq<Item>): seq<Packet> {
    if items == [] then []
    else (if items[0].connected && !items[0].packet.isTimeout then [items[0].packet] else []) + Visible(items[1..])
  }

  /** What the counter is at each packet sent, had it no width. */
  function Numbers(counter: nat, items: seq<Item>): seq<nat>
    decreases |items|
  {
    if items == [] then []
    else if !items[0].connected then Numbers(counter, items[1..])
    else if items[0].packet.isTimeout then Numbers(counter + 1, items[1..])
    else [counter + 1] + Numbers(counter + 1, items[1..])
  }

  /** Numbers grow within the counter's reach. */
  predicate Growing(counter: nat, ns: seq<nat>, steps: nat) {
    (forall i :: 0 <= i < |ns| ==> counter < ns[i] <= counter + steps) && forall i, j :: 0 <= i < j < |ns| ==>
        ns[i] < ns[j]
  }

  lemma {:induction false} NumbersGrow(counter: nat, items: seq<Item>)
    ensures Growing(counter, Numbers(counter, items), |items|)
    decreases |items|
  {
    if items != [] {
      NumbersGrow(if items[0].connected then counter + 1 else counter, items[1..]);
    }
  }

  /** The client sees every packet once and in order, no timeouts, each under its number modulo 2^32. */
  lemma {:induction false} ClientSeesEveryPacket(counter: nat, items: seq<Item>)
    ensures var ms, ns := Sent(counter, items), Numbers(counter, items);
            && |ms| == |ns| == |Visible(items)|
            && (forall i :: 0 <= i < |ms| ==> ms[i] == Message(ns[i] % IDS, Visible(items)[i]))
            && (forall k :: k in Visible(items) ==> !k.isTimeout)
    decreases |items|
  {
    if items != [] {
      ClientSeesEveryPacket(if items[0].connected then counter + 1 else counter, items[1..]);
    }
  }

  lemma {:induction false} CloseNumbersDiffer(a: nat, b: nat)
    requires a < b < a + IDS
    ensures a % IDS != b % IDS
  {
  }

  /** So ids are different among any 2^32 packets, timeouts counted, and grow until the counter wraps. */
  lemma {:induction false} IdsDiffer(counter: nat, items: seq<Item>, i: nat, j: nat)
    requires i < j < |Sent(counter, items)|
    ensures |items| <= IDS ==> Sent(counter, items)[i].id != Sent(counter, items)[j].id
    ensures counter + |items| < IDS ==> Sent(counter, items)[i].id < Sent(counter, items)[j].id
  {
    ClientSeesEveryPacket(counter, items);
    NumbersGrow(counter, items);
    var ns := Numbers(counter, items);
    if |items| <= IDS {
      CloseNumbersDiffer(ns[i], ns[j]);
    }
  }

  function Timeouts(items: seq<Item>): nat {
    if items == [] then 0
    else (if items[0].connected && items[0].packet.isTimeout then 1 else 0) + Timeouts(items[1..])
  }

  lemma {:induction false} LastVisible(items: seq<Item>, last: Packet)
    requires !last.isTimeout
    ensures Visible(items + [Item(last, true)]) == Visible(items) + [last]
  {
    var all := items + [Item(last, true)];
    if items == [] {
      assert all == [Item(last, true)] && all[1..] == [];
    } else {
      assert all[0] == items[0] && all[1..] == items[1..] + [Item(last, true)];
      LastVisible(items[1..], last);
      var head := if items[0].connected && !items[0].packet.isTimeout then [items[0].packet] else [];
      assert Visible(all) == head + (Visible(items[1..]) + [last]);
      Associative(head, Visible(items[1..]), [last]);
    }
  }

  /** How far the counter gets. */
  function Counted(counter: nat, items: seq<Item>): nat
    decreases |items|
  {
    if items == [] then counter else Counted(if items[0].connected then counter + 1 else counter, items[1..])
  }

  lemma {:induction false} CountedIs(counter: nat, items: seq<Item>)
    ensures Counted(counter, items) == counter + |Visible(items)| + Timeouts(items)
    decreases |items|
  {
    if items != [] {
      CountedIs(if items[0].connected then counter + 1 else counter, items[1..]);
    }
  }

  lemma {:induction false} LastNumber(counter: nat, items: seq<Item>, last: Packet)
    requires !last.isTimeout
    ensures Numbers(counter, items + [Item(last, true)]) == Numbers(counter, items) + [Counted(counter, items) + 1]
    decreases |items|
  {
    var all := items + [Item(last, true)];
    if items == [] {
      assert all == [Item(last, true)] && all[1..] == [];
    } else {
      assert all[0] == items[0] && all[1..] == items[1..] + [Item(last, true)];
      LastNumber(if items[0].connected then counter + 1 else counter, items[1..], last);
    }
  }

  /** Ids are consecutive except that each silent timeout uses one up. */
  lemma {:induction false} IdsCountTimeouts(counter: nat, items: seq<Item>, last: Packet)
    requires !last.isTimeout
    ensures var ms := Sent(counter, items + [Item(last, true)]);
            ms != [] && ms[|ms| - 1] == Message((counter + |Visible(items)| + Timeouts(items) + 1) % IDS, last)
  {
    LastVisible(items, last);
    LastNumber(counter, items, last);
    CountedIs(counter, items);
    ClientSeesEveryPacket(counter, items + [Item(last, true)]);
  }

  // ---- Feeding the cache --------------------------------------------------------------------

  predicate IsRead(fc: Byte) {
    1 <= fc <= 4
  }

  /** What the register cache is told about a packet. */
  function CacheEvent(k: Packet, now: nat): RegisterCache.Event
    requires |k.data| >= 2
  {
    var d := k.data;
    if k.isMaster && !k.isTimeout && IsRead(d[1]) && k.crcValid && |d| >= 8 then
      RegisterCache.Request(d[0], d[1], BigEndian(d[2], d[3]), BigEndian(d[4], d[5]))
    else if !k.isMaster && !k.isTimeout && IsRead(d[1]) && k.crcValid && |d| >= 5 then
      RegisterCache.Response(d[0], d[1], d, now)
    else RegisterCache.ClearPending
  }

  /** A read request for `count` values, and a reply that carries them. */
  predicate ReadExchange(request: Frame, reply: Frame, count: nat) {
    && Intact(request) && Intact(reply)
    && |request| == 8 && BigEndian(request[4], request[5]) == count
    && IsRead(request[1]) && 0 < request[0] < 0xFF && reply[0] == request[0] && reply[1] == request[1]
    && RegisterCache.Cacheable(request[1], BigEndian(request[2], request[3]), count)
    && reply[2] == RegisterCache.ExpectedBytes(request[1], count)
    && |reply| == RegisterCache.ExpectedBytes(request[1], count) + 5
    && (request[1] <= 2 ==> request[2] != 3 && |reply| != 8)
  }

  lemma {:induction false} ReadExchangeShapes(request: Frame, reply: Frame, count: nat)
    requires ReadExchange(request, reply, count)
    ensures Classify(request) == Request && Classify(reply) == Response && |reply| <= MAX_PACKET_LEN
  {
  }

  /** sniffer_ws_dispatch: only a port with the cache reason feeds the cache, and only one that is enabled. */
  function FedOne(c: RegisterCache.Cache, k: Packet, reason: bool, enabled: bool, now: nat): RegisterCache.Cache
    requires |k.data| >= 2
  {
    if enabled && reason then RegisterCache.Step(c, CacheEvent(k, now)) else c
  }

  /** The cache after these packets, one after the other. */
  function Fed(c: RegisterCache.Cache, packets: seq<Packet>, reason: bool, enabled: bool, now: nat): RegisterCache.Cache
    requires forall k :: k in packets ==> |k.data| >= 2
    decreases |packets|
  {
    if packets == [] then c else Fed(FedOne(c, packets[0], reason, enabled, now), packets[1..], reason, enabled, now)
  }

  /** What an exchange leaves in the cache of a port in any state, whatever timer commands are lost. */
  function Overheard(p: Port, request: Frame, reply: Frame, e: Env, f: Env): seq<Packet> {
    var first := Sniffer.ProcessFrame(p, request, e);
    first.packets + Sniffer.ProcessFrame(first.port, reply, f).packets
  }

  /** The packets of an overheard read are that request and that response. They reach the cache as such if it is
      enabled and the port has the cache reason, and not at all otherwise. */
  lemma {:induction false} ReadReachesTheCache(p: Port, c: RegisterCache.Cache, enabled: bool, request: Frame,
                                               reply: Frame, count: nat, e: Env, f: Env, now: nat)
    requires On(p) && ReadExchange(request, reply, count) && !e.queueFull && !f.queueFull
    ensures var ks := Overheard(p, request, reply, e, f);
            && ks == [Packet(request, true, true, false), Packet(reply, false, true, false)]
            && Fed(c, ks, p.cache, enabled, now) == if !(enabled && p.cache) then c else
               RegisterCache.Step(
                 RegisterCache.Step(c, RegisterCache.Request(request[0], request[1], BigEndian(request[2], request[3]),
                     BigEndian(request[4], request[5]))),
                 RegisterCache.Response(request[0], request[1], reply, now))
  {
    ReadExchangeShapes(request, reply, count);
    ExchangeIsPaired(p, request, reply, e, f);
    FedTwo(c, [Packet(request, true, true, false), Packet(reply, false, true, false)], p.cache, enabled, now);
  }

  lemma {:induction false} FedTwo(c: RegisterCache.Cache, ks: seq<Packet>, reason: bool, enabled: bool, now: nat)
    requires |ks| == 2 && |ks[0].data| >= 2 && |ks[1].data| >= 2
    ensures Fed(c, ks, reason, enabled, now) ==
            FedOne(FedOne(c, ks[0], reason, enabled, now), ks[1], reason, enabled, now)
  {
    var next := FedOne(c, ks[0], reason, enabled, now);
    assert ks[1..] == [ks[1]] && [ks[1]][1..] == [];
    assert Fed(next, [ks[1]], reason, enabled, now) == FedOne(next, ks[1], reason, enabled, now);
  }

  /**
   End to end: a read exchange on the bus, of any slave, table and range, heard by a port with the cache reason
   whatever that port was doing before, is what a Modbus TCP client then reads from the enabled cache, until it
   expires. Without the reason, or with the cache off, the exchange leaves the cache as it was.
   */
  lemma {:induction false} BusReadIsServed(p: Port, c: RegisterCache.Cache, enabled: bool, request: Frame, reply: Frame,
                                           data: Frame, count: nat, e: Env, f: Env, now: nat, later: nat,
                                           timeout: Word)
    requires On(p) && ReadExchange(request, reply, count) && !e.queueFull && !f.queueFull
    requires RegisterCache.ValidPool(c.pool) && data == reply[3..|reply| - 2]
    requires timeout > 0 ==> CacheServer.Age(later, now) < timeout
    requires |RegisterCache.Latest(RegisterCache.AsMap(c.pool), request[0], request[1],
                                   BigEndian(request[2], request[3]),
                                   RegisterCache.Values(request[1], data, count), now)| <= RegisterCache.MAX_ENTRIES
    ensures var ks := Overheard(p, request, reply, e, f);
            && (forall k :: k in ks ==> |k.data| >= 2)
            && var fed := Fed(c, ks, p.cache, enabled, now);
               if enabled && p.cache then
                 CacheServer.Gather(fed.pool, request[0], request[1], BigEndian(request[2], request[3]), count, timeout,
                                    later) == CacheServer.Got(RegisterCache.Values(request[1], data, count))
               else fed == c
  {
    ReadReachesTheCache(p, c, enabled, request, reply, count, e, f, now);
    if enabled && p.cache {
      CacheServer.OverheardThenRead(c, request[0], request[1], BigEndian(request[2], request[3]), count, reply, data,
          now, later, timeout);
    }
  }
}

/**
 From the wire to the web client (main/bridge/sniffer.c): received buffers are taken apart into frames, frames
 become packets, packets are numbered and sent.
 */
module SnifferWire {
  import opened Bytes
  import opened Wire
  import opened Sniffer
  import opened SnifferPipeline

  function Watched(packets: seq<Packet>): seq<Item> {
    if packets == [] then [] else [Item(packets[0], true)] + Watched(packets[1..])
  }

  function DataOf(ms: seq<Message>): seq<Frame> {
    if ms == [] then [] else [ms[0].packet.data] + DataOf(ms[1..])
  }

  lemma {:induction false} WatchedIsShown(counter: nat, packets: seq<Packet>)
    ensures DataOf(Sent(counter, Watched(packets))) == Shown(packets)
    decreases |packets|
  {
    if packets != [] {
      assert Watched(packets)[1..] == Watched(packets[1..]);
      WatchedIsShown(counter + 1, packets[1..]);
      var rest := Sent(counter + 1, Watched(packets[1..]));
      if !packets[0].isTimeout {
        assert Sent(counter, Watched(packets))[1..] == rest;
      }
    }
  }

  lemma {:induction false} ClientSeesTheFrames(p: Port, es: seq<Event>, counter: nat)
    requires Sane(p) && Runnable(p, es)
    ensures DataOf(Sent(counter, Watched(Run(p, es).packets))) == Expected(es, EarOf(p))
  {
    EveryFrameShownOnce(p, es);
    WatchedIsShown(counter, Run(p, es).packets);
  }

  // ---- Received buffers ---------------------------------------------------------------------

  /** What happens on the wire side: a buffer is received, `es` being what happens until it is dealt with; or
      something else. */
  datatype Happening = Received(buf: Frame, hints: seq<bool>, es: seq<Event>) | Aside(e: Event)

  function Raws(es: seq<Event>): seq<Frame> {
    if es == [] then [] else (if es[0].Arrival? then [es[0].raw] else []) + Raws(es[1..])
  }

  /** The frames that arrive while a buffer is dealt with are those it comes apart into; timers may expire and
      reasons come and go between them. */
  predicate TakenApart(w: Happening) {
    match w
    case Received(buf, hints, es) => Raws(es) == Dispatched(buf, hints)
    case Aside(e) => !e.Arrival?
  }

  function Asides(es: seq<Event>): seq<Event> {
    if es == [] then [] else (if es[0].Arrival? then [] else [es[0]]) + Asides(es[1..])
  }

  predicate Listening(ear: Ear) {
    ear.display || ear.cache
  }

  /** sniffer_process: a buffer that comes while the port has no reason, or is too short, is ignored whole. */
  function EventsOf(w: Happening, ear: Ear): seq<Event> {
    match w
    case Received(buf, _, es) => if Listening(ear) && |buf| >= 4 then es else Asides(es)
    case Aside(e) => [e]
  }

  function EarAfterAll(ear: Ear, es: seq<Event>): Ear
    decreases |es|
  {
    if es == [] then ear else EarAfterAll(EarAfter(ear, es[0]), es[1..])
  }

  function Flow(ws: seq<Happening>, ear: Ear): seq<Event>
    decreases |ws|
  {
    if ws == [] then []
    else
      var es := EventsOf(ws[0], ear);
      es + Flow(ws[1..], EarAfterAll(ear, es))
  }

  /** What the client is to see of the wire, buffer by buffer. */
  function ExpectedOf(ws: seq<Happening>, ear: Ear): seq<Frame>
    decreases |ws|
  {
    if ws == [] then []
    else
      var es := EventsOf(ws[0], ear);
      Expected(es, ear) + ExpectedOf(ws[1..], EarAfterAll(ear, es))
  }

  lemma {:induction false} ExpectedJoins(a: seq<Event>, b: seq<Event>, ear: Ear)
    ensures Expected(a + b, ear) == Expected(a, ear) + Expected(b, EarAfterAll(ear, a))
    decreases |a|
  {
    if a == [] {
      assert a + b == b;
    } else {
      assert (a + b)[1..] == a[1..] + b;
      ExpectedJoins(a[1..], b, EarAfter(ear, a[0]));
    }
  }

  lemma {:induction false} FlowExpected(ws: seq<Happening>, ear: Ear)
    ensures Expected(Flow(ws, ear), ear) == ExpectedOf(ws, ear)
    decreases |ws|
  {
    if ws != [] {
      var es := EventsOf(ws[0], ear);
      FlowExpected(ws[1..], EarAfterAll(ear, es));
      ExpectedJoins(es, Flow(ws[1..], EarAfterAll(ear, es)), ear);
    }
  }

  // ---- Byte for byte ------------------------------------------------------------------------

  /** A frame that is shown as it came. */
  predicate Plain(raw: Frame) {
    4 <= |raw| <= MAX_PACKET_LEN && Strip(raw) == raw
  }

  /** Plain frames, each with room in the queue, and nothing switched off. */
  predicate AllPlain(es: seq<Event>) {
    forall e :: e in es ==> !e.Disable? && (e.Arrival? ==> Plain(e.raw) && !e.env.queueFull)
  }

  lemma {:induction false} PlainIsShown(es: seq<Event>, ear: Ear)
    requires Listening(ear) && ear.synchronized && AllPlain(es)
    ensures Expected(es, ear) == Raws(es)
    ensures Listening(EarAfterAll(ear, es)) && EarAfterAll(ear, es).synchronized
    decreases |es|
  {
    if es != [] {
      assert es[0] in es;
      PlainIsShown(es[1..], EarAfter(ear, es[0]));
    }
  }

  function Buffers(ws: seq<Happening>): seq<Frame> {
    if ws == [] then [] else (if ws[0].Received? then [ws[0].buf] else []) + Buffers(ws[1..])
  }

  /** A buffer of at least four bytes that comes apart into plain frames, nothing being switched off meanwhile. */
  predicate PlainWire(w: Happening) {
    match w
    case Received(buf, _, es) => |buf| >= 4 && Strip(buf) == buf && AllPlain(es)
    case Aside(e) => !e.Disable?
  }

  lemma {:induction false} EveryByteShown(ws: seq<Happening>, ear: Ear)
    requires Listening(ear) && ear.synchronized && forall w :: w in ws ==> TakenApart(w) && PlainWire(w)
    ensures Flatten(ExpectedOf(ws, ear)) == Flatten(Buffers(ws))
    decreases |ws|
  {
    if ws != [] {
      var w := ws[0];
      assert w in ws;
      var es := EventsOf(w, ear);
      PlainIsShown(es, ear);
      EveryByteShown(ws[1..], EarAfterAll(ear, es));
      FlattenConcat(Expected(es, ear), ExpectedOf(ws[1..], EarAfterAll(ear, es)));
      FlattenConcat(if w.Received? then [w.buf] else [], Buffers(ws[1..]));
      if w.Received? {
        BufferConserved(w.buf, w.hints);
        OneBuffer(w.buf);
      }
    }
  }

  lemma {:induction false} OneBuffer(buf: Frame)
    ensures Flatten([buf]) == buf
  {
  }

  // ---- The wire and the client --------------------------------------------------------------

  /** A buffer is dispatched once and in order, less stripped arbitration, or ignored whole. */
  predicate Conserved(w: Happening, ear: Ear) {
    w.Received? ==>
      var bytes := Flatten(Raws(EventsOf(w, ear)));
      if Listening(ear) && |w.buf| >= 4 then bytes == w.buf || bytes == Strip(w.buf) else bytes == []
  }

  predicate AllConserved(ws: seq<Happening>, ear: Ear)
    decreases |ws|
  {
    ws == [] || (Conserved(ws[0], ear) && AllConserved(ws[1..], EarAfterAll(ear, EventsOf(ws[0], ear))))
  }

  lemma {:induction false} NoRaws(es: seq<Event>)
    ensures Raws(Asides(es)) == []
  {
    if es != [] {
      NoRaws(es[1..]);
      if !es[0].Arrival? {
        assert Asides(es)[1..] == Asides(es[1..]);
      } else {
        assert Asides(es) == Asides(es[1..]);
      }
    }
  }

  lemma {:induction false} BuffersConserved(ws: seq<Happening>, ear: Ear)
    requires forall w :: w in ws ==> TakenApart(w)
    ensures AllConserved(ws, ear)
    decreases |ws|
  {
    if ws != [] {
      var w := ws[0];
      assert w in ws;
      if w.Received? {
        BufferConserved(w.buf, w.hints);
        NoRaws(w.es);
      }
      BuffersConserved(ws[1..], EarAfterAll(ear, EventsOf(w, ear)));
    }
  }

  /**
   From the wire to the web client: over every run of received buffers, expiries, full queues and reasons coming
   and going. Every buffer is dispatched as frames that are its bytes, once and in order, less stripped
   arbitration, or is ignored whole because the port is off. A client that stays connected is sent exactly those
   frames of them that come while the port is on and find room in the queue, in order, from the first whose
   direction could be told; and all that could be heard exactly if none of these finds the queue full. In
   particular, on a port that is on and has shown something, what the client is sent of buffers that come apart
   into frames of four to 272 bytes, without arbitration and with room, is those buffers, byte for byte.
   */
  lemma {:induction false} ClientSeesTheWire(p: Port, ws: seq<Happening>, counter: nat)
    requires Sane(p) && forall w :: w in ws ==> TakenApart(w)
    requires Runnable(p, Flow(ws, EarOf(p)))
    ensures var sent := DataOf(Sent(counter, Watched(Run(p, Flow(ws, EarOf(p))).packets)));
            && sent == ExpectedOf(ws, EarOf(p)) && AllConserved(ws, EarOf(p))
            && (sent == Audible(Flow(ws, EarOf(p)), EarOf(p)) <==> NoneLost(Flow(ws, EarOf(p)), EarOf(p)))
            && (On(p) && p.synchronized && (forall w :: w in ws ==> PlainWire(w)) ==>
                  Flatten(sent) == Flatten(Buffers(ws)))
  {
    ClientSeesTheFrames(p, Flow(ws, EarOf(p)), counter);
    FlowExpected(ws, EarOf(p));
    LostIsShorter(Flow(ws, EarOf(p)), EarOf(p));
    BuffersConserved(ws, EarOf(p));
    if On(p) && p.synchronized && forall w :: w in ws ==> PlainWire(w) {
      EveryByteShown(ws, EarOf(p));
    }
  }

  // ---- The receive callback is such a happening ---------------------------------------------

  function Arrivals(fs: seq<Frame>, envs: seq<Env>): seq<Event>
    requires |envs| == |fs|
  {
    if fs == [] then [] else [Arrival(fs[0], envs[0])] + Arrivals(fs[1..], envs[1..])
  }

  lemma {:induction false} FramesAreArrivals(p: Port, fs: seq<Frame>, envs: seq<Env>)
    requires |envs| == |fs|
    ensures Frames(p, fs, envs) == Run(p, Arrivals(fs, envs)) && Raws(Arrivals(fs, envs)) == fs
    decreases |fs|
  {
    if fs != [] {
      var es := Arrivals(fs, envs);
      assert es[1..] == Arrivals(fs[1..], envs[1..]);
      FramesAreArrivals(Sniffer.ProcessFrame(p, fs[0], envs[0]).port, fs[1..], envs[1..]);
    }
  }

  lemma {:induction false} NoAsides(fs: seq<Frame>, envs: seq<Env>)
    requires |envs| == |fs|
    ensures Asides(Arrivals(fs, envs)) == []
  {
    if fs != [] {
      assert Arrivals(fs, envs)[1..] == Arrivals(fs[1..], envs[1..]);
      NoAsides(fs[1..], envs[1..]);
    }
  }

  /** What `Process` does with a buffer is what this model says happens to it. */
  lemma {:induction false} ProcessIsReceived(p: Port, q: seq<Packet>, buf: Frame, hints: seq<bool>, envs: seq<Env>,
                                             p': Port, q': seq<Packet>)
    requires |envs| == |Dispatched(buf, hints)|
    requires if |buf| >= 4 && On(p) then Processed(p, q, Dispatched(buf, hints), envs, p', q') else p' == p && q' == q
    ensures var w := Received(buf, hints, Arrivals(Dispatched(buf, hints), envs));
            var o := Run(p, EventsOf(w, EarOf(p)));
            TakenApart(w) && p' == o.port && q' == q + o.packets
  {
    FramesAreArrivals(p, Dispatched(buf, hints), envs);
    NoAsides(Dispatched(buf, hints), envs);
  }
}

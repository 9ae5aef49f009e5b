/**
 The sniffer's per-port state machine (main/bridge/sniffer.c): one frame in, at most one packet out,
 and a 200 ms response timer that only ever returns the port to idle.
 */
module Sniffer {
  import opened Bytes
  import opened Wire
  import opened Splitter

  const MAX_PACKET_LEN := 272

  // ---- Direction ----------------------------------------------------------------------------

  datatype Direction = Request | Response | Unknown

  /** The classifier's tests in the order it makes them. */
  function Classify(f: Frame): Direction
    requires |f| >= 4
  {
    var fc, n := f[1], |f|;
    if fc >= 0x80 then (if n == 5 then Response else Unknown)
    else if fc == 1 || fc == 2 then
      if n == 8 && f[2] != 3 then Request
      else if n >= 5 && n == f[2] as int + 5 && n != 8 then Response
      else Unknown
    else if fc == 3 || fc == 4 then
      if n == 8 then Request
      else if n >= 5 && n == f[2] as int + 5 && f[2] % 2 == 0 && f[2] > 0 then Response
      else Unknown
    else if fc == 7 then (if n == 4 then Request else if n == 5 then Response else Unknown)
    else if fc == 0x0B then (if n == 4 then Request else if n == 8 then Response else Unknown)
    else if fc == 0x0F || fc == 0x10 then
      if n == 8 then Response
      else if n >= 9 && n == f[6] as int + 9 then Request
      else Unknown
    else if fc == 0x11 then
      if n == 4 then Request
      else if n >= 5 && n == f[2] as int + 5 then Response
      else Unknown
    else Unknown
  }

  /** The request lengths of the Modbus application protocol, checksum included. */
  predicate RequestShape(f: Frame)
    requires |f| >= 4
  {
    match f[1]
    case 1 => |f| == 8
    case 2 => |f| == 8
    case 3 => |f| == 8
    case 4 => |f| == 8
    case 5 => |f| == 8
    case 6 => |f| == 8
    case 7 => |f| == 4
    case 8 => |f| == 8
    case 0x0B => |f| == 4
    case 0x0F => |f| >= 9 && |f| == 9 + f[6] as int
    case 0x10 => |f| >= 9 && |f| == 9 + f[6] as int
    case 0x11 => |f| == 4
    case _ => false
  }

  /** The response lengths; register data comes in pairs of bytes, and an exception reply has five. */
  predicate ResponseShape(f: Frame)
    requires |f| >= 4
  {
    if f[1] >= 0x80 then |f| == 5
    else
      match f[1]
      case 1 => |f| == 5 + f[2] as int
      case 2 => |f| == 5 + f[2] as int
      case 3 => |f| == 5 + f[2] as int && f[2] % 2 == 0 && f[2] > 0
      case 4 => |f| == 5 + f[2] as int && f[2] % 2 == 0 && f[2] > 0
      case 5 => |f| == 8
      case 6 => |f| == 8
      case 7 => |f| == 5
      case 8 => |f| == 8
      case 0x0B => |f| == 8
      case 0x0F => |f| == 8
      case 0x10 => |f| == 8
      case 0x11 => |f| == 5 + f[2] as int
      case _ => false
  }

  /** A frame is called a request or a response exactly when it has that shape and not the other one. */
  lemma {:induction false} ClassifiesByShape(f: Frame)
    requires |f| >= 4
    ensures Classify(f) == Request <==> RequestShape(f) && !ResponseShape(f)
    ensures Classify(f) == Response <==> ResponseShape(f) && !RequestShape(f)
  {
  }

  /** A register read request can never be taken for a response, nor the other way round. */
  lemma {:induction false} RegisterShapesAreDisjoint(f: Frame)
    requires |f| >= 4 && (f[1] == 3 || f[1] == 4)
    ensures !(RequestShape(f) && ResponseShape(f))
  {
  }

  // ---- One frame ----------------------------------------------------------------------------

  datatype Wait = Idle | AwaitingReply

  /** Why a port is sniffed: for the display, for the register cache. */
  datatype Reason = Display | Cache

  datatype Port = Port(display: bool, cache: bool, state: Wait, reqValid: bool, reqSlave: Byte, reqFc: Byte,
                       synchronized: bool, lastWasMaster: bool, armed: bool)

  predicate On(p: Port) {
    p.display || p.cache
  }

  datatype Packet = Packet(data: Frame, isMaster: bool, crcValid: bool, isTimeout: bool)

  /** What the surroundings do to one frame: the packet queue may be full, timer commands may be lost. */
  datatype Env = Env(queueFull: bool, stopLost: bool, startLost: bool)

  const CALM := Env(false, false, false)

  function Reset(): Port {
    Port(false, false, Idle, false, 0, 0, false, false, false)
  }

  /** Leading 0xFF bytes are arbitration when a Fast Modbus command follows them. */
  function Strip(f: Frame): (e: Frame)
    ensures |f| >= 4 ==> |e| >= 4
    ensures |e| <= |f|
  {
    var k := FillerRun(f);
    if k > 0 && |f| - k >= 4 && IsFastModbus(f[k..][1]) then f[k..] else f
  }

  predicate SlaveSubcommand(sub: Byte) {
    sub == 0x03 || sub == 0x04 || sub == 0x09 || sub == 0x11 || sub == 0x12
  }

  /** What the state machine needs to know about a frame (sniff_input_t). */
  datatype Facts = Facts(slave: Byte, fc: Byte, fast: bool, slaveSubcommand: bool, intact: bool, dir: Direction)

  function FactsOf(f: Frame): Facts
    requires |f| >= 4
  {
    Facts(f[0], f[1], IsFastModbus(f[1]), SlaveSubcommand(f[2]), Intact(f), Classify(f))
  }

  datatype Decision = Decision(emit: bool, isMaster: bool, crcValid: bool, latch: bool, next: Wait, start: bool,
                               stop: bool)

  /** sniffer_decide. */
  function Decide(p: Port, x: Facts): Decision {
    if p.state == Idle then
      if x.fast then Decision(true, !x.slaveSubcommand, x.intact, false, Idle, false, false)
      else if !x.intact then
        if !p.synchronized then Decision(false, false, false, false, Idle, false, false)
        else Decision(true, !p.lastWasMaster, false, false, Idle, false, false)
      else if x.slave == 0 then Decision(true, true, true, false, Idle, false, false)
      else if x.dir == Response then Decision(true, false, true, false, Idle, false, false)
      else Decision(true, true, true, true, AwaitingReply, true, false)
    else
      var matches := p.reqValid && x.slave == p.reqSlave && x.fc == p.reqFc;
      if x.fast then Decision(true, !x.slaveSubcommand, x.intact, false, Idle, false, true)
      else if x.intact && x.slave == 0 then Decision(true, true, true, false, AwaitingReply, false, false)
      else if x.dir == Request || (x.dir == Unknown && x.intact && !matches) then
        Decision(true, true, true, true, AwaitingReply, true, true)
      else Decision(true, false, x.intact, false, Idle, false, true)
  }

  function Abandon(p: Port): Port {
    p.(state := Idle, reqValid := false)
  }

  /** Carrying a decision out. The exchange is abandoned when its packet finds no room or its timer cannot be
      started; a timer whose stop was lost goes on running. */
  function Perform(p: Port, x: Facts, d: Decision, env: Env): Port {
    var abandoned := (d.emit && env.queueFull) || (d.start && env.startLost);
    p.(state := if abandoned then Idle else d.next,
       reqValid := !abandoned && (p.reqValid || d.latch),
       reqSlave := if d.latch then x.slave else p.reqSlave,
       reqFc := if d.latch then x.fc else p.reqFc,
       synchronized := p.synchronized || d.emit,
       lastWasMaster := if d.emit then d.isMaster else p.lastWasMaster,
       armed := (p.armed && (!d.stop || env.stopLost)) || (d.start && !abandoned))
  }

  /** The port after one frame. */
  function Advance(p: Port, x: Facts, env: Env): Port {
    Perform(p, x, Decide(p, x), env)
  }

  function Truncated(f: Frame): Frame {
    if |f| <= MAX_PACKET_LEN then f else f[..MAX_PACKET_LEN]
  }

  function Emitted(p: Port, f: Frame, x: Facts, env: Env): seq<Packet> {
    var d := Decide(p, x);
    if d.emit && !env.queueFull then [Packet(Truncated(f), d.isMaster, d.crcValid, false)] else []
  }

  datatype Outcome = Outcome(port: Port, packets: seq<Packet>)

  function ProcessFrame(p: Port, raw: Frame, env: Env): Outcome {
    if !On(p) || |raw| < 4 then Outcome(p, [])
    else
      var f := Strip(raw);
      Outcome(Advance(p, FactsOf(f), env), Emitted(p, f, FactsOf(f), env))
  }

  /** resp_timer_cb: report the unanswered request to the cache, and go idle. */
  function TimerFires(p: Port, queueFull: bool): Outcome {
    var q := p.(state := Idle, armed := false);
    if p.reqValid && On(p)
    then
      var k := Packet([p.reqSlave, p.reqFc], true, true, true);
      Outcome(q.(synchronized := true, lastWasMaster := true), if queueFull then [] else [k])
    else Outcome(q, [])
  }

  function WithReason(p: Port, r: Reason, on: bool): Port {
    if r == Display then p.(display := on) else p.(cache := on)
  }

  /** sniffer_disable: when the last reason goes, a wait is abandoned and the timer stopped. */
  function TurnOff(p: Port, r: Reason, stopLost: bool): Port {
    var q := WithReason(p, r, false);
    if On(p) && !On(q) then Abandon(q).(armed := q.armed && stopLost) else q
  }

  // ---- Runs ---------------------------------------------------------------------------------

  datatype Event =
    | Arrival(raw: Frame, env: Env)
    | Expiry(queueFull: bool)
    | Enable(reason: Reason)
    | Disable(reason: Reason, stopLost: bool)

  predicate Enabled(p: Port, e: Event) {
    e.Expiry? ==> p.armed
  }

  function Step(p: Port, e: Event): Outcome {
    match e
    case Arrival(raw, env) => ProcessFrame(p, raw, env)
    case Expiry(queueFull) => TimerFires(p, queueFull)
    case Enable(r) => Outcome(WithReason(p, r, true), [])
    case Disable(r, stopLost) => Outcome(TurnOff(p, r, stopLost), [])
  }

  predicate Runnable(p: Port, es: seq<Event>)
    decreases |es|
  {
    es == [] || (Enabled(p, es[0]) && Runnable(Step(p, es[0]).port, es[1..]))
  }

  function Run(p: Port, es: seq<Event>): Outcome
    decreases |es|
  {
    if es == [] then Outcome(p, [])
    else
      var first := Step(p, es[0]);
      var rest := Run(first.port, es[1..]);
      Outcome(rest.port, first.packets + rest.packets)
  }

  /** A waiting port has its timer running; one that has shown nothing, or is off, waits for nothing. */
  predicate Sane(p: Port) {
    && (p.state == AwaitingReply ==> p.armed && p.reqValid)
    && (!p.synchronized || !On(p) ==> p.state == Idle && !p.reqValid)
  }

  lemma {:induction false} PerformKeeps(p: Port, x: Facts, d: Decision, env: Env)
    ensures var q := Perform(p, x, d, env);
            q.display == p.display && q.cache == p.cache && (q.synchronized <==> p.synchronized || d.emit)
  {
  }

  lemma {:induction false} EmitsWhen(p: Port, x: Facts)
    requires Sane(p)
    ensures Decide(p, x).emit <==> p.synchronized || x.intact || x.fast
  {
  }

  lemma {:induction false} AdvanceKeepsReasons(p: Port, x: Facts, env: Env)
    ensures Advance(p, x, env).display == p.display && Advance(p, x, env).cache == p.cache
  {
    PerformKeeps(p, x, Decide(p, x), env);
  }

  lemma {:induction false} AdvanceSynchronizes(p: Port, x: Facts, env: Env)
    requires Sane(p)
    ensures Advance(p, x, env).synchronized <==> p.synchronized || x.intact || x.fast
  {
    PerformKeeps(p, x, Decide(p, x), env);
    EmitsWhen(p, x);
  }

  lemma {:induction false} AdvanceKeepsSane(p: Port, x: Facts, env: Env)
    requires Sane(p) && On(p)
    ensures Sane(Advance(p, x, env))
  {
    AdvanceKeepsReasons(p, x, env);
    AdvanceSynchronizes(p, x, env);
  }

  lemma {:induction false} StepKeepsSane(p: Port, e: Event)
    requires Sane(p)
    ensures Sane(Step(p, e).port)
  {
    if e.Arrival? && On(p) && |e.raw| >= 4 {
      AdvanceKeepsSane(p, FactsOf(Strip(e.raw)), e.env);
    }
  }

  /** The port can never be left waiting: whatever was lost, a timer is there to end every wait. */
  lemma {:induction false} NeverStuck(p: Port, es: seq<Event>)
    requires Sane(p) && Runnable(p, es)
    ensures Sane(Run(p, es).port)
    ensures Run(p, es).port.state == AwaitingReply ==> forall full :: Enabled(Run(p, es).port, Expiry(full))
    ensures forall full :: Step(Run(p, es).port, Expiry(full)).port.state == Idle
    decreases |es|
  {
    if es != [] {
      StepKeepsSane(p, es[0]);
      NeverStuck(Step(p, es[0]).port, es[1..]);
    }
  }

  // ---- One packet per frame -----------------------------------------------------------------

  /** A frame that says something about direction even to a port that has seen nothing yet. */
  predicate Telling(raw: Frame) {
    |raw| >= 4 && (FactsOf(Strip(raw)).intact || FactsOf(Strip(raw)).fast)
  }

  lemma {:induction false} EmitsExactly(p: Port, f: Frame, x: Facts, env: Env)
    requires Sane(p)
    ensures Emitted(p, f, x, env) != [] <==> (p.synchronized || x.intact || x.fast) && !env.queueFull
  {
  }

  /** One packet per frame of at least four bytes, carrying that frame, unless the port is off, or nothing has
      been shown yet and the frame is corrupt, or the packet finds the queue full. */
  lemma {:induction false} OnePacketExactly(p: Port, raw: Frame, env: Env)
    requires Sane(p)
    ensures var o := ProcessFrame(p, raw, env);
            && (o.packets != [] <==> On(p) && |raw| >= 4 && (p.synchronized || Telling(raw)) && !env.queueFull)
            && (forall k :: k in o.packets ==> k.data == Truncated(Strip(raw)) && !k.isTimeout)
            && |o.packets| <= 1
            && (o.port.synchronized <==> p.synchronized || (On(p) && Telling(raw)))
  {
    if On(p) && |raw| >= 4 {
      var f := Strip(raw);
      EmitsExactly(p, f, FactsOf(f), env);
      AdvanceSynchronizes(p, FactsOf(f), env);
    }
  }

  /** A frame whose packet finds the queue full is lost, and with it the exchange that was being followed: the
      port is idle, has no request pending, and takes the frame for its synchronisation all the same. */
  lemma {:induction false} FullQueueLosesTheFrame(p: Port, raw: Frame, env: Env)
    requires Sane(p) && On(p) && |raw| >= 4 && (p.synchronized || Telling(raw)) && env.queueFull
    ensures var o := ProcessFrame(p, raw, env);
            o.packets == [] && o.port.state == Idle && !o.port.reqValid && o.port.synchronized
  {
    OnePacketExactly(p, raw, env);
    EmitsWhen(p, FactsOf(Strip(raw)));
  }

  /** In particular a corrupt frame that comes before anything else leaves no trace. */
  lemma {:induction false} CorruptFirstFrameIsDropped(p: Port, raw: Frame, env: Env)
    requires Sane(p) && !p.synchronized && |raw| >= 4 && !Telling(raw)
    ensures ProcessFrame(p, raw, env) == Outcome(p, [])
  {
  }

  function Shown(packets: seq<Packet>): seq<Frame>
  {
    if packets == [] then []
    else (if packets[0].isTimeout then [] else [packets[0].data]) + Shown(packets[1..])
  }

  lemma {:induction false} ShownConcat(a: seq<Packet>, b: seq<Packet>)
    ensures Shown(a + b) == Shown(a) + Shown(b)
  {
    if a == [] {
      assert a + b == b;
    } else {
      assert (a + b)[1..] == a[1..] + b;
      ShownConcat(a[1..], b);
    }
  }

  /** Whether a port is on and has shown anything, told from the events alone. */
  datatype Ear = Ear(display: bool, cache: bool, synchronized: bool)

  function EarOf(p: Port): Ear {
    Ear(p.display, p.cache, p.synchronized)
  }

  predicate Hears(ear: Ear, raw: Frame) {
    (ear.display || ear.cache) && |raw| >= 4 && (ear.synchronized || Telling(raw))
  }

  function EarAfter(ear: Ear, e: Event): Ear {
    match e
    case Arrival(raw, _) => ear.(synchronized := ear.synchronized || Hears(ear, raw))
    case Expiry(_) => ear
    case Enable(Display) => ear.(display := true)
    case Enable(Cache) => ear.(cache := true)
    case Disable(Display, _) => ear.(display := false)
    case Disable(Cache, _) => ear.(cache := false)
  }

  /** The frames of a run that come while the port is on, from the first telling one. */
  function Audible(es: seq<Event>, ear: Ear): seq<Frame>
    decreases |es|
  {
    if es == [] then []
    else (if es[0].Arrival? && Hears(ear, es[0].raw) then [Truncated(Strip(es[0].raw))] else [])
         + Audible(es[1..], EarAfter(ear, es[0]))
  }

  /** Those of them that find room in the packet queue. */
  function Expected(es: seq<Event>, ear: Ear): seq<Frame>
    decreases |es|
  {
    if es == [] then []
    else (if es[0].Arrival? && Hears(ear, es[0].raw) && !es[0].env.queueFull then [Truncated(Strip(es[0].raw))] else [])
         + Expected(es[1..], EarAfter(ear, es[0]))
  }

  /** No frame that is heard finds the queue full. */
  predicate NoneLost(es: seq<Event>, ear: Ear)
    decreases |es|
  {
    es == [] ||
    (!(es[0].Arrival? && Hears(ear, es[0].raw) && es[0].env.queueFull) && NoneLost(es[1..], EarAfter(ear, es[0])))
  }

  lemma {:induction false} ShownByStep(p: Port, e: Event)
    requires Sane(p)
    ensures Shown(Step(p, e).packets) ==
            if e.Arrival? && Hears(EarOf(p), e.raw) && !e.env.queueFull then [Truncated(Strip(e.raw))] else []
  {
    var ps := Step(p, e).packets;
    if e.Arrival? {
      OnePacketExactly(p, e.raw, e.env);
    }
    if ps != [] {
      assert ps[0] in ps;
      assert ps[1..] == [];
    }
  }

  lemma {:induction false} EarFollows(p: Port, e: Event)
    requires Sane(p)
    ensures EarOf(Step(p, e).port) == EarAfter(EarOf(p), e)
  {
    if e.Arrival? {
      ArrivalTunes(p, e.raw, e.env);
    }
  }

  lemma {:induction false} ArrivalTunes(p: Port, raw: Frame, env: Env)
    requires Sane(p)
    ensures var q := ProcessFrame(p, raw, env).port;
            q.display == p.display && q.cache == p.cache &&
                (q.synchronized <==> p.synchronized || (On(p) && Telling(raw)))
  {
    OnePacketExactly(p, raw, env);
    if On(p) && |raw| >= 4 {
      AdvanceKeepsReasons(p, FactsOf(Strip(raw)), env);
    }
  }

  /** Over every stream of frames, timer expiries, lost timer commands, full queues and reasons coming and going:
      what is shown is every frame that came while the port was on and found room in the queue, once, in order,
      from the first one whose direction could be told. */
  lemma {:induction false} EveryFrameShownOnce(p: Port, es: seq<Event>)
    requires Sane(p) && Runnable(p, es)
    ensures Shown(Run(p, es).packets) == Expected(es, EarOf(p))
    decreases |es|
  {
    if es != [] {
      assert es[0] in es;
      var first := Step(p, es[0]);
      ShownByStep(p, es[0]);
      EarFollows(p, es[0]);
      StepKeepsSane(p, es[0]);
      EveryFrameShownOnce(first.port, es[1..]);
      ShownConcat(first.packets, Run(first.port, es[1..]).packets);
    }
  }

  lemma {:induction false} LostIsShorter(es: seq<Event>, ear: Ear)
    ensures NoneLost(es, ear) ==> Expected(es, ear) == Audible(es, ear)
    ensures |Expected(es, ear)| <= |Audible(es, ear)|
    ensures !NoneLost(es, ear) ==> |Expected(es, ear)| < |Audible(es, ear)|
    decreases |es|
  {
    if es != [] {
      LostIsShorter(es[1..], EarAfter(ear, es[0]));
    }
  }

  /** So every frame that could be heard is shown exactly if none of them finds the queue full. */
  lemma {:induction false} AllShownExactly(p: Port, es: seq<Event>)
    requires Sane(p) && Runnable(p, es)
    ensures Shown(Run(p, es).packets) == Audible(es, EarOf(p)) <==> NoneLost(es, EarOf(p))
  {
    EveryFrameShownOnce(p, es);
    LostIsShorter(es, EarOf(p));
  }

  /** A port without reasons shows nothing and forgets nothing but the exchange it was following. */
  lemma {:induction false} SilentWhileOff(p: Port, es: seq<Event>)
    requires Sane(p) && !On(p) && Runnable(p, es) && forall e :: e in es ==> !e.Enable?
    ensures Run(p, es).packets == [] && EarOf(Run(p, es).port) == EarOf(p)
    decreases |es|
  {
    if es != [] {
      assert es[0] in es;
      StepKeepsSane(p, es[0]);
      SilentWhileOff(Step(p, es[0]).port, es[1..]);
    }
  }

  // ---- Labels -------------------------------------------------------------------------------

  predicate Unicast(f: Frame) {
    Intact(f) && f[0] != 0 && f[0] != 0xFF && !IsFastModbus(f[1])
  }

  /** On an idle port, after a timeout in particular, an intact unicast request is the master's and an
      intact response, however late, is an orphan of the slave's; the port then waits, or does not. */
  lemma {:induction false} IdleLabels(p: Port, f: Frame, env: Env)
    requires On(p) && p.state == Idle && !env.queueFull
    requires Unicast(f)
    ensures var o := ProcessFrame(p, f, env);
            && |o.packets| == 1 && o.packets[0].crcValid
            && (o.packets[0].isMaster <==> Classify(f) != Response)
            && (o.port.state == AwaitingReply <==> Classify(f) != Response && !env.startLost)
  {
  }

  /** A request and its reply come out as master and slave, whatever the port was doing before and whatever
      timer commands are lost, and the port is idle again. */
  lemma {:induction false} ExchangeIsPaired(p: Port, request: Frame, reply: Frame, e: Env, f: Env)
    requires On(p) && Unicast(request) && Classify(request) == Request && Unicast(reply) && Classify(reply) == Response
    requires !e.queueFull && !f.queueFull
    ensures var first := ProcessFrame(p, request, e);
            var second := ProcessFrame(first.port, reply, f);
            && first.packets == [Packet(Truncated(request), true, true, false)]
            && second.packets == [Packet(Truncated(reply), false, true, false)]
            && second.port.state == Idle
  {
    assert FillerRun(request) == 0 && FillerRun(reply) == 0;
  }

  // ---- Labels in every case -----------------------------------------------------------------

  /** The packet a frame is shown as. */
  function Shows(f: Frame, isMaster: bool, crcValid: bool): seq<Packet> {
    [Packet(Truncated(f), isMaster, crcValid, false)]
  }

  /** A packet has been shown. */
  function Noted(p: Port, isMaster: bool): Port {
    p.(synchronized := true, lastWasMaster := isMaster)
  }

  /** The port waits for a reply to this frame, under a timer of its own; or gives up at once if that could not be
      started. A timer that ran before goes on running only if it was not stopped. */
  function Awaiting(p: Port, f: Frame, running: bool, env: Env): Port
    requires |f| >= 4
  {
    var q := Noted(p, true).(reqSlave := f[0], reqFc := f[1]);
    if env.startLost then q.(state := Idle, reqValid := false, armed := running)
    else q.(state := AwaitingReply, reqValid := true, armed := true)
  }

  /** What a port that follows no exchange makes of a frame: the packet, and all of its state. */
  lemma {:induction false} IdleShows(p: Port, raw: Frame, env: Env)
    requires Sane(p) && On(p) && p.state == Idle && |raw| >= 4 && !env.queueFull
    ensures var f, o := Strip(raw), ProcessFrame(p, raw, env);
            if IsFastModbus(f[1]) then
              o == Outcome(Noted(p, !SlaveSubcommand(f[2])), Shows(f, !SlaveSubcommand(f[2]), Intact(f)))
            else if !Intact(f) then
              if p.synchronized then o == Outcome(Noted(p, !p.lastWasMaster), Shows(f, !p.lastWasMaster, false))
              else o == Outcome(p, [])
            else if f[0] == 0 then o == Outcome(Noted(p, true), Shows(f, true, true))
            else if Classify(f) == Response then o == Outcome(Noted(p, false), Shows(f, false, true))
            else o == Outcome(Awaiting(p, f, p.armed, env), Shows(f, true, true))
  {
  }

  /** What a port that waits for a reply makes of a frame: it goes on waiting for that reply after a broadcast, for
      the reply to the new frame after one that cannot be the reply, and else takes the frame for the reply. */
  lemma {:induction false} WaitingShows(p: Port, raw: Frame, env: Env)
    requires Sane(p) && On(p) && p.state == AwaitingReply && |raw| >= 4 && !env.queueFull
    ensures var f, o := Strip(raw), ProcessFrame(p, raw, env);
            if IsFastModbus(f[1]) then
              o == Outcome(Noted(p, !SlaveSubcommand(f[2])).(state := Idle, armed := env.stopLost),
                           Shows(f, !SlaveSubcommand(f[2]), Intact(f)))
            else if Intact(f) && f[0] == 0 then o == Outcome(Noted(p, true), Shows(f, true, true))
            else if Classify(f) == Request ||
                    (Classify(f) == Unknown && Intact(f) && !(f[0] == p.reqSlave && f[1] == p.reqFc)) then
              o == Outcome(Awaiting(p, f, env.stopLost, env), Shows(f, true, true))
            else o == Outcome(Noted(p, false).(state := Idle, armed := env.stopLost), Shows(f, false, Intact(f)))
  {
  }

  /** Arbitration is taken off exactly in front of a Fast Modbus frame of at least four bytes. */
  lemma {:induction false} StripMeans(fill: nat, f: Frame)
    requires |f| >= 2 && f[0] != 0xFF
    ensures var raw := seq(fill, _ => 0xFF as Byte) + f;
            Strip(raw) == if fill > 0 && |f| >= 4 && (f[1] == 0x46 || f[1] == 0x60) then f else raw
  {
    FillIsCounted(fill, f);
    var raw := seq(fill, _ => 0xFF as Byte) + f;
    assert raw[fill..] == f;
  }

  lemma {:induction false} FillIsCounted(fill: nat, f: Frame)
    requires f != [] && f[0] != 0xFF
    ensures FillerRun(seq(fill, _ => 0xFF as Byte) + f) == fill
    decreases fill
  {
    var raw := seq(fill, _ => 0xFF as Byte) + f;
    if fill > 0 {
      assert raw[1..] == seq(fill - 1, _ => 0xFF as Byte) + f;
      FillIsCounted(fill - 1, f);
    }
  }

  /** The Fast Modbus subcommands that come from a device. */
  lemma {:induction false} DeviceSubcommands(sub: Byte)
    ensures SlaveSubcommand(sub) <==> sub in {3, 4, 9, 17, 18}
  {
  }

  /** A run of corrupt frames on an idle port is shown as master and slave in turn, starting with the other side than
      the last packet. */
  lemma {:induction false} CorruptFramesAlternate(p: Port, f: Frame, g: Frame, e: Env, h: Env)
    requires Sane(p) && On(p) && p.state == Idle && p.synchronized && !e.queueFull && !h.queueFull
    requires |f| >= 4 && !IsFastModbus(Strip(f)[1]) && !Intact(Strip(f))
    requires |g| >= 4 && !IsFastModbus(Strip(g)[1]) && !Intact(Strip(g))
    ensures var first := ProcessFrame(p, f, e); var second := ProcessFrame(first.port, g, h);
            && first.packets == Shows(Strip(f), !p.lastWasMaster, false)
            && second.packets == Shows(Strip(g), p.lastWasMaster, false)
  {
    IdleShows(p, f, e);
    IdleShows(ProcessFrame(p, f, e).port, g, h);
  }

  // ---- Timeouts, reasons and a fresh port ---------------------------------------------------

  /** A timer that runs out always leaves the port idle. It reports the request that was not answered, as a silent
      packet of the master's, exactly if there is one, the port is on and the queue has room. */
  lemma {:induction false} TimeoutMeans(p: Port, queueFull: bool)
    ensures var o, reports := TimerFires(p, queueFull), p.reqValid && On(p);
            && o.port == (if reports then Noted(p, true) else p).(state := Idle, armed := false)
            && o.packets == if reports && !queueFull then [Packet([p.reqSlave, p.reqFc], true, true, true)] else []
  {
  }

  /** Taking a reason away changes that reason; the last one to go ends the exchange and stops the timer. */
  lemma {:induction false} DisableMeans(p: Port, r: Reason, stopLost: bool)
    ensures var q := TurnOff(p, r, stopLost);
            && q.display == (p.display && r != Display) && q.cache == (p.cache && r != Cache)
            && (On(p) && !On(q) ==> q == p.(display := false, cache := false, state := Idle, reqValid := false,
                                            armed := p.armed && stopLost))
            && (On(q) || !On(p) ==> q == p.(display := q.display, cache := q.cache))
  {
  }

  /** A fresh port is off, has no timer running and nothing to report; what it shows from then on is what came while
      it had a reason, from the first telling frame. */
  lemma {:induction false} FromReset(es: seq<Event>, full: bool)
    requires Runnable(Reset(), es)
    ensures Sane(Reset()) && Reset().state == Idle && !Enabled(Reset(), Expiry(full)) && !Reset().reqValid
    ensures Shown(Run(Reset(), es).packets) == Expected(es, Ear(false, false, false))
  {
    EveryFrameShownOnce(Reset(), es);
  }

  // ---- Exchanges of every kind --------------------------------------------------------------

  /** A reply to this request: shaped as a response, or, like the echo of a write, of no telling shape but with the
      address and the function code of the request. */
  predicate Answering(request: Frame, reply: Frame) {
    && Unicast(request) && Classify(request) != Response && Unicast(reply)
    && (Classify(reply) == Response || (Classify(reply) == Unknown && reply[0] == request[0] && reply[1] == request[1]))
  }

  /** Queue and timer serve a frame. */
  predicate Served(env: Env) {
    !env.queueFull && !env.startLost
  }

  lemma {:induction false} UnicastIsWhole(f: Frame)
    requires Unicast(f)
    ensures |f| >= 4 && Strip(f) == f
  {
    assert FillerRun(f) == 0;
  }

  /** One exchange on an idle port, writes and their echoes included: master, slave, and idle again. */
  lemma {:induction false} PairShown(p: Port, request: Frame, reply: Frame, e: Env, g: Env)
    requires Sane(p) && On(p) && p.state == Idle && Answering(request, reply) && Served(e) && !g.queueFull
    ensures var first := ProcessFrame(p, request, e); var second := ProcessFrame(first.port, reply, g);
            && first.packets == Shows(request, true, true) && second.packets == Shows(reply, false, true)
            && second.port.state == Idle && Sane(second.port) && On(second.port)
  {
    UnicastIsWhole(request);
    UnicastIsWhole(reply);
    IdleShows(p, request, e);
    var first := ProcessFrame(p, request, e);
    AdvanceKeepsSane(p, FactsOf(request), e);
    AdvanceKeepsReasons(p, FactsOf(request), e);
    WaitingShows(first.port, reply, g);
    AdvanceKeepsSane(first.port, FactsOf(reply), g);
    AdvanceKeepsReasons(first.port, FactsOf(reply), g);
  }

  datatype Exchange = Exchange(request: Frame, reply: Frame, e: Env, g: Env)

  function Events(xs: seq<Exchange>): seq<Event> {
    if xs == [] then [] else [Arrival(xs[0].request, xs[0].e), Arrival(xs[0].reply, xs[0].g)] + Events(xs[1..])
  }

  function Pairs(xs: seq<Exchange>): seq<Packet> {
    if xs == [] then []
    else Shows(xs[0].request, true, true) + Shows(xs[0].reply, false, true) + Pairs(xs[1..])
  }

  lemma {:induction false} RunTwo(p: Port, a: Event, b: Event, rest: seq<Event>)
    ensures var first := Step(p, a); var second := Step(first.port, b); var o := Run(second.port, rest);
            Run(p, [a, b] + rest) == Outcome(o.port, first.packets + (second.packets + o.packets))
  {
    var es := [a, b] + rest;
    assert es[1..] == [b] + rest && es[1..][1..] == rest;
    assert Run(Step(p, a).port, es[1..]).port == Run(Step(Step(p, a).port, b).port, rest).port;
  }

  /** So any number of exchanges, of any kinds, one after the other come out as master and slave in turn. */
  lemma {:induction false} ExchangesAlternate(p: Port, xs: seq<Exchange>)
    requires Sane(p) && On(p) && p.state == Idle
    requires forall x :: x in xs ==> Answering(x.request, x.reply) && Served(x.e) && !x.g.queueFull
    ensures Run(p, Events(xs)).packets == Pairs(xs) && Run(p, Events(xs)).port.state == Idle
    decreases |xs|
  {
    if xs != [] {
      var x := xs[0];
      assert x in xs;
      PairShown(p, x.request, x.reply, x.e, x.g);
      var next := ProcessFrame(ProcessFrame(p, x.request, x.e).port, x.reply, x.g).port;
      ExchangesAlternate(next, xs[1..]);
      RunTwo(p, Arrival(x.request, x.e), Arrival(x.reply, x.g), Events(xs[1..]));
      Associative(Shows(x.request, true, true), Shows(x.reply, false, true), Pairs(xs[1..]));
    }
  }

  datatype Heard = Heard(f: Frame, env: Env)

  function Arrivals(hs: seq<Heard>): seq<Event> {
    if hs == [] then [] else [Arrival(hs[0].f, hs[0].env)] + Arrivals(hs[1..])
  }

  function AllMasters(hs: seq<Heard>): seq<Packet> {
    if hs == [] then [] else Shows(hs[0].f, true, true) + AllMasters(hs[1..])
  }

  /** A write whose reply would be its echo, to another slave or with another function code than the last one. */
  predicate Other(p: Port, f: Frame) {
    Unicast(f) && Classify(f) == Unknown && (p.state == AwaitingReply ==> f[0] != p.reqSlave || f[1] != p.reqFc)
  }

  predicate NoneRepeats(hs: seq<Heard>) {
    && (forall h :: h in hs ==> Unicast(h.f) && Classify(h.f) == Unknown && !h.env.queueFull)
    && (forall i :: 0 < i < |hs| ==> hs[i].f[0] != hs[i - 1].f[0] || hs[i].f[1] != hs[i - 1].f[1])
  }

  /** And any number of unanswered writes, none to the slave and with the function code of the one before it, all
      come out as masters, whether the timer runs in between or not. */
  lemma {:induction false} UnansweredWritesAreMasters(p: Port, hs: seq<Heard>)
    requires Sane(p) && On(p) && NoneRepeats(hs) && (hs != [] ==> Other(p, hs[0].f))
    ensures Run(p, Arrivals(hs)).packets == AllMasters(hs)
    decreases |hs|
  {
    if hs != [] {
      var f, env := hs[0].f, hs[0].env;
      assert hs[0] in hs;
      UnicastIsWhole(f);
      if p.state == Idle {
        IdleShows(p, f, env);
      } else {
        WaitingShows(p, f, env);
      }
      AdvanceKeepsSane(p, FactsOf(f), env);
      AdvanceKeepsReasons(p, FactsOf(f), env);
      assert forall i :: 0 <= i < |hs[1..]| ==> hs[1..][i] == hs[i + 1];
      if hs[1..] != [] {
        assert hs[1] in hs && hs[1..][0] == hs[1];
      }
      UnansweredWritesAreMasters(ProcessFrame(p, f, env).port, hs[1..]);
      assert Arrivals(hs)[1..] == Arrivals(hs[1..]);
    }
  }
}

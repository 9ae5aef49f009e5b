/**
 The I/O bus of the emulated board (main/qemu/virtual_io_qemu.c, main/qemu/gpio_shim_qemu.c): pin state
 mirrored to a host in five-character records, and the rules about who may drive which pin.
 */
module IoBus {
  import opened Bytes
  import opened Options

  const EXPANDER_PINS := 16
  const NATIVE_PINS := 40

  datatype Dir = Unconfigured | Input | Output

  /** The level on the line, and the output register that takes the line over when the pad becomes an output. */
  datatype Pin = Pin(dir: Dir, level: bool, latch: bool)

  datatype Record =
    | E(n: nat, level: bool)
    | G(n: nat, level: bool)
    | D(n: nat, output: bool)
    | V(n: nat, cause: nat)

  const HOST_WROTE_OUTPUT := 0
  const FIRMWARE_WROTE_INPUT := 1
  const OPERATED_UNCONFIGURED := 2

  datatype Device = Device(expander: seq<bool>, native: seq<Pin>)

  predicate Valid(d: Device) {
    |d.expander| == EXPANDER_PINS && |d.native| == NATIVE_PINS
  }

  function PowerUp(): Device {
    Device(seq(EXPANDER_PINS, _ => false), seq(NATIVE_PINS, _ => Pin(Unconfigured, false, false)))
  }

  /** The pads of the chip that have an output driver. */
  predicate OutputCapable(n: nat) {
    n < 34 && n !in {24, 28, 29, 30, 31}
  }

  // ---- Operations: the new state and the records emitted ------------------------------------

  datatype Outcome = Outcome(device: Device, records: seq<Record>)

  function WithPin(d: Device, n: nat, p: Pin): Device
    requires Valid(d) && n < NATIVE_PINS
  {
    d.(native := d.native[n := p])
  }

  /** vio_native_set_direction. */
  function SetDirection(d: Device, n: nat, dir: Dir): Outcome
    requires Valid(d)
  {
    if n >= NATIVE_PINS then Outcome(d, [])
    else if dir == Output && !OutputCapable(n) then Outcome(d, [V(n, FIRMWARE_WROTE_INPUT)])
    else
      var p := d.native[n];
      if p.dir == dir then Outcome(d, [])
      else
        match dir
        case Unconfigured => Outcome(WithPin(d, n, p.(dir := Unconfigured)), [])
        case Input => Outcome(WithPin(d, n, Pin(Input, true, p.latch)), [D(n, false), G(n, true)])
        case Output =>
          Outcome(WithPin(d, n, Pin(Output, p.latch, p.latch)), [D(n, true)] + if p.level == p.latch then []
              else [G(n, p.latch)])
  }

  /** vio_native_fw_set_level: the register always, the line only on an output. */
  function DriveLatch(d: Device, n: nat, level: bool): Outcome
    requires Valid(d)
  {
    if n >= NATIVE_PINS then Outcome(d, [])
    else
      var p := d.native[n];
      if p.dir != Output then Outcome(WithPin(d, n, p.(latch := level)), [])
      else Outcome(WithPin(d, n, Pin(Output, level, level)), if p.level == level then [] else [G(n, level)])
  }

  /** gpio_set_level through the shim: pins never configured are not tracked. */
  function FirmwareWrite(d: Device, n: nat, level: bool): Outcome
    requires Valid(d)
  {
    if n >= NATIVE_PINS || d.native[n].dir == Unconfigured then Outcome(d, []) else DriveLatch(d, n, level)
  }

  /** uart_set_pin: the RTS line becomes an output idling high. */
  function AttachUart(d: Device, n: nat): Outcome
    requires Valid(d)
  {
    var first := SetDirection(d, n, Output);
    var second := DriveLatch(first.device, n, true);
    Outcome(second.device, first.records + second.records)
  }

  /** A G record from the host. */
  function HostWrite(d: Device, n: nat, level: bool): Outcome
    requires Valid(d)
  {
    if n >= NATIVE_PINS then Outcome(d, [])
    else
      var p := d.native[n];
      match p.dir
      case Input => if p.level == level then Outcome(d, [])
          else Outcome(WithPin(d, n, p.(level := level)), [G(n, level)])
      case Output => Outcome(d, [V(n, HOST_WROTE_OUTPUT)])
      case Unconfigured => Outcome(d, [V(n, OPERATED_UNCONFIGURED)])
  }

  /** gpio_expander_set_level: the masked pins in order, a record for each that changes. */
  function ExpanderFrom(d: Device, mask: set<nat>, level: bool, n: nat): (o: Outcome)
    requires Valid(d) && n <= EXPANDER_PINS
    ensures Valid(o.device)
    decreases EXPANDER_PINS - n
  {
    if n == EXPANDER_PINS then Outcome(d, [])
    else if n !in mask || d.expander[n] == level then ExpanderFrom(d, mask, level, n + 1)
    else
      var rest := ExpanderFrom(d.(expander := d.expander[n := level]), mask, level, n + 1);
      Outcome(rest.device, [E(n, level)] + rest.records)
  }

  function DumpExpander(d: Device, n: nat): seq<Record>
    requires Valid(d) && n <= EXPANDER_PINS
    decreases EXPANDER_PINS - n
  {
    if n == EXPANDER_PINS then [] else [E(n, d.expander[n])] + DumpExpander(d, n + 1)
  }

  /** A pin nobody has configured is not reported. */
  function PinRecords(p: Pin, n: nat): seq<Record> {
    if p.dir == Unconfigured then [] else [D(n, p.dir == Output), G(n, p.level)]
  }

  function DumpNative(d: Device, n: nat): seq<Record>
    requires Valid(d) && n <= NATIVE_PINS
    decreases NATIVE_PINS - n
  {
    if n == NATIVE_PINS then []
    else
      PinRecords(d.native[n], n) + DumpNative(d, n + 1)
  }

  function Dump(d: Device): seq<Record>
    requires Valid(d)
  {
    DumpExpander(d, 0) + DumpNative(d, 0)
  }

  // ---- The host -----------------------------------------------------------------------------

  datatype Host = Host(expander: map<nat, bool>, output: map<nat, bool>, level: map<nat, bool>)

  const BLANK := Host(map[], map[], map[])

  function Hear(h: Host, r: Record): Host {
    match r
    case E(n, level) => h.(expander := h.expander[n := level])
    case G(n, level) => h.(level := h.level[n := level])
    case D(n, output) => h.(output := h.output[n := output])
    case V(_, _) => h
  }

  function HearAll(h: Host, rs: seq<Record>): Host
    decreases |rs|
  {
    if rs == [] then h else HearAll(Hear(h, rs[0]), rs[1..])
  }

  lemma {:induction false} HearConcat(h: Host, a: seq<Record>, b: seq<Record>)
    ensures HearAll(h, a + b) == HearAll(HearAll(h, a), b)
    decreases |a|
  {
    if a == [] {
      assert a + b == b;
    } else {
      assert (a + b)[1..] == a[1..] + b;
      HearConcat(Hear(h, a[0]), a[1..], b);
    }
  }

  /** What the host knows about a pin is right. */
  predicate PinTrue(d: Device, h: Host, n: nat)
    requires Valid(d) && n < NATIVE_PINS
  {
    && (d.native[n].dir != Unconfigured ==> n in h.output && h.output[n] == (d.native[n].dir == Output))
    && (n in h.level ==> h.level[n] == d.native[n].level)
  }

  predicate ExpanderTrue(d: Device, h: Host, n: nat)
    requires Valid(d) && n < EXPANDER_PINS
  {
    n in h.expander && h.expander[n] == d.expander[n]
  }

  /** Nothing the host believes is wrong. */
  predicate Truthful(d: Device, h: Host) {
    && Valid(d)
    && (forall n :: 0 <= n < NATIVE_PINS ==> PinTrue(d, h, n))
    && (forall n :: 0 <= n < EXPANDER_PINS ==> ExpanderTrue(d, h, n))
  }

  /** A configured pin whose level the host has not been told. */
  predicate Untold(d: Device, h: Host, n: nat)
    requires Valid(d) && n < NATIVE_PINS
  {
    d.native[n].dir != Unconfigured && n !in h.level
  }

  /** The promise: the host knows every expander pin and every configured native pin. */
  predicate Mirrors(d: Device, h: Host) {
    Truthful(d, h) && forall n :: 0 <= n < NATIVE_PINS ==> !Untold(d, h, n)
  }

  // ---- The dump -----------------------------------------------------------------------------

  lemma {:induction false} ExpanderDumped(d: Device, h: Host, k: nat, n: nat)
    requires Valid(d) && k <= EXPANDER_PINS && n < EXPANDER_PINS
    requires n < k ==> ExpanderTrue(d, h, n)
    ensures var t := HearAll(h, DumpExpander(d, k));
            ExpanderTrue(d, t, n) && t.output == h.output && t.level == h.level
    decreases EXPANDER_PINS - k
  {
    if k < EXPANDER_PINS {
      var rs := DumpExpander(d, k);
      assert rs[1..] == DumpExpander(d, k + 1);
      ExpanderDumped(d, Hear(h, rs[0]), k + 1, n);
    }
  }

  /** The host has pin n right, and knows its level exactly if the pin is configured. */
  predicate Reported(d: Device, h: Host, n: nat)
    requires Valid(d) && n < NATIVE_PINS
  {
    PinTrue(d, h, n) && (n in h.level <==> d.native[n].dir != Unconfigured)
  }

  lemma {:induction false} NativeDumped(d: Device, h: Host, k: nat, n: nat)
    requires Valid(d) && k <= NATIVE_PINS && n < NATIVE_PINS
    requires if n < k then Reported(d, h, n) else n !in h.output && n !in h.level
    ensures var t := HearAll(h, DumpNative(d, k)); Reported(d, t, n) && t.expander == h.expander
    decreases NATIVE_PINS - k
  {
    if k < NATIVE_PINS {
      var rs := DumpNative(d, k);
      var p := d.native[k];
      if p.dir == Unconfigured {
        assert rs == DumpNative(d, k + 1);
        NativeDumped(d, h, k + 1, n);
      } else {
        assert rs[1..][1..] == DumpNative(d, k + 1);
        NativeDumped(d, Hear(Hear(h, rs[0]), rs[1]), k + 1, n);
      }
    }
  }

  /** A new peer is told everything there is to know. */
  lemma {:induction false} DumpMirrors(d: Device)
    requires Valid(d)
    ensures Mirrors(d, HearAll(BLANK, Dump(d)))
  {
    var mid := HearAll(BLANK, DumpExpander(d, 0));
    HearConcat(BLANK, DumpExpander(d, 0), DumpNative(d, 0));
    forall n | 0 <= n < EXPANDER_PINS
      ensures ExpanderTrue(d, HearAll(BLANK, Dump(d)), n)
    {
      ExpanderDumped(d, BLANK, 0, n);
      NativeDumped(d, mid, 0, 0);
    }
    forall n | 0 <= n < NATIVE_PINS
      ensures PinTrue(d, HearAll(BLANK, Dump(d)), n) && !Untold(d, HearAll(BLANK, Dump(d)), n)
    {
      ExpanderDumped(d, BLANK, 0, 0);
      NativeDumped(d, mid, 0, n);
    }
  }

  // ---- Every operation keeps the host truthful ----------------------------------------------

  lemma {:induction false} HearOne(h: Host, r: Record)
    ensures HearAll(h, [r]) == Hear(h, r)
  {
  }

  lemma {:induction false} HearTwo(h: Host, r: Record, q: Record)
    ensures HearAll(h, [r, q]) == Hear(Hear(h, r), q)
  {
    assert [r, q][1..] == [q];
    HearOne(Hear(h, r), q);
  }

  /** A change of one pin that the host hears about in full leaves it truthful. */
  lemma {:induction false} OnePinChanged(d: Device, h: Host, n: nat, p: Pin, h': Host)
    requires Truthful(d, h) && n < NATIVE_PINS && PinTrue(WithPin(d, n, p), h', n)
    requires h'.expander == h.expander
    requires forall m :: m != n ==> (m in h'.output <==> m in h.output) && (m in h'.level <==> m in h.level)
    requires forall m :: m != n && m in h.output ==> h'.output[m] == h.output[m]
    requires forall m :: m != n && m in h.level ==> h'.level[m] == h.level[m]
    ensures Truthful(WithPin(d, n, p), h')
  {
    var t := WithPin(d, n, p);
    forall m | 0 <= m < NATIVE_PINS
      ensures PinTrue(t, h', m)
    {
      if m != n {
        assert PinTrue(d, h, m);
      }
    }
    forall m | 0 <= m < EXPANDER_PINS
      ensures ExpanderTrue(t, h', m)
    {
      assert ExpanderTrue(d, h, m);
    }
  }

  /** How the host comes to know a direction: it learns the level too, unless the pad came up as an output
      already at its latched level. */
  lemma {:induction false} SetDirectionTruthful(d: Device, h: Host, n: nat, dir: Dir)
    requires Truthful(d, h)
    ensures var o := SetDirection(d, n, dir); Truthful(o.device, HearAll(h, o.records))
  {
    var o := SetDirection(d, n, dir);
    if n < NATIVE_PINS && o.device != d {
      var p := d.native[n];
      assert PinTrue(d, h, n);
      var q := o.device.native[n];
      if dir == Input {
        HearTwo(h, D(n, false), G(n, true));
      } else if dir == Output && p.level != p.latch {
        assert o.records == [D(n, true), G(n, p.latch)];
        HearTwo(h, D(n, true), G(n, p.latch));
      } else if dir == Output {
        assert o.records == [D(n, true)];
        HearOne(h, D(n, true));
      }
      OnePinChanged(d, h, n, q, HearAll(h, o.records));
    } else if o.records != [] {
      HearOne(h, V(n, FIRMWARE_WROTE_INPUT));
    }
  }

  lemma {:induction false} DriveLatchTruthful(d: Device, h: Host, n: nat, level: bool)
    requires Truthful(d, h)
    ensures var o := DriveLatch(d, n, level); Truthful(o.device, HearAll(h, o.records))
  {
    if n < NATIVE_PINS {
      assert PinTrue(d, h, n);
      HearOne(h, G(n, level));
      var o := DriveLatch(d, n, level);
      OnePinChanged(d, h, n, o.device.native[n], HearAll(h, o.records));
    }
  }

  lemma {:induction false} HostWriteTruthful(d: Device, h: Host, n: nat, level: bool)
    requires Truthful(d, h)
    ensures var o := HostWrite(d, n, level); Truthful(o.device, HearAll(h, o.records))
  {
    var o := HostWrite(d, n, level);
    if n < NATIVE_PINS {
      assert PinTrue(d, h, n);
      if o.records != [] {
        HearOne(h, o.records[0]);
      }
      if o.device != d {
        OnePinChanged(d, h, n, o.device.native[n], HearAll(h, o.records));
      }
    }
  }

  lemma {:induction false} ExpanderPinTruthful(d: Device, h: Host, n: nat, level: bool)
    requires Truthful(d, h) && n < EXPANDER_PINS
    ensures Truthful(d.(expander := d.expander[n := level]), Hear(h, E(n, level)))
  {
    var t, g := d.(expander := d.expander[n := level]), Hear(h, E(n, level));
    forall m | 0 <= m < NATIVE_PINS
      ensures PinTrue(t, g, m)
    {
      assert PinTrue(d, h, m);
    }
    forall m | 0 <= m < EXPANDER_PINS
      ensures ExpanderTrue(t, g, m)
    {
      assert ExpanderTrue(d, h, m);
    }
  }

  lemma {:induction false} ExpanderTruthful(d: Device, h: Host, mask: set<nat>, level: bool, n: nat)
    requires Truthful(d, h) && n <= EXPANDER_PINS
    ensures var o := ExpanderFrom(d, mask, level, n); Truthful(o.device, HearAll(h, o.records))
    decreases EXPANDER_PINS - n
  {
    if n < EXPANDER_PINS {
      if n !in mask || d.expander[n] == level {
        ExpanderTruthful(d, h, mask, level, n + 1);
      } else {
        var t := d.(expander := d.expander[n := level]);
        ExpanderPinTruthful(d, h, n, level);
        ExpanderTruthful(t, Hear(h, E(n, level)), mask, level, n + 1);
        var rest := ExpanderFrom(t, mask, level, n + 1);
        assert ([E(n, level)] + rest.records)[1..] == rest.records;
      }
    }
  }

  // ---- Runs ---------------------------------------------------------------------------------

  datatype Event =
    | Configure(n: nat, dir: Dir)
    | Write(n: nat, level: bool)
    | Attach(n: nat)
    | SetExpander(mask: set<nat>, level: bool)
    | ResetExpander
    | Receive(datagram: string, newPeer: bool)

  function Digit(c: char): nat
    requires '0' <= c <= '9'
  {
    (c - '0') as nat
  }

  predicate IsDigit(c: char) {
    '0' <= c <= '9'
  }

  /** parse_record: five characters, one newline tolerated, only E and G, level 0 or 1. */
  function Parse(s: string): Option<Record> {
    var b := if |s| == 6 && s[5] == '\n' then s[..5] else s;
    if |b| != 5 || (b[0] != 'E' && b[0] != 'G') || !IsDigit(b[1]) || !IsDigit(b[2]) || b[3] != '/' ||
        (b[4] != '0' && b[4] != '1')
    then None
    else
      var n := Digit(b[1]) * 10 + Digit(b[2]);
      Some(if b[0] == 'E' then E(n, b[4] == '1') else G(n, b[4] == '1'))
  }

  function DigitChar(n: nat): char
    requires n < 10
  {
    '0' + n as char
  }

  /** encode_record. */
  function Encode(r: Record): string
    requires r.n < 100
  {
    var number := [DigitChar(r.n / 10), DigitChar(r.n % 10), '/'];
    match r
    case E(_, level) => ['E'] + number + [if level then '1' else '0']
    case G(_, level) => ['G'] + number + [if level then '1' else '0']
    case D(_, output) => ['D'] + number + [if output then '1' else '0']
    case V(_, cause) => ['V'] + number + [DigitChar(cause % 8)]
  }

  /** What one side encodes the other decodes, with or without a newline; reports are never taken for commands. */
  lemma {:induction false} RecordRoundTrip(r: Record)
    requires r.n < 100
    ensures |Encode(r)| == 5
    ensures Parse(Encode(r)) == if r.E? || r.G? then Some(r) else None
    ensures Parse(Encode(r) + "\n") == Parse(Encode(r))
  {
  }

  function Handle(d: Device, datagram: string): Outcome
    requires Valid(d)
  {
    match Parse(datagram)
    case None => Outcome(d, [])
    case Some(r) =>
      if r.G? then HostWrite(d, r.n, r.level)
      else if r.n < EXPANDER_PINS then ExpanderFrom(d, {r.n}, r.level, 0)
      else Outcome(d, [])
  }

  function Step(d: Device, e: Event): (o: Outcome)
    requires Valid(d)
    ensures Valid(o.device)
  {
    match e
    case Configure(n, dir) => SetDirection(d, n, dir)
    case Write(n, level) => FirmwareWrite(d, n, level)
    case Attach(n) => AttachUart(d, n)
    case SetExpander(mask, level) => ExpanderFrom(d, mask, level, 0)
    case ResetExpander => Outcome(d.(expander := PowerUp().expander), [])
    case Receive(datagram, _) => Handle(d, datagram)
  }

  /** The device and the host that follows it. A new peer starts from the dump. */
  datatype Bus = Bus(device: Device, host: Host)

  function BusStep(b: Bus, e: Event): (t: Bus)
    requires Valid(b.device)
    ensures Valid(t.device)
  {
    var host := if e.Receive? && e.newPeer then HearAll(BLANK, Dump(b.device)) else b.host;
    var o := Step(b.device, e);
    Bus(o.device, HearAll(host, o.records))
  }

  /** One event keeps the host truthful exactly unless it resets expander pins that are not already low. */
  lemma {:induction false} StepTruthfulExactly(b: Bus, e: Event)
    requires Truthful(b.device, b.host)
    ensures Truthful(BusStep(b, e).device, BusStep(b, e).host) <==>
            !(e.ResetExpander? && exists n :: 0 <= n < EXPANDER_PINS && b.device.expander[n])
  {
    var d, h := b.device, b.host;
    match e
    case Configure(n, dir) => SetDirectionTruthful(d, h, n, dir);
    case Write(n, level) => DriveLatchTruthful(d, h, n, level);
    case Attach(n) => AttachTruthful(d, h, n);
    case SetExpander(mask, level) => ExpanderTruthful(d, h, mask, level, 0);
    case ResetExpander => ResetExactly(d, h);
    case Receive(datagram, newPeer) =>
      if newPeer {
        DumpMirrors(d);
        HandleTruthful(d, HearAll(BLANK, Dump(d)), datagram);
      } else {
        HandleTruthful(d, h, datagram);
      }
  }

  lemma {:induction false} AttachTruthful(d: Device, h: Host, n: nat)
    requires Truthful(d, h)
    ensures var o := AttachUart(d, n); Truthful(o.device, HearAll(h, o.records))
  {
    var first := SetDirection(d, n, Output);
    SetDirectionTruthful(d, h, n, Output);
    DriveLatchTruthful(first.device, HearAll(h, first.records), n, true);
    HearConcat(h, first.records, DriveLatch(first.device, n, true).records);
  }

  lemma {:induction false} HandleTruthful(d: Device, h: Host, datagram: string)
    requires Truthful(d, h)
    ensures var o := Handle(d, datagram); Truthful(o.device, HearAll(h, o.records))
  {
    match Parse(datagram)
    case None =>
    case Some(r) =>
      if r.G? {
        HostWriteTruthful(d, h, r.n, r.level);
      } else {
        ExpanderTruthful(d, h, {r.n}, r.level, 0);
      }
  }

  lemma {:induction false} ResetExactly(d: Device, h: Host)
    requires Truthful(d, h)
    ensures Truthful(d.(expander := PowerUp().expander), h) <==> forall n :: 0 <= n < EXPANDER_PINS ==> !d.expander[n]
  {
    var t := d.(expander := PowerUp().expander);
    forall n | 0 <= n < EXPANDER_PINS
      ensures ExpanderTrue(t, h, n) <==> !d.expander[n]
    {
      assert ExpanderTrue(d, h, n);
    }
    forall n | 0 <= n < NATIVE_PINS
      ensures PinTrue(t, h, n)
    {
      assert PinTrue(d, h, n);
    }
  }

  // ---- When the mirror is complete ----------------------------------------------------------

  lemma {:induction false} NothingForgotten(h: Host, rs: seq<Record>)
    ensures h.level.Keys <= HearAll(h, rs).level.Keys
    decreases |rs|
  {
    if rs != [] {
      NothingForgotten(Hear(h, rs[0]), rs[1..]);
    }
  }

  /** A pin the host was never told about that comes up as an output already at its latched level. */
  predicate SilentOutput(b: Bus, e: Event)
    requires Valid(b.device)
  {
    && ((e.Configure? && e.dir == Output) || e.Attach?)
    && e.n < NATIVE_PINS && OutputCapable(e.n) && e.n !in b.host.level
    && b.device.native[e.n].dir == Unconfigured
    && b.device.native[e.n].level == b.device.native[e.n].latch
    && (e.Attach? ==> b.device.native[e.n].level)
  }

  /** Only the addressed pin can become configured. */
  lemma {:induction false} OthersStay(d: Device, e: Event, m: nat)
    requires Valid(d) && m < NATIVE_PINS
    ensures Valid(Step(d, e).device)
    ensures Step(d, e).device.native[m].dir != d.native[m].dir ==> (e.Configure? || e.Attach?) && e.n == m
  {
    if e.SetExpander? {
      ExpanderKeepsNative(d, e.mask, e.level, 0);
    } else if e.Receive? {
      match Parse(e.datagram)
      case None =>
      case Some(r) =>
        if r.E? {
          ExpanderKeepsNative(d, {r.n}, r.level, 0);
        }
    }
  }

  lemma {:induction false} ExpanderKeepsNative(d: Device, mask: set<nat>, level: bool, n: nat)
    requires Valid(d) && n <= EXPANDER_PINS
    ensures ExpanderFrom(d, mask, level, n).device.native == d.native && Valid(ExpanderFrom(d, mask, level, n).device)
    decreases EXPANDER_PINS - n
  {
    if n < EXPANDER_PINS {
      ExpanderKeepsNative(d, mask, level, n + 1);
      ExpanderKeepsNative(d.(expander := d.expander[n := level]), mask, level, n + 1);
    }
  }

  lemma {:induction false} ConfiguredPinTold(b: Bus, e: Event)
    requires Truthful(b.device, b.host) && (e.Configure? || e.Attach?) && e.n < NATIVE_PINS
    requires !Untold(b.device, b.host, e.n)
    ensures Untold(BusStep(b, e).device, BusStep(b, e).host, e.n) <==> SilentOutput(b, e)
  {
    var d, h, n := b.device, b.host, e.n;
    var p := d.native[n];
    var dir := if e.Attach? then Output else e.dir;
    var first := SetDirection(d, n, dir);
    NothingForgotten(h, Step(d, e).records);
    HearOne(h, D(n, true));
    HearTwo(h, D(n, false), G(n, true));
    HearTwo(h, D(n, true), G(n, p.latch));
    HearOne(h, V(n, FIRMWARE_WROTE_INPUT));
    if e.Attach? {
      HearConcat(h, first.records, DriveLatch(first.device, n, true).records);
      HearOne(HearAll(h, first.records), G(n, true));
    }
    if dir == Output && OutputCapable(n) && p.dir == Unconfigured {
      assert first.records == if p.level == p.latch then [D(n, true)] else [D(n, true), G(n, p.latch)];
    }
  }

  /** From a complete mirror, one event leaves a complete mirror exactly unless it brings up a silent
      output or resets expander pins that are not already low. */
  lemma {:induction false} MirrorStepExactly(b: Bus, e: Event)
    requires Mirrors(b.device, b.host)
    ensures Mirrors(BusStep(b, e).device, BusStep(b, e).host) <==>
            !SilentOutput(b, e) && !(e.ResetExpander? && exists n :: 0 <= n < EXPANDER_PINS && b.device.expander[n])
  {
    StepTruthfulExactly(b, e);
    var t := BusStep(b, e);
    forall m | 0 <= m < NATIVE_PINS
      ensures Valid(t.device) && (Untold(t.device, t.host, m) <==> SilentOutput(b, e) && e.n == m)
    {
      PinToldAfter(b, e, m);
    }
    if SilentOutput(b, e) {
      assert Untold(t.device, t.host, e.n);
    }
  }

  lemma {:induction false} PinToldAfter(b: Bus, e: Event, m: nat)
    requires Mirrors(b.device, b.host) && m < NATIVE_PINS
    ensures Valid(BusStep(b, e).device)
    ensures Untold(BusStep(b, e).device, BusStep(b, e).host, m) <==> SilentOutput(b, e) && e.n == m
  {
    var d := b.device;
    OthersStay(d, e, m);
    assert !Untold(d, b.host, m);
    if (e.Configure? || e.Attach?) && e.n == m {
      ConfiguredPinTold(b, e);
    } else {
      var host := if e.Receive? && e.newPeer then HearAll(BLANK, Dump(d)) else b.host;
      DumpMirrors(d);
      assert !Untold(d, host, m);
      NothingForgotten(host, Step(d, e).records);
    }
  }

  // ---- Who drives what ----------------------------------------------------------------------

  /** A pin takes the direction it is given, unless its pad cannot drive it: an input floats high, an output shows
      its register at once, and a pin that is given up keeps its line. The register and all other pins stay. */
  lemma {:induction false} DirectionMeans(d: Device, n: nat, dir: Dir)
    requires Valid(d) && n < NATIVE_PINS && (dir == Output ==> OutputCapable(n))
    ensures var p, o := d.native[n], SetDirection(d, n, dir);
            && Valid(o.device) && o.device.expander == d.expander
            && (forall m :: 0 <= m < NATIVE_PINS && m != n ==> o.device.native[m] == d.native[m])
            && o.device.native[n].dir == dir && o.device.native[n].latch == p.latch
            && o.device.native[n].level ==
               if p.dir == dir || dir == Unconfigured then p.level else if dir == Input then true else p.latch
  {
  }

  /** A firmware write always lands in the register of a configured pin, and on the line exactly of an output. */
  lemma {:induction false} FirmwareDrives(d: Device, n: nat, level: bool)
    requires Valid(d) && n < NATIVE_PINS
    ensures var p, o := d.native[n], FirmwareWrite(d, n, level);
            && Valid(o.device) && o.device.expander == d.expander
            && (forall m :: 0 <= m < NATIVE_PINS && m != n ==> o.device.native[m] == d.native[m])
            && o.device.native[n] ==
               match p.dir {
                 case Unconfigured => p
                 case Input => Pin(Input, p.level, level)
                 case Output => Pin(Output, level, level)
               }
  {
  }

  /** A host write to an input puts that level on the line, and is echoed exactly if it changes it; nothing else
      of the pin and no other pin is touched. */
  lemma {:induction false} HostDrivesInputs(d: Device, n: nat, level: bool)
    requires Valid(d) && n < NATIVE_PINS && d.native[n].dir == Input
    ensures var o := HostWrite(d, n, level);
            && Valid(o.device) && o.device.native[n] == Pin(Input, level, d.native[n].latch)
            && o.device.expander == d.expander
            && (forall m :: 0 <= m < NATIVE_PINS && m != n ==> o.device.native[m] == d.native[m])
            && o.records == if d.native[n].level == level then [] else [G(n, level)]
  {
  }

  /** Any other write is refused with one record that says why, 0 on an output and 2 on a pin nobody configured, and
      changes nothing. A pin that is not there is not answered. */
  lemma {:induction false} HostIsRefused(d: Device, n: nat, level: bool)
    requires Valid(d) && (n >= 40 || d.native[n].dir != Input)
    ensures var o := HostWrite(d, n, level);
            && o.device == d && |o.records| == (if n < 40 then 1 else 0)
            && (n < 40 ==> o.records[0] == V(n, if d.native[n].dir == Output then 0 else 2))
  {
  }

  /** The host never changes an output, nor any direction. */
  lemma {:induction false} HostLeavesOutputsAlone(d: Device, datagram: string, newPeer: bool, n: nat)
    requires Valid(d) && n < NATIVE_PINS
    ensures var t := Step(d, Receive(datagram, newPeer)).device;
            Valid(t) && t.native[n].dir == d.native[n].dir && (d.native[n].dir != Input ==> t.native[n] == d.native[n])
  {
    match Parse(datagram)
    case None =>
    case Some(r) =>
      if r.E? {
        ExpanderKeepsNative(d, {r.n}, r.level, 0);
      }
  }

  /** The firmware never changes the level of a pin that stays an input. */
  lemma {:induction false} FirmwareLeavesInputsAlone(d: Device, e: Event, n: nat)
    requires Valid(d) && !e.Receive? && n < NATIVE_PINS && d.native[n].dir == Input
    ensures var t := Step(d, e).device;
            Valid(t) && (t.native[n].dir == Input ==> t.native[n].level == d.native[n].level)
  {
    if e.SetExpander? {
      ExpanderKeepsNative(d, e.mask, e.level, 0);
    }
  }

  predicate Violates(rs: seq<Record>, n: nat, cause: nat) {
    V(n, cause) in rs
  }

  /** The operations that are refused, with the pin and the cause. */
  predicate Refused(d: Device, e: Event, n: nat, cause: nat)
    requires Valid(d)
  {
    n < NATIVE_PINS &&
    match e {
      case Configure(m, dir) => m == n && dir == Output && !OutputCapable(n) && cause == FIRMWARE_WROTE_INPUT
      case Attach(m) => m == n && !OutputCapable(n) && cause == FIRMWARE_WROTE_INPUT
      case Receive(datagram, _) =>
        var r := Parse(datagram);
        && r.Some? && r.value.G? && r.value.n == n && d.native[n].dir != Input
        && cause == (if d.native[n].dir == Output then HOST_WROTE_OUTPUT else OPERATED_UNCONFIGURED)
      case _ => false
    }
  }

  lemma {:induction false} ExpanderReportsNothingElse(d: Device, mask: set<nat>, level: bool, k: nat, n: nat,
                                                      cause: nat)
    requires Valid(d) && k <= EXPANDER_PINS
    ensures !Violates(ExpanderFrom(d, mask, level, k).records, n, cause)
    decreases EXPANDER_PINS - k
  {
    if k < EXPANDER_PINS {
      ExpanderReportsNothingElse(d, mask, level, k + 1, n, cause);
      ExpanderReportsNothingElse(d.(expander := d.expander[k := level]), mask, level, k + 1, n, cause);
    }
  }

  /** Only pads with an output driver are ever outputs. */
  predicate Wired(d: Device)
    requires Valid(d)
  {
    forall n :: 0 <= n < NATIVE_PINS && d.native[n].dir == Output ==> OutputCapable(n)
  }

  lemma {:induction false} StaysWired(d: Device, e: Event)
    requires Valid(d) && Wired(d)
    ensures Wired(PowerUp()) && Wired(Step(d, e).device)
  {
    forall n | 0 <= n < NATIVE_PINS && Step(d, e).device.native[n].dir == Output
      ensures OutputCapable(n)
    {
      OthersStay(d, e, n);
    }
  }

  /** A violation is reported exactly for a refused operation, under its own cause, and neither the direction
      nor the level of that pin changes. */
  lemma {:induction false} ViolationsExactly(d: Device, e: Event, n: nat, cause: nat)
    requires Valid(d) && Wired(d)
    ensures Violates(Step(d, e).records, n, cause) <==> Refused(d, e, n, cause)
    ensures Refused(d, e, n, cause) ==>
            var p, q := d.native[n], Step(d, e).device.native[n]; q.dir == p.dir && q.level == p.level
  {
    match e
    case SetExpander(mask, level) => ExpanderReportsNothingElse(d, mask, level, 0, n, cause);
    case Receive(datagram, _) =>
      var r := Parse(datagram);
      if r.Some? && r.value.E? {
        ExpanderReportsNothingElse(d, {r.value.n}, r.value.level, 0, n, cause);
      }
    case _ =>
  }

  // ---- The code -----------------------------------------------------------------------------

  /** What was sent, followed by what is still to come, is what will have been sent. */
  ghost predicate ToSend(goal: seq<Record>, sent: seq<Record>, rest: seq<Record>) {
    goal == sent + rest
  }

  lemma {:induction false} SendMore(goal: seq<Record>, sent: seq<Record>, now: seq<Record>, rest: seq<Record>)
    requires ToSend(goal, sent, now + rest)
    ensures ToSend(goal, sent + now, rest)
  {
  }

  lemma {:induction false} DumpNext(goal: seq<Record>, sent: seq<Record>, d: Device, n: nat)
    requires Valid(d) && n < NATIVE_PINS && ToSend(goal, sent, DumpNative(d, n))
    ensures ToSend(goal, sent + PinRecords(d.native[n], n), DumpNative(d, n + 1))
  {
  }

  lemma {:induction false} ExpanderNext(d: Device, mask: set<nat>, level: bool, n: nat)
    requires Valid(d) && n < EXPANDER_PINS
    ensures n in mask && d.expander[n] != level ==>
            var t := d.(expander := d.expander[n := level]);
            ExpanderFrom(d, mask, level, n) ==
            Outcome(ExpanderFrom(t, mask, level, n + 1).device,
                [E(n, level)] + ExpanderFrom(t, mask, level, n + 1).records)
    ensures !(n in mask && d.expander[n] != level) ==>
            ExpanderFrom(d, mask, level, n) == ExpanderFrom(d, mask, level, n + 1)
  {
  }

  class VirtualIo {
    const expander: array<bool>
    const native: array<Pin>
    var sent: seq<Record>

    ghost predicate Shape()
      reads this, expander, native
    {
      expander.Length == EXPANDER_PINS && native.Length == NATIVE_PINS
    }

    ghost function View(): (d: Device)
      requires Shape()
      reads this, expander, native
      ensures Valid(d)
    {
      Device(expander[..], native[..])
    }

    method ExpanderSetLevel(mask: set<nat>, level: bool)
      requires Shape()
      modifies this, expander
      ensures Shape()
      ensures View() == ExpanderFrom(old(View()), mask, level, 0).device
      ensures sent == old(sent) + ExpanderFrom(old(View()), mask, level, 0).records
    {
      ghost var goal := ExpanderFrom(View(), mask, level, 0);
      ghost var all := sent + goal.records;
      for pin := 0 to EXPANDER_PINS
        invariant Shape()
        invariant goal.device == ExpanderFrom(View(), mask, level, pin).device
        invariant ToSend(all, sent, ExpanderFrom(View(), mask, level, pin).records)
      {
        ghost var before := View();
        ExpanderNext(before, mask, level, pin);
        if pin in mask && expander[pin] != level {
          expander[pin] := level;
          assert View() == before.(expander := before.expander[pin := level]);
          SendMore(all, sent, [E(pin, level)], ExpanderFrom(View(), mask, level, pin + 1).records);
          sent := sent + [E(pin, level)];
        }
      }
    }

    method SendFullDump()
      requires Shape()
      modifies `sent
      ensures sent == old(sent) + Dump(View())
    {
      SendExpanderDump();
      SendNativeDump();
      Associative(old(sent), DumpExpander(View(), 0), DumpNative(View(), 0));
    }

    method SendExpanderDump()
      requires Shape()
      modifies `sent
      ensures sent == old(sent) + DumpExpander(View(), 0)
    {
      ghost var d := View();
      ghost var all := sent + DumpExpander(d, 0);
      for pin := 0 to EXPANDER_PINS
        invariant View() == d && ToSend(all, sent, DumpExpander(d, pin))
      {
        SendMore(all, sent, [E(pin, expander[pin])], DumpExpander(d, pin + 1));
        sent := sent + [E(pin, expander[pin])];
      }
    }

    method SendNativeDump()
      requires Shape()
      modifies `sent
      ensures sent == old(sent) + DumpNative(View(), 0)
    {
      ghost var d := View();
      ghost var all := sent + DumpNative(d, 0);
      for pin := 0 to NATIVE_PINS
        invariant View() == d && ToSend(all, sent, DumpNative(d, pin))
      {
        DumpNext(all, sent, d, pin);
        sent := sent + PinRecords(native[pin], pin);
      }
    }

    method NativeSetDirection(n: nat, dir: Dir)
      requires Shape()
      modifies this, native
      ensures Shape()
      ensures View() == SetDirection(old(View()), n, dir).device
      ensures sent == old(sent) + SetDirection(old(View()), n, dir).records
    {
      if n >= NATIVE_PINS {
        return;
      }
      if dir == Output && !OutputCapable(n) {
        sent := sent + [V(n, FIRMWARE_WROTE_INPUT)];
        return;
      }
      var p := native[n];
      if p.dir == dir {
        return;
      }
      native[n] := p.(dir := dir);
      if dir == Input {
        sent := sent + [D(n, false)];
        native[n] := native[n].(level := true);
        sent := sent + [G(n, true)];
      } else if dir == Output {
        sent := sent + [D(n, true)];
        if p.level != p.latch {
          native[n] := native[n].(level := p.latch);
          sent := sent + [G(n, p.latch)];
        }
      }
    }

    method NativeApplyFromHost(n: nat, level: bool)
      requires Shape()
      modifies this, native
      ensures Shape()
      ensures View() == HostWrite(old(View()), n, level).device
      ensures sent == old(sent) + HostWrite(old(View()), n, level).records
    {
      if n >= NATIVE_PINS {
        return;
      }
      var p := native[n];
      if p.dir == Input {
        if p.level != level {
          native[n] := p.(level := level);
          sent := sent + [G(n, level)];
        }
      } else {
        sent := sent + [V(n, if p.dir == Output then HOST_WROTE_OUTPUT else OPERATED_UNCONFIGURED)];
      }
    }
  }
}

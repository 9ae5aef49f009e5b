/**
 The I/O bus over whole runs: when the host that follows a board has been right all along, and when it is
 right in the end.
 */
module IoBusRuns {
  import opened IoBus

  function Run(b: Bus, es: seq<Event>): (t: Bus)
    requires Valid(b.device)
    ensures Valid(t.device)
    decreases |es|
  {
    if es == [] then b else Run(BusStep(b, es[0]), es[1..])
  }

  // ---- Right all along ----------------------------------------------------------------------

  predicate MirrorsThroughout(b: Bus, es: seq<Event>)
    requires Valid(b.device)
    decreases |es|
  {
    Mirrors(b.device, b.host) && (es != [] ==> MirrorsThroughout(BusStep(b, es[0]), es[1..]))
  }

  /** An expander reset while some of its pins are high. */
  predicate SilentReset(d: Device, e: Event)
    requires Valid(d)
  {
    e.ResetExpander? && exists n :: 0 <= n < EXPANDER_PINS && d.expander[n]
  }

  predicate NoSilence(b: Bus, es: seq<Event>)
    requires Valid(b.device)
    decreases |es|
  {
    es != [] ==>
      && !SilentOutput(b, es[0]) && !SilentReset(b.device, es[0])
      && NoSilence(BusStep(b, es[0]), es[1..])
  }

  /** Over every run from a complete mirror: the mirror is complete after every event exactly if no event
      brings up a silent output or resets an expander with a pin that is high. */
  lemma {:induction false} MirrorsThroughoutExactly(b: Bus, es: seq<Event>)
    requires Mirrors(b.device, b.host)
    ensures MirrorsThroughout(b, es) <==> NoSilence(b, es)
    decreases |es|
  {
    if es != [] {
      MirrorStepExactly(b, es[0]);
      var next := BusStep(b, es[0]);
      if Mirrors(next.device, next.host) {
        MirrorsThroughoutExactly(next, es[1..]);
      }
    }
  }

  // ---- Right in the end ---------------------------------------------------------------------

  /** The event puts the level of pin n on the wire: it changes, or the pin becomes an input, or a UART takes a
      pin over whose register differs from its line. */
  predicate Reports(d: Device, e: Event, n: nat)
    requires Valid(d) && n < NATIVE_PINS
  {
    var p, q := d.native[n], Step(d, e).device.native[n];
    || q.level != p.level
    || (q.dir == Input && p.dir != Input)
    || (e == Attach(n) && OutputCapable(n) && p.dir != Output && p.level != p.latch)
  }

  /** The level of pin n is known after a dump if the pin was configured, and whenever it is reported. */
  function ToldNext(d: Device, e: Event, n: nat, told: bool): bool
    requires Valid(d) && n < NATIVE_PINS
  {
    (if e.Receive? && e.newPeer then d.native[n].dir != Unconfigured else told) || Reports(d, e, n)
  }

  /** An expander pin goes stale when it is reset while high; a change or a dump puts that right. */
  function StaleNext(d: Device, e: Event, m: nat, stale: bool): bool
    requires Valid(d) && m < EXPANDER_PINS
  {
    var was := stale && !(e.Receive? && e.newPeer);
    if e.ResetExpander? then was || d.expander[m] else was && Step(d, e).device.expander[m] == d.expander[m]
  }

  function Told(d: Device, es: seq<Event>, n: nat, told: bool): bool
    requires Valid(d) && n < NATIVE_PINS
    decreases |es|
  {
    if es == [] then told else Told(Step(d, es[0]).device, es[1..], n, ToldNext(d, es[0], n, told))
  }

  function Stale(d: Device, es: seq<Event>, m: nat, stale: bool): bool
    requires Valid(d) && m < EXPANDER_PINS
    decreases |es|
  {
    if es == [] then stale else Stale(Step(d, es[0]).device, es[1..], m, StaleNext(d, es[0], m, stale))
  }

  lemma {:induction false} LevelHeard(h: Host, rs: seq<Record>, n: nat)
    ensures n in HearAll(h, rs).level <==> n in h.level || G(n, true) in rs || G(n, false) in rs
    decreases |rs|
  {
    if rs != [] {
      LevelHeard(Hear(h, rs[0]), rs[1..], n);
      assert rs == [rs[0]] + rs[1..];
    }
  }

  lemma {:induction false} ExpanderSaysNoLevel(d: Device, mask: set<nat>, level: bool, k: nat, n: nat, x: bool)
    requires Valid(d) && k <= EXPANDER_PINS
    ensures G(n, x) !in ExpanderFrom(d, mask, level, k).records
    decreases EXPANDER_PINS - k
  {
    if k < EXPANDER_PINS {
      ExpanderSaysNoLevel(d, mask, level, k + 1, n, x);
      ExpanderSaysNoLevel(d.(expander := d.expander[k := level]), mask, level, k + 1, n, x);
    }
  }

  lemma {:induction false} ReportsExactly(d: Device, e: Event, n: nat)
    requires Valid(d) && n < NATIVE_PINS
    ensures SaysLevel(Step(d, e).records, n) <==> Reports(d, e, n)
  {
    match e
    case Configure(m, dir) => ConfigureReports(d, m, dir, n);
    case Attach(m) => AttachReports(d, m, n);
    case SetExpander(mask, level) => ExpanderReportsNoLevel(d, mask, level, n);
    case Receive(datagram, _) =>
      var r := Parse(datagram);
      if r.Some? && r.value.E? && r.value.n < EXPANDER_PINS {
        ExpanderReportsNoLevel(d, {r.value.n}, r.value.level, n);
      }
    case _ =>
  }

  predicate SaysLevel(rs: seq<Record>, n: nat) {
    G(n, true) in rs || G(n, false) in rs
  }

  lemma {:induction false} ConfigureReports(d: Device, m: nat, dir: Dir, n: nat)
    requires Valid(d) && n < NATIVE_PINS
    ensures SaysLevel(SetDirection(d, m, dir).records, n) <==> Reports(d, Configure(m, dir), n)
  {
  }

  lemma {:induction false} AttachReports(d: Device, m: nat, n: nat)
    requires Valid(d) && n < NATIVE_PINS
    ensures SaysLevel(AttachUart(d, m).records, n) <==> Reports(d, Attach(m), n)
  {
    var first := SetDirection(d, m, Output);
    var second := DriveLatch(first.device, m, true);
    assert SaysLevel(first.records + second.records, n) <==>
           SaysLevel(first.records, n) || SaysLevel(second.records, n);
  }

  lemma {:induction false} ExpanderReportsNoLevel(d: Device, mask: set<nat>, level: bool, n: nat)
    requires Valid(d) && n < NATIVE_PINS
    ensures var o := ExpanderFrom(d, mask, level, 0); !SaysLevel(o.records, n) && o.device.native == d.native
  {
    ExpanderKeepsNative(d, mask, level, 0);
    ExpanderSaysNoLevel(d, mask, level, 0, n, true);
    ExpanderSaysNoLevel(d, mask, level, 0, n, false);
  }

  // ---- The expander -------------------------------------------------------------------------

  lemma {:induction false} NoExpanderNews(h: Host, rs: seq<Record>)
    requires forall r :: r in rs ==> !r.E?
    ensures HearAll(h, rs).expander == h.expander
    decreases |rs|
  {
    if rs != [] {
      assert rs[0] in rs;
      NoExpanderNews(Hear(h, rs[0]), rs[1..]);
    }
  }

  /** What the host believes about pin m after a write to the expander: the new level if it changed. */
  lemma {:induction false} ExpanderNews(d: Device, h: Host, mask: set<nat>, level: bool, k: nat, m: nat)
    requires Valid(d) && k <= EXPANDER_PINS && m < EXPANDER_PINS && m in h.expander
    ensures var o := ExpanderFrom(d, mask, level, k); var t := HearAll(h, o.records);
            && m in t.expander
            && t.expander[m] == (if o.device.expander[m] == d.expander[m] then h.expander[m] else o.device.expander[m])
            && (m < k ==> o.device.expander[m] == d.expander[m])
    decreases EXPANDER_PINS - k
  {
    if k < EXPANDER_PINS {
      if k !in mask || d.expander[k] == level {
        ExpanderNews(d, h, mask, level, k + 1, m);
      } else {
        var next := d.(expander := d.expander[k := level]);
        var rest := ExpanderFrom(next, mask, level, k + 1);
        assert ([E(k, level)] + rest.records)[1..] == rest.records;
        ExpanderNews(next, Hear(h, E(k, level)), mask, level, k + 1, m);
      }
    }
  }

  lemma {:induction false} StepNews(d: Device, h: Host, e: Event, m: nat)
    requires Valid(d) && m < EXPANDER_PINS && m in h.expander && !e.ResetExpander?
    ensures var o := Step(d, e); var t := HearAll(h, o.records);
            && m in t.expander
            && t.expander[m] == if o.device.expander[m] == d.expander[m] then h.expander[m] else o.device.expander[m]
  {
    if e.SetExpander? {
      ExpanderNews(d, h, e.mask, e.level, 0, m);
    } else if e.Receive? {
      HandleNews(d, h, e.datagram, m);
    } else {
      NoExpanderNews(h, Step(d, e).records);
    }
  }

  lemma {:induction false} HandleNews(d: Device, h: Host, datagram: string, m: nat)
    requires Valid(d) && m < EXPANDER_PINS && m in h.expander
    ensures var o := Handle(d, datagram); var t := HearAll(h, o.records);
            && Valid(o.device) && m in t.expander
            && t.expander[m] == if o.device.expander[m] == d.expander[m] then h.expander[m] else o.device.expander[m]
  {
    var r := Parse(datagram);
    if r.Some? && r.value.E? && r.value.n < EXPANDER_PINS {
      ExpanderNews(d, h, {r.value.n}, r.value.level, 0, m);
    } else {
      NoExpanderNews(h, Handle(d, datagram).records);
    }
  }

  // ---- Native pins, whatever the host believes about the expander ----------------------------

  lemma {:induction false} NativeApart(h: Host, x: map<nat, bool>, rs: seq<Record>)
    ensures var t, u := HearAll(h, rs), HearAll(h.(expander := x), rs); t.output == u.output && t.level == u.level
    decreases |rs|
  {
    if rs != [] {
      var g := Hear(h, rs[0]);
      var y := if rs[0].E? then x[rs[0].n := rs[0].level] else x;
      assert Hear(h.(expander := x), rs[0]) == g.(expander := y);
      NativeApart(g, y, rs[1..]);
    }
  }

  function Believed(d: Device): map<nat, bool>
    requires Valid(d)
  {
    map n | 0 <= n < EXPANDER_PINS :: d.expander[n]
  }

  /** What the host has been told about native pins is never wrong. */
  predicate NativeTrue(d: Device, h: Host) {
    Valid(d) && forall n :: 0 <= n < NATIVE_PINS ==> PinTrue(d, h, n)
  }

  lemma {:induction false} NativeStaysTrue(b: Bus, e: Event)
    requires NativeTrue(b.device, b.host)
    ensures NativeTrue(BusStep(b, e).device, BusStep(b, e).host)
  {
    var d := b.device;
    var told := b.host.(expander := Believed(d));
    assert Truthful(d, told) by {
      forall n | 0 <= n < NATIVE_PINS
        ensures PinTrue(d, told, n)
      {
        assert PinTrue(d, b.host, n);
      }
    }
    if e.ResetExpander? {
      forall n | 0 <= n < NATIVE_PINS
        ensures PinTrue(BusStep(b, e).device, BusStep(b, e).host, n)
      {
        assert PinTrue(d, b.host, n);
      }
    } else {
      StepTruthfulExactly(Bus(d, told), e);
      NativeApart(b.host, Believed(d), Step(d, e).records);
      var t, u := BusStep(b, e), BusStep(Bus(d, told), e);
      forall n | 0 <= n < NATIVE_PINS
        ensures PinTrue(t.device, t.host, n)
      {
        assert PinTrue(u.device, u.host, n);
      }
    }
  }

  // ---- What the host has and has not been told ----------------------------------------------

  /** The host knows the level of native pin n exactly if `told`, and believes expander pin m high although it
      is low exactly if `stale`, and is otherwise right about it. */
  predicate Knows(b: Bus, n: nat, told: bool, m: nat, stale: bool) {
    && NativeTrue(b.device, b.host) && n < NATIVE_PINS && m < EXPANDER_PINS
    && (n in b.host.level <==> told)
    && m in b.host.expander
    && (if stale then b.host.expander[m] && !b.device.expander[m] else b.host.expander[m] == b.device.expander[m])
  }

  lemma {:induction false} DumpTells(d: Device, n: nat, m: nat)
    requires Valid(d) && n < NATIVE_PINS && m < EXPANDER_PINS
    ensures Knows(Bus(d, HearAll(BLANK, Dump(d))), n, d.native[n].dir != Unconfigured, m, false)
  {
    var mid := HearAll(BLANK, DumpExpander(d, 0));
    DumpMirrors(d);
    HearConcat(BLANK, DumpExpander(d, 0), DumpNative(d, 0));
    ExpanderDumped(d, BLANK, 0, 0);
    NativeDumped(d, mid, 0, n);
    assert ExpanderTrue(d, HearAll(BLANK, Dump(d)), m);
  }

  lemma {:induction false} KnowsAfterStep(b: Bus, e: Event, n: nat, told: bool, m: nat, stale: bool)
    requires Knows(b, n, told, m, stale) && !(e.Receive? && e.newPeer)
    ensures var d, t := b.device, Step(b.device, e).device;
            Knows(BusStep(b, e), n, told || Reports(d, e, n), m,
                  if e.ResetExpander? then stale || d.expander[m] else stale && t.expander[m] == d.expander[m])
  {
    NativeStaysTrue(b, e);
    LevelHeard(b.host, Step(b.device, e).records, n);
    ReportsExactly(b.device, e, n);
    if !e.ResetExpander? {
      StepNews(b.device, b.host, e, m);
    }
  }

  lemma {:induction false} KnowsNext(b: Bus, e: Event, n: nat, told: bool, m: nat, stale: bool)
    requires Knows(b, n, told, m, stale)
    ensures Knows(BusStep(b, e), n, ToldNext(b.device, e, n, told), m, StaleNext(b.device, e, m, stale))
  {
    var d := b.device;
    if e.Receive? && e.newPeer {
      var at, plain := Bus(d, HearAll(BLANK, Dump(d))), Receive(e.datagram, false);
      DumpTells(d, n, m);
      KnowsAfterStep(at, plain, n, d.native[n].dir != Unconfigured, m, false);
    } else {
      KnowsAfterStep(b, e, n, told, m, stale);
    }
  }

  lemma {:induction false} KnowsAfter(b: Bus, es: seq<Event>, n: nat, told: bool, m: nat, stale: bool)
    requires Knows(b, n, told, m, stale)
    ensures Knows(Run(b, es), n, Told(b.device, es, n, told), m, Stale(b.device, es, m, stale))
    decreases |es|
  {
    if es != [] {
      KnowsNext(b, es[0], n, told, m, stale);
      KnowsAfter(BusStep(b, es[0]), es[1..], n, ToldNext(b.device, es[0], n, told), m,
          StaleNext(b.device, es[0], m, stale));
    }
  }

  /** Every pin configured in the end has been told, and no expander pin is stale. */
  predicate AllTold(d: Device, es: seq<Event>, final: Device)
    requires Valid(d) && Valid(final)
  {
    && (forall n :: 0 <= n < NATIVE_PINS && final.native[n].dir != Unconfigured ==>
          Told(d, es, n, d.native[n].dir != Unconfigured))
    && (forall m :: 0 <= m < EXPANDER_PINS ==> !Stale(d, es, m, false))
  }

  /**
   Over every run of firmware configuration, firmware writes, host writes and new peers that starts with a
   dump: in the end the host is right about every pin and knows every configured one exactly if each pin
   configured by then was configured at the last dump or has reported its level since, and each expander
   pin reset while high has changed or been dumped since.
   */
  lemma {:induction false} MirrorsInTheEndExactly(d: Device, es: seq<Event>)
    requires Valid(d)
    ensures var b := Bus(d, HearAll(BLANK, Dump(d)));
            Mirrors(Run(b, es).device, Run(b, es).host) <==> AllTold(d, es, Run(b, es).device)
  {
    var b := Bus(d, HearAll(BLANK, Dump(d)));
    var t := Run(b, es);
    forall n, m | 0 <= n < NATIVE_PINS && 0 <= m < EXPANDER_PINS
      ensures Knows(t, n, Told(d, es, n, d.native[n].dir != Unconfigured), m, Stale(d, es, m, false))
    {
      DumpTells(d, n, m);
      KnowsAfter(b, es, n, d.native[n].dir != Unconfigured, m, false);
    }
    Judge(d, es, t);
  }

  lemma {:induction false} Judge(d: Device, es: seq<Event>, t: Bus)
    requires Valid(d) && Valid(t.device)
    requires forall n, m :: 0 <= n < NATIVE_PINS && 0 <= m < EXPANDER_PINS ==>
               Knows(t, n, Told(d, es, n, d.native[n].dir != Unconfigured), m, Stale(d, es, m, false))
    ensures Mirrors(t.device, t.host) <==> AllTold(d, es, t.device)
  {
    forall n | 0 <= n < NATIVE_PINS
      ensures NativeTrue(t.device, t.host) && (n in t.host.level <==> Told(d, es, n, d.native[n].dir != Unconfigured))
    {
      assert Knows(t, n, Told(d, es, n, d.native[n].dir != Unconfigured), 0, Stale(d, es, 0, false));
    }
    assert NativeTrue(t.device, t.host) && Valid(t.device) by {
      assert Knows(t, 0, Told(d, es, 0, d.native[0].dir != Unconfigured), 0, Stale(d, es, 0, false));
    }
    forall m | 0 <= m < EXPANDER_PINS
      ensures ExpanderTrue(t.device, t.host, m) <==> !Stale(d, es, m, false)
    {
      assert Knows(t, 0, Told(d, es, 0, d.native[0].dir != Unconfigured), m, Stale(d, es, m, false));
    }
    if Mirrors(t.device, t.host) {
      forall n | 0 <= n < NATIVE_PINS && t.device.native[n].dir != Unconfigured
        ensures Told(d, es, n, d.native[n].dir != Unconfigured)
      {
        assert !Untold(t.device, t.host, n);
      }
    }
  }

  // ---- Where it fails -----------------------------------------------------------------------

  /** The first pin a fresh board configures as an output comes up low, as its register says, and silently. */
  lemma {:induction false} FirstOutputIsSilent()
    ensures var d := PowerUp(); var t := BusStep(Bus(d, HearAll(BLANK, Dump(d))), Configure(4, Output));
            t.device.native[4].dir == Output && Untold(t.device, t.host, 4)
  {
    var d := PowerUp();
    var b := Bus(d, HearAll(BLANK, Dump(d)));
    DumpTells(d, 4, 0);
    var e := Configure(4, Output);
    assert Step(d, e).records == [D(4, true)];
    HearOne(b.host, D(4, true));
  }

  predicate BelievedHigh(b: Bus, m: nat) {
    m in b.host.expander && b.host.expander[m] && m < |b.device.expander| && !b.device.expander[m]
  }

  /** A pin raised and then reset is believed high until it is written again. */
  lemma {:induction false} ResetIsNotHeard(b: Bus, m: nat)
    requires Mirrors(b.device, b.host) && m < EXPANDER_PINS && b.device.expander[m]
    ensures BelievedHigh(BusStep(b, ResetExpander), m)
    ensures BelievedHigh(BusStep(BusStep(b, ResetExpander), SetExpander({m}, false)), m)
  {
    assert ExpanderTrue(b.device, b.host, m);
    StepNews(BusStep(b, ResetExpander).device, b.host, SetExpander({m}, false), m);
    LowStaysLow(BusStep(b, ResetExpander).device, {m}, m, 0);
  }

  lemma {:induction false} LowStaysLow(d: Device, mask: set<nat>, m: nat, k: nat)
    requires Valid(d) && m < EXPANDER_PINS && !d.expander[m] && k <= EXPANDER_PINS
    ensures !ExpanderFrom(d, mask, false, k).device.expander[m]
    decreases EXPANDER_PINS - k
  {
    if k < EXPANDER_PINS {
      LowStaysLow(d, mask, m, k + 1);
      if k in mask && d.expander[k] {
        LowStaysLow(d.(expander := d.expander[k := false]), mask, m, k + 1);
      }
    }
  }
}

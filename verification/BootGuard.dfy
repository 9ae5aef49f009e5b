/**
 The boot-settled guard of the heap session (api_tests/00_test_heap_session.py): poll the device
 until its port modes are applied and its free heap has stopped falling, or say why not.
 */
module BootGuard {
  import opened Options

  const MAX_WAIT := 30.0
  const STABLE := 3.0
  const POLL := 0.25
  const NOISE := 1024
  const TOLERANCE := 16 * 1024

  const DISABLED := "disabled"

  /** The port_mode of the two RS-485 ports. */
  datatype Modes = Modes(port1: string, port2: string) {
    predicate AllDisabled() {
      port1 == DISABLED && port2 == DISABLED
    }
  }

  /** A reply to GET /settings; a field the payload does not carry is None. */
  datatype Settings = NoSettings | Settings(modes: Option<Modes>, cacheEnabled: Option<bool>)

  /** A reply to GET /info. */
  datatype Info = NoInfo | Info(free: int, modes: Option<Modes>, cachePort: Option<real>)

  datatype Sample = Sample(now: real, info: Info)

  datatype Verdict = Settled | ModesUnconverged | NoInitSignal | HeapUnsettled | NoSignalPossible | WaitErrored

  predicate Usable(v: Verdict) {
    v == Settled || v == ModesUnconverged
  }

  datatype Result = Raised | Returned(verdict: Verdict, samples: nat, free: int)

  /** What the wait compares with: the configured modes, and whether the cache server is the only possible signal. */
  datatype Wanted = Wanted(modes: Modes) {
    predicate CacheOnly() {
      modes.AllDisabled()
    }
  }

  // ---- What a sample shows ------------------------------------------------------------------

  predicate Complete(x: Sample) {
    x.info.Info? && x.info.modes.Some?
  }

  predicate Agrees(w: Wanted, x: Sample) {
    Complete(x) && x.info.modes.value == w.modes
  }

  /** The payload proves that port initialisation has begun. */
  predicate Signals(x: Sample) {
    Complete(x) &&
    (!x.info.modes.value.AllDisabled() || (x.info.cachePort.Some? && x.info.cachePort.value > 0.0))
  }

  /** The signal test fails its assertion: the only possible proof is missing from the payload. */
  predicate LacksOnlyProof(w: Wanted, x: Sample)
    requires Complete(x)
  {
    w.CacheOnly() && x.info.modes.value.AllDisabled() && x.info.cachePort.None?
  }

  method InitSignal(w: Wanted, x: Sample) returns (r: Option<bool>)
    requires Complete(x)
    ensures r.None? <==> LacksOnlyProof(w, x)
    ensures r.Some? ==> r.value == Signals(x)
  {
    var active := x.info.modes.value;
    if active.port1 != DISABLED || active.port2 != DISABLED {
      return Some(true);
    }
    if w.CacheOnly() && x.info.cachePort.None? {
      return None;
    }
    r := Some(x.info.cachePort.Some? && x.info.cachePort.value > 0.0);
  }

  // ---- What the trace shows at sample n -----------------------------------------------------

  predicate SignalBy(tr: seq<Sample>, n: int) {
    exists j :: 0 <= j <= n && j < |tr| && Signals(tr[j])
  }

  predicate Ready(w: Wanted, tr: seq<Sample>, f: int) {
    0 <= f < |tr| && Agrees(w, tr[f]) && SignalBy(tr, f)
  }

  predicate Dropped(tr: seq<Sample>, d: int) {
    0 < d < |tr| && tr[d].info.Info? && tr[d - 1].info.Info? && tr[d].info.free < tr[d - 1].info.free - NOISE
  }

  /** No over-noise heap drop during the last three seconds, the wait itself included. */
  predicate HeapSteady(start: real, tr: seq<Sample>, n: int)
    requires 0 <= n < |tr|
  {
    tr[n].now - start >= STABLE &&
    forall d :: 0 < d <= n && Dropped(tr, d) ==> tr[n].now - tr[d].now >= STABLE
  }

  predicate Accepting(w: Wanted, start: real, tr: seq<Sample>, n: int)
    requires 0 <= n < |tr|
  {
    && Agrees(w, tr[n])
    && HeapSteady(start, tr, n)
    && (exists f :: 0 <= f <= n && Ready(w, tr, f) && tr[n].now - tr[f].now >= STABLE)
  }

  predicate Expired(start: real, tr: seq<Sample>, n: int)
    requires 0 <= n < |tr|
  {
    tr[n].now >= start + MAX_WAIT
  }

  predicate Malformed(w: Wanted, tr: seq<Sample>, n: int)
    requires 0 <= n < |tr|
  {
    !Complete(tr[n]) || (!SignalBy(tr, n - 1) && LacksOnlyProof(w, tr[n]))
  }

  predicate Undecided(w: Wanted, start: real, tr: seq<Sample>, n: int)
    requires 0 <= n < |tr|
  {
    !Malformed(w, tr, n) && !Accepting(w, start, tr, n) && !Expired(start, tr, n)
  }

  function ExpiryVerdict(start: real, tr: seq<Sample>, n: int): Verdict
    requires 0 <= n < |tr|
  {
    if !HeapSteady(start, tr, n) then HeapUnsettled
    else if !SignalBy(tr, n) then NoInitSignal
    else ModesUnconverged
  }

  function Decision(w: Wanted, start: real, tr: seq<Sample>, n: int): Result
    requires 0 <= n < |tr|
  {
    if Malformed(w, tr, n) then Raised
    else if Accepting(w, start, tr, n) then Returned(Settled, n + 1, tr[n].info.free)
    else Returned(ExpiryVerdict(start, tr, n), n + 1, tr[n].info.free)
  }

  /** The classifier: the first sample that decides, and what it decides. */
  predicate Classifies(w: Wanted, start: real, tr: seq<Sample>, n: int, r: Result) {
    && 0 <= n < |tr|
    && (forall m :: 0 <= m < n ==> Undecided(w, start, tr, m))
    && !Undecided(w, start, tr, n)
    && r == Decision(w, start, tr, n)
  }

  lemma {:induction false} ClassifiesOnce(w: Wanted, start: real, tr: seq<Sample>, n: int, r: Result, n': int,
                                          r': Result)
    requires Classifies(w, start, tr, n, r) && Classifies(w, start, tr, n', r')
    ensures n == n' && r == r'
  {
  }

  // ---- The loop -----------------------------------------------------------------------------

  /** Each poll sleeps a quarter of a second before the next. */
  predicate Polled(start: real, tr: seq<Sample>) {
    && (|tr| > 0 ==> tr[0].now >= start)
    && (forall i :: 0 < i < |tr| ==> tr[i].now >= tr[i - 1].now + POLL)
  }

  lemma {:induction false} TimePasses(start: real, tr: seq<Sample>, i: int, j: int)
    requires Polled(start, tr) && 0 <= i <= j < |tr|
    ensures tr[j].now >= tr[i].now + (j - i) as real * POLL
    ensures tr[i].now >= start
    decreases j
  {
    if i < j {
      TimePasses(start, tr, i, j - 1);
    } else if i > 0 {
      TimePasses(start, tr, i - 1, i - 1);
    }
  }

  /** Ready since: the earliest ready sample. */
  ghost predicate TracksReady(w: Wanted, tr: seq<Sample>, n: int, readySince: Option<real>)
    requires 0 <= n <= |tr|
  {
    && (readySince.Some? ==> exists f :: 0 <= f < n && Ready(w, tr, f) && tr[f].now == readySince.value)
    && (forall f :: 0 <= f < n && Ready(w, tr, f) ==> readySince.Some? && readySince.value <= tr[f].now)
  }

  /** Steady since: the start or the latest drop. */
  ghost predicate TracksSteady(start: real, tr: seq<Sample>, n: int, steadySince: real)
    requires 0 <= n <= |tr|
  {
    && start <= steadySince
    && (forall d :: 0 < d < n && Dropped(tr, d) ==> tr[d].now <= steadySince)
    && (steadySince == start || exists d :: 0 < d < n && Dropped(tr, d) && tr[d].now == steadySince)
  }

  ghost predicate Tracks(w: Wanted, start: real, tr: seq<Sample>, n: int, readySince: Option<real>, steadySince: real)
    requires 0 <= n <= |tr|
  {
    TracksReady(w, tr, n, readySince) && TracksSteady(start, tr, n, steadySince)
  }

  function Max(a: real, b: real): real {
    if a >= b then a else b
  }

  lemma {:induction false} ReadyNext(w: Wanted, start: real, tr: seq<Sample>, n: int, ready: Option<real>,
                                     ready': Option<real>)
    requires Polled(start, tr) && 0 <= n < |tr| && TracksReady(w, tr, n, ready)
    requires ready' == if Ready(w, tr, n) && ready.None? then Some(tr[n].now) else ready
    ensures TracksReady(w, tr, n + 1, ready')
  {
    if ready.Some? {
      var f :| 0 <= f < n && Ready(w, tr, f) && tr[f].now == ready.value;
      TimePasses(start, tr, f, n);
    }
  }

  lemma {:induction false} SteadyNext(start: real, tr: seq<Sample>, n: int, steady: real, steady': real)
    requires Polled(start, tr) && 0 <= n < |tr| && TracksSteady(start, tr, n, steady)
    requires steady' == if Dropped(tr, n) then tr[n].now else steady
    ensures TracksSteady(start, tr, n + 1, steady')
  {
    TimePasses(start, tr, 0, n);
    forall d | 0 < d < n
      ensures tr[d].now <= tr[n].now
    {
      TimePasses(start, tr, d, n);
    }
  }

  lemma {:induction false} TrackNext(w: Wanted, start: real, tr: seq<Sample>, n: int, ready: Option<real>, steady: real,
                  ready': Option<real>, steady': real)
    requires Polled(start, tr) && 0 <= n < |tr| && Tracks(w, start, tr, n, ready, steady)
    requires ready' == if Ready(w, tr, n) && ready.None? then Some(tr[n].now) else ready
    requires steady' == if Dropped(tr, n) then tr[n].now else steady
    ensures Tracks(w, start, tr, n + 1, ready', steady')
  {
    ReadyNext(w, start, tr, n, ready, ready');
    SteadyNext(start, tr, n, steady, steady');
  }

  lemma {:induction false} SteadyTest(w: Wanted, start: real, tr: seq<Sample>, n: int, readySince: Option<real>,
                                      steadySince: real)
    requires 0 <= n < |tr| && Tracks(w, start, tr, n + 1, readySince, steadySince)
    ensures tr[n].now - steadySince >= STABLE <==> HeapSteady(start, tr, n)
  {
  }

  lemma {:induction false} AcceptTest(w: Wanted, start: real, tr: seq<Sample>, n: int, readySince: Option<real>,
                                      steadySince: real)
    requires 0 <= n < |tr| && Tracks(w, start, tr, n + 1, readySince, steadySince)
    requires Ready(w, tr, n)
    ensures readySince.Some?
    ensures tr[n].now - Max(readySince.value, steadySince) >= STABLE <==> Accepting(w, start, tr, n)
  {
  }

  /** The variables the loop carries from one poll to the next. */
  datatype Latches = Latches(prev: Option<int>, readySince: Option<real>, steadySince: real, initObserved: bool)

  ghost predicate Follows(w: Wanted, start: real, tr: seq<Sample>, n: int, l: Latches) {
    && 0 <= n <= |tr|
    && (n > 0 ==> Complete(tr[n - 1]))
    && l.prev == (if n == 0 then None else Some(tr[n - 1].info.free))
    && l.initObserved == SignalBy(tr, n - 1)
    && Tracks(w, start, tr, n, l.readySince, l.steadySince)
  }

  /** The first half of one poll: read the sample and bring the latches up to date. */
  method Observe(w: Wanted, start: real, tr: seq<Sample>, n: nat, l: Latches) returns (ok: bool, l': Latches)
    requires Polled(start, tr) && n < |tr| && Follows(w, start, tr, n, l)
    ensures !ok <==> Malformed(w, tr, n)
    ensures ok ==> Follows(w, start, tr, n + 1, l')
  {
    var x := tr[n];
    var prev, readySince, steadySince, initObserved := l.prev, l.readySince, l.steadySince, l.initObserved;
    if !Complete(x) {
      return false, l;
    }
    if prev.Some? && x.info.free < prev.value - NOISE {
      steadySince := x.now;
    }
    if !initObserved {
      var signal := InitSignal(w, x);
      if signal.None? {
        return false, l;
      }
      initObserved := signal.value;
    }
    if x.info.modes.value == w.modes && initObserved && readySince.None? {
      readySince := Some(x.now);
    }
    TrackNext(w, start, tr, n, l.readySince, l.steadySince, readySince, steadySince);
    return true, Latches(Some(x.info.free), readySince, steadySince, initObserved);
  }

  /** The second half: accept, expire with a verdict, or go on. */
  method Decide(w: Wanted, start: real, tr: seq<Sample>, n: nat, l: Latches) returns (r: Option<Result>)
    requires n < |tr| && Follows(w, start, tr, n + 1, l) && !Malformed(w, tr, n)
    ensures r.None? <==> Undecided(w, start, tr, n)
    ensures r.Some? ==> r.value == Decision(w, start, tr, n)
  {
    var x := tr[n];
    SteadyTest(w, start, tr, n, l.readySince, l.steadySince);
    if x.info.modes.value == w.modes && l.initObserved {
      AcceptTest(w, start, tr, n, l.readySince, l.steadySince);
      if x.now - Max(l.readySince.value, l.steadySince) >= STABLE {
        return Some(Returned(Settled, n + 1, x.info.free));
      }
    } else {
      NotReadyNotAccepting(w, start, tr, n);
    }
    if x.now >= start + MAX_WAIT {
      if x.now - l.steadySince < STABLE {
        return Some(Returned(HeapUnsettled, n + 1, x.info.free));
      }
      if !l.initObserved {
        return Some(Returned(NoInitSignal, n + 1, x.info.free));
      }
      return Some(Returned(ModesUnconverged, n + 1, x.info.free));
    }
    r := None;
  }

  lemma {:induction false} NotReadyNotAccepting(w: Wanted, start: real, tr: seq<Sample>, n: int)
    requires 0 <= n < |tr| && !Ready(w, tr, n)
    ensures !Accepting(w, start, tr, n)
  {
  }

  /** The polling loop, over the samples it will see; it needs at most 121 of them. */
  method Poll(w: Wanted, start: real, tr: seq<Sample>) returns (r: Result, n: int)
    requires Polled(start, tr) && |tr| >= 121
    ensures n <= 120 && Classifies(w, start, tr, n, r)
  {
    var latches := Latches(None, None, start, false);
    n := 0;
    while true
      invariant 0 <= n <= 120
      invariant forall m :: 0 <= m < n ==> Undecided(w, start, tr, m)
      invariant Follows(w, start, tr, n, latches)
      decreases 121 - n
    {
      TimePasses(start, tr, 0, n);
      var ok, next := Observe(w, start, tr, n, latches);
      if !ok {
        return Raised, n;
      }
      var decision := Decide(w, start, tr, n, next);
      if decision.Some? {
        return decision.value, n;
      }
      n, latches := n + 1, next;
    }
  }

  /** The whole wait: the configuration is read first, and may already rule out any signal. */
  method WaitBootSettled(s: Settings, start: real, tr: seq<Sample>) returns (r: Result, n: int)
    requires Polled(start, tr) && |tr| >= 121
    ensures (s.NoSettings? || s.modes.None?) ==> r == Raised
    ensures s.Settings? && s.modes.Some? && s.modes.value.AllDisabled() && s.cacheEnabled.None? ==> r == Raised
    ensures s.Settings? && s.modes.Some? && s.modes.value.AllDisabled() && s.cacheEnabled == Some(false)
            ==> r == Returned(NoSignalPossible, 0, 0)
    ensures s.Settings? && s.modes.Some? && (s.modes.value.AllDisabled() ==> s.cacheEnabled == Some(true))
            ==> n <= 120 && Classifies(Wanted(s.modes.value), start, tr, n, r)
  {
    n := 0;
    if s.NoSettings? || s.modes.None? {
      return Raised, n;
    }
    var w := Wanted(s.modes.value);
    if w.CacheOnly() {
      if s.cacheEnabled.None? {
        return Raised, n;
      }
      if !s.cacheEnabled.value {
        return Returned(NoSignalPossible, 0, 0), n;
      }
    }
    r, n := Poll(w, start, tr);
  }

  // ---- A usable verdict certifies a device past the start of initialisation -----------------

  /** Until initialisation begins, /info reports both modes disabled and no cache server port. */
  predicate SilentBeforeInit(tr: seq<Sample>, initAt: Option<real>) {
    forall k :: 0 <= k < |tr| && Complete(tr[k]) && (initAt.None? || tr[k].now < initAt.value) ==>
      tr[k].info.modes.value.AllDisabled() &&
      (tr[k].info.cachePort.Some? ==> tr[k].info.cachePort.value <= 0.0)
  }

  lemma {:induction false} UsableMeansInitBegan(w: Wanted, start: real, tr: seq<Sample>, n: int, r: Result,
                                                initAt: Option<real>)
    requires Polled(start, tr) && Classifies(w, start, tr, n, r) && SilentBeforeInit(tr, initAt)
    requires r.Returned? && Usable(r.verdict)
    ensures initAt.Some? && initAt.value <= tr[n].now
  {
    assert SignalBy(tr, n);
    var j :| 0 <= j <= n && Signals(tr[j]);
    TimePasses(start, tr, j, n);
  }

  /** The same test without the init signal. */
  predicate AcceptingOnAgreement(w: Wanted, start: real, tr: seq<Sample>, n: int)
    requires 0 <= n < |tr|
  {
    && Agrees(w, tr[n])
    && HeapSteady(start, tr, n)
    && (exists f :: 0 <= f <= n && Agrees(w, tr[f]) && tr[n].now - tr[f].now >= STABLE)
  }

  const BOTH_DISABLED := Modes(DISABLED, DISABLED)

  function Free(x: Sample): int {
    if x.info.Info? then x.info.free else 0
  }

  /** Thirty seconds of well-formed samples exactly one poll apart, without an over-noise heap drop. */
  predicate Regular(tr: seq<Sample>) {
    |tr| == 121 &&
    forall k :: 0 <= k < 121 ==> RegularAt(tr, k)
  }

  predicate RegularAt(tr: seq<Sample>, k: int)
    requires 0 <= k < |tr|
  {
    Complete(tr[k]) && tr[k].info.cachePort.Some? && tr[k].now == k as real * POLL && !Dropped(tr, k)
  }

  lemma {:induction false} RegularTimes(tr: seq<Sample>, n: nat)
    requires Regular(tr) && n < 121
    ensures Polled(0.0, tr)
    ensures HeapSteady(0.0, tr, n) <==> n >= 12
    ensures Expired(0.0, tr, n) <==> n == 120
  {
    forall k | 0 <= k < 121
      ensures tr[k].now == k as real * POLL && !Dropped(tr, k)
    {
      assert RegularAt(tr, k);
    }
  }

  /** On a regular trace a sample accepts iff it agrees and some sample at least twelve before was ready. */
  lemma {:induction false} RegularAccepts(w: Wanted, tr: seq<Sample>, n: nat)
    requires Regular(tr) && n < 121
    ensures Accepting(w, 0.0, tr, n) <==> Agrees(w, tr[n]) && exists f :: 0 <= f <= n - 12 && Ready(w, tr, f)
    ensures !Malformed(w, tr, n)
  {
    RegularTimes(tr, n);
    assert RegularAt(tr, n);
    forall f | 0 <= f <= n && Ready(w, tr, f)
      ensures tr[n].now - tr[f].now >= STABLE <==> f <= n - 12
    {
      assert RegularAt(tr, f);
    }
  }

  function IdleSample(i: nat): Sample {
    Sample(i as real * POLL, Info(200000, Some(BOTH_DISABLED), Some(0.0)))
  }

  function IdleTrace(): (tr: seq<Sample>)
    ensures Regular(tr)
  {
    seq(121, i requires 0 <= i => IdleSample(i))
  }

  /** Both ports configured disabled, device never initialised: agreement alone would have accepted it
      after three seconds, while the loop waits the whole half minute and reports no signal. */
  lemma {:induction false} AgreementAloneCertifiesAPreInitDevice()
    ensures SilentBeforeInit(IdleTrace(), None)
    ensures AcceptingOnAgreement(Wanted(BOTH_DISABLED), 0.0, IdleTrace(), 12)
    ensures Classifies(Wanted(BOTH_DISABLED), 0.0, IdleTrace(), 120, Returned(NoInitSignal, 121, 200000))
  {
    var tr, w := IdleTrace(), Wanted(BOTH_DISABLED);
    assert forall k :: 0 <= k < 121 ==> tr[k] == IdleSample(k);
    RegularAgreement(w, tr);
    assert tr[120] == IdleSample(120);
    NoSignalExpires(w, tr);
  }

  lemma {:induction false} RegularAgreement(w: Wanted, tr: seq<Sample>)
    requires Regular(tr) && Agrees(w, tr[0]) && Agrees(w, tr[12])
    ensures AcceptingOnAgreement(w, 0.0, tr, 12)
  {
    RegularTimes(tr, 12);
    assert RegularAt(tr, 0) && RegularAt(tr, 12);
  }

  lemma {:induction false} NoSignalExpires(w: Wanted, tr: seq<Sample>)
    requires Regular(tr) && forall k :: 0 <= k < 121 ==> !Signals(tr[k])
    ensures Classifies(w, 0.0, tr, 120, Returned(NoInitSignal, 121, Free(tr[120])))
  {
    forall m: nat | m < 121
      ensures !Accepting(w, 0.0, tr, m) && !Malformed(w, tr, m) && (Expired(0.0, tr, m) <==> m == 120)
    {
      RegularAccepts(w, tr, m);
      RegularTimes(tr, m);
    }
    RegularTimes(tr, 120);
  }

  // ---- How far the heap can fall unnoticed --------------------------------------------------

  /** The later of the first ready sample f and the last drop up to n. */
  function WindowStart(tr: seq<Sample>, f: nat, n: nat): (s: nat)
    requires f <= n < |tr|
    ensures f <= s <= n && (s == f || Dropped(tr, s))
    ensures forall d :: s < d <= n ==> !Dropped(tr, d)
  {
    if n == f || Dropped(tr, n) then n else WindowStart(tr, f, n - 1)
  }

  lemma {:induction false} FallBound(tr: seq<Sample>, s: nat, n: nat)
    requires s <= n < |tr|
    requires forall k :: s <= k <= n ==> tr[k].info.Info?
    requires forall d :: s < d <= n ==> !Dropped(tr, d)
    ensures Free(tr[s]) - Free(tr[n]) <= (n - s) * NOISE
  {
    if s < n {
      FallBound(tr, s, n - 1);
      assert !Dropped(tr, n);
    }
  }

  /** If the modes agree at every sample from the first ready one on, the accepting window has at most
      twelve intervals, and the heap lost inside it stays under the leak tolerance. */
  lemma {:induction false} SteadyAgreementBoundsTheFall(w: Wanted, start: real, tr: seq<Sample>, f: nat, n: nat,
                                                        r: Result)
    requires Polled(start, tr) && Classifies(w, start, tr, n, r) && r.Returned? && r.verdict == Settled
    requires f <= n && Ready(w, tr, f) && forall k :: 0 <= k < f ==> !Ready(w, tr, k)
    requires forall k :: f <= k <= n ==> Agrees(w, tr[k])
    ensures n - WindowStart(tr, f, n) <= 12
    ensures Free(tr[WindowStart(tr, f, n)]) - Free(tr[n]) <= 12 * NOISE < TOLERANCE
  {
    WindowIsShort(w, start, tr, f, WindowStart(tr, f, n), n);
    FallBound(tr, WindowStart(tr, f, n), n);
  }

  lemma {:induction false} WindowIsShort(w: Wanted, start: real, tr: seq<Sample>, f: nat, s: nat, n: nat)
    requires Polled(start, tr) && f <= s <= n < |tr| && Ready(w, tr, f)
    requires forall m :: 0 <= m < n ==> Undecided(w, start, tr, m)
    requires forall k :: f <= k <= n ==> Agrees(w, tr[k])
    requires forall d :: s < d <= n ==> !Dropped(tr, d)
    ensures n - s <= 12
  {
    if n - s > 12 {
      assert Agrees(w, tr[n - 1]) && Undecided(w, start, tr, n - 1);
      EarlierWouldAccept(w, start, tr, f, s, n - 1);
    }
  }

  lemma {:induction false} EarlierWouldAccept(w: Wanted, start: real, tr: seq<Sample>, f: nat, s: nat, m: nat)
    requires Polled(start, tr) && f <= s && s + 12 <= m < |tr|
    requires Ready(w, tr, f) && Agrees(w, tr[m])
    requires forall d :: s < d <= m ==> !Dropped(tr, d)
    ensures Accepting(w, start, tr, m)
  {
    TimePasses(start, tr, s, m);
    forall k | 0 <= k <= s
      ensures tr[k].now <= tr[s].now && start <= tr[k].now
    {
      TimePasses(start, tr, k, s);
    }
  }

  // ---- What the verdicts do not say ---------------------------------------------------------

  const BRIDGES := Modes("tcp_bridge", "tcp_bridge")

  /** Modes agree at the first sample and the sixty-first only, while the heap leaks 1024 bytes a poll. */
  function FlappingSample(i: nat): Sample {
    Sample(i as real * POLL,
           Info(200000 - NOISE * i, Some(if i == 0 || i == 60 then BRIDGES else BOTH_DISABLED), Some(0.0)))
  }

  function FlappingTrace(): (tr: seq<Sample>)
    ensures Regular(tr)
  {
    seq(121, i requires 0 <= i => FlappingSample(i))
  }

  /** The ready time is latched once and never reset, so "settled" does not say the modes agreed
      throughout: here they disagreed for fifteen seconds and the fall is nearly four times the tolerance. */
  lemma {:induction false} SettledThroughDisagreement()
    ensures Polled(0.0, FlappingTrace())
    ensures Classifies(Wanted(BRIDGES), 0.0, FlappingTrace(), 60, Returned(Settled, 61, 200000 - 60 * NOISE))
    ensures forall k :: 0 < k < 60 ==> !Agrees(Wanted(BRIDGES), FlappingTrace()[k])
    ensures Free(FlappingTrace()[0]) - Free(FlappingTrace()[60]) > 3 * TOLERANCE
  {
    var tr, w := FlappingTrace(), Wanted(BRIDGES);
    RegularTimes(tr, 60);
    forall k: nat | k < 121
      ensures tr[k] == FlappingSample(k) && (Agrees(w, tr[k]) <==> k == 0 || k == 60)
    {
      FlappingAgrees(k);
    }
    FlappingAgrees(0);
    SettlesAtSecondAgreement(w, tr, 60);
  }

  lemma {:induction false} FlappingAgrees(k: nat)
    ensures Agrees(Wanted(BRIDGES), FlappingSample(k)) <==> k == 0 || k == 60
    ensures Signals(FlappingSample(0))
  {
  }

  lemma {:induction false} SettlesAtSecondAgreement(w: Wanted, tr: seq<Sample>, n: nat)
    requires Regular(tr) && 12 <= n < 120 && Signals(tr[0]) && Agrees(w, tr[0]) && Agrees(w, tr[n])
    requires forall k :: 0 < k < n ==> !Agrees(w, tr[k])
    ensures Classifies(w, 0.0, tr, n, Returned(Settled, n + 1, Free(tr[n])))
  {
    assert Ready(w, tr, 0);
    forall m: nat | m < n
      ensures Undecided(w, 0.0, tr, m)
    {
      RegularAccepts(w, tr, m);
      RegularTimes(tr, m);
    }
    RegularAccepts(w, tr, n);
  }

  /** Both ports disabled, heap constant, cache server up only at the 111th sample. */
  function LateServerSample(i: nat): Sample {
    Sample(i as real * POLL, Info(200000, Some(BOTH_DISABLED), Some(if i < 110 then 0.0 else 502.0)))
  }

  function LateServerTrace(): (tr: seq<Sample>)
    ensures Regular(tr)
  {
    seq(121, i requires 0 <= i => LateServerSample(i))
  }

  /** "Modes unconverged" is returned for a device whose modes agreed at every single sample. */
  lemma {:induction false} UnconvergedThoughAlwaysAgreeing()
    ensures Polled(0.0, LateServerTrace())
    ensures forall k :: 0 <= k < 121 ==> Agrees(Wanted(BOTH_DISABLED), LateServerTrace()[k])
    ensures Classifies(Wanted(BOTH_DISABLED), 0.0, LateServerTrace(), 120, Returned(ModesUnconverged, 121, 200000))
  {
    var tr, w := LateServerTrace(), Wanted(BOTH_DISABLED);
    RegularTimes(tr, 120);
    assert tr[120] == LateServerSample(120);
    assert forall k :: 0 <= k < 121 ==> tr[k] == LateServerSample(k);
    LateSignalExpires(w, tr);
  }

  lemma {:induction false} LateSignalExpires(w: Wanted, tr: seq<Sample>)
    requires Regular(tr) && Signals(tr[120]) && forall k :: 0 <= k <= 108 ==> !Signals(tr[k])
    ensures Classifies(w, 0.0, tr, 120, Returned(ModesUnconverged, 121, Free(tr[120])))
  {
    forall m: nat | m < 121
      ensures !Accepting(w, 0.0, tr, m) && !Malformed(w, tr, m) && (Expired(0.0, tr, m) <==> m == 120)
    {
      RegularAccepts(w, tr, m);
      RegularTimes(tr, m);
    }
    RegularTimes(tr, 120);
  }
}

/**
 The port manager and the factory clock test (main/bridge/port_manager.c, main/wb_test.c): two RS-485
 ports with a transport mode each, additive sniffer reasons, one cache overlay between them, and a
 test that takes both ports away from their UARTs for a while.

 Every event is one stretch of code between two points where another task can get in: under a port's lock,
 or between two such locks. So the steps of the test and those of a cache move, which holds one port's lock
 after the other's, interleave with everything else the device does.
 */
module PortManager {
  import opened Options

  datatype Index = First | Second

  datatype Mode = Disabled | TcpBridge | Passive | Repeater

  /** Who drives a port's DE line. */
  datatype Pin = Released | Uart | DrivenLow | DrivenHigh

  /** The settings of a port that flash keeps. */
  datatype Flash = Flash(mode: Mode, cache: bool, txOff: bool)

  /** A port at run time, its DE line, and what flash says about it. `display` and `cache` are the sniffer
      reasons; with `txOff` the DE line is taken from the UART and held low. */
  datatype Port = Port(mode: Mode, serialOpen: bool, shortRx: bool, overlay: bool, display: bool, cache: bool,
                       txOff: bool, de: Pin, flash: Flash)

  /** The cache pool; whether it was brought in line with the overlays since boot, and whether that failed. */
  datatype Pool = Pool(on: bool, synced: bool, allocFailed: bool)

  datatype Phase = Off | Freezing | OneDown | BothDown | Running | Releasing | Thawed | OneUp

  /** The clock test; `parked` from the moment it parks port 2's DE line until the UART takes that line. */
  datatype Test = Test(frozen: bool, phase: Phase, parked: bool)

  /** How far a move of the cache overlay to or from port i has got; `moved` if it took the overlay from the
      other port. One move at a time: whoever makes it holds the move lock throughout. */
  datatype Move =
    | Idle
    | Chosen(i: Index, on: bool)
    | Claiming(i: Index, on: bool, moved: bool)
    | Syncing(i: Index, on: bool, moved: bool)
    | Clearing(i: Index)

  datatype State = State(one: Port, two: Port, pool: Pool, move: Move, test: Test, ioBus: bool, ioBusSetting: bool) {
    function At(i: Index): Port {
      if i == First then one else two
    }

    function Other(i: Index): Port {
      if i == First then two else one
    }

    function With(i: Index, p: Port): State {
      if i == First then this.(one := p) else this.(two := p)
    }

    predicate AnyOverlay() {
      one.overlay || two.overlay
    }
  }

  /** How the parts that can fail turn out: the port's own bring-up, whether a bridge has a serial
      descriptor, the rollback, the pool allocation and the write to flash. */
  datatype Luck = Luck(initOk: bool, hasSerial: bool, rollbackOk: bool, allocOk: bool, saveOk: bool)

  // ---- One port -----------------------------------------------------------------------------

  function StoreMode(p: Port, mode: Mode): Port {
    p.(flash := p.flash.(mode := mode))
  }

  function StoreCache(p: Port, on: bool): Port {
    p.(flash := p.flash.(cache := on))
  }

  /** cache_sync_global: allocate the pool if some port wants it, free it if none does. */
  function SyncPool(pool: Pool, want: bool, allocOk: bool): Pool {
    if want && !pool.on then Pool(allocOk, true, !allocOk) else Pool(want, true, false)
  }

  /** port_deinit_mode: a disabled port is left entirely alone. */
  function Down(p: Port): Port {
    if p.mode == Disabled then p
    else p.(mode := Disabled, serialOpen := false, display := false, cache := false, txOff := false,
            de := if p.serialOpen then Released else p.de)
  }

  predicate Opens(mode: Mode, hasSerial: bool) {
    mode == Passive || mode == Repeater || (mode == TcpBridge && hasSerial)
  }

  /** The port's own part of port_init_mode, on a port that is down. */
  function Up(p: Port, mode: Mode, hasSerial: bool): Port {
    if !Opens(mode, hasSerial) then p.(mode := mode, serialOpen := false)
    else p.(mode := mode, serialOpen := true, shortRx := mode == Passive, cache := p.cache || p.overlay,
            txOff := p.flash.txOff, de := if p.flash.txOff then DrivenLow else Uart)
  }

  /** port_init_mode; a failed bring-up changes nothing. */
  function Init(s: State, i: Index, mode: Mode, ok: bool, hasSerial: bool, allocOk: bool): State {
    if mode != Disabled && !ok then s
    else
      var t := s.With(i, Up(s.At(i), mode, hasSerial));
      var parked := s.test.parked && !(i == Second && Opens(mode, hasSerial));
      t.(pool := SyncPool(s.pool, t.AnyOverlay(), allocOk), test := s.test.(parked := parked))
  }

  datatype Answer = Accepted | PortsFrozen | Failed

  datatype Outcome = Outcome(state: State, answer: Answer)

  /** port_set_mode_impl: down, up, and back to the previous mode if that failed. */
  function SetMode(s: State, i: Index, mode: Mode, persist: bool, l: Luck): Outcome {
    if persist && s.test.frozen then Outcome(s, PortsFrozen)
    else
      var prev := s.At(i).mode;
      var down := s.With(i, Down(s.At(i)));
      if mode == Disabled || l.initOk then
        var up := Init(down, i, mode, true, l.hasSerial, l.allocOk);
        if !persist then Outcome(up, Accepted)
        else if l.saveOk then Outcome(up.With(i, StoreMode(up.At(i), mode)), Accepted)
        else Outcome(up, Failed)
      else if prev != Disabled then Outcome(Init(down, i, prev, l.rollbackOk, l.hasSerial, l.allocOk), Failed)
      else Outcome(down, Failed)
  }

  /** port_manager_apply_settings. */
  function ApplySettings(s: State, i: Index, l: Luck): State {
    if s.test.frozen then s
    else Init(s.With(i, Down(s.At(i))), i, s.At(i).flash.mode, l.initOk, l.hasSerial, l.allocOk)
  }

  /** serial_set_tx_disabled on an open port: giving the line back to the UART can fail. */
  function SetTx(p: Port, off: bool, ok: bool): Port {
    if !p.serialOpen || off == p.txOff then p
    else if off then p.(txOff := true, de := DrivenLow)
    else if ok then p.(txOff := false, de := Uart)
    else p
  }

  // ---- Moving the cache ---------------------------------------------------------------------

  /** cache_overlay_apply_locked. */
  function SetOverlay(p: Port, on: bool, saveOk: bool): Port {
    var q := if saveOk then StoreCache(p, on) else p;
    q.(overlay := on, cache := if p.serialOpen then on else p.cache)
  }

  function OtherOf(i: Index): Index {
    if i == First then Second else First
  }

  /** cache_move_locked, under the other port's lock: enabling takes the overlay away there. */
  function Release(s: State, i: Index, on: bool, saveOk: bool): State {
    if on && s.Other(i).overlay
    then s.With(OtherOf(i), SetOverlay(s.Other(i), false, saveOk)).(move := Claiming(i, on, true))
    else s.(move := Claiming(i, on, false))
  }

  /** Under the port's own lock. */
  function Claim(s: State, i: Index, on: bool, moved: bool, saveOk: bool): State {
    s.With(i, SetOverlay(s.At(i), on, saveOk)).(move := Syncing(i, on, moved))
  }

  /** The one sync of a move; the pool is cleared after it if the overlay came from the other port. */
  function SyncMove(s: State, i: Index, moved: bool, allocOk: bool): State {
    s.(pool := SyncPool(s.pool, s.AnyOverlay(), allocOk), move := if moved then Clearing(i) else Idle)
  }

  /** The port flash asks the cache for, the lowest if both do; and the port that has it. */
  function Wanted(s: State): Option<Index> {
    if s.one.flash.cache then Some(First) else if s.two.flash.cache then Some(Second) else None
  }

  function Holder(s: State): Option<Index> {
    if s.one.overlay then Some(First) else if s.two.overlay then Some(Second) else None
  }

  /** The surplus key of a request that asked for both ports. */
  function ClearSurplus(s: State, saveOk: bool): State {
    if s.one.flash.cache && saveOk then s.(two := StoreCache(s.two, false)) else s
  }

  /** port_manager_apply_cache_settings, up to its move: none if the port that has the cache is the one wanted. */
  function ApplyCache(s: State, saveOk: bool): State {
    var wanted, holder := Wanted(s), Holder(s);
    var t := ClearSurplus(s, saveOk);
    if holder == wanted then t
    else if wanted.Some? then t.(move := Chosen(wanted.value, true))
    else t.(move := Chosen(holder.value, false))
  }

  // ---- Events -------------------------------------------------------------------------------

  datatype Event =
    | ModeRequest(i: Index, mode: Mode, luck: Luck)
    | CacheRequest(i: Index, on: bool)
    | CacheApply(saveOk: bool)
    | CacheRelease(saveOk: bool)
    | CacheClaim(saveOk: bool)
    | CacheSync(allocOk: bool)
    | CacheClear
    | Display(i: Index, on: bool)
    | WriteMode(i: Index, mode: Mode)
    | WriteCache(i: Index, on: bool)
    | WriteTx(i: Index, off: bool)
    | ApplyTx(i: Index, off: bool, ok: bool)
    | Apply(i: Index, luck: Luck)
    | ReleasePort(i: Index)
    | WriteIoBus(on: bool)
    | ApplyIoBus(ok: bool)
    | TestBegin
    | TestDisable(luck: Luck)
    | TestStart(ledcOk: bool)
    | TestStop
    | TestThaw
    | TestRestore(luck: Luck)

  predicate Enabled(s: State, e: Event) {
    match e
    case CacheRequest(_, _) => s.move.Idle?
    case CacheApply(_) => s.move.Idle?
    case CacheRelease(_) => s.move.Chosen?
    case CacheClaim(_) => s.move.Claiming?
    case CacheSync(_) => s.move.Syncing?
    case CacheClear => s.move.Clearing?
    case TestBegin => s.test.phase == Off
    case TestDisable(_) => s.test.phase == Freezing || s.test.phase == OneDown
    case TestStart(_) => s.test.phase == BothDown
    case TestStop => s.test.phase == Running
    case TestThaw => s.test.phase == Releasing
    case TestRestore(_) => s.test.phase == Thawed || s.test.phase == OneUp
    case _ => true
  }

  function InPhase(s: State, phase: Phase): State {
    s.(test := s.test.(phase := phase))
  }

  /** One step. A waveform that does not start is rolled back like an ordinary stop. `ApplyTx` carries the
      setting as it was read, which may be an old one by now, and is not held back by a freeze. */
  function Step(s: State, e: Event): State {
    match e
    case ModeRequest(i, mode, l) => SetMode(s, i, mode, true, l).state
    case CacheRequest(i, on) => s.(move := Chosen(i, on))
    case CacheApply(saveOk) => ApplyCache(s, saveOk)
    case CacheRelease(saveOk) => if s.move.Chosen? then Release(s, s.move.i, s.move.on, saveOk) else s
    case CacheClaim(saveOk) => if s.move.Claiming? then Claim(s, s.move.i, s.move.on, s.move.moved, saveOk) else s
    case CacheSync(allocOk) => if s.move.Syncing? then SyncMove(s, s.move.i, s.move.moved, allocOk) else s
    case CacheClear => s.(move := Idle)
    case Display(i, on) => s.With(i, s.At(i).(display := on))
    case WriteMode(i, mode) => s.With(i, StoreMode(s.At(i), mode))
    case WriteCache(i, on) => s.With(i, StoreCache(s.At(i), on))
    case WriteTx(i, off) => s.With(i, s.At(i).(flash := s.At(i).flash.(txOff := off)))
    case ApplyTx(i, off, ok) => s.With(i, SetTx(s.At(i), off, ok))
    case Apply(i, l) => ApplySettings(s, i, l)
    case ReleasePort(i) => if s.test.frozen then s else s.With(i, Down(s.At(i)))
    case WriteIoBus(on) => s.(ioBusSetting := on)
    case ApplyIoBus(ok) => if ok then s.(ioBus := s.ioBusSetting) else s
    case TestBegin => s.(test := s.test.(frozen := true, phase := Freezing))
    case TestDisable(l) =>
      if s.test.phase == Freezing then InPhase(SetMode(s, First, Disabled, false, l).state, OneDown)
      else InPhase(SetMode(s, Second, Disabled, false, l).state, BothDown)
    case TestStart(ledcOk) =>
      s.(one := s.one.(de := if ledcOk then DrivenHigh else Released), two := s.two.(de := DrivenLow),
         test := s.test.(parked := true, phase := if ledcOk then Running else Releasing))
    case TestStop => InPhase(s.(one := s.one.(de := Released)), Releasing)
    case TestThaw => s.(test := s.test.(frozen := false, phase := Thawed))
    case TestRestore(l) =>
      if s.test.phase == Thawed then InPhase(ApplySettings(s, First, l), OneUp)
      else InPhase(ApplySettings(s, Second, l), Off)
  }

  predicate Runnable(s: State, es: seq<Event>)
    decreases |es|
  {
    es == [] || (Enabled(s, es[0]) && Runnable(Step(s, es[0]), es[1..]))
  }

  function Run(s: State, es: seq<Event>): State
    decreases |es|
  {
    if es == [] then s else Run(Step(s, es[0]), es[1..])
  }

  // ---- What every step keeps ----------------------------------------------------------------

  /** The cache reason is exactly an overlay on an open port; the receive timeout belongs to the mode; the
      DE line of an open port is the UART's, or held low. */
  predicate PortOk(p: Port) {
    && (p.serialOpen ==> p.mode != Disabled)
    && (p.mode == Passive || p.mode == Repeater ==> p.serialOpen)
    && (p.cache <==> p.overlay && p.serialOpen)
    && (p.serialOpen ==> (p.shortRx <==> p.mode == Passive))
    && (p.serialOpen ==> p.de == if p.txOff then DrivenLow else Uart)
  }

  /** Where a move has got to is where the overlays are. */
  predicate MoveOk(s: State) {
    match s.move
    case Claiming(i, on, moved) => (on ==> !s.Other(i).overlay) && (moved ==> on && !s.At(i).overlay)
    case Syncing(i, on, moved) => s.At(i).overlay == on && (on ==> !s.Other(i).overlay) && (moved ==> on)
    case Clearing(i) => s.At(i).overlay
    case _ => true
  }

  /** No overlay is about to change, and none has since the last sync. */
  predicate Settled(m: Move) {
    m.Idle? || m.Clearing?
  }

  predicate CacheOk(s: State) {
    && !(s.one.overlay && s.two.overlay)
    && MoveOk(s)
    && (Settled(s.move) && s.pool.on ==> s.AnyOverlay())
    && (Settled(s.move) && s.pool.synced ==> (s.pool.on <==> s.AnyOverlay() && !s.pool.allocFailed))
  }

  /** The phases in which the test has both ports down. */
  predicate BothHeld(t: Test) {
    t.phase == BothDown || t.phase == Running || t.phase == Releasing
  }

  predicate TestOk(s: State) {
    && (s.test.frozen <==> s.test.phase != Off && s.test.phase != Thawed && s.test.phase != OneUp)
    && (s.test.phase == OneDown ==> s.one.mode == Disabled)
    && (BothHeld(s.test) ==> s.one.mode == Disabled && s.two.mode == Disabled)
    && (s.test.parked ==> s.two.de == DrivenLow && !s.two.serialOpen)
    && (s.test.phase == Running || s.test.phase == Releasing ==> s.test.parked)
    && (s.test.phase == Running ==> s.one.de == DrivenHigh)
  }

  predicate Inv(s: State) {
    PortOk(s.one) && PortOk(s.two) && CacheOk(s) && TestOk(s)
  }

  /** Power-up, before the ports are brought up: the stored overlays normalised to at most one port. */
  predicate Booted(s: State) {
    && s.one.mode == Disabled && s.two.mode == Disabled && !s.one.serialOpen && !s.two.serialOpen
    && !s.one.cache && !s.two.cache && !(s.one.overlay && s.two.overlay)
    && s.pool == Pool(false, false, false) && s.move == Idle && s.test == Test(false, Off, false)
  }

  lemma {:induction false} BootedKeeps(s: State)
    requires Booted(s)
    ensures Inv(s)
  {
  }

  lemma {:induction false} DownKeeps(s: State, i: Index)
    requires Inv(s)
    ensures Inv(s.With(i, Down(s.At(i))))
  {
  }

  /** The invariant looks at a port's overlay, at its mode, and at port 2's line; a step that leaves the rest of
      the state alone can be checked port by port. */
  lemma {:induction false} InvByParts(s: State, i: Index, t: State)
    requires Inv(s) && t.Other(i) == s.Other(i) && PortOk(t.At(i))
    requires CacheOk(t) && TestOk(t)
    ensures Inv(t)
  {
  }

  /** What bringing a port up does to the two ports and to the test. */
  lemma {:induction false} InitMeans(s: State, i: Index, mode: Mode, ok: bool, hasSerial: bool, allocOk: bool)
    ensures var t := Init(s, i, mode, ok, hasSerial, allocOk);
            && t.Other(i) == s.Other(i)
            && t.At(i) == (if mode == Disabled || ok then Up(s.At(i), mode, hasSerial) else s.At(i))
            && t.test == s.test.(parked := t.test.parked)
            && (t.test.parked <==> s.test.parked && !(i == Second && Opens(mode, hasSerial) && ok))
  {
  }

  lemma {:induction false} UpKeeps(p: Port, mode: Mode, hasSerial: bool)
    requires PortOk(p) && p.mode == Disabled
    ensures var q := Up(p, mode, hasSerial);
            PortOk(q) && q.overlay == p.overlay && q.mode == mode && (q.serialOpen <==> Opens(mode, hasSerial))
    ensures !Opens(mode, hasSerial) ==> Up(p, mode, hasSerial).de == p.de
  {
  }

  lemma {:induction false} InitKeepsCache(s: State, i: Index, mode: Mode, ok: bool, hasSerial: bool, allocOk: bool)
    requires CacheOk(s)
    ensures CacheOk(Init(s, i, mode, ok, hasSerial, allocOk))
  {
  }

  lemma {:induction false} InitKeepsTest(s: State, i: Index, mode: Mode, ok: bool, hasSerial: bool, allocOk: bool)
    requires Inv(s) && s.At(i).mode == Disabled && (mode != Disabled ==> !s.test.frozen)
    ensures TestOk(Init(s, i, mode, ok, hasSerial, allocOk))
  {
    UpKeeps(s.At(i), mode, hasSerial);
    InitMeans(s, i, mode, ok, hasSerial, allocOk);
  }

  lemma {:induction false} InitKeeps(s: State, i: Index, mode: Mode, ok: bool, hasSerial: bool, allocOk: bool)
    requires Inv(s) && s.At(i).mode == Disabled && (mode != Disabled ==> !s.test.frozen)
    ensures Inv(Init(s, i, mode, ok, hasSerial, allocOk))
  {
    UpKeeps(s.At(i), mode, hasSerial);
    InitMeans(s, i, mode, ok, hasSerial, allocOk);
    InitKeepsCache(s, i, mode, ok, hasSerial, allocOk);
    InitKeepsTest(s, i, mode, ok, hasSerial, allocOk);
    InvByParts(s, i, Init(s, i, mode, ok, hasSerial, allocOk));
  }

  /** What the invariant looks at. */
  predicate Alike(p: Port, q: Port) {
    p.mode == q.mode && p.serialOpen == q.serialOpen && p.overlay == q.overlay && p.de == q.de
  }

  lemma {:induction false} AlikeKeeps(s: State, i: Index, q: Port)
    requires Inv(s) && PortOk(q) && Alike(s.At(i), q)
    ensures Inv(s.With(i, q))
  {
  }

  lemma {:induction false} SavedKeeps(s: State, i: Index, mode: Mode)
    requires Inv(s)
    ensures Inv(s.With(i, StoreMode(s.At(i), mode)))
  {
    AlikeKeeps(s, i, StoreMode(s.At(i), mode));
  }

  lemma {:induction false} SetModeKeeps(s: State, i: Index, mode: Mode, persist: bool, l: Luck)
    requires Inv(s) && (persist || mode == Disabled)
    ensures Inv(SetMode(s, i, mode, persist, l).state)
  {
    var down := s.With(i, Down(s.At(i)));
    if persist && s.test.frozen {
    } else if mode == Disabled || l.initOk {
      DownKeeps(s, i);
      InitKeeps(down, i, mode, true, l.hasSerial, l.allocOk);
      SavedKeeps(Init(down, i, mode, true, l.hasSerial, l.allocOk), i, mode);
    } else {
      DownKeeps(s, i);
      InitKeeps(down, i, s.At(i).mode, l.rollbackOk, l.hasSerial, l.allocOk);
    }
  }

  lemma {:induction false} ApplyKeeps(s: State, i: Index, l: Luck)
    requires Inv(s)
    ensures Inv(ApplySettings(s, i, l))
  {
    DownKeeps(s, i);
    if !s.test.frozen {
      InitKeeps(s.With(i, Down(s.At(i))), i, s.At(i).flash.mode, l.initOk, l.hasSerial, l.allocOk);
    }
  }

  lemma {:induction false} SetOverlayKeeps(p: Port, on: bool, saveOk: bool)
    requires PortOk(p)
    ensures var q := SetOverlay(p, on, saveOk); PortOk(q) && q.overlay == on && q.de == p.de
  {
  }

  /** Changing an overlay is no business of the test's. */
  lemma {:induction false} OverlayKeepsTest(s: State, i: Index, on: bool, saveOk: bool, move: Move)
    requires Inv(s)
    ensures var t := s.With(i, SetOverlay(s.At(i), on, saveOk)).(move := move);
            TestOk(t) && t.Other(i) == s.Other(i) && PortOk(t.At(i)) && t.At(i).overlay == on
  {
    SetOverlayKeeps(s.At(i), on, saveOk);
  }

  lemma {:induction false} ReleaseKeeps(s: State, saveOk: bool)
    requires Inv(s) && s.move.Chosen?
    ensures Inv(Release(s, s.move.i, s.move.on, saveOk))
  {
    var i, on := s.move.i, s.move.on;
    if on && s.Other(i).overlay {
      OverlayKeepsTest(s, OtherOf(i), false, saveOk, Claiming(i, on, true));
      InvByParts(s, OtherOf(i), Release(s, i, on, saveOk));
    }
  }

  lemma {:induction false} ClaimKeeps(s: State, saveOk: bool)
    requires Inv(s) && s.move.Claiming?
    ensures Inv(Claim(s, s.move.i, s.move.on, s.move.moved, saveOk))
  {
    var i, on, moved := s.move.i, s.move.on, s.move.moved;
    OverlayKeepsTest(s, i, on, saveOk, Syncing(i, on, moved));
    InvByParts(s, i, Claim(s, i, on, moved, saveOk));
  }

  lemma {:induction false} SyncMoveKeeps(s: State, allocOk: bool)
    requires Inv(s) && s.move.Syncing?
    ensures Inv(SyncMove(s, s.move.i, s.move.moved, allocOk))
  {
  }

  lemma {:induction false} ApplyCacheKeeps(s: State, saveOk: bool)
    requires Inv(s) && s.move.Idle?
    ensures Inv(ApplyCache(s, saveOk))
  {
  }

  lemma {:induction false} MoveStepsKeep(s: State, e: Event)
    requires Inv(s) && Enabled(s, e)
    requires e.CacheRequest? || e.CacheApply? || e.CacheRelease? || e.CacheClaim? || e.CacheSync? || e.CacheClear?
    ensures Inv(Step(s, e))
  {
    match e
    case CacheApply(saveOk) => ApplyCacheKeeps(s, saveOk);
    case CacheRelease(saveOk) => ReleaseKeeps(s, saveOk);
    case CacheClaim(saveOk) => ClaimKeeps(s, saveOk);
    case CacheSync(allocOk) => SyncMoveKeeps(s, allocOk);
    case _ =>
  }

  /** Taking a port down leaves the test where it was. */
  lemma {:induction false} TransientDisable(s: State, i: Index, l: Luck)
    requires Inv(s)
    ensures var t := SetMode(s, i, Disabled, false, l).state;
            Inv(t) && t.At(i).mode == Disabled && t.Other(i).mode == s.Other(i).mode && t.test == s.test
  {
    SetModeKeeps(s, i, Disabled, false, l);
  }

  lemma {:induction false} HeldKeeps(s: State, phase: Phase)
    requires Inv(s) && s.test.frozen && (s.test.phase == Freezing || s.test.phase == OneDown)
    requires (phase == OneDown && s.one.mode == Disabled) ||
             (phase == BothDown && s.one.mode == Disabled && s.two.mode == Disabled)
    ensures Inv(InPhase(s, phase))
  {
  }

  lemma {:induction false} DisabledIs(s: State, i: Index, phase: Phase, l: Luck)
    requires Inv(s) && s.test.frozen && (s.test.phase == Freezing || s.test.phase == OneDown)
    requires if i == First then phase == OneDown else phase == BothDown && s.one.mode == Disabled
    ensures Inv(InPhase(SetMode(s, i, Disabled, false, l).state, phase))
  {
    TransientDisable(s, i, l);
    HeldKeeps(SetMode(s, i, Disabled, false, l).state, phase);
  }

  lemma {:induction false} DisableKeeps(s: State, l: Luck)
    requires Inv(s) && Enabled(s, TestDisable(l))
    ensures Inv(Step(s, TestDisable(l)))
  {
    if s.test.phase == Freezing {
      DisabledIs(s, First, OneDown, l);
    } else {
      DisabledIs(s, Second, BothDown, l);
    }
  }

  lemma {:induction false} ApplyKeepsTest(s: State, i: Index, l: Luck)
    ensures ApplySettings(s, i, l).test == s.test.(parked := ApplySettings(s, i, l).test.parked)
  {
  }

  lemma {:induction false} PhaseKeeps(s: State, phase: Phase)
    requires Inv(s) && !s.test.frozen && (phase == Off || phase == OneUp)
    ensures Inv(InPhase(s, phase))
  {
  }

  lemma {:induction false} RestoreKeeps(s: State, l: Luck)
    requires Inv(s) && Enabled(s, TestRestore(l))
    ensures Inv(Step(s, TestRestore(l)))
  {
    var i := if s.test.phase == Thawed then First else Second;
    ApplyKeeps(s, i, l);
    ApplyKeepsTest(s, i, l);
    PhaseKeeps(ApplySettings(s, i, l), if i == First then OneUp else Off);
  }

  lemma {:induction false} DeviceStepsKeep(s: State, e: Event)
    requires Inv(s) && (e.Display? || e.WriteMode? || e.WriteCache? || e.WriteTx?)
    ensures Inv(Step(s, e))
  {
    var q := match e
      case Display(i, on) => s.At(i).(display := on)
      case WriteMode(i, mode) => StoreMode(s.At(i), mode)
      case WriteCache(i, on) => StoreCache(s.At(i), on)
      case WriteTx(i, off) => s.At(i).(flash := s.At(i).flash.(txOff := off));
    AlikeKeeps(s, e.i, q);
  }

  lemma {:induction false} SetTxKeeps(s: State, i: Index, off: bool, ok: bool)
    requires Inv(s)
    ensures Inv(s.With(i, SetTx(s.At(i), off, ok)))
  {
  }

  lemma {:induction false} TestStepsKeep(s: State, e: Event)
    requires Inv(s) && Enabled(s, e) && (e.TestBegin? || e.TestStart? || e.TestStop? || e.TestThaw?)
    ensures Inv(Step(s, e))
  {
  }

  lemma {:induction false} StepKeepsInv(s: State, e: Event)
    requires Inv(s) && Enabled(s, e)
    ensures Inv(Step(s, e))
  {
    match e
    case ModeRequest(i, mode, l) => SetModeKeeps(s, i, mode, true, l);
    case CacheRequest(_, _) => MoveStepsKeep(s, e);
    case CacheApply(_) => MoveStepsKeep(s, e);
    case CacheRelease(_) => MoveStepsKeep(s, e);
    case CacheClaim(_) => MoveStepsKeep(s, e);
    case CacheSync(_) => MoveStepsKeep(s, e);
    case CacheClear => MoveStepsKeep(s, e);
    case Apply(i, l) => ApplyKeeps(s, i, l);
    case ApplyTx(i, off, ok) => SetTxKeeps(s, i, off, ok);
    case TestDisable(l) => DisableKeeps(s, l);
    case TestRestore(l) => RestoreKeeps(s, l);
    case WriteCache(_, _) => DeviceStepsKeep(s, e);
    case WriteTx(_, _) => DeviceStepsKeep(s, e);
    case Display(_, _) => DeviceStepsKeep(s, e);
    case WriteMode(_, _) => DeviceStepsKeep(s, e);
    case ReleasePort(i) => DownKeeps(s, i);
    case WriteIoBus(_) =>
    case ApplyIoBus(_) =>
    case _ => TestStepsKeep(s, e);
  }

  /** In every reachable state, whatever fails: at most one overlay, also half-way through a move; the cache
      reason iff the overlay and an open port; the pool iff some overlay whenever no move is before its sync
      (unless its allocation failed); the receive timeout by mode; the DE line of an open port held low
      exactly if its transmitter is off; and everything the test promises. */
  lemma {:induction false} RunKeepsInv(s: State, es: seq<Event>)
    requires Inv(s) && Runnable(s, es)
    ensures Inv(Run(s, es))
    decreases |es|
  {
    if es != [] {
      StepKeepsInv(s, es[0]);
      RunKeepsInv(Step(s, es[0]), es[1..]);
    }
  }

  lemma {:induction false} RunCons(s: State, e: Event, es: seq<Event>)
    ensures Run(s, [e] + es) == Run(Step(s, e), es)
    ensures Runnable(s, [e] + es) <==> Enabled(s, e) && Runnable(Step(s, e), es)
  {
    assert ([e] + es)[1..] == es;
  }

  // ---- While the test is on -----------------------------------------------------------------

  predicate IsMove(e: Event) {
    e.CacheRequest? || e.CacheApply? || e.CacheRelease? || e.CacheClaim? || e.CacheSync? || e.CacheClear?
  }

  predicate IsQuiet(e: Event) {
    e.Display? || e.WriteCache? || e.WriteTx? || e.ApplyTx?
  }

  /** The two modes of both ports, the test and the I/O bus. */
  predicate SameModes(s: State, t: State) {
    && s.one.mode == t.one.mode && s.one.flash.mode == t.one.flash.mode
    && s.two.mode == t.two.mode && s.two.flash.mode == t.two.flash.mode
    && s.test == t.test && s.ioBus == t.ioBus && s.ioBusSetting == t.ioBusSetting
  }

  lemma {:induction false} MovesKeepModes(s: State, e: Event)
    requires IsMove(e)
    ensures SameModes(s, Step(s, e))
  {
  }

  lemma {:induction false} QuietKeepsModes(s: State, e: Event)
    requires IsQuiet(e)
    ensures SameModes(s, Step(s, e))
  {
  }

  lemma {:induction false} DownIsFlashed(p: Port, mode: Mode, hasSerial: bool)
    ensures Down(p).mode == Disabled && Down(p).flash == p.flash
    ensures Up(Down(p), mode, hasSerial).mode == mode && Up(Down(p), mode, hasSerial).flash == p.flash
  {
  }

  lemma {:induction false} FrozenDisable(s: State, l: Luck)
    requires Inv(s) && Enabled(s, TestDisable(l)) && s.test.frozen
    ensures var t := Step(s, TestDisable(l));
            t.test.frozen && t.one.flash.mode == s.one.flash.mode && t.two.flash.mode == s.two.flash.mode
  {
    var i := if s.test.phase == Freezing then First else Second;
    SetModeWorks(s, i, Disabled, false, l);
    DownIsFlashed(s.At(i), Disabled, l.hasSerial);
  }

  lemma {:induction false} FrozenStep(s: State, e: Event)
    requires Inv(s) && Enabled(s, e) && s.test.frozen && !e.TestThaw?
    ensures Step(s, e).test.frozen
    ensures !(e.WriteMode? && e.i == First) ==> Step(s, e).one.flash.mode == s.one.flash.mode
    ensures !(e.WriteMode? && e.i == Second) ==> Step(s, e).two.flash.mode == s.two.flash.mode
    ensures BothHeld(s.test) ==> BothHeld(Step(s, e).test)
    ensures e.ModeRequest? ==> Step(s, e) == s && SetMode(s, e.i, e.mode, true, e.luck).answer == PortsFrozen
  {
    if IsMove(e) {
      MovesKeepModes(s, e);
    } else if IsQuiet(e) {
      QuietKeepsModes(s, e);
    } else if e.TestDisable? {
      FrozenDisable(s, e.luck);
    }
  }

  function LastWritten(mode: Mode, es: seq<Event>, i: Index): Mode
    decreases |es|
  {
    if es == [] then mode
    else LastWritten(if es[0].WriteMode? && es[0].i == i then es[0].mode else mode, es[1..], i)
  }

  /** From the freeze to the thaw, over every interleaving: once both ports are down they stay down, no
      mode request gets through, and the stored modes change only by a settings write. */
  lemma {:induction false} TestHoldsThePorts(s: State, es: seq<Event>)
    requires Inv(s) && Runnable(s, es) && s.test.frozen && TestThaw !in es
    ensures var t := Run(s, es);
            && t.test.frozen
            && (BothHeld(s.test) ==> t.one.mode == Disabled && t.two.mode == Disabled)
            && t.one.flash.mode == LastWritten(s.one.flash.mode, es, First)
            && t.two.flash.mode == LastWritten(s.two.flash.mode, es, Second)
    decreases |es|
  {
    if es != [] {
      assert es[0] in es;
      FrozenStep(s, es[0]);
      StepKeepsInv(s, es[0]);
      TestHoldsThePorts(Step(s, es[0]), es[1..]);
    }
  }

  /** Taking a port down and bringing it up in another mode, in terms of the port alone. */
  lemma {:induction false} Reinit(s: State, i: Index, mode: Mode, hasSerial: bool, allocOk: bool)
    ensures var t := Init(s.With(i, Down(s.At(i))), i, mode, true, hasSerial, allocOk);
            && t.Other(i) == s.Other(i)
            && t.At(i) == Up(Down(s.At(i)), mode, hasSerial)
            && SameTest(s, i, t)
  {
  }

  function Stored(p: Port, mode: Mode, saved: bool): Port {
    if saved then StoreMode(p, mode) else p
  }

  lemma {:induction false} SaveMeans(s: State, i: Index, t: State, mode: Mode)
    requires SameTest(s, i, t)
    ensures var u := t.With(i, StoreMode(t.At(i), mode));
            u.Other(i) == t.Other(i) && u.At(i) == Stored(t.At(i), mode, true) && SameTest(s, i, u)
  {
  }

  /** A mode change that works, and one that does not. */
  lemma {:induction false} SetModeWorks(s: State, i: Index, mode: Mode, persist: bool, l: Luck)
    requires !(persist && s.test.frozen) && (mode == Disabled || l.initOk)
    ensures var t := SetMode(s, i, mode, persist, l).state;
            && t.Other(i) == s.Other(i)
            && t.At(i) == Stored(Up(Down(s.At(i)), mode, l.hasSerial), mode, persist && l.saveOk)
            && SameTest(s, i, t)
  {
    Reinit(s, i, mode, l.hasSerial, l.allocOk);
    SaveMeans(s, i, Init(s.With(i, Down(s.At(i))), i, mode, true, l.hasSerial, l.allocOk), mode);
  }

  lemma {:induction false} SetModeRollsBack(s: State, i: Index, mode: Mode, persist: bool, l: Luck)
    requires !(persist && s.test.frozen) && mode != Disabled && !l.initOk
    ensures var t := SetMode(s, i, mode, persist, l).state;
            && t.Other(i) == s.Other(i)
            && t.At(i) == (if s.At(i).mode != Disabled && l.rollbackOk
                           then Up(Down(s.At(i)), s.At(i).mode, l.hasSerial) else Down(s.At(i)))
            && SameTest(s, i, t)
  {
    InitMeans(s.With(i, Down(s.At(i))), i, s.At(i).mode, l.rollbackOk, l.hasSerial, l.allocOk);
  }

  /** The test stands where it stood, unless port 2's UART has just taken the parked line. */
  predicate SameTest(s: State, i: Index, t: State) {
    t.test == s.test || (i == Second && t.test == s.test.(parked := false) && t.two.serialOpen)
  }

  lemma {:induction false} ApplyMeans(s: State, i: Index, l: Luck)
    requires !s.test.frozen
    ensures var t := ApplySettings(s, i, l);
            && t.Other(i) == s.Other(i)
            && SameTest(s, i, t)
            && t.At(i) == (if s.At(i).flash.mode == Disabled || l.initOk
                           then Up(Down(s.At(i)), s.At(i).flash.mode, l.hasSerial) else Down(s.At(i)))
  {
    if s.At(i).flash.mode == Disabled || l.initOk {
      Reinit(s, i, s.At(i).flash.mode, l.hasSerial, l.allocOk);
    } else {
      WithMeans(s, i, Down(s.At(i)));
    }
  }

  lemma {:induction false} WithMeans(s: State, i: Index, q: Port)
    ensures var t := s.With(i, q); t.At(i) == q && t.Other(i) == s.Other(i) && t.test == s.test
  {
  }

  /** What the caller is told. Frozen: exactly a request to be stored, while the ports are frozen; nothing
      changes. Accepted: exactly if the mode came up and, if it was to be stored, could be; the port then runs in
      it, and flash says so if it was to be stored. Failed otherwise; flash is then as it was. */
  lemma {:induction false} AnswerMeans(s: State, i: Index, mode: Mode, persist: bool, l: Luck)
    ensures var o := SetMode(s, i, mode, persist, l); var p := o.state.At(i);
            && (o.answer == PortsFrozen <==> persist && s.test.frozen)
            && (o.answer == Accepted <==>
                  !(persist && s.test.frozen) && (mode == Disabled || l.initOk) && (!persist || l.saveOk))
            && (o.answer == PortsFrozen ==> o.state == s)
            && (o.answer == Accepted ==> p.mode == mode && (persist ==> p.flash.mode == mode))
            && (o.answer != Accepted || !persist ==> p.flash == s.At(i).flash)
  {
    if !(persist && s.test.frozen) {
      if mode == Disabled || l.initOk {
        SetModeWorks(s, i, mode, persist, l);
        DownIsFlashed(s.At(i), mode, l.hasSerial);
      } else {
        SetModeRollsBack(s, i, mode, persist, l);
        DownIsFlashed(s.At(i), s.At(i).mode, l.hasSerial);
      }
    }
  }

  lemma {:induction false} ModeKeepsTest(s: State, i: Index, mode: Mode, l: Luck)
    requires !s.test.frozen
    ensures SameTest(s, i, SetMode(s, i, mode, true, l).state)
  {
    if mode == Disabled || l.initOk {
      SetModeWorks(s, i, mode, true, l);
    } else {
      SetModeRollsBack(s, i, mode, true, l);
    }
  }

  /** A TX setting that is applied late, on top of a test that has just started, does not reach its lines. */
  lemma {:induction false} TxCannotReachTheTest(s: State, i: Index, off: bool, ok: bool)
    requires Inv(s) && BothHeld(s.test)
    ensures Step(s, ApplyTx(i, off, ok)) == s
  {
  }

  /** Port 2's DE line is held low from the moment it is parked until its UART takes it, and by nothing else.
      If that port's transmitter is off, it stays low even then. */
  lemma {:induction false} ParkedUntilUart(s: State, e: Event)
    requires Inv(s) && Enabled(s, e) && s.test.parked
    ensures Step(s, e).test.parked ==> Step(s, e).two.de == DrivenLow
    ensures !Step(s, e).test.parked ==>
              Step(s, e).two.serialOpen && Step(s, e).two.de == if Step(s, e).two.txOff then DrivenLow else Uart
  {
    StepKeepsInv(s, e);
    match e
    case ModeRequest(i, mode, l) =>
      if !s.test.frozen {
        ModeKeepsTest(s, i, mode, l);
      }
    case TestDisable(l) => SetModeWorks(s, if s.test.phase == Freezing then First else Second, Disabled, false, l);
    case Apply(i, l) =>
      if !s.test.frozen {
        ApplyMeans(s, i, l);
      }
    case TestRestore(l) => ApplyMeans(s, if s.test.phase == Thawed then First else Second, l);
    case _ =>
  }

  // ---- Who drives the DE lines --------------------------------------------------------------

  /** Who drives the line of a closed port: the test, which drives port 1's high while it runs and holds port 2's
      low once it has parked it, or nobody. */
  function ClosedLine(t: Test, i: Index): Pin {
    if i == First then (if t.phase == Running then DrivenHigh else Released)
    else (if t.parked then DrivenLow else Released)
  }

  /** Nothing is left on a closed port of its UART or of transmission being off. */
  predicate LineOk(p: Port, closed: Pin) {
    p.serialOpen || (!p.txOff && p.de == closed)
  }

  predicate LinesOk(s: State) {
    LineOk(s.one, ClosedLine(s.test, First)) && LineOk(s.two, ClosedLine(s.test, Second))
  }

  lemma {:induction false} ClosingLine(s: State, i: Index, mode: Mode, hasSerial: bool)
    requires Inv(s) && LinesOk(s)
    ensures LineOk(Down(s.At(i)), ClosedLine(s.test, i))
    ensures LineOk(Up(Down(s.At(i)), mode, hasSerial), ClosedLine(s.test, i))
  {
    assert s.At(i).serialOpen ==> ClosedLine(s.test, i) == Released;
  }

  lemma {:induction false} LinesByPorts(s: State, i: Index, t: State)
    requires LinesOk(s) && t.Other(i) == s.Other(i) && SameTest(s, i, t)
    requires LineOk(t.At(i), ClosedLine(s.test, i))
    ensures LinesOk(t)
  {
  }

  lemma {:induction false} SetModeKeepsLines(s: State, i: Index, mode: Mode, persist: bool, l: Luck)
    requires Inv(s) && LinesOk(s)
    ensures LinesOk(SetMode(s, i, mode, persist, l).state)
  {
    if !(persist && s.test.frozen) {
      if mode == Disabled || l.initOk {
        SetModeWorks(s, i, mode, persist, l);
        ClosingLine(s, i, mode, l.hasSerial);
      } else {
        SetModeRollsBack(s, i, mode, persist, l);
        ClosingLine(s, i, s.At(i).mode, l.hasSerial);
      }
      LinesByPorts(s, i, SetMode(s, i, mode, persist, l).state);
    }
  }

  lemma {:induction false} ApplyKeepsLines(s: State, i: Index, l: Luck)
    requires Inv(s) && LinesOk(s)
    ensures LinesOk(ApplySettings(s, i, l))
  {
    if !s.test.frozen {
      ApplyMeans(s, i, l);
      ClosingLine(s, i, s.At(i).flash.mode, l.hasSerial);
      LinesByPorts(s, i, ApplySettings(s, i, l));
    }
  }

  lemma {:induction false} PhaseKeepsLines(s: State, phase: Phase)
    requires LinesOk(s) && s.test.phase != Running && phase != Running
    ensures LinesOk(InPhase(s, phase))
  {
  }

  lemma {:induction false} DisabledLines(s: State, i: Index, phase: Phase, l: Luck)
    requires Inv(s) && LinesOk(s) && s.test.phase != Running && phase != Running
    ensures LinesOk(InPhase(SetMode(s, i, Disabled, false, l).state, phase))
  {
    SetModeKeepsLines(s, i, Disabled, false, l);
    TransientDisable(s, i, l);
    PhaseKeepsLines(SetMode(s, i, Disabled, false, l).state, phase);
  }

  lemma {:induction false} RestoreKeepsLines(s: State, l: Luck)
    requires Inv(s) && LinesOk(s) && Enabled(s, TestRestore(l))
    ensures LinesOk(Step(s, TestRestore(l)))
  {
    var i := if s.test.phase == Thawed then First else Second;
    ApplyKeepsLines(s, i, l);
    ApplyKeepsTest(s, i, l);
    PhaseKeepsLines(ApplySettings(s, i, l), if i == First then OneUp else Off);
  }

  lemma {:induction false} OverlayKeepsLines(s: State, i: Index, on: bool, saveOk: bool, move: Move)
    requires LinesOk(s)
    ensures LinesOk(s.With(i, SetOverlay(s.At(i), on, saveOk)).(move := move))
  {
  }

  lemma {:induction false} ReleaseKeepsLines(s: State, i: Index, on: bool, saveOk: bool)
    requires LinesOk(s)
    ensures LinesOk(Release(s, i, on, saveOk))
  {
    OverlayKeepsLines(s, OtherOf(i), false, saveOk, Claiming(i, on, true));
  }

  lemma {:induction false} MovesKeepLines(s: State, e: Event)
    requires LinesOk(s) && IsMove(e)
    ensures LinesOk(Step(s, e))
  {
    if e.CacheRelease? && s.move.Chosen? {
      ReleaseKeepsLines(s, s.move.i, s.move.on, e.saveOk);
    } else if e.CacheClaim? && s.move.Claiming? {
      OverlayKeepsLines(s, s.move.i, s.move.on, e.saveOk, Syncing(s.move.i, s.move.on, s.move.moved));
    }
  }

  lemma {:induction false} DeviceStepsKeepLines(s: State, e: Event)
    requires Inv(s) && LinesOk(s) && (IsQuiet(e) || e.WriteMode?)
    ensures LinesOk(Step(s, e))
  {
    var q := match e
      case Display(i, on) => s.At(i).(display := on)
      case WriteMode(i, mode) => StoreMode(s.At(i), mode)
      case WriteCache(i, on) => StoreCache(s.At(i), on)
      case WriteTx(i, off) => s.At(i).(flash := s.At(i).flash.(txOff := off))
      case ApplyTx(i, off, ok) => SetTx(s.At(i), off, ok);
    WithMeans(s, e.i, q);
    LinesByPorts(s, e.i, s.With(e.i, q));
  }

  lemma {:induction false} StepKeepsLines(s: State, e: Event)
    requires Inv(s) && LinesOk(s) && Enabled(s, e)
    ensures LinesOk(Step(s, e))
  {
    if IsMove(e) {
      MovesKeepLines(s, e);
    } else if IsQuiet(e) || e.WriteMode? {
      DeviceStepsKeepLines(s, e);
    } else if e.ModeRequest? {
      SetModeKeepsLines(s, e.i, e.mode, true, e.luck);
    } else if e.Apply? {
      ApplyKeepsLines(s, e.i, e.luck);
    } else if e.TestDisable? {
      DisabledLines(s, First, OneDown, e.luck);
      DisabledLines(s, Second, BothDown, e.luck);
    } else if e.TestRestore? {
      RestoreKeepsLines(s, e.luck);
    } else if e.ReleasePort? {
      ClosingLine(s, e.i, Disabled, false);
      LinesByPorts(s, e.i, s.With(e.i, Down(s.At(e.i))));
    }
  }

  /** Over every run from power-up, where nobody drives either line, the state tells who does. */
  lemma {:induction false} LinesAreAccountedFor(s: State, es: seq<Event>)
    requires Inv(s) && LinesOk(s) && Runnable(s, es)
    ensures LinesOk(Run(s, es))
    decreases |es|
  {
    if es != [] {
      StepKeepsInv(s, es[0]);
      StepKeepsLines(s, es[0]);
      LinesAreAccountedFor(Step(s, es[0]), es[1..]);
    }
  }

  /** Applying the TX setting reaches an open port, unless giving the line back to the UART fails. Only the flag and
      the line change. */
  lemma {:induction false} TxAppliedExactly(p: Port, off: bool, ok: bool)
    ensures var q := SetTx(p, off, ok);
            && (q.txOff == off <==> p.txOff == off || (p.serialOpen && (off || ok)))
            && q.(txOff := p.txOff, de := p.de) == p && (q.txOff == p.txOff ==> q == p)
            && (q.txOff != p.txOff ==> q.de == if off then DrivenLow else Uart)
  {
  }

  // ---- The test comes to an end -------------------------------------------------------------

  predicate IsTest(e: Event) {
    e.TestBegin? || e.TestDisable? || e.TestStart? || e.TestStop? || e.TestThaw? || e.TestRestore?
  }

  /** The phases in the order the test goes through them. */
  function Stage(phase: Phase): nat {
    match phase
    case Off => 0
    case Freezing => 1
    case OneDown => 2
    case BothDown => 3
    case Running => 4
    case Releasing => 5
    case Thawed => 6
    case OneUp => 7
  }

  lemma {:induction false} OthersKeepTheStage(s: State, e: Event)
    requires Inv(s) && Enabled(s, e) && !IsTest(e)
    ensures Step(s, e).test.phase == s.test.phase
  {
    if IsMove(e) {
      MovesKeepModes(s, e);
    } else if IsQuiet(e) {
      QuietKeepsModes(s, e);
    } else if e.ModeRequest? && !s.test.frozen {
      ModeKeepsTest(s, e.i, e.mode, e.luck);
    } else if e.Apply? {
      ApplyKeepsTest(s, e.i, e.luck);
    }
  }

  lemma {:induction false} TestTakesOneStage(s: State, e: Event)
    requires Enabled(s, e) && IsTest(e)
    ensures Stage(Step(s, e).test.phase) ==
            if e == TestStart(false) then 5 else (Stage(s.test.phase) + 1) % 8
  {
  }

  /** The test goes round stage by stage, past the running one if the waveform does not start, and nothing else moves
      it. */
  lemma {:induction false} TestGoesRound(s: State, e: Event)
    requires Inv(s) && Enabled(s, e)
    ensures var was, now := Stage(s.test.phase), Stage(Step(s, e).test.phase);
            now == if !IsTest(e) then was else if e == TestStart(false) then 5 else (was + 1) % 8
  {
    if IsTest(e) {
      TestTakesOneStage(s, e);
    } else {
      OthersKeepTheStage(s, e);
    }
  }

  /** In every reachable state the ports are frozen exactly from the first stage to the fifth. */
  lemma {:induction false} FrozenStages(s: State)
    requires Inv(s)
    ensures s.test.frozen <==> 1 <= Stage(s.test.phase) <= 5
  {
  }

  /** How many steps of its own the test has left. */
  function StepsLeft(phase: Phase): nat {
    if phase == Off then 0 else 8 - Stage(phase)
  }

  /** The step the test takes next. */
  function NextOfTest(phase: Phase, l: Luck): Event {
    match phase
    case Off => TestBegin
    case Freezing => TestDisable(l)
    case OneDown => TestDisable(l)
    case BothDown => TestStart(true)
    case Running => TestStop
    case Releasing => TestThaw
    case Thawed => TestRestore(l)
    case OneUp => TestRestore(l)
  }

  lemma {:induction false} NextIsEnabled(s: State, l: Luck)
    ensures var e := NextOfTest(s.test.phase, l); Enabled(s, e) && IsTest(e) && e != TestStart(false)
  {
  }

  lemma {:induction false} OneStepLess(was: Phase, now: Phase)
    requires was != Off && Stage(now) == (Stage(was) + 1) % 8
    ensures StepsLeft(now) == StepsLeft(was) - 1
  {
  }

  lemma {:induction false} TestGoesOn(s: State, l: Luck) returns (e: Event, t: State)
    requires Inv(s) && s.test.phase != Off
    ensures Enabled(s, e) && IsTest(e) && t == Step(s, e) && Inv(t)
    ensures StepsLeft(t.test.phase) == StepsLeft(s.test.phase) - 1
  {
    e := NextOfTest(s.test.phase, l);
    NextIsEnabled(s, l);
    t := Step(s, e);
    StepKeepsInv(s, e);
    TestTakesOneStage(s, e);
    OneStepLess(s.test.phase, t.test.phase);
  }

  /** Wherever the test stands in a reachable state, it can go on, and is off again once it has been through the
      stages that are left. */
  lemma {:induction false} TestCanEnd(s: State, l: Luck) returns (es: seq<Event>)
    requires Inv(s)
    ensures |es| == StepsLeft(s.test.phase) && Runnable(s, es) && Run(s, es).test.phase == Off
    ensures forall e :: e in es ==> IsTest(e)
    decreases StepsLeft(s.test.phase)
  {
    if s.test.phase == Off {
      es := [];
    } else {
      var e, t := TestGoesOn(s, l);
      var rest := TestCanEnd(t, l);
      es := [e] + rest;
      RunCons(s, e, rest);
    }
  }

  // ---- Ports in line with flash -------------------------------------------------------------

  /** What tries to bring port i in line with its stored mode: a request or an apply while the ports are not
      frozen, or the test's own restore. */
  predicate BringsInLine(s: State, e: Event, i: Index) {
    match e
    case ModeRequest(j, _, _) => j == i && !s.test.frozen
    case Apply(j, _) => j == i && !s.test.frozen
    case TestRestore(_) => i == (if s.test.phase == Thawed then First else Second)
    case _ => false
  }

  /** What flash said about a port and what the port ran in after the last attempt to bring it in line, and
      everything that has happened since. */
  datatype Line = Line(stored: Mode, mode: Mode, since: seq<Event>)

  /** What such an attempt leaves behind, from the port as it was and from what fails. */
  function Brought(p: Port, e: Event): Line
    requires e.ModeRequest? || e.Apply? || e.TestRestore?
  {
    if e.ModeRequest? then
      if e.mode == Disabled || e.luck.initOk then Line(if e.luck.saveOk then e.mode else p.flash.mode, e.mode, [])
      else Line(p.flash.mode, if e.luck.rollbackOk then p.mode else Disabled, [])
    else Line(p.flash.mode, if e.luck.initOk then p.flash.mode else Disabled, [])
  }

  function TrackStep(s: State, e: Event, i: Index, l: Line): Line {
    if BringsInLine(s, e, i) then Brought(s.At(i), e) else Line(l.stored, l.mode, l.since + [e])
  }

  function Track(s: State, es: seq<Event>, i: Index, l: Line): Line
    decreases |es|
  {
    if es == [] then l else Track(Step(s, es[0]), es[1..], i, TrackStep(s, es[0], i, l))
  }

  /** The test does not have port i, or has given it back. */
  predicate Free(t: Test, i: Index) {
    t.phase == Off || (t.phase == OneUp && i == First)
  }

  /** The mode port i runs in after what happened since. */
  function RunsIn(l: Line, i: Index): Mode {
    if ReleasePort(i) in l.since then Disabled else l.mode
  }

  predicate Follows(p: Port, l: Line, i: Index) {
    p.flash.mode == LastWritten(l.stored, l.since, i) && p.mode == RunsIn(l, i)
  }

  lemma {:induction false} LastWrittenThen(mode: Mode, es: seq<Event>, i: Index, e: Event)
    ensures LastWritten(mode, es + [e], i) ==
            if e.WriteMode? && e.i == i then e.mode else LastWritten(mode, es, i)
    decreases |es|
  {
    if es == [] {
      assert es + [e] == [e];
    } else {
      assert (es + [e])[1..] == es[1..] + [e];
      LastWrittenThen(if es[0].WriteMode? && es[0].i == i then es[0].mode else mode, es[1..], i, e);
    }
  }

  lemma {:induction false} InLineStep(s: State, e: Event, i: Index, l: Line)
    requires Inv(s) && Enabled(s, e) && BringsInLine(s, e, i)
    ensures Follows(Step(s, e).At(i), TrackStep(s, e, i, l), i)
  {
    match e
    case ModeRequest(_, mode, luck) => RequestInLine(s, i, mode, luck);
    case Apply(_, luck) => ApplyInLine(s, i, luck);
    case TestRestore(luck) => ApplyInLine(s, i, luck);
  }

  lemma {:induction false} RequestInLine(s: State, i: Index, mode: Mode, l: Luck)
    requires !s.test.frozen
    ensures var p, b := SetMode(s, i, mode, true, l).state.At(i), Brought(s.At(i), ModeRequest(i, mode, l));
            p.mode == b.mode && p.flash.mode == b.stored
  {
    if mode == Disabled || l.initOk {
      SetModeWorks(s, i, mode, true, l);
    } else {
      SetModeRollsBack(s, i, mode, true, l);
    }
  }

  lemma {:induction false} ApplyInLine(s: State, i: Index, l: Luck)
    requires !s.test.frozen
    ensures var p, b := ApplySettings(s, i, l).At(i), Brought(s.At(i), Apply(i, l));
            p.mode == b.mode && p.flash.mode == b.stored
  {
    ApplyMeans(s, i, l);
    DownIsFlashed(s.At(i), s.At(i).flash.mode, l.hasSerial);
  }

  /** What does not bring a free port in line leaves its two modes alone, unless it writes or releases it. */
  lemma {:induction false} FreeStep(s: State, e: Event, i: Index)
    requires Inv(s) && Enabled(s, e) && Free(s.test, i) && Free(Step(s, e).test, i) && !BringsInLine(s, e, i)
    ensures var p, q := s.At(i), Step(s, e).At(i);
            && q.flash.mode == (if e.WriteMode? && e.i == i then e.mode else p.flash.mode)
            && q.mode == (if e == ReleasePort(i) then Disabled else p.mode)
  {
    match e
    case ModeRequest(j, mode, luck) => RequestLeavesOther(s, j, mode, luck);
    case Apply(j, luck) => ApplyMeans(s, j, luck);
    case TestRestore(luck) => ApplyMeans(s, Second, luck);
    case _ =>
      if IsMove(e) {
        MovesKeepModes(s, e);
      } else if IsQuiet(e) {
        QuietKeepsModes(s, e);
      }
  }

  lemma {:induction false} RequestLeavesOther(s: State, i: Index, mode: Mode, l: Luck)
    requires !s.test.frozen
    ensures SetMode(s, i, mode, true, l).state.Other(i) == s.Other(i)
  {
    if mode == Disabled || l.initOk {
      SetModeWorks(s, i, mode, true, l);
    } else {
      SetModeRollsBack(s, i, mode, true, l);
    }
  }

  /** A port that the test has just given back has just been brought in line. */
  lemma {:induction false} BecomesFree(s: State, e: Event, i: Index)
    requires Inv(s) && Enabled(s, e) && !Free(s.test, i) && Free(Step(s, e).test, i)
    ensures BringsInLine(s, e, i)
  {
    match e
    case ModeRequest(j, mode, luck) =>
      if !s.test.frozen {
        ModeKeepsTest(s, j, mode, luck);
      }
    case Apply(j, luck) => ApplyKeepsTest(s, j, luck);
    case _ =>
  }

  lemma {:induction false} FollowsStep(s: State, e: Event, i: Index, l: Line)
    requires Inv(s) && Enabled(s, e) && (Free(s.test, i) ==> Follows(s.At(i), l, i))
    ensures Free(Step(s, e).test, i) ==> Follows(Step(s, e).At(i), TrackStep(s, e, i, l), i)
  {
    if BringsInLine(s, e, i) {
      InLineStep(s, e, i, l);
    } else if Free(Step(s, e).test, i) {
      if Free(s.test, i) {
        FreeStep(s, e, i);
        LastWrittenThen(l.stored, l.since, i, e);
      } else {
        BecomesFree(s, e, i);
      }
    }
  }

  lemma {:induction false} FollowsThroughout(s: State, es: seq<Event>, i: Index, l: Line)
    requires Inv(s) && Runnable(s, es) && (Free(s.test, i) ==> Follows(s.At(i), l, i))
    ensures Free(Run(s, es).test, i) ==> Follows(Run(s, es).At(i), Track(s, es, i, l), i)
    decreases |es|
  {
    if es != [] {
      assert es[0] in es;
      FollowsStep(s, es[0], i, l);
      StepKeepsInv(s, es[0]);
      FollowsThroughout(Step(s, es[0]), es[1..], i, TrackStep(s, es[0], i, l));
    }
  }

  /**
   Over every interleaving, whatever bring-ups, rollbacks and writes fail, tests entered and left any number
   of times: whenever the test is off, flash says about port i what was last written since the last attempt to
   bring the port in line, and the port runs in what that attempt left it in, or not at all if it was
   released since. So it runs in its stored mode exactly if these two are the same. In particular, with nothing
   written or released since, whatever was before, it does exactly if that last attempt left the two alike.
   */
  lemma {:induction false} ExitRestoresTheModes(s: State, es: seq<Event>, i: Index)
    requires Inv(s) && Runnable(s, es)
    ensures var p, l := Run(s, es).At(i), Track(s, es, i, Line(s.At(i).flash.mode, s.At(i).mode, []));
            Run(s, es).test.phase == Off ==>
              && p.flash.mode == LastWritten(l.stored, l.since, i) && p.mode == RunsIn(l, i)
              && (p.mode == p.flash.mode <==> LastWritten(l.stored, l.since, i) == RunsIn(l, i))
              && (Untouched(l.since, i) ==> (p.mode == p.flash.mode <==> l.mode == l.stored))
  {
    var l := Line(s.At(i).flash.mode, s.At(i).mode, []);
    FollowsThroughout(s, es, i, l);
    var t := Track(s, es, i, l);
    if Untouched(t.since, i) {
      NothingWritten(t.stored, t.since, i);
    }
  }

  /** An attempt leaves flash and port alike exactly if it worked and was saved, or had nothing to change. */
  lemma {:induction false} BroughtAlikeExactly(p: Port, e: Event)
    requires e.ModeRequest? || e.Apply? || e.TestRestore?
    ensures Brought(p, e).mode == Brought(p, e).stored <==>
            if !e.ModeRequest? then e.luck.initOk || p.flash.mode == Disabled
            else if e.mode == Disabled || e.luck.initOk then e.luck.saveOk || p.flash.mode == e.mode
            else p.flash.mode == if e.luck.rollbackOk then p.mode else Disabled
  {
  }

  predicate Untouched(es: seq<Event>, i: Index) {
    forall e :: e in es ==> !(e.WriteMode? && e.i == i) && e != ReleasePort(i)
  }

  lemma {:induction false} NothingWritten(mode: Mode, es: seq<Event>, i: Index)
    requires Untouched(es, i)
    ensures LastWritten(mode, es, i) == mode
    decreases |es|
  {
    if es != [] {
      assert es[0] in es;
      NothingWritten(mode, es[1..], i);
    }
  }

  lemma {:induction false} FailedApply(s: State, i: Index, l: Luck)
    requires !s.test.frozen && !l.initOk
    ensures var t := ApplySettings(s, i, l);
            t.At(i).mode == Disabled && t.At(i).flash.mode == s.At(i).flash.mode && t.test.frozen == s.test.frozen
  {
    ApplyInLine(s, i, l);
    ApplyKeepsTest(s, i, l);
  }

  /** A restore that fails leaves its port down, and the test ends all the same. */
  lemma {:induction false} FailedRestoreLeavesItDown(s: State, l: Luck)
    requires Inv(s) && Enabled(s, TestRestore(l)) && !l.initOk
    ensures var i := if s.test.phase == Thawed then First else Second;
            var t := Step(s, TestRestore(l));
            t.At(i).mode == Disabled && t.At(i).flash.mode == s.At(i).flash.mode && !t.test.frozen
  {
    FailedApply(s, if s.test.phase == Thawed then First else Second, l);
  }

  // ---- The I/O bus --------------------------------------------------------------------------

  function LastIoBus(on: bool, es: seq<Event>): bool
    decreases |es|
  {
    if es == [] then on else LastIoBus(if es[0].WriteIoBus? then es[0].on else on, es[1..])
  }

  lemma {:induction false} IoBusStep(s: State, e: Event)
    ensures Step(s, e).ioBusSetting == if e.WriteIoBus? then e.on else s.ioBusSetting
    ensures Step(s, e).ioBus == if e == ApplyIoBus(true) then s.ioBusSetting else s.ioBus
  {
    match e
    case ModeRequest(i, mode, l) => SetModeLeavesIoBus(s, i, mode, true, l);
    case TestDisable(l) =>
      SetModeLeavesIoBus(s, if s.test.phase == Freezing then First else Second, Disabled, false, l);
    case _ =>
      if IsMove(e) {
        MovesKeepModes(s, e);
      } else if IsQuiet(e) {
        QuietKeepsModes(s, e);
      }
  }

  lemma {:induction false} SetModeLeavesIoBus(s: State, i: Index, mode: Mode, persist: bool, l: Luck)
    ensures var t := SetMode(s, i, mode, persist, l).state; t.ioBus == s.ioBus && t.ioBusSetting == s.ioBusSetting
  {
  }

  lemma {:induction false} IoBusRun(s: State, es: seq<Event>)
    ensures Run(s, es).ioBusSetting == LastIoBus(s.ioBusSetting, es)
    ensures ApplyIoBus(true) !in es ==> Run(s, es).ioBus == s.ioBus
    decreases |es|
  {
    if es != [] {
      assert es[0] in es && es == [es[0]] + es[1..];
      IoBusStep(s, es[0]);
      IoBusRun(Step(s, es[0]), es[1..]);
    }
  }

  lemma {:induction false} RunThen(s: State, a: seq<Event>, b: seq<Event>)
    ensures Run(s, a + b) == Run(Run(s, a), b)
    decreases |a|
  {
    if a == [] {
      assert a + b == b;
    } else {
      assert (a + b)[1..] == a[1..] + b;
      RunThen(Step(s, a[0]), a[1..], b);
    }
  }

  /**
   Whatever else happens, a test running or not: the I/O-bus line holds what the setting was at the last
   apply that worked, and so agrees with the setting exactly if the last write since then says the same.
   */
  lemma {:induction false} IoBusFollowsLastApply(s: State, before: seq<Event>, since: seq<Event>)
    requires ApplyIoBus(true) !in since
    ensures var applied := LastIoBus(s.ioBusSetting, before); var t := Run(s, before + ([ApplyIoBus(true)] + since));
            t.ioBus == applied && (t.ioBus == t.ioBusSetting <==> LastIoBus(applied, since) == applied)
  {
    var at := Run(s, before);
    RunThen(s, before, [ApplyIoBus(true)] + since);
    assert ([ApplyIoBus(true)] + since)[1..] == since;
    IoBusRun(s, before);
    IoBusRun(Step(at, ApplyIoBus(true)), since);
  }

  // ---- Reasons ------------------------------------------------------------------------------

  /** The display reason is kept exactly if the port was down before; the cache reason follows the overlay. */
  predicate ReasonsAfter(p: Port, q: Port) {
    (q.display <==> p.display && p.mode == Disabled) && (q.cache <==> q.overlay && q.serialOpen) &&
        q.overlay == p.overlay
  }

  lemma {:induction false} BringUpReasons(p: Port, mode: Mode, hasSerial: bool)
    requires PortOk(p)
    ensures ReasonsAfter(p, Up(Down(p), mode, hasSerial)) && ReasonsAfter(p, Down(p))
    ensures forall m, saved :: ReasonsAfter(p, Stored(Up(Down(p), mode, hasSerial), m, saved))
  {
  }

  /** A mode change, successful or rolled back, clears the display reason exactly if the port was up, arms
      only the cache reason, and does not touch the other port. */
  lemma {:induction false} ModeChangeReasons(s: State, i: Index, mode: Mode, l: Luck)
    requires PortOk(s.At(i)) && !s.test.frozen
    ensures var t := SetMode(s, i, mode, true, l).state;
            ReasonsAfter(s.At(i), t.At(i)) && t.Other(i) == s.Other(i)
  {
    if mode == Disabled || l.initOk {
      BringUpReasons(s.At(i), mode, l.hasSerial);
      SetModeWorks(s, i, mode, true, l);
    } else {
      BringUpReasons(s.At(i), s.At(i).mode, l.hasSerial);
      SetModeRollsBack(s, i, mode, true, l);
    }
  }

  /** So a display reason on a disabled port outlives the change that brings the port up. */
  lemma {:induction false} DisplaySurvivesBringUp(s: State, i: Index, mode: Mode, l: Luck)
    requires !s.test.frozen && s.At(i).mode == Disabled && s.At(i).display && l.initOk
    ensures var t := SetMode(s, i, mode, true, l).state; t.At(i).mode == mode && t.At(i).display
  {
    SetModeWorks(s, i, mode, true, l);
    DisplayStays(s.At(i), mode, l.hasSerial);
  }

  lemma {:induction false} DisplayStays(p: Port, mode: Mode, hasSerial: bool)
    requires p.mode == Disabled && p.display
    ensures forall m, saved :: var q := Stored(Up(Down(p), mode, hasSerial), m, saved); q.mode == mode && q.display
  {
  }

  /** What takes port i down, to bring it up again or not. */
  predicate TakesDown(s: State, e: Event, i: Index) {
    || BringsInLine(s, e, i)
    || (e == ReleasePort(i) && !s.test.frozen)
    || (e.TestDisable? && i == if s.test.phase == Freezing then First else Second)
  }

  /** The display reason goes if the port was up, and the stored TX setting stays. */
  predicate Reopened(p: Port, q: Port) {
    q.display == (p.display && p.mode == Disabled) && q.flash.txOff == p.flash.txOff
  }

  predicate SameMarks(p: Port, q: Port) {
    q.display == p.display && q.flash.txOff == p.flash.txOff
  }

  lemma {:induction false} ReopenedBy(p: Port, mode: Mode, hasSerial: bool)
    ensures Reopened(p, Down(p)) && Reopened(p, Up(Down(p), mode, hasSerial))
    ensures forall m, saved :: Reopened(p, Stored(Up(Down(p), mode, hasSerial), m, saved))
  {
  }

  lemma {:induction false} SetModeReopens(s: State, i: Index, mode: Mode, persist: bool, l: Luck)
    requires !(persist && s.test.frozen)
    ensures var t := SetMode(s, i, mode, persist, l).state; Reopened(s.At(i), t.At(i)) && t.Other(i) == s.Other(i)
  {
    if mode == Disabled || l.initOk {
      SetModeWorks(s, i, mode, persist, l);
      ReopenedBy(s.At(i), mode, l.hasSerial);
    } else {
      SetModeRollsBack(s, i, mode, persist, l);
      ReopenedBy(s.At(i), s.At(i).mode, l.hasSerial);
    }
  }

  lemma {:induction false} ApplyReopens(s: State, i: Index, l: Luck)
    requires !s.test.frozen
    ensures var t := ApplySettings(s, i, l); Reopened(s.At(i), t.At(i)) && t.Other(i) == s.Other(i)
  {
    ApplyMeans(s, i, l);
    ReopenedBy(s.At(i), s.At(i).flash.mode, l.hasSerial);
  }

  lemma {:induction false} OverlayKeepsMarks(s: State, j: Index, on: bool, saveOk: bool, move: Move, i: Index)
    ensures SameMarks(s.At(i), s.With(j, SetOverlay(s.At(j), on, saveOk)).(move := move).At(i))
  {
  }

  lemma {:induction false} ReleaseKeepsMarks(s: State, j: Index, on: bool, saveOk: bool, i: Index)
    ensures SameMarks(s.At(i), Release(s, j, on, saveOk).At(i))
  {
    OverlayKeepsMarks(s, OtherOf(j), false, saveOk, Claiming(j, on, true), i);
  }

  lemma {:induction false} MovesKeepMarks(s: State, e: Event, i: Index)
    requires IsMove(e)
    ensures SameMarks(s.At(i), Step(s, e).At(i))
  {
    if e.CacheRelease? && s.move.Chosen? {
      ReleaseKeepsMarks(s, s.move.i, s.move.on, e.saveOk, i);
    } else if e.CacheClaim? && s.move.Claiming? {
      OverlayKeepsMarks(s, s.move.i, s.move.on, e.saveOk, Syncing(s.move.i, s.move.on, s.move.moved), i);
    }
  }

  lemma {:induction false} TakenDownMarks(s: State, e: Event, i: Index)
    requires e.ModeRequest? || e.Apply? || e.ReleasePort?
    ensures var p, q := s.At(i), Step(s, e).At(i); if TakesDown(s, e, i) then Reopened(p, q) else SameMarks(p, q)
  {
    match e
    case ModeRequest(j, mode, l) =>
      if !s.test.frozen {
        SetModeReopens(s, j, mode, true, l);
      }
    case Apply(j, l) =>
      if !s.test.frozen {
        ApplyReopens(s, j, l);
      }
    case ReleasePort(j) => ReopenedBy(s.At(j), Disabled, false);
  }

  lemma {:induction false} TestMarks(s: State, e: Event, i: Index)
    requires Enabled(s, e) && (e.TestDisable? || (e.TestRestore? && !s.test.frozen))
    ensures var p, q := s.At(i), Step(s, e).At(i); if TakesDown(s, e, i) then Reopened(p, q) else SameMarks(p, q)
  {
    if e.TestDisable? {
      SetModeReopens(s, if s.test.phase == Freezing then First else Second, Disabled, false, e.luck);
    } else {
      ApplyReopens(s, if s.test.phase == Thawed then First else Second, e.luck);
    }
  }

  lemma {:induction false} WrittenMarks(s: State, e: Event, i: Index)
    requires IsQuiet(e) || e.WriteMode?
    ensures var p, q := s.At(i), Step(s, e).At(i);
            && q.display == (if e.Display? && e.i == i then e.on else p.display)
            && q.flash.txOff == if e.WriteTx? && e.i == i then e.off else p.flash.txOff
  {
  }

  /** Over every event: the display reason of a port is set and cleared by whoever displays it, and cleared by what
      takes the port down while it is up; the stored TX setting changes by a write only. */
  lemma {:induction false} MarksExactly(s: State, e: Event, i: Index)
    requires Inv(s) && Enabled(s, e)
    ensures var p, q := s.At(i), Step(s, e).At(i);
            && q.display == (if e.Display? && e.i == i then e.on
                             else p.display && !(TakesDown(s, e, i) && p.mode != Disabled))
            && q.flash.txOff == if e.WriteTx? && e.i == i then e.off else p.flash.txOff
  {
    if IsMove(e) {
      MovesKeepMarks(s, e, i);
    } else if e.ModeRequest? || e.Apply? || e.ReleasePort? {
      TakenDownMarks(s, e, i);
    } else if e.TestDisable? || e.TestRestore? {
      TestMarks(s, e, i);
    } else if IsQuiet(e) || e.WriteMode? {
      WrittenMarks(s, e, i);
    }
  }

  predicate HasReason(p: Port) {
    p.display || p.cache
  }

  /** The short receive timeout marks a running sniffer exactly when the port is passive iff it has a
      reason: the timeout is set by the mode and no reason ever changes it. */
  lemma {:induction false} ShortTimeoutExactly(s: State, i: Index)
    requires Inv(s) && s.At(i).serialOpen
    ensures (s.At(i).shortRx <==> HasReason(s.At(i))) <==> (s.At(i).mode == Passive <==> HasReason(s.At(i)))
    ensures forall on :: Step(s, Display(i, on)).At(i).shortRx == s.At(i).shortRx
    ensures forall on, ok :: SetOverlay(s.At(i), on, ok).shortRx == s.At(i).shortRx
  {
  }

  /** A passive port fresh from boot listens with the short timeout and has no reason at all. */
  lemma {:induction false} PassiveWithoutReason(s: State, l: Luck)
    requires Booted(s) && s.one.flash.mode == Passive && !s.one.overlay && !s.one.display && l.initOk
    ensures var t := Step(s, Apply(First, l)); t.one.serialOpen && t.one.shortRx && !HasReason(t.one)
  {
  }

  /** Operations on one port leave the other alone; claiming the cache is the exception (`CacheMoves`). */
  lemma {:induction false} PortsAreIndependent(s: State, i: Index, on: bool, l: Luck)
    ensures Step(s, Display(i, on)).Other(i) == s.Other(i)
    ensures Step(s, Apply(i, l)).Other(i) == s.Other(i)
    ensures Step(s, ReleasePort(i)).Other(i) == s.Other(i)
  {
  }
}

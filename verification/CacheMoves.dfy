/**
 A move of the cache overlay (main/bridge/port_manager.c) as it interleaves with everything else: the old
 holder is released under one port's lock, the new one claims the overlay under the other's, then the pool is
 synced and, if the overlay changed ports, cleared.
 */
module CacheMoves {
  import opened Options
  import opened PortManager

  // ---- What a move changes ------------------------------------------------------------------

  predicate TakenAway(p: Port, q: Port) {
    q.mode == p.mode && q.display == p.display && !q.overlay && (q.cache == p.cache <==> !p.cache)
  }

  lemma {:induction false} ReleaseMeans(s: State, saveOk: bool)
    requires s.move.Chosen?
    ensures var t, i, takes := Step(s, CacheRelease(saveOk)), s.move.i, s.move.on && s.Other(s.move.i).overlay;
            && t.At(i) == s.At(i) && t.pool == s.pool && t.move == Claiming(i, s.move.on, takes)
            && t.Other(i) == (if takes then SetOverlay(s.Other(i), false, saveOk) else s.Other(i))
  {
  }

  lemma {:induction false} ClaimMeans(s: State, saveOk: bool)
    requires s.move.Claiming?
    ensures var t, i, on := Step(s, CacheClaim(saveOk)), s.move.i, s.move.on;
            && t.Other(i) == s.Other(i) && t.pool == s.pool && t.move == Syncing(i, on, s.move.moved)
            && t.At(i) == SetOverlay(s.At(i), on, saveOk)
  {
  }

  /** Of the steps of a move only the release touches the other port, and changes its reasons exactly if it
      was the one feeding the cache. */
  lemma {:induction false} CacheMovesAway(s: State, saveOk: bool)
    requires Inv(s) && s.move.Chosen?
    ensures var t, i := Step(s, CacheRelease(saveOk)), s.move.i;
            && t.At(i) == s.At(i)
            && (if s.move.on then TakenAway(s.Other(i), t.Other(i)) else t.Other(i) == s.Other(i))
  {
    ReleaseMeans(s, saveOk);
    OverlayTakenAway(s.Other(s.move.i), saveOk);
  }

  lemma {:induction false} OverlayTakenAway(p: Port, saveOk: bool)
    requires PortOk(p)
    ensures TakenAway(p, SetOverlay(p, false, saveOk)) && (!p.overlay ==> TakenAway(p, p))
  {
  }

  /** Everything but the steps of a move leaves the overlays and the move alone. */
  predicate SameOverlays(s: State, t: State) {
    s.one.overlay == t.one.overlay && s.two.overlay == t.two.overlay
  }

  lemma {:induction false} InitKeepsOverlays(s: State, i: Index, mode: Mode, ok: bool, hasSerial: bool, allocOk: bool)
    ensures var t := Init(s, i, mode, ok, hasSerial, allocOk);
            && SameOverlays(s, t) && t.move == s.move
            && t.pool == if mode == Disabled || ok then SyncPool(s.pool, s.AnyOverlay(), allocOk) else s.pool
  {
  }

  lemma {:induction false} DownKeepsOverlays(s: State, i: Index)
    ensures var t := s.With(i, Down(s.At(i)));
            SameOverlays(s, t) && t.move == s.move && t.pool == s.pool
  {
  }

  /** Does a mode change, or an apply, sync the pool? */
  predicate RequestSyncs(s: State, i: Index, mode: Mode, persist: bool, l: Luck) {
    !(persist && s.test.frozen) && (mode == Disabled || l.initOk || (s.At(i).mode != Disabled && l.rollbackOk))
  }

  predicate ApplySyncs(s: State, i: Index, l: Luck) {
    !s.test.frozen && (s.At(i).flash.mode == Disabled || l.initOk)
  }

  function SyncedPool(s: State, syncs: bool, allocOk: bool): Pool {
    if syncs then SyncPool(s.pool, s.AnyOverlay(), allocOk) else s.pool
  }

  lemma {:induction false} SaveKeepsOverlays(s: State, i: Index, mode: Mode)
    ensures var t := s.With(i, StoreMode(s.At(i), mode)); SameOverlays(s, t) && t.move == s.move && t.pool == s.pool
  {
  }

  lemma {:induction false} ReinitKeepsOverlays(s: State, i: Index, mode: Mode, ok: bool, l: Luck)
    ensures var t := Init(s.With(i, Down(s.At(i))), i, mode, ok, l.hasSerial, l.allocOk);
            SameOverlays(s, t) && t.move == s.move && t.pool == SyncedPool(s, mode == Disabled || ok, l.allocOk)
  {
    DownKeepsOverlays(s, i);
    InitKeepsOverlays(s.With(i, Down(s.At(i))), i, mode, ok, l.hasSerial, l.allocOk);
  }

  lemma {:induction false} SetModeKeepsOverlays(s: State, i: Index, mode: Mode, persist: bool, l: Luck)
    ensures var t := SetMode(s, i, mode, persist, l).state;
            && SameOverlays(s, t) && t.move == s.move
            && t.pool == SyncedPool(s, RequestSyncs(s, i, mode, persist, l), l.allocOk)
  {
    if persist && s.test.frozen {
    } else if mode == Disabled || l.initOk {
      ReinitKeepsOverlays(s, i, mode, true, l);
      SaveKeepsOverlays(Init(s.With(i, Down(s.At(i))), i, mode, true, l.hasSerial, l.allocOk), i, mode);
    } else {
      DownKeepsOverlays(s, i);
      ReinitKeepsOverlays(s, i, s.At(i).mode, l.rollbackOk, l);
    }
  }

  lemma {:induction false} ApplyKeepsOverlays(s: State, i: Index, l: Luck)
    ensures var t := ApplySettings(s, i, l);
            && SameOverlays(s, t) && t.move == s.move
            && t.pool == SyncedPool(s, ApplySyncs(s, i, l), l.allocOk)
  {
    if !s.test.frozen {
      DownKeepsOverlays(s, i);
      InitKeepsOverlays(s.With(i, Down(s.At(i))), i, s.At(i).flash.mode, l.initOk, l.hasSerial, l.allocOk);
    }
  }

  /** The events that bring the pool in line with the overlays: every mode that is applied to a port does,
      Disabled included, and the one sync of a move. */
  predicate Syncs(s: State, e: Event) {
    match e
    case ModeRequest(i, mode, l) => RequestSyncs(s, i, mode, true, l)
    case Apply(i, l) => ApplySyncs(s, i, l)
    case TestDisable(_) => true
    case TestRestore(l) => ApplySyncs(s, if s.test.phase == Thawed then First else Second, l)
    case CacheSync(_) => true
    case _ => false
  }

  function AllocOk(e: Event): bool {
    match e
    case ModeRequest(_, _, l) => l.allocOk
    case Apply(_, l) => l.allocOk
    case TestDisable(l) => l.allocOk
    case TestRestore(l) => l.allocOk
    case CacheSync(ok) => ok
    case _ => true
  }

  /** What an event that is no step of a move does to overlays, move and pool. */
  lemma {:induction false} OverlaysStay(s: State, e: Event)
    requires !IsMove(e)
    ensures var t := Step(s, e);
            SameOverlays(s, t) && t.move == s.move && t.pool == SyncedPool(s, Syncs(s, e), AllocOk(e))
  {
    match e
    case ModeRequest(i, mode, l) => SetModeKeepsOverlays(s, i, mode, true, l);
    case TestDisable(l) =>
      SetModeKeepsOverlays(s, if s.test.phase == Freezing then First else Second, Disabled, false, l);
    case Apply(i, l) => ApplyKeepsOverlays(s, i, l);
    case TestRestore(l) => ApplyKeepsOverlays(s, if s.test.phase == Thawed then First else Second, l);
    case ReleasePort(i) => DownKeepsOverlays(s, i);
    case _ => OthersKeepOverlays(s, e);
  }

  lemma {:induction false} OthersKeepOverlays(s: State, e: Event)
    requires !IsMove(e) && !e.ModeRequest? && !e.Apply? && !e.ReleasePort? && !e.TestDisable? && !e.TestRestore?
    ensures SameOverlays(s, Step(s, e)) && Step(s, e).move == s.move && Step(s, e).pool == s.pool
  {
  }

  // ---- Where a move leads -------------------------------------------------------------------

  /** A move of the overlay to (or away from) port i is under way, or has come to its end. */
  predicate Underway(s: State, i: Index, on: bool) {
    match s.move
    case Chosen(j, b) => j == i && b == on
    case Claiming(j, b, _) => j == i && b == on
    case Syncing(j, b, _) => j == i && b == on
    case Clearing(j) => j == i && on
    case Idle => s.At(i).overlay == on && (on ==> !s.Other(i).overlay)
  }

  predicate SyncedByThen(s: State) {
    Settled(s.move) ==> s.pool.synced
  }

  predicate StartsMove(e: Event) {
    e.CacheRequest? || e.CacheApply?
  }

  lemma {:induction false} UnderwayStep(s: State, e: Event, i: Index, on: bool)
    requires Inv(s) && Enabled(s, e) && !StartsMove(e) && Underway(s, i, on)
    ensures Underway(Step(s, e), i, on)
    ensures SyncedByThen(s) ==> SyncedByThen(Step(s, e))
  {
    if !IsMove(e) {
      OverlaysStay(s, e);
    }
  }

  lemma {:induction false} StaysUnderway(s: State, es: seq<Event>, i: Index, on: bool)
    requires Inv(s) && Runnable(s, es) && Underway(s, i, on) && forall e :: e in es ==> !StartsMove(e)
    ensures Underway(Run(s, es), i, on) && Inv(Run(s, es))
    ensures SyncedByThen(s) ==> SyncedByThen(Run(s, es))
    decreases |es|
  {
    if es != [] {
      assert es[0] in es;
      UnderwayStep(s, es[0], i, on);
      StepKeepsInv(s, es[0]);
      StaysUnderway(Step(s, es[0]), es[1..], i, on);
    }
  }

  /** Whatever happens between its steps, a move once chosen ends with the overlay where it was to go and
      nowhere else, and with a pool exactly for an overlay, unless the last allocation that was needed failed. */
  lemma {:induction false} PoolFollowsOverlay(s: State, es: seq<Event>, i: Index, on: bool)
    requires Inv(s) && Runnable(s, es) && s.move == Chosen(i, on) && forall e :: e in es ==> !StartsMove(e)
    requires Run(s, es).move.Idle?
    ensures var t := Run(s, es);
            && t.At(i).overlay == on && (on ==> !t.Other(i).overlay)
            && (t.pool.on <==> t.AnyOverlay() && !t.pool.allocFailed)
  {
    StaysUnderway(s, es, i, on);
  }

  // ---- Applying the stored cache settings ---------------------------------------------------

  /** Flash asks for the cache on port i exactly as the move does, but for a surplus key of port 2. */
  predicate Planned(s: State, i: Index, on: bool, surplus: bool) {
    && Underway(s, i, on) && (surplus ==> i == First && on) && (!on ==> !s.Other(i).overlay)
    && s.one.flash.cache == (i == First && on)
    && s.two.flash.cache == ((i == Second && on) || surplus)
  }

  /** The release of port 2 clears its key as well, if it can be saved. */
  predicate SurplusLeft(s: State, e: Event, surplus: bool) {
    surplus && !(s.move.Chosen? && s.two.overlay && e == CacheRelease(true))
  }

  lemma {:induction false} FlashStays(s: State, e: Event)
    requires !IsMove(e) && !e.WriteCache?
    ensures Step(s, e).one.flash.cache == s.one.flash.cache && Step(s, e).two.flash.cache == s.two.flash.cache
  {
    match e
    case ModeRequest(i, mode, l) => SetModeKeepsFlash(s, i, mode, true, l);
    case TestDisable(l) =>
      SetModeKeepsFlash(s, if s.test.phase == Freezing then First else Second, Disabled, false, l);
    case Apply(i, l) => ApplyKeepsFlash(s, i, l);
    case TestRestore(l) => ApplyKeepsFlash(s, if s.test.phase == Thawed then First else Second, l);
    case _ =>
  }

  lemma {:induction false} SetModeKeepsFlash(s: State, i: Index, mode: Mode, persist: bool, l: Luck)
    ensures var t := SetMode(s, i, mode, persist, l).state;
            t.one.flash.cache == s.one.flash.cache && t.two.flash.cache == s.two.flash.cache
  {
    if persist && s.test.frozen {
    } else if mode == Disabled || l.initOk {
      SetModeWorks(s, i, mode, persist, l);
      DownIsFlashed(s.At(i), mode, l.hasSerial);
    } else {
      SetModeRollsBack(s, i, mode, persist, l);
      DownIsFlashed(s.At(i), s.At(i).mode, l.hasSerial);
    }
  }

  lemma {:induction false} ApplyKeepsFlash(s: State, i: Index, l: Luck)
    ensures var t := ApplySettings(s, i, l);
            t.one.flash.cache == s.one.flash.cache && t.two.flash.cache == s.two.flash.cache
  {
    if !s.test.frozen {
      ApplyMeans(s, i, l);
      DownIsFlashed(s.At(i), s.At(i).flash.mode, l.hasSerial);
    }
  }

  lemma {:induction false} OverlayFlash(p: Port, on: bool, saveOk: bool)
    ensures var q := SetOverlay(p, on, saveOk); q.overlay == on && q.flash.cache == if saveOk then on else p.flash.cache
  {
  }

  lemma {:induction false} PlannedRelease(s: State, saveOk: bool, i: Index, on: bool, surplus: bool)
    requires Inv(s) && s.move.Chosen? && Planned(s, i, on, surplus)
    ensures Planned(Step(s, CacheRelease(saveOk)), i, on, SurplusLeft(s, CacheRelease(saveOk), surplus))
  {
    ReleaseMeans(s, saveOk);
    OverlayFlash(s.Other(i), false, saveOk);
  }

  lemma {:induction false} PlannedClaim(s: State, saveOk: bool, i: Index, on: bool, surplus: bool)
    requires Inv(s) && s.move.Claiming? && Planned(s, i, on, surplus)
    ensures Planned(Step(s, CacheClaim(saveOk)), i, on, surplus)
  {
    ClaimMeans(s, saveOk);
    OverlayFlash(s.At(i), on, saveOk);
  }

  lemma {:induction false} PlannedSettles(s: State, e: Event, i: Index, on: bool, surplus: bool)
    requires Inv(s) && Enabled(s, e) && (e.CacheSync? || e.CacheClear?) && Planned(s, i, on, surplus)
    ensures Planned(Step(s, e), i, on, surplus)
  {
  }

  lemma {:induction false} PlannedElse(s: State, e: Event, i: Index, on: bool, surplus: bool)
    requires Inv(s) && !IsMove(e) && !e.WriteCache? && Planned(s, i, on, surplus)
    ensures Planned(Step(s, e), i, on, surplus)
  {
    OverlaysStay(s, e);
    FlashStays(s, e);
  }

  lemma {:induction false} PlannedStep(s: State, e: Event, i: Index, on: bool, surplus: bool)
    requires Inv(s) && Enabled(s, e) && !StartsMove(e) && !e.WriteCache? && Planned(s, i, on, surplus)
    ensures Planned(Step(s, e), i, on, SurplusLeft(s, e, surplus))
  {
    if e.CacheRelease? {
      PlannedRelease(s, e.saveOk, i, on, surplus);
    } else if e.CacheClaim? {
      PlannedClaim(s, e.saveOk, i, on, surplus);
    } else if IsMove(e) {
      PlannedSettles(s, e, i, on, surplus);
    } else {
      PlannedElse(s, e, i, on, surplus);
    }
  }

  /** Only the start of a move brings it back to where it has chosen. */
  lemma {:induction false} ChosenOnce(s: State, e: Event)
    requires Enabled(s, e) && !StartsMove(e)
    ensures Step(s, e).move.Chosen? ==> s.move.Chosen? && !e.CacheRelease? && Step(s, e).two.overlay == s.two.overlay
    ensures e.CacheRelease? ==> s.move.Chosen?
  {
    if !IsMove(e) {
      OverlaysStay(s, e);
    }
  }

  predicate FlashAgrees(s: State) {
    s.one.overlay == s.one.flash.cache && s.two.overlay == s.two.flash.cache
  }

  lemma {:induction false} PlannedToTheEnd(s: State, es: seq<Event>, i: Index, on: bool, surplus: bool)
    requires Inv(s) && Runnable(s, es) && Planned(s, i, on, surplus) && Run(s, es).move.Idle?
    requires forall e :: e in es ==> !StartsMove(e) && !e.WriteCache?
    ensures FlashAgrees(Run(s, es)) <==>
            !surplus || (s.move.Chosen? && s.two.overlay && CacheRelease(true) in es)
    decreases |es|
  {
    if es != [] {
      var e := es[0];
      assert e in es && es == [e] + es[1..];
      PlannedStep(s, e, i, on, surplus);
      StepKeepsInv(s, e);
      ChosenOnce(s, e);
      PlannedToTheEnd(Step(s, e), es[1..], i, on, SurplusLeft(s, e, surplus));
      if !s.move.Chosen? {
        NoReleaseLeft(s, es);
      } else if !Step(s, e).move.Chosen? {
        NoReleaseLeft(Step(s, e), es[1..]);
      }
    }
  }

  lemma {:induction false} NoReleaseLeft(s: State, es: seq<Event>)
    requires Runnable(s, es) && !s.move.Chosen? && forall e :: e in es ==> !StartsMove(e)
    ensures CacheRelease(true) !in es
    decreases |es|
  {
    if es != [] {
      assert es[0] in es && es == [es[0]] + es[1..];
      ChosenOnce(s, es[0]);
      NoReleaseLeft(Step(s, es[0]), es[1..]);
    }
  }

  /**
   Applying the stored cache settings, whatever saves fail and whatever happens between its steps short of
   another write of those settings: afterwards overlays and flash agree exactly if flash had not asked for
   both ports, or the surplus key could be cleared, or was cleared when port 2 was released.
   */
  lemma {:induction false} ApplyingAgreesExactly(s: State, saveOk: bool, es: seq<Event>)
    requires Inv(s) && s.move.Idle? && Runnable(Step(s, CacheApply(saveOk)), es)
    requires forall e :: e in es ==> !StartsMove(e) && !e.WriteCache?
    requires Run(Step(s, CacheApply(saveOk)), es).move.Idle?
    ensures FlashAgrees(Run(Step(s, CacheApply(saveOk)), es)) <==>
            || !(s.one.flash.cache && s.two.flash.cache) || saveOk
            || (s.two.overlay && CacheRelease(true) in es)
  {
    var t := Step(s, CacheApply(saveOk));
    ApplyCacheKeeps(s, saveOk);
    var wanted := Wanted(s);
    var i := if wanted.Some? then wanted.value else if s.one.overlay then First else Second;
    var on := wanted.Some?;
    PlannedToTheEnd(t, es, i, on, s.one.flash.cache && s.two.flash.cache && !saveOk);
    if !t.move.Chosen? {
      NoReleaseLeft(t, es);
    }
  }

  // ---- The pool across a move ---------------------------------------------------------------

  /** The pool is there at every point of a run. */
  predicate PoolStaysOn(s: State, es: seq<Event>)
    decreases |es|
  {
    s.pool.on && (es == [] || PoolStaysOn(Step(s, es[0]), es[1..]))
  }

  /** The overlay has left one port and not reached the other. */
  predicate InTheGap(s: State) {
    s.move.Claiming? && s.move.moved
  }

  predicate SyncsInTheGap(s: State, es: seq<Event>)
    decreases |es|
  {
    es != [] && ((InTheGap(s) && Syncs(s, es[0])) || SyncsInTheGap(Step(s, es[0]), es[1..]))
  }

  lemma {:induction false} PoolStep(s: State, e: Event, i: Index)
    requires Inv(s) && Enabled(s, e) && !StartsMove(e) && Underway(s, i, true) && s.pool.on
    requires InTheGap(s) || s.AnyOverlay()
    ensures Step(s, e).pool.on <==> !(InTheGap(s) && Syncs(s, e))
    ensures InTheGap(Step(s, e)) || Step(s, e).AnyOverlay()
  {
    if !IsMove(e) {
      OverlaysStay(s, e);
    }
  }

  /**
   Taking the cache over from the other port, whatever happens between the steps: the pool, and with it what
   it has cost to allocate, is there throughout exactly if no mode is applied to any port in the gap between
   the two locks. That, Disabled included, finds no port wanting the pool and frees it.
   */
  lemma {:induction false} MoveKeepsThePoolExactly(s: State, es: seq<Event>, i: Index)
    requires Inv(s) && Runnable(s, es) && Underway(s, i, true) && s.pool.on && (InTheGap(s) || s.AnyOverlay())
    requires forall e :: e in es ==> !StartsMove(e)
    ensures PoolStaysOn(s, es) <==> !SyncsInTheGap(s, es)
    decreases |es|
  {
    if es != [] {
      var e := es[0];
      assert e in es;
      PoolStep(s, e, i);
      UnderwayStep(s, e, i, true);
      StepKeepsInv(s, e);
      if Step(s, e).pool.on {
        MoveKeepsThePoolExactly(Step(s, e), es[1..], i);
      }
    }
  }

  /** And then the sync of the move has to allocate it again. If that fails, a working cache is gone: the
      overlay has arrived and the pool has not survived. */
  lemma {:induction false} BringUpInTheGapLosesThePool(s: State, j: Index, l: Luck, saveOk: bool)
    requires Inv(s) && InTheGap(s) && s.pool.on && !s.test.frozen && l.initOk
    ensures var es := [Apply(j, l), CacheClaim(saveOk), CacheSync(false), CacheClear]; var t := Run(s, es);
            Runnable(s, es) && t.move.Idle? && t.At(s.move.i).overlay && !t.pool.on
  {
    var rest := [CacheClaim(saveOk), CacheSync(false), CacheClear];
    OverlaysStay(s, Apply(j, l));
    AllocationFails(Step(s, Apply(j, l)), saveOk);
    RunCons(s, Apply(j, l), rest);
    assert [Apply(j, l)] + rest == [Apply(j, l), CacheClaim(saveOk), CacheSync(false), CacheClear];
  }

  /** The rest of a move that finds no pool and cannot allocate one. */
  lemma {:induction false} AllocationFails(s: State, saveOk: bool)
    requires s.move.Claiming? && s.move.on && s.move.moved && !s.pool.on
    ensures var es := [CacheClaim(saveOk), CacheSync(false), CacheClear]; var t := Run(s, es);
            Runnable(s, es) && t.move.Idle? && t.At(s.move.i).overlay && !t.pool.on
  {
    ClaimMeans(s, saveOk);
    var a := Step(s, CacheClaim(saveOk));
    var b := Step(a, CacheSync(false));
    RunCons(b, CacheClear, []);
    RunCons(a, CacheSync(false), [CacheClear] + []);
    RunCons(s, CacheClaim(saveOk), [CacheSync(false)] + ([CacheClear] + []));
    assert [CacheClaim(saveOk)] + ([CacheSync(false)] + ([CacheClear] + [])) ==
           [CacheClaim(saveOk), CacheSync(false), CacheClear];
  }
}

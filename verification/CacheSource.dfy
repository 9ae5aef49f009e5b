/**
 Which bus the values in the cache pool come from. The pool has no port dimension, so after a move it must hold
 nothing of the old bus. A response is checked against the cache reason of its port in one critical section
 and stored in another (main/bridge/sniffer.c, main/bridge/cache_multimaster.c), so one of the old bus can be
 on its way through a whole move.
 */
module CacheSource {
  import opened Options
  import opened PortManager
  import opened CacheMoves

  /** The device, the ports whose values are in the pool, and the port whose response is on its way there. */
  datatype World = World(s: State, from: set<Index>, underWay: Option<Index>)

  /** `Heard`: a response of port i passes the check; `Stored` and `Dropped`: it is written, or found to
      match no request. One task does this, one packet after the other. */
  datatype Happening = Manage(e: Event) | Heard(i: Index) | Stored | Dropped

  predicate Possible(w: World, h: Happening) {
    match h
    case Manage(e) => Enabled(w.s, e)
    case Heard(i) => w.underWay.None? && w.s.pool.on && w.s.At(i).cache
    case _ => w.underWay.Some?
  }

  /** Freeing the pool and clearing it drop the values; a store into a pool that is gone does nothing. */
  function Next(w: World, h: Happening): World {
    match h
    case Manage(e) =>
      var t := Step(w.s, e);
      w.(s := t, from := if !t.pool.on || e.CacheClear? then {} else w.from)
    case Heard(i) => w.(underWay := Some(i))
    case Stored =>
      if w.underWay.None? then w
      else w.(from := if w.s.pool.on then w.from + {w.underWay.value} else w.from, underWay := None)
    case Dropped => w.(underWay := None)
  }

  predicate CanHappen(w: World, hs: seq<Happening>)
    decreases |hs|
  {
    hs == [] || (Possible(w, hs[0]) && CanHappen(Next(w, hs[0]), hs[1..]))
  }

  /** The port that has the overlay once the move under way, if any, has ended. */
  predicate WillHold(s: State, k: Index) {
    match s.move
    case Chosen(i, on) => if k == i then on else s.At(k).overlay && !on
    case Claiming(i, on, _) => if k == i then on else s.At(k).overlay
    case _ => s.At(k).overlay
  }

  /** The move under way will still clear the pool. */
  predicate WillClear(s: State) {
    match s.move
    case Chosen(i, on) => on && s.Other(i).overlay
    case Claiming(_, _, moved) => moved
    case Syncing(_, _, moved) => moved
    case Clearing(_) => true
    case Idle => false
  }

  /** ...or free it, because no port will want it. */
  predicate WillFree(s: State) {
    !WillHold(s, First) && !WillHold(s, Second)
  }

  /** Once the move under way has ended, nothing in the pool is from another bus than the cache's own. */
  predicate OwnBusOnly(w: World) {
    WillClear(w.s) || WillFree(w.s) || forall k :: k in w.from ==> WillHold(w.s, k)
  }

  /** With no move under way that is: every value in the pool is from the port that has the cache. */
  lemma {:induction false} OwnBusWhenIdle(w: World)
    requires Inv(w.s) && w.s.move.Idle? && (!w.s.pool.on ==> w.from == {})
    ensures OwnBusOnly(w) <==> forall k :: k in w.from ==> w.s.At(k).overlay
  {
  }

  /** A response is stored too late: its port has lost the cache, and no clear or free is to come. */
  predicate TooLate(w: World, h: Happening) {
    && h.Stored? && w.underWay.Some? && w.s.pool.on
    && !WillHold(w.s, w.underWay.value) && !WillClear(w.s) && !WillFree(w.s)
  }

  predicate NoPoolNoValues(w: World) {
    !w.s.pool.on ==> w.from == {}
  }

  lemma {:induction false} ReleaseKeepsOwnBus(w: World, saveOk: bool)
    requires Inv(w.s) && w.s.move.Chosen? && OwnBusOnly(w)
    ensures OwnBusOnly(Next(w, Manage(CacheRelease(saveOk))))
  {
    ReleaseMeans(w.s, saveOk);
  }

  lemma {:induction false} ClaimKeepsOwnBus(w: World, saveOk: bool)
    requires Inv(w.s) && w.s.move.Claiming? && OwnBusOnly(w)
    ensures OwnBusOnly(Next(w, Manage(CacheClaim(saveOk))))
  {
    ClaimMeans(w.s, saveOk);
  }

  lemma {:induction false} ApplyKeepsOwnBus(w: World, saveOk: bool)
    requires Inv(w.s) && w.s.move.Idle? && OwnBusOnly(w) && NoPoolNoValues(w)
    ensures OwnBusOnly(Next(w, Manage(CacheApply(saveOk))))
  {
  }

  lemma {:induction false} SyncKeepsOwnBus(w: World, allocOk: bool)
    requires Inv(w.s) && w.s.move.Syncing? && OwnBusOnly(w)
    ensures OwnBusOnly(Next(w, Manage(CacheSync(allocOk))))
  {
  }

  lemma {:induction false} MoveKeepsOwnBus(w: World, e: Event)
    requires Inv(w.s) && Enabled(w.s, e) && IsMove(e) && OwnBusOnly(w) && NoPoolNoValues(w)
    ensures OwnBusOnly(Next(w, Manage(e)))
  {
    match e
    case CacheRelease(saveOk) => ReleaseKeepsOwnBus(w, saveOk);
    case CacheClaim(saveOk) => ClaimKeepsOwnBus(w, saveOk);
    case CacheApply(saveOk) => ApplyKeepsOwnBus(w, saveOk);
    case CacheSync(allocOk) => SyncKeepsOwnBus(w, allocOk);
    case _ =>
  }

  lemma {:induction false} ElseKeepsOwnBus(w: World, e: Event)
    requires Inv(w.s) && Enabled(w.s, e) && !IsMove(e) && OwnBusOnly(w)
    ensures OwnBusOnly(Next(w, Manage(e)))
  {
    OverlaysStay(w.s, e);
  }

  lemma {:induction false} OwnBusStep(w: World, h: Happening)
    requires Inv(w.s) && Possible(w, h) && OwnBusOnly(w) && NoPoolNoValues(w)
    ensures OwnBusOnly(Next(w, h)) <==> !TooLate(w, h)
    ensures NoPoolNoValues(Next(w, h)) && Inv(Next(w, h).s)
  {
    if h.Manage? {
      StepKeepsInv(w.s, h.e);
      if IsMove(h.e) {
        MoveKeepsOwnBus(w, h.e);
      } else {
        ElseKeepsOwnBus(w, h.e);
      }
    } else if TooLate(w, h) {
      assert w.underWay.value in Next(w, h).from;
    }
  }

  predicate OwnBusThroughout(w: World, hs: seq<Happening>)
    decreases |hs|
  {
    OwnBusOnly(w) && (hs == [] || OwnBusThroughout(Next(w, hs[0]), hs[1..]))
  }

  predicate NeverTooLate(w: World, hs: seq<Happening>)
    decreases |hs|
  {
    hs == [] || (!TooLate(w, hs[0]) && NeverTooLate(Next(w, hs[0]), hs[1..]))
  }

  /**
   Over every interleaving of responses, moves, settings and bring-ups: the pool never mixes two buses, other
   than inside a move that is going to clear it, exactly if no response is stored after its port has lost the
   cache and after the last clear that this brought about.
   */
  lemma {:induction false} OneBusExactly(w: World, hs: seq<Happening>)
    requires Inv(w.s) && CanHappen(w, hs) && OwnBusOnly(w) && NoPoolNoValues(w)
    ensures OwnBusThroughout(w, hs) <==> NeverTooLate(w, hs)
    decreases |hs|
  {
    if hs != [] {
      OwnBusStep(w, hs[0]);
      if !TooLate(w, hs[0]) {
        OneBusExactly(Next(w, hs[0]), hs[1..]);
      }
    }
  }

  function Happens(w: World, hs: seq<Happening>): World
    decreases |hs|
  {
    if hs == [] then w else Happens(Next(w, hs[0]), hs[1..])
  }

  function Count(hs: seq<Happening>, heard: bool): nat {
    if hs == [] then 0
    else (if !hs[0].Manage? && hs[0].Heard? == heard then 1 else 0) + Count(hs[1..], heard)
  }

  function Waiting(w: World): nat {
    if w.underWay.Some? then 1 else 0
  }

  /** Over every run, each response that passes the check is stored or dropped once, except the one still on its
      way. */
  lemma {:induction false} EachResponseOnce(w: World, hs: seq<Happening>)
    requires CanHappen(w, hs)
    ensures Waiting(w) + Count(hs, true) == Count(hs, false) + Waiting(Happens(w, hs))
    decreases |hs|
  {
    if hs != [] {
      EachResponseOnce(Next(w, hs[0]), hs[1..]);
    }
  }

  /** The steps of a move that nothing disturbs. */
  function TakeOver(i: Index): seq<Happening> {
    [Manage(CacheRequest(i, true)), Manage(CacheRelease(true)), Manage(CacheClaim(true)), Manage(CacheSync(true)),
     Manage(CacheClear)]
  }

  /** The overlay has arrived; the pool still has to be synced and cleared. */
  predicate Arrived(w: World, i: Index) {
    w.s.move == Syncing(i, true, true) && w.s.pool.on && w.s.At(i).overlay && !w.s.Other(i).overlay
  }

  lemma {:induction false} Arrives(w: World, i: Index)
    requires Inv(w.s) && w.s.move.Idle? && w.s.Other(i).overlay && w.s.pool.on
    ensures var a := Next(w, Manage(CacheRequest(i, true))); var b := Next(a, Manage(CacheRelease(true)));
            var c := Next(b, Manage(CacheClaim(true)));
            && Possible(w, Manage(CacheRequest(i, true))) && Possible(a, Manage(CacheRelease(true)))
            && Possible(b, Manage(CacheClaim(true))) && Arrived(c, i) && c.underWay == w.underWay
  {
    var a := Next(w, Manage(CacheRequest(i, true)));
    ReleaseMeans(a.s, true);
    ClaimMeans(Next(a, Manage(CacheRelease(true))).s, true);
  }

  lemma {:induction false} Settles(c: World, i: Index)
    requires Arrived(c, i)
    ensures var hs := [Manage(CacheSync(true)), Manage(CacheClear)]; var v := Happens(c, hs);
            && CanHappen(c, hs) && v.s.move.Idle? && v.s.pool.on && v.from == {} && v.underWay == c.underWay
            && v.s.At(i).overlay && !v.s.Other(i).overlay
  {
    var d := Next(c, Manage(CacheSync(true)));
    HappensCons(d, Manage(CacheClear), []);
    HappensCons(c, Manage(CacheSync(true)), [Manage(CacheClear)] + []);
    assert [Manage(CacheSync(true))] + ([Manage(CacheClear)] + []) == [Manage(CacheSync(true)), Manage(CacheClear)];
  }

  lemma {:induction false} MovedOver(w: World, i: Index)
    requires Inv(w.s) && w.s.move.Idle? && w.s.Other(i).overlay && w.s.pool.on
    ensures var v := Happens(w, TakeOver(i));
            && CanHappen(w, TakeOver(i)) && v.s.move.Idle? && v.s.pool.on && v.from == {} && v.underWay == w.underWay
            && v.s.At(i).overlay && !v.s.Other(i).overlay
  {
    var hs := [Manage(CacheSync(true)), Manage(CacheClear)];
    var a := Next(w, Manage(CacheRequest(i, true)));
    var b := Next(a, Manage(CacheRelease(true)));
    Arrives(w, i);
    Settles(Next(b, Manage(CacheClaim(true))), i);
    HappensCons(b, Manage(CacheClaim(true)), hs);
    HappensCons(a, Manage(CacheRelease(true)), [Manage(CacheClaim(true))] + hs);
    HappensCons(w, Manage(CacheRequest(i, true)), [Manage(CacheRelease(true))] + ([Manage(CacheClaim(true))] + hs));
    assert [Manage(CacheRequest(i, true))] + ([Manage(CacheRelease(true))] + ([Manage(CacheClaim(true))] + hs)) ==
           TakeOver(i);
  }

  lemma {:induction false} HappensCons(w: World, h: Happening, hs: seq<Happening>)
    ensures Happens(w, [h] + hs) == Happens(Next(w, h), hs)
    ensures CanHappen(w, [h] + hs) <==> Possible(w, h) && CanHappen(Next(w, h), hs)
  {
    assert ([h] + hs)[1..] == hs;
  }

  /** A response that passed the check just before its port lost the cache, and is written after the move: the
      pool of the new bus then holds a value of the old one. */
  lemma {:induction false} StragglerOutlivesTheClear(w: World, i: Index)
    requires Inv(w.s) && w.s.move.Idle? && w.s.Other(i).cache && w.s.pool.on && w.underWay.None?
    ensures var o := OtherOf(i); var v := Next(Happens(Next(w, Heard(o)), TakeOver(i)), Stored);
            && Possible(w, Heard(o)) && CanHappen(Next(w, Heard(o)), TakeOver(i))
            && v.s.move.Idle? && v.s.At(i).overlay && o in v.from && !v.s.At(o).overlay
  {
    MovedOver(Next(w, Heard(OtherOf(i))), i);
  }
}

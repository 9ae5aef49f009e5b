/** The port table as the code keeps it: an array of two contexts, updated in place under their locks. */
module PortTable {
  import opened Options
  import opened PortManager

  function IndexOf(i: nat): Index {
    if i == 0 then First else Second
  }

  /** A port brought up, before the cache reason is armed and the transmitter switched off; and those two steps. */
  function Opened(p: Port, mode: Mode, hasSerial: bool): Port {
    if !Opens(mode, hasSerial) then p.(mode := mode, serialOpen := false)
    else p.(mode := mode, serialOpen := true, shortRx := mode == Passive, txOff := false, de := Uart)
  }

  function Armed(p: Port): Port {
    if p.overlay && p.serialOpen then p.(cache := true) else p
  }

  function Muted(p: Port): Port {
    if p.flash.txOff then SetTx(p, true, true) else p
  }

  lemma {:induction false} UpInSteps(p: Port, mode: Mode, hasSerial: bool)
    ensures Muted(Armed(Opened(p, mode, hasSerial))) == Up(p, mode, hasSerial)
    ensures Opened(p, mode, hasSerial).overlay == p.overlay
  {
  }

  lemma {:induction false} InitInSteps(s: State, i: Index, mode: Mode, hasSerial: bool, allocOk: bool)
    ensures var parked := s.test.parked && !(i == Second && Opens(mode, hasSerial));
            var a := s.With(i, Opened(s.At(i), mode, hasSerial)).(test := s.test.(parked := parked));
            var b := a.(pool := SyncPool(a.pool, a.AnyOverlay(), allocOk));
            Init(s, i, mode, true, hasSerial, allocOk) == b.With(i, Muted(Armed(b.At(i))))
  {
    UpInSteps(s.At(i), mode, hasSerial);
  }

  method OpenPort(p: Port, mode: Mode, hasSerial: bool) returns (q: Port)
    ensures q == Opened(p, mode, hasSerial)
  {
    var open := Opens(mode, hasSerial);
    q := p.(mode := mode, serialOpen := open);
    if open {
      q := q.(shortRx := mode == Passive, txOff := false, de := Uart);
    }
  }

  /** The steps of a move that nothing disturbs. */
  function MoveAlone(s: State, released: bool, claimed: bool, allocOk: bool): State
    requires s.move.Chosen?
  {
    var a := Release(s, s.move.i, s.move.on, released);
    var b := Claim(a, s.move.i, s.move.on, a.move.moved, claimed);
    SyncMove(b, s.move.i, a.move.moved, allocOk).(move := Idle)
  }

  /** The run of the model that is. */
  lemma {:induction false} MoveAloneIsARun(s: State, released: bool, claimed: bool, allocOk: bool)
    requires s.move.Chosen?
    ensures var moved := s.move.on && s.Other(s.move.i).overlay;
            var es := [CacheRelease(released), CacheClaim(claimed), CacheSync(allocOk)] +
                      (if moved then [CacheClear] else []);
            Runnable(s, es) && Run(s, es) == MoveAlone(s, released, claimed, allocOk)
  {
    var moved := s.move.on && s.Other(s.move.i).overlay;
    var last := if moved then [CacheClear] else [];
    var a := Step(s, CacheRelease(released));
    var b := Step(a, CacheClaim(claimed));
    var c := Step(b, CacheSync(allocOk));
    LastOfMove(c, last);
    RunCons(b, CacheSync(allocOk), last);
    RunCons(a, CacheClaim(claimed), [CacheSync(allocOk)] + last);
    RunCons(s, CacheRelease(released), [CacheClaim(claimed)] + ([CacheSync(allocOk)] + last));
    assert [CacheRelease(released)] + ([CacheClaim(claimed)] + ([CacheSync(allocOk)] + last)) ==
           [CacheRelease(released), CacheClaim(claimed), CacheSync(allocOk)] + last;
  }

  lemma {:induction false} LastOfMove(s: State, last: seq<Event>)
    requires if s.move.Clearing? then last == [CacheClear] else s.move.Idle? && last == []
    ensures Runnable(s, last) && Run(s, last) == s.(move := Idle)
  {
    if last != [] {
      assert last[1..] == [];
    }
  }

  class Manager {
    const ports: array<Port>
    var pool: Pool
    var move: Move
    var test: Test
    var ioBus: bool
    var ioBusSetting: bool

    ghost predicate Valid()
      reads this, ports
    {
      ports.Length == 2
    }

    ghost function View(): State
      requires Valid()
      reads this, ports
    {
      State(ports[0], ports[1], pool, move, test, ioBus, ioBusSetting)
    }

    /** cache_sync_global: is there any port that wants the pool? */
    method CacheSyncGlobal(allocOk: bool)
      requires Valid()
      modifies `pool
      ensures View() == old(View()).(pool := SyncPool(old(pool), old(View()).AnyOverlay(), allocOk))
    {
      var want := false;
      for i := 0 to ports.Length
        invariant want <==> exists j :: 0 <= j < i && ports[j].overlay
      {
        if ports[i].overlay {
          want := true;
        }
      }
      assert want <==> View().AnyOverlay();
      if want && !pool.on {
        pool := Pool(allocOk, true, !allocOk);
      } else {
        pool := Pool(want, true, false);
      }
    }

    method PortDeinitMode(i: nat)
      requires Valid() && i < 2
      modifies ports
      ensures View() == old(View()).With(IndexOf(i), Down(old(ports[i])))
    {
      var p := ports[i];
      if p.mode != Disabled {
        p := p.(serialOpen := false, de := if p.serialOpen then Released else p.de);
        p := p.(display := false, cache := false, txOff := false);
        p := p.(mode := Disabled);
        assert p == Down(ports[i]);
        ports[i] := p;
      }
    }

    method PortInitMode(i: nat, mode: Mode, ok: bool, hasSerial: bool, allocOk: bool) returns (up: bool)
      requires Valid() && i < 2
      modifies this, ports
      ensures up == (mode == Disabled || ok)
      ensures View() == Init(old(View()), IndexOf(i), mode, ok, hasSerial, allocOk)
    {
      up := mode == Disabled || ok;
      if !up {
        return;
      }
      InitInSteps(View(), IndexOf(i), mode, hasSerial, allocOk);
      OpenSerial(i, mode, hasSerial);
      CacheSyncGlobal(allocOk);
      FinishUp(i);
    }

    /** port_manager_set_tx_disabled and serial_set_tx_disabled under it. */
    method SetTxDisabled(i: nat, off: bool, ok: bool)
      requires Valid() && i < 2
      modifies ports
      ensures View() == old(View()).With(IndexOf(i), SetTx(old(ports[i]), off, ok))
    {
      if !ports[i].serialOpen || ports[i].txOff == off {
        return;
      }
      if off {
        ports[i] := ports[i].(txOff := true, de := DrivenLow);
      } else if ok {
        ports[i] := ports[i].(txOff := false, de := Uart);
      }
    }

    /** Bring the transport up: the serial port, its receive timeout, the DE line. */
    method OpenSerial(i: nat, mode: Mode, hasSerial: bool)
      requires Valid() && i < 2
      modifies `test, ports
      ensures View() == old(View()).With(IndexOf(i), Opened(old(ports[i]), mode, hasSerial))
                                   .(test := old(test).(parked := old(test.parked) &&
                                       !(i == 1 && Opens(mode, hasSerial))))
    {
      var p := OpenPort(ports[i], mode, hasSerial);
      ports[i] := p;
      if Opens(mode, hasSerial) {
        test := test.(parked := test.parked && i != 1);
      }
    }

    /** The end of a bring-up: the cache reason, and the TX setting. */
    method FinishUp(i: nat)
      requires Valid() && i < 2
      modifies ports
      ensures View() == old(View()).With(IndexOf(i), Muted(Armed(old(ports[i]))))
    {
      if ports[i].overlay && ports[i].serialOpen {
        ports[i] := ports[i].(cache := true);
      }
      assert ports[i] == Armed(old(ports[i]));
      if ports[i].flash.txOff {
        SetTxDisabled(i, true, true);
      }
    }

    method PortSetModeImpl(i: nat, mode: Mode, persist: bool, l: Luck) returns (r: Answer)
      requires Valid() && i < 2
      modifies this, ports
      ensures r == SetMode(old(View()), IndexOf(i), mode, persist, l).answer
      ensures View() == SetMode(old(View()), IndexOf(i), mode, persist, l).state
    {
      if persist && test.frozen {
        return PortsFrozen;
      }
      var prev := ports[i].mode;
      var up := Reopen(i, mode, l);
      if up {
        r := SaveMode(i, mode, persist, l.saveOk);
      } else {
        RollBack(i, prev, l);
        r := Failed;
      }
    }

    /** Down, and up in the given mode. */
    method Reopen(i: nat, mode: Mode, l: Luck) returns (up: bool)
      requires Valid() && i < 2
      modifies this, ports
      ensures up == (mode == Disabled || l.initOk)
      ensures View() == Init(old(View()).With(IndexOf(i), Down(old(ports[i]))), IndexOf(i), mode, l.initOk, l.hasSerial,
                             l.allocOk)
    {
      PortDeinitMode(i);
      up := PortInitMode(i, mode, l.initOk, l.hasSerial, l.allocOk);
    }

    /** The mode is saved only once it is up; a failed save is reported. */
    method SaveMode(i: nat, mode: Mode, persist: bool, saveOk: bool) returns (r: Answer)
      requires Valid() && i < 2
      modifies ports
      ensures r == if persist && !saveOk then Failed else Accepted
      ensures View() == if persist && saveOk then old(View()).With(IndexOf(i), StoreMode(old(ports[i]), mode))
                        else old(View())
    {
      r := Accepted;
      if persist {
        if saveOk {
          ports[i] := StoreMode(ports[i], mode);
        } else {
          r := Failed;
        }
      }
    }

    method RollBack(i: nat, prev: Mode, l: Luck)
      requires Valid() && i < 2
      modifies this, ports
      ensures View() == if prev == Disabled then old(View())
                        else Init(old(View()), IndexOf(i), prev, l.rollbackOk, l.hasSerial, l.allocOk)
    {
      if prev != Disabled {
        var back := PortInitMode(i, prev, l.rollbackOk, l.hasSerial, l.allocOk);
      }
    }

    method ApplySettingsTo(i: nat, l: Luck)
      requires Valid() && i < 2
      modifies this, ports
      ensures View() == ApplySettings(old(View()), IndexOf(i), l)
    {
      if test.frozen {
        return;
      }
      var up := Reopen(i, ports[i].flash.mode, l);
    }

    method CacheOverlayApply(i: nat, on: bool, saveOk: bool)
      requires Valid() && i < 2
      modifies ports
      ensures View() == old(View()).With(IndexOf(i), SetOverlay(old(ports[i]), on, saveOk))
    {
      ports[i] := ports[i].(overlay := on);
      if saveOk {
        ports[i] := StoreCache(ports[i], on);
      }
      if ports[i].serialOpen {
        ports[i] := ports[i].(cache := on);
      }
    }

    /** The first half of cache_move_locked: the other holder is released under its own lock. */
    method ReleaseOthers(i: nat, on: bool, saveOk: bool)
      requires Valid() && i < 2
      modifies `move, ports
      ensures View() == Release(old(View()), IndexOf(i), on, saveOk)
    {
      var moved := false;
      if on {
        for j := 0 to 2
          invariant moved == (j > 1 - i && old(ports[1 - i].overlay))
          invariant move == old(move) && ports[i] == old(ports[i])
          invariant ports[1 - i] == if moved then SetOverlay(old(ports[1 - i]), false, saveOk) else old(ports[1 - i])
        {
          if j != i && ports[j].overlay {
            CacheOverlayApply(j, false, saveOk);
            moved := true;
          }
        }
      }
      move := Claiming(IndexOf(i), on, moved);
    }

    /** cache_move_locked without anything in between: one sync at the end, and a clear if the cache moved. */
    method CacheMove(i: nat, on: bool, released: bool, claimed: bool, allocOk: bool)
      requires Valid() && i < 2 && move == Chosen(IndexOf(i), on)
      modifies this, ports
      ensures View() == MoveAlone(old(View()), released, claimed, allocOk)
    {
      ReleaseOthers(i, on, released);
      ClaimOverlay(i, on, claimed);
      CacheSyncGlobal(allocOk);
      move := Idle;
    }

    method ClaimOverlay(i: nat, on: bool, saveOk: bool)
      requires Valid() && i < 2 && move.Claiming?
      modifies `move, ports
      ensures View() == Claim(old(View()), IndexOf(i), on, old(move).moved, saveOk)
    {
      CacheOverlayApply(i, on, saveOk);
      move := Syncing(IndexOf(i), on, move.moved);
    }

    /** port_manager_apply_cache_settings, up to the move it decides on. */
    method DecideCache(saveOk: bool)
      requires Valid() && move.Idle?
      modifies `move, ports
      ensures View() == ApplyCache(old(View()), saveOk)
    {
      var wanted, holder := 2, 2;
      for j := 0 to 2
        invariant 0 <= wanted <= 2
        invariant wanted == 2 ==> forall k :: 0 <= k < j ==> !ports[k].flash.cache
        invariant wanted < 2 ==> ports[wanted].flash.cache && forall k :: 0 <= k < wanted ==> !ports[k].flash.cache
      {
        if wanted == 2 && ports[j].flash.cache {
          wanted := j;
        }
      }
      if wanted == 0 && ports[1].flash.cache && saveOk {
        ports[1] := StoreCache(ports[1], false);
      }
      for j := 0 to 2
        invariant 0 <= holder <= 2
        invariant holder == 2 ==> forall k :: 0 <= k < j ==> !ports[k].overlay
        invariant holder < 2 ==> ports[holder].overlay && forall k :: 0 <= k < holder ==> !ports[k].overlay
      {
        if holder == 2 && ports[j].overlay {
          holder := j;
        }
      }
      assert View().(move := Idle) == ClearSurplus(old(View()), saveOk);
      if holder != wanted {
        move := if wanted < 2 then Chosen(IndexOf(wanted), true) else Chosen(IndexOf(holder), false);
      }
    }
  }
}

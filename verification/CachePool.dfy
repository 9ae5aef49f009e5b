/** The cache pool as the code keeps it: 4096 slots, the used ones a dense prefix, 16-bit stamps. */
module CachePool {
  import opened Bytes
  import opened RegisterCache
  import opened CacheServer
  import opened Options

  datatype Slot = Free | Used(slave: Byte, fc: Byte, address: nat, value: Word, stamp: Word)

  function SlotOf(e: Entry): Slot {
    Used(e.key.slave, e.key.table, e.key.address, e.cell.value, e.cell.at % CLOCK)
  }

  /** Storing from value i on into `es` ends as storing everything into `was` does. */
  ghost predicate Remains(was: seq<Entry>, es: seq<Entry>, slave: Byte, fc: Byte, start: nat, values: seq<Word>,
                          i: nat, now: nat)
    requires i <= |values|
  {
    && StoreAll(was, slave, fc, start, values, now) == StoreAll(es, slave, fc, start + i, values[i..], now)
    && Taken(was, slave, fc, start, values, now) == i + Taken(es, slave, fc, start + i, values[i..], now)
  }

  lemma {:induction false} RemainsFirst(was: seq<Entry>, slave: Byte, fc: Byte, start: nat, values: seq<Word>, now: nat)
    ensures Remains(was, was, slave, fc, start, values, 0, now)
  {
  }

  lemma {:induction false} RemainsNext(was: seq<Entry>, es: seq<Entry>, slave: Byte, fc: Byte, start: nat,
                                       values: seq<Word>, i: nat, now: nat)
    requires i < |values| && Remains(was, es, slave, fc, start, values, i, now)
    ensures var s := Store(es, Key(slave, fc, start + i), Cell(values[i], now));
            if s.None? then Ends(was, es, slave, fc, start, values, i, now)
            else Remains(was, s.value, slave, fc, start, values, i + 1, now)
  {
  }

  lemma {:induction false} RemainsLast(was: seq<Entry>, es: seq<Entry>, slave: Byte, fc: Byte, start: nat,
                                       values: seq<Word>, now: nat)
    requires Remains(was, es, slave, fc, start, values, |values|, now)
    ensures Ends(was, es, slave, fc, start, values, |values|, now)
  {
  }

  /** Storing a response into `was` leaves `es` and takes n values. */
  ghost predicate Ends(was: seq<Entry>, es: seq<Entry>, slave: Byte, fc: Byte, start: nat, values: seq<Word>, n: nat,
                       now: nat) {
    && es == StoreAll(was, slave, fc, start, values, now)
    && n == Taken(was, slave, fc, start, values, now)
  }

  class Pool {
    const slots: array<Slot>
    ghost var entries: seq<Entry>

    ghost predicate Valid()
      reads this, slots
    {
      && slots.Length == MAX_ENTRIES
      && ValidPool(entries)
      && (forall i :: 0 <= i < |entries| ==> slots[i] == SlotOf(entries[i]))
      && (forall i :: |entries| <= i < MAX_ENTRIES ==> slots[i] == Free)
    }

    constructor ()
      ensures Valid() && entries == [] && fresh(slots)
    {
      slots := new Slot[MAX_ENTRIES](_ => Free);
      entries := [];
    }

    /** The common scan: stops at the key or at the first free slot. */
    method Scan(slave: Byte, fc: Byte, address: nat) returns (i: nat)
      requires Valid()
      ensures i == Find(entries, Key(slave, fc, address))
    {
      var key := Key(slave, fc, address);
      i := 0;
      while i < MAX_ENTRIES && slots[i] != Free &&
          !(slots[i].slave == slave && slots[i].fc == fc && slots[i].address == address)
        invariant i <= |entries|
        invariant forall j :: 0 <= j < i ==> entries[j].key != key
      {
        assert entries[i].key != key;
        i := i + 1;
      }
    }

    /** find_or_alloc_entry followed by the write of value and stamp. */
    method StoreValue(slave: Byte, fc: Byte, address: nat, value: Word, now: nat) returns (stored: bool)
      requires Valid()
      modifies this, slots
      ensures Valid()
      ensures var s := Store(old(entries), Key(slave, fc, address), Cell(value, now));
              stored == s.Some? && entries == if s.Some? then s.value else old(entries)
    {
      var i := Scan(slave, fc, address);
      StoreMeans(entries, Key(slave, fc, address), Cell(value, now));
      if i == MAX_ENTRIES {
        return false;
      }
      slots[i] := Used(slave, fc, address, value, now % CLOCK);
      entries := Store(entries, Key(slave, fc, address), Cell(value, now)).value;
      stored := true;
    }

    /** The store loop of on_response; `dropped` is what the pool-full counter grows by. */
    method StoreResponse(slave: Byte, fc: Byte, start: nat, values: seq<Word>, now: nat) returns (dropped: nat)
      requires Valid()
      modifies this, slots
      ensures Valid() && dropped <= |values|
      ensures Ends(old(entries), entries, slave, fc, start, values, |values| - dropped, now)
    {
      ghost var was := entries;
      RemainsFirst(was, slave, fc, start, values, now);
      for i := 0 to |values|
        invariant Valid() && Remains(was, entries, slave, fc, start, values, i, now)
      {
        RemainsNext(was, entries, slave, fc, start, values, i, now);
        var stored := StoreValue(slave, fc, start + i, values[i], now);
        if !stored {
          return |values| - i;
        }
      }
      RemainsLast(was, entries, slave, fc, start, values, now);
      return 0;
    }

    method LookUpValue(slave: Byte, fc: Byte, address: nat, timeout: Word, now: nat) returns (r: Lookup)
      requires Valid()
      ensures r == LookUp(entries, Key(slave, fc, address), timeout, now)
    {
      if !Readable(fc) {
        return NotFound;
      }
      var i := Scan(slave, fc, address);
      if i == MAX_ENTRIES || slots[i] == Free {
        return NotFound;
      }
      var age: Word := (now % CLOCK - slots[i].stamp) % CLOCK;
      if timeout > 0 && age >= timeout {
        return Stale;
      }
      r := Found(slots[i].value);
    }

    method Wipe()
      requires Valid()
      modifies this, slots
      ensures Valid() && entries == []
    {
      for i := 0 to MAX_ENTRIES
        invariant forall j :: 0 <= j < i ==> slots[j] == Free
      {
        slots[i] := Free;
      }
      entries := [];
    }
  }
}

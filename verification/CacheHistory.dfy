/**
 The register cache over its whole history: what a read returns after any traffic at all, with more
 traffic between its lookups, since the pool is locked for one address at a time.
 */
module CacheHistory {
  import opened Bytes
  import opened Options
  import opened RegisterCache
  import opened CacheServer

  const NOTHING_HEARD := Cache([], NoRequest)
  const NOTHING_KNOWN := Reference(map[], NoRequest)

  // ---- What an observer of one address would write down -------------------------------------

  /** The request on the bus that a response would belong to. */
  function Outstanding(es: seq<Event>): Pending {
    if es == [] then NoRequest else NextPending(Outstanding(es[..|es| - 1]), es[|es| - 1])
  }

  /** The response answers that request and its range holds the address. */
  predicate Covers(p: Pending, e: Event, key: Key)
    requires e.Response?
  {
    var values := Decode(p, e.slave, e.fc, e.frame);
    && values.Some? && p.Asked? && key.slave == e.slave && key.table == e.fc
    && p.start <= key.address < p.start + |values.value|
  }

  function CellFrom(p: Pending, e: Event, key: Key): Cell
    requires e.Response? && Covers(p, e, key)
  {
    Cell(Decode(p, e.slave, e.fc, e.frame).value[key.address - p.start], e.now)
  }

  /** The latest value seen for an address since the last clear, and when. */
  function Observed(es: seq<Event>, key: Key): Option<Cell> {
    if es == [] then None
    else
      var before, e := es[..|es| - 1], es[|es| - 1];
      if e.Clear? then None
      else if e.Response? && Covers(Outstanding(before), e, key) then Some(CellFrom(Outstanding(before), e, key))
      else Observed(before, key)
  }

  lemma {:induction false} RefRunThen(r: Reference, es: seq<Event>, e: Event)
    ensures RefRun(r, es + [e]) == RefStep(RefRun(r, es), e)
    decreases |es|
  {
    if es == [] {
      assert es + [e] == [e];
    } else {
      assert (es + [e])[1..] == es[1..] + [e];
      RefRunThen(RefStep(r, es[0]), es[1..], e);
    }
  }

  lemma {:induction false} OneMoreKnown(r: Reference, e: Event, key: Key)
    ensures RefStep(r, e).pending == NextPending(r.pending, e)
    ensures var t := RefStep(r, e).latest;
            if e.Clear? then key !in t
            else if e.Response? && Covers(r.pending, e, key) then key in t && t[key] == CellFrom(r.pending, e, key)
            else (key in t <==> key in r.latest) && (key in t ==> t[key] == r.latest[key])
  {
    if e.Response? {
      var values := Decode(r.pending, e.slave, e.fc, e.frame);
      if values.Some? && r.pending.Asked? {
        LatestMeans(r.latest, e.slave, e.fc, r.pending.start, values.value, e.now, key);
      }
    }
  }

  /** The reference map holds exactly what such an observer wrote down, for every address. */
  lemma {:induction false} ReferenceIsObserved(es: seq<Event>, key: Key)
    ensures var r := RefRun(NOTHING_KNOWN, es);
            && r.pending == Outstanding(es)
            && Observed(es, key) == if key in r.latest then Some(r.latest[key]) else None
    decreases |es|
  {
    if es != [] {
      var before, e := es[..|es| - 1], es[|es| - 1];
      assert es == before + [e];
      ReferenceIsObserved(before, key);
      RefRunThen(NOTHING_KNOWN, before, e);
      OneMoreKnown(RefRun(NOTHING_KNOWN, before), e, key);
    }
  }

  // ---- The same, from where the frames stand ------------------------------------------------

  /** A request worth waiting for: a read of 1 to 2000 coils or 1 to 125 registers, none of them past 65535. */
  predicate Asks(e: Event) {
    && e.Request? && (e.fc in {1, 2} || e.fc in {3, 4})
    && 1 <= e.count <= (if e.fc in {1, 2} then 2000 else 125) && e.start + e.count <= 65536
  }

  /** After the request at i, up to j, there is nothing but responses too short to be one. */
  predicate Awaited(es: seq<Event>, i: nat, j: nat) {
    i < j <= |es| && Asks(es[i]) && forall m :: i < m < j ==> es[m].Response? && |es[m].frame| < 4
  }

  /** The response at j answers the request at i, which asked for this address: same slave, same function, the byte
      count the request calls for, and that many bytes there. */
  predicate Tells(es: seq<Event>, i: nat, j: nat, key: Key) {
    && j < |es| && Awaited(es, i, j) && es[j].Response?
    && es[j].slave == es[i].slave == key.slave && es[j].fc == es[i].fc == key.table
    && es[i].start <= key.address < es[i].start + es[i].count
    && (var bytes := if key.table in {1, 2} then (es[i].count + 7) / 8 else 2 * es[i].count;
        |es[j].frame| >= 3 + bytes && es[j].frame[2] == bytes)
  }

  /** The value at the address's place in the response: the high byte of a register first, the low bit of coils. */
  function Told(es: seq<Event>, i: nat, j: nat, key: Key): Cell
    requires Tells(es, i, j, key)
  {
    var k, frame := key.address - es[i].start, es[j].frame;
    var value := if key.table in {1, 2} then Bit(frame[3 + k / 8], k % 8)
                 else frame[3 + 2 * k] as nat * 256 + frame[4 + 2 * k];
    Cell(value, es[j].now)
  }

  /** Up to n, nobody clears the cache after j, and nobody tells the address again. */
  ghost predicate Undisturbed(es: seq<Event>, j: nat, n: nat, key: Key)
    requires n <= |es|
  {
    && (forall m :: j < m < n ==> !es[m].Clear?)
    && (forall i: nat, m: nat :: j < m < n ==> !Tells(es, i, m, key))
  }

  lemma {:induction false} OutstandingIsAwaited(es: seq<Event>, j: nat)
    requires j <= |es|
    ensures forall i: nat :: Awaited(es, i, j) ==>
                          Outstanding(es[..j]) == Asked(es[i].slave, es[i].fc, es[i].start, es[i].count)
    ensures Outstanding(es[..j]).Asked? ==> exists i: nat :: Awaited(es, i, j)
    decreases j
  {
    if j > 0 {
      var e := es[j - 1];
      assert es[..j][..j - 1] == es[..j - 1];
      OutstandingIsAwaited(es, j - 1);
      if Asks(e) {
        assert Awaited(es, j - 1, j);
      } else if e.Response? && |e.frame| < 4 && Outstanding(es[..j - 1]).Asked? {
        var i: nat :| Awaited(es, i, j - 1);
        assert Awaited(es, i, j);
      }
      forall i: nat | Awaited(es, i, j)
        ensures Outstanding(es[..j]) == Asked(es[i].slave, es[i].fc, es[i].start, es[i].count)
      {
        assert i < j - 1 ==> Awaited(es, i, j - 1);
      }
    }
  }

  lemma {:induction false} CoveringIsTelling(es: seq<Event>, i: nat, j: nat, key: Key)
    requires j < |es| && es[j].Response? && Awaited(es, i, j)
    ensures var p := Outstanding(es[..j]);
            && (Covers(p, es[j], key) <==> Tells(es, i, j, key))
            && (Tells(es, i, j, key) ==> CellFrom(p, es[j], key) == Told(es, i, j, key))
  {
    OutstandingIsAwaited(es, j);
  }

  lemma {:induction false} CoversExactly(es: seq<Event>, j: nat, key: Key)
    requires j < |es| && es[j].Response?
    ensures Covers(Outstanding(es[..j]), es[j], key) <==> exists i: nat :: Tells(es, i, j, key)
  {
    OutstandingIsAwaited(es, j);
    if Covers(Outstanding(es[..j]), es[j], key) {
      var i: nat :| Awaited(es, i, j);
      CoveringIsTelling(es, i, j, key);
    }
    if i: nat :| Tells(es, i, j, key) {
      CoveringIsTelling(es, i, j, key);
    }
  }

  lemma {:induction false} ToldIsObserved(es: seq<Event>, i: nat, j: nat, n: nat, key: Key)
    requires j < n <= |es| && Tells(es, i, j, key) && Undisturbed(es, j, n, key)
    ensures Observed(es[..n], key) == Some(Told(es, i, j, key))
    decreases n
  {
    assert es[..n][..n - 1] == es[..n - 1];
    if j == n - 1 {
      CoveringIsTelling(es, i, j, key);
    } else {
      if es[n - 1].Response? {
        CoversExactly(es, n - 1, key);
      }
      ToldIsObserved(es, i, j, n - 1, key);
    }
  }

  lemma {:induction false} ObservedWasTold(es: seq<Event>, n: nat, key: Key) returns (i: nat, j: nat)
    requires n <= |es| && Observed(es[..n], key).Some?
    ensures j < n && Tells(es, i, j, key) && Undisturbed(es, j, n, key)
    decreases n
  {
    var e := es[n - 1];
    assert es[..n][..n - 1] == es[..n - 1];
    if e.Response? {
      CoversExactly(es, n - 1, key);
    }
    if e.Response? && Covers(Outstanding(es[..n - 1]), e, key) {
      j := n - 1;
      i :| Tells(es, i, j, key);
    } else {
      i, j := ObservedWasTold(es, n - 1, key);
    }
  }

  /**
   What has been observed of an address, from the frames alone: exactly the value of the last response that told it,
   if the cache was not cleared since. A response tells an address if it directly follows, short responses aside, a
   request of 1 to 125 registers or 1 to 2000 coils that includes the address, comes from the same slave with the
   same function, and its byte count is right.
   */
  lemma {:induction false} ObservedExactly(es: seq<Event>, key: Key, cell: Cell)
    ensures Observed(es, key) == Some(cell) <==>
            exists i: nat, j: nat ::
              Tells(es, i, j, key) && Told(es, i, j, key) == cell && Undisturbed(es, j, |es|, key)
  {
    assert es[..|es|] == es;
    if Observed(es, key).Some? {
      var i, j := ObservedWasTold(es, |es|, key);
      ToldIsObserved(es, i, j, |es|, key);
    }
    if i: nat, j: nat :| Tells(es, i, j, key) && Undisturbed(es, j, |es|, key) {
      ToldIsObserved(es, i, j, |es|, key);
    }
  }

  // ---- A read amid traffic ------------------------------------------------------------------

  lemma {:induction false} RunJoins(c: Cache, a: seq<Event>, b: seq<Event>)
    ensures Run(c, a + b) == Run(Run(c, a), b)
    decreases |a|
  {
    if a == [] {
      assert a + b == b;
    } else {
      assert (a + b)[1..] == a[1..] + b;
      RunJoins(Step(c, a[0]), a[1..], b);
    }
  }

  lemma {:induction false} FitsPrefix(r: Reference, a: seq<Event>, b: seq<Event>)
    requires FitsThroughout(r, a + b)
    ensures FitsThroughout(r, a)
    decreases |a|
  {
    if a != [] {
      assert (a + b)[1..] == a[1..] + b;
      FitsPrefix(RefStep(r, a[0]), a[1..], b);
    }
  }

  lemma {:induction false} AgreesAtEnd(c: Cache, r: Reference, es: seq<Event>)
    requires AgreesThroughout(c, r, es)
    ensures Agrees(Run(c, es), RefRun(r, es))
    decreases |es|
  {
    if es != [] {
      AgreesAtEnd(Step(c, es[0]), RefStep(r, es[0]), es[1..]);
    }
  }

  lemma {:induction false} LookUpIsObserved(es: seq<Event>, key: Key, timeout: Word, now: nat)
    requires FitsThroughout(NOTHING_KNOWN, es) && Readable(key.table)
    ensures LookUp(Run(NOTHING_HEARD, es).pool, key, timeout, now) ==
            match Observed(es, key) {
              case None => NotFound
              case Some(cell) => if Expired(cell, timeout, now) then Stale else Found(cell.value)
            }
  {
    PoolIsLatestExactly(NOTHING_HEARD, NOTHING_KNOWN, es);
    AgreesAtEnd(NOTHING_HEARD, NOTHING_KNOWN, es);
    ReferenceIsObserved(es, key);
    LookUpMeans(Run(NOTHING_HEARD, es).pool, key, timeout, now);
  }

  /** The 16-bit subtraction counts seconds modulo 65536, whichever clock is ahead. */
  lemma {:induction false} ExpiredInSeconds(cell: Cell, timeout: Word, now: nat)
    ensures Expired(cell, timeout, now) <==> timeout > 0 && (now - cell.at) % 65536 >= timeout
    ensures 0 <= now - cell.at < 65536 ==> (Expired(cell, timeout, now) <==> 0 < timeout <= now - cell.at)
  {
  }

  /**
   In seconds: after any traffic that fits the pool, an address nobody has heard of is not found. One last heard at
   second `at` is stale exactly if there is a timeout and the seconds since, modulo 65536, reach it, and else is
   served with the value heard then. So for 65536 seconds a value is served exactly until its timeout is over.
   */
  lemma {:induction false} ServedUntilTimeout(es: seq<Event>, key: Key, timeout: Word, now: nat)
    requires FitsThroughout(NOTHING_KNOWN, es) && Readable(key.table)
    ensures var found, seen := LookUp(Run(NOTHING_HEARD, es).pool, key, timeout, now), Observed(es, key);
            && (found == NotFound <==> seen.None?)
            && (seen.Some? ==>
                  && (found == Stale <==> timeout > 0 && (now - seen.value.at) % 65536 >= timeout)
                  && (found != Stale ==> found == Found(seen.value.value))
                  && (0 <= now - seen.value.at < 65536 ==>
                        (found == Found(seen.value.value) <==> timeout == 0 || now - seen.value.at < timeout)))
  {
    LookUpIsObserved(es, key, timeout, now);
    var seen := Observed(es, key);
    if seen.Some? {
      ExpiredInSeconds(seen.value, timeout, now);
    }
  }

  /** One lookup of a read: what is overheard before it, and the time it is made. */
  datatype Look = Look(heard: seq<Event>, now: nat)

  /** The builders' loop when the traffic goes on between its lookups. */
  function GatherAmid(c: Cache, unit: Byte, fc: Byte, start: nat, looks: seq<Look>, timeout: Word): Gathered
    decreases |looks|
  {
    if looks == [] then Got([])
    else
      var now := Run(c, looks[0].heard);
      match LookUp(now.pool, Key(unit, fc, start), timeout, looks[0].now)
      case NotFound => Failed(ILLEGAL_ADDRESS)
      case Stale => Failed(TARGET_FAILED)
      case Found(v) =>
        match GatherAmid(now, unit, fc, start + 1, looks[1..], timeout)
        case Failed(code) => Failed(code)
        case Got(vs) => Got([v] + vs)
  }

  function AllHeard(history: seq<Event>, looks: seq<Look>): seq<Event>
    decreases |looks|
  {
    if looks == [] then history else AllHeard(history + looks[0].heard, looks[1..])
  }

  lemma {:induction false} HeardFirst(history: seq<Event>, looks: seq<Look>) returns (rest: seq<Event>)
    ensures AllHeard(history, looks) == history + rest
    decreases |looks|
  {
    if looks == [] {
      rest := [];
    } else {
      var tail := HeardFirst(history + looks[0].heard, looks[1..]);
      rest := looks[0].heard + tail;
      assert history + looks[0].heard + tail == history + rest;
    }
  }

  /** Each value is the latest one observed by the time of its own lookup, and still fresh then. */
  predicate LatestAtEachLook(history: seq<Event>, unit: Byte, fc: Byte, start: nat, looks: seq<Look>, timeout: Word,
                             values: seq<Word>)
    decreases |looks|
  {
    if looks == [] then values == []
    else
      var heard := history + looks[0].heard;
      var seen := Observed(heard, Key(unit, fc, start));
      && values != [] && seen.Some? && !Expired(seen.value, timeout, looks[0].now) && values[0] == seen.value.value
      && LatestAtEachLook(heard, unit, fc, start + 1, looks[1..], timeout, values[1..])
  }

  /**
   After any history of traffic from power-up, with any more of it between the lookups, as long as the
   distinct addresses fit the pool: a read returns these values exactly if each of them is the latest one
   observed at its address when that address was looked up, and had not expired.
   */
  lemma {:induction false} ReadsReturnTheLatest(history: seq<Event>, unit: Byte, fc: Byte, start: nat, looks: seq<Look>,
                                                timeout: Word, values: seq<Word>)
    requires Readable(fc) && FitsThroughout(NOTHING_KNOWN, AllHeard(history, looks))
    ensures GatherAmid(Run(NOTHING_HEARD, history), unit, fc, start, looks, timeout) == Got(values) <==>
            LatestAtEachLook(history, unit, fc, start, looks, timeout, values)
    decreases |looks|
  {
    if looks != [] {
      var heard := history + looks[0].heard;
      var rest := HeardFirst(heard, looks[1..]);
      FitsPrefix(NOTHING_KNOWN, heard, rest);
      RunJoins(NOTHING_HEARD, history, looks[0].heard);
      LookUpIsObserved(heard, Key(unit, fc, start), timeout, looks[0].now);
      if values != [] {
        ReadsReturnTheLatest(heard, unit, fc, start + 1, looks[1..], timeout, values[1..]);
        assert values == [values[0]] + values[1..];
      }
    }
  }
}

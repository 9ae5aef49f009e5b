/**
 The register cache behind the sniffer (main/bridge/sniffer.c, main/bridge/cache_multimaster.c): what the
 packets of a bus, in the order they were taken off the queue, leave to be read.
 */
module CacheFeed {
  import opened Bytes
  import opened Options
  import opened RegisterCache
  import opened CacheServer
  import opened CacheHistory
  import Sniffer
  import SnifferPipeline

  type Packet = Sniffer.Packet

  predicate Whole(ks: seq<Packet>, at: seq<nat>) {
    |at| == |ks| && forall i :: 0 <= i < |ks| ==> |ks[i].data| >= 2
  }

  /** What the cache is told, packet by packet. */
  function Events(ks: seq<Packet>, at: seq<nat>): seq<Event>
    requires Whole(ks, at)
  {
    seq(|ks|, i requires 0 <= i < |ks| => SnifferPipeline.CacheEvent(ks[i], at[i]))
  }

  /** Feeding is stepping the cache through these events. */
  lemma {:induction false} FedIsRun(c: Cache, ks: seq<Packet>, now: nat)
    requires forall i :: 0 <= i < |ks| ==> |ks[i].data| >= 2
    ensures SnifferPipeline.Fed(c, ks, true, true, now) == Run(c, Events(ks, seq(|ks|, _ => now)))
    decreases |ks|
  {
    if ks != [] {
      var es := Events(ks, seq(|ks|, _ => now));
      FedIsRun(SnifferPipeline.FedOne(c, ks[0], true, true, now), ks[1..], now);
      assert es[1..] == Events(ks[1..], seq(|ks[1..]|, _ => now));
    }
  }

  /** A packet that came whole, not one that stands for a timeout. */
  predicate Sound(k: Packet) {
    k.crcValid && !k.isTimeout
  }

  /** A master's read that includes the address, and the answer of that slave with the bytes it calls for. */
  predicate ReadPair(a: Packet, b: Packet, key: Key) {
    && Sound(a) && a.isMaster && |a.data| >= 8 && Sound(b) && !b.isMaster && |b.data| >= 5
    && a.data[0] == b.data[0] == key.slave && a.data[1] == b.data[1] == key.table && 1 <= key.table <= 4
    && (var start, count := a.data[2] as int * 256 + a.data[3], a.data[4] as int * 256 + a.data[5];
        var bytes := if key.table <= 2 then (count + 7) / 8 else 2 * count;
        && 1 <= count <= (if key.table <= 2 then 2000 else 125) && start + count <= 65536
        && start <= key.address < start + count && b.data[2] == bytes && |b.data| >= 3 + bytes)
  }

  function PairValue(a: Packet, b: Packet, key: Key): Word
    requires ReadPair(a, b, key)
  {
    var k := key.address - (a.data[2] as int * 256 + a.data[3]);
    if key.table <= 2 then Bit(b.data[3 + k / 8], k % 8) else b.data[3 + 2 * k] as int * 256 + b.data[4 + 2 * k]
  }

  /** The packets at i and i + 1 are the last such pair. */
  predicate LastPair(ks: seq<Packet>, i: nat, key: Key) {
    && i + 1 < |ks| && ReadPair(ks[i], ks[i + 1], key)
    && forall m :: i < m < |ks| - 1 ==> !ReadPair(ks[m], ks[m + 1], key)
  }

  /** No packet is too short to end the wait for an answer, so a request waits for the next packet only. */
  lemma {:induction false} TellingIsAPair(ks: seq<Packet>, at: seq<nat>, i: nat, j: nat, key: Key)
    requires Whole(ks, at)
    ensures Tells(Events(ks, at), i, j, key) <==> j == i + 1 && j < |ks| && ReadPair(ks[i], ks[j], key)
    ensures Tells(Events(ks, at), i, j, key) ==>
              Told(Events(ks, at), i, j, key) == Cell(PairValue(ks[i], ks[j], key), at[j])
  {
    var es := Events(ks, at);
    if i + 1 < j <= |ks| {
      assert !(es[i + 1].Response? && |es[i + 1].frame| < 4);
    }
  }

  lemma {:induction false} NeverCleared(ks: seq<Packet>, at: seq<nat>)
    requires Whole(ks, at)
    ensures forall m :: 0 <= m < |ks| ==> !Events(ks, at)[m].Clear?
  {
  }

  lemma {:induction false} NotToldLater(ks: seq<Packet>, at: seq<nat>, i: nat, a: nat, m: nat, key: Key)
    requires Whole(ks, at) && LastPair(ks, i, key) && i + 1 < m < |ks|
    ensures !Tells(Events(ks, at), a, m, key)
  {
    TellingIsAPair(ks, at, a, m, key);
    if m == a + 1 {
      assert !ReadPair(ks[a], ks[a + 1], key);
    }
  }

  lemma {:induction false} LastPairIsUndisturbed(ks: seq<Packet>, at: seq<nat>, i: nat, key: Key)
    requires Whole(ks, at) && LastPair(ks, i, key)
    ensures Undisturbed(Events(ks, at), i + 1, |ks|, key)
  {
    NeverCleared(ks, at);
    forall a: nat, m: nat | i + 1 < m < |ks|
      ensures !Tells(Events(ks, at), a, m, key)
    {
      NotToldLater(ks, at, i, a, m, key);
    }
  }

  lemma {:induction false} UndisturbedIsLastPair(ks: seq<Packet>, at: seq<nat>, i: nat, key: Key)
    requires Whole(ks, at) && i + 1 < |ks| && ReadPair(ks[i], ks[i + 1], key)
    requires Undisturbed(Events(ks, at), i + 1, |ks|, key)
    ensures LastPair(ks, i, key)
  {
    forall m: nat | i < m < |ks| - 1
      ensures !ReadPair(ks[m], ks[m + 1], key)
    {
      TellingIsAPair(ks, at, m, m + 1, key);
    }
  }

  lemma {:induction false} PairIsLearned(ks: seq<Packet>, at: seq<nat>, i: nat, key: Key)
    requires Whole(ks, at) && LastPair(ks, i, key)
    ensures Observed(Events(ks, at), key) == Some(Cell(PairValue(ks[i], ks[i + 1], key), at[i + 1]))
  {
    var es := Events(ks, at);
    TellingIsAPair(ks, at, i, i + 1, key);
    LastPairIsUndisturbed(ks, at, i, key);
    ToldIsObserved(es, i, i + 1, |es|, key);
    assert es[..|es|] == es;
  }

  lemma {:induction false} LearnedFromPair(ks: seq<Packet>, at: seq<nat>, key: Key) returns (i: nat)
    requires Whole(ks, at) && Observed(Events(ks, at), key).Some?
    ensures LastPair(ks, i, key)
    ensures Observed(Events(ks, at), key) == Some(Cell(PairValue(ks[i], ks[i + 1], key), at[i + 1]))
  {
    var es := Events(ks, at);
    assert es[..|es|] == es;
    var j;
    i, j := ObservedWasTold(es, |es|, key);
    TellingIsAPair(ks, at, i, j, key);
    UndisturbedIsLastPair(ks, at, i, key);
    PairIsLearned(ks, at, i, key);
  }

  /** An address is known exactly from the last two packets in a row that were a read of it and its answer. A
      timeout, a damaged frame or anything else in between, and nothing is learned. */
  lemma {:induction false} LearnedExactly(ks: seq<Packet>, at: seq<nat>, key: Key, cell: Cell)
    requires Whole(ks, at)
    ensures Observed(Events(ks, at), key) == Some(cell) <==>
            exists i: nat :: LastPair(ks, i, key) && cell == Cell(PairValue(ks[i], ks[i + 1], key), at[i + 1])
  {
    if Observed(Events(ks, at), key).Some? {
      var i := LearnedFromPair(ks, at, key);
    }
    if i: nat :| LastPair(ks, i, key) {
      PairIsLearned(ks, at, i, key);
    }
  }

  /** Heard at second `at` and not older than the timeout, in seconds modulo 65536. */
  predicate Fresh(at: nat, timeout: Word, now: nat) {
    timeout == 0 || (now - at) % 65536 < timeout
  }

  /** The value an observer wrote down, while it is fresh. */
  predicate FreshIn(es: seq<Event>, key: Key, timeout: Word, now: nat, value: Word) {
    var seen := Observed(es, key);
    seen.Some? && seen.value.value == value && Fresh(seen.value.at, timeout, now)
  }

  lemma {:induction false} FoundIsFresh(es: seq<Event>, key: Key, timeout: Word, now: nat, value: Word)
    requires FitsThroughout(NOTHING_KNOWN, es) && 1 <= key.table <= 4
    ensures LookUp(Run(NOTHING_HEARD, es).pool, key, timeout, now) == Found(value) <==>
            FreshIn(es, key, timeout, now, value)
  {
    ServedUntilTimeout(es, key, timeout, now);
  }

  /** The last pair that read the address carries the value and is not older than the timeout. */
  predicate FreshPair(ks: seq<Packet>, at: seq<nat>, i: nat, key: Key, timeout: Word, now: nat, value: Word)
    requires Whole(ks, at)
  {
    LastPair(ks, i, key) && value == PairValue(ks[i], ks[i + 1], key) && Fresh(at[i + 1], timeout, now)
  }

  lemma {:induction false} PairIsFresh(ks: seq<Packet>, at: seq<nat>, i: nat, key: Key, timeout: Word, now: nat,
                                       value: Word)
    requires Whole(ks, at) && FreshPair(ks, at, i, key, timeout, now, value)
    ensures FreshIn(Events(ks, at), key, timeout, now, value)
  {
    PairIsLearned(ks, at, i, key);
  }

  lemma {:induction false} FreshFromPair(ks: seq<Packet>, at: seq<nat>, key: Key, timeout: Word, now: nat, value: Word)
    returns (i: nat)
    requires Whole(ks, at) && FreshIn(Events(ks, at), key, timeout, now, value)
    ensures FreshPair(ks, at, i, key, timeout, now, value)
  {
    i := LearnedFromPair(ks, at, key);
  }

  /**
   From the packets to the client, for every sequence of them that fits the pool: a lookup finds a value exactly if
   it is the one in the last pair of packets that read the address, and that pair is fresh.
   */
  lemma {:induction false} ServedFromTheLastPair(ks: seq<Packet>, at: seq<nat>, key: Key, timeout: Word, now: nat,
                                                 value: Word)
    requires Whole(ks, at) && FitsThroughout(NOTHING_KNOWN, Events(ks, at)) && 1 <= key.table <= 4
    ensures LookUp(Run(NOTHING_HEARD, Events(ks, at)).pool, key, timeout, now) == Found(value) <==>
            exists i: nat :: FreshPair(ks, at, i, key, timeout, now, value)
  {
    FoundIsFresh(Events(ks, at), key, timeout, now, value);
    if FreshIn(Events(ks, at), key, timeout, now, value) {
      var i := FreshFromPair(ks, at, key, timeout, now, value);
    }
    if i: nat :| FreshPair(ks, at, i, key, timeout, now, value) {
      PairIsFresh(ks, at, i, key, timeout, now, value);
    }
  }
}

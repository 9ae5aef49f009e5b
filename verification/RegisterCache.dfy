/**
 The register cache (main/bridge/cache_multimaster.c): what it has learned from the read exchanges
 overheard on the bus, kept in a pool of 4096 entries.

 The reference is a map from (slave, table, address) to the latest value observed and when. The pool
 follows it exactly as long as the map has at most 4096 keys.
 */
module RegisterCache {
  import opened Bytes
  import opened Options

  const MAX_ENTRIES := 4096
  const MAX_REGISTERS := 125
  const MAX_COILS := 2000
  const CLOCK := 65536

  /** The table is the read function code, 1 to 4. */
  datatype Key = Key(slave: Byte, table: Byte, address: nat)

  /** `at` is the uptime in seconds; the code keeps its low sixteen bits. */
  datatype Cell = Cell(value: Word, at: nat)

  datatype Entry = Entry(key: Key, cell: Cell)

  predicate Readable(fc: Byte) {
    1 <= fc <= 4
  }

  predicate IsRegisterTable(fc: Byte) {
    fc == 3 || fc == 4
  }

  function MaxCount(fc: Byte): nat {
    if IsRegisterTable(fc) then MAX_REGISTERS else MAX_COILS
  }

  predicate Cacheable(fc: Byte, start: Word, count: Word) {
    Readable(fc) && 0 < count <= MaxCount(fc) && start + count <= 0x10000
  }

  // ---- The pool -----------------------------------------------------------------------------

  predicate Unique(es: seq<Entry>) {
    forall i, j :: 0 <= i < j < |es| ==> es[i].key != es[j].key
  }

  predicate ValidPool(es: seq<Entry>) {
    Unique(es) && |es| <= MAX_ENTRIES
  }

  /** Index of the key in the used prefix, or its length. */
  function Find(es: seq<Entry>, key: Key): (i: nat)
    ensures i <= |es|
    ensures i < |es| ==> es[i].key == key
    ensures forall j :: 0 <= j < i ==> es[j].key != key
  {
    if es == [] then 0
    else if es[0].key == key then 0
    else
      var i := Find(es[1..], key);
      assert forall j :: 0 < j < i + 1 ==> es[j] == es[1..][j - 1];
      i + 1
  }

  /** find_or_alloc_entry and the write through it; None when the pool is full. */
  function Store(es: seq<Entry>, key: Key, cell: Cell): Option<seq<Entry>> {
    var i := Find(es, key);
    if i < |es| then Some(es[i := Entry(key, cell)])
    else if |es| < MAX_ENTRIES then Some(es + [Entry(key, cell)])
    else None
  }

  /** The store loop of one response: it stops at the first value that finds no room. */
  function StoreAll(es: seq<Entry>, slave: Byte, fc: Byte, start: nat, values: seq<Word>, at: nat): seq<Entry>
    decreases |values|
  {
    if values == [] then es
    else
      match Store(es, Key(slave, fc, start), Cell(values[0], at))
      case None => es
      case Some(next) => StoreAll(next, slave, fc, start + 1, values[1..], at)
  }

  /** How many values of one response are stored before the loop stops. */
  function Taken(es: seq<Entry>, slave: Byte, fc: Byte, start: nat, values: seq<Word>, at: nat): nat
    decreases |values|
  {
    if values == [] then 0
    else
      match Store(es, Key(slave, fc, start), Cell(values[0], at))
      case None => 0
      case Some(next) => 1 + Taken(next, slave, fc, start + 1, values[1..], at)
  }

  // ---- The reference ------------------------------------------------------------------------

  function Latest(m: map<Key, Cell>, slave: Byte, fc: Byte, start: nat, values: seq<Word>, at: nat): map<Key, Cell>
    decreases |values|
  {
    if values == [] then m
    else Latest(m[Key(slave, fc, start) := Cell(values[0], at)], slave, fc, start + 1, values[1..], at)
  }

  /** What an observed read means: those addresses now hold those values, nothing else changes. */
  lemma {:induction false} LatestMeans(m: map<Key, Cell>, slave: Byte, fc: Byte, start: nat, values: seq<Word>,
                                       at: nat, key: Key)
    ensures var t := Latest(m, slave, fc, start, values, at);
            if key.slave == slave && key.table == fc && start <= key.address < start + |values|
            then key in t && t[key] == Cell(values[key.address - start], at)
            else (key in t <==> key in m) && (key in m ==> t[key] == m[key])
    decreases |values|
  {
    if values != [] {
      LatestMeans(m[Key(slave, fc, start) := Cell(values[0], at)], slave, fc, start + 1, values[1..], at, key);
    }
  }

  function AsMap(es: seq<Entry>): map<Key, Cell> {
    if es == [] then map[] else
      var n := |es| - 1;
      AsMap(es[..n])[es[n].key := es[n].cell]
  }

  lemma {:induction false} AsMapAt(es: seq<Entry>, i: nat)
    requires Unique(es) && i < |es|
    ensures es[i].key in AsMap(es) && AsMap(es)[es[i].key] == es[i].cell
  {
    var n := |es| - 1;
    if i < n {
      AsMapAt(es[..n], i);
      assert es[i].key != es[n].key;
    }
  }

  lemma {:induction false} NotInMap(es: seq<Entry>, k: Key)
    requires forall i :: 0 <= i < |es| ==> es[i].key != k
    ensures k !in AsMap(es)
  {
    if es != [] {
      NotInMap(es[..|es| - 1], k);
    }
  }

  lemma {:induction false} AsMapSize(es: seq<Entry>)
    requires Unique(es)
    ensures |AsMap(es)| == |es|
  {
    if es != [] {
      var n := |es| - 1;
      AsMapSize(es[..n]);
      NotInMap(es[..n], es[n].key);
    }
  }

  lemma {:induction false} SizeIsKeys<K, V>(m: map<K, V>)
    ensures |m| == |m.Keys|
  {
  }

  lemma {:induction false} Overwrite(es: seq<Entry>, i: nat, cell: Cell)
    requires Unique(es) && i < |es|
    ensures AsMap(es[i := Entry(es[i].key, cell)]) == AsMap(es)[es[i].key := cell]
  {
    var n := |es| - 1;
    var next := es[i := Entry(es[i].key, cell)];
    if i == n {
      assert next[..n] == es[..n];
    } else {
      assert next[..n] == es[..n][i := Entry(es[i].key, cell)];
      Overwrite(es[..n], i, cell);
      assert es[i].key != es[n].key;
    }
  }

  lemma {:induction false} OverwriteKeepsUnique(es: seq<Entry>, i: nat, cell: Cell)
    requires Unique(es) && i < |es|
    ensures Unique(es[i := Entry(es[i].key, cell)])
  {
  }

  lemma {:induction false} Append(es: seq<Entry>, e: Entry)
    requires Unique(es) && forall i :: 0 <= i < |es| ==> es[i].key != e.key
    ensures Unique(es + [e]) && AsMap(es + [e]) == AsMap(es)[e.key := e.cell]
  {
  }

  lemma {:induction false} StoreMeans(es: seq<Entry>, key: Key, cell: Cell)
    requires ValidPool(es)
    ensures Store(es, key, cell).None? <==> key !in AsMap(es) && |es| == MAX_ENTRIES
    ensures Store(es, key, cell).Some? ==>
            ValidPool(Store(es, key, cell).value) && AsMap(Store(es, key, cell).value) == AsMap(es)[key := cell]
  {
    var i := Find(es, key);
    if i < |es| {
      AsMapAt(es, i);
      Overwrite(es, i, cell);
      OverwriteKeepsUnique(es, i, cell);
    } else {
      NotInMap(es, key);
      Append(es, Entry(key, cell));
    }
  }

  lemma {:induction false} LatestGrows(m: map<Key, Cell>, slave: Byte, fc: Byte, start: nat, values: seq<Word>, at: nat)
    ensures m.Keys <= Latest(m, slave, fc, start, values, at).Keys
    ensures |m| <= |Latest(m, slave, fc, start, values, at)|
    decreases |values|
  {
    if values != [] {
      LatestGrows(m[Key(slave, fc, start) := Cell(values[0], at)], slave, fc, start + 1, values[1..], at);
    }
    SizeIsKeys(m);
    SizeIsKeys(Latest(m, slave, fc, start, values, at));
    SubsetSize(m.Keys, Latest(m, slave, fc, start, values, at).Keys);
  }

  lemma {:induction false} SubsetSize<T>(a: set<T>, b: set<T>)
    requires a <= b
    ensures |a| <= |b|
    decreases |a|
  {
    if a != {} {
      var x :| x in a;
      SubsetSize(a - {x}, b - {x});
    }
  }

  lemma {:induction false} StoreAllKeepsPool(es: seq<Entry>, slave: Byte, fc: Byte, start: nat, values: seq<Word>,
                                             at: nat)
    requires ValidPool(es)
    ensures ValidPool(StoreAll(es, slave, fc, start, values, at))
    decreases |values|
  {
    if values != [] {
      var next := Store(es, Key(slave, fc, start), Cell(values[0], at));
      StoreMeans(es, Key(slave, fc, start), Cell(values[0], at));
      if next.Some? {
        StoreAllKeepsPool(next.value, slave, fc, start + 1, values[1..], at);
      }
    }
  }

  /** What a full pool leaves of a response: the values before the first one that finds no room. */
  lemma {:induction false} StoreAllTakes(es: seq<Entry>, slave: Byte, fc: Byte, start: nat, values: seq<Word>, at: nat)
    requires ValidPool(es)
    ensures var n, left := Taken(es, slave, fc, start, values, at), StoreAll(es, slave, fc, start, values, at);
            && n <= |values| && AsMap(left) == Latest(AsMap(es), slave, fc, start, values[..n], at)
            && (n < |values| ==> |left| == MAX_ENTRIES && Key(slave, fc, start + n) !in AsMap(left))
    decreases |values|
  {
    if values != [] {
      StoreMeans(es, Key(slave, fc, start), Cell(values[0], at));
      var s := Store(es, Key(slave, fc, start), Cell(values[0], at));
      if s.Some? {
        StoreAllTakes(s.value, slave, fc, start + 1, values[1..], at);
        var n := Taken(es, slave, fc, start, values, at);
        assert values[..n][1..] == values[1..][..n - 1];
      }
    }
  }

  /** A response is taken in whole exactly when the reference still fits the pool afterwards. */
  lemma {:induction false} StoreAllExactly(es: seq<Entry>, slave: Byte, fc: Byte, start: nat, values: seq<Word>,
                                           at: nat)
    requires ValidPool(es)
    ensures ValidPool(StoreAll(es, slave, fc, start, values, at))
    ensures AsMap(StoreAll(es, slave, fc, start, values, at)) == Latest(AsMap(es), slave, fc, start, values, at) <==>
            |Latest(AsMap(es), slave, fc, start, values, at)| <= MAX_ENTRIES
    decreases |values|
  {
    StoreAllKeepsPool(es, slave, fc, start, values, at);
    AsMapSize(StoreAll(es, slave, fc, start, values, at));
    AsMapSize(es);
    if values != [] && |Latest(AsMap(es), slave, fc, start, values, at)| <= MAX_ENTRIES {
      var key, cell := Key(slave, fc, start), Cell(values[0], at);
      var next := Store(es, key, cell);
      StoreMeans(es, key, cell);
      LatestGrows(AsMap(es)[key := cell], slave, fc, start + 1, values[1..], at);
      if next.Some? {
        StoreAllExactly(next.value, slave, fc, start + 1, values[1..], at);
      }
    }
  }

  /** When it does not fit, even an address the pool does hold keeps its old value, if it comes after
      one that finds no room. */
  lemma {:induction false} FullPoolKeepsAnOldValue(es: seq<Entry>, slave: Byte, fc: Byte, start: nat,
                                                   values: seq<Word>, at: nat)
    requires ValidPool(es) && |es| == MAX_ENTRIES && values != [] && Key(slave, fc, start) !in AsMap(es)
    ensures StoreAll(es, slave, fc, start, values, at) == es
  {
    StoreMeans(es, Key(slave, fc, start), Cell(values[0], at));
  }

  // ---- Requests and responses ---------------------------------------------------------------

  datatype Pending = NoRequest | Asked(slave: Byte, fc: Byte, start: Word, count: Word)

  function ExpectedBytes(fc: Byte, count: nat): nat {
    if IsRegisterTable(fc) then count * 2 else (count + 7) / 8
  }

  /** Bit j of b, lowest first. */
  function Bit(b: nat, j: nat): (v: nat)
    ensures v <= 1
  {
    if j == 0 then b % 2 else Bit(b / 2, j - 1)
  }

  /** The i-th value carried by the data bytes of a response. */
  function ValueAt(fc: Byte, data: seq<Byte>, i: nat): Word
    requires (if IsRegisterTable(fc) then i * 2 + 1 else i / 8) < |data|
  {
    if IsRegisterTable(fc) then BigEndian(data[i * 2], data[i * 2 + 1]) else Bit(data[i / 8], i % 8)
  }

  function Values(fc: Byte, data: seq<Byte>, count: nat): (vs: seq<Word>)
    requires |data| >= ExpectedBytes(fc, count)
    ensures |vs| == count
  {
    seq(count, i requires 0 <= i < count => ValueAt(fc, data, i))
  }

  /** The grammar check: the response declares and carries exactly what the request asked for. */
  function Decode(p: Pending, slave: Byte, fc: Byte, frame: seq<Byte>): Option<seq<Word>> {
    if |frame| < 4 || p.NoRequest? || p.slave != slave || p.fc != fc then None
    else
      var n := ExpectedBytes(fc, p.count);
      if frame[2] as int != n || 3 + n > |frame| then None
      else Some(Values(fc, frame[3..3 + n], p.count))
  }

  datatype Event =
    | Request(slave: Byte, fc: Byte, start: Word, count: Word)
    | Response(slave: Byte, fc: Byte, frame: seq<Byte>, now: nat)
    | ClearPending
    | Clear

  datatype Cache = Cache(pool: seq<Entry>, pending: Pending)

  datatype Reference = Reference(latest: map<Key, Cell>, pending: Pending)

  /** A response of fewer than four bytes returns before the pending request is consumed. */
  function NextPending(p: Pending, e: Event): Pending {
    match e
    case Request(slave, fc, start, count) => if Cacheable(fc, start, count) then Asked(slave, fc, start, count)
        else NoRequest
    case Response(_, _, frame, _) => if |frame| < 4 then p else NoRequest
    case ClearPending => NoRequest
    case Clear => NoRequest
  }

  function Step(c: Cache, e: Event): Cache {
    var pool :=
      match e
      case Response(slave, fc, frame, now) =>
        var values := Decode(c.pending, slave, fc, frame);
        if values.Some? && c.pending.Asked?
        then StoreAll(c.pool, slave, fc, c.pending.start, values.value, now)
        else c.pool
      case Clear => []
      case _ => c.pool;
    Cache(pool, NextPending(c.pending, e))
  }

  function RefStep(r: Reference, e: Event): Reference {
    var latest :=
      match e
      case Response(slave, fc, frame, now) =>
        var values := Decode(r.pending, slave, fc, frame);
        if values.Some? && r.pending.Asked?
        then Latest(r.latest, slave, fc, r.pending.start, values.value, now)
        else r.latest
      case Clear => map[]
      case _ => r.latest;
    Reference(latest, NextPending(r.pending, e))
  }

  function Run(c: Cache, es: seq<Event>): Cache
    decreases |es|
  {
    if es == [] then c else Run(Step(c, es[0]), es[1..])
  }

  function RefRun(r: Reference, es: seq<Event>): Reference
    decreases |es|
  {
    if es == [] then r else RefRun(RefStep(r, es[0]), es[1..])
  }

  predicate Agrees(c: Cache, r: Reference) {
    ValidPool(c.pool) && AsMap(c.pool) == r.latest && c.pending == r.pending
  }

  predicate AgreesThroughout(c: Cache, r: Reference, es: seq<Event>)
    decreases |es|
  {
    Agrees(c, r) && (es != [] ==> AgreesThroughout(Step(c, es[0]), RefStep(r, es[0]), es[1..]))
  }

  predicate FitsThroughout(r: Reference, es: seq<Event>)
    decreases |es|
  {
    |r.latest| <= MAX_ENTRIES && (es != [] ==> FitsThroughout(RefStep(r, es[0]), es[1..]))
  }

  lemma {:induction false} StepExactly(c: Cache, r: Reference, e: Event)
    requires Agrees(c, r)
    ensures Agrees(Step(c, e), RefStep(r, e)) <==> |RefStep(r, e).latest| <= MAX_ENTRIES
  {
    AsMapSize(c.pool);
    if e.Response? {
      var values := Decode(c.pending, e.slave, e.fc, e.frame);
      if values.Some? {
        StoreAllExactly(c.pool, e.slave, e.fc, c.pending.start, values.value, e.now);
      }
    }
  }

  /** Over every sequence of overheard traffic: the pool is the latest-value map throughout exactly as
      long as the distinct addresses observed since the last clear never exceed 4096. */
  lemma {:induction false} PoolIsLatestExactly(c: Cache, r: Reference, es: seq<Event>)
    requires Agrees(c, r)
    ensures AgreesThroughout(c, r, es) <==> FitsThroughout(r, es)
    decreases |es|
  {
    AsMapSize(c.pool);
    if es != [] {
      StepExactly(c, r, es[0]);
      if Agrees(Step(c, es[0]), RefStep(r, es[0])) {
        PoolIsLatestExactly(Step(c, es[0]), RefStep(r, es[0]), es[1..]);
      }
    }
  }
}

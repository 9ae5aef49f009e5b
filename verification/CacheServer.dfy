/**
 The cache's Modbus TCP server (main/bridge/cache_modbus_server.c): read requests answered from the
 register cache, and the exception codes for everything that cannot be.
 */
module CacheServer {
  import opened Bytes
  import opened RegisterCache
  import opened CoilPacking
  import opened Options
  import Reassembly

  const SELF_UNIT: Byte := 0xFF
  const ILLEGAL_FUNCTION: Byte := 0x01
  const ILLEGAL_ADDRESS: Byte := 0x02
  const ILLEGAL_DATA_VALUE: Byte := 0x03
  const TARGET_FAILED: Byte := 0x0B

  // ---- Lookup -------------------------------------------------------------------------------

  datatype Lookup = NotFound | Stale | Found(value: Word)

  /** Sixteen-bit subtraction of sixteen-bit clocks. */
  function Age(now: nat, at: nat): Word {
    (now % CLOCK - at % CLOCK) % CLOCK
  }

  predicate Expired(cell: Cell, timeout: Word, now: nat) {
    timeout > 0 && Age(now, cell.at) >= timeout
  }

  function LookUp(pool: seq<Entry>, key: Key, timeout: Word, now: nat): Lookup {
    var i := Find(pool, key);
    if !Readable(key.table) || i == |pool| then NotFound
    else if Expired(pool[i].cell, timeout, now) then Stale
    else Found(pool[i].cell.value)
  }

  lemma {:induction false} LookUpMeans(pool: seq<Entry>, key: Key, timeout: Word, now: nat)
    requires ValidPool(pool) && Readable(key.table)
    ensures LookUp(pool, key, timeout, now) ==
            if key !in AsMap(pool) then NotFound
            else if Expired(AsMap(pool)[key], timeout, now) then Stale
            else Found(AsMap(pool)[key].value)
  {
    var i := Find(pool, key);
    if i < |pool| {
      AsMapAt(pool, i);
    } else {
      NotInMap(pool, key);
    }
  }

  /** The age is the elapsed time modulo 65536 s, so a value older than 18.2 hours is young again for as long
      as the timeout lasts; at every other moment the timeout is exact. */
  lemma {:induction false} AgeExactly(now: nat, at: nat, timeout: Word)
    requires at <= now
    ensures Age(now, at) == (now - at) % CLOCK
    ensures (Age(now, at) >= timeout <==> now - at >= timeout) <==> now - at < CLOCK || (now - at) % CLOCK >= timeout
  {
  }

  // ---- A range of addresses -----------------------------------------------------------------

  datatype Gathered = Failed(code: Byte) | Got(values: seq<Word>)

  /** The builders' loop: the first address that is missing or stale decides the exception. */
  function Gather(pool: seq<Entry>, unit: Byte, fc: Byte, start: nat, count: nat, timeout: Word, now: nat): Gathered
    decreases count
  {
    if count == 0 then Got([])
    else
      match LookUp(pool, Key(unit, fc, start), timeout, now)
      case NotFound => Failed(ILLEGAL_ADDRESS)
      case Stale => Failed(TARGET_FAILED)
      case Found(v) =>
        match Gather(pool, unit, fc, start + 1, count - 1, timeout, now)
        case Failed(code) => Failed(code)
        case Got(vs) => Got([v] + vs)
  }

  predicate Servable(m: map<Key, Cell>, key: Key, timeout: Word, now: nat) {
    key in m && !Expired(m[key], timeout, now)
  }

  /** Address a is the first that cannot be served, and this is its code. */
  predicate FirstUnservable(m: map<Key, Cell>, unit: Byte, fc: Byte, start: nat, a: nat, timeout: Word, now: nat,
                            code: Byte) {
    && !Servable(m, Key(unit, fc, a), timeout, now)
    && (forall b :: start <= b < a ==> Servable(m, Key(unit, fc, b), timeout, now))
    && code == (if Key(unit, fc, a) in m then TARGET_FAILED else ILLEGAL_ADDRESS)
  }

  /** A read succeeds iff every address is present and fresh, and then returns the latest value of each... */
  lemma {:induction false} GatherMeans(pool: seq<Entry>, unit: Byte, fc: Byte, start: nat, count: nat, timeout: Word,
                                       now: nat)
    requires ValidPool(pool) && Readable(fc)
    ensures var g := Gather(pool, unit, fc, start, count, timeout, now);
            var m := AsMap(pool);
            && (g.Got? <==> forall a :: start <= a < start + count ==> Servable(m, Key(unit, fc, a), timeout, now))
            && (g.Got? ==> |g.values| == count && forall a :: start <= a < start + count ==>
                  g.values[a - start] == m[Key(unit, fc, a)].value)
    decreases count
  {
    if count > 0 {
      LookUpMeans(pool, Key(unit, fc, start), timeout, now);
      if Servable(AsMap(pool), Key(unit, fc, start), timeout, now) {
        GatherMeans(pool, unit, fc, start + 1, count - 1, timeout, now);
      }
    }
  }

  /** ...otherwise the first address that is not decides: absent is 0x02, stale is 0x0B. */
  lemma {:induction false} GatherFails(pool: seq<Entry>, unit: Byte, fc: Byte, start: nat, count: nat, timeout: Word,
                                       now: nat)
    returns (a: nat)
    requires ValidPool(pool) && Readable(fc) && Gather(pool, unit, fc, start, count, timeout, now).Failed?
    ensures start <= a < start + count
    ensures FirstUnservable(AsMap(pool), unit, fc, start, a, timeout, now,
            Gather(pool, unit, fc, start, count, timeout, now).code)
    decreases count
  {
    a := start;
    LookUpMeans(pool, Key(unit, fc, start), timeout, now);
    if Servable(AsMap(pool), Key(unit, fc, start), timeout, now) {
      a := GatherFails(pool, unit, fc, start + 1, count - 1, timeout, now);
    }
  }

  // ---- Payloads -----------------------------------------------------------------------------

  function RegisterBytes(vs: seq<Word>): (bytes: seq<Byte>)
    ensures |bytes| == 2 * |vs|
  {
    if vs == [] then [] else [HighByte(vs[0]), LowByte(vs[0])] + RegisterBytes(vs[1..])
  }

  lemma {:induction false} RegisterBytesAt(vs: seq<Word>, i: nat)
    requires i < |vs|
    ensures RegisterBytes(vs)[2 * i] == HighByte(vs[i]) && RegisterBytes(vs)[2 * i + 1] == LowByte(vs[i])
  {
    if i > 0 {
      RegisterBytesAt(vs[1..], i - 1);
    }
  }

  lemma {:induction false} WordFromBytes(w: Word)
    ensures BigEndian(HighByte(w), LowByte(w)) == w
  {
  }

  lemma {:induction false} BytesOfWord(hi: Byte, lo: Byte)
    ensures HighByte(BigEndian(hi, lo)) == hi && LowByte(BigEndian(hi, lo)) == lo
  {
  }

  /** A client that reads the registers out of a payload gets each value back. */
  lemma {:induction false} RegistersRoundTrip(vs: seq<Word>, fc: Byte, i: nat)
    requires IsRegisterTable(fc) && i < |vs|
    ensures ValueAt(fc, RegisterBytes(vs), i) == vs[i]
  {
    RegisterBytesAt(vs, i);
    WordFromBytes(vs[i]);
  }

  /** Register bytes overheard on the bus are the bytes served. */
  lemma {:induction false} RegistersServedVerbatim(fc: Byte, data: seq<Byte>, count: nat)
    requires IsRegisterTable(fc) && |data| == 2 * count
    ensures RegisterBytes(Values(fc, data, count)) == data
  {
    var vs := Values(fc, data, count);
    forall k | 0 <= k < |data|
      ensures RegisterBytes(vs)[k] == data[k]
    {
      var i := k / 2;
      RegisterBytesAt(vs, i);
      assert vs[i] == ValueAt(fc, data, i);
      BytesOfWord(data[i * 2], data[i * 2 + 1]);
    }
  }

  function Payload(fc: Byte, vs: seq<Word>): seq<Byte>
    requires Readable(fc) && |vs| <= MaxCount(fc) && (!IsRegisterTable(fc) ==> Coils(vs))
  {
    if IsRegisterTable(fc) then [(2 * |vs|) as Byte] + RegisterBytes(vs)
    else [((|vs| + 7) / 8) as Byte] + Pack(vs)
  }

  // ---- One request --------------------------------------------------------------------------

  /** modbus_tcp_check_request: the declared length is compared in sixteen bits. */
  predicate ValidRequest(f: seq<Byte>) {
    |f| >= 8 && BigEndian(f[2], f[3]) == 0 && (BigEndian(f[4], f[5]) + 6) % 0x10000 == |f|
  }

  lemma {:induction false} SixteenBits(field: Word, length: nat)
    requires length >= 8
    ensures (field + 6) % 0x10000 == length <==> length < 0x10000 && field + 6 == length
  {
  }

  /** In bytes: the sixteen bits do no harm, since what they wrap is too short to be a request. */
  lemma {:induction false} RequestInBytes(f: seq<Byte>)
    ensures ValidRequest(f) <==> 8 <= |f| < 65536 && f[2] == f[3] == 0 && f[4] as int * 256 + f[5] == |f| - 6
  {
    if |f| >= 8 {
      SixteenBits(BigEndian(f[4], f[5]), |f|);
    }
  }

  /** So of at most 300 bytes these are exactly the frames that the reassembler dispatches. */
  lemma {:induction false} DispatchedAreRequests(f: seq<Byte>)
    ensures |f| <= 300 ==> (ValidRequest(f) <==> Reassembly.WellFormed(f))
  {
    RequestInBytes(f);
    Reassembly.FrameInBytes(f);
  }

  /** What the lookup of an address finds; the pool is locked for one address at a time, so the next lookup may
      find another pool. */
  datatype Seen = Seen(pool: seq<Entry>, now: nat)

  /** The builders' loop when the pool changes between its lookups, given what each address is looked up in. */
  function GatherSeen(seen: nat -> Seen, unit: Byte, fc: Byte, start: nat, count: nat, timeout: Word): Gathered
    decreases count
  {
    if count == 0 then Got([])
    else
      match LookUp(seen(start).pool, Key(unit, fc, start), timeout, seen(start).now)
      case NotFound => Failed(ILLEGAL_ADDRESS)
      case Stale => Failed(TARGET_FAILED)
      case Found(v) => Prepend([v], GatherSeen(seen, unit, fc, start + 1, count - 1, timeout))
  }

  /** With one pool for all lookups it is the loop above. */
  lemma {:induction false} GatherIsSeen(seen: nat -> Seen, pool: seq<Entry>, unit: Byte, fc: Byte, start: nat,
                                        count: nat, timeout: Word, now: nat)
    requires forall b: nat :: seen(b) == Seen(pool, now)
    ensures GatherSeen(seen, unit, fc, start, count, timeout) == Gather(pool, unit, fc, start, count, timeout, now)
    decreases count
  {
    if count > 0 {
      assert seen(start) == Seen(pool, now);
      GatherIsSeen(seen, pool, unit, fc, start + 1, count - 1, timeout, now);
    }
  }

  /** Address b can be served when it is looked up. */
  predicate ServableThen(seen: nat -> Seen, unit: Byte, fc: Byte, b: nat, timeout: Word) {
    Servable(AsMap(seen(b).pool), Key(unit, fc, b), timeout, seen(b).now)
  }

  /** The pool holds this value at address b. */
  predicate Holds(seen: Seen, unit: Byte, fc: Byte, b: nat, v: Word) {
    Key(unit, fc, b) in AsMap(seen.pool) && AsMap(seen.pool)[Key(unit, fc, b)].value == v
  }

  predicate AllServable(seen: nat -> Seen, unit: Byte, fc: Byte, start: nat, count: nat, timeout: Word) {
    forall b :: start <= b < start + count ==> ServableThen(seen, unit, fc, b, timeout)
  }

  /** Each value is what the pool held at its address when that was looked up. */
  predicate AllHeld(seen: nat -> Seen, unit: Byte, fc: Byte, start: nat, values: seq<Word>) {
    forall b :: start <= b < start + |values| ==> Holds(seen(b), unit, fc, b, values[b - start])
  }

  lemma {:induction false} ServableStep(seen: nat -> Seen, unit: Byte, fc: Byte, start: nat, count: nat, timeout: Word)
    requires count > 0
    ensures AllServable(seen, unit, fc, start, count, timeout) <==>
            ServableThen(seen, unit, fc, start, timeout) && AllServable(seen, unit, fc, start + 1, count - 1, timeout)
  {
  }

  lemma {:induction false} HeldStep(seen: nat -> Seen, unit: Byte, fc: Byte, start: nat, v: Word, rest: seq<Word>)
    requires Holds(seen(start), unit, fc, start, v) && AllHeld(seen, unit, fc, start + 1, rest)
    ensures AllHeld(seen, unit, fc, start, [v] + rest)
  {
    forall b | start <= b < start + 1 + |rest|
      ensures Holds(seen(b), unit, fc, b, ([v] + rest)[b - start])
    {
      if b > start {
        assert ([v] + rest)[b - start] == rest[b - (start + 1)];
      }
    }
  }

  lemma {:induction false} SeenMeans(seen: nat -> Seen, unit: Byte, fc: Byte, start: nat, count: nat, timeout: Word)
    requires Readable(fc) && forall b: nat :: ValidPool(seen(b).pool)
    ensures var g := GatherSeen(seen, unit, fc, start, count, timeout);
            && (g.Got? <==> AllServable(seen, unit, fc, start, count, timeout))
            && (g.Got? ==> |g.values| == count && AllHeld(seen, unit, fc, start, g.values))
            && (g.Failed? ==> g.code == ILLEGAL_ADDRESS || g.code == TARGET_FAILED)
    decreases count
  {
    if count > 0 {
      SeenFirst(seen, unit, fc, start, count, timeout);
      ServableStep(seen, unit, fc, start, count, timeout);
      if ServableThen(seen, unit, fc, start, timeout) {
        SeenMeans(seen, unit, fc, start + 1, count - 1, timeout);
        var rest := GatherSeen(seen, unit, fc, start + 1, count - 1, timeout);
        if rest.Got? {
          HeldStep(seen, unit, fc, start, AsMap(seen(start).pool)[Key(unit, fc, start)].value, rest.values);
        }
      }
    }
  }

  lemma {:induction false} SeenFirst(seen: nat -> Seen, unit: Byte, fc: Byte, start: nat, count: nat, timeout: Word)
    requires Readable(fc) && count > 0 && ValidPool(seen(start).pool)
    ensures var g := GatherSeen(seen, unit, fc, start, count, timeout);
            if ServableThen(seen, unit, fc, start, timeout) then
              var v := AsMap(seen(start).pool)[Key(unit, fc, start)].value;
              g == Prepend([v], GatherSeen(seen, unit, fc, start + 1, count - 1, timeout))
            else g == Failed(ILLEGAL_ADDRESS) || g == Failed(TARGET_FAILED)
  {
    LookUpMeans(seen(start).pool, Key(unit, fc, start), timeout, seen(start).now);
  }

  // ---- The gateway's own registers ----------------------------------------------------------

  /** The register map of the gateway itself; what is not listed, the bootloader field at 330 for one, is not there. */
  predicate OwnRegister(b: nat) {
    || b == 104 || b == 105 || b == 121 || 200 <= b < 245 || 250 <= b < 272 || 290 <= b < 302
    || 320 <= b < 328 || 528 <= b < 535 || 65505 <= b < 65509
  }

  /** The loop of mb_device_build_read_response, given what each register holds when it is read. */
  function OwnValues(value: nat -> Word, start: nat, count: nat): Gathered
    decreases count
  {
    if count == 0 then Got([])
    else if !OwnRegister(start) then Failed(ILLEGAL_ADDRESS)
    else Prepend([value(start)], OwnValues(value, start + 1, count - 1))
  }

  predicate AllOwn(start: nat, count: nat) {
    forall b :: start <= b < start + count ==> OwnRegister(b)
  }

  function ValuesFrom(value: nat -> Word, start: nat, count: nat): seq<Word> {
    seq(count, i requires 0 <= i < count => value(start + i))
  }

  lemma {:induction false} OwnStep(value: nat -> Word, start: nat, count: nat)
    requires count > 0
    ensures AllOwn(start, count) <==> OwnRegister(start) && AllOwn(start + 1, count - 1)
    ensures ValuesFrom(value, start, count) == [value(start)] + ValuesFrom(value, start + 1, count - 1)
  {
  }

  lemma {:induction false} OwnMeans(value: nat -> Word, start: nat, count: nat)
    ensures OwnValues(value, start, count) ==
            if AllOwn(start, count) then Got(ValuesFrom(value, start, count)) else Failed(ILLEGAL_ADDRESS)
    decreases count
  {
    if count > 0 {
      OwnStep(value, start, count);
      OwnMeans(value, start + 1, count - 1);
    }
  }

  // ---- Every frame --------------------------------------------------------------------------

  datatype Answer = Ignored | Exception(code: Byte) | Read(values: seq<Word>)

  function Answered(g: Gathered): Answer {
    match g
    case Failed(code) => Exception(code)
    case Got(values) => Read(values)
  }

  /** mb_device_handle_self_request. */
  function HandleSelf(f: seq<Byte>, value: nat -> Word): Answer
    requires |f| >= 8
  {
    if !IsRegisterTable(f[7]) then Exception(ILLEGAL_FUNCTION)
    else if |f| < 12 then Exception(ILLEGAL_DATA_VALUE)
    else
      var start, count := BigEndian(f[8], f[9]), BigEndian(f[10], f[11]);
      if count < 1 || count > MAX_REGISTERS then Exception(ILLEGAL_DATA_VALUE)
      else if start + count > 0x10000 then Exception(ILLEGAL_ADDRESS)
      else Answered(OwnValues(value, start, count))
  }

  /** process_one_frame: `seen` is what the lookup of each address finds, `value` what each of the gateway's own
      registers holds when it is read. */
  function Handle(f: seq<Byte>, enabled: bool, seen: nat -> Seen, timeout: Word, value: nat -> Word): Answer {
    if !ValidRequest(f) then Ignored
    else if f[6] == SELF_UNIT then HandleSelf(f, value)
    else if !enabled then Exception(ILLEGAL_ADDRESS)
    else if !Readable(f[7]) then Exception(ILLEGAL_FUNCTION)
    else if |f| < 12 then Exception(ILLEGAL_FUNCTION)
    else
      var start, count := BigEndian(f[8], f[9]), BigEndian(f[10], f[11]);
      if count == 0 || count > MaxCount(f[7]) then Exception(ILLEGAL_DATA_VALUE)
      else if start + count > 0x10000 then Exception(ILLEGAL_ADDRESS)
      else Answered(GatherSeen(seen, f[6], f[7], start, count, timeout))
  }

  /** A read of a slave's table. */
  predicate AddressedRead(f: seq<Byte>) {
    ValidRequest(f) && f[6] != SELF_UNIT && Readable(f[7]) && |f| >= 12
  }

  /** A read of the gateway's own registers. */
  predicate SelfRead(f: seq<Byte>) {
    ValidRequest(f) && f[6] == SELF_UNIT && IsRegisterTable(f[7]) && |f| >= 12
  }

  predicate LegalCount(f: seq<Byte>, most: nat)
    requires |f| >= 12
  {
    1 <= BigEndian(f[10], f[11]) <= most
  }

  /** Which frames are not answered, and what the first and the third exception code tell the client, over every
      frame and both kinds of unit. */
  lemma {:induction false} ExceptionsMean(f: seq<Byte>, enabled: bool, seen: nat -> Seen, timeout: Word,
                                          value: nat -> Word)
    requires forall b: nat :: ValidPool(seen(b).pool)
    ensures Handle(f, enabled, seen, timeout, value) == Ignored <==> !ValidRequest(f)
    ensures Handle(f, enabled, seen, timeout, value) == Exception(ILLEGAL_FUNCTION) <==>
            ValidRequest(f) && if f[6] == SELF_UNIT then !IsRegisterTable(f[7])
                               else enabled && (!Readable(f[7]) || |f| < 12)
    ensures Handle(f, enabled, seen, timeout, value) == Exception(ILLEGAL_DATA_VALUE) <==>
            ValidRequest(f) && if f[6] == SELF_UNIT
                               then IsRegisterTable(f[7]) && (|f| < 12 || !LegalCount(f, MAX_REGISTERS))
                               else enabled && AddressedRead(f) && !LegalCount(f, MaxCount(f[7]))
  {
    if AddressedRead(f) {
      SeenMeans(seen, f[6], f[7], BigEndian(f[8], f[9]), BigEndian(f[10], f[11]), timeout);
    } else if SelfRead(f) {
      OwnMeans(value, BigEndian(f[8], f[9]), BigEndian(f[10], f[11]));
    }
  }

  /** Over every frame to a slave, with the pool changing between the lookups: a read is answered iff it is a
      legal read and every address is cached and fresh when it is looked up, and the answer is the latest value
      of each at that moment. */
  lemma {:induction false} ReadsMean(f: seq<Byte>, enabled: bool, seen: nat -> Seen, timeout: Word, value: nat -> Word)
    requires AddressedRead(f) && forall b: nat :: ValidPool(seen(b).pool)
    ensures var a := Handle(f, enabled, seen, timeout, value);
            var start, count := BigEndian(f[8], f[9]), BigEndian(f[10], f[11]);
            && (a.Read? <==>
                  && enabled
                  && Cacheable(f[7], start, count)
                  && AllServable(seen, f[6], f[7], start, count, timeout))
            && (a.Read? ==> |a.values| == count && AllHeld(seen, f[6], f[7], start, a.values))
  {
    SeenMeans(seen, f[6], f[7], BigEndian(f[8], f[9]), BigEndian(f[10], f[11]), timeout);
  }

  /** And over every frame to the gateway itself, whatever the cache: a read is answered iff it is a legal read and
      every address of the range is one of its own registers, with what each of them holds. */
  lemma {:induction false} SelfReadsMean(f: seq<Byte>, enabled: bool, seen: nat -> Seen, timeout: Word,
                                         value: nat -> Word)
    requires SelfRead(f)
    ensures var start, count := BigEndian(f[8], f[9]), BigEndian(f[10], f[11]);
            Handle(f, enabled, seen, timeout, value) ==
            if !LegalCount(f, MAX_REGISTERS) then Exception(ILLEGAL_DATA_VALUE)
            else if start + count <= 0x10000 && AllOwn(start, count) then Read(ValuesFrom(value, start, count))
            else Exception(ILLEGAL_ADDRESS)
  {
    OwnMeans(value, BigEndian(f[8], f[9]), BigEndian(f[10], f[11]));
  }

  // ---- The register builder's loop ----------------------------------------------------------

  /** The loop has gathered `values` and has the rest of the range to go. */
  ghost predicate GatheredSoFar(pool: seq<Entry>, unit: Byte, fc: Byte, start: nat, count: nat, timeout: Word,
                                now: nat, values: seq<Word>) {
    |values| <= count &&
    Gather(pool, unit, fc, start, count, timeout, now) ==
    Prepend(values, Gather(pool, unit, fc, start + |values|, count - |values|, timeout, now))
  }

  lemma {:induction false} GatherOneMore(pool: seq<Entry>, unit: Byte, fc: Byte, start: nat, count: nat,
                                         timeout: Word, now: nat, values: seq<Word>, v: Word)
    requires GatheredSoFar(pool, unit, fc, start, count, timeout, now, values) && |values| < count
    requires LookUp(pool, Key(unit, fc, start + |values|), timeout, now) == Found(v)
    ensures GatheredSoFar(pool, unit, fc, start, count, timeout, now, values + [v])
  {
    PrependOneMore(values, v, Gather(pool, unit, fc, start + |values| + 1, count - |values| - 1, timeout, now));
  }

  method BuildRegisterPayload(pool: seq<Entry>, unit: Byte, fc: Byte, start: Word, count: Word, timeout: Word, now: nat)
    returns (code: Byte, payload: seq<Byte>, ghost values: seq<Word>)
    requires IsRegisterTable(fc) && 0 < count <= MAX_REGISTERS
    ensures start + count > 0x10000 ==> code == ILLEGAL_ADDRESS
    ensures start + count <= 0x10000 ==>
            Gather(pool, unit, fc, start, count, timeout, now) == if code == 0 then Got(values) else Failed(code)
    ensures code == 0 ==> |values| == count && payload == Payload(fc, values)
  {
    values, payload := [], [];
    if start + count > 0x10000 {
      return ILLEGAL_ADDRESS, [], [];
    }
    var bytes: seq<Byte> := [];
    for i := 0 to count
      invariant |values| == i && bytes == RegisterBytes(values)
      invariant GatheredSoFar(pool, unit, fc, start, count, timeout, now, values)
    {
      var found := LookUp(pool, Key(unit, fc, start + i), timeout, now);
      match found {
        case NotFound => return ILLEGAL_ADDRESS, [], values;
        case Stale => return TARGET_FAILED, [], values;
        case Found(v) =>
          GatherOneMore(pool, unit, fc, start, count, timeout, now, values, v);
          RegisterBytesAppend(values, v);
          values := values + [v];
          bytes := bytes + [HighByte(v), LowByte(v)];
      }
    }
    assert values + [] == values;
    return 0, [(2 * count) as Byte] + bytes, values;
  }

  function Prepend(vs: seq<Word>, g: Gathered): Gathered {
    match g
    case Failed(code) => Failed(code)
    case Got(ws) => Got(vs + ws)
  }

  lemma {:induction false} PrependOneMore(vs: seq<Word>, v: Word, g: Gathered)
    ensures Prepend(vs + [v], g) == Prepend(vs, Prepend([v], g))
  {
  }

  lemma {:induction false} RegisterBytesAppend(vs: seq<Word>, v: Word)
    ensures RegisterBytes(vs + [v]) == RegisterBytes(vs) + [HighByte(v), LowByte(v)]
  {
    if vs == [] {
      assert vs + [v] == [v];
      assert [v][1..] == [];
    } else {
      assert (vs + [v])[1..] == vs[1..] + [v];
      RegisterBytesAppend(vs[1..], v);
    }
  }

  // ---- From the bus to the client -----------------------------------------------------------

  /** The frame is a reply that carries these data bytes and declares their number. */
  predicate Carries(frame: seq<Byte>, data: seq<Byte>) {
    |frame| >= 3 + |data| && frame[2] == |data| && frame[3..3 + |data|] == data
  }

  /** An exchange overheard in full is served back: the same values, to a client that reads the same range
      before they expire. */
  lemma {:induction false} OverheardThenRead(c: Cache, slave: Byte, fc: Byte, start: Word, count: Word,
                                             frame: seq<Byte>, data: seq<Byte>,
                          now: nat, later: nat, timeout: Word)
    requires ValidPool(c.pool) && Cacheable(fc, start, count)
    requires |data| == ExpectedBytes(fc, count) && Carries(frame, data)
    requires |Latest(AsMap(c.pool), slave, fc, start, Values(fc, data, count), now)| <= MAX_ENTRIES
    requires timeout > 0 ==> Age(later, now) < timeout
    ensures var heard := Step(Step(c, Request(slave, fc, start, count)), Response(slave, fc, frame, now));
            Gather(heard.pool, slave, fc, start, count, timeout, later) == Got(Values(fc, data, count))
  {
    var values := Values(fc, data, count);
    HeardIsStored(c, slave, fc, start, count, frame, data, now);
    StoreAllExactly(c.pool, slave, fc, start, values, now);
    GatherLatest(StoreAll(c.pool, slave, fc, start, values, now), AsMap(c.pool), slave, fc, start, values, now, later,
        timeout);
  }

  lemma {:induction false} GatherLatest(pool: seq<Entry>, m: map<Key, Cell>, slave: Byte, fc: Byte, start: nat,
                                        values: seq<Word>,
                     now: nat, later: nat, timeout: Word)
    requires ValidPool(pool) && Readable(fc) && AsMap(pool) == Latest(m, slave, fc, start, values, now)
    requires timeout > 0 ==> Age(later, now) < timeout
    ensures Gather(pool, slave, fc, start, |values|, timeout, later) == Got(values)
  {
    GatherMeans(pool, slave, fc, start, |values|, timeout, later);
    forall a | start <= a < start + |values|
      ensures Key(slave, fc, a) in AsMap(pool) && AsMap(pool)[Key(slave, fc, a)] == Cell(values[a - start], now)
    {
      LatestMeans(m, slave, fc, start, values, now, Key(slave, fc, a));
    }
    var g := Gather(pool, slave, fc, start, |values|, timeout, later);
    forall i | 0 <= i < |values|
      ensures g.values[i] == values[i]
    {
      var key := Key(slave, fc, start + i);
      assert key in AsMap(pool) && g.values[start + i - start] == AsMap(pool)[key].value;
    }
  }

  lemma {:induction false} HeardIsStored(c: Cache, slave: Byte, fc: Byte, start: Word, count: Word, frame: seq<Byte>,
                                         data: seq<Byte>, now: nat)
    requires Cacheable(fc, start, count) && |data| == ExpectedBytes(fc, count) && Carries(frame, data)
    ensures Step(Step(c, Request(slave, fc, start, count)), Response(slave, fc, frame, now)).pool ==
            StoreAll(c.pool, slave, fc, start, Values(fc, data, count), now)
  {
  }

  /** The data bytes served are the data bytes overheard, except that coils come back with clean padding. */
  lemma {:induction false} PayloadVerbatim(fc: Byte, data: seq<Byte>, count: nat)
    requires Readable(fc) && 0 < count <= MaxCount(fc) && |data| == ExpectedBytes(fc, count)
    ensures !IsRegisterTable(fc) ==> Coils(Values(fc, data, count))
    ensures Payload(fc, Values(fc, data, count)) == [|data| as Byte] + data <==>
            IsRegisterTable(fc) || CleanPadding(data, count)
  {
    var vs := Values(fc, data, count);
    if IsRegisterTable(fc) {
      RegistersServedVerbatim(fc, data, count);
    } else {
      PackUnpackExactly(fc, data, count);
      assert Payload(fc, vs)[1..] == Pack(vs);
      assert ([|data| as Byte] + data)[1..] == data;
    }
  }
}

/** Coils in a response are packed eight to a byte, lowest bit first. */
module CoilPacking {
  import opened Bytes
  import opened RegisterCache

  predicate Coils(vs: seq<Word>) {
    forall i :: 0 <= i < |vs| ==> vs[i] <= 1
  }

  function PowerOfTwo(j: nat): (p: nat)
    ensures p >= 1
  {
    if j == 0 then 1 else 2 * PowerOfTwo(j - 1)
  }

  /** Up to eight coils in one byte. */
  function PackBits(vs: seq<Word>): (b: nat)
    requires Coils(vs)
    ensures b < PowerOfTwo(|vs|)
  {
    if vs == [] then 0 else vs[0] + 2 * PackBits(vs[1..])
  }

  lemma {:induction false} ByteRange(n: nat)
    requires n <= 8
    ensures PowerOfTwo(n) <= 256
  {
    ByteIsEightBits();
    Increasing(n, 8);
  }

  lemma {:induction false} Increasing(m: nat, n: nat)
    requires m <= n
    ensures PowerOfTwo(m) <= PowerOfTwo(n)
    decreases n
  {
    if m < n {
      Increasing(m, n - 1);
    }
  }

  function PackByte(vs: seq<Word>): Byte
    requires Coils(vs) && |vs| <= 8
  {
    ByteRange(|vs|);
    PackBits(vs)
  }

  function Pack(vs: seq<Word>): (bytes: seq<Byte>)
    requires Coils(vs)
    ensures |bytes| == (|vs| + 7) / 8
  {
    if vs == [] then []
    else if |vs| <= 8 then [PackByte(vs)]
    else [PackByte(vs[..8])] + Pack(vs[8..])
  }

  // ---- Packing and unpacking undo each other -------------------------------------------------

  lemma {:induction false} PackedBit(vs: seq<Word>, j: nat)
    requires Coils(vs)
    ensures Bit(PackBits(vs), j) == if j < |vs| then vs[j] else 0
    decreases j
  {
    if vs == [] {
      BitOfZero(j);
    } else {
      LowBitFirst(vs[0], PackBits(vs[1..]));
      if j > 0 {
        PackedBit(vs[1..], j - 1);
      }
    }
  }

  lemma {:induction false} LowBitFirst(b: nat, rest: nat)
    requires b <= 1
    ensures (b + 2 * rest) % 2 == b && (b + 2 * rest) / 2 == rest
  {
  }

  lemma {:induction false} BitOfZero(j: nat)
    ensures Bit(0, j) == 0
  {
    if j > 0 {
      BitOfZero(j - 1);
    }
  }

  /** Every coil comes back, and the padding of the last byte is zero. */
  lemma {:induction false} PackThenRead(vs: seq<Word>, i: nat)
    requires Coils(vs) && i / 8 < |Pack(vs)|
    ensures Bit(Pack(vs)[i / 8], i % 8) == if i < |vs| then vs[i] else 0
    decreases |vs|
  {
    if |vs| <= 8 {
      PackedBit(vs, i % 8);
    } else if i < 8 {
      PackedBit(vs[..8], i);
    } else {
      EightBack(i);
      PackThenRead(vs[8..], i - 8);
    }
  }

  lemma {:induction false} EightBack(i: nat)
    requires i >= 8
    ensures (i - 8) / 8 == i / 8 - 1 && (i - 8) % 8 == i % 8
  {
  }

  /** A client that unpacks what was packed gets the coils back, whatever their number. */
  lemma {:induction false} UnpackPack(vs: seq<Word>, fc: Byte)
    requires Coils(vs) && !IsRegisterTable(fc)
    ensures Values(fc, Pack(vs), |vs|) == vs
  {
    forall i | 0 <= i < |vs|
      ensures Values(fc, Pack(vs), |vs|)[i] == vs[i]
    {
      PackThenRead(vs, i);
    }
  }

  lemma {:induction false} BitsDetermine(a: nat, b: nat, n: nat)
    requires a < PowerOfTwo(n) && b < PowerOfTwo(n)
    requires forall j :: 0 <= j < n ==> Bit(a, j) == Bit(b, j)
    ensures a == b
  {
    if n > 0 {
      assert Bit(a, 0) == Bit(b, 0);
      forall j | 0 <= j < n - 1
        ensures Bit(a / 2, j) == Bit(b / 2, j)
      {
        assert Bit(a, j + 1) == Bit(b, j + 1);
      }
      BitsDetermine(a / 2, b / 2, n - 1);
    }
  }

  /** The unused high bits of the last byte. */
  predicate CleanPadding(data: seq<Byte>, count: nat) {
    forall i :: count <= i < 8 * |data| ==> Bit(data[i / 8], i % 8) == 0
  }

  lemma {:induction false} SameBytes(a: seq<Byte>, b: seq<Byte>)
    requires |a| == |b| && forall i :: 0 <= i < 8 * |a| ==> Bit(a[i / 8], i % 8) == Bit(b[i / 8], i % 8)
    ensures a == b
  {
    ByteIsEightBits();
    forall k | 0 <= k < |a|
      ensures a[k] == b[k]
    {
      forall j | 0 <= j < 8
        ensures Bit(a[k], j) == Bit(b[k], j)
      {
        assert (8 * k + j) / 8 == k && (8 * k + j) % 8 == j;
      }
      BitsDetermine(a[k], b[k], 8);
    }
  }

  /** The bytes a slave sent are served back unchanged exactly when their padding was clean. */
  lemma {:induction false} PackUnpackExactly(fc: Byte, data: seq<Byte>, count: nat)
    requires !IsRegisterTable(fc) && |data| == (count + 7) / 8
    ensures Coils(Values(fc, data, count))
    ensures Pack(Values(fc, data, count)) == data <==> CleanPadding(data, count)
  {
    var vs := Values(fc, data, count);
    forall i | 0 <= i < 8 * |data|
      ensures Bit(Pack(vs)[i / 8], i % 8) == if i < count then Bit(data[i / 8], i % 8) else 0
    {
      PackThenRead(vs, i);
    }
    if CleanPadding(data, count) {
      SameBytes(Pack(vs), data);
    }
  }

  // ---- Packing in place ----------------------------------------------------------------------

  /** b with bit j set. */
  function SetBit(b: nat, j: nat): nat {
    if Bit(b, j) == 1 then b else b + PowerOfTwo(j)
  }

  lemma {:induction false} SetBitBits(b: nat, j: nat, k: nat)
    ensures Bit(SetBit(b, j), k) == if k == j then 1 else Bit(b, k)
    decreases j
  {
    if j > 0 {
      SetBitHalves(b, j);
      if k > 0 {
        SetBitBits(b / 2, j - 1, k - 1);
      }
    } else if k > 0 && b % 2 == 0 {
      assert (b + 1) / 2 == b / 2;
    }
  }

  lemma {:induction false} SetBitHalves(b: nat, j: nat)
    requires j > 0
    ensures SetBit(b, j) / 2 == SetBit(b / 2, j - 1) && SetBit(b, j) % 2 == b % 2
  {
  }

  lemma {:induction false} SetBitRange(b: nat, j: nat, n: nat)
    requires b < PowerOfTwo(n) && j < n
    ensures SetBit(b, j) < PowerOfTwo(n)
  {
    if j > 0 {
      SetBitHalves(b, j);
      SetBitRange(b / 2, j - 1, n - 1);
    } else {
      assert PowerOfTwo(n) == 2 * PowerOfTwo(n - 1);
    }
  }

  /** Bytes hold exactly the first n coils, everything else clear. */
  predicate HoldsPrefix(bytes: seq<Byte>, vs: seq<Word>, n: nat)
    requires n <= |vs|
  {
    forall i :: 0 <= i < 8 * |bytes| ==> Bit(bytes[i / 8], i % 8) == if i < n then vs[i] else 0
  }

  /** The builder's loop: a cleared buffer, one bit set per coil that is on. */
  method PackInPlace(vs: seq<Word>) returns (bytes: seq<Byte>)
    requires Coils(vs)
    ensures bytes == Pack(vs)
  {
    var payload := new Byte[(|vs| + 7) / 8](_ => 0);
    forall i | 0 <= i < 8 * payload.Length
      ensures Bit(payload[i / 8], i % 8) == 0
    {
      BitOfZero(i % 8);
    }
    for i := 0 to |vs|
      invariant HoldsPrefix(payload[..], vs, i)
    {
      ghost var before := payload[..];
      if vs[i] != 0 {
        payload[i / 8] := OrBit(payload[i / 8], i % 8);
      }
      HoldsOneMore(before, payload[..], vs, i);
    }
    bytes := payload[..];
    forall i | 0 <= i < 8 * |bytes|
      ensures Bit(bytes[i / 8], i % 8) == Bit(Pack(vs)[i / 8], i % 8)
    {
      PackThenRead(vs, i);
    }
    SameBytes(bytes, Pack(vs));
  }

  function OrBit(b: Byte, j: nat): Byte
    requires j < 8
  {
    ByteIsEightBits();
    SetBitRange(b, j, 8);
    SetBit(b, j)
  }

  lemma {:induction false} ByteIsEightBits()
    ensures PowerOfTwo(8) == 256
  {
  }

  lemma {:induction false} HoldsOneMore(before: seq<Byte>, after: seq<Byte>, vs: seq<Word>, n: nat)
    requires n < |vs| && Coils(vs) && |before| == (|vs| + 7) / 8 && HoldsPrefix(before, vs, n)
    requires after == if vs[n] != 0 then before[n / 8 := OrBit(before[n / 8], n % 8)] else before
    ensures HoldsPrefix(after, vs, n + 1)
  {
    forall i | 0 <= i < 8 * |after|
      ensures Bit(after[i / 8], i % 8) == if i < n + 1 then vs[i] else 0
    {
      assert Bit(before[i / 8], i % 8) == if i < n then vs[i] else 0;
      SetBitBits(before[n / 8], n % 8, i % 8);
    }
  }
}

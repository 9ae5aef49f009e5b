/** The Modbus RTU checksum (main/bridge/modbus_helpers.c) and what it says about frame boundaries. */
module Crc {
  /** A byte on the RS-485 wire. */
  type Octet = x: bv16 | x < 256

  const SEED: bv16 := 0xFFFF
  const POLYNOMIAL: bv16 := 0xA001

  function ShiftStep(crc: bv16): bv16 {
    if crc & 1 == 1 then (crc >> 1) ^ POLYNOMIAL else crc >> 1
  }

  function Shift4(crc: bv16): bv16 {
    ShiftStep(ShiftStep(ShiftStep(ShiftStep(crc))))
  }

  function Shift8(crc: bv16): bv16 {
    Shift4(Shift4(crc))
  }

  function Absorb(crc: bv16, b: Octet): bv16 {
    Shift8(crc ^ b)
  }

  /** The checksum register after a run of bytes. */
  function Register(crc: bv16, s: seq<Octet>): bv16
    decreases |s|
  {
    if s == [] then crc else Register(Absorb(crc, s[0]), s[1..])
  }

  function Crc16(s: seq<Octet>): bv16 {
    Register(SEED, s)
  }

  function Low(crc: bv16): Octet {
    crc & 0xFF
  }

  function High(crc: bv16): Octet {
    crc >> 8
  }

  /** crc_check: at least four bytes, the last two being the checksum of the rest, low byte first. */
  predicate FrameOk(f: seq<Octet>) {
    |f| >= 4 && f[|f| - 2] == Low(Crc16(f[..|f| - 2])) && f[|f| - 1] == High(Crc16(f[..|f| - 2]))
  }

  function Seal(body: seq<Octet>): (f: seq<Octet>)
    requires |body| >= 2
    ensures FrameOk(f) && |f| == |body| + 2 && f[..|body|] == body
  {
    var f := body + [Low(Crc16(body)), High(Crc16(body))];
    assert f[..|f| - 2] == body;
    f
  }

  /** One byte of the shift loop, bit by bit. */
  method AbsorbBits(crc: bv16, b: Octet) returns (out: bv16)
    ensures out == Absorb(crc, b)
  {
    out := crc ^ b;
    ghost var before := out;
    for i := 0 to 8
      invariant out == ShiftTimes(before, i)
    {
      if out & 1 == 1 {
        out := (out >> 1) ^ POLYNOMIAL;
      } else {
        out := out >> 1;
      }
    }
    EightShifts(before);
  }

  function ShiftTimes(crc: bv16, n: nat): bv16
    decreases n
  {
    if n == 0 then crc else ShiftStep(ShiftTimes(crc, n - 1))
  }

  lemma {:induction false} EightShifts(crc: bv16)
    ensures ShiftTimes(crc, 8) == Shift8(crc)
  {
  }

  method ComputeCrc(data: seq<Octet>) returns (crc: bv16)
    ensures crc == Crc16(data)
  {
    crc := SEED;
    for pos := 0 to |data|
      invariant Register(crc, data[pos..]) == Crc16(data)
    {
      assert data[pos..][1..] == data[pos + 1..];
      crc := AbsorbBits(crc, data[pos]);
    }
  }

  // ---- The residue --------------------------------------------------------------------------

  lemma {:induction false} Shift4Injective(a: bv16, b: bv16)
    requires Shift4(a) == Shift4(b)
    ensures a == b
  {
  }

  lemma {:induction false} Shift8Injective(a: bv16, b: bv16)
    requires Shift8(a) == Shift8(b)
    ensures a == b
  {
    Shift4Injective(Shift4(a), Shift4(b));
    Shift4Injective(a, b);
  }

  lemma {:induction false} RegisterInjective(a: bv16, b: bv16, s: seq<Octet>)
    requires Register(a, s) == Register(b, s)
    ensures a == b
    decreases |s|
  {
    if s != [] {
      RegisterInjective(Absorb(a, s[0]), Absorb(b, s[0]), s[1..]);
      Shift8Injective(a ^ s[0], b ^ s[0]);
    }
  }

  lemma {:induction false} RegisterConcat(crc: bv16, s: seq<Octet>, t: seq<Octet>)
    ensures Register(crc, s + t) == Register(Register(crc, s), t)
    decreases |s|
  {
    if s == [] {
      assert s + t == t;
    } else {
      assert (s + t)[1..] == s[1..] + t;
      RegisterConcat(Absorb(crc, s[0]), s[1..], t);
    }
  }

  lemma {:induction false} ShiftZero(x: bv16)
    ensures Shift8(x) == 0 <==> x == 0
  {
  }

  /** The high half of a shifted register vanishes exactly when its low half was zero. */
  lemma {:induction false} ShiftHalf(x: bv16, b: Octet)
    ensures Shift8(x) == b <==> x & 0xFF == 0 && x >> 8 == b
  {
  }

  lemma {:induction false} XorLow(crc: bv16, a: Octet)
    ensures (crc ^ a) & 0xFF == 0 <==> crc & 0xFF == a
  {
  }

  lemma {:induction false} XorHigh(crc: bv16, a: Octet)
    ensures (crc ^ a) >> 8 == crc >> 8
  {
  }

  lemma {:induction false} XorZero(x: bv16, y: bv16)
    ensures x ^ y == 0 <==> x == y
  {
  }

  /** Absorbing two bytes brings the register to zero exactly when they are its low and high byte. */
  lemma {:induction false} Residue(crc: bv16, a: Octet, b: Octet)
    ensures Absorb(Absorb(crc, a), b) == 0 <==> a == Low(crc) && b == High(crc)
  {
    var x := Absorb(crc, a);
    ShiftZero(x ^ b);
    XorZero(x, b);
    ShiftHalf(crc ^ a, b);
    XorLow(crc, a);
    XorHigh(crc, a);
  }

  /** A frame is intact exactly when the checksum of the whole of it is zero. */
  lemma {:induction false} FrameOkIsResidue(f: seq<Octet>)
    requires |f| >= 4
    ensures FrameOk(f) <==> Crc16(f) == 0
  {
    var n := |f| - 2;
    var body, a, b := f[..n], f[n], f[n + 1];
    assert f == body + [a, b];
    RegisterConcat(SEED, body, [a, b]);
    var crc := Crc16(body);
    assert [a, b][1..] == [b] && [b][1..] == [];
    assert Register(crc, [a, b]) == Register(Absorb(crc, a), [b]) == Absorb(Absorb(crc, a), b);
    Residue(crc, a, b);
  }

  /** Two intact frames in one buffer never pass as one: a request glued to its reply is always noticed. */
  lemma {:induction false} GluedFramesAreNoticed(f: seq<Octet>, g: seq<Octet>)
    requires FrameOk(f) && FrameOk(g)
    ensures !FrameOk(f + g)
  {
    FrameOkIsResidue(f);
    FrameOkIsResidue(g);
    FrameOkIsResidue(f + g);
    RegisterConcat(SEED, f, g);
    if Register(0, g) == 0 {
      RegisterInjective(0, SEED, g);
    }
  }

  lemma {:induction false} RegisterAt(crc: bv16, head: seq<Octet>, b: Octet, tail: seq<Octet>)
    ensures Register(crc, head + ([b] + tail)) == Register(Absorb(Register(crc, head), b), tail)
  {
    RegisterConcat(crc, head, [b] + tail);
    assert ([b] + tail)[1..] == tail;
  }

  lemma {:induction false} AbsorbInjective(crc: bv16, a: Octet, b: Octet)
    requires Absorb(crc, a) == Absorb(crc, b)
    ensures a == b
  {
    Shift8Injective(crc ^ a, crc ^ b);
  }

  /** An intact frame with one byte altered is never intact. */
  lemma {:induction false} AlteredByteIsNoticed(head: seq<Octet>, was: Octet, now: Octet, tail: seq<Octet>)
    requires FrameOk(head + ([was] + tail)) && now != was
    ensures !FrameOk(head + ([now] + tail))
  {
    FrameOkIsResidue(head + ([was] + tail));
    FrameOkIsResidue(head + ([now] + tail));
    RegisterAt(SEED, head, was, tail);
    RegisterAt(SEED, head, now, tail);
    var crc := Register(SEED, head);
    if Register(Absorb(crc, now), tail) == 0 {
      RegisterInjective(Absorb(crc, was), Absorb(crc, now), tail);
      AbsorbInjective(crc, was, now);
    }
  }
}

/** Byte strings, big-endian words and sequence flattening shared by every wire-format module. */
module Bytes {

  type Byte = x: int | 0 <= x < 256

  /** Unsigned 16-bit value. */
  type Word = x: int | 0 <= x < 0x10000

  function BigEndian(hi: Byte, lo: Byte): Word {
    hi * 256 + lo
  }

  function HighByte(w: Word): Byte {
    w / 256
  }

  function LowByte(w: Word): Byte {
    w % 256
  }

  function Flatten<T>(parts: seq<seq<T>>): seq<T> {
    if parts == [] then [] else parts[0] + Flatten(parts[1..])
  }

  lemma {:induction false} Associative<T>(a: seq<T>, b: seq<T>, c: seq<T>)
    ensures a + b + c == a + (b + c)
  {
  }

  lemma {:induction false} FlattenConcat<T>(a: seq<seq<T>>, b: seq<seq<T>>)
    ensures Flatten(a + b) == Flatten(a) + Flatten(b)
  {
    if a == [] {
      assert a + b == b;
    } else {
      FlattenConcat(a[1..], b);
      assert (a + b)[1..] == a[1..] + b && (a + b)[0] == a[0];
      assert a[0] + (Flatten(a[1..]) + Flatten(b)) == a[0] + Flatten(a[1..]) + Flatten(b);
    }
  }
}

/** Frames on the RS-485 wire as byte strings, with the checksum test of Crc. */
module Wire {
  import opened Bytes
  import Crc

  type Frame = seq<Byte>

  lemma {:induction false} SmallBits(b: Byte)
    ensures (b as bv16) < 256
  {
  }

  function ToOctet(b: Byte): Crc.Octet {
    SmallBits(b);
    b as bv16
  }

  function Octets(f: Frame): seq<Crc.Octet> {
    seq(|f|, i requires 0 <= i < |f| => ToOctet(f[i]))
  }

  /** The frame ends in its own checksum. */
  predicate Intact(f: Frame) {
    |f| >= 4 && Crc.FrameOk(Octets(f))
  }

  lemma {:induction false} GluedFramesAreNotIntact(f: Frame, g: Frame)
    requires Intact(f) && Intact(g)
    ensures !Intact(f + g)
  {
    Crc.GluedFramesAreNoticed(Octets(f), Octets(g));
    assert Octets(f + g) == Octets(f) + Octets(g);
  }
}

/** The numeric firmware version in the gateway's register map (main/bridge/mb_device.c, README.md). */
module VersionCode {
  import opened Bytes

  /** SUFFIX is +N for "+wbN", -N for "-rcN", 0 for a release. */
  datatype Version = Version(major: nat, minor: nat, patch: nat, suffix: int)

  predicate Fits(v: Version) {
    v.major < 256 && v.minor < 256 && v.patch < 256 && -128 <= v.suffix <= 127
  }

  /** The code's encoding of the suffix before it is masked to a byte. */
  function SuffixCode(suffix: int): int {
    if suffix >= 0 then suffix + 128 else -1 - suffix
  }

  function Code(v: Version): nat {
    v.major % 256 * 0x1000000 + v.minor % 256 * 0x10000 + v.patch % 256 * 0x100 + SuffixCode(v.suffix) % 256
  }

  function Decode(code: nat): Version {
    var enc := code % 256;
    Version(code / 0x1000000, code / 0x10000 % 256, code / 0x100 % 256, if enc >= 128 then enc - 128 else -1 - enc)
  }

  /** The code as a number in base 256. */
  lemma {:induction false} InBase256(v: Version)
    requires Fits(v)
    ensures Code(v) == ((v.major * 256 + v.minor) * 256 + v.patch) * 256 + SuffixCode(v.suffix)
  {
  }

  lemma {:induction false} Digits(high: nat, low: nat)
    requires low < 256
    ensures (high * 256 + low) / 256 == high && (high * 256 + low) % 256 == low
  {
  }

  lemma {:induction false} DecodeCode(v: Version)
    requires Fits(v)
    ensures Code(v) < 0x1_0000_0000 && Decode(Code(v)) == v
  {
    var code, enc := Code(v), SuffixCode(v.suffix);
    InBase256(v);
    Digits((v.major * 256 + v.minor) * 256 + v.patch, enc);
    Digits(v.major * 256 + v.minor, v.patch);
    Digits(v.major, v.minor);
    DividesTwice(code);
    assert code / 0x100 == (v.major * 256 + v.minor) * 256 + v.patch;
    assert code / 0x10000 == v.major * 256 + v.minor;
    assert code / 0x1000000 == v.major;
  }

  lemma {:induction false} DividesTwice(n: nat)
    ensures n / 0x10000 == n / 0x100 / 256 && n / 0x1000000 == n / 0x10000 / 256
  {
  }

  /** Every 32-bit number is the code of exactly one version that fits. */
  lemma {:induction false} CodeDecode(code: nat)
    requires code < 0x1_0000_0000
    ensures Fits(Decode(code)) && Code(Decode(code)) == code
  {
    DividesTwice(code);
    InBase256(Decode(code));
  }

  /** rc1 before rc2 before ... before the release before wb1 before wb2. */
  predicate SuffixBefore(a: int, b: int) {
    if a < 0 && b < 0 then a > b else a < b
  }

  predicate Before(a: Version, b: Version) {
    || a.major < b.major
    || (a.major == b.major && a.minor < b.minor)
    || (a.major == b.major && a.minor == b.minor && a.patch < b.patch)
    || (a.major == b.major && a.minor == b.minor && a.patch == b.patch && SuffixBefore(a.suffix, b.suffix))
  }

  lemma {:induction false} DigitOrder(high: nat, low: nat, high': nat, low': nat)
    requires low < 256 && low' < 256
    ensures high * 256 + low < high' * 256 + low' <==> high < high' || (high == high' && low < low')
    ensures high * 256 + low == high' * 256 + low' <==> high == high' && low == low'
  {
  }

  lemma {:induction false} SuffixOrder(a: int, b: int)
    requires -128 <= a <= 127 && -128 <= b <= 127
    ensures SuffixBefore(a, b) <==> SuffixCode(a) < SuffixCode(b)
  {
  }

  /** Numeric order of the codes is release order, for every two versions whose parts fit their bytes. */
  lemma {:induction false} CodeIsMonotone(a: Version, b: Version)
    requires Fits(a) && Fits(b)
    ensures Code(a) < Code(b) <==> Before(a, b)
  {
    InBase256(a);
    InBase256(b);
    SuffixOrder(a.suffix, b.suffix);
    DigitOrder(a.major, a.minor, b.major, b.minor);
    DigitOrder(a.major * 256 + a.minor, a.patch, b.major * 256 + b.minor, b.patch);
    DigitOrder((a.major * 256 + a.minor) * 256 + a.patch, SuffixCode(a.suffix),
        (b.major * 256 + b.minor) * 256 + b.patch, SuffixCode(b.suffix));
  }

  /** The parts are masked to bytes: two versions share a code exactly when each part agrees modulo 256. */
  lemma {:induction false} CodesCollideExactly(a: Version, b: Version)
    ensures Code(a) == Code(b) <==>
            && a.major % 256 == b.major % 256 && a.minor % 256 == b.minor % 256 && a.patch % 256 == b.patch % 256
            && SuffixCode(a.suffix) % 256 == SuffixCode(b.suffix) % 256
  {
    MaskedBase256(a);
    MaskedBase256(b);
    var am, bm := a.major % 256 * 256 + a.minor % 256, b.major % 256 * 256 + b.minor % 256;
    DigitOrder(a.major % 256, a.minor % 256, b.major % 256, b.minor % 256);
    DigitOrder(am, a.patch % 256, bm, b.patch % 256);
    DigitOrder(am * 256 + a.patch % 256, SuffixCode(a.suffix) % 256, bm * 256 + b.patch % 256,
        SuffixCode(b.suffix) % 256);
  }

  lemma {:induction false} MaskedBase256(v: Version)
    ensures Code(v) == ((v.major % 256 * 256 + v.minor % 256) * 256 + v.patch % 256) * 256 + SuffixCode(v.suffix) % 256
  {
  }

  /** So the 128th vendor build of a release reads as its first release candidate. */
  lemma {:induction false} VendorBuildReadsAsCandidate(major: nat, minor: nat, patch: nat)
    ensures Code(Version(major, minor, patch, 128)) == Code(Version(major, minor, patch, -1))
  {
  }

  // ---- Registers ----------------------------------------------------------------------------

  const LE_LOW := 324
  const LE_HIGH := 325
  const BE_HIGH := 326
  const BE_LOW := 327

  /** The four registers that carry the code. */
  function Register(code: nat, address: nat): Word
    requires code < 0x1_0000_0000 && LE_LOW <= address <= BE_LOW
  {
    if address == LE_LOW || address == BE_LOW then code % 0x10000 else code / 0x10000
  }

  /** Both word orders give the same number back. */
  lemma {:induction false} WordOrdersAgree(code: nat)
    requires code < 0x1_0000_0000
    ensures Register(code, LE_HIGH) * 0x10000 + Register(code, LE_LOW) == code
    ensures Register(code, BE_HIGH) * 0x10000 + Register(code, BE_LOW) == code
  {
  }
}

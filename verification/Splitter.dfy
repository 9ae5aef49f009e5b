/**
 Splitting a gap-less buffer into RTU frames (main/bridge/stream_splitter.c): by a context hint, by
 the length tables, by a checksum scan, and giving up on what is left.
 */
module Splitter {
  import opened Bytes
  import opened Wire

  const MAX_FRAMES := 16
  const MAX_FRAME_LEN := 265

  datatype Piece = Piece(bytes: Frame, crcValid: bool)

  predicate IsFastModbus(fc: Byte) {
    fc == 0x46 || fc == 0x60
  }

  function FastLen(rem: Frame): nat
    requires |rem| >= 3
  {
    var fc, sub := rem[1], rem[2];
    if sub == 0x01 || sub == 0x02 || sub == 0x04 || sub == 0x12 then 5
    else if sub == 0x03 then 10
    else if sub == 0x10 then 9
    else if fc == 0x46 && sub == 0x09 then
      if |rem| >= 9 && 1 <= rem[7] <= 4 then rem[8] as int + 11 else 0
    else if fc == 0x46 && sub == 0x11 then
      if |rem| >= 6 then rem[5] as int + 8 else 0
    else if fc == 0x46 && sub == 0x18 then
      if |rem| >= 4 then rem[3] as int + 6 else 0
    else 0
  }

  function TableLen(rem: Frame, isResponse: bool): nat
    requires |rem| >= 2
  {
    var fc := rem[1];
    if IsFastModbus(fc) then (if |rem| < 3 then 0 else FastLen(rem))
    else if fc >= 0x80 then 5
    else if 1 <= fc <= 4 then (if !isResponse then 8 else if |rem| < 3 then 0 else rem[2] as int + 5)
    else if fc == 5 || fc == 6 || fc == 8 then 8
    else if fc == 0x0F || fc == 0x10 then (if isResponse then 8 else if |rem| < 7 then 0 else rem[6] as int + 9)
    else 0
  }

  /** The frame length the tables give, or 0 when unknown or longer than what is there. */
  function ExpectedLen(rem: Frame, isResponse: bool): (n: nat)
    ensures n <= |rem|
  {
    if |rem| < 2 || TableLen(rem, isResponse) > |rem| then 0 else TableLen(rem, isResponse)
  }

  function ScanLen(rem: Frame, n: nat): (r: nat)
    requires 4 <= n
    ensures r != 0 ==> n <= r <= |rem| && Intact(rem[..r])
    decreases |rem| - n
  {
    if n > |rem| || n > MAX_FRAME_LEN then 0
    else if Intact(rem[..n]) then n
    else ScanLen(rem, n + 1)
  }

  predicate TableFrame(rem: Frame, isResponse: bool) {
    ExpectedLen(rem, isResponse) != 0 && Intact(rem[..ExpectedLen(rem, isResponse)])
  }

  /** Where the next frame ends, or 0. A pending request makes the first one a likely response. */
  function Boundary(rem: Frame, hint: bool): (n: nat)
    ensures n != 0 ==> 4 <= n <= |rem| && Intact(rem[..n])
  {
    if hint && TableFrame(rem, true) then ExpectedLen(rem, true)
    else if TableFrame(rem, false) then ExpectedLen(rem, false)
    else if TableFrame(rem, true) then ExpectedLen(rem, true)
    else ScanLen(rem, 4)
  }

  /** How many 0xFF bytes come first. */
  function FillerRun(rem: Frame): (n: nat)
    ensures n <= |rem|
  {
    if rem == [] || rem[0] != 0xFF then 0 else FillerRun(rem[1..]) + 1
  }

  lemma {:induction false} FillerRunMeans(rem: Frame, i: nat)
    ensures i < FillerRun(rem) ==> rem[i] == 0xFF
    ensures FillerRun(rem) < |rem| ==> rem[FillerRun(rem)] != 0xFF
    ensures rem != [] && rem[0] == 0xFF ==> FillerRun(rem) > 0
    decreases |rem|
  {
    if rem != [] && rem[0] == 0xFF {
      FillerRunMeans(rem[1..], if i == 0 then 0 else i - 1);
    }
  }

  datatype Cut = Cut(len: nat, crcValid: bool)

  /** The next piece: a frame, a run of filler, or everything that is left. */
  function NextCut(rem: Frame, hint: bool): (c: Cut)
    requires rem != []
    ensures 0 < c.len <= |rem|
  {
    var n := Boundary(rem, hint);
    if n != 0 then Cut(n, true)
    else if rem[0] == 0xFF then Cut(FillerRun(rem), false)
    else Cut(|rem|, false)
  }

  lemma {:induction false} CutSettles(rem: Frame, hint: bool)
    requires rem != []
    ensures var c := NextCut(rem, hint);
            c.len < |rem| || c.crcValid ==> Settled(Piece(rem[..c.len], c.crcValid))
  {
    var c := NextCut(rem, hint);
    if !c.crcValid && c.len < |rem| {
      forall i | 0 <= i < c.len
        ensures rem[..c.len][i] == 0xFF
      {
        FillerRunMeans(rem, i);
      }
    }
  }

  function SplitFrom(rem: Frame, count: nat, hint: bool): seq<Piece>
    requires count < MAX_FRAMES
    decreases |rem|
  {
    if rem == [] then []
    else if count == MAX_FRAMES - 1 then [Piece(rem, false)]
    else
      var c := NextCut(rem, hint);
      [Piece(rem[..c.len], c.crcValid)] + SplitFrom(rem[c.len..], count + 1, false)
  }

  function Split(buf: Frame, hint: bool): seq<Piece> {
    SplitFrom(buf, 0, hint)
  }

  function Join(ps: seq<Piece>): Frame {
    if ps == [] then [] else ps[0].bytes + Join(ps[1..])
  }

  /** A frame that checks out, or a run of arbitration filler. */
  predicate Settled(p: Piece) {
    if p.crcValid then Intact(p.bytes) else forall i :: 0 <= i < |p.bytes| ==> p.bytes[i] == 0xFF
  }

  lemma {:induction false} JoinCons(p: Piece, rest: seq<Piece>)
    ensures Join([p] + rest) == p.bytes + Join(rest)
  {
  }

  lemma {:induction false} JoinCut(rem: Frame, k: nat, valid: bool, rest: seq<Piece>)
    requires k <= |rem| && Join(rest) == rem[k..]
    ensures Join([Piece(rem[..k], valid)] + rest) == rem
  {
  }

  lemma {:induction false} JoinOne(rem: Frame)
    ensures Join([Piece(rem, false)]) == rem
  {
  }

  /** Nothing is lost, repeated or reordered. */
  lemma {:induction false} SplitPartitions(rem: Frame, count: nat, hint: bool)
    requires count < MAX_FRAMES
    ensures Join(SplitFrom(rem, count, hint)) == rem
    decreases |rem|
  {
    if rem != [] {
      if count == MAX_FRAMES - 1 {
        JoinOne(rem);
      } else {
        var c := NextCut(rem, hint);
        SplitPartitions(rem[c.len..], count + 1, false);
        JoinCut(rem, c.len, c.crcValid, SplitFrom(rem[c.len..], count + 1, false));
      }
    }
  }

  /** At most sixteen pieces come out. */
  lemma {:induction false} SplitCount(rem: Frame, count: nat, hint: bool)
    requires count < MAX_FRAMES
    ensures count + |SplitFrom(rem, count, hint)| <= MAX_FRAMES
    decreases |rem|
  {
    if rem != [] && count < MAX_FRAMES - 1 {
      SplitCount(rem[NextCut(rem, hint).len..], count + 1, false);
    }
  }

  /** All pieces but the last are settled, none is empty, and a piece marked valid checks out. */
  lemma {:induction false} SplitSettles(rem: Frame, count: nat, hint: bool, i: nat)
    requires count < MAX_FRAMES && i < |SplitFrom(rem, count, hint)|
    ensures var ps := SplitFrom(rem, count, hint);
            ps[i].bytes != [] && (i < |ps| - 1 || ps[i].crcValid ==> Settled(ps[i]))
    decreases |rem|
  {
    if rem != [] && count < MAX_FRAMES - 1 {
      var c := NextCut(rem, hint);
      var rest := SplitFrom(rem[c.len..], count + 1, false);
      if i > 0 {
        SplitSettles(rem[c.len..], count + 1, false, i - 1);
        assert SplitFrom(rem, count, hint)[i] == rest[i - 1];
      } else {
        CutSettles(rem, hint);
      }
    }
  }

  /** What has come out, followed by the split of what remains, is the whole split. */
  ghost predicate ToGo(goal: seq<Piece>, out: seq<Piece>, rem: Frame, hint: bool) {
    |out| < MAX_FRAMES && goal == out + SplitFrom(rem, |out|, hint)
  }

  lemma {:induction false} ToGoNext(goal: seq<Piece>, out: seq<Piece>, rem: Frame, hint: bool, c: Cut)
    requires rem != [] && |out| < MAX_FRAMES - 1 && ToGo(goal, out, rem, hint) && c == NextCut(rem, hint)
    ensures ToGo(goal, out + [Piece(rem[..c.len], c.crcValid)], rem[c.len..], false)
  {
  }

  lemma {:induction false} ToGoEnds(goal: seq<Piece>, out: seq<Piece>, rem: Frame, hint: bool)
    requires ToGo(goal, out, rem, hint) && (rem == [] || |out| == MAX_FRAMES - 1)
    ensures goal == if rem == [] then out else out + [Piece(rem, false)]
  {
  }

  /** The loop, over what remains of the buffer. */
  method StreamSplit(buf: Frame, contextFc: Byte) returns (out: seq<Piece>)
    ensures out == Split(buf, contextFc != 0)
  {
    var rem, hint := buf, contextFc != 0;
    out := [];
    ghost var goal := Split(buf, hint);
    while rem != [] && |out| < MAX_FRAMES - 1
      invariant ToGo(goal, out, rem, hint)
      decreases |rem|
    {
      var c := NextCut(rem, hint);
      ToGoNext(goal, out, rem, hint, c);
      out := out + [Piece(rem[..c.len], c.crcValid)];
      rem, hint := rem[c.len..], false;
    }
    ToGoEnds(goal, out, rem, hint);
    if rem != [] {
      out := out + [Piece(rem, false)];
    }
  }

  // ---- Exact splitting ----------------------------------------------------------------------

  /** A frame whose length the request table reads off its own first bytes, whatever follows. */
  predicate SelfDelimiting(f: Frame) {
    Intact(f) && TableLen(f, false) == |f|
  }

  lemma {:induction false} DelimitsItself(f: Frame, rest: Frame)
    requires SelfDelimiting(f) && !IsFastModbus(f[1])
    ensures TableFrame(f + rest, false) && ExpectedLen(f + rest, false) == |f|
  {
  }

  predicate AllSelfDelimiting(fs: seq<Frame>) {
    forall i :: 0 <= i < |fs| ==> SelfDelimiting(fs[i]) && !IsFastModbus(fs[i][1])
  }

  lemma {:induction false} FirstRequestCut(f: Frame, rest: Frame)
    requires SelfDelimiting(f) && !IsFastModbus(f[1])
    ensures NextCut(f + rest, false) == Cut(|f|, true)
  {
    DelimitsItself(f, rest);
  }

  function AsPieces(fs: seq<Frame>): seq<Piece> {
    if fs == [] then [] else [Piece(fs[0], true)] + AsPieces(fs[1..])
  }

  /** Up to fifteen requests sent back to back come apart into exactly those requests. */
  lemma {:induction false} RequestsSplitExactly(fs: seq<Frame>, count: nat)
    requires AllSelfDelimiting(fs) && count + |fs| <= MAX_FRAMES - 1
    ensures SplitFrom(Flatten(fs), count, false) == AsPieces(fs)
    decreases |fs|
  {
    if fs != [] {
      var f, rest := fs[0], Flatten(fs[1..]);
      FirstRequestCut(f, rest);
      RequestsSplitExactly(fs[1..], count + 1);
      assert (f + rest)[..|f|] == f && (f + rest)[|f|..] == rest;
    }
  }
}

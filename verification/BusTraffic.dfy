/**
 The messages on the bus whose length can be told from their first bytes, and how a buffer that holds several of
 them without a gap comes apart (main/bridge/stream_splitter.c, main/bridge/sniffer.c).
 */
module BusTraffic {
  import opened Bytes
  import opened Wire
  import opened Splitter
  import Sniffer
  import SnifferPipeline

  /** Modbus: reads, writes and exceptions. Fast Modbus: scans, a read by serial number, events. */
  datatype Message =
    | ReadRequest(to: Byte, fc: Byte, start: Word, count: Word)
    | ReadReply(from: Byte, fc: Byte, data: seq<Byte>)
    | WriteOne(to: Byte, fc: Byte, address: Word, value: Word)
    | WriteMany(to: Byte, fc: Byte, start: Word, count: Word, data: seq<Byte>)
    | WriteManyReply(from: Byte, fc: Byte, start: Word, count: Word)
    | Refusal(from: Byte, fc: Byte, code: Byte)
    | Scan(to: Byte, fc: Byte, sub: Byte)
    | ScanReply(from: Byte, fc: Byte, serial: seq<Byte>, slave: Byte)
    | EventRequest(to: Byte, fc: Byte, fields: seq<Byte>)
    | ReadReplyBySerial(from: Byte, serial: seq<Byte>, fc: Byte, data: seq<Byte>)
    | EventReply(from: Byte, flag: Byte, left: Byte, data: seq<Byte>)
    | EventConfig(device: Byte, settings: seq<Byte>)

  predicate Legal(m: Message) {
    match m
    case ReadRequest(_, fc, _, _) => 1 <= fc <= 4
    case ReadReply(_, fc, data) => 1 <= fc <= 4 && |data| < 256
    case WriteOne(_, fc, _, _) => fc in {5, 6, 8}
    case WriteMany(_, fc, _, _, data) => fc in {15, 16} && |data| < 256
    case WriteManyReply(_, fc, _, _) => fc in {15, 16}
    case Refusal(_, fc, _) => fc >= 128
    case Scan(_, fc, sub) => fc in {0x46, 0x60} && sub in {1, 2, 4, 0x12}
    case ScanReply(_, fc, serial, _) => fc in {0x46, 0x60} && |serial| == 4
    case EventRequest(_, fc, fields) => fc in {0x46, 0x60} && |fields| == 4
    case ReadReplyBySerial(_, serial, fc, data) => |serial| == 4 && 1 <= fc <= 4 && |data| < 256
    case EventReply(_, _, _, data) => |data| < 256
    case EventConfig(_, settings) => |settings| < 256
  }

  /** A word on the wire, high byte first. */
  function Two(w: Word): seq<Byte> {
    [w / 256, w % 256]
  }

  /** The bytes before the checksum. */
  function Body(m: Message): seq<Byte>
    requires Legal(m)
  {
    match m
    case ReadRequest(to, fc, start, count) => [to, fc] + Two(start) + Two(count)
    case ReadReply(from, fc, data) => [from, fc, |data|] + data
    case WriteOne(to, fc, address, value) => [to, fc] + Two(address) + Two(value)
    case WriteMany(to, fc, start, count, data) => [to, fc] + Two(start) + Two(count) + [|data|] + data
    case WriteManyReply(from, fc, start, count) => [from, fc] + Two(start) + Two(count)
    case Refusal(from, fc, code) => [from, fc, code]
    case Scan(to, fc, sub) => [to, fc, sub]
    case ScanReply(from, fc, serial, slave) => [from, fc, 3] + serial + [slave]
    case EventRequest(to, fc, fields) => [to, fc, 0x10] + fields
    case ReadReplyBySerial(from, serial, fc, data) => [from, 0x46, 9] + serial + [fc, |data|] + data
    case EventReply(from, flag, left, data) => [from, 0x46, 0x11, flag, left, |data|] + data
    case EventConfig(device, settings) => [device, 0x46, 0x18, |settings|] + settings
  }

  /** The message as a frame: its bytes, and their checksum. */
  predicate OnWire(f: Frame, m: Message) {
    Legal(m) && Intact(f) && |f| == |Body(m)| + 2 && Body(m) <= f
  }

  predicate IsReply(m: Message) {
    m.ReadReply? || m.WriteManyReply?
  }

  lemma {:induction false} ModbusLength(f: Frame, m: Message, rest: Frame)
    requires OnWire(f, m) && !IsFastModbus(f[1])
    ensures TableLen(f + rest, IsReply(m)) == |f|
  {
    assert forall i :: 0 <= i < |Body(m)| ==> (f + rest)[i] == Body(m)[i];
  }

  lemma {:induction false} FastLength(f: Frame, m: Message, rest: Frame)
    requires OnWire(f, m) && IsFastModbus(f[1])
    ensures TableLen(f + rest, IsReply(m)) == |f|
  {
    assert forall i :: 0 <= i < |Body(m)| ==> (f + rest)[i] == Body(m)[i];
  }

  /** The tables tell the length of every message, whatever follows it: those of replies if it is the reply to a
      read or to a long write, and those of requests otherwise. */
  lemma {:induction false} LengthIsTold(f: Frame, m: Message, rest: Frame)
    requires OnWire(f, m)
    ensures ExpectedLen(f + rest, IsReply(m)) == |f| && TableFrame(f + rest, IsReply(m))
  {
    if IsFastModbus(f[1]) {
      FastLength(f, m, rest);
    } else {
      ModbusLength(f, m, rest);
    }
    assert (f + rest)[..|f|] == f;
  }

  /** The tables say nothing of other function codes, nor of other Fast Modbus subcommands. */
  lemma {:induction false} OthersAreNotTold(rem: Frame, isResponse: bool)
    requires |rem| >= 2
    requires if rem[1] in {0x46, 0x60} then |rem| >= 3 && rem[2] !in {1, 2, 3, 4, 9, 0x10, 0x11, 0x12, 0x18}
             else rem[1] !in {1, 2, 3, 4, 5, 6, 8, 15, 16} && rem[1] < 128
    ensures ExpectedLen(rem, isResponse) == 0
  {
  }

  // ---- The scan -----------------------------------------------------------------------------

  /** The scan finds the shortest intact frame, of four bytes or more and no more than 265. */
  lemma {:induction false} ScanFindsTheShortest(rem: Frame, n: nat, k: nat)
    requires 4 <= n <= k <= |rem| && k <= 265 && Intact(rem[..k])
    ensures 0 < ScanLen(rem, n) <= k
    decreases k - n
  {
    if n < k && !Intact(rem[..n]) {
      ScanFindsTheShortest(rem, n + 1, k);
    }
  }

  lemma {:induction false} ScanIsLimited(rem: Frame, n: nat)
    requires 4 <= n
    ensures ScanLen(rem, n) <= 265
    decreases |rem| - n
  {
    if n <= |rem| && n <= 265 && !Intact(rem[..n]) {
      ScanIsLimited(rem, n + 1);
    }
  }

  /** A buffer is given up on exactly if the tables find no intact frame at its start, either way, and no start of
      it up to 265 bytes is one. */
  lemma {:induction false} GivenUpExactly(rem: Frame, hint: bool)
    ensures Boundary(rem, hint) == 0 <==>
            && !TableFrame(rem, true) && !TableFrame(rem, false)
            && forall k :: 4 <= k <= |rem| && k <= 265 ==> !Intact(rem[..k])
  {
    ScanIsLimited(rem, 4);
    if k :| 4 <= k <= |rem| && k <= 265 && Intact(rem[..k]) {
      ScanFindsTheShortest(rem, 4, k);
    }
  }

  // ---- Messages without a gap ---------------------------------------------------------------

  /** The length that the other table, of requests or of replies, would read off the bytes. */
  function OtherLength(g: Frame, m: Message): nat
    requires |g| >= 8
  {
    match m
    case ReadRequest(_, _, _, _) => g[2] as nat + 5
    case WriteMany(_, _, _, _, _) => 8
    case ReadReply(_, _, _) => 8
    case WriteManyReply(_, _, _, _) => g[6] as nat + 9
    case _ => 0
  }

  predicate ToldTwice(m: Message) {
    m.ReadRequest? || m.WriteMany? || IsReply(m)
  }

  /** The table asked first, that of replies exactly if a request is pending, is the wrong one, and by it the bytes
      are an intact frame of another length. */
  predicate Mistaken(f: Frame, m: Message, rest: Frame, hint: bool) {
    var g := f + rest;
    && ToldTwice(m) && IsReply(m) != hint && |g| >= 8
    && OtherLength(g, m) != |f| && OtherLength(g, m) <= |g| && Intact(g[..OtherLength(g, m)])
  }

  lemma {:induction false} OtherTable(f: Frame, m: Message, rest: Frame)
    requires OnWire(f, m)
    ensures var g, n := f + rest, ExpectedLen(f + rest, !IsReply(m));
            if !ToldTwice(m) then n == |f|
            else if |g| >= 8 then n == if OtherLength(g, m) <= |g| then OtherLength(g, m) else 0
            else n == 0
  {
    var g := f + rest;
    assert forall i :: 0 <= i < |Body(m)| ==> g[i] == Body(m)[i];
    if IsFastModbus(f[1]) {
      FastLength(f, m, rest);
    }
  }

  /** The next cut is after the message exactly if it is not mistaken. */
  lemma {:induction false} CutExactly(f: Frame, m: Message, rest: Frame, hint: bool)
    requires OnWire(f, m)
    ensures NextCut(f + rest, hint) == Cut(|f|, true) <==> !Mistaken(f, m, rest, hint)
  {
    LengthIsTold(f, m, rest);
    OtherTable(f, m, rest);
    assert (f + rest)[..|f|] == f;
  }

  /** A reply of five data bytes, the last two of which happen to be the checksum of what comes before them, is cut
      after its eighth byte. */
  lemma {:induction false} ReplyCanBeMistaken(f: Frame, g: Frame, rest: Frame)
    requires |f| == 8 && Intact(f) && 1 <= f[1] <= 4 && f[2] == 5
    requires OnWire(g, ReadReply(f[0], f[1], f[3..]))
    ensures NextCut(g + rest, false) == Cut(8, true) && |g| == 10
    ensures Mistaken(g, ReadReply(f[0], f[1], f[3..]), rest, false)
  {
    assert (g + rest)[..8] == f;
    CutExactly(g, ReadReply(f[0], f[1], f[3..]), rest, false);
  }

  predicate AllOnWire(fs: seq<Frame>, ms: seq<Message>) {
    |fs| == |ms| && forall i :: 0 <= i < |fs| ==> OnWire(fs[i], ms[i])
  }

  predicate NoneMistaken(fs: seq<Frame>, ms: seq<Message>, hint: bool)
    requires |fs| == |ms|
    decreases |fs|
  {
    fs == [] || (!Mistaken(fs[0], ms[0], Flatten(fs[1..]), hint) && NoneMistaken(fs[1..], ms[1..], false))
  }

  lemma {:induction false} RightCut(f: Frame, rest: Frame, count: nat, hint: bool)
    requires f != [] && count < MAX_FRAMES - 1 && NextCut(f + rest, hint) == Cut(|f|, true)
    ensures SplitFrom(f + rest, count, hint) == [Piece(f, true)] + SplitFrom(rest, count + 1, false)
  {
    assert (f + rest)[..|f|] == f && (f + rest)[|f|..] == rest;
  }

  lemma {:induction false} WrongCut(f: Frame, rest: Frame, count: nat, hint: bool, ps: seq<Piece>)
    requires f != [] && count < MAX_FRAMES - 1 && NextCut(f + rest, hint) != Cut(|f|, true)
    ensures SplitFrom(f + rest, count, hint) != [Piece(f, true)] + ps
  {
    var g, c := f + rest, NextCut(f + rest, hint);
    assert SplitFrom(g, count, hint)[0] == Piece(g[..c.len], c.crcValid);
    assert |g[..c.len]| == c.len;
  }

  lemma {:induction false} SamePieces(p: Piece, a: seq<Piece>, b: seq<Piece>)
    ensures [p] + a == [p] + b <==> a == b
  {
    assert ([p] + a)[1..] == a && ([p] + b)[1..] == b;
  }

  /**
   Up to fifteen messages of any kinds that come without a gap come apart into exactly those messages if and only if
   none is mistaken: only the reply to a read or to a long write can be, and where a request is pending, the first
   message if it is a read or a long write.
   */
  lemma {:induction false} TrafficSplitsExactly(fs: seq<Frame>, ms: seq<Message>, count: nat, hint: bool)
    requires AllOnWire(fs, ms) && count + |fs| <= MAX_FRAMES - 1
    ensures SplitFrom(Flatten(fs), count, hint) == AsPieces(fs) <==> NoneMistaken(fs, ms, hint)
    decreases |fs|
  {
    if fs != [] {
      var f, rest, ps := fs[0], Flatten(fs[1..]), AsPieces(fs[1..]);
      CutExactly(f, ms[0], rest, hint);
      TrafficSplitsExactly(fs[1..], ms[1..], count + 1, false);
      if Mistaken(f, ms[0], rest, hint) {
        WrongCut(f, rest, count, hint, ps);
      } else {
        RightCut(f, rest, count, hint);
        SamePieces(Piece(f, true), SplitFrom(rest, count + 1, false), ps);
      }
    }
  }

  // ---- What the sniffer makes of it ---------------------------------------------------------

  lemma {:induction false} PiecesAreFrames(fs: seq<Frame>)
    ensures |AsPieces(fs)| == |fs| && SnifferPipeline.BytesOf(AsPieces(fs)) == fs
    ensures forall i :: 0 <= i < |fs| ==> AsPieces(fs)[i].crcValid
  {
    if fs != [] {
      PiecesAreFrames(fs[1..]);
      assert AsPieces(fs)[1..] == AsPieces(fs[1..]);
    }
  }

  lemma {:induction false} NeedsTakingApart(fs: seq<Frame>, ms: seq<Message>)
    requires AllOnWire(fs, ms) && |fs| >= 2 && fs[0][0] != 0xFF && !Intact(Flatten(fs))
    ensures Sniffer.Strip(Flatten(fs)) == Flatten(fs) && SnifferPipeline.NeedsSplit(Flatten(fs))
  {
    assert OnWire(fs[0], ms[0]) && OnWire(fs[1], ms[1]);
    var tail := fs[1..];
    assert tail[0] == fs[1] && |Flatten(tail)| >= |fs[1]|;
    assert Flatten(fs) == fs[0] + Flatten(tail);
  }

  lemma {:induction false} TakenApartAs(buf: Frame, fs: seq<Frame>, hint: bool)
    requires Sniffer.Strip(buf) == buf && SnifferPipeline.NeedsSplit(buf) && |fs| >= 2
    requires Split(buf, hint) == AsPieces(fs)
    ensures SnifferPipeline.TakeApart(buf, hint) == SnifferPipeline.Turn(fs, [])
  {
    PiecesAreFrames(fs);
  }

  /** A buffer that holds from two to fifteen messages, none mistaken, is dispatched as exactly those messages, in
      order, unless by chance it is an intact frame as a whole. */
  lemma {:induction false} GluedIsTakenApart(fs: seq<Frame>, ms: seq<Message>, hints: seq<bool>)
    requires AllOnWire(fs, ms) && 2 <= |fs| <= 15 && NoneMistaken(fs, ms, hints != [] && hints[0])
    requires fs[0][0] != 0xFF && !Intact(Flatten(fs))
    ensures SnifferPipeline.Dispatched(Flatten(fs), hints) == fs
  {
    NeedsTakingApart(fs, ms);
    TrafficSplitsExactly(fs, ms, 0, hints != [] && hints[0]);
    TakenApartAs(Flatten(fs), fs, hints != [] && hints[0]);
  }

  /** Two messages are never an intact frame together. So an exchange that comes without a gap, a write and its echo
      included, is shown as master and slave, whatever the port made of earlier traffic. */
  lemma {:induction false} GluedExchangeIsShown(p: Sniffer.Port, f: Frame, m: Message, g: Frame, n: Message,
                                                hints: seq<bool>, e: Sniffer.Env, h: Sniffer.Env)
    requires OnWire(f, m) && OnWire(g, n) && Sniffer.Answering(f, g) && Sniffer.Served(e) && !h.queueFull
    requires Sniffer.Sane(p) && Sniffer.On(p) && p.state == Sniffer.Idle
    requires var hint := hints != [] && hints[0]; !Mistaken(f, m, g, hint) && !Mistaken(g, n, [], false)
    ensures var fs := SnifferPipeline.Dispatched(f + g, hints);
            && fs == [f, g]
            && SnifferPipeline.Frames(p, fs, [e, h]).packets ==
               Sniffer.Shows(f, true, true) + Sniffer.Shows(g, false, true)
  {
    GluedFramesAreNotIntact(f, g);
    TwoFrames(f, g);
    TwoMessages(f, m, g, n, hints);
    GluedIsTakenApart([f, g], [m, n], hints);
    Sniffer.PairShown(p, f, g, e, h);
    TwoPackets(p, f, g, e, h);
  }

  lemma {:induction false} TwoFrames(f: Frame, g: Frame)
    ensures Flatten([f, g]) == f + g && Flatten([f, g][1..]) == g && Flatten([f, g][1..][1..]) == []
  {
    assert [f, g][1..] == [g] && [g][1..] == [];
    assert Flatten([g]) == g + [];
  }

  lemma {:induction false} TwoMessages(f: Frame, m: Message, g: Frame, n: Message, hints: seq<bool>)
    requires OnWire(f, m) && OnWire(g, n)
    requires var hint := hints != [] && hints[0]; !Mistaken(f, m, g, hint) && !Mistaken(g, n, [], false)
    ensures AllOnWire([f, g], [m, n]) && NoneMistaken([f, g], [m, n], hints != [] && hints[0])
  {
    TwoFrames(f, g);
    assert [f, g][1..] == [g] && [m, n][1..] == [n] && [g][1..] == [] && [n][1..] == [];
    assert NoneMistaken([g], [n], false);
  }

  lemma {:induction false} TwoPackets(p: Sniffer.Port, f: Frame, g: Frame, e: Sniffer.Env, h: Sniffer.Env)
    ensures var first := Sniffer.ProcessFrame(p, f, e); var second := Sniffer.ProcessFrame(first.port, g, h);
            SnifferPipeline.Frames(p, [f, g], [e, h]).packets == first.packets + second.packets
  {
    assert [f, g][1..] == [g] && [e, h][1..] == [h];
    SnifferPipeline.OneFrame(Sniffer.ProcessFrame(p, f, e).port, g, h);
    SnifferPipeline.FramesFirst(p, [f, g], [e, h]);
  }
}

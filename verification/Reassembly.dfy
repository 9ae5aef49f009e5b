/**
 Modbus TCP stream reassembly (main/bridge/mbtcp_reasm.c).

 The functions at the top say what one connection's buffer does with the bytes it is fed; the
 lemmas say what that means for a whole stream, however recv() happened to cut it up. The in-place
 code is in ReassemblyBuffers, proved against the functions.
 */
module Reassembly {
  import opened Bytes

  const MAX_CONNS := 8
  const FRAME_MAX := 300
  const HEADER_LEN := 8
  const FREE := -1

  type Stream = seq<Byte>

  /** Total ADU length declared by an MBAP header; the length field counts from the unit id. */
  function FrameLen(h: Stream): nat
    requires |h| >= 6
  {
    BigEndian(h[4], h[5]) + 6
  }

  predicate HeaderOk(h: Stream)
    requires |h| >= HEADER_LEN
  {
    BigEndian(h[2], h[3]) == 0 && HEADER_LEN <= FrameLen(h) <= FRAME_MAX
  }

  /** Exactly one complete frame. */
  predicate WellFormed(f: Stream) {
    |f| >= HEADER_LEN && HeaderOk(f) && |f| == FrameLen(f)
  }

  /** In bytes: a transaction id, two zeros, a length from 2 to 294, and that many bytes after it. */
  lemma {:induction false} FrameInBytes(f: Stream)
    ensures WellFormed(f) <==> 8 <= |f| <= 300 && f[2] == f[3] == 0 && f[4] as int * 256 + f[5] == |f| - 6
  {
  }

  /** The beginning of a frame whose end has not arrived yet. */
  predicate Incomplete(t: Stream) {
    |t| < HEADER_LEN || (HeaderOk(t) && |t| < FrameLen(t))
  }

  /** What one pass over a buffer hands to the callback, and what it leaves behind. */
  datatype Parsed = Parsed(frames: seq<Stream>, rest: Stream)

  /** The dispatch loop over the bytes currently buffered. */
  function Scan(b: Stream, resyncing: bool): (p: Parsed)
    ensures |p.rest| < FRAME_MAX
    ensures |p.rest| <= |b|
  {
    if |b| < HEADER_LEN then Parsed([], b)
    else if !HeaderOk(b) then Scan(b[1..], true)
    else if |b| < FrameLen(b) then
      if resyncing then Scan(b[1..], true) else Parsed([], b)
    else
      var tail := Scan(b[FrameLen(b)..], false);
      Parsed([b[..FrameLen(b)]] + tail.frames, tail.rest)
  }

  /** One feed() call: append as much as fits, dispatch, repeat. */
  function FeedSpec(buf: Stream, data: Stream): (p: Parsed)
    requires |buf| < FRAME_MAX
    ensures |p.rest| < FRAME_MAX
    decreases |data|
  {
    if data == [] then Parsed([], buf)
    else
      var chunk := if |data| < FRAME_MAX - |buf| then |data| else FRAME_MAX - |buf|;
      var here := Scan(buf + data[..chunk], false);
      var later := FeedSpec(here.rest, data[chunk..]);
      Parsed(here.frames + later.frames, later.rest)
  }

  /** A connection's whole life: one feed() per recv(). */
  function FeedAll(buf: Stream, chunks: seq<Stream>): (p: Parsed)
    requires |buf| < FRAME_MAX
    ensures |p.rest| < FRAME_MAX
    decreases |chunks|
  {
    if chunks == [] then Parsed([], buf)
    else
      var here := FeedSpec(buf, chunks[0]);
      var later := FeedAll(here.rest, chunks[1..]);
      Parsed(here.frames + later.frames, later.rest)
  }

  // ---- Streams without garbage: the cutting is invisible ----------------------------------

  /** Every header met at a frame boundary is plausible. */
  predicate Clean(s: Stream)
    decreases |s|
  {
    |s| < HEADER_LEN || (HeaderOk(s) && (|s| < FrameLen(s) || Clean(s[FrameLen(s)..])))
  }

  lemma {:induction false} FramesAreClean(frames: seq<Stream>, tail: Stream)
    requires forall f :: f in frames ==> WellFormed(f)
    requires Incomplete(tail)
    ensures Clean(Flatten(frames) + tail)
    ensures Scan(Flatten(frames) + tail, false) == Parsed(frames, tail)
  {
    var s := Flatten(frames) + tail;
    if frames == [] {
      assert s == tail;
    } else {
      var f := frames[0];
      assert WellFormed(f);
      assert s == f + (Flatten(frames[1..]) + tail);
      assert FrameLen(s) == FrameLen(f) && HeaderOk(s);
      assert s[|f|..] == Flatten(frames[1..]) + tail;
      FramesAreClean(frames[1..], tail);
      assert s[..|f|] == f;
      assert [f] + frames[1..] == frames;
    }
  }

  lemma {:induction false} ScanTakesFrame(s: Stream, n: nat)
    requires |s| >= HEADER_LEN && HeaderOk(s) && n == FrameLen(s) <= |s|
    ensures var tail := Scan(s[n..], false); Scan(s, false) == Parsed([s[..n]] + tail.frames, tail.rest)
    ensures Clean(s) <==> Clean(s[n..])
  {
  }

  lemma {:induction false} GluedHeader(a: Stream, b: Stream)
    requires |a| >= HEADER_LEN
    ensures FrameLen(a + b) == FrameLen(a) && (HeaderOk(a + b) <==> HeaderOk(a))
    ensures forall n :: 0 <= n <= |a| ==> (a + b)[n..] == a[n..] + b && (a + b)[..n] == a[..n]
  {
  }

  /** Parsing part of a clean stream and then the rest is parsing it whole. */
  lemma {:induction false} ScanSplit(a: Stream, b: Stream)
    requires Clean(a + b)
    ensures var p := Scan(a, false); var q := Scan(p.rest + b, false);
            Clean(p.rest + b) && Scan(a + b, false) == Parsed(p.frames + q.frames, q.rest)
    decreases |a|
  {
    if |a| < HEADER_LEN {
      assert Scan(a, false) == Parsed([], a);
    } else {
      GluedHeader(a, b);
      var n := FrameLen(a);
      if |a| < n {
        assert Scan(a, false) == Parsed([], a);
      } else {
        ScanTakesFrame(a, n);
        ScanTakesFrame(a + b, n);
        ScanSplit(a[n..], b);
        var inner := Scan(a[n..], false);
        Associative([a[..n]], inner.frames, Scan(inner.rest + b, false).frames);
      }
    }
  }

  lemma {:induction false} FeedIsScan(buf: Stream, data: Stream)
    requires |buf| < FRAME_MAX
    requires Incomplete(buf)
    requires Clean(buf + data)
    ensures FeedSpec(buf, data) == Scan(buf + data, false)
    ensures Incomplete(FeedSpec(buf, data).rest)
    decreases |data|
  {
    if data == [] {
      assert buf + data == buf;
    } else {
      var chunk := if |data| < FRAME_MAX - |buf| then |data| else FRAME_MAX - |buf|;
      var head := buf + data[..chunk];
      assert head + data[chunk..] == buf + data;
      ScanSplit(head, data[chunk..]);
      CleanPrefix(head, data[chunk..]);
      CleanScanStopsInsideAFrame(head);
      FeedIsScan(Scan(head, false).rest, data[chunk..]);
    }
  }

  lemma {:induction false} CleanPrefix(a: Stream, b: Stream)
    requires Clean(a + b)
    ensures Clean(a)
    decreases |a|
  {
    if |a| >= HEADER_LEN {
      assert FrameLen(a + b) == FrameLen(a);
      if |a| >= FrameLen(a) {
        assert (a + b)[FrameLen(a)..] == a[FrameLen(a)..] + b;
        CleanPrefix(a[FrameLen(a)..], b);
      }
    }
  }

  lemma {:induction false} CleanScanStopsInsideAFrame(s: Stream)
    requires Clean(s)
    ensures Incomplete(Scan(s, false).rest)
    decreases |s|
  {
    if |s| >= HEADER_LEN && |s| >= FrameLen(s) {
      CleanScanStopsInsideAFrame(s[FrameLen(s)..]);
    }
  }

  lemma {:induction false} FeedAllIsScan(buf: Stream, chunks: seq<Stream>)
    requires |buf| < FRAME_MAX
    requires Incomplete(buf)
    requires Clean(buf + Flatten(chunks))
    ensures FeedAll(buf, chunks) == Scan(buf + Flatten(chunks), false)
    decreases |chunks|
  {
    if chunks == [] {
      assert buf + Flatten(chunks) == buf;
    } else {
      var rest := Flatten(chunks[1..]);
      assert buf + Flatten(chunks) == (buf + chunks[0]) + rest;
      CleanPrefix(buf + chunks[0], rest);
      FeedIsScan(buf, chunks[0]);
      ScanSplit(buf + chunks[0], rest);
      FeedAllIsScan(FeedSpec(buf, chunks[0]).rest, chunks[1..]);
    }
  }

  /**
   The property the module exists for: whatever the chunk boundaries, a connection's callback gets
   exactly the frames its peer sent, in order, and exactly the unfinished tail stays buffered.
   */
  lemma {:induction false} Reassembles(chunks: seq<Stream>, frames: seq<Stream>, tail: Stream)
    requires forall f :: f in frames ==> WellFormed(f)
    requires Incomplete(tail)
    requires Flatten(chunks) == Flatten(frames) + tail
    ensures FeedAll([], chunks) == Parsed(frames, tail)
  {
    FramesAreClean(frames, tail);
    assert [] + Flatten(chunks) == Flatten(chunks);
    FeedAllIsScan([], chunks);
  }

  // ---- Arbitrary streams -----------------------------------------------------------------

  /** How a byte stream was used up: single bytes dropped while resynchronising, and frames. */
  datatype Piece = Dropped(byte: Byte) | Dispatched(frame: Stream)

  function PieceBytes(t: seq<Piece>): Stream {
    if t == [] then []
    else (if t[0].Dropped? then [t[0].byte] else t[0].frame) + PieceBytes(t[1..])
  }

  function PieceFrames(t: seq<Piece>): seq<Stream> {
    if t == [] then []
    else (if t[0].Dropped? then [] else [t[0].frame]) + PieceFrames(t[1..])
  }

  lemma {:induction false} PiecesConcat(a: seq<Piece>, b: seq<Piece>)
    ensures PieceBytes(a + b) == PieceBytes(a) + PieceBytes(b)
    ensures PieceFrames(a + b) == PieceFrames(a) + PieceFrames(b)
  {
    if a == [] {
      assert a + b == b;
    } else {
      assert (a + b)[1..] == a[1..] + b && (a + b)[0] == a[0];
      PiecesConcat(a[1..], b);
      if a[0].Dropped? {
        Associative([a[0].byte], PieceBytes(a[1..]), PieceBytes(b));
      } else {
        Associative(a[0].frame, PieceBytes(a[1..]), PieceBytes(b));
        Associative([a[0].frame], PieceFrames(a[1..]), PieceFrames(b));
      }
    }
  }

  /** `t` accounts for every byte of `s`: `p.frames` in order, dropped bytes, and the kept tail. */
  ghost predicate Accounts(t: seq<Piece>, s: Stream, p: Parsed) {
    PieceBytes(t) + p.rest == s && PieceFrames(t) == p.frames
  }

  lemma {:induction false} AccountsDrop(b: Stream, t: seq<Piece>, p: Parsed)
    requires b != [] && Accounts(t, b[1..], p)
    ensures Accounts([Dropped(b[0])] + t, b, p)
  {
  }

  lemma {:induction false} AccountsFrame(b: Stream, n: nat, t: seq<Piece>, p: Parsed)
    requires n <= |b| && Accounts(t, b[n..], p)
    ensures Accounts([Dispatched(b[..n])] + t, b, Parsed([b[..n]] + p.frames, p.rest))
  {
  }

  lemma {:induction false} ScanAccounts(b: Stream, resyncing: bool) returns (t: seq<Piece>)
    ensures Accounts(t, b, Scan(b, resyncing))
    decreases |b|
  {
    t := [];
    if |b| < HEADER_LEN {
    } else if !HeaderOk(b) || (|b| < FrameLen(b) && resyncing) {
      t := ScanAccounts(b[1..], true);
      AccountsDrop(b, t, Scan(b[1..], true));
      t := [Dropped(b[0])] + t;
    } else if |b| >= FrameLen(b) {
      var n := FrameLen(b);
      t := ScanAccounts(b[n..], false);
      AccountsFrame(b, n, t, Scan(b[n..], false));
      t := [Dispatched(b[..n])] + t;
    }
  }

  lemma {:induction false} AccountsThen(t: seq<Piece>, s: Stream, p: Parsed, t': seq<Piece>, more: Stream, p': Parsed)
    requires Accounts(t, s, p)
    requires Accounts(t', p.rest + more, p')
    ensures Accounts(t + t', s + more, Parsed(p.frames + p'.frames, p'.rest))
  {
    PiecesConcat(t, t');
    calc {
      PieceBytes(t + t') + p'.rest;
      PieceBytes(t) + (PieceBytes(t') + p'.rest);
      PieceBytes(t) + (p.rest + more);
      s + more;
    }
  }

  lemma {:induction false} FeedAccounts(buf: Stream, data: Stream) returns (t: seq<Piece>)
    requires |buf| < FRAME_MAX
    ensures Accounts(t, buf + data, FeedSpec(buf, data))
    decreases |data|
  {
    if data == [] {
      t := [];
      assert buf + data == buf;
    } else {
      var chunk := if |data| < FRAME_MAX - |buf| then |data| else FRAME_MAX - |buf|;
      var head, more := buf + data[..chunk], data[chunk..];
      assert buf + data == head + more;
      var t1 := ScanAccounts(head, false);
      var t2 := FeedAccounts(Scan(head, false).rest, more);
      AccountsThen(t1, head, Scan(head, false), t2, more, FeedSpec(Scan(head, false).rest, more));
      t := t1 + t2;
    }
  }

  lemma {:induction false} FlattenOnto(buf: Stream, chunks: seq<Stream>)
    requires chunks != []
    ensures buf + Flatten(chunks) == (buf + chunks[0]) + Flatten(chunks[1..])
  {
  }

  /**
   On any bytes at all and any cutting: every byte received was either dropped by the byte-wise
   resynchronisation, or is part of exactly one dispatched frame, or is still buffered — in order.
   */
  lemma {:induction false} EveryByteAccounted(buf: Stream, chunks: seq<Stream>) returns (t: seq<Piece>)
    requires |buf| < FRAME_MAX
    ensures Accounts(t, buf + Flatten(chunks), FeedAll(buf, chunks))
    decreases |chunks|
  {
    if chunks == [] {
      t := [];
      assert buf + Flatten(chunks) == buf;
    } else {
      var here := FeedSpec(buf, chunks[0]);
      var t1 := FeedAccounts(buf, chunks[0]);
      var t2 := EveryByteAccounted(here.rest, chunks[1..]);
      FlattenOnto(buf, chunks);
      AccountsThen(t1, buf + chunks[0], here, t2, Flatten(chunks[1..]), FeedAll(here.rest, chunks[1..]));
      t := t1 + t2;
    }
  }

  lemma {:induction false} ScanFramesWellFormed(b: Stream, resyncing: bool)
    ensures forall f :: f in Scan(b, resyncing).frames ==> WellFormed(f)
    decreases |b|
  {
    if |b| < HEADER_LEN {
    } else if !HeaderOk(b) || (|b| < FrameLen(b) && resyncing) {
      ScanFramesWellFormed(b[1..], true);
    } else if |b| >= FrameLen(b) {
      ScanFramesWellFormed(b[FrameLen(b)..], false);
      assert WellFormed(b[..FrameLen(b)]);
    }
  }

  /** Nothing but complete, plausible ADUs ever reaches the callback, whatever the peer sends. */
  lemma {:induction false} OnlyWellFormedDispatched(buf: Stream, data: Stream)
    requires |buf| < FRAME_MAX
    ensures forall f :: f in FeedSpec(buf, data).frames ==> WellFormed(f)
    decreases |data|
  {
    if data != [] {
      var chunk := if |data| < FRAME_MAX - |buf| then |data| else FRAME_MAX - |buf|;
      ScanFramesWellFormed(buf + data[..chunk], false);
      OnlyWellFormedDispatched(Scan(buf + data[..chunk], false).rest, data[chunk..]);
    }
  }

  // ---- Exactly which streams come through whole ----------------------------------------------

  lemma {:induction false} ScanStopsInsideAFrame(b: Stream, resyncing: bool)
    ensures Incomplete(Scan(b, resyncing).rest)
    decreases |b|
  {
    if |b| >= HEADER_LEN {
      if !HeaderOk(b) || (|b| < FrameLen(b) && resyncing) {
        ScanStopsInsideAFrame(b[1..], true);
      } else if |b| >= FrameLen(b) {
        ScanStopsInsideAFrame(b[FrameLen(b)..], false);
      }
    }
  }

  lemma {:induction false} FeedStopsInsideAFrame(buf: Stream, data: Stream)
    requires |buf| < FRAME_MAX && Incomplete(buf)
    ensures Incomplete(FeedSpec(buf, data).rest)
    decreases |data|
  {
    if data != [] {
      var chunk := if |data| < FRAME_MAX - |buf| then |data| else FRAME_MAX - |buf|;
      ScanStopsInsideAFrame(buf + data[..chunk], false);
      FeedStopsInsideAFrame(Scan(buf + data[..chunk], false).rest, data[chunk..]);
    }
  }

  lemma {:induction false} AllWellFormedDispatched(buf: Stream, chunks: seq<Stream>)
    requires |buf| < FRAME_MAX && Incomplete(buf)
    ensures forall f :: f in FeedAll(buf, chunks).frames ==> WellFormed(f)
    ensures Incomplete(FeedAll(buf, chunks).rest)
    decreases |chunks|
  {
    if chunks != [] {
      OnlyWellFormedDispatched(buf, chunks[0]);
      FeedStopsInsideAFrame(buf, chunks[0]);
      AllWellFormedDispatched(FeedSpec(buf, chunks[0]).rest, chunks[1..]);
    }
  }

  lemma {:induction false} FrameThenRest(s: Stream, n: nat, tail: Parsed)
    requires n <= |s| && Flatten(tail.frames) + tail.rest == s[n..]
    ensures Flatten([s[..n]] + tail.frames) + tail.rest == s
  {
    assert ([s[..n]] + tail.frames)[1..] == tail.frames;
    Associative(s[..n], Flatten(tail.frames), tail.rest);
  }

  lemma {:induction false} CleanScanKeepsEverything(s: Stream)
    requires Clean(s)
    ensures Flatten(Scan(s, false).frames) + Scan(s, false).rest == s
    decreases |s|
  {
    if Incomplete(s) {
      assert Scan(s, false) == Parsed([], s);
    } else {
      var n := FrameLen(s);
      CleanScanKeepsEverything(s[n..]);
      FrameThenRest(s, n, Scan(s[n..], false));
    }
  }

  /** However a stream is cut up: no byte of it is lost exactly if every header met at a frame boundary is
      plausible. */
  lemma {:induction false} NothingLostExactly(chunks: seq<Stream>)
    ensures var p := FeedAll([], chunks);
            Flatten(p.frames) + p.rest == Flatten(chunks) <==> Clean(Flatten(chunks))
  {
    var p, w := FeedAll([], chunks), Flatten(chunks);
    if Clean(w) {
      assert [] + w == w;
      FeedAllIsScan([], chunks);
      CleanScanKeepsEverything(w);
    }
    if Flatten(p.frames) + p.rest == w {
      AllWellFormedDispatched([], chunks);
      FramesAreClean(p.frames, p.rest);
    }
  }

  lemma {:induction false} ScanSkips(b: Stream, resyncing: bool)
    requires |b| >= HEADER_LEN && (!HeaderOk(b) || (resyncing && |b| < FrameLen(b)))
    ensures Scan(b, resyncing) == Scan(b[1..], true)
  {
  }

  /**
   Cleanness cannot be dropped from `Reassembles`: with a stray byte in front of a good frame the
   frame is found when both arrive together and lost when its last byte arrives separately, because
   a plausible but incomplete header met while resynchronising is skipped.
   */
  lemma {:induction false} StrayByteMakesCuttingVisible(x: Byte, f: Stream)
    requires WellFormed(f) && |f| == 9 && !HeaderOk([x] + f) && !HeaderOk(f[1..])
    ensures FeedAll([], [[x] + f]) == Parsed([f], [])
    ensures FeedAll([], [[x] + f[..8], f[8..]]) == Parsed([], f[2..])
  {
    var whole, cut := [x] + f, [x] + f[..8];
    assert whole[1..] == f && cut[1..] == f[..8] && f[..8][1..] == f[1..8];
    StrayThenWhole(whole, f);
    OneChunk([], whole);
    StrayThenCut(cut, f[..8]);
    ResumeAfterCut(f);
    TwoChunks([], cut, f[8..]);
  }

  lemma {:induction false} StrayThenWhole(s: Stream, f: Stream)
    requires HEADER_LEN <= |s| <= FRAME_MAX && !HeaderOk(s) && s[1..] == f && WellFormed(f)
    ensures FeedSpec([], s) == Parsed([f], [])
  {
    assert [] + s == s;
    ScanSkips(s, false);
    LoneFrame(f, true);
    WholeBufferFeed([], s);
  }

  lemma {:induction false} StrayThenCut(s: Stream, h: Stream)
    requires |s| == HEADER_LEN + 1 && !HeaderOk(s) && s[1..] == h && |h| < FrameLen(h)
    ensures FeedSpec([], s) == Parsed([], h[1..])
  {
    assert [] + s == s;
    ScanSkips(s, false);
    ScanSkips(h, true);
    WholeBufferFeed([], s);
  }

  lemma {:induction false} ResumeAfterCut(f: Stream)
    requires |f| == 9 && !HeaderOk(f[1..])
    ensures FeedSpec(f[1..8], f[8..]) == Parsed([], f[2..])
  {
    var s := f[1..];
    assert f[1..8] + f[8..] == s && s[1..] == f[2..];
    ScanSkips(s, false);
    WholeBufferFeed(f[1..8], f[8..]);
  }

  lemma {:induction false} TwoChunks(buf: Stream, a: Stream, b: Stream)
    requires |buf| < FRAME_MAX
    ensures var here := FeedSpec(buf, a);
            var later := FeedSpec(here.rest, b);
            FeedAll(buf, [a, b]) == Parsed(here.frames + later.frames, later.rest)
  {
    assert [a, b][1..] == [b];
    OneChunk(FeedSpec(buf, a).rest, b);
  }

  /** Such bytes exist: a nine-byte read of unit 1 behind a stray 1. */
  lemma {:induction false} StrayByteExample()
    ensures var f: Stream := [0, 0, 0, 0, 0, 3, 1, 3, 5];
            WellFormed(f) && |f| == 9 && !HeaderOk([1] + f) && !HeaderOk(f[1..])
  {
  }

  lemma {:induction false} LoneFrame(frame: Stream, resyncing: bool)
    requires WellFormed(frame)
    ensures Scan(frame, resyncing) == Parsed([frame], [])
  {
    assert frame[..|frame|] == frame && frame[|frame|..] == [];
  }

  lemma {:induction false} WholeBufferFeed(buf: Stream, data: Stream)
    requires 0 < |data| <= FRAME_MAX - |buf|
    ensures |buf| < FRAME_MAX
    ensures FeedSpec(buf, data) == Scan(buf + data, false)
  {
    assert data[..|data|] == data && data[|data|..] == [];
    assert FeedSpec(Scan(buf + data, false).rest, []).frames == [];
  }

  lemma {:induction false} OneChunk(buf: Stream, data: Stream)
    requires |buf| < FRAME_MAX
    ensures FeedAll(buf, [data]) == FeedSpec(buf, data)
  {
  }

  // ---- The slot table: many connections, eight buffers --------------------------------------

  datatype Slot = Slot(sock: int, buf: Stream)

  type Table = seq<Slot>

  predicate ValidTable(t: Table) {
    && |t| == MAX_CONNS
    && (forall i :: 0 <= i < |t| ==> |t[i].buf| < FRAME_MAX && t[i].sock >= FREE)
    && (forall i, j :: 0 <= i < j < |t| && t[i].sock == t[j].sock ==> t[i].sock == FREE)
  }

  /** Index of the first slot whose sock field is `sock`, or |t|. */
  function Find(t: Table, sock: int): (i: nat)
    ensures i <= |t|
    ensures i < |t| ==> t[i].sock == sock
    ensures forall j :: 0 <= j < i ==> t[j].sock != sock
  {
    if t == [] then 0 else if t[0].sock == sock then 0 else 1 + Find(t[1..], sock)
  }

  predicate Holds(t: Table, sock: int) {
    Find(t, sock) < |t|
  }

  function Buffered(t: Table, sock: int): Stream
    requires Holds(t, sock)
  {
    t[Find(t, sock)].buf
  }

  datatype FeedResult = NoSlot | Fed(frames: seq<Stream>)

  /** Slot a feed for `sock` works on: its own, else the first free one, else none (|t|). */
  function SlotFor(t: Table, sock: int): (i: nat)
    ensures i <= |t|
  {
    if Holds(t, sock) then Find(t, sock) else Find(t, FREE)
  }

  function FeedTable(t: Table, sock: int, data: Stream): (r: (Table, FeedResult))
    requires ValidTable(t)
    ensures ValidTable(r.0)
  {
    if sock < 0 then (t, NoSlot)
    else
      var i := SlotFor(t, sock);
      if i == |t| then (t, NoSlot)
      else
        var p := FeedSpec(if t[i].sock == sock then t[i].buf else [], data);
        (t[i := Slot(sock, p.rest)], Fed(p.frames))
  }

  function CloseTable(t: Table, sock: int): (t': Table)
    requires ValidTable(t)
    ensures ValidTable(t')
  {
    if sock < 0 || !Holds(t, sock) then t else t[Find(t, sock) := Slot(FREE, [])]
  }

  datatype Event = Recv(sock: int, data: Stream) | Close(sock: int)

  function Step(t: Table, e: Event): (t': Table)
    requires ValidTable(t)
    ensures ValidTable(t')
  {
    match e
    case Recv(sock, data) => FeedTable(t, sock, data).0
    case Close(sock) => CloseTable(t, sock)
  }

  function Run(t: Table, es: seq<Event>): (t': Table)
    requires ValidTable(t)
    ensures ValidTable(t')
    decreases |es|
  {
    if es == [] then t else Run(Step(t, es[0]), es[1..])
  }

  /** Frames dispatched for connection `c` during a run. */
  function FramesFor(t: Table, es: seq<Event>, c: int): seq<Stream>
    requires ValidTable(t)
    decreases |es|
  {
    if es == [] then []
    else
      (match es[0]
       case Recv(sock, data) =>
         var r := FeedTable(t, sock, data).1;
         if sock == c && r.Fed? then r.frames else []
       case Close(_) => [])
      + FramesFor(Step(t, es[0]), es[1..], c)
  }

  /** The chunks connection `c` received, in order. */
  function ChunksOf(es: seq<Event>, c: int): seq<Stream> {
    if es == [] then []
    else (if es[0].Recv? && es[0].sock == c then [es[0].data] else []) + ChunksOf(es[1..], c)
  }

  lemma {:induction false} FindUnique(t: Table, i: nat)
    requires ValidTable(t) && i < |t| && t[i].sock >= 0
    ensures Find(t, t[i].sock) == i
  {
  }

  /** No event of another connection can move, change or free this connection's slot. */
  lemma {:induction false} OthersDoNotTouch(t: Table, e: Event, c: int)
    requires ValidTable(t) && c >= 0 && Holds(t, c)
    requires e.sock != c
    ensures Holds(Step(t, e), c) && Buffered(Step(t, e), c) == Buffered(t, c)
  {
  }

  lemma {:induction false} FeedAllCons(buf: Stream, data: Stream, more: seq<Stream>)
    requires |buf| < FRAME_MAX
    ensures var here := FeedSpec(buf, data);
            var later := FeedAll(here.rest, more);
            FeedAll(buf, [data] + more) == Parsed(here.frames + later.frames, later.rest)
  {
  }

  /** What an event means for one connection: its own bytes go into its own buffer, and no other's do. */
  lemma {:induction false} OwnBytes(t: Table, es: seq<Event>, c: int)
    requires ValidTable(t) && c >= 0 && Holds(t, c) && es != [] && es[0].Recv? && es[0].sock == c
    ensures var here := FeedSpec(Buffered(t, c), es[0].data); var t' := Step(t, es[0]);
            && Holds(t', c) && Buffered(t', c) == here.rest
            && FramesFor(t, es, c) == here.frames + FramesFor(t', es[1..], c)
  {
    FindUnique(Step(t, es[0]), Find(t, c));
  }

  lemma {:induction false} OtherBytes(t: Table, es: seq<Event>, c: int)
    requires ValidTable(t) && c >= 0 && Holds(t, c) && es != [] && es[0].sock != c
    ensures var t' := Step(t, es[0]);
            && Holds(t', c) && Buffered(t', c) == Buffered(t, c)
            && FramesFor(t, es, c) == FramesFor(t', es[1..], c) && ChunksOf(es, c) == ChunksOf(es[1..], c)
  {
    OthersDoNotTouch(t, es[0], c);
  }

  /**
   Per-connection independence over every interleaving: a connection that holds a slot and does not
   close gets exactly the frames of its own byte stream, as if it were alone.
   */
  lemma {:induction false} Independence(t: Table, es: seq<Event>, c: int)
    requires ValidTable(t) && c >= 0 && Holds(t, c)
    requires Close(c) !in es
    ensures Holds(Run(t, es), c)
    ensures Parsed(FramesFor(t, es, c), Buffered(Run(t, es), c)) == FeedAll(Buffered(t, c), ChunksOf(es, c))
    decreases |es|
  {
    if es != [] {
      var t' := Step(t, es[0]);
      var more := ChunksOf(es[1..], c);
      if es[0].sock == c {
        assert es[0] == Recv(c, es[0].data);
        OwnBytes(t, es, c);
        Independence(t', es[1..], c);
        assert ChunksOf(es, c) == [es[0].data] + more;
        FeedAllCons(Buffered(t, c), es[0].data, more);
      } else {
        OtherBytes(t, es, c);
        Independence(t', es[1..], c);
      }
    }
  }

  /**
   End to end: a connection that claims a slot with its first recv() and stays open gets exactly the
   frames it sent, however its bytes were cut and however its recv() calls interleave with those of
   other connections.
   */
  lemma {:induction false} EveryConnectionReassembled(t: Table, first: Stream, es: seq<Event>, c: int,
                                   frames: seq<Stream>, tail: Stream)
    requires ValidTable(t) && c >= 0 && !Holds(t, c) && Holds(t, FREE)
    requires Close(c) !in es
    requires forall f :: f in frames ==> WellFormed(f)
    requires Incomplete(tail)
    requires first + Flatten(ChunksOf(es, c)) == Flatten(frames) + tail
    ensures var run := [Recv(c, first)] + es;
            && FramesFor(t, run, c) == frames
            && Holds(Run(t, run), c)
            && Buffered(Run(t, run), c) == tail
  {
    var run := [Recv(c, first)] + es;
    var i := Find(t, FREE);
    var t' := Step(t, run[0]);
    assert t'[i].sock == c;
    FindUnique(t', i);
    assert run[1..] == es;
    Independence(t', es, c);
    var chunks := [first] + ChunksOf(es, c);
    assert chunks[1..] == ChunksOf(es, c);
    Reassembles(chunks, frames, tail);
  }

  /** A close frees exactly one slot, forgets its partial frame, and nobody else notices. */
  lemma {:induction false} CloseForgetsOnlyItself(t: Table, c: int, d: int)
    requires ValidTable(t) && c >= 0 && Holds(t, c)
    ensures !Holds(CloseTable(t, c), c)
    ensures Holds(CloseTable(t, c), FREE)
    ensures d >= 0 && d != c ==> (Holds(CloseTable(t, c), d) <==> Holds(t, d))
    ensures d >= 0 && d != c && Holds(t, d) ==> Buffered(CloseTable(t, c), d) == Buffered(t, d)
  {
    var i := Find(t, c);
    var t' := CloseTable(t, c);
    assert t'[i].sock == FREE;
    if d >= 0 && d != c {
      if Holds(t, d) {
        OthersDoNotTouch(t, Close(c), d);
      }
      if Holds(t', d) {
        assert t[Find(t', d)].sock == d;
      }
    }
  }

  /**
   A feed is refused exactly when the descriptor is invalid or all eight slots belong to other
   connections, and then nothing is buffered.
   */
  lemma {:induction false} RefusedExactlyWhenFull(t: Table, c: int, data: Stream)
    requires ValidTable(t)
    ensures FeedTable(t, c, data).1.NoSlot? <==>
            c < 0 || forall i :: 0 <= i < MAX_CONNS ==> t[i].sock != c && t[i].sock != FREE
    ensures FeedTable(t, c, data).1.NoSlot? ==> FeedTable(t, c, data).0 == t
  {
  }
}

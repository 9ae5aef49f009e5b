/**
 The in-place half of main/bridge/mbtcp_reasm.c: fixed 300-byte buffers, memcpy/memmove and a table
 of eight slots, proved to compute the functions of module Reassembly.
 */
module ReassemblyBuffers {
  import opened Bytes
  import opened Reassembly

  class SlotBuffer {
    var sock: int
    var len: nat
    const buf: array<Byte>

    constructor ()
      ensures sock == FREE && len == 0 && buf.Length == FRAME_MAX && fresh(buf)
    {
      sock, len := FREE, 0;
      buf := new Byte[FRAME_MAX](_ => 0);
    }

    ghost predicate Valid()
      reads this
    {
      buf.Length == FRAME_MAX && len < FRAME_MAX
    }

    ghost function Contents(): Stream
      reads this, buf
    {
      if len <= buf.Length then buf[..len] else []
    }

    /**
     The dispatch loop. It leaves the buffer alone and reports where the unconsumed tail starts.
     */
    method Dispatch() returns (frames: seq<Stream>, pos: nat)
      requires buf.Length == FRAME_MAX && len <= FRAME_MAX
      ensures pos <= len
      ensures Parsed(frames, buf[pos..len]) == Scan(buf[..len], false)
    {
      ghost var all := buf[..len];
      frames, pos := [], 0;
      var resyncing := false;
      while len - pos >= HEADER_LEN
        invariant pos <= len && ResumesAt(all, frames, pos, resyncing)
        decreases len - pos
      {
        var h := buf[pos..len];
        assert h == all[pos..];
        var whole := HeaderOk(h) && len - pos >= FrameLen(h);
        if whole {
          var n := FrameLen(h);
          ResumeFrame(all, frames, pos, resyncing);
          frames, pos, resyncing := frames + [h[..n]], pos + n, false;
        } else if HeaderOk(h) && !resyncing {
          break;
        } else {
          ResumeSkip(all, frames, pos, resyncing);
          pos, resyncing := pos + 1, true;
        }
      }
      ResumeEnds(all, frames, pos, resyncing);
    }

    /** The same for a slot that may have been another connection's, or nobody's, before. */
    method FeedFor(s: int, data: Stream) returns (frames: seq<Stream>)
      requires Valid()
      modifies this, buf
      ensures Valid() && sock == s
      ensures Parsed(frames, Contents()) == FeedSpec(if old(sock) == s then old(Contents()) else [], data)
    {
      if sock != s {
        sock, len := s, 0;
      }
      frames := Feed(data);
    }

    /** One recv() worth of bytes for this connection. */
    method Feed(data: Stream) returns (frames: seq<Stream>)
      requires Valid()
      modifies `len, buf
      ensures Valid()
      ensures Parsed(frames, Contents()) == FeedSpec(old(Contents()), data)
    {
      ghost var start := Contents();
      frames := [];
      var left := data;
      ContinueEnds(start, data, [], start);
      while left != []
        invariant Valid() && Continues(start, data, frames, Contents(), left)
        decreases |left|
      {
        ghost var before := Contents();
        var space := FRAME_MAX - len;
        var chunk := if |left| < space then |left| else space;
        var got := FeedChunk(left[..chunk]);
        ContinueChunk(start, data, frames, before, left, chunk, Parsed(got, Contents()));
        frames, left := frames + got, left[chunk..];
      }
      ContinueEnds(start, data, frames, Contents());
    }

    /**
     Append a chunk that fits, dispatch, and shift the unconsumed tail to the front. The chunk may
     fill the buffer; afterwards it is never full, so the source's "buffer full, drop" reset cannot
     fire.
     */
    method FeedChunk(chunk: Stream) returns (frames: seq<Stream>)
      requires Valid() && len + |chunk| <= FRAME_MAX
      modifies `len, buf
      ensures Valid()
      ensures Parsed(frames, Contents()) == Scan(old(Contents()) + chunk, false)
    {
      Append(chunk);
      var pos;
      frames, pos := Dispatch();
      ShiftDown(pos);
    }

    /** memcpy of the new bytes behind the old ones. */
    method Append(chunk: Stream)
      requires Valid() && len + |chunk| <= FRAME_MAX
      modifies `len, buf
      ensures len == old(len) + |chunk| && buf[..len] == old(buf[..len]) + chunk
    {
      forall k | 0 <= k < |chunk| {
        buf[len + k] := chunk[k];
      }
      len := len + |chunk|;
    }

    /** memmove of the unconsumed tail to the front. */
    method ShiftDown(pos: nat)
      requires buf.Length == FRAME_MAX && pos <= len <= FRAME_MAX
      modifies `len, buf
      ensures len == old(len) - pos && buf[..len] == old(buf[pos..len])
    {
      forall k | 0 <= k < len - pos {
        buf[k] := buf[k + pos];
      }
      len := len - pos;
    }
  }

  /** Scanning `all` has dispatched `frames` and is about to look at position `pos`. */
  ghost predicate ResumesAt(all: Stream, frames: seq<Stream>, pos: nat, resyncing: bool) {
    && pos <= |all|
    && Scan(all, false) == Parsed(frames + Scan(all[pos..], resyncing).frames,
                                  Scan(all[pos..], resyncing).rest)
  }

  lemma {:induction false} ResumeEnds(all: Stream, frames: seq<Stream>, pos: nat, resyncing: bool)
    requires ResumesAt(all, frames, pos, resyncing)
    requires |all| - pos < HEADER_LEN || (HeaderOk(all[pos..]) && |all| - pos < FrameLen(all[pos..]) && !resyncing)
    ensures Scan(all, false) == Parsed(frames, all[pos..])
  {
  }

  lemma {:induction false} ResumeSkip(all: Stream, frames: seq<Stream>, pos: nat, resyncing: bool)
    requires ResumesAt(all, frames, pos, resyncing)
    requires |all| - pos >= HEADER_LEN
    requires !HeaderOk(all[pos..]) || (|all| - pos < FrameLen(all[pos..]) && resyncing)
    ensures ResumesAt(all, frames, pos + 1, true)
  {
  }

  lemma {:induction false} ResumeFrame(all: Stream, frames: seq<Stream>, pos: nat, resyncing: bool)
    requires ResumesAt(all, frames, pos, resyncing)
    requires |all| - pos >= HEADER_LEN
    requires HeaderOk(all[pos..]) && |all| - pos >= FrameLen(all[pos..])
    ensures var n := FrameLen(all[pos..]);
            ResumesAt(all, frames + [all[pos..][..n]], pos + n, false)
  {
  }

  /** Feeding `data` to `start` has dispatched `frames`; `left` still goes into `buf`. */
  ghost predicate Continues(start: Stream, data: Stream, frames: seq<Stream>, buf: Stream, left: Stream)
    requires |start| < FRAME_MAX && |buf| < FRAME_MAX
  {
    FeedSpec(start, data) == Parsed(frames + FeedSpec(buf, left).frames, FeedSpec(buf, left).rest)
  }

  lemma {:induction false} FeedStep(buf: Stream, left: Stream, chunk: nat)
    requires |buf| < FRAME_MAX && left != []
    requires chunk == if |left| < FRAME_MAX - |buf| then |left| else FRAME_MAX - |buf|
    ensures var here := Scan(buf + left[..chunk], false);
            var later := FeedSpec(here.rest, left[chunk..]);
            FeedSpec(buf, left) == Parsed(here.frames + later.frames, later.rest)
  {
  }

  lemma {:induction false} ContinueChunk(start: Stream, data: Stream, frames: seq<Stream>, buf: Stream, left: Stream,
                      chunk: nat, here: Parsed)
    requires |start| < FRAME_MAX && |buf| < FRAME_MAX && left != []
    requires Continues(start, data, frames, buf, left)
    requires chunk == if |left| < FRAME_MAX - |buf| then |left| else FRAME_MAX - |buf|
    requires here == Scan(buf + left[..chunk], false)
    ensures Continues(start, data, frames + here.frames, here.rest, left[chunk..])
  {
    FeedStep(buf, left, chunk);
    Associative(frames, here.frames, FeedSpec(here.rest, left[chunk..]).frames);
  }

  lemma {:induction false} ContinueEnds(start: Stream, data: Stream, frames: seq<Stream>, buf: Stream)
    requires |start| < FRAME_MAX && |buf| < FRAME_MAX
    ensures Continues(start, data, frames, buf, []) ==> FeedSpec(start, data) == Parsed(frames, buf)
    ensures Continues(start, data, [], start, data)
  {
  }

  class Reassembler {
    const slots: array<SlotBuffer>

    constructor ()
      ensures Valid()
      ensures forall i :: 0 <= i < MAX_CONNS ==> View()[i] == Slot(FREE, [])
    {
      var s := new SlotBuffer();
      slots := new SlotBuffer[MAX_CONNS](_ => s);
      new;
      var n := 0;
      while n < MAX_CONNS
        invariant 0 <= n <= MAX_CONNS
        invariant forall i :: 0 <= i < n ==>
          && fresh(slots[i]) && fresh(slots[i].buf)
          && slots[i].sock == FREE && slots[i].len == 0 && slots[i].buf.Length == FRAME_MAX
        invariant forall i, j :: 0 <= i < j < n ==>
          slots[i] != slots[j] && slots[i].buf != slots[j].buf
      {
        slots[n] := new SlotBuffer();
        n := n + 1;
      }
    }

    ghost function Repr(): set<object>
      reads this, slots
    {
      (set i | 0 <= i < slots.Length :: slots[i] as object) +
      (set i | 0 <= i < slots.Length :: slots[i].buf as object)
    }

    ghost predicate Shape()
      reads this, slots
    {
      && slots.Length == MAX_CONNS
      && (forall i, j :: 0 <= i < j < slots.Length ==>
            slots[i] != slots[j] && slots[i].buf != slots[j].buf)
    }

    ghost predicate Valid()
      reads this, slots, Repr()
    {
      && Shape()
      && (forall i :: 0 <= i < slots.Length ==> slots[i].Valid())
      && ValidTable(View())
    }

    ghost function View(): Table
      reads this, slots, Repr()
    {
      seq(slots.Length, i requires 0 <= i < slots.Length reads this, slots, Repr() =>
        Slot(slots[i].sock, slots[i].Contents()))
    }

    /** Slot held by `sock`, else the first free slot, else MAX_CONNS. */
    method SlotGet(sock: int) returns (at: nat)
      requires Valid() && sock >= 0
      ensures at == SlotFor(View(), sock)
    {
      var free: nat := MAX_CONNS;
      at := MAX_CONNS;
      var i := 0;
      while i < MAX_CONNS
        invariant 0 <= i <= MAX_CONNS && at == MAX_CONNS
        invariant forall j :: 0 <= j < i ==> View()[j].sock != sock
        invariant free == MAX_CONNS || free < i
        invariant free < MAX_CONNS ==> View()[free].sock == FREE
        invariant forall j :: 0 <= j < i && j < free ==> View()[j].sock != FREE
      {
        if slots[i].sock == sock {
          at := i;
          assert View()[i].sock == sock;
          return;
        }
        if free == MAX_CONNS && slots[i].sock == FREE {
          free := i;
        }
        i := i + 1;
      }
      at := free;
      assert Find(View(), FREE) == free;
    }

    method FeedSock(sock: int, data: Stream) returns (r: FeedResult)
      requires Valid()
      modifies Repr()
      ensures Valid()
      ensures (View(), r) == FeedTable(old(View()), sock, data)
    {
      if sock < 0 {
        return NoSlot;
      }
      var at := SlotGet(sock);
      if at == MAX_CONNS {
        return NoSlot;
      }
      var frames := FeedSlot(at, sock, data);
      r := Fed(frames);
    }

    /** The slot picked takes the bytes; the others stay as they are. */
    method FeedSlot(at: nat, sock: int, data: Stream) returns (frames: seq<Stream>)
      requires Shape() && at < MAX_CONNS && forall i :: 0 <= i < slots.Length ==> slots[i].Valid()
      modifies slots[at], slots[at].buf
      ensures Shape() && forall i :: 0 <= i < slots.Length ==> slots[i].Valid()
      ensures var held := old(if slots[at].sock == sock then slots[at].Contents() else []);
              && |held| < FRAME_MAX && frames == FeedSpec(held, data).frames
              && View() == old(View())[at := Slot(sock, FeedSpec(held, data).rest)]
    {
      frames := slots[at].FeedFor(sock, data);
      assert forall i :: 0 <= i < MAX_CONNS && i != at ==> View()[i] == old(View()[i]);
    }

    method CloseSock(sock: int)
      requires Valid()
      modifies Repr()
      ensures Valid()
      ensures View() == CloseTable(old(View()), sock)
    {
      if sock < 0 {
        return;
      }
      var i := 0;
      while i < MAX_CONNS
        invariant 0 <= i <= MAX_CONNS
        invariant forall j :: 0 <= j < i ==> View()[j].sock != sock
        invariant View() == old(View()) && Valid()
      {
        if slots[i].sock == sock {
          assert View()[i].sock == sock;
          slots[i].sock, slots[i].len := FREE, 0;
          assert View() == CloseTable(old(View()), sock);
          return;
        }
        i := i + 1;
      }
    }
  }
}

/**
 The test client's receive loops (api_tests/26_test_fast_modbus_probe_e2e.py,
 api_tests/20_test_cache_tcp_framing.py, api_tests/modbus_helpers.py) over a socket that may deliver its
 bytes in any portions, and the Fast Modbus probe frame they exchange.
 */
module ClientFraming {
  import opened Bytes
  import opened Reassembly

  datatype Received = Got(bytes: Stream) | PeerClosed | TimedOut

  /** A connected socket: the bytes still to be delivered, and whether the peer closes after them. */
  class Socket {
    var pending: Stream
    const peerCloses: bool

    constructor (pending: Stream, peerCloses: bool)
      ensures this.pending == pending && this.peerCloses == peerCloses
    {
      this.pending, this.peerCloses := pending, peerCloses;
    }

    /** recv(n): between one and n of the pending bytes, as the network pleases. */
    method Recv(n: nat) returns (r: Received)
      requires n > 0
      modifies this
      ensures old(pending) == [] ==> r == (if peerCloses then PeerClosed else TimedOut)
      ensures old(pending) != [] ==> r.Got? && 0 < |r.bytes| <= n
      ensures old(pending) == (if r.Got? then r.bytes else []) + pending
    {
      if pending == [] {
        return if peerCloses then PeerClosed else TimedOut;
      }
      var k: nat :| 1 <= k <= n && k <= |pending|;
      r := Got(pending[..k]);
      pending := pending[k..];
    }

    method RecvExactly(n: nat) returns (r: Received)
      modifies this
      ensures |old(pending)| >= n ==> r == Got(old(pending)[..n]) && pending == old(pending)[n..]
      ensures |old(pending)| < n ==> pending == [] && r == (if peerCloses then PeerClosed else TimedOut)
    {
      var buf: Stream := [];
      while |buf| < n
        invariant |buf| <= n
        invariant old(pending) == buf + pending
        decreases n - |buf|
      {
        var chunk := Recv(n - |buf|);
        if !chunk.Got? {
          return chunk;
        }
        buf := buf + chunk.bytes;
      }
      r := Got(buf);
    }

    /** One response: six MBAP bytes, then as many bytes as their length field says. */
    method RecvResponse() returns (r: Received)
      modifies this
      ensures ReceivesOneFrame(old(pending), peerCloses, r, pending)
    {
      var header := RecvExactly(6);
      if !header.Got? {
        return header;
      }
      var pdu := RecvExactly(BigEndian(header.bytes[4], header.bytes[5]));
      if !pdu.Got? {
        return pdu;
      }
      r := Got(header.bytes + pdu.bytes);
    }

    /** The cache tests' variant: eight header bytes, then the rest of the declared length if there is any. */
    method RecvOneResponse() returns (r: Received)
      modifies this
      ensures ReceivesHeaderAndRest(old(pending), peerCloses, r, pending)
    {
      var header := RecvExactly(HEADER_LEN);
      if !header.Got? {
        return header;
      }
      var remaining := BigEndian(header.bytes[4], header.bytes[5]) as int - 2;
      if remaining <= 0 {
        return header;
      }
      var payload := RecvExactly(remaining);
      if !payload.Got? {
        return payload;
      }
      r := Got(header.bytes + payload.bytes);
    }
  }

  /** Header first: never less than eight bytes, whatever the length field says. */
  predicate ReceivesHeaderAndRest(before: Stream, closes: bool, r: Received, after: Stream) {
    if |before| >= HEADER_LEN && |before| >= FrameLen(before) then
      var n := if FrameLen(before) < HEADER_LEN then HEADER_LEN else FrameLen(before);
      r == Got(before[..n]) && after == before[n..]
    else
      after == [] && r == (if closes then PeerClosed else TimedOut)
  }

  /** In front of a frame the two header-first variants do the same: they take exactly that frame. */
  lemma {:induction false} VariantsAgreeOnFrames(f: Stream, rest: Stream, closes: bool, r: Received, after: Stream)
    requires WellFormed(f)
    ensures ReceivesHeaderAndRest(f + rest, closes, r, after) <==> ReceivesOneFrame(f + rest, closes, r, after)
  {
  }

  /** Exactly one frame is taken off the stream, or the loop reports why the frame never ends. */
  predicate ReceivesOneFrame(before: Stream, closes: bool, r: Received, after: Stream) {
    if |before| >= 6 && |before| >= FrameLen(before) then
      var n := FrameLen(before);
      r == Got(before[..n]) && after == before[n..]
    else
      after == [] && r == (if closes then PeerClosed else TimedOut)
  }

  /** Behind any stream of whole frames the loop peels off the first and leaves the others intact. */
  lemma {:induction false} TakesExactlyTheFirstFrame(frames: seq<Stream>, tail: Stream, closes: bool, r: Received,
                                                     after: Stream)
    requires frames != [] && forall f :: f in frames ==> WellFormed(f)
    requires ReceivesOneFrame(Flatten(frames) + tail, closes, r, after)
    ensures r == Got(frames[0])
    ensures after == Flatten(frames[1..]) + tail
  {
    var f := frames[0];
    assert WellFormed(f);
    assert Flatten(frames) + tail == f + (Flatten(frames[1..]) + tail);
  }

  // ---- In blocks ----------------------------------------------------------------------------

  /** What one recv(256) of the gateway tests' receiver comes to: some bytes, nothing in time, or the end. */
  datatype Turn = Chunk(bytes: Stream) | Quiet | Closed

  predicate Deliverable(tr: seq<Turn>) {
    forall i :: 0 <= i < |tr| && tr[i].Chunk? ==> 0 < |tr[i].bytes| <= 256
  }

  function Heard(tr: seq<Turn>): Stream {
    if tr == [] then [] else (if tr[0].Chunk? then tr[0].bytes else []) + Heard(tr[1..])
  }

  lemma {:induction false} HeardThen(tr: seq<Turn>, t: Turn)
    ensures Heard(tr + [t]) == Heard(tr) + if t.Chunk? then t.bytes else []
  {
    if tr == [] {
      assert tr + [t] == [t] && [t][1..] == [];
    } else {
      assert (tr + [t])[1..] == tr[1..] + [t];
      HeardThen(tr[1..], t);
    }
  }

  lemma {:induction false} HeardJoins(a: seq<Turn>, b: seq<Turn>)
    ensures Heard(a + b) == Heard(a) + Heard(b)
  {
    if a == [] {
      assert a + b == b;
    } else {
      assert (a + b)[1..] == a[1..] + b;
      HeardJoins(a[1..], b);
    }
  }

  predicate Enough(s: Stream) {
    |s| >= 6 && |s| >= FrameLen(s)
  }

  /** Nothing in the first n turns ends the receiver. */
  predicate Waits(tr: seq<Turn>, n: nat)
    requires n <= |tr|
  {
    forall k :: 0 <= k < n ==> !Enough(Heard(tr[..k])) && !tr[k].Closed?
  }

  /** The receiver ends after n turns: with a frame and whatever came with its end, or at the deadline, or
      because the peer closed, which it does not mind once the header is in. */
  predicate ReceivesInBlocks(tr: seq<Turn>, deadline: nat, r: Received, n: nat) {
    && n <= deadline && n <= |tr| && Waits(tr, n)
    && var got := Heard(tr[..n]);
       if Enough(got) then r == Got(got)
       else if n == deadline then r == TimedOut
       else n < |tr| && tr[n].Closed? && r == if |got| < 6 then PeerClosed else Got(got)
  }

  /** `deadline` is how many turns the clock allows. */
  method RecvInBlocks(tr: seq<Turn>, deadline: nat) returns (r: Received, n: nat)
    requires Deliverable(tr) && |tr| >= deadline
    ensures ReceivesInBlocks(tr, deadline, r, n)
  {
    var response: Stream := [];
    n := 0;
    while |response| < 6
      invariant n <= deadline && response == Heard(tr[..n]) && Waits(tr, n)
      decreases deadline - n
    {
      if n >= deadline {
        return TimedOut, n;
      }
      if tr[n].Closed? {
        return PeerClosed, n;
      }
      HeardThen(tr[..n], tr[n]);
      assert tr[..n + 1] == tr[..n] + [tr[n]];
      if tr[n].Chunk? {
        response := response + tr[n].bytes;
      }
      n := n + 1;
    }
    while |response| < FrameLen(response)
      invariant n <= deadline && 6 <= |response| && response == Heard(tr[..n]) && Waits(tr, n)
      decreases deadline - n
    {
      if n >= deadline {
        return TimedOut, n;
      }
      if tr[n].Closed? {
        break;
      }
      HeardThen(tr[..n], tr[n]);
      assert tr[..n + 1] == tr[..n] + [tr[n]];
      if tr[n].Chunk? {
        response := response + tr[n].bytes;
      }
      n := n + 1;
    }
    r := Got(response);
  }

  lemma {:induction false} HeardGrows(tr: seq<Turn>, j: nat, k: nat)
    requires j <= k <= |tr|
    ensures Heard(tr[..j]) <= Heard(tr[..k]) <= Heard(tr)
  {
    assert tr[..k] == tr[..j] + tr[j..k] && tr == tr[..k] + tr[k..];
    HeardJoins(tr[..j], tr[j..k]);
    HeardJoins(tr[..k], tr[k..]);
  }

  lemma {:induction false} EnoughExactly(f: Stream, rest: Stream, s: Stream)
    requires WellFormed(f) && s <= f + rest
    ensures Enough(s) <==> |s| >= |f|
  {
    if |s| >= 6 {
      assert s[4] == f[4] && s[5] == f[5];
    }
  }

  /** Some recv() ends just where the frame does. */
  predicate CutAt(tr: seq<Turn>, length: nat) {
    exists k :: 0 <= k <= |tr| && |Heard(tr[..k])| == length
  }

  /** In front of a frame the block receiver, once it has enough, returns that frame alone exactly if some
      recv() ended just where the frame does; otherwise the start of the next frame comes with it. */
  lemma {:induction false} OneFrameExactly(tr: seq<Turn>, deadline: nat, n: nat, f: Stream, rest: Stream, r: Received)
    requires WellFormed(f) && Heard(tr) == f + rest && ReceivesInBlocks(tr, deadline, r, n) && Enough(Heard(tr[..n]))
    ensures r.Got? && f <= r.bytes
    ensures r == Got(f) <==> CutAt(tr, |f|)
  {
    var got := Heard(tr[..n]);
    HeardGrows(tr, n, n);
    EnoughExactly(f, rest, got);
    assert got[..|f|] == f;
    if CutAt(tr, |f|) {
      var k :| 0 <= k <= |tr| && |Heard(tr[..k])| == |f|;
      HeardGrows(tr, k, k);
      EnoughExactly(f, rest, Heard(tr[..k]));
      assert n <= k;
      HeardGrows(tr, n, k);
    }
  }

  /** Two replies that arrive together come back as one, and nothing is left for the next call. */
  lemma {:induction false} BlocksCanOverrun(f: Stream, g: Stream, deadline: nat)
    requires WellFormed(f) && WellFormed(g) && |f| + |g| <= 256 && deadline > 0
    ensures Deliverable([Chunk(f + g)]) && ReceivesInBlocks([Chunk(f + g)], deadline, Got(f + g), 1)
  {
    var tr := [Chunk(f + g)];
    assert tr[..1] == tr && tr[1..] == [] && tr[..0] == [];
    assert Heard(tr) == f + g + [] == f + g;
    EnoughExactly(f, g, f + g);
  }

  // ---- The Fast Modbus probe ----------------------------------------------------------------

  const PROBE_PAYLOAD: Stream := [87, 66, 45, 70, 65, 83, 84, 45, 77, 79, 68, 66, 85, 83, 63]
  const PROBE_REPLY: Stream := [87, 66, 45, 70, 65, 83, 84, 45, 77, 79, 68, 66, 85, 83, 45, 79, 75]

  function BuildProbe(tid: Word): (f: Stream)
    ensures |f| == 23
  {
    [HighByte(tid), LowByte(tid), 0, 0, 0, 17, 0x00, 0x47] + PROBE_PAYLOAD
  }

  lemma {:induction false} HeaderMakesFrame(h: Stream, payload: Stream)
    requires |h| == 8 && h[2] == 0 && h[3] == 0 && h[4] == 0 && h[5] as int == |payload| + 2
    ensures WellFormed(h + payload)
  {
  }

  lemma {:induction false} ProbeIsWellFormed(tid: Word)
    ensures WellFormed(BuildProbe(tid)) && BigEndian(BuildProbe(tid)[0], BuildProbe(tid)[1]) == tid
  {
    HeaderMakesFrame([HighByte(tid), LowByte(tid), 0, 0, 0, 17, 0x00, 0x47], PROBE_PAYLOAD);
  }

  /** The gateway's test for a probe (main/bridge/fast_modbus.c), on a frame that passed framing. */
  predicate IsProbe(f: Stream)
    requires WellFormed(f)
  {
    f[7] == 0x47 && f[6] == 0x00 && BigEndian(f[4], f[5]) == 17 && f[8..8 + |PROBE_PAYLOAD|] == PROBE_PAYLOAD
  }

  function ProbeResponse(f: Stream): Stream
    requires WellFormed(f) && IsProbe(f)
  {
    [f[0], f[1], f[2], f[3], 0, 19, f[6], f[7]] + PROBE_REPLY
  }

  /** The answer is a frame of its own, under the probe's transaction id. */
  lemma {:induction false} ProbeResponseIsWellFormed(f: Stream)
    requires WellFormed(f) && IsProbe(f)
    ensures WellFormed(ProbeResponse(f)) && ProbeResponse(f)[..2] == f[..2] && ProbeResponse(f)[8..] == PROBE_REPLY
  {
  }

  /** A well-formed frame is answered as a probe exactly when the client's builder makes it. */
  lemma {:induction false} ProbeRecognisedExactly(f: Stream)
    requires WellFormed(f)
    ensures IsProbe(f) <==> f == BuildProbe(BigEndian(f[0], f[1]))
  {
  }
}

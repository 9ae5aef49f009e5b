/**
 Connections without a reassembly slot. The gateway (main/bridge/modbus_tcp.c) then takes whole frames
 off one recv() and drops the rest; the cache server (main/bridge/cache_modbus_server.c) takes the
 recv() for one frame.
 */
module OnePass {
  import opened Bytes
  import opened Reassembly
  import opened CacheServer

  /** The single pass: stop at a fragment, at a frame that does not check out, or when the queue is full. */
  function Separate(data: Stream, room: nat): seq<Stream>
    decreases room
  {
    if |data| < 6 || room == 0 then []
    else
      var n := FrameLen(data);
      if n > |data| || !ValidRequest(data[..n]) then []
      else [data[..n]] + Separate(data[n..], room - 1)
  }

  /** A frame the request check passes; unlike a reassembled one it may be longer than 300 bytes. */
  predicate WholeRequest(f: Stream) {
    ValidRequest(f) && |f| == FrameLen(f)
  }

  lemma {:induction false} CheckedIsWhole(data: Stream)
    requires |data| >= 6 && FrameLen(data) <= |data| && ValidRequest(data[..FrameLen(data)])
    ensures WholeRequest(data[..FrameLen(data)])
  {
  }

  /** Only whole valid frames come out, and together they are the beginning of what came in. */
  lemma {:induction false} SeparateIsSound(data: Stream, room: nat)
    ensures forall f :: f in Separate(data, room) ==> WholeRequest(f)
    ensures |Separate(data, room)| <= room
    ensures Flatten(Separate(data, room)) <= data
    decreases room
  {
    if |data| >= 6 && room > 0 {
      var n := FrameLen(data);
      if n <= |data| && ValidRequest(data[..n]) {
        CheckedIsWhole(data);
        SeparateIsSound(data[n..], room - 1);
        var rest := Separate(data[n..], room - 1);
        assert Separate(data, room) == [data[..n]] + rest;
        assert Flatten([data[..n]] + rest) == data[..n] + Flatten(rest) by {
          assert ([data[..n]] + rest)[1..] == rest;
        }
        assert data == data[..n] + data[n..];
      }
    }
  }

  /** What comes after the whole frames yields nothing: too short, or still longer than what arrived. */
  predicate Fragment(t: Stream) {
    |t| < 6 || FrameLen(t) > |t|
  }

  lemma {:induction false} FirstWhole(f: Stream, rest: Stream)
    requires WholeRequest(f)
    ensures |f + rest| >= 6 && FrameLen(f + rest) == |f| && (f + rest)[..|f|] == f && (f + rest)[|f|..] == rest
  {
  }

  lemma {:induction false} SeparateFirst(f: Stream, rest: Stream, room: nat)
    requires WholeRequest(f) && room > 0
    ensures Separate(f + rest, room) == [f] + Separate(rest, room - 1)
  {
  }

  function UpTo(fs: seq<Stream>, room: nat): seq<Stream> {
    if |fs| <= room then fs else fs[..room]
  }

  lemma {:induction false} UpToCons(fs: seq<Stream>, room: nat)
    requires fs != [] && room > 0
    ensures UpTo(fs, room) == [fs[0]] + UpTo(fs[1..], room - 1)
  {
  }

  lemma {:induction false} FlattenFirst(fs: seq<Stream>, tail: Stream)
    requires fs != []
    ensures Flatten(fs) + tail == fs[0] + (Flatten(fs[1..]) + tail)
  {
  }

  predicate AllWhole(fs: seq<Stream>) {
    forall i :: 0 <= i < |fs| ==> WholeRequest(fs[i])
  }

  lemma {:induction false} FragmentYieldsNothing(tail: Stream, room: nat)
    requires Fragment(tail)
    ensures Separate(tail, room) == []
  {
  }

  /** A slotless gateway connection loses only what does not arrive whole: every complete frame of a recv()
      is queued in order, as far as there is room, and the fragment behind them is dropped. */
  lemma {:induction false} WholeFramesGetThrough(fs: seq<Stream>, tail: Stream, room: nat)
    requires Fragment(tail) && AllWhole(fs)
    ensures Separate(Flatten(fs) + tail, room) == UpTo(fs, room)
    decreases |fs|
  {
    if room == 0 {
      assert UpTo(fs, 0) == [];
    } else if fs == [] {
      FragmentYieldsNothing(tail, room);
      assert Flatten(fs) + tail == tail;
    } else {
      var rest := Flatten(fs[1..]) + tail;
      FlattenFirst(fs, tail);
      SeparateFirst(fs[0], rest, room);
      WholeFramesGetThrough(fs[1..], tail, room - 1);
      UpToCons(fs, room);
    }
  }

  /** The loop. */
  method SeparateAndPush(data: Stream, room: nat) returns (pushed: seq<Stream>)
    ensures pushed == Separate(data, room)
  {
    pushed := [];
    var rem := data;
    ghost var goal := Separate(data, room);
    while |rem| >= 6 && |pushed| < room
      invariant |pushed| <= room && goal == pushed + Separate(rem, room - |pushed|)
      decreases |rem|
    {
      var n := FrameLen(rem);
      if n > |rem| || !ValidRequest(rem[..n]) {
        return;
      }
      Associative(pushed, [rem[..n]], Separate(rem[n..], room - |pushed| - 1));
      pushed := pushed + [rem[..n]];
      rem := rem[n..];
    }
  }

  /** A slotless cache-server connection is answered exactly when a recv() holds one frame and nothing else. */
  lemma {:induction false} CacheFallbackExactly(fs: seq<Stream>)
    requires AllWhole(fs) && |Flatten(fs)| < 0x10000
    ensures ValidRequest(Flatten(fs)) <==> |fs| == 1
  {
    if |fs| == 1 {
      assert fs[1..] == [];
      assert Flatten(fs) == fs[0];
    } else if |fs| > 1 {
      var rest := Flatten(fs[1..]);
      assert fs[1..][0] == fs[1];
      assert |rest| >= |fs[1]|;
      FirstWhole(fs[0], rest);
    }
  }

  /** A frame cut short is never answered there. */
  lemma {:induction false} CutFrameIgnored(f: Stream, k: nat)
    requires WholeRequest(f) && k < |f|
    ensures !ValidRequest(f[..k])
  {
  }
}

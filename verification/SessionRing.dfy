/**
 Login sessions (main/auth.c): ten ids in a fixed array with a wrapping index, a copy of both in
 memory that survives a restart, and a logout that compacts the array.

 The reference is a queue of the live sessions, oldest first. The lemmas say when the array
 behaves like that queue, and exactly when it does not.
 */
module SessionRing {
  const MAX_SESSIONS := 10

  /** The array and its index; 0 marks an empty slot. */
  datatype Ring = Ring(ids: seq<nat>, index: nat)

  function NonZero(s: seq<nat>): (t: seq<nat>)
    ensures |t| <= |s| && 0 !in t
  {
    if s == [] then [] else if s[0] == 0 then NonZero(s[1..]) else [s[0]] + NonZero(s[1..])
  }

  function Zeros(n: nat): seq<nat> {
    seq(n, _ => 0)
  }

  function Empty(): Ring {
    Ring(Zeros(MAX_SESSIONS), 0)
  }

  predicate Distinct(s: seq<nat>) {
    forall i, j :: 0 <= i < j < |s| ==> s[i] != s[j]
  }

  /** Nonzero and all different. */
  predicate Ids(q: seq<nat>) {
    0 !in q && Distinct(q)
  }

  predicate Full(r: Ring) {
    0 !in r.ids
  }

  /** Either every slot is taken, or the taken ones are a prefix and the index is its end. */
  predicate Valid(r: Ring) {
    && |r.ids| == MAX_SESSIONS && r.index < MAX_SESSIONS
    && if Full(r) then Ids(r.ids) else Ids(r.ids[..r.index]) && r.ids[r.index..] == Zeros(MAX_SESSIONS - r.index)
  }

  predicate Live(r: Ring, id: nat) {
    id != 0 && id in r.ids
  }

  function Position(s: seq<nat>, x: nat): (p: nat)
    requires x in s
    ensures p < |s| && s[p] == x && x !in s[..p]
  {
    if s[0] == x then 0 else 1 + Position(s[1..], x)
  }

  function Without(s: seq<nat>, x: nat): seq<nat> {
    if x in s then s[..Position(s, x)] + s[Position(s, x) + 1..] else s
  }

  // ---- The operations -----------------------------------------------------------------------

  function Add(r: Ring, x: nat): Ring {
    if r.index < |r.ids| then Ring(r.ids[r.index := x], (r.index + 1) % MAX_SESSIONS) else r
  }

  function Defrag(s: seq<nat>): Ring {
    var live := NonZero(s);
    Ring(live + Zeros(|s| - |live|), |live| % MAX_SESSIONS)
  }

  function Remove(r: Ring, x: nat): Ring {
    if x in r.ids then Defrag(r.ids[Position(r.ids, x) := 0]) else r
  }

  // ---- The reference ------------------------------------------------------------------------

  /** The live sessions in the order the array will overwrite them. */
  function Queue(r: Ring): (q: seq<nat>)
    requires Valid(r)
    ensures |q| <= MAX_SESSIONS
  {
    if Full(r) then r.ids[r.index..] + r.ids[..r.index] else r.ids[..r.index]
  }

  function Push(q: seq<nat>, x: nat): seq<nat> {
    (if |q| < MAX_SESSIONS then q else q[1..]) + [x]
  }

  lemma {:induction false} NonZeroConcat(a: seq<nat>, b: seq<nat>)
    ensures NonZero(a + b) == NonZero(a) + NonZero(b)
  {
    if a == [] {
      assert a + b == b;
    } else {
      assert (a + b)[1..] == a[1..] + b;
      NonZeroConcat(a[1..], b);
    }
  }

  lemma {:induction false} NonZeroKeeps(s: seq<nat>)
    requires 0 !in s
    ensures NonZero(s) == s
  {
    if s != [] {
      NonZeroKeeps(s[1..]);
      assert s == [s[0]] + s[1..];
    }
  }

  lemma {:induction false} NonZeroZeros(n: nat)
    ensures NonZero(Zeros(n)) == []
  {
    if n > 0 {
      assert Zeros(n)[1..] == Zeros(n - 1);
      NonZeroZeros(n - 1);
    }
  }

  /** Valid sessions are exactly the queued ones. */
  lemma {:induction false} LiveIsQueued(r: Ring, id: nat)
    requires Valid(r)
    ensures Live(r, id) <==> id in Queue(r)
  {
  }

  /** A ring that is not full, as a function of its queue. */
  function Partial(q: seq<nat>): Ring
    requires |q| < MAX_SESSIONS
  {
    Ring(q + Zeros(MAX_SESSIONS - |q|), |q|)
  }

  lemma {:induction false} PartialIsValid(q: seq<nat>)
    requires |q| < MAX_SESSIONS && Ids(q)
    ensures Valid(Partial(q)) && !Full(Partial(q)) && Queue(Partial(q)) == q
  {
    var r := Partial(q);
    assert r.ids[|q|] == 0;
    assert r.ids[..|q|] == q && r.ids[|q|..] == Zeros(MAX_SESSIONS - |q|);
  }

  lemma {:induction false} ValidIsPartial(r: Ring)
    requires Valid(r) && !Full(r)
    ensures r == Partial(Queue(r)) && Ids(Queue(r))
  {
  }

  lemma {:induction false} AppendIds(q: seq<nat>, x: nat)
    requires Ids(q) && x != 0 && x !in q
    ensures Ids(q + [x])
  {
  }

  lemma {:induction false} ReplaceIds(s: seq<nat>, i: nat, x: nat)
    requires Ids(s) && i < |s| && x != 0 && x !in s
    ensures Ids(s[i := x])
  {
  }

  lemma {:induction false} FillNext(q: seq<nat>, n: nat, x: nat)
    requires n > 0
    ensures (q + Zeros(n))[|q| := x] == (q + [x]) + Zeros(n - 1)
  {
  }

  lemma {:induction false} AddToPartial(q: seq<nat>, x: nat)
    requires |q| < MAX_SESSIONS && Ids(q + [x])
    ensures Valid(Add(Partial(q), x)) && Queue(Add(Partial(q), x)) == q + [x]
  {
    FillNext(q, MAX_SESSIONS - |q|, x);
    if |q| < MAX_SESSIONS - 1 {
      assert Add(Partial(q), x) == Partial(q + [x]);
      PartialIsValid(q + [x]);
    } else {
      assert Add(Partial(q), x) == Ring(q + [x], 0) by {
        assert q + [x] + Zeros(0) == q + [x];
      }
      assert (q + [x])[0..] + (q + [x])[..0] == q + [x];
    }
  }

  lemma {:induction false} AddToFull(s: seq<nat>, i: nat, x: nat)
    requires |s| == MAX_SESSIONS && i < MAX_SESSIONS && Ids(s[i := x])
    ensures Valid(Add(Ring(s, i), x)) && Queue(Add(Ring(s, i), x)) == (s[i..] + s[..i])[1..] + [x]
  {
  }

  /** A login pushes onto the queue, dropping the oldest when ten are live. */
  lemma {:induction false} AddPushes(r: Ring, x: nat)
    requires Valid(r) && x != 0 && !Live(r, x)
    ensures Valid(Add(r, x)) && Queue(Add(r, x)) == Push(Queue(r), x)
  {
    if Full(r) {
      ReplaceIds(r.ids, r.index, x);
      AddToFull(r.ids, r.index, x);
    } else {
      ValidIsPartial(r);
      LiveIsQueued(r, x);
      AppendIds(Queue(r), x);
      AddToPartial(Queue(r), x);
    }
  }

  lemma {:induction false} NonZeroOfBlanked(s: seq<nat>, p: nat)
    requires p < |s|
    ensures NonZero(s[p := 0]) == NonZero(s[..p]) + NonZero(s[p + 1..])
  {
    assert s[p := 0] == s[..p] + ([0] + s[p + 1..]);
    NonZeroConcat(s[..p], [0] + s[p + 1..]);
    NonZeroConcat([0], s[p + 1..]);
    assert NonZero([0]) == [] by {
      NonZeroZeros(1);
      assert [0] == Zeros(1);
    }
  }

  lemma {:induction false} RemoveFromFull(s: seq<nat>, i: nat, x: nat)
    requires |s| == MAX_SESSIONS && i < MAX_SESSIONS && Ids(s) && x in s
    ensures Remove(Ring(s, i), x) == Partial(Without(s, x))
  {
    var p := Position(s, x);
    BlankIds(s, p);
  }

  lemma {:induction false} BlankIds(s: seq<nat>, p: nat)
    requires p < |s| && 0 !in s
    ensures NonZero(s[p := 0]) == s[..p] + s[p + 1..]
  {
    NonZeroOfBlanked(s, p);
    NonZeroKeeps(s[..p]);
    NonZeroKeeps(s[p + 1..]);
  }

  lemma {:induction false} RemoveFromPartial(q: seq<nat>, x: nat)
    requires |q| < MAX_SESSIONS && Ids(q) && x in q
    ensures Remove(Partial(q), x) == Partial(Without(q, x))
  {
    var p := Position(q, x);
    var z := Zeros(MAX_SESSIONS - |q|);
    var ids := q + z;
    FirstPosition(q, z, x);
    BlankIds(q, p);
    assert ids[p := 0] == q[p := 0] + z;
    NonZeroConcat(q[p := 0], z);
    NonZeroZeros(|z|);
    assert NonZero(ids[p := 0]) == Without(q, x);
    assert Without(q, x) + Zeros(MAX_SESSIONS - |q| + 1) == Partial(Without(q, x)).ids;
  }

  lemma {:induction false} FirstPosition(a: seq<nat>, b: seq<nat>, x: nat)
    requires x in a
    ensures x in a + b && Position(a + b, x) == Position(a, x)
  {
    if a[0] != x {
      assert (a + b)[1..] == a[1..] + b;
      FirstPosition(a[1..], b, x);
    }
  }

  lemma {:induction false} WithoutKeepsIds(s: seq<nat>, x: nat)
    requires Ids(s) && x in s
    ensures Ids(Without(s, x)) && |Without(s, x)| == |s| - 1 && x !in Without(s, x)
  {
  }

  /** A logout keeps the survivors in array order, packed at the front. */
  lemma {:induction false} RemovePacks(r: Ring, x: nat)
    requires Valid(r) && Live(r, x)
    ensures Valid(Remove(r, x)) && !Full(Remove(r, x))
    ensures Queue(Remove(r, x)) == Without(if Full(r) then r.ids else Queue(r), x)
    ensures !Full(r) ==> x in Queue(r)
  {
    LiveIsQueued(r, x);
    if Full(r) {
      WithoutKeepsIds(r.ids, x);
      PartialIsValid(Without(r.ids, x));
      RemoveFromFull(r.ids, r.index, x);
    } else {
      ValidIsPartial(r);
      WithoutKeepsIds(Queue(r), x);
      PartialIsValid(Without(Queue(r), x));
      RemoveFromPartial(Queue(r), x);
    }
  }

  // ---- When a logout respects the order of logins -------------------------------------------

  function Rotated(t: seq<nat>, a: nat): seq<nat>
    requires a <= |t|
  {
    t[a..] + t[..a]
  }

  lemma {:induction false} RotationMatters(t: seq<nat>, a: nat)
    requires 0 < |t| && a <= |t| && Distinct(t)
    ensures Rotated(t, a) == t <==> a == 0 || a == |t|
    ensures 0 < a < |t| ==> Rotated(t, a)[0] == t[a] && Rotated(t, a)[|t| - a] == t[0]
  {
  }

  /** How far the survivors of a logout on a full ring are from queue order. */
  function Shift(r: Ring, x: nat): nat
    requires Valid(r) && x in r.ids
  {
    if Position(r.ids, x) < r.index then r.index - 1 else r.index
  }

  lemma {:induction false} QueueWithoutBefore(s: seq<nat>, i: nat, p: nat)
    requires p < i < |s| && Ids(s)
    ensures Without(s[i..] + s[..i], s[p]) == Rotated(s[..p] + s[p + 1..], i - 1)
  {
    var a, b, c := s[..p], s[p + 1..i], s[i..];
    assert s[..i] == a + [s[p]] + b;
    assert s[..p] + s[p + 1..] == a + b + c;
    RemovedFromBack(a, s[p], b, c);
  }

  lemma {:induction false} QueueWithoutAfter(s: seq<nat>, i: nat, p: nat)
    requires i <= p < |s| && Ids(s)
    ensures Without(s[i..] + s[..i], s[p]) == Rotated(s[..p] + s[p + 1..], i)
  {
    var a, b, c := s[..i], s[i..p], s[p + 1..];
    assert s[i..] + s[..i] == b + [s[p]] + c + a;
    assert s[..p] + s[p + 1..] == a + b + c;
    RemovedFromFront(a, b, s[p], c);
  }

  lemma {:induction false} RemovedFromBack(a: seq<nat>, x: nat, b: seq<nat>, c: seq<nat>)
    requires x !in c && x !in a
    ensures Without(c + (a + [x] + b), x) == c + a + b == Rotated(a + b + c, |a| + |b|)
  {
    assert c + (a + [x] + b) == (c + a) + [x] + b;
    WithoutMiddle(c + a, x, b);
    assert (a + b + c)[..|a| + |b|] == a + b && (a + b + c)[|a| + |b|..] == c;
    assert c + (a + b) == c + a + b;
  }

  lemma {:induction false} RemovedFromFront(a: seq<nat>, b: seq<nat>, x: nat, c: seq<nat>)
    requires x !in b
    ensures Without(b + [x] + c + a, x) == b + c + a == Rotated(a + b + c, |a|)
  {
    assert b + [x] + c + a == b + [x] + (c + a);
    WithoutMiddle(b, x, c + a);
    assert (a + b + c)[..|a|] == a && (a + b + c)[|a|..] == b + c;
    assert b + (c + a) == b + c + a;
  }

  lemma {:induction false} WithoutMiddle(a: seq<nat>, x: nat, b: seq<nat>)
    requires x !in a
    ensures Without(a + [x] + b, x) == a + b
  {
  }

  /** The guard: the ring is not full, or the index sits where compaction does not reorder. */
  predicate KeepsOrder(r: Ring, x: nat)
    requires Valid(r)
  {
    Live(r, x) && Full(r) ==> Shift(r, x) == 0 || Shift(r, x) == MAX_SESSIONS - 1
  }

  /** A logout takes its session out of the queue and keeps the order of the rest exactly under the guard. */
  lemma {:induction false} RemoveKeepsOrderExactly(r: Ring, x: nat)
    requires Valid(r) && x != 0
    ensures Valid(Remove(r, x))
    ensures Queue(Remove(r, x)) == Without(Queue(r), x) <==> KeepsOrder(r, x)
  {
    LiveIsQueued(r, x);
    if Live(r, x) {
      RemovePacks(r, x);
      if Full(r) {
        FullLogout(r, x);
      }
    }
  }

  lemma {:induction false} FullLogout(r: Ring, x: nat)
    requires Valid(r) && Live(r, x) && Full(r)
    ensures Without(Queue(r), x) == Rotated(Without(r.ids, x), Shift(r, x))
    ensures Without(Queue(r), x) == Without(r.ids, x) <==> Shift(r, x) == 0 || Shift(r, x) == MAX_SESSIONS - 1
  {
    WithoutKeepsIds(r.ids, x);
    var p := Position(r.ids, x);
    if p < r.index {
      QueueWithoutBefore(r.ids, r.index, p);
    } else {
      QueueWithoutAfter(r.ids, r.index, p);
    }
    RotationMatters(Without(r.ids, x), Shift(r, x));
  }

  /** Two logins into nine survivors push the first of them out and nobody else. */
  lemma {:induction false} TwoLoginsPushOutTheFirst(r: Ring, t: seq<nat>, y: nat, z: nat)
    requires Valid(r) && Queue(r) == t && |t| == MAX_SESSIONS - 1 && Ids(t)
    requires y != 0 && z != 0 && y != z && y !in t && z !in t
    ensures Valid(Add(Add(r, y), z)) && Queue(Add(Add(r, y), z)) == t[1..] + [y, z]
  {
    LiveIsQueued(r, y);
    AddPushes(r, y);
    LiveIsQueued(Add(r, y), z);
    AddPushes(Add(r, y), z);
    assert t[1..] + [y] + [z] == t[1..] + [y, z];
  }

  /** Outside the guard the second login from now throws out a session that is not the oldest one,
      and keeps the oldest. */
  lemma {:induction false} ReorderingEvictsTheWrongSession(r: Ring, x: nat, y: nat, z: nat)
    requires Valid(r) && Live(r, x) && !KeepsOrder(r, x)
    requires y != 0 && z != 0 && y != z && y !in r.ids && z !in r.ids
    ensures |Without(Queue(r), x)| == MAX_SESSIONS - 1
    ensures var survivors := Without(Queue(r), x);
            var after := Add(Add(Remove(r, x), y), z);
            Live(after, survivors[0]) && exists k :: 0 < k < |survivors| && !Live(after, survivors[k])
  {
    var t, a := Without(r.ids, x), Shift(r, x);
    FullLogout(r, x);
    RemovePacks(r, x);
    WithoutKeepsIds(r.ids, x);
    RotationMatters(t, a);
    TwoLoginsPushOutTheFirst(Remove(r, x), t, y, z);
    NewOldestGone(Add(Add(Remove(r, x), y), z), t, a, y, z);
  }

  lemma {:induction false} NewOldestGone(after: Ring, t: seq<nat>, a: nat, y: nat, z: nat)
    requires Valid(after) && Ids(t) && 0 < a < |t| && y !in t && z !in t && Queue(after) == t[1..] + [y, z]
    ensures Live(after, t[a]) && !Live(after, t[0])
  {
    LiveIsQueued(after, t[a]);
    LiveIsQueued(after, t[0]);
    assert (t[1..] + [y, z])[a - 1] == t[a];
  }
}

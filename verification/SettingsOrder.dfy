/**
 Settings requests whose writes can fail half-way: exactly which orders of writes can leave two local
 services on one port, told from the store and the request before anything is written.
 */
module SettingsOrder {
  import opened Settings

  // ---- Fields that make a listener hold a port ----------------------------------------------

  function DefiningFields(l: Listener): seq<Field> {
    match l
    case Web => [WebPort]
    case Cache => [CachePort, CacheEnabled]
    case Bridge(s) => [BridgePort(s), PortMode(s), BridgeMode(s)]
  }

  /** What a defining field must be for its listener to hold port p. */
  function Wanted(f: Field, p: Value): Value {
    match f
    case CacheEnabled => Flag(true)
    case PortMode(_) => Text(TCP_BRIDGE)
    case BridgeMode(_) => Text(SERVER)
    case _ => p
  }

  predicate Right(st: Store, f: Field, p: Value) {
    f in st && st[f] == Wanted(f, p)
  }

  predicate AllRight(st: Store, fs: seq<Field>, p: Value) {
    forall f :: f in fs ==> Right(st, f, p)
  }

  predicate HoldsPort(st: Store, l: Listener, p: Value) {
    Active(st, l) && PortField(l) in st && st[PortField(l)] == p
  }

  lemma {:induction false} HoldsExactly(st: Store, l: Listener, p: Value)
    ensures HoldsPort(st, l, p) <==> AllRight(st, DefiningFields(l), p)
  {
    match l
    case Web => assert WebPort in DefiningFields(l);
    case Cache => assert CachePort in DefiningFields(l) && CacheEnabled in DefiningFields(l);
    case Bridge(s) =>
      assert BridgePort(s) in DefiningFields(l) && PortMode(s) in DefiningFields(l) &&
             BridgeMode(s) in DefiningFields(l);
  }

  // ---- Fields over the writes of a plan ------------------------------------------------------

  /** Write i makes field f right for p, or makes it wrong. */
  predicate Writes(plan: Request, i: nat, f: Field, p: Value, right: bool) {
    i < |plan| && plan[i].field == f && (ValueOf(plan[i].json) == Wanted(f, p) <==> right)
  }

  /** The field is right for p after the first k writes: by the write among them that names it, or from before. */
  predicate RightAfter(st: Store, plan: Request, k: nat, f: Field, p: Value) {
    || (exists i :: 0 <= i < k && Writes(plan, i, f, p, true))
    || (Right(st, f, p) && forall i :: 0 <= i < k ==> !Writes(plan, i, f, p, false))
  }

  lemma {:induction false} NamedAt(st: Store, plan: Request, k: nat, f: Field, p: Value, i: nat)
    requires OncePerField(plan) && i < k <= |plan| && plan[i].field == f
    ensures RightAfter(st, plan, k, f, p) <==> ValueOf(plan[i].json) == Wanted(f, p)
  {
    assert Writes(plan, i, f, p, ValueOf(plan[i].json) == Wanted(f, p));
    assert forall j, right :: 0 <= j < k && Writes(plan, j, f, p, right) ==> j == i;
  }

  lemma {:induction false} NamedNowhere(st: Store, plan: Request, k: nat, f: Field, p: Value)
    requires k <= |plan| && forall i :: 0 <= i < k ==> plan[i].field != f
    ensures RightAfter(st, plan, k, f, p) <==> Right(st, f, p)
  {
  }

  lemma {:induction false} RightAfterMeans(st: Store, plan: Request, k: nat, f: Field, p: Value)
    requires OncePerField(plan) && k <= |plan|
    ensures Right(WriteAll(st, plan[..k]), f, p) <==> RightAfter(st, plan, k, f, p)
  {
    var done := plan[..k];
    assert OncePerField(done);
    WriteAllMeans(st, done, f);
    if i :| 0 <= i < k && plan[i].field == f {
      assert done[i] in done;
      NamedAt(st, plan, k, f, p, i);
    } else {
      assert !Names(done, f);
      NamedNowhere(st, plan, k, f, p);
    }
  }

  /** Write i makes a field of the list right that was wrong; write j makes one wrong that was right. */
  predicate StartsAt(st: Store, plan: Request, fs: seq<Field>, p: Value, i: nat) {
    i < |plan| && plan[i].field in fs && Writes(plan, i, plan[i].field, p, true) && !Right(st, plan[i].field, p)
  }

  predicate StopsAt(st: Store, plan: Request, fs: seq<Field>, p: Value, j: nat) {
    j < |plan| && plan[j].field in fs && Writes(plan, j, plan[j].field, p, false) && Right(st, plan[j].field, p)
  }

  /** Every field is right before or made right, and everything that is to become right is written before
      anything that is to become wrong. */
  predicate Overlaps(st: Store, plan: Request, fs: seq<Field>, p: Value) {
    && (forall f :: f in fs ==> Right(st, f, p) || exists i :: 0 <= i < |plan| && Writes(plan, i, f, p, true))
    && (forall i: nat, j: nat | i < |plan| && j < |plan| ::
          StartsAt(st, plan, fs, p, i) && StopsAt(st, plan, fs, p, j) ==> i < j)
  }

  /** The first moment at which everything that is to become right has. */
  function AfterStarts(st: Store, plan: Request, fs: seq<Field>, p: Value, n: nat): (k: nat)
    requires n <= |plan|
    ensures k <= n
    ensures forall i :: 0 <= i < n && StartsAt(st, plan, fs, p, i) ==> i < k
    ensures k > 0 ==> StartsAt(st, plan, fs, p, k - 1)
  {
    if n == 0 then 0 else if StartsAt(st, plan, fs, p, n - 1) then n else AfterStarts(st, plan, fs, p, n - 1)
  }

  lemma {:induction false} StopsAfterStarts(st: Store, plan: Request, fs: seq<Field>, p: Value)
    requires Overlaps(st, plan, fs, p)
    ensures forall j: nat :: StopsAt(st, plan, fs, p, j) ==> AfterStarts(st, plan, fs, p, |plan|) <= j
  {
  }

  lemma {:induction false} OverlapIsReached(st: Store, plan: Request, fs: seq<Field>, p: Value) returns (k: nat)
    requires OncePerField(plan) && Overlaps(st, plan, fs, p)
    ensures k <= |plan| && forall f :: f in fs ==> RightAfter(st, plan, k, f, p)
  {
    k := AfterStarts(st, plan, fs, p, |plan|);
    StopsAfterStarts(st, plan, fs, p);
    forall f | f in fs
      ensures RightAfter(st, plan, k, f, p)
    {
      if Right(st, f, p) {
        assert forall j: nat :: Writes(plan, j, f, p, false) ==> StopsAt(st, plan, fs, p, j);
      } else {
        var i :| 0 <= i < |plan| && Writes(plan, i, f, p, true);
        assert StartsAt(st, plan, fs, p, i);
      }
    }
  }

  lemma {:induction false} ReachedIsOverlap(st: Store, plan: Request, fs: seq<Field>, p: Value, k: nat)
    requires OncePerField(plan) && k <= |plan| && forall f :: f in fs ==> RightAfter(st, plan, k, f, p)
    ensures Overlaps(st, plan, fs, p)
  {
    forall i: nat, j: nat | i < |plan| && j < |plan| && StartsAt(st, plan, fs, p, i) && StopsAt(st, plan, fs, p, j)
      ensures i < j
    {
      StartedBefore(st, plan, plan[i].field, p, k, i);
      NotStoppedBefore(st, plan, plan[j].field, p, k, j);
    }
  }

  lemma {:induction false} StartedBefore(st: Store, plan: Request, f: Field, p: Value, k: nat, i: nat)
    requires OncePerField(plan) && RightAfter(st, plan, k, f, p) && Writes(plan, i, f, p, true) && !Right(st, f, p)
    ensures i < k
  {
    var m :| 0 <= m < k && Writes(plan, m, f, p, true);
    assert m == i;
  }

  lemma {:induction false} NotStoppedBefore(st: Store, plan: Request, f: Field, p: Value, k: nat, j: nat)
    requires OncePerField(plan) && RightAfter(st, plan, k, f, p) && Writes(plan, j, f, p, false)
    ensures k <= j
  {
  }

  // ---- One request --------------------------------------------------------------------------

  /** No two listeners can be on one port at any moment of the writes, told from the values before and after
      and the order of the writes. */
  ghost predicate Orderly(st: Store, plan: Request) {
    forall a: Listener, b: Listener, p: Value :: a != b ==>
        !Overlaps(st, plan, DefiningFields(a) + DefiningFields(b), p)
  }

  lemma {:induction false} BothHold(st: Store, a: Listener, b: Listener, p: Value)
    ensures HoldsPort(st, a, p) && HoldsPort(st, b, p) <==> AllRight(st, DefiningFields(a) + DefiningFields(b), p)
  {
    HoldsExactly(st, a, p);
    HoldsExactly(st, b, p);
  }

  lemma {:induction false} PrefixesCleanExactly(st: Store, plan: Request)
    requires OncePerField(plan)
    ensures (forall k :: 0 <= k <= |plan| ==> NoCollision(WriteAll(st, plan[..k]))) <==> Orderly(st, plan)
  {
    if Orderly(st, plan) {
      forall k | 0 <= k <= |plan|
        ensures NoCollision(WriteAll(st, plan[..k]))
      {
        forall a, b
          ensures !Collide(WriteAll(st, plan[..k]), a, b)
        {
          if Collide(WriteAll(st, plan[..k]), a, b) {
            CollisionIsOverlap(st, plan, k, a, b);
          }
        }
      }
    } else {
      var a: Listener, b: Listener, p: Value :| a != b && Overlaps(st, plan, DefiningFields(a) + DefiningFields(b), p);
      var k := OverlapCollides(st, plan, a, b, p);
    }
  }

  lemma {:induction false} CollisionIsOverlap(st: Store, plan: Request, k: nat, a: Listener, b: Listener)
    requires OncePerField(plan) && k <= |plan| && Collide(WriteAll(st, plan[..k]), a, b)
    ensures exists p :: Overlaps(st, plan, DefiningFields(a) + DefiningFields(b), p)
  {
    var mid := WriteAll(st, plan[..k]);
    var p := mid[PortField(a)];
    var fs := DefiningFields(a) + DefiningFields(b);
    BothHold(mid, a, b, p);
    forall f | f in fs
      ensures RightAfter(st, plan, k, f, p)
    {
      RightAfterMeans(st, plan, k, f, p);
    }
    ReachedIsOverlap(st, plan, fs, p, k);
  }

  lemma {:induction false} OverlapCollides(st: Store, plan: Request, a: Listener, b: Listener, p: Value)
    returns (k: nat)
    requires OncePerField(plan) && a != b && Overlaps(st, plan, DefiningFields(a) + DefiningFields(b), p)
    ensures k <= |plan| && Collide(WriteAll(st, plan[..k]), a, b)
  {
    var fs := DefiningFields(a) + DefiningFields(b);
    k := OverlapIsReached(st, plan, fs, p);
    var mid := WriteAll(st, plan[..k]);
    forall f | f in fs
      ensures Right(mid, f, p)
    {
      RightAfterMeans(st, plan, k, f, p);
    }
    BothHold(mid, a, b, p);
  }

  /** An accepted request leaves no collision wherever a write of it may fail, exactly if its writes are orderly. */
  lemma {:induction false} FailurePointsExactly(rules: Rules, st: Store, req: Request)
    requires OncePerField(req) && Accepts(rules, st, req)
    ensures (forall failAt: nat :: NoCollision(Post(rules, st, req, failAt).store)) <==> Orderly(st, PlanOf(st, req))
  {
    var plan := PlanOf(st, req);
    PlanSubset(req, PermDisabled(st) || SetsPermDisable(req));
    PrefixesCleanExactly(st, plan);
    assert plan[..|plan|] == plan;
    if forall failAt: nat :: NoCollision(Post(rules, st, req, failAt).store) {
      forall k | 0 <= k <= |plan|
        ensures NoCollision(WriteAll(st, plan[..k]))
      {
        assert NoCollision(Post(rules, st, req, k).store);
      }
    }
  }

  // ---- Any sequence of requests -------------------------------------------------------------

  /** No collision now or after any of the requests, wherever each of them may fail. */
  ghost predicate NeverCollides(rules: Rules, st: Store, reqs: seq<Request>)
    decreases |reqs|
  {
    NoCollision(st) &&
    (reqs != [] ==> forall failAt: nat :: NeverCollides(rules, Post(rules, st, reqs[0], failAt).store, reqs[1..]))
  }

  /** Every request that would be accepted is orderly where it is made, whatever became of those before it. */
  ghost predicate AlwaysOrderly(rules: Rules, st: Store, reqs: seq<Request>)
    decreases |reqs|
  {
    reqs != [] ==>
      && (Accepts(rules, st, reqs[0]) ==> Orderly(st, PlanOf(st, reqs[0])))
      && forall failAt: nat :: AlwaysOrderly(rules, Post(rules, st, reqs[0], failAt).store, reqs[1..])
  }

  /** From a store without collisions, through any sequence of requests, each failing anywhere or not at all:
      no two local services ever share a port exactly if every accepted request is orderly where it is made. */
  lemma {:induction false} NeverCollidesExactly(rules: Rules, st: Store, reqs: seq<Request>)
    requires NoCollision(st) && forall r :: r in reqs ==> OncePerField(r)
    ensures NeverCollides(rules, st, reqs) <==> AlwaysOrderly(rules, st, reqs)
    decreases |reqs|
  {
    if reqs != [] {
      var req := reqs[0];
      assert req in reqs;
      if Accepts(rules, st, req) {
        FailurePointsExactly(rules, st, req);
      }
      forall failAt: nat
        ensures var next := Post(rules, st, req, failAt).store;
                NoCollision(next) ==> (NeverCollides(rules, next, reqs[1..]) <==> AlwaysOrderly(rules, next, reqs[1..]))
      {
        var next := Post(rules, st, req, failAt).store;
        if NoCollision(next) {
          NeverCollidesExactly(rules, next, reqs[1..]);
        }
      }
      NextStores(rules, st, reqs);
    }
  }

  lemma {:induction false} NextStores(rules: Rules, st: Store, reqs: seq<Request>)
    requires NoCollision(st) && reqs != []
    requires Accepts(rules, st, reqs[0]) ==>
               ((forall failAt: nat :: NoCollision(Post(rules, st, reqs[0], failAt).store)) <==>
                   Orderly(st, PlanOf(st, reqs[0])))
    requires forall failAt: nat ::
               var next := Post(rules, st, reqs[0], failAt).store;
               NoCollision(next) ==> (NeverCollides(rules, next, reqs[1..]) <==> AlwaysOrderly(rules, next, reqs[1..]))
    ensures NeverCollides(rules, st, reqs) <==> AlwaysOrderly(rules, st, reqs)
  {
    if NeverCollides(rules, st, reqs) {
      forall failAt: nat
        ensures NoCollision(Post(rules, st, reqs[0], failAt).store)
        ensures AlwaysOrderly(rules, Post(rules, st, reqs[0], failAt).store, reqs[1..])
      {
        assert NeverCollides(rules, Post(rules, st, reqs[0], failAt).store, reqs[1..]);
      }
    }
    if AlwaysOrderly(rules, st, reqs) {
      forall failAt: nat
        ensures NeverCollides(rules, Post(rules, st, reqs[0], failAt).store, reqs[1..])
      {
        assert AlwaysOrderly(rules, Post(rules, st, reqs[0], failAt).store, reqs[1..]);
        assert NoCollision(Post(rules, st, reqs[0], failAt).store);
      }
    }
  }
}

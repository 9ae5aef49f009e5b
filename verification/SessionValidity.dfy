/**
 How long a session stays valid over runs with logouts, and the runs on which counting the logins that
 follow it gives the wrong answer.
 */
module SessionValidity {
  import opened SessionRing
  import opened SessionDevice

  // ---- The sessions behind one in the queue -------------------------------------------------

  /** A logout that changes the order of those who stay. */
  predicate Reorders(d: Device, id: nat) {
    Valid(d.ram) && !KeepsOrder(d.ram, id)
  }

  function Following(ids: seq<nat>, id: nat): seq<nat>
    requires id in ids
  {
    ids[Position(ids, id) + 1..]
  }

  /** The sessions behind `id` after one more event, evictions aside: a login goes to the end, a logout leaves,
      and one that reorders puts behind `id` whoever stands behind it in the array. */
  function BehindAt(d: Device, id: nat, behind: seq<nat>, e: Event): seq<nat> {
    match e
    case Login(y) => behind + [y]
    case Logout(y) =>
      if Reorders(d, y) && id in Without(d.ram.ids, y) then Following(Without(d.ram.ids, y), id)
      else Without(behind, y)
    case _ => behind
  }

  /** At no point of the run do ten sessions stand behind `id`. */
  predicate NeverTenAt(d: Device, id: nat, behind: seq<nat>, es: seq<Event>)
    decreases |es|
  {
    |behind| < MAX_SESSIONS && (es == [] || NeverTenAt(Step(d, es[0]), id, BehindAt(d, id, behind, es[0]), es[1..]))
  }

  /** Where a session stands: `older` in front of it in the queue, `behind` behind it. */
  predicate Stands(d: Device, older: seq<nat>, id: nat, behind: seq<nat>) {
    Synced(d) && Queue(d.ram) == older + [id] + behind && Ids(older + [id] + behind)
  }

  lemma {:induction false} QueueIds(r: Ring)
    requires Valid(r)
    ensures Ids(Queue(r))
  {
  }

  lemma {:induction false} PushParts(older: seq<nat>, id: nat, behind: seq<nat>, y: nat)
    requires |older| + 1 + |behind| <= MAX_SESSIONS
    ensures var q, r := older + [id] + behind, Push(older + [id] + behind, y);
            if |q| < MAX_SESSIONS then r == older + [id] + (behind + [y])
            else if older != [] then r == older[1..] + [id] + (behind + [y])
            else r == behind + [y]
  {
    if older == [] {
      assert older + [id] + behind == [id] + behind;
    }
  }

  lemma {:induction false} LoginMoves(d: Device, older: seq<nat>, id: nat, behind: seq<nat>, y: nat)
    returns (older': seq<nat>)
    requires Stands(d, older, id, behind) && Enabled(d, Login(y)) && y != id
    ensures |behind| < MAX_SESSIONS - 1 ==> Stands(Step(d, Login(y)), older', id, behind + [y])
    ensures |behind| >= MAX_SESSIONS - 1 ==> !Live(Step(d, Login(y)).ram, id)
  {
    StepKeepsSynced(d, Login(y));
    PushParts(older, id, behind, y);
    QueueIds(Step(d, Login(y)).ram);
    older' := if |Queue(d.ram)| < MAX_SESSIONS || older == [] then older else older[1..];
    if |behind| >= MAX_SESSIONS - 1 {
      LiveIsQueued(Step(d, Login(y)).ram, id);
      NotBehind(older, id, behind);
    }
  }

  lemma {:induction false} NotBehind(older: seq<nat>, id: nat, behind: seq<nat>)
    requires Ids(older + [id] + behind)
    ensures id !in behind && id !in older
  {
    var q := older + [id] + behind;
    assert q[|older|] == id;
    assert forall j :: 0 <= j < |behind| ==> q[|older| + 1 + j] == behind[j];
    assert forall j :: 0 <= j < |older| ==> q[j] == older[j];
  }

  lemma {:induction false} SplitsAt(s: seq<nat>, k: nat)
    requires k < |s|
    ensures s == s[..k] + [s[k]] + s[k + 1..]
  {
  }

  lemma {:induction false} PositionWithin(a: seq<nat>, tail: seq<nat>, y: nat)
    requires y in a
    ensures y in a + tail && Position(a + tail, y) == Position(a, y)
  {
    if a[0] != y {
      assert (a + tail)[1..] == a[1..] + tail;
      PositionWithin(a[1..], tail, y);
    }
  }

  lemma {:induction false} CutWithin(a: seq<nat>, k: nat, tail: seq<nat>)
    requires k < |a|
    ensures (a + tail)[..k] + (a + tail)[k + 1..] == a[..k] + a[k + 1..] + tail
  {
  }

  lemma {:induction false} WithoutFront(a: seq<nat>, tail: seq<nat>, y: nat)
    requires y in a
    ensures Without(a + tail, y) == Without(a, y) + tail
  {
    var k := Position(a, y);
    PositionWithin(a, tail, y);
    CutAt(a + tail, y, k);
    CutWithin(a, k, tail);
    CutAt(a, y, k);
  }

  lemma {:induction false} CutAt(s: seq<nat>, y: nat, k: nat)
    requires y in s && Position(s, y) == k
    ensures Without(s, y) == s[..k] + s[k + 1..]
  {
  }

  lemma {:induction false} Regroup(a: seq<nat>, id: nat, b: seq<nat>)
    ensures a + [id] + b == a + ([id] + b)
  {
  }

  lemma {:induction false} WithoutOlder(a: seq<nat>, id: nat, b: seq<nat>, y: nat)
    requires y in a
    ensures Without(a + [id] + b, y) == Without(a, y) + [id] + b
  {
    Regroup(a, id, b);
    WithoutFront(a, [id] + b, y);
    Regroup(Without(a, y), id, b);
  }

  lemma {:induction false} WithoutNewer(front: seq<nat>, b: seq<nat>, y: nat)
    requires y !in front && y in b
    ensures Without(front + b, y) == front + Without(b, y)
  {
    var k := Position(b, y);
    var c, d := b[..k], b[k + 1..];
    SplitsAt(b, k);
    assert front + (c + [y] + d) == front + c + [y] + d;
    WithoutMiddle(front + c, y, d);
    assert front + c + d == front + (c + d);
  }

  lemma {:induction false} DisjointParts(a: seq<nat>, id: nat, b: seq<nat>, y: nat)
    requires Ids(a + [id] + b) && y in a
    ensures y !in b
  {
    var q := a + [id] + b;
    var i :| 0 <= i < |a| && a[i] == y;
    assert q[i] == y;
    assert forall j :: 0 <= j < |b| ==> q[|a| + 1 + j] == b[j];
  }

  lemma {:induction false} WithoutParts(a: seq<nat>, id: nat, b: seq<nat>, y: nat)
    requires Ids(a + [id] + b) && y != id
    ensures Without(a + [id] + b, y) == Without(a, y) + [id] + Without(b, y)
  {
    if y in a {
      DisjointParts(a, id, b, y);
      WithoutOlder(a, id, b, y);
    } else if y in b {
      WithoutNewer(a + [id], b, y);
    } else {
      assert y !in a + [id] + b;
    }
  }

  lemma {:induction false} LogoutMoves(d: Device, older: seq<nat>, id: nat, behind: seq<nat>, y: nat)
    requires Stands(d, older, id, behind) && KeepsOrder(d.ram, y) && y != id
    ensures Stands(Step(d, Logout(y)), Without(older, y), id, Without(behind, y))
  {
    StepKeepsSynced(d, Logout(y));
    LogoutQueue(d, y);
    WithoutParts(older, id, behind, y);
    QueueIds(Step(d, Logout(y)).ram);
  }

  lemma {:induction false} SplitAt(ids: seq<nat>, id: nat)
    requires id in ids
    ensures ids == ids[..Position(ids, id)] + [id] + Following(ids, id)
  {
  }

  lemma {:induction false} StaysIn(ids: seq<nat>, id: nat, y: nat)
    requires id in ids && y != id
    ensures id in Without(ids, y)
  {
    var j :| 0 <= j < |ids| && ids[j] == id;
    if y in ids {
      var k := Position(ids, y);
      assert Without(ids, y)[if j < k then j else j - 1] == id;
    }
  }

  lemma {:induction false} ReorderMoves(d: Device, older: seq<nat>, id: nat, behind: seq<nat>, y: nat)
    returns (older': seq<nat>)
    requires Stands(d, older, id, behind) && Reorders(d, y) && y != id
    ensures Stands(Step(d, Logout(y)), older', id, BehindAt(d, id, behind, Logout(y)))
  {
    var next, left := Step(d, Logout(y)), Without(d.ram.ids, y);
    assert (older + [id] + behind)[|older|] == id;
    LiveIsQueued(d.ram, id);
    StaysIn(d.ram.ids, id, y);
    StepKeepsSynced(d, Logout(y));
    RemovePacks(d.ram, y);
    SplitAt(left, id);
    QueueIds(next.ram);
    older' := left[..Position(left, id)];
  }

  lemma {:induction false} LogoutQueue(d: Device, y: nat)
    requires Synced(d) && KeepsOrder(d.ram, y)
    ensures Valid(Step(d, Logout(y)).ram) && Queue(Step(d, Logout(y)).ram) == Without(Queue(d.ram), y)
  {
    QueueIds(d.ram);
    if y != 0 {
      RemoveKeepsOrderExactly(d.ram, y);
      LiveIsQueued(d.ram, y);
    }
  }

  /** A session that has ended does not come back unless its id is drawn again. */
  lemma {:induction false} EndedStaysEnded(d: Device, es: seq<Event>, id: nat)
    requires Synced(d) && Runnable(d, es) && AbnormalReset !in es && Login(id) !in es && !Live(d.ram, id)
    ensures !Live(Run(d, es).ram, id)
    decreases |es|
  {
    if es != [] {
      var e := es[0];
      assert e in es;
      StepKeepsSynced(d, e);
      LiveIsQueued(d.ram, id);
      if e.Login? {
        LiveIsQueued(Step(d, e).ram, id);
      } else if e.Logout? && e.id != 0 && e.id in d.ram.ids {
        RemovedNotAdded(d.ram, e.id);
      }
      EndedStaysEnded(Step(d, e), es[1..], id);
    }
  }

  lemma {:induction false} ValidFrom(d: Device, es: seq<Event>, older: seq<nat>, id: nat, behind: seq<nat>)
    requires Stands(d, older, id, behind) && Runnable(d, es) && AbnormalReset !in es && Login(id) !in es
    ensures Live(Run(d, es).ram, id) <==> Logout(id) !in es && NeverTenAt(d, id, behind, es)
    decreases |es|
  {
    assert (older + [id] + behind)[|older|] == id;
    LiveIsQueued(d.ram, id);
    if es != [] {
      var e, next := es[0], Step(d, es[0]);
      assert e in es && es == [e] + es[1..];
      StepKeepsSynced(d, e);
      match e
      case Login(y) =>
        var older' := LoginMoves(d, older, id, behind, y);
        if |behind| < MAX_SESSIONS - 1 {
          ValidFrom(next, es[1..], older', id, behind + [y]);
        } else {
          EndedStaysEnded(next, es[1..], id);
        }
      case Logout(y) =>
        if y == id {
          LoggedOut(d, id);
          EndedStaysEnded(next, es[1..], id);
        } else if Reorders(d, y) {
          var older' := ReorderMoves(d, older, id, behind, y);
          ValidFrom(next, es[1..], older', id, BehindAt(d, id, behind, e));
        } else {
          LogoutMoves(d, older, id, behind, y);
          ValidFrom(next, es[1..], Without(older, y), id, Without(behind, y));
        }
      case SoftReboot => ValidFrom(next, es[1..], older, id, behind);
    }
  }

  lemma {:induction false} LoggedOut(d: Device, id: nat)
    requires Synced(d) && Live(d.ram, id)
    ensures !Live(Step(d, Logout(id)).ram, id)
  {
    RemovePacks(d.ram, id);
    WithoutKeepsIds(if Full(d.ram) then d.ram.ids else Queue(d.ram), id);
    LiveIsQueued(Step(d, Logout(id)).ram, id);
  }

  lemma {:induction false} RunJoins(d: Device, a: seq<Event>, b: seq<Event>)
    ensures Run(d, a + b) == Run(Run(d, a), b)
    ensures Runnable(d, a + b) <==> Runnable(d, a) && Runnable(Run(d, a), b)
    ensures LogoutsKeepOrder(d, a + b) <==> LogoutsKeepOrder(d, a) && LogoutsKeepOrder(Run(d, a), b)
    decreases |a|
  {
    if a == [] {
      assert a + b == b;
    } else {
      assert (a + b)[1..] == a[1..] + b;
      RunJoins(Step(d, a[0]), a[1..], b);
    }
  }

  lemma {:induction false} RunKeepsSynced(d: Device, es: seq<Event>)
    requires Synced(d) && Runnable(d, es) && AbnormalReset !in es
    ensures Synced(Run(d, es))
    decreases |es|
  {
    if es != [] {
      assert es[0] in es;
      StepKeepsSynced(d, es[0]);
      RunKeepsSynced(Step(d, es[0]), es[1..]);
    }
  }

  /** A run of logins, logouts and software reboots in which `id` logs in, for the last time, after `before`. */
  predicate LastLogin(d: Device, before: seq<Event>, id: nat, since: seq<Event>) {
    && Synced(d) && AbnormalReset !in before && AbnormalReset !in since && Login(id) !in since
    && Runnable(d, before + ([Login(id)] + since))
  }

  function After(d: Device, before: seq<Event>, id: nat, since: seq<Event>): Device {
    Run(d, before + ([Login(id)] + since))
  }

  /**
   Over every run of logins, logouts and software reboots, reordering logouts included: a session is valid
   exactly if it was not logged out and at no point since its login ten sessions stood behind it.
   */
  lemma {:induction false} ValidExactly(d: Device, before: seq<Event>, id: nat, since: seq<Event>)
    requires LastLogin(d, before, id, since)
    ensures Live(After(d, before, id, since).ram, id) <==>
            Logout(id) !in since && NeverTenAt(Run(d, before + [Login(id)]), id, [], since)
  {
    RunJoins(d, before, [Login(id)] + since);
    RunJoins(d, before, [Login(id)]);
    var at := Run(d, before);
    assert ([Login(id)] + since)[1..] == since && [Login(id)][1..] == [];
    RunKeepsSynced(d, before);
    var older := JustLoggedIn(at, id);
    ValidFrom(Step(at, Login(id)), since, older, id, []);
  }

  /** So counting the logins that follow gives the right answer exactly if fewer than ten followed and neither
      was it logged out nor did ten stand behind it, or ten followed and one of the two happened. */
  lemma {:induction false} CountRuleExactly(d: Device, before: seq<Event>, id: nat, since: seq<Event>)
    requires LastLogin(d, before, id, since)
    ensures (Live(After(d, before, id, since).ram, id) <==> |LoginIds(since)| < MAX_SESSIONS) <==>
            (|LoginIds(since)| < MAX_SESSIONS <==>
             Logout(id) !in since && NeverTenAt(Run(d, before + [Login(id)]), id, [], since))
  {
    ValidExactly(d, before, id, since);
  }

  lemma {:induction false} JustLoggedIn(d: Device, id: nat) returns (older: seq<nat>)
    requires Synced(d) && Enabled(d, Login(id))
    ensures Stands(Step(d, Login(id)), older, id, [])
  {
    StepKeepsSynced(d, Login(id));
    var q := Queue(d.ram);
    older := if |q| < MAX_SESSIONS then q else q[1..];
    assert older + [id] + [] == Push(q, id);
    QueueIds(Step(d, Login(id)).ram);
  }

  // ---- When no logout since reorders: ten newer sessions at once -----------------------------

  /** Then the array does not matter, only who logged in and out since. */
  function BehindNext(behind: seq<nat>, e: Event): seq<nat> {
    match e
    case Login(id) => behind + [id]
    case Logout(id) => Without(behind, id)
    case _ => behind
  }

  /** The logins since, less those of them that have been logged out again. */
  function Behind(behind: seq<nat>, es: seq<Event>): seq<nat>
    decreases |es|
  {
    if es == [] then behind else Behind(BehindNext(behind, es[0]), es[1..])
  }

  /** At no point of the run have ten newer sessions been open at once. */
  predicate NeverTenBehind(behind: seq<nat>, es: seq<Event>) {
    forall n :: 0 <= n <= |es| ==> |Behind(behind, es[..n])| < MAX_SESSIONS
  }

  lemma {:induction false} NeverTenStep(behind: seq<nat>, es: seq<Event>)
    requires es != []
    ensures NeverTenBehind(behind, es) <==>
            |behind| < MAX_SESSIONS && NeverTenBehind(BehindNext(behind, es[0]), es[1..])
  {
    var next, rest := BehindNext(behind, es[0]), es[1..];
    if NeverTenBehind(behind, es) {
      assert es[..0] == [];
      forall n | 0 <= n <= |rest|
        ensures |Behind(next, rest[..n])| < MAX_SESSIONS
      {
        assert es[..n + 1][1..] == rest[..n];
        assert es[..n + 1][0] == es[0];
      }
    }
    if |behind| < MAX_SESSIONS && NeverTenBehind(next, rest) {
      forall n | 0 <= n <= |es|
        ensures |Behind(behind, es[..n])| < MAX_SESSIONS
      {
        if n > 0 {
          assert es[..n][1..] == rest[..n - 1];
        }
      }
    }
  }

  lemma {:induction false} NeverTenEmpty(behind: seq<nat>)
    ensures NeverTenBehind(behind, []) <==> |behind| < MAX_SESSIONS
  {
    var none: seq<Event> := [];
    assert none[..0] == none;
  }

  lemma {:induction false} OrderlyIsNeverTen(d: Device, id: nat, behind: seq<nat>, es: seq<Event>)
    requires Synced(d) && Runnable(d, es) && AbnormalReset !in es && LogoutsKeepOrder(d, es)
    ensures NeverTenAt(d, id, behind, es) <==> NeverTenBehind(behind, es)
    decreases |es|
  {
    if es == [] {
      NeverTenEmpty(behind);
    } else {
      assert es[0] in es;
      StepKeepsSynced(d, es[0]);
      NeverTenStep(behind, es);
      OrderlyIsNeverTen(Step(d, es[0]), id, BehindNext(behind, es[0]), es[1..]);
    }
  }

  /** Where the logouts since its login keep the order: a session is valid exactly if it was not logged out and
      at no point since its login ten newer sessions were open at once. */
  lemma {:induction false} OrderlyValidExactly(d: Device, before: seq<Event>, id: nat, since: seq<Event>)
    requires LastLogin(d, before, id, since) && LogoutsKeepOrder(Run(d, before + [Login(id)]), since)
    ensures Live(After(d, before, id, since).ram, id) <==> Logout(id) !in since && NeverTenBehind([], since)
  {
    ValidExactly(d, before, id, since);
    RunJoins(d, before, [Login(id)] + since);
    RunJoins(d, before, [Login(id)]);
    var at := Run(d, before);
    assert ([Login(id)] + since)[1..] == since && [Login(id)][1..] == [];
    RunKeepsSynced(d, before);
    StepKeepsSynced(at, Login(id));
    OrderlyIsNeverTen(Step(at, Login(id)), id, [], since);
  }

  lemma {:induction false} BehindBounded(behind: seq<nat>, es: seq<Event>)
    ensures |Behind(behind, es)| <= |behind| + |LoginIds(es)|
    decreases |es|
  {
    if es != [] {
      BehindBounded(BehindNext(behind, es[0]), es[1..]);
    }
  }

  lemma {:induction false} LoginIdsPrefix(es: seq<Event>, n: nat)
    requires n <= |es|
    ensures |LoginIds(es[..n])| <= |LoginIds(es)|
    decreases n
  {
    if n > 0 {
      assert es[..n][1..] == es[1..][..n - 1];
      LoginIdsPrefix(es[1..], n - 1);
    }
  }

  lemma {:induction false} FewLoginsNeverTen(es: seq<Event>)
    requires |LoginIds(es)| < MAX_SESSIONS
    ensures NeverTenBehind([], es)
  {
    forall n | 0 <= n <= |es|
      ensures |Behind([], es[..n])| < MAX_SESSIONS
    {
      BehindBounded([], es[..n]);
      LoginIdsPrefix(es, n);
    }
  }

  /** There, counting the logins that follow gives the right answer exactly in two cases: fewer than ten followed
      and the session was not logged out, or ten or more did and either it was, or ten of them were open at once. */
  lemma {:induction false} OrderlyCountRule(d: Device, before: seq<Event>, id: nat, since: seq<Event>)
    requires LastLogin(d, before, id, since) && LogoutsKeepOrder(Run(d, before + [Login(id)]), since)
    ensures (Live(After(d, before, id, since).ram, id) <==> |LoginIds(since)| < MAX_SESSIONS) <==>
            if |LoginIds(since)| < MAX_SESSIONS then Logout(id) !in since
            else Logout(id) in since || !NeverTenBehind([], since)
  {
    OrderlyValidExactly(d, before, id, since);
    if |LoginIds(since)| < MAX_SESSIONS {
      FewLoginsNeverTen(since);
    }
  }

  lemma {:induction false} AllBehind(behind: seq<nat>, es: seq<Event>)
    requires forall e :: e in es ==> !e.Logout?
    ensures |Behind(behind, es)| == |behind| + |LoginIds(es)|
    decreases |es|
  {
    if es != [] {
      assert es[0] in es;
      AllBehind(BehindNext(behind, es[0]), es[1..]);
    }
  }

  lemma {:induction false} NoLogoutKeepsOrder(d: Device, es: seq<Event>)
    requires forall e :: e in es ==> !e.Logout?
    ensures LogoutsKeepOrder(d, es)
    decreases |es|
  {
    if es != [] {
      assert es[0] in es;
      NoLogoutKeepsOrder(Step(d, es[0]), es[1..]);
    }
  }

  /** After any run at all, logouts that reorder included: a session since whose login nobody has logged
      out is valid exactly if fewer than ten logins followed it, software reboots anywhere in between. */
  lemma {:induction false} ValidIffFewerThanTenFollowed(d: Device, before: seq<Event>, id: nat, since: seq<Event>)
    requires LastLogin(d, before, id, since) && forall e :: e in since ==> !e.Logout?
    ensures Live(After(d, before, id, since).ram, id) <==> |LoginIds(since)| < MAX_SESSIONS
  {
    NoLogoutKeepsOrder(Run(d, before + [Login(id)]), since);
    OrderlyCountRule(d, before, id, since);
    if |LoginIds(since)| >= MAX_SESSIONS {
      AllBehind([], since);
      assert since[..|since|] == since;
    }
  }

  // ---- Runs on which the count of logins misleads -------------------------------------------

  function InAndOut(ids: seq<nat>): seq<Event> {
    if ids == [] then [] else [Login(ids[0]), Logout(ids[0])] + InAndOut(ids[1..])
  }

  lemma {:induction false} OnePair(d: Device, y: nat, rest: seq<Event>)
    requires Enabled(d, Login(y))
    ensures var es := [Login(y), Logout(y)] + rest; var next := Step(Step(d, Login(y)), Logout(y));
            && Run(d, es) == Run(next, rest)
            && (Runnable(d, es) <==> Runnable(next, rest))
            && LoginIds(es) == [y] + LoginIds(rest)
  {
    var es := [Login(y), Logout(y)] + rest;
    assert es[1..] == [Logout(y)] + rest;
    assert es[1..][1..] == rest;
    assert LoginIds(es[1..]) == LoginIds(rest);
  }

  /** So any number of logins, ten or a thousand, follow a session without ending it. */
  lemma {:induction false} PairsLeaveOthersValid(d: Device, ids: seq<nat>, id: nat)
    requires Synced(d) && !Full(d.ram) && Live(d.ram, id) && forall y :: y in ids ==> Enabled(d, Login(y))
    ensures Runnable(d, InAndOut(ids)) && |LoginIds(InAndOut(ids))| == |ids|
    ensures Run(d, InAndOut(ids)) == d && Live(Run(d, InAndOut(ids)).ram, id)
    decreases |ids|
  {
    if ids != [] {
      var rest := InAndOut(ids[1..]);
      assert ids[0] in ids;
      LogoutUndoesLogin(d, ids[0]);
      PairsLeaveOthersValid(d, ids[1..], id);
      OnePair(d, ids[0], rest);
    }
  }

  lemma {:induction false} FrontOfFull(r: Ring, ids: seq<nat>)
    requires Valid(r) && |ids| == 12 && Queue(r) == ids[2..] && r.index == 2
    ensures Full(r) && r.ids[0] == ids[10] && r.ids[1] == ids[11]
  {
    assert ids[2..][8] == ids[10] && ids[2..][9] == ids[11];
    if Full(r) {
      assert Queue(r)[8] == r.ids[0] && Queue(r)[9] == r.ids[1];
    }
  }

  /** After twelve logins into a fresh device the two newest sit at the front of the array. */
  lemma {:induction false} AfterTwelve(d: Device, es: seq<Event>)
    requires Synced(d) && d.ram == Empty() && Runnable(d, es) && forall e :: e in es ==> e.Login? || e.SoftReboot?
    requires |LoginIds(es)| == 12
    ensures var r := Run(d, es).ram;
            && Synced(Run(d, es)) && Full(r) && r.index == 2
            && r.ids[0] == LoginIds(es)[10] && r.ids[1] == LoginIds(es)[11]
  {
    LoginsKeepTheLastTen(d, es);
    IndexCountsLogins(d, es);
    var ids := LoginIds(es);
    PartialIsValid([]);
    assert Empty() == Partial([]);
    assert [] + ids == ids;
    FrontOfFull(Run(d, es).ram, ids);
  }

  lemma {:induction false} WithoutHead(s: seq<nat>, x: nat)
    requires |s| >= 2 && Ids(s) && x in s
    ensures Without(s, x)[0] == if x == s[0] then s[1] else s[0]
  {
  }

  /** Twelve logins, any logout, two more logins: the eleventh session is out after three further logins, or
      the twelfth after two if it was the eleventh that logged out. */
  lemma {:induction false} FewFollowersAndOut(d: Device, es: seq<Event>, x: nat, y: nat, z: nat)
    requires Synced(d) && d.ram == Empty() && Runnable(d, es) && forall e :: e in es ==> e.Login? || e.SoftReboot?
    requires |LoginIds(es)| == 12 && Live(Run(d, es).ram, x)
    requires y != 0 && z != 0 && y != z && y !in Run(d, es).ram.ids && z !in Run(d, es).ram.ids
    ensures var out := LoginIds(es)[if x == LoginIds(es)[10] then 11 else 10];
            Live(Run(d, es).ram, out) && !Live(Run(d, es + [Logout(x), Login(y), Login(z)]).ram, out)
  {
    AfterTwelve(d, es);
    var at := Run(d, es);
    var r := at.ram;
    RemovePacks(r, x);
    WithoutKeepsIds(r.ids, x);
    WithoutHead(r.ids, x);
    var t := Without(r.ids, x);
    TwoLoginsPushOutTheFirst(Remove(r, x), t, y, z);
    LastThree(at, x, y, z);
    RunJoins(d, es, [Logout(x), Login(y), Login(z)]);
    LiveIsQueued(Add(Add(Remove(r, x), y), z), t[0]);
  }

  lemma {:induction false} LastThree(d: Device, x: nat, y: nat, z: nat)
    requires x != 0 && x in d.ram.ids
    ensures Run(d, [Logout(x), Login(y), Login(z)]).ram == Add(Add(Remove(d.ram, x), y), z)
  {
    var es := [Logout(x), Login(y), Login(z)];
    assert es[1..] == [Login(y), Login(z)];
    assert es[1..][1..] == [Login(z)];
    assert Run(d, es) == Run(Step(Step(d, Logout(x)), Login(y)), [Login(z)]);
  }
}

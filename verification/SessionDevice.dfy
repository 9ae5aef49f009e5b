/**
 Sessions over whole runs: logins, logouts, software reboots (which restore the saved copy) and
 abnormal resets (which do not, but leave it in place). Also the arrays themselves.
 */
module SessionDevice {
  import opened SessionRing

  /** The live buffer and the copy in memory that a restart does not clear. */
  datatype Device = Device(ram: Ring, saved: seq<nat>, savedIndex: int)

  datatype Event = Login(id: nat) | Logout(id: nat) | SoftReboot | AbnormalReset

  function Save(d: Device): Device {
    d.(saved := d.ram.ids, savedIndex := d.ram.index)
  }

  function Load(d: Device): Device {
    d.(ram := Ring(d.saved, if 0 <= d.savedIndex < MAX_SESSIONS then d.savedIndex else 0))
  }

  function Step(d: Device, e: Event): Device {
    match e
    case Login(id) => Save(d.(ram := Add(d.ram, id)))
    case Logout(id) => if id != 0 && id in d.ram.ids then Save(d.(ram := Remove(d.ram, id))) else d
    case SoftReboot => Load(d)
    case AbnormalReset => d.(ram := Empty())
  }

  /** Ids are drawn until one is nonzero and not in use. */
  predicate Enabled(d: Device, e: Event) {
    e.Login? ==> e.id != 0 && e.id !in d.ram.ids
  }

  predicate Runnable(d: Device, es: seq<Event>)
    decreases |es|
  {
    es == [] || (Enabled(d, es[0]) && Runnable(Step(d, es[0]), es[1..]))
  }

  function Run(d: Device, es: seq<Event>): Device
    decreases |es|
  {
    if es == [] then d else Run(Step(d, es[0]), es[1..])
  }

  predicate Synced(d: Device) {
    Valid(d.ram) && d.saved == d.ram.ids && d.savedIndex == d.ram.index
  }

  // ---- The array against the queue ----------------------------------------------------------

  function RefStep(q: seq<nat>, e: Event): seq<nat> {
    match e
    case Login(id) => Push(q, id)
    case Logout(id) => Without(q, id)
    case SoftReboot => q
    case AbnormalReset => []
  }

  /** The array and the queue hold the same sessions in the same order after every event. */
  predicate AgreesThroughout(d: Device, q: seq<nat>, es: seq<Event>)
    decreases |es|
  {
    Valid(d.ram) && Queue(d.ram) == q && (es != [] ==> AgreesThroughout(Step(d, es[0]), RefStep(q, es[0]), es[1..]))
  }

  predicate LogoutsKeepOrder(d: Device, es: seq<Event>)
    decreases |es|
  {
    es == [] ||
    ((es[0].Logout? && Valid(d.ram) ==> KeepsOrder(d.ram, es[0].id)) && LogoutsKeepOrder(Step(d, es[0]), es[1..]))
  }

  lemma {:induction false} StepKeepsSynced(d: Device, e: Event)
    requires Synced(d) && Enabled(d, e) && !e.AbnormalReset?
    ensures Synced(Step(d, e))
    ensures e.Login? ==> Queue(Step(d, e).ram) == Push(Queue(d.ram), e.id)
    ensures e.SoftReboot? ==> Step(d, e) == d
  {
    match e
    case Login(id) => AddPushes(d.ram, id);
    case Logout(id) =>
      if id != 0 {
        RemoveKeepsOrderExactly(d.ram, id);
      }
    case _ =>
  }

  /** A software reboot brings the saved ids back, and the saved index if it is one of the ten slots; whatever else
      is found there counts as 0. What is saved stays. */
  lemma {:induction false} RebootRestores(d: Device)
    ensures var t := Step(d, SoftReboot);
            && t.ram.ids == d.saved && t.saved == d.saved && t.savedIndex == d.savedIndex && t.ram.index < 10
            && (t.ram.index == d.savedIndex <==> 0 <= d.savedIndex <= 9)
            && (t.ram.index != d.savedIndex ==> t.ram.index == 0)
  {
  }

  /** Over every run of logins, logouts and software reboots: the array is the queue throughout exactly
      when every logout met the guard. */
  lemma {:induction false} RingIsQueueExactly(d: Device, es: seq<Event>)
    requires Synced(d) && Runnable(d, es) && AbnormalReset !in es
    requires forall e :: e in es && e.Logout? ==> e.id != 0
    ensures AgreesThroughout(d, Queue(d.ram), es) <==> LogoutsKeepOrder(d, es)
    decreases |es|
  {
    if es != [] {
      var e := es[0];
      var next := Step(d, e);
      assert e in es;
      StepKeepsSynced(d, e);
      RingIsQueueExactly(next, es[1..]);
      if e.Logout? {
        RemoveKeepsOrderExactly(d.ram, e.id);
        LiveIsQueued(d.ram, e.id);
      }
      if RefStep(Queue(d.ram), e) != Queue(next.ram) {
        assert !AgreesThroughout(next, RefStep(Queue(d.ram), e), es[1..]);
      }
    }
  }

  // ---- Logins and reboots only: the last ten are valid ---------------------------------------

  function LoginIds(es: seq<Event>): seq<nat> {
    if es == [] then [] else (if es[0].Login? then [es[0].id] else []) + LoginIds(es[1..])
  }

  function LastTen(q: seq<nat>): seq<nat> {
    if |q| <= MAX_SESSIONS then q else q[|q| - MAX_SESSIONS..]
  }

  lemma {:induction false} PushLastTen(q: seq<nat>, x: nat, rest: seq<nat>)
    requires |q| <= MAX_SESSIONS
    ensures LastTen(Push(q, x) + rest) == LastTen(q + ([x] + rest))
  {
    if |q| < MAX_SESSIONS {
      assert Push(q, x) + rest == q + ([x] + rest);
    } else {
      var s := q + ([x] + rest);
      assert Push(q, x) + rest == s[1..];
    }
  }

  lemma {:induction false} LoginsKeepTheLastTen(d: Device, es: seq<Event>)
    requires Synced(d) && Runnable(d, es) && forall e :: e in es ==> e.Login? || e.SoftReboot?
    ensures Synced(Run(d, es)) && Queue(Run(d, es).ram) == LastTen(Queue(d.ram) + LoginIds(es))
    decreases |es|
  {
    if es == [] {
      assert Queue(d.ram) + [] == Queue(d.ram);
    } else {
      assert es[0] in es;
      StepKeepsSynced(d, es[0]);
      LoginsKeepTheLastTen(Step(d, es[0]), es[1..]);
      if es[0].Login? {
        PushLastTen(Queue(d.ram), es[0].id, LoginIds(es[1..]));
      } else {
        assert [] + LoginIds(es[1..]) == LoginIds(es[1..]);
      }
    }
  }

  // ---- Logouts ------------------------------------------------------------------------------

  /** A login undone by its own logout leaves the device as it was. */
  lemma {:induction false} LogoutUndoesLogin(d: Device, id: nat)
    requires Synced(d) && !Full(d.ram) && Enabled(d, Login(id))
    ensures Step(Step(d, Login(id)), Logout(id)) == d
  {
    var one := Step(d, Login(id));
    var q := Queue(d.ram);
    StepKeepsSynced(d, Login(id));
    LiveIsQueued(d.ram, id);
    LiveIsQueued(one.ram, id);
    assert Queue(one.ram) == q + [id];
    RemoveNewest(one.ram, q, id);
    ValidIsPartial(d.ram);
  }

  lemma {:induction false} RemoveNewest(r: Ring, q: seq<nat>, id: nat)
    requires Valid(r) && id != 0 && |q| < MAX_SESSIONS && id !in q && Queue(r) == q + [id]
    requires Full(r) ==> r.index == 0
    ensures Remove(r, id) == Partial(q)
  {
    LiveIsQueued(r, id);
    if Full(r) {
      assert r.ids[0..] + r.ids[..0] == r.ids;
    }
    assert q + [id] + [] == q + [id];
    WithoutMiddle(q, id, []);
    assert q + [] == q;
    RemovePacks(r, id);
    var t := Remove(r, id);
    ValidIsPartial(t);
  }

  /** The index after n more logins. */
  function Advanced(i: nat, n: nat): nat
    decreases n
  {
    if n == 0 then i else Advanced((i + 1) % MAX_SESSIONS, n - 1)
  }

  lemma {:induction false} AdvancedIsMod(i: nat, n: nat)
    requires i < MAX_SESSIONS
    ensures Advanced(i, n) == (i + n) % MAX_SESSIONS
    decreases n
  {
    if n > 0 {
      AdvancedIsMod((i + 1) % MAX_SESSIONS, n - 1);
      WrapsOnce(i, n - 1);
    }
  }

  lemma {:induction false} WrapsOnce(i: nat, n: nat)
    ensures ((i + 1) % MAX_SESSIONS + n) % MAX_SESSIONS == (i + (n + 1)) % MAX_SESSIONS
  {
  }

  lemma {:induction false} IndexAdvances(d: Device, es: seq<Event>)
    requires Synced(d) && Runnable(d, es) && forall e :: e in es ==> e.Login? || e.SoftReboot?
    ensures Run(d, es).ram.index == Advanced(d.ram.index, |LoginIds(es)|)
    decreases |es|
  {
    if es != [] {
      assert es[0] in es;
      StepKeepsSynced(d, es[0]);
      IndexAdvances(Step(d, es[0]), es[1..]);
    }
  }

  lemma {:induction false} IndexCountsLogins(d: Device, es: seq<Event>)
    requires Synced(d) && Runnable(d, es) && forall e :: e in es ==> e.Login? || e.SoftReboot?
    ensures Run(d, es).ram.index == (d.ram.index + |LoginIds(es)|) % MAX_SESSIONS
  {
    IndexAdvances(d, es);
    AdvancedIsMod(d.ram.index, |LoginIds(es)|);
  }

  lemma {:induction false} WrappedRingLosesOrder(r: Ring, id: nat)
    requires Valid(r) && |Queue(r)| == MAX_SESSIONS && 1 < r.index < MAX_SESSIONS - 1 && Live(r, id)
    ensures !KeepsOrder(r, id)
  {
  }

  /** Twelve logins into a fresh device, say: whoever logs out then, the order of logins is lost. */
  lemma {:induction false} LogoutAfterTwelveLogins(d: Device, es: seq<Event>, id: nat)
    requires Synced(d) && d.ram == Empty() && Runnable(d, es) && forall e :: e in es ==> e.Login? || e.SoftReboot?
    requires |LoginIds(es)| > MAX_SESSIONS && 1 < |LoginIds(es)| % MAX_SESSIONS < MAX_SESSIONS - 1
    requires Live(Run(d, es).ram, id)
    ensures Valid(Run(d, es).ram) && !KeepsOrder(Run(d, es).ram, id)
  {
    IndexCountsLogins(d, es);
    LoginsKeepTheLastTen(d, es);
    WrappedRingLosesOrder(Run(d, es).ram, id);
  }

  // ---- Abnormal resets ----------------------------------------------------------------------

  lemma {:induction false} AbnormalResetLogsEverybodyOut(d: Device, id: nat)
    ensures !Live(Step(d, AbnormalReset).ram, id)
  {
  }

  lemma {:induction false} RunThen(d: Device, es: seq<Event>, e: Event)
    ensures Run(d, es + [e]) == Step(Run(d, es), e)
    decreases |es|
  {
    if es == [] {
      assert es + [e] == [e];
    } else {
      assert (es + [e])[1..] == es[1..] + [e];
      RunThen(Step(d, es[0]), es[1..], e);
    }
  }

  lemma {:induction false} SinceReset(d: Device, es: seq<Event>)
    requires (d.ram == Empty() || Synced(d)) && Valid(d.ram) && Runnable(d, es)
    requires forall e :: e in es ==> e.Login? || e.Logout?
    ensures d.ram == Empty() && LoginIds(es) == [] ==> Run(d, es) == d
    ensures Synced(d) || LoginIds(es) != [] ==> Synced(Run(d, es))
    ensures forall v :: Live(Run(d, es).ram, v) ==> Live(d.ram, v) || v in LoginIds(es)
    decreases |es|
  {
    if es != [] {
      var e := es[0];
      var next := Step(d, e);
      assert e in es;
      if e.Login? {
        AddPushes(d.ram, e.id);
      } else if e.id != 0 && e.id in d.ram.ids {
        RemovedNotAdded(d.ram, e.id);
      }
      SinceReset(next, es[1..]);
    }
  }

  lemma {:induction false} WithoutAdds(s: seq<nat>, x: nat, v: nat)
    requires v in Without(s, x)
    ensures v in s
  {
  }

  lemma {:induction false} RemovedNotAdded(r: Ring, x: nat)
    requires Valid(r) && Live(r, x)
    ensures Valid(Remove(r, x))
    ensures forall v :: Live(Remove(r, x), v) ==> Live(r, v)
  {
    RemovePacks(r, x);
    forall v | Live(Remove(r, x), v)
      ensures Live(r, v)
    {
      LiveIsQueued(Remove(r, x), v);
      LiveIsQueued(r, v);
      WithoutAdds(if Full(r) then r.ids else Queue(r), x, v);
    }
  }

  /**
   The sessions of before an abnormal reset come back with the next software reboot exactly when
   nobody has logged in in between: the saved copy is only overwritten, never cleared.
   */
  lemma {:induction false} AbnormalResetIsUndoneBySoftReboot(d: Device, es: seq<Event>, id: nat)
    requires Synced(d) && Live(d.ram, id) && id !in LoginIds(es)
    requires Runnable(Step(d, AbnormalReset), es) && forall e :: e in es ==> e.Login? || e.Logout?
    ensures var later := Run(Step(d, AbnormalReset), es + [SoftReboot]);
            Live(later.ram, id) <==> LoginIds(es) == []
  {
    var reset := Step(d, AbnormalReset);
    PartialIsValid([]);
    assert Empty() == Partial([]);
    RunThen(reset, es, SoftReboot);
    SinceReset(reset, es);
  }

  // ---- The buffers --------------------------------------------------------------------------

  /** The first `read` slots have been packed into `write` slots and blanks; the rest is as it was. */
  ghost predicate Packing(was: seq<nat>, ids: seq<nat>, read: nat, write: nat) {
    write <= read <= |was| && ids == NonZero(was[..read]) + Zeros(read - write) + was[read..] &&
        |NonZero(was[..read])| == write
  }

  lemma {:induction false} PackedPrefix(was: seq<nat>, read: nat)
    requires read < |was|
    ensures NonZero(was[..read + 1]) == NonZero(was[..read]) + if was[read] == 0 then [] else [was[read]]
  {
    assert was[..read + 1] == was[..read] + [was[read]];
    NonZeroConcat(was[..read], [was[read]]);
    assert [was[read]][1..] == [];
  }

  lemma {:induction false} PackStart(was: seq<nat>)
    ensures Packing(was, was, 0, 0)
  {
    assert was[..0] == [] && was[0..] == was;
  }

  lemma {:induction false} PackSkip(was: seq<nat>, ids: seq<nat>, read: nat, write: nat)
    requires Packing(was, ids, read, write) && read < |was| && ids[read] == 0
    ensures Packing(was, ids, read + 1, write)
  {
    PackedPrefix(was, read);
    assert ids[read] == was[read];
    assert was[read..] == [0] + was[read + 1..];
    assert Zeros(read - write) + [0] == Zeros(read + 1 - write);
  }

  lemma {:induction false} PackNext(was: seq<nat>, ids: seq<nat>, read: nat, write: nat)
    requires Packing(was, ids, read, write) && read < |was| && ids[read] != 0
    ensures Packing(was, ids[read := 0][write := ids[read]], read + 1, write + 1)
  {
    PackedPrefix(was, read);
    MoveDown(NonZero(was[..read]), read - write, was[read..]);
    assert was[read..][1..] == was[read + 1..];
  }

  /** The first slot behind the blanks moves to the first of them. */
  lemma {:induction false} MoveDown(packed: seq<nat>, blanks: nat, rest: seq<nat>)
    requires rest != []
    ensures var ids, write, read := packed + Zeros(blanks) + rest, |packed|, |packed| + blanks;
            ids[read] == rest[0] &&
            ids[read := 0][write := rest[0]] == packed + [rest[0]] + Zeros(blanks) + rest[1..]
  {
    var ids, write, read := packed + Zeros(blanks) + rest, |packed|, |packed| + blanks;
    var after, want := ids[read := 0][write := rest[0]], packed + [rest[0]] + Zeros(blanks) + rest[1..];
    forall i | 0 <= i < |after|
      ensures after[i] == want[i]
    {
      if i > read {
        assert after[i] == rest[i - read] && want[i] == rest[1..][i - read - 1];
      }
    }
  }

  lemma {:induction false} PackDone(was: seq<nat>, ids: seq<nat>, write: nat)
    requires Packing(was, ids, |was|, write)
    ensures ids == Defrag(was).ids && Defrag(was).index == write % MAX_SESSIONS
  {
    assert was[..|was|] == was && was[|was|..] == [];
    assert NonZero(was) + Zeros(|was| - write) + [] == NonZero(was) + Zeros(|was| - write);
  }

  class SessionBuffer {
    const ids: array<nat>
    var index: nat
    const savedIds: array<nat>
    var savedIndex: int

    ghost predicate Shape()
      reads this, ids
    {
      ids.Length == MAX_SESSIONS && savedIds.Length == MAX_SESSIONS && ids != savedIds && index < MAX_SESSIONS
    }

    ghost function View(): Device
      reads this, ids, savedIds
    {
      Device(Ring(ids[..], index), savedIds[..], savedIndex)
    }

    /** Power-up: the saved copy holds whatever the memory held. */
    constructor (garbage: seq<nat>, garbageIndex: int)
      requires |garbage| == MAX_SESSIONS
      ensures Shape() && View() == Device(Empty(), garbage, garbageIndex)
      ensures fresh(ids) && fresh(savedIds)
    {
      ids := new nat[MAX_SESSIONS](_ => 0);
      savedIds := new nat[MAX_SESSIONS](i requires 0 <= i < |garbage| => garbage[i]);
      index, savedIndex := 0, garbageIndex;
      new;
      assert ids[..] == Empty().ids;
      assert savedIds[..] == garbage;
    }

    method MoveSlot(read: nat, write: nat)
      requires write <= read < ids.Length
      modifies ids
      ensures ids[..] == old(ids[..])[read := 0][write := old(ids[read])]
    {
      if write != read {
        ids[write] := ids[read];
        ids[read] := 0;
      }
    }

    method DefragSessionBuf()
      requires Shape()
      modifies `index, ids
      ensures Shape() && Ring(ids[..], index) == Defrag(old(ids[..]))
    {
      ghost var was := ids[..];
      var write := 0;
      PackStart(was);
      for read := 0 to MAX_SESSIONS
        invariant write <= read && Packing(was, ids[..], read, write)
      {
        if ids[read] != 0 {
          PackNext(was, ids[..], read, write);
          MoveSlot(read, write);
          write := write + 1;
        } else {
          PackSkip(was, ids[..], read, write);
        }
      }
      index := write % MAX_SESSIONS;
      PackDone(was, ids[..], write);
    }

    method SaveSessionBuf()
      requires Shape()
      modifies `savedIndex, savedIds
      ensures Shape() && View() == Save(old(View()))
    {
      for i := 0 to MAX_SESSIONS
        invariant savedIds[..i] == ids[..i]
        invariant ids[..] == old(ids[..])
      {
        savedIds[i] := ids[i];
      }
      savedIndex := index;
      assert savedIds[..] == ids[..];
    }

    method LoadSessionBuf()
      requires Shape()
      modifies `index, ids
      ensures Shape() && View() == Load(old(View()))
    {
      for i := 0 to MAX_SESSIONS
        invariant ids[..i] == savedIds[..i]
        invariant savedIds[..] == old(savedIds[..])
      {
        ids[i] := savedIds[i];
      }
      index := if 0 <= savedIndex < MAX_SESSIONS then savedIndex else 0;
      assert ids[..] == savedIds[..];
    }

    method AddSessionId(id: nat)
      requires Shape()
      modifies this, ids, savedIds
      ensures Shape() && View() == Step(old(View()), Login(id))
    {
      ids[index] := id;
      index := (index + 1) % MAX_SESSIONS;
      SaveSessionBuf();
    }

    method SessionIdExists(id: nat) returns (found: bool)
      requires Shape()
      ensures found <==> id in View().ram.ids
    {
      for i := 0 to MAX_SESSIONS
        invariant id !in ids[..i]
      {
        if ids[i] == id {
          assert id in ids[..];
          return true;
        }
      }
      return false;
    }

    method FindAndRemoveSessionId(id: nat)
      requires Shape() && id != 0
      modifies this, ids, savedIds
      ensures Shape() && View() == Step(old(View()), Logout(id))
    {
      ghost var was := ids[..];
      for i := 0 to MAX_SESSIONS
        invariant id !in ids[..i] && View() == old(View())
      {
        if ids[i] == id {
          FirstAt(was, id, i);
          ids[i] := 0;
          assert ids[..] == was[i := 0];
          DefragSessionBuf();
          SaveSessionBuf();
          return;
        }
      }
    }
  }

  lemma {:induction false} FirstAt(s: seq<nat>, x: nat, p: nat)
    requires p < |s| && s[p] == x && x !in s[..p]
    ensures x in s && Position(s, x) == p
  {
  }
}

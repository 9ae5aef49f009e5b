/**
 The two heap tests that bracket a session (api_tests/00_test_heap_session.py) and the fields they
 share: the first publishes a verdict and a baseline, possibly cut short by an exception at any
 statement; the last decides from those fields alone whether it may compare.
 */
module HeapSession {
  import opened BootGuard
  import opened Options

  /** Where an exception outside the wait and the readings themselves ends the baseline test. */
  datatype Fault = NoFault | BeforeWait | AfterWait | BeforeRecording | BeforeVerdict | AfterVerdict

  datatype Reading = Failed | Heap(free: int)

  /** The published fields; `began` and `certified` record what happened and are not read by the tests. */
  datatype Published = Published(
    verdict: Option<Verdict>, baseline: Option<int>, began: bool, certified: Option<(Verdict, int)>)

  datatype Outcome = Skipped | OrderingBroken | Errored | Compared(baseline: int, free: int, leak: bool)

  const NOTHING := Published(None, None, false, None)

  /** The largest reading, or None if one of them failed. */
  predicate Quiescent(readings: seq<Reading>, q: Option<int>) {
    && (q.None? <==> exists i :: 0 <= i < |readings| && readings[i].Failed?)
    && (q.Some? ==> q.value >= -1 && (forall i :: 0 <= i < |readings| ==> readings[i].free <= q.value))
    && (q.Some? && q.value > -1 ==> exists i :: 0 <= i < |readings| && readings[i].free == q.value)
  }

  method FreeHeapQuiescent(readings: seq<Reading>) returns (q: Option<int>)
    ensures Quiescent(readings, q)
  {
    var best := -1;
    for k := 0 to |readings|
      invariant best >= -1
      invariant forall i :: 0 <= i < k ==> readings[i].Heap? && readings[i].free <= best
      invariant best > -1 ==> exists i :: 0 <= i < k && readings[i].free == best
    {
      if readings[k].Failed? {
        return None;
      }
      if readings[k].free > best {
        best := readings[k].free;
      }
    }
    return Some(best);
  }

  /** What the baseline test has published by the time it ends, given its wait and its sampling. */
  function AfterBaseline(s: Published, wait: Result, q: Option<int>, fault: Fault): Published {
    var errored := s.(began := true, verdict := Some(WaitErrored));
    if fault == BeforeWait || wait.Raised? || fault == AfterWait then errored
    else if !Usable(wait.verdict) then errored.(verdict := Some(wait.verdict))
    else if q.None? || fault == BeforeRecording then errored
    else if fault == BeforeVerdict then errored.(baseline := q)
    else errored.(baseline := q, verdict := Some(wait.verdict), certified := Some((wait.verdict, q.value)))
  }

  function NoLeak(s: Published, q: Option<int>): Outcome {
    if s.verdict.Some? && !Usable(s.verdict.value) then Skipped
    else if s.baseline.None? then OrderingBroken
    else if q.None? then Errored
    else Compared(s.baseline.value, q.value, s.baseline.value - q.value > TOLERANCE)
  }

  class Config {
    var verdict: Option<Verdict>
    var baseline: Option<int>
    ghost var began: bool
    ghost var certified: Option<(Verdict, int)>

    ghost function View(): Published
      reads this
    {
      Published(verdict, baseline, began, certified)
    }

    constructor ()
      ensures View() == NOTHING
    {
      verdict, baseline, began, certified := None, None, false, None;
    }

    method TestHeapBaseline(wait: Result, readings: seq<Reading>, fault: Fault) returns (ghost q: Option<int>)
      modifies this
      ensures Quiescent(readings, q)
      ensures View() == AfterBaseline(old(View()), wait, q, fault)
    {
      began := true;
      verdict := Some(WaitErrored);
      var sampled := FreeHeapQuiescent(readings);
      q := sampled;
      if fault == BeforeWait || wait.Raised? || fault == AfterWait {
        return;
      }
      if !Usable(wait.verdict) {
        verdict := Some(wait.verdict);
        return;
      }
      if sampled.None? || fault == BeforeRecording {
        return;
      }
      baseline := sampled;
      if fault == BeforeVerdict {
        return;
      }
      verdict := Some(wait.verdict);
      certified := Some((wait.verdict, sampled.value));
    }

    method TestHeapNoLeak(readings: seq<Reading>) returns (r: Outcome, ghost q: Option<int>)
      ensures Quiescent(readings, q) && r == NoLeak(View(), q)
    {
      var sampled := FreeHeapQuiescent(readings);
      q := sampled;
      if verdict.Some? && !Usable(verdict.value) {
        return Skipped, q;
      }
      if baseline.None? {
        return OrderingBroken, q;
      }
      if sampled.None? {
        return Errored, q;
      }
      r := Compared(baseline.value, sampled.value, baseline.value - sampled.value > TOLERANCE);
    }
  }

  // ---- What every published state satisfies -------------------------------------------------

  datatype Attempt = Attempt(wait: Result, sampled: Option<int>, fault: Fault)

  function Session(s: Published, runs: seq<Attempt>): Published
    decreases |runs|
  {
    if runs == [] then s
    else Session(AfterBaseline(s, runs[0].wait, runs[0].sampled, runs[0].fault), runs[1..])
  }

  /** A usable verdict comes with the baseline recorded under it; there is a verdict iff the test began. */
  predicate Sound(s: Published) {
    && (s.verdict.Some? <==> s.began)
    && (s.verdict.Some? && Usable(s.verdict.value) ==>
          s.baseline.Some? && s.certified == Some((s.verdict.value, s.baseline.value)))
    && (s.baseline.Some? ==> s.began)
  }

  lemma {:induction false} SessionStaysSound(s: Published, runs: seq<Attempt>)
    requires Sound(s)
    ensures Sound(Session(s, runs))
    ensures Session(s, runs).began <==> s.began || runs != []
    decreases |runs|
  {
    if runs != [] {
      SessionStaysSound(AfterBaseline(s, runs[0].wait, runs[0].sampled, runs[0].fault), runs[1..]);
    }
  }

  /** A run that got all the way through: usable wait, four readings, both fields written. */
  predicate Completed(a: Attempt, baseline: int) {
    a.wait.Returned? && Usable(a.wait.verdict) && a.sampled == Some(baseline) &&
    (a.fault == NoFault || a.fault == AfterVerdict)
  }

  lemma {:induction false} CertifiedByLastRun(s: Published, runs: seq<Attempt>)
    requires Sound(s) && runs != []
    ensures var t := Session(s, runs); var last := runs[|runs| - 1];
            (t.verdict.Some? && Usable(t.verdict.value)) <==>
            (t.baseline.Some? && Completed(last, t.baseline.value) && t.verdict == Some(last.wait.verdict))
    decreases |runs|
  {
    var next := AfterBaseline(s, runs[0].wait, runs[0].sampled, runs[0].fault);
    if |runs| == 1 {
      assert Session(s, runs) == Session(next, []) == next;
    } else {
      SessionStaysSound(s, runs[..1]);
      assert Session(s, runs[..1]) == next;
      CertifiedByLastRun(next, runs[1..]);
    }
  }

  /**
   Over any number of baseline runs, each cut anywhere: the "ordering is broken" assertion fires
   exactly when the baseline test never began, and a comparison is made exactly when the last run
   completed and the final readings succeed, against that run's own baseline.
   */
  lemma {:induction false} LeakTestDecidesSoundly(runs: seq<Attempt>, q: Option<int>)
    ensures var r := NoLeak(Session(NOTHING, runs), q);
            && (r == OrderingBroken <==> runs == [])
            && (r.Compared? <==> runs != [] && q.Some? && Completes(runs[|runs| - 1]))
            && (r.Compared? ==>
                  Completed(runs[|runs| - 1], r.baseline) && (r.leak <==> r.baseline - q.value > TOLERANCE))
  {
    SessionStaysSound(NOTHING, runs);
    if runs != [] {
      CertifiedByLastRun(NOTHING, runs);
      LastRunDecides(NOTHING, runs);
    }
  }

  predicate Completes(a: Attempt) {
    a.sampled.Some? && Completed(a, a.sampled.value)
  }

  lemma {:induction false} LastRunDecides(s: Published, runs: seq<Attempt>)
    requires runs != []
    ensures Completes(runs[|runs| - 1]) ==>
            Session(s, runs).baseline == runs[|runs| - 1].sampled &&
            Session(s, runs).verdict == Some(runs[|runs| - 1].wait.verdict)
    decreases |runs|
  {
    var next := AfterBaseline(s, runs[0].wait, runs[0].sampled, runs[0].fault);
    if |runs| == 1 {
      assert Session(s, runs) == Session(next, []) == next;
    } else {
      LastRunDecides(next, runs[1..]);
    }
  }

  /** Spelled out: the last wait ended settled or with its modes unconverged, its readings succeeded, and nothing cut
      the run before its verdict. What counts as a leak is a heap more than 16384 bytes smaller. */
  lemma {:induction false} ComparedExactly(runs: seq<Attempt>, q: Option<int>)
    requires runs != []
    ensures var r, last := NoLeak(Session(NOTHING, runs), q), runs[|runs| - 1];
            && (r.Compared? <==>
                  && q.Some? && last.sampled.Some? && last.fault in {NoFault, AfterVerdict}
                  && last.wait.Returned? && last.wait.verdict in {Settled, ModesUnconverged})
            && (r.Compared? ==>
                  r == Compared(last.sampled.value, q.value, last.sampled.value > q.value + 16384))
  {
    LeakTestDecidesSoundly(runs, q);
    LastRunDecides(NOTHING, runs);
  }

  /** A comparison is only ever made against a device whose initialisation had begun when its wait ended. */
  lemma {:induction false} ComparedMeansInitBegan(runs: seq<Attempt>, q: Option<int>, w: Wanted, start: real,
                                                  tr: seq<Sample>, n: int, initAt: Option<real>)
    requires runs != [] && NoLeak(Session(NOTHING, runs), q).Compared?
    requires Polled(start, tr) && Classifies(w, start, tr, n, runs[|runs| - 1].wait) && SilentBeforeInit(tr, initAt)
    ensures initAt.Some? && initAt.value <= tr[n].now
  {
    LeakTestDecidesSoundly(runs, q);
    UsableMeansInitBegan(w, start, tr, n, runs[|runs| - 1].wait, initAt);
  }
}

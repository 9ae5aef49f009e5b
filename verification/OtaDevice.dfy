/**
 A firmware upload step by step (main/ota_handler.c): two slots of which the running one is never written,
 a guard that keeps a finished update until the reboot, and power that can go at any moment.
 */
module OtaDevice {
  import opened Bytes
  import opened Options
  import opened Ota

  /** What the chip accepts as an image, and how many receive timeouts make a stall. */
  datatype Board = Board(valid: seq<Byte> -> bool, limit: nat)

  /** What the request announces: its length, and the verdict on the descriptor its first chunk will bring. */
  datatype Job = Job(size: nat, good: bool)

  /** How far the upload that has the handler is: what it has received, when it has begun. */
  datatype Stage =
    | NoUpload
    | Opened(job: Job)
    | Receiving(job: Job, tr: seq<Recv>)
    | Complete(job: Job, tr: seq<Recv>)
    | Checked(job: Job, tr: seq<Recv>)
    | Switched(job: Job, tr: seq<Recv>)

  datatype Phase = Idle | InProgress | PendingReboot

  /** Two slots, the one that runs, the one the boot pointer names, the guard and the handler. */
  datatype Device = Device(slots: (seq<Byte>, seq<Byte>), running: bool, boot: bool, phase: Phase, stage: Stage)

  function SlotAt(d: Device, second: bool): seq<Byte> {
    if second then d.slots.1 else d.slots.0
  }

  function WithSlot(d: Device, second: bool, bytes: seq<Byte>): Device {
    d.(slots := if second then (d.slots.0, bytes) else (bytes, d.slots.1))
  }

  datatype Event =
    | Post(authorized: bool, typeOk: bool, job: Job)
    | Begin(ok: bool, erased: bool)
    | Take(got: Recv)
    | End
    | SetBoot(ok: bool)
    | Finish
    | Reboot(torn: seq<Byte>)

  predicate Enabled(d: Device, e: Event) {
    match e
    case Begin(_, _) => d.stage.Opened?
    case Take(got) => d.stage.Receiving? && (got.Data? ==> Fits(d.stage, got.bytes))
    case End => d.stage.Complete?
    case SetBoot(_) => d.stage.Checked?
    case Finish => d.stage.Switched?
    case _ => true
  }

  /** A receive asks for no more than is missing and returns at least one byte. */
  predicate Fits(stage: Stage, bytes: seq<Byte>)
    requires stage.Receiving?
  {
    0 < |bytes| && |Payload(stage.tr)| + |bytes| <= stage.job.size
  }

  function Fail(d: Device): Device {
    d.(phase := Idle, stage := NoUpload)
  }

  /** What the latest receive has brought the loop to, if anything ends it. */
  function Ending(tr: seq<Recv>, job: Job, limit: nat): Option<Received> {
    var n := |tr| - 1;
    if tr != [] && tr[n].Error? then Some(Broken)
    else if tr != [] && tr[n].Timeout? && SilentFor(tr, n + 1, limit) then Some(Stalled)
    else if tr != [] && tr[n].Data? && !Described(Payload(tr[..n]), tr[n].bytes, job.good) then Some(BadImage)
    else if tr != [] && tr[n].Data? && !tr[n].flashed then Some(FlashError)
    else if |Payload(tr)| == job.size then Some(Image(Payload(tr)))
    else None
  }

  /** The handler with `tr` received and `d` written. */
  function Received(b: Board, d: Device, job: Job, tr: seq<Recv>): Device {
    match Ending(tr, job, b.limit)
    case None => d.(stage := Receiving(job, tr))
    case Some(Image(_)) => d.(stage := Complete(job, tr))
    case Some(_) => Fail(d)
  }

  /** Whether the handler may be in the middle of writing its slot. */
  predicate Writing(stage: Stage) {
    stage.Opened? || stage.Receiving? || stage.Complete?
  }

  function Step(b: Board, d: Device, e: Event): Device
    requires Enabled(d, e)
  {
    var target := !d.running;
    match e
    case Post(authorized, typeOk, job) =>
      if !authorized || d.phase != Idle then d
      else if !typeOk then d
      else d.(phase := InProgress, stage := Opened(job))
    case Begin(ok, erased) =>
      var cleared := if ok || erased then WithSlot(d, target, []) else d;
      if !ok then Fail(cleared) else Received(b, cleared, d.stage.job, [])
    case Take(got) =>
      var tr := d.stage.tr + [got];
      var written := if got.Data? && got.flashed then WithSlot(d, target, Payload(tr)) else d;
      Received(b, written, d.stage.job, tr)
    case End =>
      if b.valid(SlotAt(d, target)) then d.(stage := Checked(d.stage.job, d.stage.tr)) else Fail(d)
    case SetBoot(ok) =>
      if ok then d.(boot := target, stage := Switched(d.stage.job, d.stage.tr)) else Fail(d)
    case Finish => d.(phase := PendingReboot, stage := NoUpload)
    case Reboot(torn) =>
      var left := if Writing(d.stage) then WithSlot(d, target, torn) else d;
      left.(running := d.boot, phase := Idle, stage := NoUpload)
  }

  predicate Runnable(b: Board, d: Device, es: seq<Event>)
    decreases |es|
  {
    es == [] || (Enabled(d, es[0]) && Runnable(b, Step(b, d, es[0]), es[1..]))
  }

  function Run(b: Board, d: Device, es: seq<Event>): Device
    requires Runnable(b, d, es)
    decreases |es|
  {
    if es == [] then d else Run(b, Step(b, d, es[0]), es[1..])
  }

  // ---- What every step keeps ----------------------------------------------------------------

  /** The bytes of a trace are a whole upload: every chunk in order, nothing that ends the loop before. */
  predicate WholeUpload(b: Board, job: Job, tr: seq<Recv>, bytes: seq<Byte>) {
    Receives(tr, job.size, b.limit, job.good, |tr|, Image(bytes))
  }

  /** What the handler's slot holds at each stage. */
  predicate StageOk(b: Board, d: Device) {
    var slot := SlotAt(d, !d.running);
    match d.stage
    case NoUpload => true
    case Opened(_) => true
    case Receiving(job, tr) =>
      slot == Payload(tr) && Goes(tr, |tr|, job.size, b.limit, job.good) && |Payload(tr)| < job.size
    case Complete(job, tr) => WholeUpload(b, job, tr, slot)
    case Checked(job, tr) => WholeUpload(b, job, tr, slot) && b.valid(slot)
    case Switched(job, tr) => WholeUpload(b, job, tr, slot) && b.valid(slot)
  }

  /** The device can come back up at any moment: the running slot and the slot it would boot are images, and
      they differ only once a checked upload has been named. */
  predicate Safe(b: Board, d: Device) {
    && b.limit > 0
    && b.valid(SlotAt(d, d.running)) && b.valid(SlotAt(d, d.boot))
    && (d.phase == InProgress <==> d.stage != NoUpload)
    && (d.boot != d.running <==> d.stage.Switched? || d.phase == PendingReboot)
    && StageOk(b, d)
  }

  lemma {:induction false} GoesOn(tr: seq<Recv>, got: Recv, job: Job, limit: nat)
    requires Goes(tr, |tr|, job.size, limit, job.good) && |Payload(tr)| < job.size && limit > 0
    requires Ending(tr + [got], job, limit).None? || Ending(tr + [got], job, limit).value.Image?
    ensures Goes(tr + [got], |tr| + 1, job.size, limit, job.good)
  {
    var all := tr + [got];
    assert all[..|tr|] == tr;
    forall m | 0 < m <= |all|
      ensures !SilentFor(all, m, limit)
    {
      if m <= |tr| {
        SilentPrefix(tr, [got], m, limit);
      } else if !got.Timeout? {
        assert !all[m - 1].Timeout?;
      }
    }
    forall m | 0 <= m < |all|
      ensures Passes(all, m, job.size, job.good)
    {
      if m < |tr| {
        assert all[..m] == tr[..m] && all[m] == tr[m];
        assert Passes(tr, m, job.size, job.good);
      }
    }
  }

  lemma {:induction false} SilentPrefix(tr: seq<Recv>, more: seq<Recv>, m: nat, limit: nat)
    requires m <= |tr|
    ensures SilentFor(tr + more, m, limit) <==> SilentFor(tr, m, limit)
  {
    assert forall i :: 0 <= i < |tr| ==> (tr + more)[i] == tr[i];
  }

  lemma {:induction false} TakeKeepsStage(b: Board, d: Device, got: Recv)
    requires Safe(b, d) && Enabled(d, Take(got))
    ensures StageOk(b, Step(b, d, Take(got)))
  {
    var job, tr := d.stage.job, d.stage.tr + [got];
    PayloadSnoc(d.stage.tr, got);
    var ending := Ending(tr, job, b.limit);
    if ending.None? || ending.value.Image? {
      GoesOn(d.stage.tr, got, job, b.limit);
      assert tr[..|tr|] == tr;
    }
  }

  lemma {:induction false} BeginKeepsStage(b: Board, d: Device, ok: bool, erased: bool)
    requires Safe(b, d) && Enabled(d, Begin(ok, erased))
    ensures StageOk(b, Step(b, d, Begin(ok, erased)))
  {
    var none: seq<Recv> := [];
    assert none[..0] == none;
  }

  predicate SameSlots(d: Device, t: Device) {
    t.running == d.running && t.boot == d.boot && SlotAt(t, d.running) == SlotAt(d, d.running)
  }

  lemma {:induction false} OtherSlotOnly(d: Device, bytes: seq<Byte>)
    ensures SameSlots(d, WithSlot(d, !d.running, bytes))
  {
  }

  lemma {:induction false} ReceivedKeepsSlots(b: Board, d: Device, job: Job, tr: seq<Recv>)
    ensures SameSlots(d, Received(b, d, job, tr)) && SameSlots(d, Fail(d))
  {
  }

  lemma {:induction false} StepKeepsSlots(b: Board, d: Device, e: Event)
    requires Enabled(d, e) && !e.Reboot?
    ensures var t := Step(b, d, e);
            && t.running == d.running && SlotAt(t, d.running) == SlotAt(d, d.running)
            && (t.boot != d.boot ==> e == SetBoot(true) && t.boot == !d.running)
  {
    match e
    case Begin(ok, erased) =>
      var cleared := if ok || erased then WithSlot(d, !d.running, []) else d;
      OtherSlotOnly(d, []);
      ReceivedKeepsSlots(b, cleared, d.stage.job, []);
    case Take(got) =>
      var tr := d.stage.tr + [got];
      var written := if got.Data? && got.flashed then WithSlot(d, !d.running, Payload(tr)) else d;
      OtherSlotOnly(d, Payload(tr));
      ReceivedKeepsSlots(b, written, d.stage.job, tr);
    case _ =>
  }

  /** A post gets the handler exactly if it is authorised, announces the right type and finds the handler idle; any
      other leaves the device as it is. */
  lemma {:induction false} PostOpensExactly(b: Board, d: Device, authorized: bool, typeOk: bool, job: Job)
    ensures var t := Step(b, d, Post(authorized, typeOk, job));
            t == if authorized && typeOk && d.phase == Idle then d.(phase := InProgress, stage := Opened(job)) else d
  {
  }

  lemma {:induction false} RebootSafe(b: Board, d: Device, torn: seq<Byte>)
    requires Safe(b, d)
    ensures Safe(b, Step(b, d, Reboot(torn)))
  {
  }

  lemma {:induction false} StageStepSafe(b: Board, d: Device, e: Event)
    requires Safe(b, d) && Enabled(d, e) && !e.Reboot? && StageOk(b, Step(b, d, e))
    ensures Safe(b, Step(b, d, e))
  {
    StepKeepsSlots(b, d, e);
  }

  lemma {:induction false} StepSafe(b: Board, d: Device, e: Event)
    requires Safe(b, d) && Enabled(d, e)
    ensures Safe(b, Step(b, d, e))
  {
    match e
    case Take(got) =>
      TakeKeepsStage(b, d, got);
      StageStepSafe(b, d, e);
    case Begin(ok, erased) =>
      BeginKeepsStage(b, d, ok, erased);
      StageStepSafe(b, d, e);
    case Reboot(torn) => RebootSafe(b, d, torn);
    case _ => StageStepSafe(b, d, e);
  }

  /** Through any interleaving of uploads, failures and power cuts at any step the device stays bootable. */
  lemma {:induction false} AlwaysBootable(b: Board, d: Device, es: seq<Event>)
    requires Safe(b, d) && Runnable(b, d, es)
    ensures Safe(b, Run(b, d, es))
    decreases |es|
  {
    if es != [] {
      StepSafe(b, d, es[0]);
      AlwaysBootable(b, Step(b, d, es[0]), es[1..]);
    }
  }

  /** From the moment the boot pointer names a new image until the reboot, through any posts in between,
      neither slot changes; the reboot then runs that image. */
  lemma {:induction false} NamedImageSurvives(b: Board, d: Device, es: seq<Event>, torn: seq<Byte>)
    requires Safe(b, d) && d.boot != d.running && Runnable(b, d, es) && forall e :: e in es ==> !e.Reboot?
    ensures var t := Run(b, d, es);
            && t.slots == d.slots && t.boot == d.boot && t.running == d.running
            && Step(b, t, Reboot(torn)).running == d.boot
            && SlotAt(Step(b, t, Reboot(torn)), d.boot) == SlotAt(d, d.boot)
    decreases |es|
  {
    if es != [] {
      assert es[0] in es;
      StepSafe(b, d, es[0]);
      NamedImageSurvives(b, Step(b, d, es[0]), es[1..], torn);
    }
  }

  /** Only a checked upload is ever named, and what is named is all of it, byte for byte. */
  lemma {:induction false} OnlyWholeUploadsAreNamed(b: Board, d: Device, e: Event)
    requires Safe(b, d) && Enabled(d, e) && Step(b, d, e).boot != d.boot
    ensures d.stage.Checked? && b.valid(SlotAt(d, !d.running))
    ensures WholeUpload(b, d.stage.job, d.stage.tr, SlotAt(Step(b, d, e), Step(b, d, e).boot))
  {
    if !e.Reboot? {
      StepKeepsSlots(b, d, e);
    }
  }

  // ---- An upload from its trace -------------------------------------------------------------

  /** The receives the loop makes on a trace: up to the deciding one, a closed connection being an error. */
  function Fed(tr: seq<Recv>, n: nat, r: Received): seq<Recv>
    requires n <= |tr|
  {
    if r.Image? then tr[..n] else if n < |tr| then tr[..n + 1] else tr + [Error]
  }

  lemma {:induction false} FedPrefix(tr: seq<Recv>, n: nat, r: Received, k: nat)
    requires n <= |tr| && k <= n
    ensures k <= |Fed(tr, n, r)| && Fed(tr, n, r)[..k] == tr[..k]
  {
  }

  lemma {:induction false} SilentTake(tr: seq<Recv>, k: nat, limit: nat)
    requires k <= |tr|
    ensures SilentFor(tr[..k], k, limit) <==> SilentFor(tr, k, limit)
  {
    assert forall i :: 0 <= i < k ==> tr[..k][i] == tr[i];
  }

  lemma {:induction false} PassingPrefix(tr: seq<Recv>, k: nat, job: Job, limit: nat)
    requires k <= |tr| && Goes(tr, k, job.size, limit, job.good)
    ensures Ending(tr[..k], job, limit) ==
            if |Payload(tr[..k])| == job.size then Some(Image(Payload(tr[..k]))) else None
  {
    if k > 0 {
      assert tr[..k][..k - 1] == tr[..k - 1] && tr[..k][k - 1] == tr[k - 1];
      assert Passes(tr, k - 1, job.size, job.good);
      SilentTake(tr, k, limit);
      assert !SilentFor(tr, k, limit);
    }
  }

  lemma {:induction false} EndingAtLast(tr: seq<Recv>, n: nat, r: Received, job: Job, limit: nat)
    requires limit > 0 && Receives(tr, job.size, limit, job.good, n, r)
    ensures Ending(Fed(tr, n, r), job, limit) == Some(r)
  {
    var fed := Fed(tr, n, r);
    if r.Image? {
      PassingPrefix(tr, n, job, limit);
    } else if n < |tr| {
      assert fed[..n] == tr[..n] && fed[n] == tr[n];
      SilentTake(tr, n + 1, limit);
    } else {
      assert fed[n].Error?;
    }
  }

  lemma {:induction false} GoesPrefix(tr: seq<Recv>, n: nat, k: nat, job: Job, limit: nat)
    requires k <= n <= |tr| && Goes(tr, n, job.size, limit, job.good)
    ensures Goes(tr, k, job.size, limit, job.good)
    ensures k < n ==> |Payload(tr[..k])| < job.size
  {
    if k < n {
      assert Passes(tr, k, job.size, job.good);
    }
  }

  lemma {:induction false} NoEndingBefore(tr: seq<Recv>, n: nat, r: Received, job: Job, limit: nat, k: nat)
    requires limit > 0 && Receives(tr, job.size, limit, job.good, n, r) && k < |Fed(tr, n, r)|
    ensures Ending(Fed(tr, n, r)[..k], job, limit).None?
  {
    FedPrefix(tr, n, r, k);
    GoesPrefix(tr, n, k, job, limit);
    PassingPrefix(tr, k, job, limit);
  }

  function Takes(tr: seq<Recv>): seq<Event> {
    if tr == [] then [] else [Take(tr[0])] + Takes(tr[1..])
  }

  /** The device while an upload has received k of what it will receive. */
  predicate Amid(b: Board, d: Device, was: Device, job: Job, fed: seq<Recv>, k: nat) {
    k <= |fed| && d == Received(b, Holding(was, job, WrittenOf(fed[..k])), job, fed[..k])
  }

  function Holding(was: Device, job: Job, bytes: seq<Byte>): Device {
    WithSlot(was, !was.running, bytes).(phase := InProgress, stage := Opened(job))
  }

  lemma {:induction false} StageIsReplaced(b: Board, d: Device, stage: Stage, job: Job, tr: seq<Recv>)
    ensures Received(b, d.(stage := stage), job, tr) == Received(b, d, job, tr)
  {
  }

  /** What has reached the flash: all chunks but one it would not take. */
  function WrittenOf(tr: seq<Recv>): seq<Byte> {
    if tr != [] && tr[|tr| - 1].Data? && !tr[|tr| - 1].flashed then Payload(tr[..|tr| - 1]) else Payload(tr)
  }

  predicate Fitting(fed: seq<Recv>, size: nat) {
    forall i :: 0 <= i < |fed| && fed[i].Data? ==> 0 < |fed[i].bytes| && |Payload(fed[..i])| + |fed[i].bytes| <= size
  }

  lemma {:induction false} OneTake(b: Board, d: Device, was: Device, job: Job, fed: seq<Recv>, k: nat)
    requires Amid(b, d, was, job, fed, k) && k < |fed| && Ending(fed[..k], job, b.limit).None? && Fitting(fed, job.size)
    ensures Enabled(d, Take(fed[k])) && Amid(b, Step(b, d, Take(fed[k])), was, job, fed, k + 1)
  {
    var tr := fed[..k];
    assert fed[..k + 1] == tr + [fed[k]];
    assert fed[..k + 1][..k] == tr;
    PayloadSnoc(tr, fed[k]);
    assert WrittenOf(tr) == Payload(tr);
    assert Payload(tr) + [] == Payload(tr);
    var next := Holding(was, job, WrittenOf(fed[..k + 1]));
    assert next.(stage := d.stage) ==
           if fed[k].Data? && fed[k].flashed then WithSlot(d, !d.running, Payload(fed[..k + 1])) else d;
    StageIsReplaced(b, next, d.stage, job, fed[..k + 1]);
  }

  lemma {:induction false} AllTakes(b: Board, d: Device, was: Device, job: Job, fed: seq<Recv>, k: nat)
    requires Amid(b, d, was, job, fed, k) && Fitting(fed, job.size)
    requires forall j :: 0 <= j < |fed| ==> Ending(fed[..j], job, b.limit).None?
    ensures Runnable(b, d, Takes(fed[k..])) && Amid(b, Run(b, d, Takes(fed[k..])), was, job, fed, |fed|)
    decreases |fed| - k
  {
    if k < |fed| {
      OneTake(b, d, was, job, fed, k);
      AllTakes(b, Step(b, d, Take(fed[k])), was, job, fed, k + 1);
      assert fed[k..][1..] == fed[k + 1..];
      assert Takes(fed[k..])[1..] == Takes(fed[k + 1..]);
    }
  }

  lemma {:induction false} FedFits(tr: seq<Recv>, n: nat, r: Received, size: nat)
    requires n <= |tr| && Plausible(tr, size)
    ensures Fitting(Fed(tr, n, r), size)
  {
    var fed := Fed(tr, n, r);
    forall i | 0 <= i < |fed| && fed[i].Data?
      ensures 0 < |fed[i].bytes| && |Payload(fed[..i])| + |fed[i].bytes| <= size
    {
      assert fed[i] == tr[i] && fed[..i] == tr[..i];
      assert tr[..i + 1] == tr[..i] + [tr[i]];
      PayloadSnoc(tr[..i], tr[i]);
    }
  }

  /** The events of an upload that is let in, up to the end of its receive loop. */
  function UploadEvents(job: Job, fed: seq<Recv>): seq<Event> {
    [Post(true, true, job), Begin(true, true)] + Takes(fed)
  }

  lemma {:induction false} RunUpload(b: Board, d: Device, job: Job, fed: seq<Recv>)
    requires d.phase == Idle && d.stage == NoUpload && Fitting(fed, job.size)
    requires forall j :: 0 <= j < |fed| ==> Ending(fed[..j], job, b.limit).None?
    ensures Runnable(b, d, UploadEvents(job, fed))
    ensures Amid(b, Run(b, d, UploadEvents(job, fed)), d, job, fed, |fed|)
  {
    var es := UploadEvents(job, fed);
    var admitted := Step(b, d, es[0]);
    assert es[1..] == [Begin(true, true)] + Takes(fed) && es[1..][1..] == Takes(fed);
    var begun := Step(b, admitted, Begin(true, true));
    assert fed[..0] == [] && fed[0..] == fed;
    assert Amid(b, begun, d, job, fed, 0);
    AllTakes(b, begun, d, job, fed, 0);
  }

  /**
   What becomes of an upload, from what its receives return: the loop of ReceiveAndWrite ends as it ends, and
   the handler then holds exactly the image received, or has given up with everything else as it was.
   */
  lemma {:induction false} UploadDecidedByTrace(b: Board, d: Device, job: Job, tr: seq<Recv>, n: nat, r: Received)
    requires Safe(b, d) && d.phase == Idle && Plausible(tr, job.size) && Receives(tr, job.size, b.limit, job.good, n, r)
    ensures var es := UploadEvents(job, Fed(tr, n, r));
            Runnable(b, d, es) && Decided(d, Run(b, d, es), r)
  {
    var fed := Fed(tr, n, r);
    forall j | 0 <= j < |fed|
      ensures Ending(fed[..j], job, b.limit).None?
    {
      NoEndingBefore(tr, n, r, job, b.limit, j);
    }
    FedFits(tr, n, r, job.size);
    RunUpload(b, d, job, fed);
    EndingAtLast(tr, n, r, job, b.limit);
    assert fed[..|fed|] == fed;
    if r.Image? {
      WholeIsWritten(tr, n, r, job, b.limit);
    }
  }

  lemma {:induction false} WholeIsWritten(tr: seq<Recv>, n: nat, r: Received, job: Job, limit: nat)
    requires Receives(tr, job.size, limit, job.good, n, r) && r.Image?
    ensures WrittenOf(tr[..n]) == r.bytes
  {
    if n > 0 {
      assert Passes(tr, n - 1, job.size, job.good);
    }
  }

  predicate Decided(d: Device, t: Device, r: Received) {
    && t.running == d.running && t.boot == d.boot && SlotAt(t, d.running) == SlotAt(d, d.running)
    && if r.Image? then t.stage.Complete? && SlotAt(t, !d.running) == r.bytes
       else t.phase == Idle && t.stage == NoUpload
  }

  /** A complete upload that then meets no failure runs after the reboot exactly if the chip accepts it. */
  lemma {:induction false} CompleteUploadRunsIfValid(b: Board, d: Device, torn: seq<Byte>)
    requires Safe(b, d) && d.stage.Complete?
    ensures var bytes := SlotAt(d, !d.running); var checked := Step(b, d, End);
            && (checked.stage.Checked? <==> b.valid(bytes))
            && (checked.stage.Checked? ==>
                  var up := Step(b, Step(b, Step(b, checked, SetBoot(true)), Finish), Reboot(torn));
                  up.running == !d.running && SlotAt(up, up.running) == bytes)
            && (!checked.stage.Checked? ==>
                  var up := Step(b, checked, Reboot(torn));
                  up.running == d.running && SlotAt(up, up.running) == SlotAt(d, d.running))
  {
  }
}

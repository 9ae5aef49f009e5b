/**
 The receive loop of a firmware upload (main/ota_handler.c), which gives up on a silent client, and the
 arithmetic of its stall limit.
 */
module Ota {
  import opened Bytes

  // ---- The receive loop ---------------------------------------------------------------------

  const STALL_BUDGET_MS := 30000
  const DESCRIPTOR_END := 480

  /** What one receive call can return; a chunk comes with whether the flash will take it. */
  datatype Recv = Timeout | Error | Data(bytes: seq<Byte>, flashed: bool)

  datatype Received = Image(bytes: seq<Byte>) | Stalled | Broken | BadImage | FlashError

  /** How many timeouts of one receive window make up the silence budget. */
  function StallLimit(windowMs: int): int
    requires windowMs > 0
  {
    STALL_BUDGET_MS / windowMs
  }

  /** The k calls ending at call n all timed out. */
  predicate SilentFor(tr: seq<Recv>, n: nat, k: nat) {
    k <= n <= |tr| && forall i :: n - k <= i < n ==> tr[i].Timeout?
  }

  function Payload(tr: seq<Recv>): seq<Byte> {
    if tr == [] then []
    else (if tr[0].Data? then tr[0].bytes else []) + Payload(tr[1..])
  }

  lemma {:induction false} PayloadSnoc(tr: seq<Recv>, r: Recv)
    ensures Payload(tr + [r]) == Payload(tr) + if r.Data? then r.bytes else []
  {
    if tr == [] {
      assert tr + [r] == [r];
      assert [r][1..] == [];
    } else {
      assert (tr + [r])[1..] == tr[1..] + [r];
      PayloadSnoc(tr[1..], r);
      Associative(if tr[0].Data? then tr[0].bytes else [], Payload(tr[1..]), if r.Data? then r.bytes else []);
    }
  }

  /** Every receive asks for no more than is missing; the peer answers with at least one byte. */
  predicate Plausible(tr: seq<Recv>, size: nat) {
    forall i :: 0 <= i < |tr| && tr[i].Data? ==> 0 < |tr[i].bytes| && |Payload(tr[..i + 1])| <= size
  }

  /** A first chunk must hold the whole application descriptor, and the descriptor must be `good`. */
  predicate Described(before: seq<Byte>, chunk: seq<Byte>, good: bool) {
    before == [] ==> good && |chunk| >= DESCRIPTOR_END
  }

  /** Call m neither comes after the end nor ends the upload by what it returns. */
  predicate Passes(tr: seq<Recv>, m: nat, size: nat, good: bool)
    requires m < |tr|
  {
    && |Payload(tr[..m])| < size && !tr[m].Error?
    && (tr[m].Data? ==> tr[m].flashed && Described(Payload(tr[..m]), tr[m].bytes, good))
  }

  /** Nothing in the first n calls stops the loop. */
  predicate Goes(tr: seq<Recv>, n: nat, size: nat, limit: nat, good: bool)
    requires n <= |tr|
  {
    && (forall m :: 0 < m <= n ==> !SilentFor(tr, m, limit))
    && (forall m :: 0 <= m < n ==> Passes(tr, m, size, good))
  }

  /** The upload goes for n calls and then ends as `r`; the end of the trace is a closed connection. */
  predicate Receives(tr: seq<Recv>, size: nat, limit: nat, good: bool, n: nat, r: Received) {
    && n <= |tr| && Goes(tr, n, size, limit, good)
    && var got := Payload(tr[..n]);
       if r.Image? then r.bytes == got && |got| == size
       else if n == |tr| then |got| < size && r.Broken?
       else
         && |got| < size
         && match r {
              case Stalled => tr[n].Timeout? && SilentFor(tr, n + 1, limit)
              case Broken => tr[n].Error?
              case BadImage => tr[n].Data? && !Described(got, tr[n].bytes, good)
              case FlashError => tr[n].Data? && Described(got, tr[n].bytes, good) && !tr[n].flashed
            }
  }

  lemma {:induction false} NothingYet(tr: seq<Recv>)
    requires forall i :: 0 <= i < |tr| && tr[i].Data? ==> 0 < |tr[i].bytes|
    ensures Payload(tr) == [] <==> forall i :: 0 <= i < |tr| ==> !tr[i].Data?
  {
    if tr != [] {
      assert forall i :: 0 <= i < |tr[1..]| ==> tr[1..][i] == tr[i + 1];
      NothingYet(tr[1..]);
    }
  }

  /** An upload is refused for its descriptor exactly at its first data, if that is fewer than 480 bytes or the
      descriptor in it is not the right one; an image that came through began with a good one. */
  lemma {:induction false} DescriptorDecides(tr: seq<Recv>, size: nat, limit: nat, good: bool, n: nat, r: Received)
    requires Receives(tr, size, limit, good, n, r) && Plausible(tr, size)
    ensures r == BadImage <==>
            && n < |tr| && |Payload(tr[..n])| < size && tr[n].Data? && (forall i :: 0 <= i < n ==> !tr[i].Data?)
            && (|tr[n].bytes| < 480 || !good)
    ensures forall m :: 0 <= m < n && tr[m].Data? && (forall i :: 0 <= i < m ==> !tr[i].Data?) ==>
              |tr[m].bytes| >= 480 && good
  {
    assert forall i :: 0 <= i < n ==> tr[..n][i] == tr[i];
    NothingYet(tr[..n]);
    forall m | 0 <= m < n && tr[m].Data? && (forall i :: 0 <= i < m ==> !tr[i].Data?)
      ensures |tr[m].bytes| >= 480 && good
    {
      assert forall i :: 0 <= i < m ==> tr[..m][i] == tr[i];
      NothingYet(tr[..m]);
      assert Passes(tr, m, size, good);
    }
  }

  /** What the loop's variables say about the n calls made so far. */
  ghost predicate Progress(tr: seq<Recv>, n: nat, size: nat, limit: nat, good: bool, written: seq<Byte>, stalls: nat) {
    && n <= |tr| && stalls <= n && stalls < limit
    && written == Payload(tr[..n]) && |written| <= size
    && SilentFor(tr, n, stalls) && (stalls < n ==> !tr[n - stalls - 1].Timeout?)
    && Goes(tr, n, size, limit, good)
  }

  lemma {:induction false} ProgressTimeout(tr: seq<Recv>, n: nat, size: nat, limit: nat, good: bool,
                                           written: seq<Byte>, stalls: nat)
    requires Progress(tr, n, size, limit, good, written, stalls) && |written| < size && n < |tr| && tr[n].Timeout?
    ensures SilentFor(tr, n + 1, stalls + 1)
    ensures stalls + 1 < limit ==> Progress(tr, n + 1, size, limit, good, written, stalls + 1)
  {
    assert tr[..n + 1] == tr[..n] + [tr[n]];
    PayloadSnoc(tr[..n], tr[n]);
    if stalls + 1 < limit {
      NotSilentLonger(tr, n + 1, stalls + 1, limit);
    }
  }

  lemma {:induction false} ProgressData(tr: seq<Recv>, n: nat, size: nat, limit: nat, good: bool, written: seq<Byte>,
                                        stalls: nat)
    requires Progress(tr, n, size, limit, good, written, stalls) && n < |tr| && tr[n].Data? && Plausible(tr, size)
    requires Passes(tr, n, size, good)
    ensures Progress(tr, n + 1, size, limit, good, written + tr[n].bytes, 0)
  {
    assert tr[..n + 1] == tr[..n] + [tr[n]];
    PayloadSnoc(tr[..n], tr[n]);
    NotSilentLonger(tr, n + 1, 0, limit);
  }

  /**
   ota_receive_and_write over the results its receive calls will return, the end of them standing for
   a closed connection. `good` is the verdict on the application descriptor in the first chunk.
   */
  method ReceiveAndWrite(tr: seq<Recv>, size: nat, limit: nat, good: bool) returns (r: Received, n: nat)
    requires limit >= 2 && Plausible(tr, size)
    ensures Receives(tr, size, limit, good, n, r)
  {
    var written: seq<Byte> := [];
    var stalls := 0;
    var validated := false;
    n := 0;
    assert tr[..0] == [];
    while |written| < size
      invariant Progress(tr, n, size, limit, good, written, stalls)
      invariant validated <==> written != []
      decreases |tr| - n
    {
      if n == |tr| || tr[n].Error? {
        return Broken, n;
      }
      var got := tr[n];
      if got.Timeout? {
        ProgressTimeout(tr, n, size, limit, good, written, stalls);
        stalls := stalls + 1;
        if stalls >= limit {
          return Stalled, n;
        }
      } else {
        if !validated {
          if |got.bytes| < DESCRIPTOR_END || !good {
            return BadImage, n;
          }
          validated := true;
        }
        if !got.flashed {
          return FlashError, n;
        }
        ProgressData(tr, n, size, limit, good, written, stalls);
        stalls := 0;
        written := written + got.bytes;
      }
      n := n + 1;
    }
    r := Image(written);
  }

  /** A run of timeouts that is just `stalls` long is not `limit` long. */
  lemma {:induction false} NotSilentLonger(tr: seq<Recv>, n: nat, stalls: nat, limit: nat)
    requires n <= |tr| && stalls < limit && stalls <= n
    requires stalls < n ==> !tr[n - stalls - 1].Timeout?
    ensures !SilentFor(tr, n, limit)
  {
  }

  /** The trace decides where and how the upload ends. */
  lemma {:induction false} ReceivesOnce(tr: seq<Recv>, size: nat, limit: nat, good: bool, n: nat, r: Received,
                                        n': nat, r': Received)
    requires Receives(tr, size, limit, good, n, r) && Receives(tr, size, limit, good, n', r')
    ensures n == n' && r == r'
  {
    NotBefore(tr, size, limit, good, n, r, n');
    NotBefore(tr, size, limit, good, n', r', n);
  }

  lemma {:induction false} StopsThere(tr: seq<Recv>, size: nat, limit: nat, good: bool, n: nat, r: Received)
    requires Receives(tr, size, limit, good, n, r) && n < |tr|
    ensures !Passes(tr, n, size, good) || SilentFor(tr, n + 1, limit)
  {
  }

  lemma {:induction false} NotBefore(tr: seq<Recv>, size: nat, limit: nat, good: bool, n: nat, r: Received, later: nat)
    requires Receives(tr, size, limit, good, n, r) && later <= |tr| && Goes(tr, later, size, limit, good)
    ensures later <= n
  {
    if n < |tr| {
      StopsThere(tr, size, limit, good, n, r);
    }
  }

  /** A client that is given up on has just been silent for the limit, for the first time and no longer. */
  lemma {:induction false} StallIsExact(tr: seq<Recv>, size: nat, limit: nat, good: bool, n: nat)
    requires limit > 0 && Receives(tr, size, limit, good, n, Stalled)
    ensures forall m :: 0 < m <= n ==> !SilentFor(tr, m, limit)
    ensures SilentFor(tr, n + 1, limit) && (n + 1 == limit || !tr[n - limit].Timeout?)
  {
    if n + 1 > limit && tr[n - limit].Timeout? {
      assert SilentFor(tr, n, limit);
    }
  }

  // ---- Stall arithmetic ---------------------------------------------------------------------

  /** The silence the loop tolerates is the budget rounded down to whole windows. */
  lemma {:induction false} SilenceWithinBudget(windowMs: int)
    requires windowMs > 0
    ensures STALL_BUDGET_MS - windowMs < StallLimit(windowMs) * windowMs <= STALL_BUDGET_MS
  {
  }

  /** What the guest's clock shows between the first retry and giving up. */
  function StallDelta(windowSeconds: nat, limit: nat): int
    requires limit >= 1
  {
    (limit - 1) * windowSeconds * 1000
  }

  function Tolerance(windowSeconds: nat, limit: nat): int
    requires limit >= 1
  {
    var byWindow, byLimit := windowSeconds * 1000 / 2, (limit - 1) * 1000 / 2;
    if byWindow <= byLimit then byWindow else byLimit
  }

  lemma {:induction false} Apart(k: int, big: int, small: int)
    requires k >= 1 && big > small
    ensures k * big * 1000 - k * small * 1000 >= k * 1000
  {
    assert k * big - k * small == k * (big - small);
    AtLeastOnce(k, big - small);
  }

  lemma {:induction false} AtLeastOnce(k: int, d: int)
    requires k >= 1 && d >= 1
    ensures k * d >= k
  {
  }

  /** For every window and every limit of at least two, no other whole-second window passes for it. */
  lemma {:induction false} ToleranceSeparatesWindows(w: nat, other: nat, limit: nat)
    requires limit >= 2 && w != other
    ensures StallDelta(other, limit) - StallDelta(w, limit) > Tolerance(w, limit) ||
            StallDelta(w, limit) - StallDelta(other, limit) > Tolerance(w, limit)
  {
    if other > w {
      Apart(limit - 1, other, w);
    } else {
      Apart(limit - 1, w, other);
    }
  }

  /** Half a window alone would not do: four seconds would pass for five at a limit of three. */
  lemma {:induction false} HalfAWindowIsNotEnough()
    ensures StallDelta(5, 3) - StallDelta(4, 3) <= 5 * 1000 / 2
    ensures StallDelta(5, 3) - StallDelta(4, 3) > Tolerance(5, 3)
  {
  }
}

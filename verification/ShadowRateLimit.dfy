/**
 The shared diagnostic budget of `app/services/arf_shadow_rate_limit.py`: one stored
 arrival time per owner, changed by a conditional upsert, against a token bucket.
 */
module ShadowRateLimit {
  import opened Prelude

  const SLOT := 2.0
  const BURST := 8.0
  const CAPACITY := 5.0

  function Max(a: real, b: real): real {
    if a < b then b else a
  }

  function Min(a: real, b: real): real {
    if a < b then a else b
  }

  // ---- The stored row ----

  // The row of one owner: next_slot_at, or no row yet.
  type Row = Option<real>

  // A request reads the clock, in seconds, where the condition is evaluated and again where the
  // new value is computed; reads never run backwards.
  datatype Request = Request(checked: real, written: real)

  predicate Admits(row: Row, checked: real) {
    row.None? || row.value <= checked + BURST
  }

  function RowAfter(row: Row, request: Request): Row {
    if row.None? then Some(request.written + SLOT)
    else if Admits(row, request.checked) then Some(Max(row.value, request.written) + SLOT)
    else row
  }

  /** CEIL of the wait, at least one second. */
  function RetryAfter(next: real, clock: real): (seconds: int)
    ensures seconds >= 1 && next <= clock + seconds as real + 8.0
    ensures seconds == 1 || clock + seconds as real + 7.0 < next
  {
    var ceiling := -(-(next - clock - BURST)).Floor;
    if ceiling < 1 then 1 else ceiling
  }

  datatype Verdict = Admitted | Refused(retryAfter: int)

  class Limiter {
    var next: Row

    constructor ()
      ensures next == None
    {
      next := None;
    }

    /** One attempt: the upsert, and when it changed nothing the reading of the wait. */
    method Consume(checked: real, written: real, read: real) returns (verdict: Verdict)
      requires checked <= written && checked <= read
      modifies this
      ensures next == RowAfter(old(next), Request(checked, written))
      ensures verdict == Admitted <==> old(next).None? || old(next).value <= checked + 8.0
      ensures verdict == Admitted ==>
        next == Some((if old(next).Some? && old(next).value > written then old(next).value else written) + 2.0)
      ensures verdict != Admitted ==> next == old(next)
      ensures verdict == if Admits(old(next), checked) then Admitted else Refused(RetryAfter(old(next).value, read))
    {
      if next.None? {
        next := Some(written + SLOT);
        return Admitted;
      }
      if next.value <= checked + BURST {
        next := Some(Max(next.value, written) + SLOT);
        return Admitted;
      }
      verdict := Refused(RetryAfter(next.value, read));
    }
  }

  // ---- Runs ----

  predicate Ordered(requests: seq<Request>) {
    && (forall i | 0 <= i < |requests| :: requests[i].checked <= requests[i].written)
    && (forall i, j | 0 <= i < j < |requests| :: requests[i].written <= requests[j].checked)
  }

  function RowAfterAll(row: Row, requests: seq<Request>): Row
    decreases |requests|
  {
    if requests == [] then row else RowAfterAll(RowAfter(row, requests[0]), requests[1..])
  }

  function Admissions(row: Row, requests: seq<Request>): (admitted: seq<bool>)
    ensures |admitted| == |requests|
    decreases |requests|
  {
    if requests == [] then []
    else [Admits(row, requests[0].checked)] + Admissions(RowAfter(row, requests[0]), requests[1..])
  }

  // ---- The token bucket ----

  datatype Bucket = Bucket(level: real, at: real)

  function Refilled(bucket: Bucket, now: real): Bucket {
    Bucket(Min(CAPACITY, bucket.level + (now - bucket.at) / 2.0), now)
  }

  predicate HasToken(bucket: Bucket, request: Request) {
    Refilled(bucket, request.checked).level >= 1.0
  }

  /** A token is taken, when there is one, at the time of the write. */
  function BucketAfter(bucket: Bucket, request: Request): Bucket {
    if HasToken(bucket, request) then
      var full := Refilled(Refilled(bucket, request.checked), request.written);
      Bucket(full.level - 1.0, request.written)
    else Refilled(bucket, request.checked)
  }

  function BucketAdmissions(bucket: Bucket, requests: seq<Request>): (admitted: seq<bool>)
    ensures |admitted| == |requests|
    decreases |requests|
  {
    if requests == [] then []
    else [HasToken(bucket, requests[0])] + BucketAdmissions(BucketAfter(bucket, requests[0]), requests[1..])
  }

  /** The stored slot lies ahead of the clock by two seconds for every missing token. */
  predicate Represents(row: Row, bucket: Bucket) {
    bucket.level == CAPACITY - (if row.None? then 0.0 else Max(row.value - bucket.at, 0.0) / 2.0)
  }

  lemma RefillRepresents(row: Row, bucket: Bucket, now: real)
    requires Represents(row, bucket) && bucket.at <= now
    ensures Represents(row, Refilled(bucket, now))
  {
  }

  lemma StepRefines(row: Row, bucket: Bucket, request: Request)
    requires Represents(row, bucket) && bucket.at <= request.checked <= request.written
    ensures Admits(row, request.checked) == HasToken(bucket, request)
    ensures Represents(RowAfter(row, request), BucketAfter(bucket, request))
    ensures BucketAfter(bucket, request).at <= request.written
  {
    RefillRepresents(row, bucket, request.checked);
    RefillRepresents(row, Refilled(bucket, request.checked), request.written);
  }

  /** On every run the stored row and the bucket admit the same requests. */
  lemma {:induction false} LimiterRefinesBucket(row: Row, bucket: Bucket, requests: seq<Request>)
    requires Represents(row, bucket) && Ordered(requests)
    requires requests != [] ==> bucket.at <= requests[0].checked
    ensures Admissions(row, requests) == BucketAdmissions(bucket, requests)
    decreases |requests|
  {
    if requests != [] {
      StepRefines(row, bucket, requests[0]);
      LimiterRefinesBucket(RowAfter(row, requests[0]), BucketAfter(bucket, requests[0]), requests[1..]);
    }
  }

  /** The run of an owner without a row is the run of a full bucket. */
  lemma FreshOwnerHasAFullBucket(requests: seq<Request>, start: real)
    requires Ordered(requests) && (requests != [] ==> start <= requests[0].checked)
    ensures Admissions(None, requests) == BucketAdmissions(Bucket(CAPACITY, start), requests)
  {
    LimiterRefinesBucket(None, Bucket(CAPACITY, start), requests);
  }

  // ---- How many in a window ----

  function Count(flags: seq<bool>): nat {
    if flags == [] then 0 else (if flags[0] then 1 else 0) + Count(flags[1..])
  }

  /** Each admission moves the slot on by two seconds at least, and the last was within its reach. */
  lemma {:induction false} AdmissionsPushTheSlot(row: Row, requests: seq<Request>, start: real, end: real)
    requires Ordered(requests)
    requires forall r | r in requests :: start <= r.checked <= end
    ensures var k := Count(Admissions(row, requests)) as real;
            (k > 0.0 ==> SLOT * k <= (end - start) + 10.0)
            && (k > 0.0 && row.Some? ==> row.value + SLOT * (k - 1.0) <= end + BURST)
    decreases |requests|
  {
    if requests == [] { return; }
    var first, rest := requests[0], requests[1..];
    assert first in requests && forall r | r in rest :: r in requests;
    AdmissionsPushTheSlot(RowAfter(row, first), rest, start, end);
    CountAdmissions(row, requests);
    SlotMoves(row, first);
    hide Admissions, Count, Admits, RowAfter, Ordered;
  }

  lemma CountAdmissions(row: Row, requests: seq<Request>)
    requires requests != []
    ensures Count(Admissions(row, requests))
         == (if Admits(row, requests[0].checked) then 1 else 0)
          + Count(Admissions(RowAfter(row, requests[0]), requests[1..]))
  {
    assert Admissions(row, requests)[1..] == Admissions(RowAfter(row, requests[0]), requests[1..]);
  }

  lemma SlotMoves(row: Row, request: Request)
    requires request.checked <= request.written
    ensures Admits(row, request.checked) ==>
      && RowAfter(row, request).Some? && RowAfter(row, request).value >= request.checked + SLOT
      && (row.Some? ==> row.value <= request.checked + BURST && RowAfter(row, request).value >= row.value + SLOT)
    ensures !Admits(row, request.checked) ==> RowAfter(row, request) == row
  {
  }

  lemma {:induction false} AdmissionsSplit(row: Row, a: seq<Request>, b: seq<Request>)
    ensures Admissions(row, a + b) == Admissions(row, a) + Admissions(RowAfterAll(row, a), b)
    decreases |a|
  {
    if a == [] {
      assert a + b == b;
    } else {
      assert (a + b)[1..] == a[1..] + b;
      AdmissionsSplit(RowAfter(row, a[0]), a[1..], b);
    }
  }

  /**
   In any stretch of a run whose checks fall within a window of W seconds, at most
   5 + floor(W/2) requests are admitted, whatever came before.
   */
  lemma WindowBound(row: Row, requests: seq<Request>, i: nat, j: nat, start: real, width: real)
    requires Ordered(requests) && i <= j <= |requests| && width >= 0.0
    requires forall k | i <= k < j :: start <= requests[k].checked <= start + width
    ensures Count(Admissions(row, requests)[i..j]) <= 5 + (width / 2.0).Floor
  {
    var window := requests[i..j];
    RunSlice(row, requests, i, j);
    AdmissionsPushTheSlot(RowAfterAll(row, requests[..i]), window, start, start + width);
    hide Admissions, RowAfterAll, Count, Ordered;
    AtMostFloor(Count(Admissions(row, requests)[i..j]), width / 2.0);
  }

  lemma RunSlice(row: Row, requests: seq<Request>, i: nat, j: nat)
    requires i <= j <= |requests|
    ensures Admissions(row, requests)[i..j] == Admissions(RowAfterAll(row, requests[..i]), requests[i..j])
  {
    var before, window, after := requests[..i], requests[i..j], requests[j..];
    assert requests == before + (window + after);
    AdmissionsSplit(row, before, window + after);
    AdmissionsSplit(RowAfterAll(row, before), window, after);
  }

  lemma AtMostFloor(k: nat, x: real)
    requires x >= 0.0 && (k as real > 0.0 ==> k as real <= 5.0 + x)
    ensures k <= 5 + x.Floor
  {
    if k > 5 { assert (k - 5) as real <= x; }
  }

  /** Nor is the refill slower: with room for one, a request every two seconds is always admitted. */
  lemma {:induction false} SteadyRateIsAdmitted(next: real, now: real, n: nat)
    requires next <= now + BURST
    ensures var requests := seq(n, i => Request(now + SLOT * (i as real), now + SLOT * (i as real)));
            Count(Admissions(Some(next), requests)) == n
    decreases n
  {
    var requests := seq(n, i => Request(now + SLOT * (i as real), now + SLOT * (i as real)));
    if n > 0 {
      var later := now + SLOT;
      SteadyRateIsAdmitted(Max(next, now) + SLOT, later, n - 1);
      assert requests[1..] == seq(n - 1, i => Request(later + SLOT * (i as real), later + SLOT * (i as real)));
    }
  }

  // ---- The wait a refusal names ----

  /**
   If nothing else is admitted, a request the named number of seconds after the reading is
   admitted, and none a smaller whole number of seconds after it, as long as the refusal
   still stood when the wait was read.
   */
  lemma RetryIsExact(next: real, read: real, seconds: nat)
    requires !Admits(Some(next), read)
    ensures Admits(Some(next), read + seconds as real) <==> seconds >= RetryAfter(next, read)
  {
    var wait := next - read - BURST;
    var ceiling := -(-wait).Floor;
    assert (ceiling - 1) as real < wait <= ceiling as real;
  }

  /** Had a slot opened between the two readings, one second is named, and it suffices. */
  lemma RetrySuffices(next: real, read: real)
    ensures Admits(Some(next), read + RetryAfter(next, read) as real)
  {
    var wait := next - read - BURST;
    assert wait <= (-(-wait).Floor) as real;
  }
}

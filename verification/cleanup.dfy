/**
 * The two expiry sweeps, `BookingCleanupService.cancelExpiredPendingPayments`
 * and `BookingHoldsCleanupService.cancelExpiredPendingBookings`: one bulk
 * conditional update that cancels PENDING_PAYMENT holds whose expiry is
 * strictly before `now`.
 */
module Cleanup {
  import opened Wrappers
  import opened Domain
  import Calendar

  /** The `where` of the bulk update. */
  predicate ExpiredHold(b: Booking, now: int) {
    b.status == PendingPayment && b.expiresAt.Some? && b.expiresAt.value < now
  }

  /** `b` and `c` are the same row except, possibly, its status. */
  predicate SameExceptStatus(b: Booking, c: Booking) {
    b.(status := c.status) == c
  }

  /** The bulk update `status := CANCELLED where status = PENDING_PAYMENT and expiresAt < now`. */
  function CancelExpired(bs: seq<Booking>, now: int): (r: seq<Booking>)
    ensures |r| == |bs|
    ensures forall i :: 0 <= i < |bs| ==> SameExceptStatus(bs[i], r[i])
    ensures forall i :: 0 <= i < |bs| && ExpiredHold(bs[i], now) ==> r[i].status == Cancelled
    ensures forall i :: 0 <= i < |bs| && !ExpiredHold(bs[i], now) ==> r[i] == bs[i]
    ensures forall i :: 0 <= i < |r| ==> !ExpiredHold(r[i], now)
  {
    seq(|bs|, i requires 0 <= i < |bs| => if ExpiredHold(bs[i], now) then bs[i].(status := Cancelled) else bs[i])
  }

  /** The rows the update matches. */
  function CountExpired(bs: seq<Booking>, now: int): nat {
    if |bs| == 0 then 0 else (if ExpiredHold(bs[0], now) then 1 else 0) + CountExpired(bs[1..], now)
  }

  /** Positions where two tables of equal length differ. */
  function ChangedRows(before: seq<Booking>, after: seq<Booking>): nat
    requires |before| == |after|
  {
    if |before| == 0 then 0
    else (if before[0] != after[0] then 1 else 0) + ChangedRows(before[1..], after[1..])
  }

  datatype SweepResult = SweepResult(bookings: seq<Booking>, count: nat, log: Option<string>)

  /**
   * `cancelExpiredPendingPayments()`: run the update, and log the count when
   * it is positive.
   */
  function CancelExpiredPendingPayments(bs: seq<Booking>, now: int): (r: SweepResult)
    ensures r.bookings == CancelExpired(bs, now)
    ensures r.count == ChangedRows(bs, r.bookings)
    ensures r.log.Some? <==> r.count > 0
    ensures r.log.Some? ==> r.log.value == "Cancelled " + Calendar.Digits(r.count) + " expired pending bookings"
  {
    var after := CancelExpired(bs, now);
    var count := CountExpired(bs, now);
    CountIsChangedRows(bs, now);
    SweepResult(after, count, if count > 0 then Some("Cancelled " + Calendar.Digits(count) + " expired pending bookings") else None)
  }

  /** `cancelExpiredPendingBookings()`: the same update, without the count or log. */
  function CancelExpiredPendingBookings(bs: seq<Booking>, now: int): (r: seq<Booking>)
    ensures r == CancelExpiredPendingPayments(bs, now).bookings
  {
    CancelExpired(bs, now)
  }

  /** The update's row count is the number of rows whose value changed. */
  lemma {:induction false} CountIsChangedRows(bs: seq<Booking>, now: int)
    ensures CountExpired(bs, now) == ChangedRows(bs, CancelExpired(bs, now))
    decreases |bs|
  {
    if |bs| > 0 {
      var after := CancelExpired(bs, now);
      assert after[1..] == CancelExpired(bs[1..], now);
      CountIsChangedRows(bs[1..], now);
    }
  }

  /** Running the sweep twice with the same `now` is running it once. */
  lemma SweepIdempotent(bs: seq<Booking>, now: int)
    ensures CancelExpired(CancelExpired(bs, now), now) == CancelExpired(bs, now)
  {
  }

  /** The second of two runs with the same `now` reports no rows. */
  lemma {:induction false} SecondSweepCountsZero(bs: seq<Booking>, now: int)
    ensures CancelExpiredPendingPayments(CancelExpired(bs, now), now).count == 0
  {
    var once := CancelExpired(bs, now);
    SweepIdempotent(bs, now);
    NoChangeNoCount(once);
  }

  lemma {:induction false} NoChangeNoCount(bs: seq<Booking>)
    ensures ChangedRows(bs, bs) == 0
    decreases |bs|
  {
    if |bs| > 0 {
      NoChangeNoCount(bs[1..]);
    }
  }

  /** A hold expiring exactly at `now`, or later, survives the sweep. */
  lemma BoundaryHoldSurvives(b: Booking, now: int)
    requires b.status == PendingPayment && b.expiresAt.Some? && b.expiresAt.value >= now
    ensures CancelExpired([b], now) == [b]
  {
  }

  /** Cancelling expired holds never makes two active bookings overlap. */
  lemma SweepPreservesNoActiveOverlap(bs: seq<Booking>, now: int, later: int)
    requires NoActiveOverlap(bs, later)
    ensures NoActiveOverlap(CancelExpired(bs, now), later)
  {
    var r := CancelExpired(bs, now);
    forall i, j | 0 <= i < j < |r| && r[i].courtId == r[j].courtId && IsActive(r[i], later) && IsActive(r[j], later)
      ensures !Overlaps(r[i].start, r[i].end, r[j].start, r[j].end)
    {
      assert r[i] == bs[i] && r[j] == bs[j];
    }
  }
}

/**
 * The relational schema the services work on, as immutable values: courts,
 * bookings and payments, with instants in integer milliseconds.
 */
module Domain {
  import opened Wrappers

  type Id = string

  datatype BookingStatus = PendingPayment | Confirmed | Cancelled

  datatype Booking = Booking(
    id: Id,
    userId: Id,
    courtId: Id,
    start: int,
    end: int,
    status: BookingStatus,
    expiresAt: Option<int>)

  datatype Court = Court(id: Id, clubId: Id, name: string, price: int, createdAt: int)

  datatype PaymentStatus = RequiresPayment | Processing | Succeeded | Failed

  datatype Payment = Payment(
    bookingId: Id,
    amount: int,
    currency: string,
    status: PaymentStatus,
    stripeIntentId: Option<string>)

  /** The tables the services read and write. */
  datatype Db = Db(courts: seq<Court>, bookings: seq<Booking>, payments: seq<Payment>)

  /** Half-open intervals [aStart, aEnd) and [bStart, bEnd) share an instant. */
  predicate Overlaps(aStart: int, aEnd: int, bStart: int, bEnd: int) {
    aStart < bEnd && aEnd > bStart
  }

  /**
   * A booking that still occupies its court at `now`: CONFIRMED, or a
   * PENDING_PAYMENT hold whose expiry is after `now` (a hold without an
   * expiry compares as SQL NULL and never matches).
   */
  predicate IsActive(b: Booking, now: int) {
    b.status == Confirmed || (b.status == PendingPayment && b.expiresAt.Some? && b.expiresAt.value > now)
  }

  /** The reservation invariant: no two active bookings on one court overlap. */
  predicate NoActiveOverlap(bs: seq<Booking>, now: int) {
    forall i, j :: 0 <= i < j < |bs| && bs[i].courtId == bs[j].courtId
      && IsActive(bs[i], now) && IsActive(bs[j], now)
      ==> !Overlaps(bs[i].start, bs[i].end, bs[j].start, bs[j].end)
  }

  /** The court row with id `id`, if any (`id` is the primary key). */
  function CourtById(courts: seq<Court>, id: Id): (r: Option<Court>)
    ensures r.Some? ==> r.value in courts && r.value.id == id
    ensures r.None? ==> forall c :: c in courts ==> c.id != id
  {
    if |courts| == 0 then None
    else if courts[0].id == id then Some(courts[0])
    else CourtById(courts[1..], id)
  }

  /** The booking's court belongs to club `clubId` (`court: { clubId }`). */
  predicate OnClub(courts: seq<Court>, b: Booking, clubId: Id) {
    var c := CourtById(courts, b.courtId);
    c.Some? && c.value.clubId == clubId
  }
}

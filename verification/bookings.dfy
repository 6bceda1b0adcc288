/**
 * `BookingsService`: the reservation engine (`create`) and its two queries
 * (`findMine`, `findByClubAndDate`), over an in-memory booking table and the
 * in-process lock table.
 */
module Bookings {
  import opened Wrappers
  import opened Calendar
  import opened Domain
  import Locks
  import Sorting
  import Dates

  datatype CreateBookingDto = CreateBookingDto(courtId: Id, startTime: string, endTime: string)

  /** Luxon's `DateTime.fromISO(s, { setZone: true }).toUTC()`, as epoch ms when valid. */
  type IsoParser = string -> Option<TimeValue>

  const LockTtlSeconds: int := 30
  const InvalidRangeMessage: string := "Invalid time range"
  const SlotLockedMessage: string := "Time slot temporarily locked"
  const SlotTakenMessage: string := "Time slot already booked"
  const InvalidDateQueryMessage: string := "Invalid date. Expected YYYY-MM-DD, ISO timestamp, or unix timestamp (ms)"
  /**
   * Stand-in for the error Prisma throws when the query is given an Invalid
   * Date; the program never writes this text.
   */
  const InvalidInstantMessage: string := "Invalid Date passed to the booking query"

  /** Both times parse and the end is strictly after the start. */
  predicate ValidRange(dto: CreateBookingDto, parseIso: IsoParser) {
    parseIso(dto.startTime).Some? && parseIso(dto.endTime).Some?
    && parseIso(dto.endTime).value > parseIso(dto.startTime).value
  }

  /** The lock key: the court and the UTC ISO text of the start, nothing else. */
  function LockKey(courtId: Id, start: TimeValue): string {
    "lock:court:" + courtId + ":" + ToIsoString(start)
  }

  /** Existing booking `b` blocks a new booking of [start, end) on `courtId` at `now`. */
  predicate Conflicts(b: Booking, courtId: Id, start: int, end: int, now: int) {
    b.courtId == courtId && b.start < end && b.end > start && IsActive(b, now)
  }

  /** The overlap query (`findFirst`) finds a row. */
  predicate HasConflict(bs: seq<Booking>, courtId: Id, start: int, end: int, now: int) {
    exists i :: 0 <= i < |bs| && Conflicts(bs[i], courtId, start, end, now)
  }

  datatype CreateOutcome = CreateOutcome(result: Result<Booking, HttpError>, bookings: seq<Booking>, locks: Locks.LockTable)

  /**
   * `create(userId, dto)`: validate the range, take the (court, start) lock,
   * query for an active overlapping booking, insert a CONFIRMED booking with id
   * `newId` (the database's generated id), and release the lock on every path.
   * `now` is the instant read after the lock is taken.
   */
  function Create(bookings: seq<Booking>, locks: Locks.LockTable, userId: Id, dto: CreateBookingDto,
                  parseIso: IsoParser, now: int, newId: Id): (r: CreateOutcome)
    ensures r.locks.timers == locks.timers
    ensures !ValidRange(dto, parseIso) ==> r == CreateOutcome(Err(BadRequest(InvalidRangeMessage)), bookings, locks)
    ensures ValidRange(dto, parseIso) && LockKey(dto.courtId, parseIso(dto.startTime).value) in Locks.Held(locks)
      ==> r == CreateOutcome(Err(BadRequest(SlotLockedMessage)), bookings, locks)
    ensures r.result.Ok? <==>
      && ValidRange(dto, parseIso)
      && LockKey(dto.courtId, parseIso(dto.startTime).value) !in Locks.Held(locks)
      && !HasConflict(bookings, dto.courtId, parseIso(dto.startTime).value, parseIso(dto.endTime).value, now)
    ensures ValidRange(dto, parseIso) && LockKey(dto.courtId, parseIso(dto.startTime).value) !in Locks.Held(locks)
      && HasConflict(bookings, dto.courtId, parseIso(dto.startTime).value, parseIso(dto.endTime).value, now)
      ==> r.result == Err(BadRequest(SlotTakenMessage))
    ensures r.result.Err? ==> r.bookings == bookings
    ensures r.result.Ok? ==>
      && r.bookings == bookings + [r.result.value]
      && r.result.value == Booking(newId, userId, dto.courtId, parseIso(dto.startTime).value,
                                   parseIso(dto.endTime).value, Confirmed, None)
  {
    var start := parseIso(dto.startTime);
    var end := parseIso(dto.endTime);
    if start.None? || end.None? || end.value <= start.value then
      CreateOutcome(Err(BadRequest(InvalidRangeMessage)), bookings, locks)
    else
      var key := LockKey(dto.courtId, start.value);
      var acquired := Locks.Acquire(locks, key, LockTtlSeconds);
      if !acquired.ok then
        CreateOutcome(Err(BadRequest(SlotLockedMessage)), bookings, locks)
      else
        var released := Locks.Release(acquired.table, key);
        if HasConflict(bookings, dto.courtId, start.value, end.value, now) then
          CreateOutcome(Err(BadRequest(SlotTakenMessage)), bookings, released)
        else
          var booking := Booking(newId, userId, dto.courtId, start.value, end.value, Confirmed, None);
          CreateOutcome(Ok(booking), bookings + [booking], released)
  }

  /** An invariant that holds at `now` holds at every later instant: holds only expire. */
  lemma NoActiveOverlapLater(bs: seq<Booking>, now: int, later: int)
    requires NoActiveOverlap(bs, now) && now <= later
    ensures NoActiveOverlap(bs, later)
  {
  }

  /** A sequential `create` keeps active bookings on each court pairwise disjoint. */
  lemma CreatePreservesNoActiveOverlap(bookings: seq<Booking>, locks: Locks.LockTable, userId: Id,
                                       dto: CreateBookingDto, parseIso: IsoParser, now: int, newId: Id)
    requires NoActiveOverlap(bookings, now)
    ensures NoActiveOverlap(Create(bookings, locks, userId, dto, parseIso, now, newId).bookings, now)
  {
    var r := Create(bookings, locks, userId, dto, parseIso, now, newId);
    if r.result.Ok? {
      var bs := r.bookings;
      var n := |bookings|;
      forall i, j | 0 <= i < j < |bs| && bs[i].courtId == bs[j].courtId && IsActive(bs[i], now) && IsActive(bs[j], now)
        ensures !Overlaps(bs[i].start, bs[i].end, bs[j].start, bs[j].end)
      {
        if j == n {
          assert bs[i] == bookings[i];
          assert !Conflicts(bookings[i], dto.courtId, bs[n].start, bs[n].end, now);
        } else {
          assert bs[i] == bookings[i] && bs[j] == bookings[j];
        }
      }
    }
  }

  /** One reservation request, with the instant it reads and the id the database assigns. */
  datatype Request = Request(userId: Id, dto: CreateBookingDto, now: int, newId: Id)

  datatype State = State(bookings: seq<Booking>, locks: Locks.LockTable)

  /** Serves `reqs` one after another. */
  function Serve(s: State, reqs: seq<Request>, parseIso: IsoParser): State
    decreases |reqs|
  {
    if |reqs| == 0 then s
    else
      var r := Create(s.bookings, s.locks, reqs[0].userId, reqs[0].dto, parseIso, reqs[0].now, reqs[0].newId);
      Serve(State(r.bookings, r.locks), reqs[1..], parseIso)
  }

  /**
   * Requests served in order of their clocks, starting from a state without
   * overlapping active bookings, end in such a state, at every later instant.
   */
  lemma {:induction false} ServePreservesNoActiveOverlap(s: State, reqs: seq<Request>, parseIso: IsoParser,
                                                         now: int, later: int)
    requires NoActiveOverlap(s.bookings, now) && now <= later
    requires forall i :: 0 <= i < |reqs| ==> now <= reqs[i].now <= later
    requires forall i, j :: 0 <= i < j < |reqs| ==> reqs[i].now <= reqs[j].now
    ensures NoActiveOverlap(Serve(s, reqs, parseIso).bookings, later)
    decreases |reqs|
  {
    if |reqs| == 0 {
      NoActiveOverlapLater(s.bookings, now, later);
    } else {
      var q := reqs[0];
      NoActiveOverlapLater(s.bookings, now, q.now);
      CreatePreservesNoActiveOverlap(s.bookings, s.locks, q.userId, q.dto, parseIso, q.now, q.newId);
      var r := Create(s.bookings, s.locks, q.userId, q.dto, parseIso, q.now, q.newId);
      ServePreservesNoActiveOverlap(State(r.bookings, r.locks), reqs[1..], parseIso, q.now, later);
    }
  }

  /** After a successful booking, the identical request is rejected as already booked. */
  lemma IdenticalRequestRejected(bookings: seq<Booking>, locks: Locks.LockTable, u1: Id, u2: Id,
                                 dto: CreateBookingDto, parseIso: IsoParser, now: int, id1: Id, id2: Id)
    requires Create(bookings, locks, u1, dto, parseIso, now, id1).result.Ok?
    ensures var first := Create(bookings, locks, u1, dto, parseIso, now, id1);
      var second := Create(first.bookings, first.locks, u2, dto, parseIso, now, id2);
      second.result == Err(BadRequest(SlotTakenMessage)) && second.bookings == first.bookings
  {
    var first := Create(bookings, locks, u1, dto, parseIso, now, id1);
    var start := parseIso(dto.startTime).value;
    var end := parseIso(dto.endTime).value;
    var n := |bookings|;
    assert ValidRange(dto, parseIso);
    assert LockKey(dto.courtId, start) !in Locks.Held(first.locks);
    assert first.bookings[n] == first.result.value;
    assert Conflicts(first.bookings[n], dto.courtId, start, end, now);
    assert HasConflict(first.bookings, dto.courtId, start, end, now);
  }

  /** A confirmed booking ending exactly where a new one starts does not block it. */
  lemma TouchingBookingDoesNotConflict(b: Booking, courtId: Id, start: int, end: int, now: int)
    requires b.end == start && b.start < b.end && start < end
    ensures !Conflicts(b, courtId, start, end, now)
  {
  }

  /** Cancelled bookings and expired holds never block a new booking. */
  lemma InactiveDoesNotConflict(b: Booking, courtId: Id, start: int, end: int, now: int)
    requires b.status == Cancelled || (b.status == PendingPayment && (b.expiresAt.None? || b.expiresAt.value <= now))
    ensures !Conflicts(b, courtId, start, end, now)
  {
  }

  // ---------------------------------------------------------------------------
  // Queries

  function StartOf(b: Booking): int { b.start }

  /** `findMine(userId)`: the user's bookings, ascending by start time. */
  function FindMine(bookings: seq<Booking>, userId: Id): (r: seq<Booking>)
    ensures Sorting.SortedBy(r, StartOf)
    ensures forall b :: multiset(r)[b] == if b.userId == userId then multiset(bookings)[b] else 0
  {
    Sorting.SortBy(Sorting.Filter(bookings, (b: Booking) => b.userId == userId), StartOf)
  }

  /** The first instant of the UTC day a normalised date names, if `new Date` accepts it. */
  function DayStart(normalized: string): Option<int> {
    match DateOnlyDay(normalized)
    case Some(day) => Some(day * MsPerDay)
    case None => None
  }

  /** Booking `b` intersects the UTC day [dayStart, dayStart + 1 day). */
  predicate IntersectsDay(b: Booking, dayStart: int) {
    b.start < dayStart + MsPerDay && b.end > dayStart
  }

  /** `b` is reported for club `clubId` on the day starting at `dayStart`. */
  predicate OnClubDay(courts: seq<Court>, b: Booking, clubId: Id, dayStart: int) {
    OnClub(courts, b, clubId) && IntersectsDay(b, dayStart)
  }

  /**
   * `findByClubAndDate(clubId, date)`: normalise the date (BadRequest when it
   * cannot be), then list bookings of any status on the club's courts that
   * intersect that UTC day, ascending by start. A normalised date that
   * `new Date` rejects reaches the database as an invalid Date, which the
   * query layer refuses.
   */
  function FindByClubAndDate(db: Db, clubId: Id, date: string, host: Dates.JsHost): (r: Result<seq<Booking>, HttpError>)
    ensures Dates.NormalizeToYmd(date, host).Err? <==> r == Err(BadRequest(InvalidDateQueryMessage))
    ensures r.Ok? ==>
      && Dates.NormalizeToYmd(date, host).Ok?
      && DayStart(Dates.NormalizeToYmd(date, host).value).Some?
      && Sorting.SortedBy(r.value, StartOf)
      && var dayStart := DayStart(Dates.NormalizeToYmd(date, host).value).value;
         forall b :: multiset(r.value)[b] == if OnClubDay(db.courts, b, clubId, dayStart) then multiset(db.bookings)[b] else 0
    ensures r.Ok? <==> Dates.NormalizeToYmd(date, host).Ok? && DayStart(Dates.NormalizeToYmd(date, host).value).Some?
    ensures r.Err? && r != Err(BadRequest(InvalidDateQueryMessage)) ==> r == Err(ServerError(InvalidInstantMessage))
    ensures IsYmdShape(date) && ValidDate(ParseYmd(date)) ==> r.Ok?
    ensures !IsYmdShape(date) && Dates.ChosenInstant(date, host).Some? && Dates.FourDigitYear(Dates.ChosenInstant(date, host).value)
      ==> r.Ok?
  {
    match Dates.NormalizeToYmd(date, host)
    case Err(_) => Err(BadRequest(InvalidDateQueryMessage))
    case Ok(normalized) =>
      match DayStart(normalized)
      case None => Err(ServerError(InvalidInstantMessage))
      case Some(dayStart) =>
        Ok(Sorting.SortBy(Sorting.Filter(db.bookings, (b: Booking) => OnClubDay(db.courts, b, clubId, dayStart)), StartOf))
  }

  /** A successful day listing holds exactly the club's bookings that intersect the day. */
  lemma DayListingMembers(db: Db, clubId: Id, date: string, host: Dates.JsHost, dayStart: int)
    requires Dates.NormalizeToYmd(date, host).Ok? && DayStart(Dates.NormalizeToYmd(date, host).value) == Some(dayStart)
    ensures var r := FindByClubAndDate(db, clubId, date, host);
      r.Ok? && forall b :: b in r.value <==> b in db.bookings && OnClubDay(db.courts, b, clubId, dayStart)
  {
    var r := FindByClubAndDate(db, clubId, date, host);
    forall b
      ensures b in r.value <==> b in db.bookings && OnClubDay(db.courts, b, clubId, dayStart)
    {
      assert b in r.value <==> multiset(r.value)[b] > 0;
      assert b in db.bookings <==> multiset(db.bookings)[b] > 0;
    }
  }

  /** A real `YYYY-MM-DD` date selects the bookings of that calendar day, midnight to midnight UTC. */
  lemma FindByClubAndDateOfRealDate(db: Db, clubId: Id, date: string, host: Dates.JsHost)
    requires IsYmdShape(date) && ValidDate(ParseYmd(date))
    ensures var r := FindByClubAndDate(db, clubId, date, host);
      r.Ok? && forall b :: b in r.value <==>
        b in db.bookings && OnClub(db.courts, b, clubId) && IntersectsDay(b, DaysFromCivil(ParseYmd(date)) * MsPerDay)
  {
    var d := ParseYmd(date);
    assert d.day <= 31;
    ParseYmdRoundTrip(date);
    FormatDateRoundTrip(d);
    var r := FindByClubAndDate(db, clubId, date, host);
    var dayStart := DaysFromCivil(d) * MsPerDay;
    assert DayStart(date) == Some(dayStart);
    forall b
      ensures b in r.value <==> b in db.bookings && OnClubDay(db.courts, b, clubId, dayStart)
    {
      assert b in r.value <==> multiset(r.value)[b] > 0;
      assert b in db.bookings <==> multiset(db.bookings)[b] > 0;
    }
  }

  /** No booking on a court of another club is ever reported for `clubId`. */
  lemma FindByClubAndDateScoped(db: Db, clubId: Id, date: string, host: Dates.JsHost)
    ensures var r := FindByClubAndDate(db, clubId, date, host);
      r.Ok? ==> forall b :: b in r.value ==> OnClub(db.courts, b, clubId)
  {
    var r := FindByClubAndDate(db, clubId, date, host);
    if r.Ok? {
      forall b | b in r.value
        ensures OnClub(db.courts, b, clubId)
      {
        assert multiset(r.value)[b] > 0;
      }
    }
  }
}

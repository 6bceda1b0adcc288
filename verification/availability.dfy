/**
 * `AvailabilityService.getAvailability`: a per-court grid of fixed 90-minute
 * slots between 08:00Z and 22:00Z of one day, each marked free or occupied by
 * the active bookings of that day and priced at the court's current price.
 */
module Availability {
  import opened Wrappers
  import opened Calendar
  import opened Domain
  import Sorting

  /** 90 minutes. */
  const SlotMs: int := 5_400_000
  /** The window opens at 08:00Z and closes at 22:00Z. */
  const OpenMs: int := 28_800_000
  const CloseMs: int := 79_200_000

  const ClubIdRequiredMessage: string := "clubId is required"
  const DateRequiredMessage: string := "date is required (YYYY-MM-DD)"
  const InvalidDateMessage: string := "Invalid date. Expected YYYY-MM-DD"

  datatype Slot = Slot(start: int, end: int)

  /**
   * The slot loop of `generateSlots` from `current`: each step ends a slot 90
   * minutes later and keeps it only if it ends by `close`.
   */
  function SlotsFrom(current: int, close: int): (r: seq<Slot>)
    ensures |r| == if current < close then (close - current) / SlotMs else 0
    ensures forall i :: 0 <= i < |r| ==> r[i] == Slot(current + i * SlotMs, current + i * SlotMs + SlotMs)
    decreases close - current
  {
    if current < close then
      var next := current + SlotMs;
      var rest := SlotsFrom(next, close);
      if next <= close then [Slot(current, next)] + rest else rest
    else []
  }

  /** `generateSlots(date)` for the day starting at `dayStart`. */
  function GenerateSlots(dayStart: int): seq<Slot> {
    SlotsFrom(dayStart + OpenMs, dayStart + CloseMs)
  }

  /**
   * Nine whole slots: the first starts at 08:00Z, each lasts 90 minutes and
   * starts where the previous one ended, none ends after 22:00Z, and the last
   * ends at 21:30Z (the partial 21:30-23:00 slot is dropped).
   */
  lemma GenerateSlotsGrid(dayStart: int)
    ensures var g := GenerateSlots(dayStart);
      && |g| == 9
      && g[0].start == dayStart + OpenMs
      && g[8].end == dayStart + 21 * 3_600_000 + 30 * 60_000
      && (forall i :: 0 <= i < |g| ==> g[i].end - g[i].start == SlotMs && g[i].end <= dayStart + CloseMs)
      && (forall i :: 0 <= i < |g| - 1 ==> g[i].end == g[i + 1].start)
  {
  }

  datatype SlotView = SlotView(start: int, end: int, available: bool, price: int)
  datatype CourtAvailability = CourtAvailability(courtId: Id, courtName: string, slots: seq<SlotView>)
  datatype AvailabilityView = AvailabilityView(clubId: Id, date: string, courts: seq<CourtAvailability>)


  function CreatedAt(c: Court): int { c.createdAt }

  /** The club's courts, ascending by creation time. */
  function ClubCourts(courts: seq<Court>, clubId: Id): seq<Court> {
    Sorting.SortBy(Sorting.Filter(courts, (c: Court) => c.clubId == clubId), CreatedAt)
  }

  /** The booking query: on the club's courts, intersecting the day, active at `now`. */
  predicate Considered(courts: seq<Court>, b: Booking, clubId: Id, dayStart: int, now: int) {
    OnClub(courts, b, clubId) && b.start < dayStart + MsPerDay && b.end > dayStart && IsActive(b, now)
  }

  /** Some booking of court `courtId` in `bs` overlaps the slot. */
  predicate Occupied(slot: Slot, courtId: Id, bs: seq<Booking>) {
    exists k :: 0 <= k < |bs| && bs[k].courtId == courtId && slot.start < bs[k].end && slot.end > bs[k].start
  }

  function CourtGrid(court: Court, slots: seq<Slot>, considered: seq<Booking>): (g: CourtAvailability)
    ensures g.courtId == court.id && g.courtName == court.name && |g.slots| == |slots|
    ensures forall j :: 0 <= j < |slots| ==> g.slots[j].start == slots[j].start && g.slots[j].end == slots[j].end
    ensures forall j :: 0 <= j < |slots| ==> g.slots[j].price == court.price
    ensures forall j :: 0 <= j < |slots| ==> (g.slots[j].available <==> !Occupied(slots[j], court.id, considered))
  {
    CourtAvailability(court.id, court.name,
      seq(|slots|, j requires 0 <= j < |slots| =>
        SlotView(slots[j].start, slots[j].end, !Occupied(slots[j], court.id, considered), court.price)))
  }

  /**
   * `getAvailability(clubId, date)` over the tables in `db`, with `now` the
   * single instant read for the expiry test.
   */
  function GetAvailability(db: Db, clubId: Option<string>, date: Option<string>, now: int): (r: Result<AvailabilityView, HttpError>)
    ensures !Truthy(clubId) ==> r == Err(BadRequest(ClubIdRequiredMessage))
    ensures Truthy(clubId) && !Truthy(date) ==> r == Err(BadRequest(DateRequiredMessage))
    ensures Truthy(clubId) && Truthy(date) && DateOnlyDay(date.value).None? ==> r == Err(BadRequest(InvalidDateMessage))
    ensures r.Ok? <==> Truthy(clubId) && Truthy(date) && DateOnlyDay(date.value).Some?
    ensures r.Ok? ==>
      && r.value.clubId == clubId.value && r.value.date == date.value
      && var dayStart := DateOnlyDay(date.value).value * MsPerDay;
         var courts := ClubCourts(db.courts, clubId.value);
         var slots := GenerateSlots(dayStart);
         && |r.value.courts| == |courts|
         && forall i :: 0 <= i < |courts| ==>
              && r.value.courts[i].courtId == courts[i].id
              && r.value.courts[i].courtName == courts[i].name
              && |r.value.courts[i].slots| == |slots|
              && forall j :: 0 <= j < |slots| ==>
                   && r.value.courts[i].slots[j].start == slots[j].start
                   && r.value.courts[i].slots[j].end == slots[j].end
                   && r.value.courts[i].slots[j].price == courts[i].price
                   && (r.value.courts[i].slots[j].available <==>
                         !exists b :: b in db.bookings && Considered(db.courts, b, clubId.value, dayStart, now)
                           && b.courtId == courts[i].id && Overlaps(slots[j].start, slots[j].end, b.start, b.end))
  {
    if !Truthy(clubId) then Err(BadRequest(ClubIdRequiredMessage))
    else if !Truthy(date) then Err(BadRequest(DateRequiredMessage))
    else match DateOnlyDay(date.value)
      case None => Err(BadRequest(InvalidDateMessage))
      case Some(day) =>
        var dayStart := day * MsPerDay;
        var slots := GenerateSlots(dayStart);
        var courts := ClubCourts(db.courts, clubId.value);
        var considered := Sorting.Filter(db.bookings, (b: Booking) => Considered(db.courts, b, clubId.value, dayStart, now));
        ConsideredMembership(db.bookings, considered, db.courts, clubId.value, dayStart, now);
        Ok(AvailabilityView(clubId.value, date.value,
          seq(|courts|, i requires 0 <= i < |courts| => CourtGrid(courts[i], slots, considered))))
  }

  lemma ConsideredMembership(bookings: seq<Booking>, considered: seq<Booking>, courts: seq<Court>, clubId: Id, dayStart: int, now: int)
    requires considered == Sorting.Filter(bookings, (b: Booking) => Considered(courts, b, clubId, dayStart, now))
    ensures forall b :: b in considered <==> b in bookings && Considered(courts, b, clubId, dayStart, now)
  {
    forall b
      ensures b in considered <==> b in bookings && Considered(courts, b, clubId, dayStart, now)
    {
      assert b in considered <==> multiset(considered)[b] > 0;
      assert b in bookings <==> multiset(bookings)[b] > 0;
    }
  }

  /** Every court of the club appears once, in order of creation. */
  lemma ClubCourtsSpec(courts: seq<Court>, clubId: Id)
    ensures var cs := ClubCourts(courts, clubId);
      && Sorting.SortedBy(cs, CreatedAt)
      && forall c :: multiset(cs)[c] == if c.clubId == clubId then multiset(courts)[c] else 0
  {
  }

  /** Court ids are primary keys. */
  predicate UniqueCourtIds(courts: seq<Court>) {
    forall i, j :: 0 <= i < j < |courts| ==> courts[i].id != courts[j].id
  }

  lemma CourtByIdFindsMember(courts: seq<Court>, c: Court)
    requires UniqueCourtIds(courts) && c in courts
    ensures CourtById(courts, c.id) == Some(c)
  {
    if courts[0] != c {
      assert c in courts[1..];
      assert UniqueCourtIds(courts[1..]) by {
        forall i, j | 0 <= i < j < |courts| - 1
          ensures courts[1..][i].id != courts[1..][j].id
        {
          assert courts[1..][i] == courts[i + 1] && courts[1..][j] == courts[j + 1];
        }
      }
      CourtByIdFindsMember(courts[1..], c);
    }
  }

  /**
   * A slot of a club court is available exactly when no active booking of that
   * court overlaps it (half-open, so a booking touching an endpoint leaves the
   * slot available), whatever the day filter.
   */
  lemma AvailableIffNoActiveOverlap(db: Db, clubId: string, date: string, now: int, i: int, j: int)
    requires UniqueCourtIds(db.courts)
    requires GetAvailability(db, Some(clubId), Some(date), now).Ok?
    requires var v := GetAvailability(db, Some(clubId), Some(date), now).value;
      0 <= i < |v.courts| && 0 <= j < |v.courts[i].slots|
    ensures var v := GetAvailability(db, Some(clubId), Some(date), now).value;
      var s := v.courts[i].slots[j];
      s.available <==> !(exists b :: b in db.bookings && b.courtId == v.courts[i].courtId
                                      && IsActive(b, now) && Overlaps(s.start, s.end, b.start, b.end))
  {
    var v := GetAvailability(db, Some(clubId), Some(date), now).value;
    var dayStart := DateOnlyDay(date).value * MsPerDay;
    var courts := ClubCourts(db.courts, clubId);
    var slots := GenerateSlots(dayStart);
    GenerateSlotsGrid(dayStart);
    var c := courts[i];
    assert c in courts;
    assert multiset(courts)[c] > 0;
    assert c.clubId == clubId && c in db.courts;
    CourtByIdFindsMember(db.courts, c);
    var s := v.courts[i].slots[j];
    assert s.start == slots[j].start && s.end == slots[j].end;
    assert dayStart <= slots[j].start && slots[j].end <= dayStart + MsPerDay;
    forall b | b in db.bookings && b.courtId == c.id && IsActive(b, now) && Overlaps(s.start, s.end, b.start, b.end)
      ensures Considered(db.courts, b, clubId, dayStart, now)
    {
    }
  }
}

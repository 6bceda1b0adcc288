/**
 * The request handlers of `AdminController` and `BookingsController` as pure
 * functions from the token's identity and the query to the service call they
 * make, or to the error they raise first. The JWT guard is reduced to "a user
 * is attached or not"; the roles guard admits the roles named by `@Roles`.
 */
module Controllers {
  import opened Wrappers
  import opened Calendar
  import opened Domain
  import Bookings
  import Dates

  /** The `req.user` a verified token yields; `None` when the JWT guard rejects the request. */
  datatype TokenUser = TokenUser(userId: Option<string>, id: Option<string>, role: Option<string>, clubId: Option<string>)

  /** The service method a handler calls, with its arguments. */
  datatype ServiceCall =
    | CreateCall(userId: Id, dto: Bookings.CreateBookingDto)
    | FindMineCall(userId: Id)
    | FindByClubAndDateCall(clubId: Id, date: string)

  const ClubAdminRole: string := "CLUB_ADMIN"
  const UnauthorizedMessage: string := "Unauthorized"
  const ForbiddenMessage: string := "Forbidden resource"
  const ClubIdRequiredMessage: string := "clubId is required"
  const UserIdRequiredMessage: string := "userId is required"
  const ClubAndDateRequiredMessage: string := "clubId and date are required"

  /** `@UseGuards(JwtAuthGuard, RolesGuard) @Roles('CLUB_ADMIN')`: the error the guards raise, if any. */
  function AdminGuards(user: Option<TokenUser>): (r: Option<HttpError>)
    ensures r.None? <==> user.Some? && user.value.role == Some(ClubAdminRole)
    ensures user.None? ==> r == Some(Unauthorized(UnauthorizedMessage))
    ensures user.Some? && user.value.role != Some(ClubAdminRole) ==> r == Some(Forbidden(ForbiddenMessage))
  {
    if user.None? then Some(Unauthorized(UnauthorizedMessage))
    else if user.value.role != Some(ClubAdminRole) then Some(Forbidden(ForbiddenMessage))
    else None
  }

  /**
   * `AdminController.getAdminBookings(req, date)` at instant `now`: the club
   * comes from the token alone, and an absent date becomes today's UTC day.
   */
  function GetAdminBookings(user: Option<TokenUser>, date: Option<string>, now: TimeValue): (r: Result<ServiceCall, HttpError>)
    ensures AdminGuards(user).Some? ==> r == Err(AdminGuards(user).value)
    ensures AdminGuards(user).None? && !Truthy(user.value.clubId) ==> r == Err(BadRequest(ClubIdRequiredMessage))
    ensures r.Ok? <==> AdminGuards(user).None? && Truthy(user.value.clubId)
    ensures r.Ok? ==> r.value.FindByClubAndDateCall? && r.value.clubId == user.value.clubId.value
    ensures r.Ok? && date.Some? ==> r.value.date == date.value
    ensures r.Ok? && date.None? && 0 <= UtcDate(now).year <= 9999 ==>
      && r.value.date == FormatDate(UtcDate(now))
      && IsYmdShape(r.value.date) && DateOnlyDay(r.value.date) == Some(now / MsPerDay)
  {
    match AdminGuards(user)
    case Some(e) => Err(e)
    case None =>
      if !Truthy(user.value.clubId) then Err(BadRequest(ClubIdRequiredMessage))
      else
        var effectiveDate := if date.Some? then date.value else IsoDay(now);
        if date.None? && 0 <= UtcDate(now).year <= 9999 then IsoDayOfFourDigitYear(now); Ok(FindByClubAndDateCall(user.value.clubId.value, effectiveDate))
        else Ok(FindByClubAndDateCall(user.value.clubId.value, effectiveDate))
  }

  /** `BookingsController.create(req, dto)`: `user.userId ?? user.id` must be truthy. */
  function CreateHandler(user: Option<TokenUser>, dto: Bookings.CreateBookingDto): (r: Result<ServiceCall, HttpError>)
    ensures user.None? ==> r == Err(Unauthorized(UnauthorizedMessage))
    ensures user.Some? && user.value.userId.Some? ==>
      (r.Ok? <==> user.value.userId.value != "") && (r.Ok? ==> r.value == CreateCall(user.value.userId.value, dto))
    ensures user.Some? && user.value.userId.None? ==>
      (r.Ok? <==> Truthy(user.value.id)) && (r.Ok? ==> r.value == CreateCall(user.value.id.value, dto))
    ensures r.Err? && user.Some? ==> r.error == BadRequest(UserIdRequiredMessage)
  {
    if user.None? then Err(Unauthorized(UnauthorizedMessage))
    else
      var userId := if user.value.userId.Some? then user.value.userId else user.value.id;
      if !Truthy(userId) then Err(BadRequest(UserIdRequiredMessage))
      else Ok(CreateCall(userId.value, dto))
  }

  /** `BookingsController.myBookings(req)`: the token's userId, or '' when it has none. */
  function MyBookings(user: Option<TokenUser>): (r: Result<ServiceCall, HttpError>)
    ensures user.None? <==> r.Err?
    ensures r.Ok? ==> r.value.FindMineCall?
    ensures user.Some? && user.value.userId.Some? ==> r == Ok(FindMineCall(user.value.userId.value))
    ensures user.Some? && user.value.userId.None? ==> r == Ok(FindMineCall(""))
  {
    if user.None? then Err(Unauthorized(UnauthorizedMessage))
    else Ok(FindMineCall(user.value.userId.GetOr("")))
  }

  /** `BookingsController.getClubBookings(req, date)`: both the token's club and a date are required. */
  function GetClubBookings(user: Option<TokenUser>, date: Option<string>): (r: Result<ServiceCall, HttpError>)
    ensures AdminGuards(user).Some? ==> r == Err(AdminGuards(user).value)
    ensures AdminGuards(user).None? && (!Truthy(user.value.clubId) || !Truthy(date))
      ==> r == Err(BadRequest(ClubAndDateRequiredMessage))
    ensures r.Ok? <==> AdminGuards(user).None? && Truthy(user.value.clubId) && Truthy(date)
    ensures r.Ok? ==> r.value == FindByClubAndDateCall(user.value.clubId.value, date.value)
  {
    match AdminGuards(user)
    case Some(e) => Err(e)
    case None =>
      if !Truthy(user.value.clubId) || !Truthy(date) then Err(BadRequest(ClubAndDateRequiredMessage))
      else Ok(FindByClubAndDateCall(user.value.clubId.value, date.value))
  }

  /** Running a query call against the tables. */
  function RunQuery(db: Db, call: ServiceCall, host: Dates.JsHost): Result<seq<Booking>, HttpError>
    requires !call.CreateCall?
  {
    match call
    case FindMineCall(userId) => Ok(Bookings.FindMine(db.bookings, userId))
    case FindByClubAndDateCall(clubId, date) => Bookings.FindByClubAndDate(db, clubId, date, host)
  }

  /** `GET /admin/bookings` from the guard to the rows returned. */
  function AdminBookingsResponse(db: Db, user: Option<TokenUser>, date: Option<string>, now: TimeValue,
                                 host: Dates.JsHost): Result<seq<Booking>, HttpError>
  {
    match GetAdminBookings(user, date, now)
    case Err(e) => Err(e)
    case Ok(call) => RunQuery(db, call, host)
  }

  /**
   * Whatever club the client names elsewhere, the admin listing only reports
   * bookings on courts of the club in the token.
   */
  lemma AdminListingScopedToTokenClub(db: Db, user: Option<TokenUser>, date: Option<string>, now: TimeValue,
                                      host: Dates.JsHost)
    ensures var r := AdminBookingsResponse(db, user, date, now, host);
      r.Ok? ==> (user.Some? && Truthy(user.value.clubId) && user.value.role == Some(ClubAdminRole)
                 && forall b :: b in r.value ==> OnClub(db.courts, b, user.value.clubId.value))
  {
    var call := GetAdminBookings(user, date, now);
    if call.Ok? {
      Bookings.FindByClubAndDateScoped(db, call.value.clubId, call.value.date, host);
    }
  }

  /**
   * Without a date, the admin listing is today's: every booking of the token's
   * club that intersects the current UTC day, and nothing else.
   */
  lemma AdminDefaultDateIsToday(db: Db, user: Option<TokenUser>, now: TimeValue, host: Dates.JsHost)
    requires user.Some? && user.value.role == Some(ClubAdminRole) && Truthy(user.value.clubId)
    requires 0 <= UtcDate(now).year <= 9999
    ensures var r := AdminBookingsResponse(db, user, None, now, host);
      r.Ok? && forall b :: b in r.value <==>
        b in db.bookings && OnClub(db.courts, b, user.value.clubId.value)
        && Bookings.IntersectsDay(b, now / MsPerDay * MsPerDay)
  {
    var clubId := user.value.clubId.value;
    var today := IsoDay(now);
    IsoDayOfFourDigitYear(now);
    assert GetAdminBookings(user, None, now) == Ok(FindByClubAndDateCall(clubId, today));
    assert Dates.NormalizeToYmd(today, host) == Ok(today);
    assert Bookings.DayStart(today) == Some(now / MsPerDay * MsPerDay);
    Bookings.DayListingMembers(db, clubId, today, host, now / MsPerDay * MsPerDay);
  }

  /** A PLAYER token is refused by both admin listings, before any argument is read. */
  lemma PlayerIsForbidden(userId: string, clubId: Option<string>, date: Option<string>, now: TimeValue)
    ensures var player := Some(TokenUser(Some(userId), None, Some("PLAYER"), clubId));
      && GetAdminBookings(player, date, now) == Err(Forbidden(ForbiddenMessage))
      && GetClubBookings(player, date) == Err(Forbidden(ForbiddenMessage))
  {
  }

  /**
   * The two admin listings differ only in the date: one defaults a missing
   * date (`??` keeps an empty one), the other refuses a missing or empty one.
   */
  lemma OnlyAdminListingDefaultsDate(user: Option<TokenUser>, now: TimeValue)
    requires user.Some? && user.value.role == Some(ClubAdminRole) && Truthy(user.value.clubId)
    ensures GetAdminBookings(user, None, now).Ok?
    ensures GetClubBookings(user, None) == Err(BadRequest(ClubAndDateRequiredMessage))
    ensures forall d :: Truthy(Some(d)) ==> GetAdminBookings(user, Some(d), now) == GetClubBookings(user, Some(d))
    ensures GetAdminBookings(user, Some(""), now) == Ok(FindByClubAndDateCall(user.value.clubId.value, ""))
    ensures GetClubBookings(user, Some("")) == Err(BadRequest(ClubAndDateRequiredMessage))
  {
  }
}

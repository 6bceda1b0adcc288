# Padel court booking core, in Dafny

This project models the booking rules underneath the padel-club API: reservations, availability, holds and payments.
It covers:
- the reservation engine (`BookingsService.create`, `findMine`, `findByClubAndDate`) and the in-process lock table behind it (`RedisService`);
- the availability grid (`AvailabilityService`);
- the two expiry sweeps;
- the Stripe payment bridge (`PaymentsService`);
- the date normalisers of `src/common/date.ts`;
- the argument derivation of the admin and bookings controllers;
- the auth registry (`AuthService`);
- the throttler's tracker key.

The database is a set of immutable tables (`Domain.Db`: courts, bookings and payments as sequences), and every Prisma query is a filter over them. Instants are integer milliseconds since the epoch.

Foreign code becomes parameters:
- Stripe (`Payments.Stripe`);
- bcrypt and JWT signing (`Auth.Crypto`);
- the JavaScript `Date` string parser and `Number()` (`Dates.JsHost`);
- Luxon's ISO parser and IANA zones (`Dates.Luxon`, `Bookings.IsoParser`).

Other inputs are parameters too:
- the clock (`now`);
- the ids the database generates (`newId`).

The Gregorian arithmetic behind `toISOString()` is concrete (`Calendar`):
- days-from-civil in closed form;
- civil-from-days by a year and month walk;
- both proved inverse to each other.

Modules:
- `Wrappers`: `Option`, `Result` and the HTTP errors.
- `Calendar`: dates, digit strings, ISO formatting, date-only parsing.
- `Sorting`: `Filter` and a stable insertion sort, standing in for `where` and `orderBy`.
- `Domain`: the schema.
- `Locks`, `Bookings`, `Availability`, `Cleanup`, `Payments`, `Dates`, `Controllers`, `Auth`, `Throttler`.

Behaviour of the code worth knowing, which the model follows:
- `create` always inserts a CONFIRMED booking with no expiry. No code path creates a PENDING_PAYMENT hold, so the hold-related branches elsewhere only matter for rows written by other means.
- A remote intent that already succeeded does not make `createPaymentIntent` fail. The "Payment already succeeded" exception is thrown inside the `try` whose `catch` swallows every error, so a new intent is created (`Payments.SucceededIntentIsReplaced`).
- A succeeded webhook confirms the booking whatever its status, even a CANCELLED one. If the slot was re-booked meanwhile, two active bookings overlap (`Payments.LateSucceededEventDoubleBooks`).
- `getAvailability` does not check that the club exists; an unknown club gives an empty grid (the availability controller checks the club first).
- The holds sweep (`booking-holds-cleanup.service.ts`) is not registered as a provider (`src/bookings/bookings.module.ts:10`), so only the other sweep is scheduled. Both are modelled; they compute the same update.

## Model

| member | source | states |
|---|---|---|
| Locks.Acquire | src/redis/redis.service.ts:7-16 | A free key is taken and its expiry armed at ttl·1000 ms. A held key gives false and leaves the table unchanged. No other key changes. |
| Locks.Release | src/redis/redis.service.ts:18-24 | The key is free afterwards and its timer is cleared. Releasing a free key changes nothing. Other keys keep their timers. |
| Locks.Fire | src/redis/redis.service.ts:10-12 | The expiry callback drops the key only while its own timer is still the key's current one. |
| Locks.SecondAcquireFails | src/redis/redis.service.ts:8-14 | Two acquires of one key with no release between: the second fails. |
| Locks.ReleaseIdempotent | src/redis/redis.service.ts:18-24 | Releasing twice equals releasing once. |
| Locks.AcquireReleaseRestores | src/redis/redis.service.ts:7-24 | Acquire then release restores every key's timer. |
| Locks.StaleTimerHarmless | src/redis/redis.service.ts:19-22 | After acquire, release and re-acquire, the first (cleared) timer firing leaves the key held. |
| Bookings.Create | src/bookings/bookings.service.ts:15-62 | Each error case with its message and an unchanged table: invalid range; lock held; active overlapping booking. Success iff the range is valid, the key is free and nothing conflicts; then exactly one CONFIRMED booking with the parsed UTC times and no expiry is appended. The lock timers are the same afterwards on every path. |
| Bookings.CreatePreservesNoActiveOverlap | src/bookings/bookings.service.ts:33-58 | If no two active bookings on one court overlap before `create`, none do after. |
| Bookings.ServePreservesNoActiveOverlap | src/bookings/bookings.service.ts:15-62 | The same holds for any sequence of requests served in clock order, at every later instant. |
| Bookings.NoActiveOverlapLater | src/bookings/bookings.service.ts:39-42 | Activity only decreases with time: an instant without overlap stays so later. |
| Bookings.IdenticalRequestRejected | src/bookings/bookings.service.ts:46-48 | After a successful booking, the identical request (any user) fails with "Time slot already booked" and writes nothing. |
| Bookings.TouchingBookingDoesNotConflict | src/bookings/bookings.service.ts:37-38 | A booking ending exactly at the new start never conflicts (half-open intervals). |
| Bookings.InactiveDoesNotConflict | src/bookings/bookings.service.ts:39-42 | CANCELLED bookings and expired or expiry-less holds never conflict. |
| Bookings.FindMine | src/bookings/bookings.service.ts:64-70 | Exactly the user's bookings (as a multiset), ascending by start. |
| Bookings.FindByClubAndDate | src/bookings/bookings.service.ts:72-108 | BadRequest iff the date cannot be normalised. Ok iff it normalises to a text `new Date` accepts; the one other outcome is a ServerError (InvalidInstantMessage, standing in for the error Prisma raises on an Invalid Date), for a normalised text such as "2025-13-45" that `new Date` rejects. When Ok, exactly the bookings of any status on the club's courts that intersect the normalised UTC day, ascending by start. A real YYYY-MM-DD date, and any input the runtime reads as an instant in years 0000-9999, always succeeds. |
| Bookings.DayListingMembers | src/bookings/bookings.service.ts:72-108 | When the date normalises to a day `new Date` accepts, a booking is listed iff it is in the table, on one of the club's courts and intersects that UTC day. |
| Bookings.FindByClubAndDateOfRealDate | src/bookings/bookings.service.ts:82-91 | For a real calendar date the result is the club's bookings intersecting midnight-to-midnight UTC of that date. |
| Bookings.FindByClubAndDateScoped | src/bookings/bookings.service.ts:86-91 | Every reported booking is on a court of the requested club. |
| Availability.SlotsFrom | src/availability/availability.service.ts:105-114 | The slot loop yields ⌊(close−current)/90 min⌋ slots; slot i is [current + i·90 min, +90 min). |
| Availability.GenerateSlotsGrid | src/availability/availability.service.ts:98-117 | Exactly 9 contiguous 90-minute slots. The first starts at 08:00Z, the last ends at 21:30Z, and none ends after 22:00Z. |
| Availability.GetAvailability | src/availability/availability.service.ts:9-96 | The errors for a missing clubId, a missing date and an invalid day, in that order. Otherwise it echoes clubId and date and lists the club's courts with the full grid, each slot priced at its court's price. A slot is available iff no considered booking of that court overlaps it. |
| Availability.ClubCourtsSpec | src/availability/availability.service.ts:38-46 | The club's courts, each exactly as often as in the table, ascending by createdAt. |
| Availability.ConsideredMembership | src/availability/availability.service.ts:48-70 | The considered bookings are exactly those on the club's courts, intersecting the day and active at the single `now`. |
| Availability.AvailableIffNoActiveOverlap | src/availability/availability.service.ts:76-89 | A slot of a court is available iff no booking of that court active at `now` overlaps it (touching endpoints leave it available). |
| Cleanup.CancelExpired | src/bookings/booking-cleanup.service.ts:16-22 | Every PENDING_PAYMENT booking with expiry strictly before `now` becomes CANCELLED. Every other row is untouched. No field but status changes, and no expired hold remains. |
| Cleanup.CancelExpiredPendingPayments | src/bookings/booking-cleanup.service.ts:13-27 | The reported count is the number of rows changed. The log line "Cancelled N expired pending bookings" is emitted iff the count is positive. |
| Cleanup.CancelExpiredPendingBookings | src/bookings/booking-holds-cleanup.service.ts:11-25 | Same table update as the other sweep. |
| Cleanup.CountIsChangedRows | src/bookings/booking-cleanup.service.ts:16-24 | The number of matched rows equals the number of rows whose value changes. |
| Cleanup.SweepIdempotent | src/bookings/booking-holds-cleanup.service.ts:14-24 | Two runs with the same `now` equal one run. |
| Cleanup.SecondSweepCountsZero | src/bookings/booking-cleanup.service.ts:16-26 | The second run with the same `now` reports 0 and logs nothing. |
| Cleanup.BoundaryHoldSurvives | src/bookings/booking-cleanup.service.ts:19 | A hold expiring exactly at `now`, or later, is not cancelled. |
| Cleanup.SweepPreservesNoActiveOverlap | src/bookings/booking-cleanup.service.ts:16-22 | The sweep never creates overlapping active bookings. |
| Payments.CreatePaymentIntent | src/payments/payments.service.ts:31-112 | NotFound for a missing booking, BadRequest for a CONFIRMED one, and no change on either. The stored intent is reused, with no change, iff it is PROCESSING with an id and Stripe reports it open with a client secret. Otherwise the row ends at amount = court price, currency kept or 'usd', and is PROCESSING with the new intent id (REQUIRES_PAYMENT, keeping the stored intent id or none, if Stripe fails). Other bookings' rows never change. |
| Payments.NewIntent | src/payments/payments.service.ts:79-111 | The fall-through path: upsert, create in the row's currency, record PROCESSING with the new intent id; if Stripe fails the row stays REQUIRES_PAYMENT at the new amount with its stored intent id (none on insert); other rows untouched. |
| Payments.UpsertLookup | src/payments/payments.service.ts:79-91 | After the upsert the row is REQUIRES_PAYMENT at the price, with 'usd' only on insert. |
| Payments.RetryReusesIntent | src/payments/payments.service.ts:55-73 | A retry that finds the recorded intent in any Stripe status other than succeeded or canceled returns the same client secret and id and changes nothing. |
| Payments.SucceededIntentIsReplaced | src/payments/payments.service.ts:59-76 | A stored intent Stripe reports as succeeded leads to a new intent, not to an error. |
| Payments.HandleWebhook | src/payments/payments.service.ts:114-187 | Missing secret, missing signature and a rejected payload are errors with no change. The booking id comes from metadata, else from the payment with that intent id; when unresolved, or for other event types, the event is acknowledged with no change. Succeeded: the payment becomes SUCCEEDED and the booking CONFIRMED. Failed: the payment becomes FAILED and the booking CANCELLED only if PENDING_PAYMENT. Only those status fields change: every row of both tables is otherwise identical, and no row is added or removed. A missing row aborts both updates. |
| Payments.WebhookRedeliveryIdempotent | src/payments/payments.service.ts:131-186 | Handling the same delivery twice leaves the tables as handling it once. |
| Payments.StatusWritesIdempotent | src/payments/payments.service.ts:145-183 | Each status-only write (payment status, booking CONFIRMED, cancel-if-pending) changes nothing when repeated. |
| Payments.EventBookingIdStable | src/payments/payments.service.ts:133-141 | A status-only update does not change which booking an event resolves to. |
| Payments.NonSucceededEventPreservesNoActiveOverlap | src/payments/payments.service.ts:157-186 | Every event except a succeeded one keeps active bookings disjoint. |
| Payments.LateSucceededEventDoubleBooks | src/payments/payments.service.ts:145-154 | A succeeded event for a CANCELLED booking whose slot was re-booked leaves two overlapping CONFIRMED bookings. |
| Dates.NormalizeToYmd | src/common/date.ts:3-25 | A YYYY-MM-DD-shaped input is returned as is. Otherwise the Date parser's instant, else `Number`'s, gives its UTC day. For years 0000-9999 this is exactly the formatted civil date of day ⌊t / 86 400 000⌋. It throws iff no branch applies. |
| Dates.NormalizeIdempotent | src/common/date.ts:5-20 | Re-normalising a normalised date returns it unchanged, whatever the runtime parsers. |
| Dates.EpochMillisecondsDay | src/common/date.ts:16-22 | Integer milliseconds the Date parser rejects give the civil date of ⌊ms / 86 400 000⌋. |
| Dates.NoRangeCheck | src/common/date.ts:5-7 | "2025-13-45" passes through unchanged. |
| Dates.EmptyInputIsEpochDay | src/common/date.ts:16-20 | `Number("")` is 0, so "" normalises to "1970-01-01". |
| Dates.PlainDateParserBeforeNumber | src/common/date.ts:10-13 | When the Date parser accepts the input, its instant decides. |
| Dates.NormalizeToYmdWithTz | src/common/date.ts:27-53 | An unknown zone always fails, and every failure is "Invalid date". For a YYYY-MM-DD input: success iff it is a real calendar date, and then the input is returned. A number that is not NaN but outside the time-value range (including ±Infinity) fails. |
| Dates.ZonedIsoBranch | src/common/date.ts:47-52 | Input that is neither YYYY-MM-DD nor a number succeeds iff Luxon's ISO parser reads an instant. The result is then the calendar date of that instant shifted by the zone's offset. |
| Dates.EmptyZoneIsUtc | src/common/date.ts:28 | An empty timezone behaves as 'UTC'. |
| Dates.ZonedNumericBeforeIso | src/common/date.ts:38-45 | A numeric input is read as UTC milliseconds and shifted by the zone, whatever the ISO parser says. |
| Calendar.CivilFromDays | src/common/date.ts:12-20 | The civil date of a day number is a valid date whose day number is that day. |
| Calendar.CivilFromDaysInverse | src/common/date.ts:12-20 | Civil-from-days after days-from-civil is the identity on valid dates. |
| Calendar.DaysFromCivilInjective | src/common/date.ts:12-20 | Distinct valid dates have distinct day numbers. |
| Calendar.DateOnlyDay | src/availability/availability.service.ts:28-31 | `new Date(date + "T00:00:00.000Z")` is valid iff the text is YYYY-MM-DD with month 01-12 and day 01-31. |
| Calendar.FormatDateRoundTrip | src/common/date.ts:12-20 | A date of a four-digit year formats to YYYY-MM-DD text that parses back to it. |
| Calendar.ParseYmdRoundTrip | src/common/date.ts:5-7 | YYYY-MM-DD text of a real date re-formats to itself. |
| Calendar.IsoDayOfFourDigitYear | src/admin/admin.controller.ts:24 | `toISOString().slice(0, 10)` of an instant in years 0000-9999 is YYYY-MM-DD naming its UTC day. |
| Controllers.AdminGuards | src/admin/admin.controller.ts:15-16 | No token gives 401. Any role but CLUB_ADMIN gives 403. |
| Controllers.GetAdminBookings | src/admin/admin.controller.ts:15-26 | After the guards, a token without clubId is BadRequest. Otherwise `findByClubAndDate` is called with the token's clubId and the given date, or, when absent, the current UTC day, formatted as `toISOString()` prints it. |
| Controllers.AdminListingScopedToTokenClub | src/admin/admin.controller.ts:18-25 | The admin listing succeeds only for a CLUB_ADMIN token that carries a clubId, and every booking it returns is on a court of that club, whatever club the client names elsewhere (as test/admin-scope.e2e-spec.ts:42-60 expects). |
| Controllers.AdminDefaultDateIsToday | src/admin/admin.controller.ts:24-25 | Without a date the listing is exactly the token club's bookings intersecting the current UTC day. |
| Controllers.PlayerIsForbidden | test/rbac.e2e-spec.ts:42-53 | A PLAYER token gets 403 from both admin listings. |
| Controllers.CreateHandler | src/bookings/bookings.controller.ts:20-30 | `userId ?? id` must be truthy (an empty userId does not fall back). Otherwise BadRequest "userId is required" and no call. |
| Controllers.MyBookings | src/bookings/bookings.controller.ts:32-37 | `findMine` is called with the token's userId, or '' without one. |
| Controllers.GetClubBookings | src/bookings/bookings.controller.ts:39-49 | Guarded like the admin listing. Both the token's clubId and a date are required, with no default date. |
| Controllers.OnlyAdminListingDefaultsDate | src/admin/admin.controller.ts:24 | Without a date the admin listing proceeds and the club listing refuses. With a non-empty date they make the same call. With an empty one (`??` keeps it) the admin listing passes "" to the service, which a runtime reading `Number("")` as 0 turns into 1970-01-01 (Dates.EpochMillisecondsDay), while the club listing refuses. |
| Auth.Register | src/auth/auth.service.ts:13-54 | BadRequest for an empty normalised email, trimmed name or password, and for a taken email, with no change. Otherwise exactly one user is added under the normalised email, with the trimmed name, `hash(password, 12)`, PLAYER, ES and no club, and a token for (id, PLAYER, no club) is returned. |
| Auth.RegisterKeepsWellKeyed | src/auth/auth.service.ts:29-36 | Every user stays stored under its own email. |
| Auth.Login | src/auth/auth.service.ts:56-97 | BadRequest for an empty email or password. Success iff the normalised email has a user with a non-empty hash that `compare` accepts; every other failure is the same "Invalid credentials". The response is the user without its hash and a token for (id, role, clubId). |
| Auth.NormalizeEmailIdempotent | src/auth/auth.service.ts:14 | A normalised email normalises to itself. |
| Auth.EmailVariantsNormalizeAlike | src/auth/auth.service.ts:14 | Emails differing only in letter case or surrounding whitespace normalise alike. |
| Auth.TrimPadding | src/auth/auth.service.ts:15 | Surrounding whitespace does not change the trimmed text. |
| Auth.RegisterThenLogin | src/auth/auth.service.ts:57-84 | After registering, logging in with a case or whitespace variant of the email and the same password reaches the new user (given bcrypt accepts its own hash). |
| Auth.SecondRegistrationRefused | src/auth/auth.service.ts:21-25 | A second registration under an equivalent email is refused and stores nothing. |
| Throttler.GetTracker | src/common/throttler-user.guard.ts:6-14 | "user:" + a truthy userId. Otherwise "ip:" + the header's text before its first comma, the first repeated value, `req.ip`, or "unknown". |
| Throttler.TrackerPrefix | src/common/throttler-user.guard.ts:7-13 | Every key starts with "user:" or "ip:". |
| Throttler.TrackerSeparatesClients | src/common/throttler-user.guard.ts:7-13 | Two users share a key iff they have the same id, and a user never shares a key with an address. |
| Throttler.FirstForwardedHop | src/common/throttler-user.guard.ts:10-11 | With a proxy chain, the key is the first hop exactly as written (untrimmed), and `req.ip` is ignored. |
| Throttler.EmptyHeaderKeepsEmptyAddress | src/common/throttler-user.guard.ts:10-13 | An empty header is kept by `??`, giving "ip:". |
| Throttler.EmptyRepeatedFallsBack | src/common/throttler-user.guard.ts:10-13 | Repeated headers with no values fall back to `req.ip`, then "unknown". |

## Left out

- Concurrency: every operation is one sequential step over the tables. The lock key names the start only, and the lock table is process-local, so concurrent overlap safety is not claimed.
- The 30-second lock TTL clock and the one-minute cron schedule are not modelled: expiry is an explicit `Locks.Fire` event, and each sweep is a function of `now`.
- Prisma relation includes (`court`, `user`) in query results are not modelled. Rows are returned without them.
- Database failures are not modelled. Two cases are kept: a missing row in `payment.update` aborts the webhook transaction, and a missing court in `createPaymentIntent` is a server error.
- `STRIPE_SECRET_KEY` being unset is folded into the Stripe oracle: a failing `paymentIntents.create` stands for it.
- Calendar.DateOnlyDay: accepts only `YYYY-MM-DD` followed by `T00:00:00.000Z`. The other ECMAScript date-time forms that would also parse (`YYYY`, `YYYY-MM`, expanded `±YYYYYY` years) are treated as invalid.
- Bookings.FindByClubAndDate: for instants outside years 0000-9999 the normalised text is the ten characters "±YYYYYY-MM", which `new Date` reads as an ECMAScript expanded-year month (its first day). The model's day-start parser reads only YYYY-MM-DD, so it answers the InvalidInstantMessage ServerError there instead of the bookings of that month's first day.
- Dates.NormalizeToYmd: promises the YYYY-MM-DD shape of its output only for years 0000-9999. Other years are formatted as ±YYYYYY, which is modelled but has no shape lemma.
- Dates.NormalizeToYmdWithTz: the numeric branch truncates fractional milliseconds before the zone offset is applied. Luxon's exact handling of fractions is not modelled. Zone offsets are an arbitrary function per zone.
- `trim()` and `toLowerCase()` are ASCII only: Unicode whitespace and non-ASCII case mappings are not modelled.
- The polymorphic `getAvailability(clubIdOrParams, dateParam)` signature is modelled as its two resolved values, clubId and date.
- Framework wiring is not modelled: modules, DTO validation, Swagger and the availability, payments and auth controllers.
- `src/auth/roles.guard.ts` and the JWT strategy are not part of this model. `Controllers.AdminGuards` states what the `@Roles('CLUB_ADMIN')` decorator and the e2e tests require of them.
- Clubs, Prisma connection set-up and seeding are not modelled: they pass data through unchanged.

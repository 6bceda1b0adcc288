/**
 * `PaymentsService`: the payment-intent decision procedure and the webhook
 * transitions. Stripe is an oracle: what `paymentIntents.retrieve` and
 * `paymentIntents.create` answer, and what `webhooks.constructEvent` makes of
 * a payload.
 */
module Payments {
  import opened Wrappers
  import opened Domain

  /** A PaymentIntent as Stripe reports it. */
  datatype RemoteIntent = RemoteIntent(id: string, status: string, clientSecret: Option<string>)

  /** The outcome of `paymentIntents.retrieve`: the intent, or a thrown error. */
  datatype Retrieved = RetrieveFailed | Retrieved(intent: RemoteIntent)

  /** The outcome of `paymentIntents.create`: the new intent, or a thrown error. */
  datatype Created = CreateFailed | Created(id: string, clientSecret: Option<string>)

  /** A verified webhook event carrying a PaymentIntent. */
  datatype Event = Event(kind: string, intentId: string, metadataBookingId: Option<string>)

  datatype Stripe = Stripe(
    retrieve: string -> Retrieved,
    create: (int, string, Id) -> Created,                // amount, currency, metadata.bookingId
    constructEvent: (string, string, string) -> Option<Event>)  // payload, signature, secret

  datatype IntentResponse = IntentResponse(clientSecret: Option<string>, paymentIntentId: string)

  datatype IntentOutcome = IntentOutcome(result: Result<IntentResponse, HttpError>, db: Db)

  /*
   * Errors raised by foreign code: the runtime, Prisma and the Stripe SDK.
   * The program never writes these texts; the strings below stand in for the
   * message of the exception the library throws.
   */
  /** Node's TypeError when the booking's court is missing and `court.price` is read. */
  const CourtMissingMessage: string := "Cannot read properties of null (reading 'price')"
  /** Prisma's P2025 error when `update` matches no row. */
  const RecordNotFoundMessage: string := "Record to update not found"
  /** Stand-in for any error `paymentIntents.create` throws. */
  const StripeCreateFailedMessage: string := "Stripe paymentIntents.create failed"
  /** Stand-in for the error `webhooks.constructEvent` throws on a bad signature or payload. */
  const SignatureRejectedMessage: string := "Webhook signature verification failed"

  const SucceededEvent: string := "payment_intent.succeeded"
  const FailedEvent: string := "payment_intent.payment_failed"


  function BookingById(bs: seq<Booking>, id: Id): (r: Option<Booking>)
    ensures r.Some? ==> r.value in bs && r.value.id == id
    ensures r.None? ==> forall b :: b in bs ==> b.id != id
  {
    if |bs| == 0 then None else if bs[0].id == id then Some(bs[0]) else BookingById(bs[1..], id)
  }

  function PaymentByBooking(ps: seq<Payment>, bookingId: Id): (r: Option<Payment>)
    ensures r.Some? ==> r.value in ps && r.value.bookingId == bookingId
    ensures r.None? ==> forall p :: p in ps ==> p.bookingId != bookingId
  {
    if |ps| == 0 then None else if ps[0].bookingId == bookingId then Some(ps[0]) else PaymentByBooking(ps[1..], bookingId)
  }

  function PaymentByIntent(ps: seq<Payment>, intentId: string): (r: Option<Payment>)
    ensures r.Some? ==> r.value in ps && r.value.stripeIntentId == Some(intentId)
    ensures r.None? ==> forall p :: p in ps ==> p.stripeIntentId != Some(intentId)
  {
    if |ps| == 0 then None
    else if ps[0].stripeIntentId == Some(intentId) then Some(ps[0])
    else PaymentByIntent(ps[1..], intentId)
  }

  /** The row after `payment.update`: the given fields replaced, the rest kept. */
  function Rewrite(p: Payment, status: PaymentStatus, amount: Option<int>, intentId: Option<string>): Payment {
    p.(status := status, amount := amount.GetOr(p.amount),
       stripeIntentId := if intentId.Some? then intentId else p.stripeIntentId)
  }

  /** `payment.update({ where: { bookingId }, data })` over the payments table. */
  function UpdatePayment(ps: seq<Payment>, bookingId: Id, status: PaymentStatus, amount: Option<int>,
                         intentId: Option<string>): (r: seq<Payment>)
    ensures |r| == |ps|
    ensures forall i :: 0 <= i < |ps| && ps[i].bookingId != bookingId ==> r[i] == ps[i]
    ensures forall i :: 0 <= i < |ps| && ps[i].bookingId == bookingId ==> r[i] == Rewrite(ps[i], status, amount, intentId)
  {
    seq(|ps|, i requires 0 <= i < |ps| =>
      if ps[i].bookingId == bookingId then Rewrite(ps[i], status, amount, intentId) else ps[i])
  }

  /** Looking a row up after an update: the updated booking's row is rewritten, every other row is as before. */
  lemma {:induction false} UpdatePaymentLookup(ps: seq<Payment>, bookingId: Id, status: PaymentStatus,
                                               amount: Option<int>, intentId: Option<string>, q: Id)
    ensures var after := PaymentByBooking(UpdatePayment(ps, bookingId, status, amount, intentId), q);
      var before := PaymentByBooking(ps, q);
      after == if q != bookingId || before.None? then before else Some(Rewrite(before.value, status, amount, intentId))
    decreases |ps|
  {
    if |ps| > 0 {
      assert UpdatePayment(ps, bookingId, status, amount, intentId)[1..] == UpdatePayment(ps[1..], bookingId, status, amount, intentId);
      UpdatePaymentLookup(ps[1..], bookingId, status, amount, intentId, q);
    }
  }

  /** Looking a row up after an insert: the new row is found only when there was none before. */
  lemma {:induction false} AppendPaymentLookup(ps: seq<Payment>, p: Payment, q: Id)
    ensures PaymentByBooking(ps + [p], q) ==
      if PaymentByBooking(ps, q).Some? then PaymentByBooking(ps, q)
      else if p.bookingId == q then Some(p) else None
    decreases |ps|
  {
    if |ps| > 0 {
      assert (ps + [p])[1..] == ps[1..] + [p];
      AppendPaymentLookup(ps[1..], p, q);
    } else {
      assert ps + [p] == [p];
    }
  }

  /** `booking.update({ where: { id }, data: { status } })`. */
  function SetBookingStatus(bs: seq<Booking>, id: Id, status: BookingStatus): (r: seq<Booking>)
    ensures |r| == |bs|
    ensures forall i :: 0 <= i < |bs| && bs[i].id != id ==> r[i] == bs[i]
    ensures forall i :: 0 <= i < |bs| && bs[i].id == id ==> r[i] == bs[i].(status := status)
  {
    seq(|bs|, i requires 0 <= i < |bs| => if bs[i].id == id then bs[i].(status := status) else bs[i])
  }

  /** `booking.updateMany({ where: { id, status: PENDING_PAYMENT }, data: { status: CANCELLED } })`. */
  function CancelIfPending(bs: seq<Booking>, id: Id): (r: seq<Booking>)
    ensures |r| == |bs|
    ensures forall i :: 0 <= i < |bs| && (bs[i].id != id || bs[i].status != PendingPayment) ==> r[i] == bs[i]
    ensures forall i :: 0 <= i < |bs| && bs[i].id == id && bs[i].status == PendingPayment ==>
      r[i] == bs[i].(status := Cancelled)
  {
    seq(|bs|, i requires 0 <= i < |bs| =>
      if bs[i].id == id && bs[i].status == PendingPayment then bs[i].(status := Cancelled) else bs[i])
  }

  // ---------------------------------------------------------------------------
  // createPaymentIntent

  /**
   * The stored PROCESSING intent can be handed out again: Stripe returns it,
   * it is neither succeeded nor canceled, and it has a client secret.
   */
  predicate Reusable(existing: Option<Payment>, stripe: Stripe) {
    && existing.Some? && existing.value.status == Processing && Truthy(existing.value.stripeIntentId)
    && var got := stripe.retrieve(existing.value.stripeIntentId.value);
       got.Retrieved? && got.intent.status != "succeeded" && got.intent.status != "canceled"
       && Truthy(got.intent.clientSecret)
  }

  /** The upsert before a new intent: REQUIRES_PAYMENT at `amount`, currency 'usd' only on insert. */
  function UpsertRequiresPayment(ps: seq<Payment>, bookingId: Id, amount: int): seq<Payment> {
    if PaymentByBooking(ps, bookingId).Some? then UpdatePayment(ps, bookingId, RequiresPayment, Some(amount), None)
    else ps + [Payment(bookingId, amount, "usd", RequiresPayment, None)]
  }

  /** The intent id the upsert keeps: the stored row's, else none. */
  function StoredIntentId(existing: Option<Payment>): Option<string> {
    if existing.Some? then existing.value.stripeIntentId else None
  }

  /** The currency the new intent is created in: the stored row's, else 'usd'. */
  function IntentCurrency(existing: Option<Payment>): string {
    if existing.Some? then existing.value.currency else "usd"
  }

  /**
   * `createPaymentIntent(bookingId)`. Inside the reuse attempt a succeeded
   * remote intent raises "Payment already succeeded", but the surrounding
   * `catch` swallows it like any Stripe failure, so control falls through to a
   * new intent.
   */
  function CreatePaymentIntent(db: Db, bookingId: Id, stripe: Stripe): (r: IntentOutcome)
    ensures r.db.bookings == db.bookings && r.db.courts == db.courts
    ensures BookingById(db.bookings, bookingId).None? ==> r == IntentOutcome(Err(NotFound("Booking not found")), db)
    ensures BookingById(db.bookings, bookingId).Some? && BookingById(db.bookings, bookingId).value.status == Confirmed
      ==> r == IntentOutcome(Err(BadRequest("Booking already confirmed")), db)
    ensures BookingById(db.bookings, bookingId).Some? && CourtById(db.courts, BookingById(db.bookings, bookingId).value.courtId).None?
      ==> r.result.Err? && r.db == db
    ensures forall q :: q != bookingId ==> PaymentByBooking(r.db.payments, q) == PaymentByBooking(db.payments, q)
    ensures var b := BookingById(db.bookings, bookingId);
      var existing := PaymentByBooking(db.payments, bookingId);
      b.Some? && b.value.status != Confirmed && CourtById(db.courts, b.value.courtId).Some? ==>
        if Reusable(existing, stripe) then
          var got := stripe.retrieve(existing.value.stripeIntentId.value).intent;
          r == IntentOutcome(Ok(IntentResponse(got.clientSecret, got.id)), db)
        else
          var price := CourtById(db.courts, b.value.courtId).value.price;
          var p := PaymentByBooking(r.db.payments, bookingId);
          && p.Some? && p.value.amount == price && p.value.currency == IntentCurrency(existing)
          && match stripe.create(price, IntentCurrency(existing), bookingId)
             case CreateFailed =>
               r.result.Err? && p.value.status == RequiresPayment && p.value.stripeIntentId == StoredIntentId(existing)
             case Created(id, secret) =>
               r.result == Ok(IntentResponse(secret, id)) && p.value.status == Processing && p.value.stripeIntentId == Some(id)
  {
    match BookingById(db.bookings, bookingId)
    case None => IntentOutcome(Err(NotFound("Booking not found")), db)
    case Some(booking) =>
      if booking.status == Confirmed then IntentOutcome(Err(BadRequest("Booking already confirmed")), db)
      else match CourtById(db.courts, booking.courtId)
        // `booking.court.price` on a missing relation is a TypeError
        case None => IntentOutcome(Err(ServerError(CourtMissingMessage)), db)
        case Some(court) =>
          var existing := PaymentByBooking(db.payments, bookingId);
          if Reusable(existing, stripe) then
            var intent := stripe.retrieve(existing.value.stripeIntentId.value).intent;
            IntentOutcome(Ok(IntentResponse(intent.clientSecret, intent.id)), db)
          else
            NewIntent(db, bookingId, court.price, stripe)
  }

  /**
   * The fall-through path: upsert the row to REQUIRES_PAYMENT, ask Stripe for
   * a new intent in the row's currency, then record it as PROCESSING. A
   * failing Stripe call leaves the upserted row behind.
   */
  function NewIntent(db: Db, bookingId: Id, amount: int, stripe: Stripe): (r: IntentOutcome)
    ensures r.db.bookings == db.bookings && r.db.courts == db.courts
    ensures forall q :: q != bookingId ==> PaymentByBooking(r.db.payments, q) == PaymentByBooking(db.payments, q)
    ensures var existing := PaymentByBooking(db.payments, bookingId);
      var p := PaymentByBooking(r.db.payments, bookingId);
      && p.Some? && p.value.amount == amount && p.value.currency == IntentCurrency(existing)
      && match stripe.create(amount, IntentCurrency(existing), bookingId)
         case CreateFailed =>
           r.result.Err? && p.value.status == RequiresPayment && p.value.stripeIntentId == StoredIntentId(existing)
         case Created(id, secret) =>
           r.result == Ok(IntentResponse(secret, id)) && p.value.status == Processing && p.value.stripeIntentId == Some(id)
  {
    var existing := PaymentByBooking(db.payments, bookingId);
    var upserted := UpsertRequiresPayment(db.payments, bookingId, amount);
    UpsertLookup(db.payments, bookingId, amount);
    match stripe.create(amount, IntentCurrency(existing), bookingId)
    case CreateFailed =>
      IntentOutcome(Err(ServerError(StripeCreateFailedMessage)), db.(payments := upserted))
    case Created(id, secret) =>
      var recorded := UpdatePayment(upserted, bookingId, Processing, None, Some(id));
      RecordLookup(upserted, bookingId, id);
      IntentOutcome(Ok(IntentResponse(secret, id)), db.(payments := recorded))
  }

  /** After the upsert the booking's row is REQUIRES_PAYMENT at `amount`, in the stored currency or 'usd'; other rows are as before. */
  lemma UpsertLookup(ps: seq<Payment>, bookingId: Id, amount: int)
    ensures var p := PaymentByBooking(UpsertRequiresPayment(ps, bookingId, amount), bookingId);
      && p.Some? && p.value.amount == amount && p.value.status == RequiresPayment
      && p.value.currency == IntentCurrency(PaymentByBooking(ps, bookingId))
      && p.value.stripeIntentId == StoredIntentId(PaymentByBooking(ps, bookingId))
    ensures forall q :: q != bookingId ==>
      PaymentByBooking(UpsertRequiresPayment(ps, bookingId, amount), q) == PaymentByBooking(ps, q)
  {
    var row := Payment(bookingId, amount, "usd", RequiresPayment, None);
    if PaymentByBooking(ps, bookingId).Some? {
      UpdatePaymentLookup(ps, bookingId, RequiresPayment, Some(amount), None, bookingId);
      forall q | q != bookingId
        ensures PaymentByBooking(UpsertRequiresPayment(ps, bookingId, amount), q) == PaymentByBooking(ps, q)
      {
        UpdatePaymentLookup(ps, bookingId, RequiresPayment, Some(amount), None, q);
      }
    } else {
      AppendPaymentLookup(ps, row, bookingId);
      forall q | q != bookingId
        ensures PaymentByBooking(UpsertRequiresPayment(ps, bookingId, amount), q) == PaymentByBooking(ps, q)
      {
        AppendPaymentLookup(ps, row, q);
      }
    }
  }

  /** Recording the new intent makes the row PROCESSING with that intent and leaves other rows alone. */
  lemma RecordLookup(ps: seq<Payment>, bookingId: Id, id: string)
    requires PaymentByBooking(ps, bookingId).Some?
    ensures var p := PaymentByBooking(UpdatePayment(ps, bookingId, Processing, None, Some(id)), bookingId);
      p == Some(PaymentByBooking(ps, bookingId).value.(status := Processing, stripeIntentId := Some(id)))
    ensures forall q :: q != bookingId ==>
      PaymentByBooking(UpdatePayment(ps, bookingId, Processing, None, Some(id)), q) == PaymentByBooking(ps, q)
  {
    UpdatePaymentLookup(ps, bookingId, Processing, None, Some(id), bookingId);
    forall q | q != bookingId
      ensures PaymentByBooking(UpdatePayment(ps, bookingId, Processing, None, Some(id)), q) == PaymentByBooking(ps, q)
    {
      UpdatePaymentLookup(ps, bookingId, Processing, None, Some(id), q);
    }
  }

  /**
   * A retried request gets the same intent back without touching the tables:
   * once a new intent is recorded, a second call that finds it still open at
   * Stripe hands out the same client secret and id.
   */
  lemma RetryReusesIntent(db: Db, bookingId: Id, stripe: Stripe, remoteStatus: string)
    requires var b := BookingById(db.bookings, bookingId);
      b.Some? && b.value.status != Confirmed && CourtById(db.courts, b.value.courtId).Some?
    requires remoteStatus != "succeeded" && remoteStatus != "canceled"
    requires var first := CreatePaymentIntent(db, bookingId, stripe);
      && first.result.Ok? && first.db != db && first.result.value.paymentIntentId != ""
      && Truthy(first.result.value.clientSecret)
      && var id := first.result.value.paymentIntentId;
         stripe.retrieve(id) == Retrieved(RemoteIntent(id, remoteStatus, first.result.value.clientSecret))
    ensures var first := CreatePaymentIntent(db, bookingId, stripe);
      CreatePaymentIntent(first.db, bookingId, stripe) == first
  {
    var first := CreatePaymentIntent(db, bookingId, stripe);
    var existing := PaymentByBooking(db.payments, bookingId);
    assert !Reusable(existing, stripe);
    var b := BookingById(db.bookings, bookingId).value;
    var price := CourtById(db.courts, b.courtId).value.price;
    assert stripe.create(price, IntentCurrency(existing), bookingId).Created?;
  }

  /**
   * A stored intent that Stripe reports as succeeded is not an error: the
   * "Payment already succeeded" exception is swallowed and a new intent is
   * created and recorded.
   */
  lemma SucceededIntentIsReplaced(db: Db, bookingId: Id, stripe: Stripe)
    requires var b := BookingById(db.bookings, bookingId);
      b.Some? && b.value.status != Confirmed && CourtById(db.courts, b.value.courtId).Some?
    requires var p := PaymentByBooking(db.payments, bookingId);
      && p.Some? && p.value.status == Processing && Truthy(p.value.stripeIntentId)
      && stripe.retrieve(p.value.stripeIntentId.value).Retrieved?
      && stripe.retrieve(p.value.stripeIntentId.value).intent.status == "succeeded"
    requires var b := BookingById(db.bookings, bookingId).value;
      stripe.create(CourtById(db.courts, b.courtId).value.price,
                    PaymentByBooking(db.payments, bookingId).value.currency, bookingId).Created?
    ensures var r := CreatePaymentIntent(db, bookingId, stripe);
      var b := BookingById(db.bookings, bookingId).value;
      var c := stripe.create(CourtById(db.courts, b.courtId).value.price,
                             PaymentByBooking(db.payments, bookingId).value.currency, bookingId);
      r.result == Ok(IntentResponse(c.clientSecret, c.id))
      && PaymentByBooking(r.db.payments, bookingId).value.stripeIntentId == Some(c.id)
  {
  }

  // ---------------------------------------------------------------------------
  // handleWebhook

  datatype Ack = Received

  datatype WebhookOutcome = WebhookOutcome(result: Result<Ack, HttpError>, db: Db)

  /** `intent.metadata?.bookingId ?? (payment with stripeIntentId = intent.id)?.bookingId`. */
  function EventBookingId(ps: seq<Payment>, e: Event): (r: Option<Id>)
    ensures e.metadataBookingId.Some? ==> r == e.metadataBookingId
    ensures e.metadataBookingId.None? && r.Some? ==> exists p :: p in ps && p.stripeIntentId == Some(e.intentId) && p.bookingId == r.value
    ensures e.metadataBookingId.None? && r.None? ==> forall p :: p in ps ==> p.stripeIntentId != Some(e.intentId)
  {
    if e.metadataBookingId.Some? then e.metadataBookingId
    else match PaymentByIntent(ps, e.intentId)
      case Some(p) => Some(p.bookingId)
      case None => None
  }

  /**
   * The succeeded transaction: the payment row becomes SUCCEEDED and the
   * booking CONFIRMED, whatever status it had. Either update failing for a
   * missing row aborts both.
   */
  function ConfirmPaid(db: Db, bookingId: Id): WebhookOutcome {
    if PaymentByBooking(db.payments, bookingId).None? || BookingById(db.bookings, bookingId).None? then
      WebhookOutcome(Err(ServerError(RecordNotFoundMessage)), db)
    else
      WebhookOutcome(Ok(Received), db.(payments := UpdatePayment(db.payments, bookingId, Succeeded, None, None),
                                         bookings := SetBookingStatus(db.bookings, bookingId, Confirmed)))
  }

  /**
   * The failed transaction: the payment row becomes FAILED and the booking is
   * cancelled if it is still a PENDING_PAYMENT hold (`updateMany` matching no
   * row is not an error).
   */
  function MarkFailed(db: Db, bookingId: Id): WebhookOutcome {
    if PaymentByBooking(db.payments, bookingId).None? then
      WebhookOutcome(Err(ServerError(RecordNotFoundMessage)), db)
    else
      WebhookOutcome(Ok(Received), db.(payments := UpdatePayment(db.payments, bookingId, Failed, None, None),
                                         bookings := CancelIfPending(db.bookings, bookingId)))
  }

  /**
   * `handleWebhook(rawBody, signature)` with `webhookSecret` the value of
   * STRIPE_WEBHOOK_SECRET (`None` when unset).
   */
  function HandleWebhook(db: Db, webhookSecret: Option<string>, signature: Option<string>, payload: string,
                         stripe: Stripe): (r: WebhookOutcome)
    ensures r.db.courts == db.courts
    ensures !Truthy(webhookSecret) ==> r == WebhookOutcome(Err(ServerError("STRIPE_WEBHOOK_SECRET is not set")), db)
    ensures Truthy(webhookSecret) && !Truthy(signature) ==> r == WebhookOutcome(Err(ServerError("Missing stripe-signature header")), db)
    ensures r.result.Err? ==> r.db == db
    ensures Truthy(webhookSecret) && Truthy(signature) ==>
      match stripe.constructEvent(payload, signature.value, webhookSecret.value)
      case None => r.result.Err? && r.db == db
      case Some(e) =>
        var id := EventBookingId(db.payments, e);
        if (e.kind != SucceededEvent && e.kind != FailedEvent) || !Truthy(id) then r == WebhookOutcome(Ok(Received), db)
        else
          && (r.result.Ok? <==> PaymentByBooking(db.payments, id.value).Some?
                                && (e.kind == SucceededEvent ==> BookingById(db.bookings, id.value).Some?))
          && (r.result.Ok? ==>
               var paid := if e.kind == SucceededEvent then Succeeded else Failed;
               && PaymentByBooking(r.db.payments, id.value) == Some(PaymentByBooking(db.payments, id.value).value.(status := paid))
               && (forall q :: q != id.value ==> PaymentByBooking(r.db.payments, q) == PaymentByBooking(db.payments, q))
               && |r.db.payments| == |db.payments|
               && (forall i :: 0 <= i < |db.payments| ==>
                    r.db.payments[i] == if db.payments[i].bookingId == id.value then db.payments[i].(status := paid)
                                        else db.payments[i])
               && |r.db.bookings| == |db.bookings|
               && (forall i :: 0 <= i < |db.bookings| ==>
                    r.db.bookings[i] == if db.bookings[i].id != id.value then db.bookings[i]
                                        else if e.kind == SucceededEvent then db.bookings[i].(status := Confirmed)
                                        else if db.bookings[i].status == PendingPayment then db.bookings[i].(status := Cancelled)
                                        else db.bookings[i]))
  {
    if !Truthy(webhookSecret) then WebhookOutcome(Err(ServerError("STRIPE_WEBHOOK_SECRET is not set")), db)
    else if !Truthy(signature) then WebhookOutcome(Err(ServerError("Missing stripe-signature header")), db)
    else match stripe.constructEvent(payload, signature.value, webhookSecret.value)
      case None => WebhookOutcome(Err(ServerError(SignatureRejectedMessage)), db)
      case Some(e) =>
        var id := EventBookingId(db.payments, e);
        if (e.kind != SucceededEvent && e.kind != FailedEvent) || !Truthy(id) then WebhookOutcome(Ok(Received), db)
        else
          var bookingId := id.value;
          if e.kind == SucceededEvent then
            UpdatePaymentLookups(db.payments, bookingId, Succeeded);
            ConfirmPaid(db, bookingId)
          else
            UpdatePaymentLookups(db.payments, bookingId, Failed);
            MarkFailed(db, bookingId)
  }

  /** A status-only update as seen through lookups by booking id. */
  lemma UpdatePaymentLookups(ps: seq<Payment>, bookingId: Id, status: PaymentStatus)
    ensures var after := UpdatePayment(ps, bookingId, status, None, None);
      && (PaymentByBooking(ps, bookingId).Some? ==>
            PaymentByBooking(after, bookingId) == Some(PaymentByBooking(ps, bookingId).value.(status := status)))
      && forall q :: q != bookingId ==> PaymentByBooking(after, q) == PaymentByBooking(ps, q)
  {
    UpdatePaymentLookup(ps, bookingId, status, None, None, bookingId);
    forall q | q != bookingId
      ensures PaymentByBooking(UpdatePayment(ps, bookingId, status, None, None), q) == PaymentByBooking(ps, q)
    {
      UpdatePaymentLookup(ps, bookingId, status, None, None, q);
    }
  }

  /** A status-only update keeps every row's booking id and intent id, so the event resolves to the same booking. */
  lemma {:induction false} EventBookingIdStable(ps: seq<Payment>, bookingId: Id, status: PaymentStatus, e: Event)
    ensures EventBookingId(UpdatePayment(ps, bookingId, status, None, None), e) == EventBookingId(ps, e)
    decreases |ps|
  {
    if |ps| > 0 && e.metadataBookingId.None? {
      var after := UpdatePayment(ps, bookingId, status, None, None);
      assert after[1..] == UpdatePayment(ps[1..], bookingId, status, None, None);
      assert after[0].stripeIntentId == ps[0].stripeIntentId && after[0].bookingId == ps[0].bookingId;
      EventBookingIdStable(ps[1..], bookingId, status, e);
    }
  }

  /** Each status-only write is idempotent: repeating it changes nothing. */
  lemma StatusWritesIdempotent(db: Db, id: Id, status: PaymentStatus)
    ensures var ps := UpdatePayment(db.payments, id, status, None, None);
      UpdatePayment(ps, id, status, None, None) == ps
    ensures var bs := SetBookingStatus(db.bookings, id, Confirmed);
      SetBookingStatus(bs, id, Confirmed) == bs
    ensures var bs := CancelIfPending(db.bookings, id);
      CancelIfPending(bs, id) == bs
  {
    var ps := UpdatePayment(db.payments, id, status, None, None);
    assert UpdatePayment(ps, id, status, None, None) == ps;
    var bs := SetBookingStatus(db.bookings, id, Confirmed);
    assert SetBookingStatus(bs, id, Confirmed) == bs;
    var cs := CancelIfPending(db.bookings, id);
    assert CancelIfPending(cs, id) == cs;
  }

  /** Stripe redelivers events: handling the same delivery twice leaves the tables as handling it once. */
  lemma WebhookRedeliveryIdempotent(db: Db, webhookSecret: Option<string>, signature: Option<string>,
                                    payload: string, stripe: Stripe)
    ensures var once := HandleWebhook(db, webhookSecret, signature, payload, stripe);
      HandleWebhook(once.db, webhookSecret, signature, payload, stripe).db == once.db
  {
    var once := HandleWebhook(db, webhookSecret, signature, payload, stripe);
    var twice := HandleWebhook(once.db, webhookSecret, signature, payload, stripe);
    if once.db != db && twice.result.Ok? {
      var e := stripe.constructEvent(payload, signature.value, webhookSecret.value).value;
      var id := EventBookingId(db.payments, e).value;
      var status := if e.kind == SucceededEvent then Succeeded else Failed;
      assert once.db.payments == UpdatePayment(db.payments, id, status, None, None);
      EventBookingIdStable(db.payments, id, status, e);
      StatusWritesIdempotent(db, id, status);
    }
  }

  /**
   * Every event other than a succeeded one keeps the reservation invariant:
   * the failed branch only turns PENDING_PAYMENT holds into CANCELLED.
   */
  lemma NonSucceededEventPreservesNoActiveOverlap(db: Db, webhookSecret: Option<string>, signature: Option<string>,
                                                  payload: string, stripe: Stripe, now: int)
    requires NoActiveOverlap(db.bookings, now)
    requires Truthy(webhookSecret) && Truthy(signature)
    requires var e := stripe.constructEvent(payload, signature.value, webhookSecret.value);
      e.None? || e.value.kind != SucceededEvent
    ensures NoActiveOverlap(HandleWebhook(db, webhookSecret, signature, payload, stripe).db.bookings, now)
  {
    var r := HandleWebhook(db, webhookSecret, signature, payload, stripe).db.bookings;
    if r != db.bookings {
      var id := EventBookingId(db.payments, stripe.constructEvent(payload, signature.value, webhookSecret.value).value).value;
      assert r == CancelIfPending(db.bookings, id);
      forall i, j | 0 <= i < j < |r| && r[i].courtId == r[j].courtId && IsActive(r[i], now) && IsActive(r[j], now)
        ensures !Overlaps(r[i].start, r[i].end, r[j].start, r[j].end)
      {
        assert r[i] == db.bookings[i] && r[j] == db.bookings[j];
      }
    }
  }

  /**
   * A succeeded event confirms the booking whatever its status, so a payment
   * that completes after its hold was cancelled, and the slot re-booked,
   * leaves two active bookings overlapping on one court.
   */
  lemma LateSucceededEventDoubleBooks()
    ensures var db := Db([Court("c", "club", "Court 1", 100, 0)],
                         [Booking("a", "u1", "c", 0, 10, Cancelled, Some(5)),
                          Booking("b", "u2", "c", 0, 10, Confirmed, None)],
                         [Payment("a", 100, "usd", Processing, Some("pi"))]);
      var stripe := Stripe(_ => RetrieveFailed, (_, _, _) => CreateFailed,
                           (_, _, _) => Some(Event(SucceededEvent, "pi", Some("a"))));
      var r := HandleWebhook(db, Some("whsec"), Some("sig"), "{}", stripe);
      && NoActiveOverlap(db.bookings, 20)
      && r.result == Ok(Received)
      && !NoActiveOverlap(r.db.bookings, 20)
  {
    var db := Db([Court("c", "club", "Court 1", 100, 0)],
                 [Booking("a", "u1", "c", 0, 10, Cancelled, Some(5)),
                  Booking("b", "u2", "c", 0, 10, Confirmed, None)],
                 [Payment("a", 100, "usd", Processing, Some("pi"))]);
    var stripe := Stripe(_ => RetrieveFailed, (_, _, _) => CreateFailed,
                         (_, _, _) => Some(Event(SucceededEvent, "pi", Some("a"))));
    var r := HandleWebhook(db, Some("whsec"), Some("sig"), "{}", stripe);
    assert "a" != "b";
    assert PaymentByBooking(db.payments, "a").Some?;
    assert BookingById(db.bookings, "a").Some?;
    assert r.db.bookings == SetBookingStatus(db.bookings, "a", Confirmed);
    assert r.db.bookings[0].status == Confirmed && r.db.bookings[1] == db.bookings[1];
  }
}

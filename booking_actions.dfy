/**
 * The `createBooking` server action: connect, convert the event id to an
 * ObjectId, `Booking.create`, and turn whatever is thrown on the way into
 * `{success: false, error}`.
 */
module BookingActions {
  import opened Wrappers
  import opened ObjectIds
  import opened Errors
  import opened EventModel
  import opened BookingModel

  /** `{success, error?}`. */
  datatype ActionResult = ActionResult(success: bool, error: Option<string>)

  /** What the `catch` clause returns for the caught value `e`. */
  function Caught(e: Exception): ActionResult {
    ActionResult(false, Some(CatchMessage(e, "Unknown error")))
  }

  /**
   * One call of `createBooking({eventId, email})`: the result and the
   * bookings afterwards. `connection` is what `connectDB()` rejects with,
   * if it does; `id` and `now` are the `_id` and the clock `Booking.create`
   * uses.
   */
  function BookingActionRun(connection: Option<Exception>, bookings: seq<BookingRecord>, events: seq<EventRecord>,
                            eventId: string, email: string, id: ObjectId, now: int): (ActionResult, seq<BookingRecord>)
  {
    if connection.Some? then (Caught(connection.value), bookings)
    else
      match ParseObjectId(eventId)
      case Err(m) => (Caught(ErrorObject(m)), bookings)
      case Ok(oid) =>
        match BookingCreation(bookings, events, oid, email, id, now)
        case Err(e) => (Caught(AsException(e)), bookings)
        case Ok(b) => (ActionResult(true, None), bookings + [b])
  }

  /**
   * Nothing escapes the action: it always answers, with an error message
   * exactly when it did not succeed, and only a success writes (one booking).
   */
  lemma ActionAlwaysAnswers(connection: Option<Exception>, bookings: seq<BookingRecord>, events: seq<EventRecord>,
                            eventId: string, email: string, id: ObjectId, now: int)
    ensures var (r, after) := BookingActionRun(connection, bookings, events, eventId, email, id, now);
      && (r.success <==> r.error.None?)
      && (r.success ==> |after| == |bookings| + 1 && after[..|bookings|] == bookings)
      && (!r.success ==> after == bookings)
  {
  }

  /**
   * The action succeeds exactly when the connection is up, the event id is an
   * ObjectId and `Booking.create` stores a booking; the booking it stores is
   * the one `Booking.create` builds.
   */
  lemma ActionSucceedsIff(connection: Option<Exception>, bookings: seq<BookingRecord>, events: seq<EventRecord>,
                          eventId: string, email: string, id: ObjectId, now: int)
    ensures BookingActionRun(connection, bookings, events, eventId, email, id, now).0.success <==>
      && connection.None?
      && ParseObjectId(eventId).Ok?
      && IsValidEmail(email)
      && IdTaken(events, ParseObjectId(eventId).value)
      && !BookingIdTaken(bookings, id)
    ensures BookingActionRun(connection, bookings, events, eventId, email, id, now).0.success ==>
      BookingActionRun(connection, bookings, events, eventId, email, id, now).1 ==
        bookings + [BookingRecord(id, ParseObjectId(eventId).value, SetEmail(email), now, now)]
  {
    if connection.None? && ParseObjectId(eventId).Ok? {
      BookingAcceptedIff(bookings, events, ParseObjectId(eventId).value, email, id, now);
    }
  }

  /** A store error reaches the caller as its `message`. */
  lemma StoreErrorReported(bookings: seq<BookingRecord>, events: seq<EventRecord>, eventId: string, email: string,
                           id: ObjectId, now: int, e: StoreError)
    requires ParseObjectId(eventId).Ok?
    requires BookingCreation(bookings, events, ParseObjectId(eventId).value, email, id, now) == Err(e)
    ensures BookingActionRun(None, bookings, events, eventId, email, id, now) == (ActionResult(false, Some(Message(e))), bookings)
  {
  }

  /** A connection failure: an `Error` reaches the caller as its `message`, anything else as `Unknown error`. */
  lemma ConnectionFailureReported(failure: Exception, bookings: seq<BookingRecord>, events: seq<EventRecord>,
                                  eventId: string, email: string, id: ObjectId, now: int)
    ensures var (r, after) := BookingActionRun(Some(failure), bookings, events, eventId, email, id, now);
      && after == bookings
      && r.error == Some(if failure.ErrorObject? then failure.message else "Unknown error")
  {
  }

  /** An event id that is not 24 hex digits fails at the conversion: no booking is written. */
  lemma MalformedIdNoWrite(bookings: seq<BookingRecord>, events: seq<EventRecord>, eventId: string, email: string,
                           id: ObjectId, now: int)
    requires !(|eventId| == HexWidth && AllHex(eventId))
    ensures BookingActionRun(None, bookings, events, eventId, email, id, now) ==
      (ActionResult(false, Some(MalformedIdMessage)), bookings)
  {
  }

  /** `createBooking`: connects, converts the id, calls `Booking.create` and catches. */
  method CreateBooking(store: BookingStore, events: EventStore, connection: Option<Exception>, eventId: string,
                       email: string, id: ObjectId, now: int) returns (result: ActionResult)
    requires store.Valid()
    modifies store
    ensures store.Valid()
    ensures (result, store.bookings) == BookingActionRun(connection, old(store.bookings), events.events, eventId, email, id, now)
  {
    if connection.Some? {
      return Caught(connection.value);
    }
    var eventObjectId := ParseObjectId(eventId);
    if eventObjectId.Err? {
      return Caught(ErrorObject(eventObjectId.error));
    }
    var created := store.Create(events, eventObjectId.value, email, id, now);
    if created.Err? {
      return Caught(AsException(created.error));
    }
    return ActionResult(true, None);
  }
}

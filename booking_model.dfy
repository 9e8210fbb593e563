/**
 * The Booking model: `isValidEmail`, the `trim` and `lowercase` setters of
 * `email`, the schema's validators, the pre-save hook that checks the email
 * again and looks the event up, and the collection.
 *
 * Saving a new booking runs, in this order: the setters, the schema
 * validators, the pre-save hook (email check, then `Event.findById`) and the
 * insert.
 */
module BookingModel {
  import opened Wrappers
  import opened Text
  import opened ObjectIds
  import opened Errors
  import opened EventModel

  // ---- isValidEmail ----

  /** `[^\s@]`. */
  predicate IsEmailChar(c: char) {
    !IsSpace(c) && c != '@'
  }

  /** Every character is matched by `[^\s@]`. */
  predicate EmailChars(s: string) {
    forall i :: 0 <= i < |s| ==> IsEmailChar(s[i])
  }

  /** `[^\s@]+\.[^\s@]+` matches the whole of `r`: email characters with a dot that is neither first nor last. */
  ghost predicate IsDomain(r: string) {
    EmailChars(r) && exists j :: 0 < j < |r| - 1 && r[j] == '.'
  }

  /** `/^[^\s@]+@[^\s@]+\.[^\s@]+$/` matches `t` with its `@` at index `k`. */
  ghost predicate SplitsAt(t: string, k: int) {
    0 < k < |t| && t[k] == '@' && EmailChars(t[..k]) && IsDomain(t[k + 1..])
  }

  /** The regular expression matches `t`: it splits into a local part, `@` and a domain. */
  ghost predicate MatchesEmail(t: string) {
    exists k :: SplitsAt(t, k)
  }

  /**
   * How `emailRegex.test(t)` comes out: `[^\s@]+` cannot pass an `@`, so the
   * local part ends at the first `@`; what follows it must be a domain.
   */
  function EmailTest(t: string): bool {
    match IndexOf(t, '@')
    case None => false
    case Some(k) =>
      var r := t[k + 1..];
      0 < k && EmailChars(t[..k]) && |r| >= 3 && EmailChars(r) && '.' in r[1..|r| - 1]
  }

  /** `isValidEmail(email)`. */
  function IsValidEmail(email: string): bool {
    EmailTest(Trim(email))
  }

  /** The test decides the regular expression: it accepts exactly the strings that split into local part, `@` and domain. */
  lemma EmailTestIff(t: string)
    ensures EmailTest(t) <==> MatchesEmail(t)
  {
    if EmailTest(t) {
      var k := IndexOf(t, '@').value;
      var r := t[k + 1..];
      var j :| 0 <= j < |r[1..|r| - 1]| && r[1..|r| - 1][j] == '.';
      assert r[j + 1] == '.';
      assert SplitsAt(t, k);
    }
    if MatchesEmail(t) {
      var k :| SplitsAt(t, k);
      var r := t[k + 1..];
      assert '@' !in t[..k] by {
        forall i | 0 <= i < k ensures t[..k][i] != '@' {
          assert IsEmailChar(t[..k][i]);
        }
      }
      IndexOfAt(t, '@', k);
      var j :| 0 < j < |r| - 1 && r[j] == '.';
      assert r[1..|r| - 1][j - 1] == '.';
    }
  }

  /** A string the regular expression matches has exactly one `@`: the one it splits at. */
  lemma SplitUnique(t: string, k: int)
    requires SplitsAt(t, k)
    ensures forall i :: 0 <= i < |t| && t[i] == '@' ==> i == k
  {
    forall i | 0 <= i < |t| && i != k ensures t[i] != '@' {
      if i < k {
        assert t[i] == t[..k][i];
      } else {
        assert t[i] == t[k + 1..][i - k - 1];
      }
    }
  }

  /** `isValidEmail` holds exactly when the trimmed string is a local part, `@` and a domain. */
  lemma IsValidEmailIff(email: string)
    ensures IsValidEmail(email) <==> MatchesEmail(Trim(email))
  {
    EmailTestIff(Trim(email));
  }

  /** Whitespace around the address never changes the verdict. */
  lemma ValidEmailIgnoresSurroundingSpace(s: string)
    ensures IsValidEmail(Trim(s)) == IsValidEmail(s)
  {
    TrimIdempotent(s);
  }

  lemma {:induction false} LowerEmailChars(s: string)
    ensures EmailChars(Lower(s)) <==> EmailChars(s)
  {
    assert forall i :: 0 <= i < |s| ==> (IsEmailChar(Lower(s)[i]) <==> IsEmailChar(s[i]));
  }

  /** Lower-casing neither creates nor removes a split. */
  lemma LowerKeepsSplit(t: string, k: int)
    ensures SplitsAt(Lower(t), k) <==> SplitsAt(t, k)
  {
    var l := Lower(t);
    if 0 < k < |t| {
      assert l[..k] == Lower(t[..k]);
      assert l[k + 1..] == Lower(t[k + 1..]);
      LowerEmailChars(t[..k]);
      LowerEmailChars(t[k + 1..]);
      var r, lr := t[k + 1..], l[k + 1..];
      assert forall j :: 0 < j < |r| - 1 ==> (lr[j] == '.' <==> r[j] == '.');
    }
  }

  // ---- the email setters ----

  /** The `trim` and `lowercase` setters of `email`; they commute (`TrimLowerCommute`), so their order is immaterial. */
  function SetEmail(email: string): string {
    Lower(Trim(email))
  }

  /** A stored email is trimmed and lower-cased, and running the setters again changes nothing. */
  lemma SetEmailNormal(email: string)
    ensures var v := SetEmail(email);
      Trim(v) == v && Lower(v) == v && SetEmail(v) == v
  {
    var t := Trim(email);
    TrimLowerCommute(t);
    TrimIdempotent(email);
    LowerIdempotent(t);
  }

  /** The validator, which sees the email after the setters, gives the verdict `isValidEmail` gives on the raw email. */
  lemma SetterKeepsVerdict(email: string)
    ensures IsValidEmail(SetEmail(email)) == IsValidEmail(email)
  {
    var t := Trim(email);
    SetEmailNormal(email);
    EmailTestIff(Lower(t));
    EmailTestIff(t);
    if MatchesEmail(t) {
      var k :| SplitsAt(t, k);
      LowerKeepsSplit(t, k);
    }
    if MatchesEmail(Lower(t)) {
      var k :| SplitsAt(Lower(t), k);
      LowerKeepsSplit(t, k);
    }
  }

  // ---- saving a booking ----

  /** A stored booking. */
  datatype BookingRecord = BookingRecord(id: ObjectId, eventId: ObjectId, email: string, createdAt: int, updatedAt: int)

  /** Which validator of `email` failed. */
  datatype EmailViolation = MissingEmail | MalformedEmail

  /** The first failing validator of the set email `v`: `required` (the empty string fails it), then `isValidEmail`. */
  function EmailViolationOf(v: string): Option<EmailViolation> {
    if |v| == 0 then Some(MissingEmail)
    else if !IsValidEmail(v) then Some(MalformedEmail)
    else None
  }

  function EmailViolationMessage(x: EmailViolation, v: string): string {
    match x
    case MissingEmail => RequiredMessage("email")
    case MalformedEmail => v + " is not a valid email address"
  }

  /** The `ValidationError` of a booking whose email fails validation. */
  function EmailValidationError(x: EmailViolation, v: string): StoreError {
    Validation("Booking", [FieldError("email", EmailViolationMessage(x, v))])
  }

  /** Which check of the pre-save hook failed. */
  datatype HookCheck = InvalidEmailFormat | UnknownEvent

  function HookCheckMessage(f: HookCheck, eventId: ObjectId): string {
    match f
    case InvalidEmailFormat => "Invalid email format"
    case UnknownEvent => "Event with ID " + IdText(eventId) + " does not exist"
  }

  /** The pre-save hook on a booking with set email `v`: the email check, then the event lookup. */
  function BookingHook(events: seq<EventRecord>, v: string, eventId: ObjectId): Option<HookCheck> {
    if !IsValidEmail(v) then Some(InvalidEmailFormat)
    else if !IdTaken(events, eventId) then Some(UnknownEvent)
    else None
  }

  predicate BookingIdTaken(bookings: seq<BookingRecord>, id: ObjectId) {
    exists i :: 0 <= i < |bookings| && bookings[i].id == id
  }

  /**
   * `Booking.create({eventId, email})` against the stored `events`, with the
   * `_id` the driver assigns and the clock reading `now`. The only unique
   * index is the one on `_id`.
   */
  function BookingCreation(bookings: seq<BookingRecord>, events: seq<EventRecord>, eventId: ObjectId, email: string,
                           id: ObjectId, now: int): Result<BookingRecord, StoreError>
  {
    var v := SetEmail(email);
    match EmailViolationOf(v)
    case Some(x) => Err(EmailValidationError(x, v))
    case None =>
      match BookingHook(events, v, eventId)
      case Some(f) => Err(Thrown(HookCheckMessage(f, eventId)))
      case None =>
        if BookingIdTaken(bookings, id) then Err(DuplicateKey("_id_"))
        else Ok(BookingRecord(id, eventId, v, now, now))
  }

  /** What every stored booking satisfies: a valid email as the setters leave it, and equal timestamps. */
  predicate WellFormedBooking(b: BookingRecord) {
    IsValidEmail(b.email) && SetEmail(b.email) == b.email && b.createdAt == b.updatedAt
  }

  /** The collection's invariant: `_id` is unique and every booking is well formed. */
  predicate BookingsInvariant(bookings: seq<BookingRecord>) {
    && (forall i, j :: 0 <= i < j < |bookings| ==> bookings[i].id != bookings[j].id)
    && (forall i :: 0 <= i < |bookings| ==> WellFormedBooking(bookings[i]))
  }

  /** A valid email is never empty, so `required` never fails where the custom validator passes. */
  lemma ValidEmailNotEmpty(v: string)
    requires IsValidEmail(v)
    ensures |v| > 0
  {
    EmailTestIff(Trim(v));
  }

  /** An email the validator rejects fails validation whatever the stored events: nothing is looked up. */
  lemma InvalidEmailRejectedFirst(bookings: seq<BookingRecord>, events: seq<EventRecord>, events': seq<EventRecord>,
                                  eventId: ObjectId, email: string, id: ObjectId, now: int)
    requires !IsValidEmail(email)
    ensures var r := BookingCreation(bookings, events, eventId, email, id, now);
      && r == BookingCreation(bookings, events', eventId, email, id, now)
      && r.Err? && r.error.Validation? && r.error.model == "Booking"
  {
    SetterKeepsVerdict(email);
  }

  /**
   * The hook's own email check never fires: the schema validator has already
   * rejected every email it would reject.
   */
  lemma HookEmailCheckUnreachable(events: seq<EventRecord>, email: string, eventId: ObjectId)
    requires EmailViolationOf(SetEmail(email)).None?
    ensures BookingHook(events, SetEmail(email), eventId) != Some(InvalidEmailFormat)
  {
  }

  /** A valid email for an event that is not stored fails in the hook, naming the id. */
  lemma MissingEventRejected(bookings: seq<BookingRecord>, events: seq<EventRecord>, eventId: ObjectId, email: string,
                             id: ObjectId, now: int)
    requires IsValidEmail(email) && !IdTaken(events, eventId)
    ensures BookingCreation(bookings, events, eventId, email, id, now) == Err(Thrown(HookCheckMessage(UnknownEvent, eventId)))
  {
    SetterKeepsVerdict(email);
    ValidEmailNotEmpty(SetEmail(email));
  }

  /**
   * A booking is created exactly when the email is valid, the event is stored
   * and the `_id` is free; it holds the event id, the set email and `now` twice.
   */
  lemma BookingAcceptedIff(bookings: seq<BookingRecord>, events: seq<EventRecord>, eventId: ObjectId, email: string,
                           id: ObjectId, now: int)
    ensures BookingCreation(bookings, events, eventId, email, id, now).Ok? <==>
      IsValidEmail(email) && IdTaken(events, eventId) && !BookingIdTaken(bookings, id)
    ensures BookingCreation(bookings, events, eventId, email, id, now).Ok? ==>
      BookingCreation(bookings, events, eventId, email, id, now).value == BookingRecord(id, eventId, SetEmail(email), now, now)
  {
    SetterKeepsVerdict(email);
    if IsValidEmail(email) {
      ValidEmailNotEmpty(SetEmail(email));
    }
  }

  /** The `eventId` index is not unique: the same email may book the same event again. */
  lemma RepeatBookingAccepted(bookings: seq<BookingRecord>, events: seq<EventRecord>, eventId: ObjectId, email: string,
                              id: ObjectId, now: int, i: nat)
    requires i < |bookings| && bookings[i].eventId == eventId && bookings[i].email == SetEmail(email)
    requires IsValidEmail(email) && IdTaken(events, eventId) && !BookingIdTaken(bookings, id)
    ensures BookingCreation(bookings, events, eventId, email, id, now).Ok?
  {
    BookingAcceptedIff(bookings, events, eventId, email, id, now);
  }

  /** Creating appends to a collection that satisfies the invariant without breaking it. */
  lemma BookingCreationKeepsInvariant(bookings: seq<BookingRecord>, events: seq<EventRecord>, eventId: ObjectId, email: string,
                                      id: ObjectId, now: int)
    requires BookingsInvariant(bookings)
    requires BookingCreation(bookings, events, eventId, email, id, now).Ok?
    ensures BookingsInvariant(bookings + [BookingCreation(bookings, events, eventId, email, id, now).value])
  {
    BookingAcceptedIff(bookings, events, eventId, email, id, now);
    SetterKeepsVerdict(email);
    SetEmailNormal(email);
    var b := BookingRecord(id, eventId, SetEmail(email), now, now);
    var s := bookings + [b];
    forall i, j | 0 <= i < j < |s| ensures s[i].id != s[j].id {
      if j == |bookings| {
        assert s[i] == bookings[i];
      }
    }
  }

  /** The pre-save hook: `isValidEmail(booking.email)`, then `Event.findById(booking.eventId)`. */
  method BookingPreSave(events: EventStore, v: string, eventId: ObjectId) returns (failure: Option<HookCheck>)
    ensures failure == BookingHook(events.events, v, eventId)
  {
    if !IsValidEmail(v) {
      return Some(InvalidEmailFormat);
    }
    var event := events.FindById(eventId);
    if event.None? {
      return Some(UnknownEvent);
    }
    return None;
  }

  /** The bookings collection. */
  class BookingStore {
    var bookings: seq<BookingRecord>

    ghost predicate Valid()
      reads this
    {
      BookingsInvariant(bookings)
    }

    constructor ()
      ensures bookings == [] && Valid()
    {
      bookings := [];
    }

    /** `Booking.create({eventId, email})`: sets the email, validates it, runs the hook over `events` and inserts. */
    method Create(events: EventStore, eventId: ObjectId, email: string, id: ObjectId, now: int)
      returns (r: Result<BookingRecord, StoreError>)
      requires Valid()
      modifies this
      ensures Valid()
      ensures r == BookingCreation(old(bookings), events.events, eventId, email, id, now)
      ensures bookings == if r.Ok? then old(bookings) + [r.value] else old(bookings)
    {
      var value := SetEmail(email);
      var violation := EmailViolationOf(value);
      if violation.Some? {
        return Err(EmailValidationError(violation.value, value));
      }
      var failure := BookingPreSave(events, value, eventId);
      if failure.Some? {
        return Err(Thrown(HookCheckMessage(failure.value, eventId)));
      }
      if BookingIdTaken(bookings, id) {
        return Err(DuplicateKey("_id_"));
      }
      var b := BookingRecord(id, eventId, value, now, now);
      BookingCreationKeepsInvariant(bookings, events.events, eventId, email, id, now);
      bookings := bookings + [b];
      return Ok(b);
    }
  }
}

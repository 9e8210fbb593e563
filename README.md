# dev_events_app in Dafny

A model of the core of a developer-events web application. Organisers create
events; visitors browse them and book a place with their email address. The
model covers the following parts.

- **Event model** (`EventModel`, with `Slug` and `DateTime`). This is the
  Mongoose schema of an event. It models:
  - the setters (`trim`, and `lowercase` for `slug`);
  - the path validators (`required`, `maxLength` 500 on `description` and
    `overview`, the `mode` enum, non-empty `agenda` and `tags`);
  - the pre-save hook (`validateRequiredFields`, `generateSlug`,
    `normalizeDate`, `normalizeTime`);
  - the unique indexes on `_id` and `slug`.

  `Event.create` is a method of the `EventStore` class. It builds an
  `EventDocument`, validates it, runs the hook in place and appends the
  record.
- **Booking model** (`BookingModel`). This is the booking schema:
  - the email setters and the regular-expression validator;
  - the pre-save hook that looks the event up;
  - the `BookingStore` class, whose `Create` is `Booking.create`.
- **Booking action** (`BookingActions`). The `createBooking` server action
  connects, converts the event id to an ObjectId (`ObjectIds`), creates the
  booking and turns anything thrown into `{success: false, error}`.
- **Events route** (`EventsRoute`, with `Base64` and `Errors`). `POST
  /api/events` is modelled step by step:
  - the form entries;
  - the image check;
  - the `tags`/`agenda` JSON checks and filtering;
  - the base 64 `data:` URL (RFC 4648 section 4, RFC 2397 section 2);
  - `Event.create`, and the mapping of each outcome to its status (201, 400,
    409, 500).

  `GET` lists the stored events newest first.
- **Events page** (`EventsPage`). It covers the sorted, duplicate-free list
  of locations and the search, mode and location filters, followed by one of
  four sort orders.
- **Create-event page** (`CreateEventPage`). The `EventEditor` class holds
  the agenda and tag input lists with their add, remove and update handlers.
  The model also covers what `handleSubmit` sends and how the page reacts to
  the route's answer.

### Parameters

These inputs are parameters rather than modelled behaviour:

- the result of `connectDB()` (`connection`);
- `req.formData()` (`request`);
- `JSON.parse` (`parse`);
- the UTC calendar day `new Date` reads from a string that is not an RFC
  3339 full-date, or none when it gives an invalid date (`dateEngine` /
  `otherDates`); the model itself prints that day with `toISOString`, so
  only the parsing is a parameter;
- the `_id` the driver assigns and the clock reading (`id`, `now`);
- `String.prototype.localeCompare` (`collate`, an arbitrary total preorder).

The stores are sequences of records in insertion order.

### Where the behaviour differs from the code's comments

The model follows what the code does where its comments suggest otherwise:

- **Validation runs before the pre-save hooks.** The comments on the two
  hooks (database/event.model.ts:206, database/booking.model.ts:57 and 61)
  describe them as validating the fields and the email format. But
  Mongoose's own validation runs as the first `save` hook. Consequences:
  - a candidate with a blank required field fails with a `ValidationError`
    (400), never with the hook's `"<field> is required and cannot be empty"`;
  - an invalid booking email fails with `"<email> is not a valid email
    address"`, never with the hook's `"Invalid email format"`.

  `EventModel.RequiredFieldsCheckUnreachable` and
  `BookingModel.HookEmailCheckUnreachable` prove that those hook branches
  cannot fire.
- **A text `image` entry is refused late.** A non-empty text entry named
  `image` passes the "Image file is required" check. It then fails at
  `file.arrayBuffer()` with 500 "Failed to process image".
- **Any answer outside 2xx shows an error.** The create page shows the
  answer's `message` for any status outside 2xx, including the 400 and 409
  answers.

## Model

| member | source | states |
|---|---|---|
| Slug.GenerateSlugIsSlug | database/event.model.ts:35-43 | for every title the slug uses only `a-z`, `0-9`, `_`, `-`, never starts or ends with `-` and never holds `--` |
| Slug.SlugWordChars | database/event.model.ts:35-43 | the slug's letters, digits and underscores are exactly the title's, lower-cased, in the same order |
| Slug.SlugEmptyIff | database/event.model.ts:35-43 | the slug is empty exactly when the title has no ASCII letter, digit or underscore |
| Slug.SlugFixpoint | database/event.model.ts:35-43 | a string already in slug form is its own slug |
| Slug.GenerateSlugIdempotent | database/event.model.ts:35-43 | generating a slug from a slug changes nothing |
| Slug.ReplaceRunsNoDoubleHyphen | database/event.model.ts:40-41 | collapsing whitespace and hyphen runs leaves no two adjacent hyphens |
| Slug.SlugSettled | database/event.model.ts:126-131 | the `trim` and `lowercase` setters of `slug` leave a generated slug unchanged |
| DateTime.NormalizeDateOutcome | database/event.model.ts:48-54 | a full-date comes back unchanged; the call throws `Invalid date format: <input>` exactly when the string is no full-date and the engine reads no day; every result is a full-date |
| DateTime.IsoDateReadsBack | database/event.model.ts:53 | printing a valid calendar date as `YYYY-MM-DD` gives a full-date that reads back as the same date |
| DateTime.NormalizeDateKeepsFullDates | database/event.model.ts:48-54 | an RFC 3339 full-date (the format of an HTML date input) is returned unchanged |
| DateTime.FullDateStored | database/event.model.ts:159-163 | a full-date survives both `normalizeDate` and the `trim` setter of `date` |
| DateTime.MatchTimeSound | database/event.model.ts:60-61 | whatever the time regular expression matches is spelled by well-formed captures |
| DateTime.MatchTimeComplete | database/event.model.ts:60-61 | every well-formed set of captures is matched back to itself, so the matcher accepts exactly the regular expression's language |
| DateTime.NormalizeTime | database/event.model.ts:59-79 | the imperative conversion with its mutable `hours` computes the specification `TimeNormalization` |
| DateTime.TwelveHourClock | database/event.model.ts:71-76 | on the hours 1 to 12, AM gives `h mod 12` and PM gives `h mod 12 + 12`, both on a 24-hour clock |
| DateTime.HourTextDigits | database/event.model.ts:78 | the padded hour has at least two digits and reads back as the hour |
| DateTime.NormalizedTimeShape | database/event.model.ts:59-79 | a normalised time is an hour of two or more digits, `:` and the two minute digits copied from the input |
| DateTime.LongHourRejected | database/event.model.ts:60-65 | an hour of three or more digits is rejected |
| DateTime.NormalizationOfMatch | database/event.model.ts:67-78 | a matched string gives digits and `:` and the captured minutes; the digits read as the captured hour `h` without a period, as `h` (0 for 12) with AM and as `h + 12` (12 for 12) with PM; no seconds are kept |
| DateTime.CanonicalTimeKept | database/event.model.ts:59-79 | a 24-hour `HH:MM` string is a fixpoint |
| DateTime.NormalizeTimeIdempotent | database/event.model.ts:59-79 | normalising twice equals normalising once while the converted hour is below 100 |
| DateTime.NormalizeTimeNotIdempotent | database/event.model.ts:59-79 | once the converted hour reaches 100, normalising the result again is an error |
| DateTime.NormalizedTimeTrimmed | database/event.model.ts:164-168 | the `trim` setter of `time` leaves a normalised time unchanged |
| DateTimeExamples.AfternoonExample | database/event.model.ts:72-73 | a PM hour other than 12 gains 12 |
| DateTimeExamples.MidnightExample | database/event.model.ts:74-75 | 12 AM becomes hour 00 |
| DateTimeExamples.NoonExample | database/event.model.ts:72 | 12 PM stays 12 |
| DateTimeExamples.SecondsDroppedExample | database/event.model.ts:60-78 | the seconds group is accepted and dropped |
| DateTimeExamples.TwentyFourHourExample | database/event.model.ts:59-79 | a 24-hour time is kept as it is |
| DateTimeExamples.UncheckedRangeExample | database/event.model.ts:60-78 | out-of-range hours and minutes are accepted unchecked |
| DateTimeExamples.ThreeDigitHourExample | database/event.model.ts:72-78 | a large PM hour gives a three-digit hour |
| DateTimeExamples.TwoSpacesRejected | database/event.model.ts:60 | at most one whitespace character may precede the period |
| DateTimeExamples.NormalizeDateExample | database/event.model.ts:48-54 | a full-date comes back unchanged |
| DateTimeExamples.LeapDayExample | database/event.model.ts:48-54 | 29 February is accepted in a leap year |
| DateTimeExamples.CommonYearExample | database/event.model.ts:48-54 | 29 February of a common year is not a full-date |
| DateTimeExamples.CenturyExample | database/event.model.ts:48-54 | 29 February 1900 is not a full-date |
| DateTimeExamples.InvalidDateExample | database/event.model.ts:50-52 | an unreadable date is the `Invalid date format` error |
| ObjectIds.ParseObjectId | lib/actions/booking.actions.ts:19 | a string converts exactly when it is 24 hexadecimal digits; otherwise the conversion fails with the driver's message |
| ObjectIds.ParsePrintedId | lib/actions/booking.actions.ts:19 | every ObjectId survives printing and parsing |
| ObjectIds.PrintParsedId | database/booking.model.ts:70 | a parsed id prints back as the input in lower case |
| ObjectIds.ParseIgnoresCase | lib/actions/booking.actions.ts:19 | two strings name the same ObjectId exactly when they agree up to letter case |
| Base64.DecodeEncode | app/api/events/route.ts:80-82 | the strict decoder gives back the bytes that were encoded |
| Base64.EncodeDecode | app/api/events/route.ts:80-82 | whatever the strict decoder accepts is exactly the encoding of what it returns |
| Base64.MediaTypeOf | app/api/events/route.ts:83 | an empty file type becomes `image/jpeg` and any other is kept |
| Base64.DataUrlReadsBack | app/api/events/route.ts:83-84 | a `data:` URL gives back its comma-free media type and its bytes |
| Errors.FieldMessages | app/api/events/route.ts:115-117 | one message per validation error, in order |
| Errors.AsException | lib/actions/booking.actions.ts:24-28 | every store error is caught as an `Error` object, so its message and never the fallback is reported |
| EventModel.ValidatedPathsMembers | database/event.model.ts:119-204 | every schema path except `slug` has a validator |
| EventModel.RequiredStringFieldsMembers | database/event.model.ts:85-97 | the eleven fields `validateRequiredFields` checks are exactly the required string paths |
| EventModel.PathError | database/event.model.ts:132-199 | a path reports an error, under that path's name, exactly when one of its validators fails |
| EventModel.SchemaErrorsIff | database/event.model.ts:119-204 | validation reports no error exactly when the document conforms to the schema |
| EventModel.SchemaErrorsPaths | database/event.model.ts:119-204 | the reported errors name exactly the failing paths, once each, in schema order |
| EventModel.BlankTest | database/event.model.ts:101 | `!value \|\| value.trim().length === 0` holds exactly for empty or whitespace-only values |
| EventModel.ValidateRequiredFields | database/event.model.ts:84-114 | the loop throws for the first blank field in the order of its field list, then for an empty `agenda`, then for empty `tags` |
| EventModel.RequiredFieldsCheckUnreachable | database/event.model.ts:207-211 | on a document that passed validation, the hook's field check never throws |
| EventModel.HookTouchesOnlyDerivedPaths | database/event.model.ts:207-229 | the hook checks before it changes anything and changes no path but `slug`, `date` and `time` |
| EventModel.HookFailure | database/event.model.ts:207-229 | the hook fails with the field check's message, else with the first failing normaliser's message |
| EventModel.HookDerivedPaths | database/event.model.ts:213-226 | after a successful hook, `slug` is regenerated if the title was modified or the slug is blank, and `date` and `time` are normalised if modified |
| EventModel.NormalizeStepOk | database/event.model.ts:218-226 | a successful normalising step stores the normalised value of its path if modified, and nothing else |
| EventModel.SlugSetterNoop | database/event.model.ts:126-131 | the `slug` setters leave a generated slug as it is |
| EventModel.DateSetterKeepsFullDate | database/event.model.ts:159-163 | the `date` setter keeps a normalised full-date |
| EventModel.NormalizedDateSettled | database/event.model.ts:218-221 | whatever `normalizeDate` stores is a full-date, which the `date` setter keeps as given |
| EventModel.TimeSetterNoop | database/event.model.ts:164-168 | the `time` setter leaves a normalised time alone |
| EventModel.EventHookDerivedPaths | database/event.model.ts:207-229 | a successful hook on a new event stores `generateSlug(title)`, the normalised date and the normalised time |
| EventModel.EventDocument.constructor | database/event.model.ts:119-204 | a new document holds the candidate's schema paths through their setters, plus its lists |
| EventModel.EventDocument.PreSave | database/event.model.ts:207-229 | the in-place hook leaves the document and failure that the value-level `HookOutcome` describes |
| EventModel.EventDocument.RegenerateSlug | database/event.model.ts:213-216 | the slug is regenerated exactly when the title is modified or the slug is blank; nothing else changes |
| EventModel.EventDocument.NormalizePath | database/event.model.ts:218-226 | a modified path is replaced by its normalised value or the step fails; nothing else changes |
| EventModel.InsertionAccepted | database/event.model.ts:119-232 | an insert succeeds only when validation passed, the hook completed and neither `_id` nor `slug` is taken |
| EventModel.CreationAccepted | database/event.model.ts:119-232 | what a successful `Event.create` went through: validation, hook and both unique indexes |
| EventModel.CreatedRecord | database/event.model.ts:119-232 | a created record conforms, keeps the candidate's set fields, carries the slug of its title, a full-date and the normalised time |
| EventModel.CreationKeepsInvariant | database/event.model.ts:126-131 | creating keeps both unique indexes and the well-formedness of every stored event, whose date is always a full-date |
| EventModel.DuplicateSlugRejected | database/event.model.ts:232 | a title whose slug is stored already is refused; past validation and the hook the refusal is the duplicate-key error of `slug` (or of `_id` when that is taken too) |
| EventModel.InvalidCandidateRejected | database/event.model.ts:119-204 | a candidate that does not conform gives a `ValidationError` listing the failing paths in schema order |
| EventModel.EventStore.constructor | database/event.model.ts:238-240 | the collection starts empty |
| EventModel.EventStore.FindById | database/booking.model.ts:68 | an event is found exactly when its `_id` is stored, and it is the stored event with that id |
| EventModel.EventStore.Create | database/event.model.ts:207-232 | `Event.create` returns `Creation` of the old events and appends the record exactly on success, keeping the collection invariant |
| BookingModel.EmailTestIff | database/booking.model.ts:25 | the test accepts exactly the strings of the regular expression: a local part, one `@` and a domain with an inner dot |
| BookingModel.SplitUnique | database/booking.model.ts:25 | a matching address has exactly one `@` |
| BookingModel.IsValidEmailIff | database/booking.model.ts:24-27 | `isValidEmail` holds exactly when the trimmed string matches |
| BookingModel.ValidEmailIgnoresSurroundingSpace | database/booking.model.ts:26 | whitespace around the address never changes the verdict |
| BookingModel.SetEmailNormal | database/booking.model.ts:40-44 | a stored email is trimmed and lower-cased, and the setters do nothing when run again |
| BookingModel.SetterKeepsVerdict | database/booking.model.ts:40-49 | the validator, which sees the email after the setters, gives the verdict the raw email gets |
| Text.TrimLowerCommute | database/booking.model.ts:43-44 | trimming and lower-casing commute, so the setters' order does not matter |
| BookingModel.ValidEmailNotEmpty | database/booking.model.ts:42-46 | a valid email is not empty, so `required` never fails where the validator passes |
| BookingModel.InvalidEmailRejectedFirst | database/booking.model.ts:45-49 | an invalid email gives the `ValidationError` for `email` whatever the stored events, with no lookup |
| BookingModel.HookEmailCheckUnreachable | database/booking.model.ts:61-64 | past validation, the hook's `Invalid email format` branch never fires |
| BookingModel.MissingEventRejected | database/booking.model.ts:66-71 | a valid email for an event that is not stored fails with `Event with ID <id> does not exist` |
| BookingModel.BookingAcceptedIff | database/booking.model.ts:32-77 | a booking is stored exactly when the email is valid, the event exists and the `_id` is fresh; it holds the set email and equal timestamps |
| BookingModel.RepeatBookingAccepted | database/booking.model.ts:38 | the `eventId` index is not unique, so the same email may book the same event again |
| BookingModel.BookingCreationKeepsInvariant | database/booking.model.ts:32-77 | creating keeps `_id` unique and every stored booking well formed |
| BookingModel.BookingPreSave | database/booking.model.ts:58-77 | the hook, with its `findById` call, returns the failure `BookingHook` describes |
| BookingModel.BookingStore.constructor | database/booking.model.ts:32-55 | the collection starts empty |
| BookingModel.BookingStore.Create | database/booking.model.ts:32-77 | `Booking.create` returns `BookingCreation` of the old bookings and appends exactly on success, keeping the invariant |
| BookingActions.ActionAlwaysAnswers | lib/actions/booking.actions.ts:8-31 | nothing escapes: an error message comes exactly with failure, and only success writes one booking |
| BookingActions.ActionSucceedsIff | lib/actions/booking.actions.ts:15-23 | success exactly when the connection is up, the id has 24 hex digits, the email is valid, the event exists and the `_id` is fresh |
| BookingActions.StoreErrorReported | lib/actions/booking.actions.ts:24-29 | a store error reaches the caller as its message |
| BookingActions.ConnectionFailureReported | lib/actions/booking.actions.ts:16 | a connection failure reports its message, or `Unknown error` for a non-`Error` value, with no write |
| BookingActions.MalformedIdNoWrite | lib/actions/booking.actions.ts:19 | an id that is not 24 hex digits answers with the conversion's message and writes nothing |
| BookingActions.CreateBooking | lib/actions/booking.actions.ts:8-31 | the action's result and the bookings afterwards are `BookingActionRun` of the old bookings |
| EventsRoute.FromEntriesKeys | app/api/events/route.ts:15 | the object has a key for each form entry name and no other |
| EventsRoute.FromEntriesLast | app/api/events/route.ts:15 | a key holds the value of the last entry with that name |
| EventsRoute.KeepEntriesFails | app/api/events/route.ts:59-60 | the filter throws exactly when a truthy entry is not a string |
| EventsRoute.KeepEntriesKept | app/api/events/route.ts:59-60 | otherwise it keeps exactly the non-blank strings, in order |
| EventsRoute.ResponseMessage | app/api/events/route.ts:24-143 | every outcome's `message` is non-empty |
| EventsRoute.ImageCheckedFirst | app/api/events/route.ts:24-31 | a missing or empty image is refused with 400 before the lists are read |
| EventsRoute.ListChecks | app/api/events/route.ts:33-76 | the list checks decide in the handler's order, and lists that pass are non-empty and hold no blank entry |
| EventsRoute.ListFailuresAre400 | app/api/events/route.ts:41-75 | every failed list check answers 400 |
| EventsRoute.SubmittedCandidate | app/api/events/route.ts:78-104 | the candidate has the image as a base 64 `data:` URL of the file, the filtered lists, and every other text entry as its last value |
| EventsRoute.SubmittedImageReadsBack | app/api/events/route.ts:78-86 | the stored image reads back as the file's media type (or `image/jpeg`) and its bytes |
| EventsRoute.AnswerStatus | app/api/events/route.ts:98-133 | 201 with the created event, 400 with one message per failed path, 409 for a duplicate key, 500 otherwise; only 201 writes |
| EventsRoute.DuplicateTitleConflict | app/api/events/route.ts:124-130 | a valid form whose title gives a stored slug answers 409 and writes nothing |
| EventsRoute.PostWritesOnlyOnCreate | app/api/events/route.ts:6-144 | status 201 exactly on creation, the store changes only then and only by that event, and a connection or form-data failure answers 500 |
| EventsRoute.Post | app/api/events/route.ts:6-144 | the handler with its early returns computes `PostRun` and leaves the store `PostRun` gives |
| EventsRoute.NewerOrSameTotalPreorder | app/api/events/route.ts:150 | the `createdAt` descending comparison is a total preorder |
| EventsRoute.GetRun | app/api/events/route.ts:146-161 | 200 with every stored event exactly once, newest first, when connected, otherwise 500 |
| Text.LexLeTotalPreorder | app/events/page.tsx:40 | the default sort's code-unit order is a total preorder |
| Text.ContainsIff | app/events/page.tsx:52-55 | `includes` holds exactly when the query occurs at some position |
| EventsPage.LocationsMembers | app/events/page.tsx:39 | the mapped locations are exactly the events' locations |
| EventsPage.UniqueLocations | app/events/page.tsx:38-41 | each location of an event appears exactly once, and nothing else, sorted |
| EventsPage.UniqueLocationsIncrease | app/events/page.tsx:38-41 | the locations strictly increase |
| EventsPage.OrderTotalPreorder | app/events/page.tsx:70-89 | each of the four sort comparisons is a total preorder |
| EventsPage.SortedMeaning | app/events/page.tsx:70-89 | sorted means newest first, oldest first, titles ascending or titles descending under `collate` |
| EventsPage.BlankQueryShowsAll | app/events/page.tsx:48 | a blank query with the other filters off shows every event |
| EventsPage.ShownSubsequence | app/events/page.tsx:44-67 | the filtered events are a subsequence of the events holding exactly those that pass every active filter |
| EventsPage.FilteredAndSorted | app/events/page.tsx:44-92 | the result is a permutation of the events passing all three filters, ordered as the sort option demands |
| CreateEventPage.DropIndexSpec | app/create-event/page.tsx:55 | dropping an index removes exactly that element and keeps the rest in order; an out-of-range index drops nothing |
| CreateEventPage.EventEditor.constructor | app/create-event/page.tsx:11-12 | both editors start with one empty box |
| CreateEventPage.EventEditor.AddAgendaItem | app/create-event/page.tsx:49-51 | appends one empty agenda box; tags unchanged |
| CreateEventPage.EventEditor.RemoveAgendaItem | app/create-event/page.tsx:53-57 | drops the box at the index only while more than one remains, so at least one box is always left |
| CreateEventPage.EventEditor.UpdateAgendaItem | app/create-event/page.tsx:59-63 | overwrites exactly one agenda box |
| CreateEventPage.EventEditor.AddTag | app/create-event/page.tsx:65-67 | appends one empty tag box; agenda unchanged |
| CreateEventPage.EventEditor.RemoveTag | app/create-event/page.tsx:69-73 | drops the tag box at the index only while more than one remains |
| CreateEventPage.EventEditor.UpdateTag | app/create-event/page.tsx:75-79 | overwrites exactly one tag box |
| CreateEventPage.EventEditor.SubmittedLists | app/create-event/page.tsx:23-28 | the lists sent are the boxes whose trimmed text is non-empty, in order |
| CreateEventPage.FilledIsNotBlank | app/create-event/page.tsx:23 | the page's `item.trim() !== ""` is the model's test for a non-blank entry |
| CreateEventPage.SubmittedEntries | app/create-event/page.tsx:23-28 | what is sent is a subsequence of the boxes holding exactly their non-blank entries |
| CreateEventPage.RouteKeepsSubmitted | app/api/events/route.ts:59-60 | the route's filter drops nothing of what the page sends |
| CreateEventPage.SubmittedListsAccepted | app/create-event/page.tsx:23-28 | the page's lists pass the route's filter unchanged, and are non-empty exactly when an editor has a non-blank box |
| CreateEventPage.ReactTo | app/create-event/page.tsx:35-43 | navigates to `/event/<slug>` exactly on creation; otherwise it shows the response's message, or the caught error's |

## Left out

- Connections, `console.error` and the React state flags (`isSubmitting`, `loading`, `error`) are left out; the connection and the request body are parameters.
- Concurrency is left out: two requests racing for one slug are not modelled, and each call runs alone against the store.
- `Object.fromEntries` over form entries cannot throw, so the route's "Invalid form data format" branch cannot be reached and is not modelled.
- A non-image file entry (any name but `image`) is dropped from the candidate, where Mongoose would report a cast error for it.
- The `catch` around `Event.findById` in the booking hook (a database error during the lookup) is left out; the lookup is a read of the stored events.
- `normalizeDate` on strings that are not an RFC 3339 full-date depends on the JavaScript engine's date parser, which is the `dateEngine` parameter; a day whose year is outside 0 to 9999, which `toISOString` prints with a sign and six digits, is not modelled.
- `String.prototype.localeCompare` is an arbitrary total preorder `collate`; locale data is not modelled.
- The `GET` route's `error: e` body field is left out: a failed listing carries no error value.
- `Array.prototype.sort` is modelled on values by an insertion sort: the page's in-place sort of its copy is a function, and the order of equal elements is not fixed.
- Mongoose's `timestamps` use one clock reading `now` for both `createdAt` and `updatedAt`.
- Form entries named `_id`, `createdAt` or `updatedAt` are dropped with every other name outside the schema's paths: the event's id is always the driver's `id` and its timestamps are `now`. Mongoose would use a 24-hex `_id` from the form, answer 400 for any other `_id`, and may keep a submitted `createdAt`.
- The duplicate-key message is shortened to `E11000 duplicate key error index: <index>`; the server's text also names the collection and the duplicate key.
- `String.prototype.toLowerCase` is modelled on ASCII letters only, and strings are sequences of characters, not UTF-16 code units.
- EventsRoute.SubmittedImageReadsBack: holds only for a file media type without a comma, which a `data:` URL cannot carry unescaped.
- CreateEventPage.EventEditor.UpdateAgendaItem: requires the index of an existing box, the only index the page passes; a JavaScript write past the end would pad the array with holes.
- CreateEventPage.EventEditor.UpdateTag: requires the index of an existing box, for the same reason.
- The pages' rendering, the router and the other components (`BookEvent`, `EventDetails`, `EventsList`, `ExploreBtn`) are not part of this model.

/**
 * The Event model: the schema's setters and validators, `validateRequiredFields`,
 * the pre-save hook that derives `slug` and normalises `date` and `time`, and
 * the collection with its unique indexes on `_id` and `slug`.
 *
 * Saving a new document runs, in this order: the setters (when the document is
 * built), the schema validators (all paths, one error per path), the pre-save
 * hook, and the insert, which the unique indexes may refuse.
 */
module EventModel {
  import opened Wrappers
  import opened Seqs
  import opened Text
  import opened Slug
  import opened DateTime
  import opened ObjectIds
  import opened Errors

  /** The paths of the schema, in schema order. */
  datatype Path =
    | Title | Slug | Description | Overview | Image | Venue | Location | Date | Time
    | Mode | Audience | Agenda | Organizer | Tags

  function PathName(p: Path): string {
    match p
    case Title => "title"
    case Slug => "slug"
    case Description => "description"
    case Overview => "overview"
    case Image => "image"
    case Venue => "venue"
    case Location => "location"
    case Date => "date"
    case Time => "time"
    case Mode => "mode"
    case Audience => "audience"
    case Agenda => "agenda"
    case Organizer => "organizer"
    case Tags => "tags"
  }

  /** The string-valued paths: every path but the two arrays. */
  predicate IsStringPath(p: Path) {
    p != Agenda && p != Tags
  }

  const MaxTextLength: nat := 500
  const Modes: seq<string> := ["online", "offline", "hybrid"]

  /** The paths in schema order. */
  const SchemaPaths: seq<Path> := [Title, Slug, Description, Overview, Image, Venue, Location, Date, Time, Mode, Audience, Agenda, Organizer, Tags]

  /** The paths the schema validates, in schema order: all but `slug`, which has no validator. */
  const ValidatedPaths: seq<Path> := SchemaPaths[..1] + SchemaPaths[2..]

  /**
   * The string fields `validateRequiredFields` checks, in its order: the
   * validated paths but the two arrays.
   */
  const RequiredStringFields: seq<Path> := ValidatedPaths[..10] + ValidatedPaths[11..12]

  /** The paths whose value must be a non-empty string: all but `slug` and the two arrays. */
  predicate Required(p: Path) {
    p != Slug && p != Agenda && p != Tags
  }

  lemma ValidatedPathsMembers()
    ensures forall p :: p in ValidatedPaths <==> p != Slug
  {
    assert ValidatedPaths == [Title, Description, Overview, Image, Venue, Location, Date, Time, Mode, Audience, Agenda, Organizer, Tags];
  }

  lemma RequiredStringFieldsMembers()
    ensures forall p :: p in RequiredStringFields <==> Required(p)
  {
    assert RequiredStringFields == [Title, Description, Overview, Image, Venue, Location, Date, Time, Mode, Audience, Organizer];
  }

  /**
   * What `Event.create` is given: named string values (any names) and the two
   * arrays; an array that is not given is `[]`, the Mongoose default.
   */
  datatype Candidate = Candidate(strings: map<string, string>, agenda: seq<string>, tags: seq<string>)

  /** A stored event. */
  datatype EventRecord = EventRecord(
    id: ObjectId,
    title: string, slug: string, description: string, overview: string, image: string,
    venue: string, location: string, date: string, time: string, mode: string,
    audience: string, agenda: seq<string>, organizer: string, tags: seq<string>,
    createdAt: int, updatedAt: int)

  // ---- setters ----

  /** The setters: `trim` on every string path but `mode`; `slug` is lower-cased as well. */
  function SetPath(p: Path, value: string): string {
    if p == Mode then value
    else if p == Slug then Lower(Trim(value))
    else Trim(value)
  }

  /** The string fields of a new document: schema paths only (strict mode), each through its setter. */
  function Cast(strings: map<string, string>): map<Path, string> {
    map p | IsStringPath(p) && PathName(p) in strings :: SetPath(p, strings[PathName(p)])
  }

  /** A path's value; an unset path reads as `""`, and every test of the schema and the hook treats the two alike. */
  function Lookup(d: map<Path, string>, p: Path): string {
    if p in d then d[p] else ""
  }

  // ---- schema validation ----

  /** Which validator of a path failed. */
  datatype Violation = Missing | TooLong | NotInEnum | EmptyArray

  /**
   * The first failing validator of one path: `required` first (an empty array
   * passes it), then `maxLength`, `enum` or the custom array validator.
   */
  function PathViolation(d: map<Path, string>, agenda: seq<string>, tags: seq<string>, p: Path): Option<Violation> {
    if p == Agenda then (if agenda == [] then Some(EmptyArray) else None)
    else if p == Tags then (if tags == [] then Some(EmptyArray) else None)
    else if |Lookup(d, p)| == 0 then Some(Missing)
    else if (p == Description || p == Overview) && |Lookup(d, p)| > MaxTextLength then Some(TooLong)
    else if p == Mode && Lookup(d, p) !in Modes then Some(NotInEnum)
    else None
  }

  /** The message a failed validator reports; `value` is the path's value. */
  function ViolationMessage(p: Path, v: Violation, value: string): string {
    match v
    case Missing => RequiredMessage(PathName(p))
    case TooLong => (if p == Description then "Description" else "Overview") + " cannot exceed 500 characters"
    case NotInEnum => "`" + value + "` is not a valid enum value for path `mode`."
    case EmptyArray => PathName(p) + " must be a non-empty array"
  }

  /** The error one path contributes, reported under the path's own name. */
  function PathError(d: map<Path, string>, agenda: seq<string>, tags: seq<string>, p: Path): (r: Option<FieldError>)
    ensures r.Some? <==> PathViolation(d, agenda, tags, p).Some?
    ensures r.Some? ==> r.value.path == PathName(p)
  {
    match PathViolation(d, agenda, tags, p)
    case Some(v) => Some(FieldError(PathName(p), ViolationMessage(p, v, Lookup(d, p))))
    case None => None
  }

  /** The validators of a document, path by path. */
  function Validators(d: map<Path, string>, agenda: seq<string>, tags: seq<string>): Path -> Option<FieldError> {
    p => PathError(d, agenda, tags, p)
  }

  /** The `errors` of the `ValidationError`, in schema order. */
  function SchemaErrors(d: map<Path, string>, agenda: seq<string>, tags: seq<string>): seq<FieldError> {
    Collect(ValidatedPaths, Validators(d, agenda, tags))
  }

  /** What the schema demands of a document. */
  predicate Conforms(d: map<Path, string>, agenda: seq<string>, tags: seq<string>) {
    && (forall p :: Required(p) ==> |Lookup(d, p)| > 0)
    && |Lookup(d, Description)| <= MaxTextLength
    && |Lookup(d, Overview)| <= MaxTextLength
    && Lookup(d, Mode) in Modes
    && agenda != [] && tags != []
  }

  lemma ValidatorsPassConforms(d: map<Path, string>, agenda: seq<string>, tags: seq<string>)
    requires forall p :: p in ValidatedPaths ==> PathViolation(d, agenda, tags, p).None?
    ensures Conforms(d, agenda, tags)
  {
    ValidatedPathsMembers();
    assert PathViolation(d, agenda, tags, Description).None?;
    assert PathViolation(d, agenda, tags, Overview).None?;
    assert PathViolation(d, agenda, tags, Mode).None?;
    assert PathViolation(d, agenda, tags, Agenda).None?;
    assert PathViolation(d, agenda, tags, Tags).None?;
    forall p | Required(p) ensures |Lookup(d, p)| > 0 {
      assert PathViolation(d, agenda, tags, p).None?;
    }
  }

  lemma ConformsValidatorsPass(d: map<Path, string>, agenda: seq<string>, tags: seq<string>)
    requires Conforms(d, agenda, tags)
    ensures forall p :: p in ValidatedPaths ==> PathViolation(d, agenda, tags, p).None?
  {
    ValidatedPathsMembers();
    ConformingPathsPass(d, agenda, tags);
  }

  lemma ConformingPathsPass(d: map<Path, string>, agenda: seq<string>, tags: seq<string>)
    requires Conforms(d, agenda, tags)
    ensures forall p :: p != Slug ==> PathViolation(d, agenda, tags, p).None?
  {
    forall p | p != Slug ensures PathViolation(d, agenda, tags, p).None? {
      if IsStringPath(p) {
        assert Required(p);
      }
    }
  }

  /** Validation passes exactly when the document conforms. */
  lemma SchemaErrorsIff(d: map<Path, string>, agenda: seq<string>, tags: seq<string>)
    ensures SchemaErrors(d, agenda, tags) == [] <==> Conforms(d, agenda, tags)
  {
    var v := Validators(d, agenda, tags);
    CollectEmptyIff(ValidatedPaths, v);
    assert forall p :: v(p).None? <==> PathViolation(d, agenda, tags, p).None?;
    if SchemaErrors(d, agenda, tags) == [] {
      ValidatorsPassConforms(d, agenda, tags);
    }
    if Conforms(d, agenda, tags) {
      ConformsValidatorsPass(d, agenda, tags);
    }
  }

  /** The paths whose validators fail. */
  function Failing(d: map<Path, string>, agenda: seq<string>, tags: seq<string>): Path -> bool {
    p => PathViolation(d, agenda, tags, p).Some?
  }

  /** The reported errors name exactly the paths whose validators fail, in schema order. */
  lemma SchemaErrorsPaths(d: map<Path, string>, agenda: seq<string>, tags: seq<string>)
    ensures Map(SchemaErrors(d, agenda, tags), ErrorPath) == Map(Filter(ValidatedPaths, Failing(d, agenda, tags)), PathName)
  {
    CollectKeys(ValidatedPaths, Validators(d, agenda, tags), Failing(d, agenda, tags), ErrorPath, PathName);
  }

  // ---- validateRequiredFields ----

  /** A value `validateRequiredFields` rejects: empty or whitespace only. */
  predicate Blank(value: string) {
    forall i :: 0 <= i < |value| ==> IsSpace(value[i])
  }

  /** The test `validateRequiredFields` writes, `!value || value.trim().length === 0`, is `Blank`. */
  lemma BlankTest(value: string)
    ensures (|value| == 0 || |Trim(value)| == 0) <==> Blank(value)
  {
    TrimEmptyIff(value);
  }

  /** The test `validateRequiredFields` applies to each field of `d`. */
  function BlankIn(d: map<Path, string>): Path -> bool {
    p => Blank(Lookup(d, p))
  }

  /** Why `validateRequiredFields` throws. */
  datatype MissingField = BlankField(field: Path) | NoAgenda | NoTags

  /** The message `validateRequiredFields` throws. */
  function MissingFieldMessage(m: MissingField): string {
    match m
    case BlankField(f) => PathName(f) + " is required and cannot be empty"
    case NoAgenda => "agenda is required and must contain at least one item"
    case NoTags => "tags is required and must contain at least one item"
  }

  /** What `validateRequiredFields` throws for, if it throws: the first blank field, then the arrays. */
  function RequiredFieldsFailure(d: map<Path, string>, agenda: seq<string>, tags: seq<string>): Option<MissingField> {
    match FirstWhere(RequiredStringFields, BlankIn(d))
    case Some(f) => Some(BlankField(f))
    case None =>
      if agenda == [] then Some(NoAgenda)
      else if tags == [] then Some(NoTags)
      else None
  }

  /** `validateRequiredFields(doc)`: `None` when it returns normally, else why it throws. */
  method ValidateRequiredFields(doc: EventDocument) returns (failure: Option<MissingField>)
    ensures failure == RequiredFieldsFailure(doc.strings, doc.agenda, doc.tags)
  {
    var requiredStringFields := RequiredStringFields;
    var d := doc.strings;
    var i := 0;
    while i < |requiredStringFields|
      invariant 0 <= i <= |requiredStringFields|
      invariant forall j :: 0 <= j < i ==> !BlankIn(d)(requiredStringFields[j])
    {
      var field := requiredStringFields[i];
      var value := Lookup(d, field);
      if Blank(value) {
        FirstWhereAt(requiredStringFields, BlankIn(d), i);
        return Some(BlankField(field));
      }
      i := i + 1;
    }
    FirstWhereNone(requiredStringFields, BlankIn(d));
    if doc.agenda == [] {
      return Some(NoAgenda);
    }
    if doc.tags == [] {
      return Some(NoTags);
    }
    return None;
  }

  lemma ModesNotBlank(m: string)
    requires m in Modes
    ensures !Blank(m)
  {
    assert m[0] == 'o' || m[0] == 'h';
  }

  /**
   * Within `Event.create` the hook's own field check can never fail: the
   * setters trimmed every checked field but `mode`, whose value the `enum`
   * validator has restricted to words without whitespace.
   */
  lemma RequiredFieldsCheckUnreachable(strings: map<string, string>, agenda: seq<string>, tags: seq<string>)
    requires SchemaErrors(Cast(strings), agenda, tags) == []
    ensures RequiredFieldsFailure(Cast(strings), agenda, tags).None?
  {
    var d := Cast(strings);
    SchemaErrorsIff(d, agenda, tags);
    RequiredStringFieldsMembers();
    forall j | 0 <= j < |RequiredStringFields| ensures !BlankIn(d)(RequiredStringFields[j]) {
      FieldNotBlank(strings, agenda, tags, RequiredStringFields[j]);
    }
    FirstWhereNone(RequiredStringFields, BlankIn(d));
  }

  lemma FieldNotBlank(strings: map<string, string>, agenda: seq<string>, tags: seq<string>, p: Path)
    requires Conforms(Cast(strings), agenda, tags)
    requires Required(p)
    ensures !Blank(Lookup(Cast(strings), p))
  {
    var d := Cast(strings);
    if p == Mode {
      ModesNotBlank(Lookup(d, p));
    } else {
      var raw := strings[PathName(p)];
      TrimmedNotBlank(raw, Lookup(d, p));
    }
  }

  lemma TrimmedNotBlank(raw: string, v: string)
    requires v == Trim(raw) && |v| > 0
    ensures !Blank(v)
  {
  }

  // ---- the pre-save hook ----

  /**
   * `if (event.isModified("title") || !event.slug) event.slug = slugOf(event.title)`,
   * through the setter.
   */
  function SlugStep(d: map<Path, string>, modified: set<Path>, slugOf: string -> string): map<Path, string> {
    if Title in modified || |Lookup(d, Slug)| == 0 then d[Slug := SetPath(Slug, slugOf(Lookup(d, Title)))] else d
  }

  /**
   * `if (event.isModified(p)) event[p] = normalize(event[p])`, through the
   * setter; an `Err` is the message `normalize` throws.
   */
  function NormalizeStep(d: map<Path, string>, modified: set<Path>, p: Path, normalize: string -> Result<string, string>): Result<map<Path, string>, string> {
    if p !in modified then Ok(d)
    else
      match normalize(Lookup(d, p))
      case Err(m) => Err(m)
      case Ok(v) => Ok(d[p := SetPath(p, v)])
  }

  /**
   * The pre-save hook once `validateRequiredFields` has returned `failure`, for
   * a slug generator `slugOf` and date and time normalisers `dateOf` and
   * `timeOf`: the message the hook throws, if any, and the string fields it
   * leaves behind.
   */
  function Hook(d: map<Path, string>, failure: Option<string>, modified: set<Path>, slugOf: string -> string,
                dateOf: string -> Result<string, string>, timeOf: string -> Result<string, string>): (Option<string>, map<Path, string>)
  {
    if failure.Some? then (failure, d)
    else
      var d1 := SlugStep(d, modified, slugOf);
      match NormalizeStep(d1, modified, Date, dateOf)
      case Err(m) => (Some(m), d1)
      case Ok(d2) =>
        match NormalizeStep(d2, modified, Time, timeOf)
        case Err(m) => (Some(m), d2)
        case Ok(d3) => (None, d3)
  }

  /** The hook validates before it changes anything, and it changes no path but `slug`, `date` and `time`. */
  lemma HookTouchesOnlyDerivedPaths(d: map<Path, string>, failure: Option<string>, modified: set<Path>, slugOf: string -> string,
                                    dateOf: string -> Result<string, string>, timeOf: string -> Result<string, string>)
    ensures failure.Some? ==> Hook(d, failure, modified, slugOf, dateOf, timeOf) == (failure, d)
    ensures var d' := Hook(d, failure, modified, slugOf, dateOf, timeOf).1;
      forall p :: p != Slug && p != Date && p != Time ==> (p in d' <==> p in d) && Lookup(d', p) == Lookup(d, p)
  {
  }

  /**
   * The hook throws what `validateRequiredFields` threw, else what normalising
   * a modified date throws, else what normalising a modified time throws.
   */
  lemma HookFailure(d: map<Path, string>, failure: Option<string>, modified: set<Path>, slugOf: string -> string,
                    dateOf: string -> Result<string, string>, timeOf: string -> Result<string, string>)
    ensures Hook(d, failure, modified, slugOf, dateOf, timeOf).0 ==
      if failure.Some? then failure
      else if Date in modified && dateOf(Lookup(d, Date)).Err? then Some(dateOf(Lookup(d, Date)).error)
      else if Time in modified && timeOf(Lookup(d, Time)).Err? then Some(timeOf(Lookup(d, Time)).error)
      else None
  {
  }

  /**
   * When the hook completes, `slug` is regenerated from the title exactly when
   * the title was modified or the slug was empty, and `date` and `time` hold
   * their normalised forms exactly when they were modified.
   */
  lemma HookDerivedPaths(d: map<Path, string>, failure: Option<string>, modified: set<Path>, slugOf: string -> string,
                         dateOf: string -> Result<string, string>, timeOf: string -> Result<string, string>)
    requires Hook(d, failure, modified, slugOf, dateOf, timeOf).0.None?
    ensures Date in modified ==> dateOf(Lookup(d, Date)).Ok?
    ensures Time in modified ==> timeOf(Lookup(d, Time)).Ok?
    ensures var d' := Hook(d, failure, modified, slugOf, dateOf, timeOf).1;
      && Lookup(d', Slug) == (if Title in modified || |Lookup(d, Slug)| == 0 then SetPath(Slug, slugOf(Lookup(d, Title))) else Lookup(d, Slug))
      && Lookup(d', Date) == (if Date in modified then SetPath(Date, dateOf(Lookup(d, Date)).value) else Lookup(d, Date))
      && Lookup(d', Time) == (if Time in modified then SetPath(Time, timeOf(Lookup(d, Time)).value) else Lookup(d, Time))
  {
    var d1 := SlugStep(d, modified, slugOf);
    NormalizeStepOk(d1, modified, Date, dateOf);
    var d2 := NormalizeStep(d1, modified, Date, dateOf).value;
    NormalizeStepOk(d2, modified, Time, timeOf);
  }

  /** A normalising step that succeeds stores the normalised value of its path, if modified, and nothing else. */
  lemma NormalizeStepOk(d: map<Path, string>, modified: set<Path>, p: Path, normalize: string -> Result<string, string>)
    requires NormalizeStep(d, modified, p, normalize).Ok?
    ensures var d' := NormalizeStep(d, modified, p, normalize).value;
      && (p in modified ==> normalize(Lookup(d, p)).Ok? && Lookup(d', p) == SetPath(p, normalize(Lookup(d, p)).value))
      && (p !in modified ==> d' == d)
      && forall q :: q != p ==> (q in d' <==> q in d) && Lookup(d', q) == Lookup(d, q)
  {
  }

  /** `normalizeDate` as a function of the date string alone. */
  function DateNormalizer(dateEngine: string -> Option<EngineDate>): string -> Result<string, string> {
    s => NormalizeDate(s, dateEngine)
  }

  /** The message thrown for a failed field check. */
  function FailureMessage(m: Option<MissingField>): Option<string> {
    if m.Some? then Some(MissingFieldMessage(m.value)) else None
  }

  /** The Event model's hook: its own field check, `generateSlug`, `normalizeDate` and `normalizeTime`. */
  function HookOutcome(d: map<Path, string>, agenda: seq<string>, tags: seq<string>, modified: set<Path>,
                       dateEngine: string -> Option<EngineDate>): (Option<string>, map<Path, string>)
  {
    Hook(d, FailureMessage(RequiredFieldsFailure(d, agenda, tags)), modified, GenerateSlug, DateNormalizer(dateEngine), TimeNormalization)
  }

  /** The setter of `slug` leaves a generated slug as it is. */
  lemma SlugSetterNoop(title: string)
    ensures SetPath(Slug, GenerateSlug(title)) == GenerateSlug(title)
  {
    GenerateSlugIsSlug(title);
    SlugSettled(GenerateSlug(title));
  }

  /** The setter of `date` keeps a normalised full-date as given. */
  lemma DateSetterKeepsFullDate(s: string, dateEngine: string -> Option<EngineDate>)
    requires IsFullDate(s)
    ensures NormalizeDate(s, dateEngine) == Ok(s) && SetPath(Date, s) == s
  {
    NormalizeDateKeepsFullDates(s, dateEngine);
    FullDateStored(s, dateEngine, s);
  }

  /** Whatever `normalizeDate` returns is a full-date, which the setter of `date` keeps as given. */
  lemma NormalizedDateSettled(s: string, dateEngine: string -> Option<EngineDate>)
    requires NormalizeDate(s, dateEngine).Ok?
    ensures IsFullDate(NormalizeDate(s, dateEngine).value)
    ensures SetPath(Date, NormalizeDate(s, dateEngine).value) == NormalizeDate(s, dateEngine).value
  {
    var v := NormalizeDate(s, dateEngine).value;
    NormalizeDateOutcome(s, dateEngine);
    FullDateTrimmed(v);
  }

  /** The setter of `time` leaves a normalised time as it is. */
  lemma TimeSetterNoop(s: string)
    requires TimeNormalization(s).Ok?
    ensures SetPath(Time, TimeNormalization(s).value) == TimeNormalization(s).value
  {
    NormalizedTimeTrimmed(s, TimeNormalization(s).value);
  }

  /**
   * When the Event model's hook completes, the slug is the one generated from
   * the title (the setter changes nothing), a modified full-date is kept as
   * given and a modified time is the normalised one.
   */
  lemma EventHookDerivedPaths(d: map<Path, string>, agenda: seq<string>, tags: seq<string>, modified: set<Path>,
                              dateEngine: string -> Option<EngineDate>)
    requires HookOutcome(d, agenda, tags, modified, dateEngine).0.None?
    ensures var d' := HookOutcome(d, agenda, tags, modified, dateEngine).1;
      && Lookup(d', Slug) == (if Title in modified || |Lookup(d, Slug)| == 0 then GenerateSlug(Lookup(d, Title)) else Lookup(d, Slug))
      && (Date in modified && IsFullDate(Lookup(d, Date)) ==> Lookup(d', Date) == Lookup(d, Date))
      && (Time in modified ==> TimeNormalization(Lookup(d, Time)) == Ok(Lookup(d', Time)))
  {
    var failure := FailureMessage(RequiredFieldsFailure(d, agenda, tags));
    HookFailure(d, failure, modified, GenerateSlug, DateNormalizer(dateEngine), TimeNormalization);
    HookDerivedPaths(d, failure, modified, GenerateSlug, DateNormalizer(dateEngine), TimeNormalization);
    SlugSetterNoop(Lookup(d, Title));
    if Date in modified && IsFullDate(Lookup(d, Date)) {
      DateSetterKeepsFullDate(Lookup(d, Date), dateEngine);
    }
    if Time in modified {
      TimeSetterNoop(Lookup(d, Time));
    }
  }

  /** A document whose fields the pre-save hook rewrites in place. */
  class EventDocument {
    var strings: map<Path, string>
    var agenda: seq<string>
    var tags: seq<string>

    /** `new Event(candidate)`: the setters run as the fields are set. */
    constructor (c: Candidate)
      ensures strings == Cast(c.strings) && agenda == c.agenda && tags == c.tags
    {
      strings := Cast(c.strings);
      agenda := c.agenda;
      tags := c.tags;
    }

    /** The pre-save hook; `modified` holds the paths `isModified` reports. */
    method PreSave(modified: set<Path>, dateEngine: string -> Option<EngineDate>) returns (failure: Option<string>)
      modifies this
      ensures (failure, strings) == HookOutcome(old(strings), old(agenda), old(tags), modified, dateEngine)
      ensures agenda == old(agenda) && tags == old(tags)
    {
      var missing := ValidateRequiredFields(this);
      if missing.Some? {
        return Some(MissingFieldMessage(missing.value));
      }
      RegenerateSlug(modified);
      failure := NormalizePath(Date, modified, DateNormalizer(dateEngine));
      if failure.Some? {
        return;
      }
      failure := NormalizePath(Time, modified, TimeNormalization);
    }

    /** The hook's first step: the slug from the title. */
    method RegenerateSlug(modified: set<Path>)
      modifies this
      ensures strings == SlugStep(old(strings), modified, GenerateSlug)
      ensures agenda == old(agenda) && tags == old(tags)
    {
      if Title in modified || |Lookup(strings, Slug)| == 0 {
        strings := strings[Slug := SetPath(Slug, GenerateSlug(Lookup(strings, Title)))];
      }
    }

    /**
     * The hook's date and time steps: path `p` normalised by `normalize` when
     * it was modified, or the message `normalize` throws.
     */
    method NormalizePath(p: Path, modified: set<Path>, normalize: string -> Result<string, string>) returns (failure: Option<string>)
      modifies this
      ensures var r := NormalizeStep(old(strings), modified, p, normalize);
        && (failure.Some? <==> r.Err?)
        && (r.Err? ==> failure.value == r.error && strings == old(strings))
        && (r.Ok? ==> strings == r.value)
      ensures agenda == old(agenda) && tags == old(tags)
    {
      failure := None;
      if p in modified {
        var normalized := normalize(Lookup(strings, p));
        if normalized.Err? {
          return Some(normalized.error);
        }
        strings := strings[p := SetPath(p, normalized.value)];
      }
    }
  }

  // ---- the collection ----

  /** The stored record of a saved document. */
  function Record(d: map<Path, string>, agenda: seq<string>, tags: seq<string>, id: ObjectId, now: int): EventRecord {
    EventRecord(id,
      Lookup(d, Title), Lookup(d, Slug), Lookup(d, Description), Lookup(d, Overview), Lookup(d, Image),
      Lookup(d, Venue), Lookup(d, Location), Lookup(d, Date), Lookup(d, Time), Lookup(d, Mode),
      Lookup(d, Audience), agenda, Lookup(d, Organizer), tags, now, now)
  }

  predicate IdTaken(events: seq<EventRecord>, id: ObjectId) {
    exists i :: 0 <= i < |events| && events[i].id == id
  }

  predicate SlugTaken(events: seq<EventRecord>, slug: string) {
    exists i :: 0 <= i < |events| && events[i].slug == slug
  }

  /** What the schema demands of a stored event. */
  predicate ConformingRecord(e: EventRecord) {
    && |e.title| > 0 && |e.description| > 0 && |e.overview| > 0 && |e.image| > 0 && |e.venue| > 0
    && |e.location| > 0 && |e.audience| > 0 && |e.organizer| > 0
    && |e.description| <= MaxTextLength && |e.overview| <= MaxTextLength
    && e.mode in Modes
    && e.agenda != [] && e.tags != []
    && e.createdAt == e.updatedAt
  }

  /** What every stored event satisfies: it conforms, its slug is the one its title gives and its date is a full-date. */
  predicate WellFormedRecord(e: EventRecord) {
    ConformingRecord(e) && e.slug == GenerateSlug(e.title) && IsFullDate(e.date)
  }

  /** The collection's invariant: the unique indexes hold and every event is well formed. */
  predicate CollectionInvariant(events: seq<EventRecord>) {
    && (forall i, j :: 0 <= i < j < |events| ==> events[i].id != events[j].id && events[i].slug != events[j].slug)
    && (forall i :: 0 <= i < |events| ==> WellFormedRecord(events[i]))
  }

  /**
   * The outcome of a save once validation and the pre-save hook have run:
   * validation errors first, then the hook's error, then `_id`, then `slug`.
   */
  function Insertion(events: seq<EventRecord>, errors: seq<FieldError>, hooked: (Option<string>, map<Path, string>),
                     agenda: seq<string>, tags: seq<string>, id: ObjectId, now: int): Result<EventRecord, StoreError>
  {
    if errors != [] then Err(Validation("Event", errors))
    else if hooked.0.Some? then Err(Thrown(hooked.0.value))
    else
      var e := Record(hooked.1, agenda, tags, id, now);
      if IdTaken(events, id) then Err(DuplicateKey("_id_"))
      else if SlugTaken(events, e.slug) then Err(DuplicateKey("slug_1"))
      else Ok(e)
  }

  /** `Event.create(candidate)` with the `_id` the driver assigns and the clock reading `now`. */
  function Creation(events: seq<EventRecord>, c: Candidate, id: ObjectId, now: int,
                    dateEngine: string -> Option<EngineDate>): Result<EventRecord, StoreError>
  {
    var d := Cast(c.strings);
    Insertion(events, SchemaErrors(d, c.agenda, c.tags), HookOutcome(d, c.agenda, c.tags, d.Keys, dateEngine), c.agenda, c.tags, id, now)
  }

  /** An insert succeeds only past validation, the hook and both indexes. */
  lemma InsertionAccepted(events: seq<EventRecord>, errors: seq<FieldError>, hooked: (Option<string>, map<Path, string>),
                          agenda: seq<string>, tags: seq<string>, id: ObjectId, now: int)
    requires Insertion(events, errors, hooked, agenda, tags, id, now).Ok?
    ensures errors == [] && hooked.0.None?
    ensures Insertion(events, errors, hooked, agenda, tags, id, now).value == Record(hooked.1, agenda, tags, id, now)
    ensures !IdTaken(events, id) && !SlugTaken(events, Lookup(hooked.1, Slug))
  {
  }

  /** A record built from `d'`, which agrees with the conforming `d` but on the derived paths, conforms and holds `d`'s fields. */
  lemma RecordFields(d: map<Path, string>, d': map<Path, string>, agenda: seq<string>, tags: seq<string>, id: ObjectId, now: int)
    requires Conforms(d, agenda, tags)
    requires forall p :: p != Slug && p != Date && p != Time ==> Lookup(d', p) == Lookup(d, p)
    ensures var e := Record(d', agenda, tags, id, now);
      && ConformingRecord(e)
      && e.id == id && e.createdAt == now && e.updatedAt == now
      && e.title == Lookup(d, Title) && e.description == Lookup(d, Description) && e.overview == Lookup(d, Overview)
      && e.image == Lookup(d, Image) && e.venue == Lookup(d, Venue) && e.location == Lookup(d, Location)
      && e.mode == Lookup(d, Mode) && e.audience == Lookup(d, Audience) && e.organizer == Lookup(d, Organizer)
      && e.agenda == agenda && e.tags == tags
  {
    assert Required(Title) && Required(Description) && Required(Overview) && Required(Image) && Required(Venue);
    assert Required(Location) && Required(Audience) && Required(Organizer);
  }

  /**
   * The record stored for a conforming new document whose hook completed,
   * for any slug generator and normalisers: the document's fields, with
   * `slug`, `date` and `time` derived through the setters; it conforms.
   */
  lemma HookedRecordWith(d: map<Path, string>, failure: Option<string>, agenda: seq<string>, tags: seq<string>, id: ObjectId, now: int,
                         slugOf: string -> string, dateOf: string -> Result<string, string>, timeOf: string -> Result<string, string>)
    requires Conforms(d, agenda, tags)
    requires Hook(d, failure, d.Keys, slugOf, dateOf, timeOf).0.None?
    ensures var e := Record(Hook(d, failure, d.Keys, slugOf, dateOf, timeOf).1, agenda, tags, id, now);
      && ConformingRecord(e)
      && e.id == id && e.createdAt == now && e.updatedAt == now
      && e.title == Lookup(d, Title) && e.description == Lookup(d, Description) && e.overview == Lookup(d, Overview)
      && e.image == Lookup(d, Image) && e.venue == Lookup(d, Venue) && e.location == Lookup(d, Location)
      && e.mode == Lookup(d, Mode) && e.audience == Lookup(d, Audience) && e.organizer == Lookup(d, Organizer)
      && e.agenda == agenda && e.tags == tags
      && e.slug == SetPath(Slug, slugOf(e.title))
      && dateOf(Lookup(d, Date)).Ok? && e.date == SetPath(Date, dateOf(Lookup(d, Date)).value)
      && timeOf(Lookup(d, Time)).Ok? && e.time == SetPath(Time, timeOf(Lookup(d, Time)).value)
  {
    var d' := Hook(d, failure, d.Keys, slugOf, dateOf, timeOf).1;
    assert Lookup(d, Title) != [] && Lookup(d, Date) != [] && Lookup(d, Time) != [] by {
      assert Required(Title) && Required(Date) && Required(Time);
    }
    HookTouchesOnlyDerivedPaths(d, failure, d.Keys, slugOf, dateOf, timeOf);
    HookFailure(d, failure, d.Keys, slugOf, dateOf, timeOf);
    HookDerivedPaths(d, failure, d.Keys, slugOf, dateOf, timeOf);
    RecordFields(d, d', agenda, tags, id, now);
  }

  /**
   * The record stored for a conforming new document whose hook completed: the
   * document's fields, the slug derived from the title, the time normalised, a
   * full-date kept as given; it is well formed.
   */
  lemma HookedRecord(d: map<Path, string>, agenda: seq<string>, tags: seq<string>, id: ObjectId, now: int,
                     dateEngine: string -> Option<EngineDate>)
    requires Conforms(d, agenda, tags)
    requires HookOutcome(d, agenda, tags, d.Keys, dateEngine).0.None?
    ensures var e := Record(HookOutcome(d, agenda, tags, d.Keys, dateEngine).1, agenda, tags, id, now);
      && WellFormedRecord(e)
      && e.id == id && e.createdAt == now && e.updatedAt == now
      && e.title == Lookup(d, Title) && e.description == Lookup(d, Description) && e.overview == Lookup(d, Overview)
      && e.image == Lookup(d, Image) && e.venue == Lookup(d, Venue) && e.location == Lookup(d, Location)
      && e.mode == Lookup(d, Mode) && e.audience == Lookup(d, Audience) && e.organizer == Lookup(d, Organizer)
      && e.agenda == agenda && e.tags == tags
      && TimeNormalization(Lookup(d, Time)) == Ok(e.time)
      && (IsFullDate(Lookup(d, Date)) ==> e.date == Lookup(d, Date))
  {
    var failure := FailureMessage(RequiredFieldsFailure(d, agenda, tags));
    HookedRecordWith(d, failure, agenda, tags, id, now, GenerateSlug, DateNormalizer(dateEngine), TimeNormalization);
    SlugSetterNoop(Lookup(d, Title));
    TimeSetterNoop(Lookup(d, Time));
    NormalizedDateSettled(Lookup(d, Date), dateEngine);
    if IsFullDate(Lookup(d, Date)) {
      DateSetterKeepsFullDate(Lookup(d, Date), dateEngine);
    }
  }

  /** What a successful creation went through: validation passed, the hook completed and both indexes accepted the record. */
  lemma CreationAccepted(events: seq<EventRecord>, c: Candidate, id: ObjectId, now: int, dateEngine: string -> Option<EngineDate>)
    requires Creation(events, c, id, now, dateEngine).Ok?
    ensures var d := Cast(c.strings);
      var (failure, d') := HookOutcome(d, c.agenda, c.tags, d.Keys, dateEngine);
      && SchemaErrors(d, c.agenda, c.tags) == [] && failure.None?
      && Creation(events, c, id, now, dateEngine).value == Record(d', c.agenda, c.tags, id, now)
      && !IdTaken(events, id) && !SlugTaken(events, Lookup(d', Slug))
  {
    var d := Cast(c.strings);
    InsertionAccepted(events, SchemaErrors(d, c.agenda, c.tags), HookOutcome(d, c.agenda, c.tags, d.Keys, dateEngine), c.agenda, c.tags, id, now);
  }

  /**
   * A created event is the candidate after the setters, with the slug derived
   * from the title, the time normalised, the given id and both timestamps
   * `now`; it is well formed and collides with no stored event.
   */
  lemma CreatedRecord(events: seq<EventRecord>, c: Candidate, id: ObjectId, now: int, dateEngine: string -> Option<EngineDate>)
    requires Creation(events, c, id, now, dateEngine).Ok?
    ensures var e := Creation(events, c, id, now, dateEngine).value;
      var d := Cast(c.strings);
      && WellFormedRecord(e)
      && e.id == id && e.createdAt == now && e.updatedAt == now
      && e.title == Lookup(d, Title) && e.description == Lookup(d, Description) && e.overview == Lookup(d, Overview)
      && e.image == Lookup(d, Image) && e.venue == Lookup(d, Venue) && e.location == Lookup(d, Location)
      && e.mode == Lookup(d, Mode) && e.audience == Lookup(d, Audience) && e.organizer == Lookup(d, Organizer)
      && e.agenda == c.agenda && e.tags == c.tags
      && TimeNormalization(Lookup(d, Time)) == Ok(e.time)
      && (IsFullDate(Lookup(d, Date)) ==> e.date == Lookup(d, Date))
      && !IdTaken(events, id) && !SlugTaken(events, e.slug)
  {
    var d := Cast(c.strings);
    CreationAccepted(events, c, id, now, dateEngine);
    SchemaErrorsIff(d, c.agenda, c.tags);
    HookedRecord(d, c.agenda, c.tags, id, now, dateEngine);
  }

  /** Appending a well-formed record that collides with no stored event keeps the invariant. */
  lemma AppendKeepsInvariant(events: seq<EventRecord>, e: EventRecord)
    requires CollectionInvariant(events)
    requires WellFormedRecord(e) && !IdTaken(events, e.id) && !SlugTaken(events, e.slug)
    ensures CollectionInvariant(events + [e])
  {
    var s := events + [e];
    forall i, j | 0 <= i < j < |s| ensures s[i].id != s[j].id && s[i].slug != s[j].slug {
      if j == |events| {
        assert s[i] == events[i];
      }
    }
  }

  /** Creating appends to a collection that satisfies the invariant without breaking it. */
  lemma CreationKeepsInvariant(events: seq<EventRecord>, c: Candidate, id: ObjectId, now: int, dateEngine: string -> Option<EngineDate>)
    requires CollectionInvariant(events)
    requires Creation(events, c, id, now, dateEngine).Ok?
    ensures CollectionInvariant(events + [Creation(events, c, id, now, dateEngine).value])
  {
    CreatedRecord(events, c, id, now, dateEngine);
    AppendKeepsInvariant(events, Creation(events, c, id, now, dateEngine).value);
  }

  /**
   * A title whose slug is already stored cannot be created again; once the
   * candidate passes validation and the hook, the refusal is the duplicate-key
   * error of the `slug` index (or of `_id`, should the id be taken too).
   */
  lemma DuplicateSlugRejected(events: seq<EventRecord>, c: Candidate, id: ObjectId, now: int,
                              dateEngine: string -> Option<EngineDate>, i: nat)
    requires i < |events|
    requires events[i].slug == GenerateSlug(Lookup(Cast(c.strings), Title))
    ensures Creation(events, c, id, now, dateEngine).Err?
    ensures var d := Cast(c.strings);
      Conforms(d, c.agenda, c.tags) && HookOutcome(d, c.agenda, c.tags, d.Keys, dateEngine).0.None? ==>
        Creation(events, c, id, now, dateEngine) == Err(DuplicateKey(if IdTaken(events, id) then "_id_" else "slug_1"))
  {
    var d := Cast(c.strings);
    if Creation(events, c, id, now, dateEngine).Ok? {
      CreatedRecord(events, c, id, now, dateEngine);
    }
    if Conforms(d, c.agenda, c.tags) && HookOutcome(d, c.agenda, c.tags, d.Keys, dateEngine).0.None? {
      SchemaErrorsIff(d, c.agenda, c.tags);
      assert Title in d.Keys by {
        assert Required(Title);
      }
      EventHookDerivedPaths(d, c.agenda, c.tags, d.Keys, dateEngine);
      assert SlugTaken(events, Lookup(HookOutcome(d, c.agenda, c.tags, d.Keys, dateEngine).1, Slug));
    }
  }

  /** A candidate the schema rejects gives a `ValidationError` listing the failing paths in schema order. */
  lemma InvalidCandidateRejected(events: seq<EventRecord>, c: Candidate, id: ObjectId, now: int, dateEngine: string -> Option<EngineDate>)
    requires !Conforms(Cast(c.strings), c.agenda, c.tags)
    ensures var r := Creation(events, c, id, now, dateEngine);
      && r == Err(Validation("Event", SchemaErrors(Cast(c.strings), c.agenda, c.tags)))
      && Map(r.error.errors, ErrorPath) == Map(Filter(ValidatedPaths, Failing(Cast(c.strings), c.agenda, c.tags)), PathName)
  {
    SchemaErrorsIff(Cast(c.strings), c.agenda, c.tags);
    SchemaErrorsPaths(Cast(c.strings), c.agenda, c.tags);
  }

  /** The events collection. */
  class EventStore {
    var events: seq<EventRecord>

    ghost predicate Valid()
      reads this
    {
      CollectionInvariant(events)
    }

    constructor ()
      ensures events == [] && Valid()
    {
      events := [];
    }

    /** `Event.findById(id)`: the stored event with that `_id`, if any. */
    method FindById(id: ObjectId) returns (found: Option<EventRecord>)
      ensures found.Some? <==> IdTaken(events, id)
      ensures found.Some? ==> found.value in events && found.value.id == id
    {
      var i := 0;
      while i < |events|
        invariant 0 <= i <= |events|
        invariant forall j :: 0 <= j < i ==> events[j].id != id
      {
        if events[i].id == id {
          return Some(events[i]);
        }
        i := i + 1;
      }
      return None;
    }

    /** `Event.create(candidate)`: builds the document, validates it, runs the hook and inserts it. */
    method Create(c: Candidate, id: ObjectId, now: int, dateEngine: string -> Option<EngineDate>) returns (r: Result<EventRecord, StoreError>)
      requires Valid()
      modifies this
      ensures Valid()
      ensures r == Creation(old(events), c, id, now, dateEngine)
      ensures events == if r.Ok? then old(events) + [r.value] else old(events)
    {
      var doc := new EventDocument(c);
      var errors := SchemaErrors(doc.strings, doc.agenda, doc.tags);
      if errors != [] {
        return Err(Validation("Event", errors));
      }
      var failure := doc.PreSave(doc.strings.Keys, dateEngine);
      if failure.Some? {
        return Err(Thrown(failure.value));
      }
      var e := Record(doc.strings, doc.agenda, doc.tags, id, now);
      if IdTaken(events, id) {
        return Err(DuplicateKey("_id_"));
      }
      if SlugTaken(events, e.slug) {
        return Err(DuplicateKey("slug_1"));
      }
      CreationKeepsInvariant(events, c, id, now, dateEngine);
      events := events + [e];
      return Ok(e);
    }
  }
}

/**
 * The `/api/events` route. `POST` turns a multipart form into an event: it
 * checks the image, parses and filters the `tags` and `agenda` JSON lists,
 * replaces the image by a base 64 `data:` URL, calls `Event.create` and maps
 * the outcome to an HTTP status. `GET` lists the events, newest first.
 *
 * `connectDB()`, `req.formData()` and `JSON.parse` are outside the model:
 * what they produce (or reject with) is a parameter.
 */
module EventsRoute {
  import opened Wrappers
  import opened Seqs
  import opened Text
  import opened Base64
  import opened ObjectIds
  import opened Errors
  import opened Slug
  import opened DateTime
  import opened EventModel

  // ---- the request ----

  /** The value of a form entry: a text field, or a file with its bytes and reported media type. */
  datatype FormValue = TextValue(text: string) | FileValue(bytes: seq<Byte>, fileType: string)

  /** The entries of a multipart form, in the order they were sent. */
  type FormData = seq<(string, FormValue)>

  function Named(name: string): ((string, FormValue)) -> bool {
    (entry: (string, FormValue)) => entry.0 == name
  }

  /** `formData.get(name)`: the value of the first entry with that name. */
  function FormGet(form: FormData, name: string): Option<FormValue> {
    match FirstWhere(form, Named(name))
    case None => None
    case Some(entry) => Some(entry.1)
  }

  /** `Object.fromEntries(formData.entries())`: a later entry overrides an earlier one of the same name. */
  function FromEntries(form: FormData): map<string, FormValue> {
    if form == [] then map[]
    else
      var last := form[|form| - 1];
      FromEntries(form[..|form| - 1])[last.0 := last.1]
  }

  /** The object has a key for every name in the form and no other. */
  lemma {:induction false} FromEntriesKeys(form: FormData, name: string)
    ensures name in FromEntries(form) <==> exists i :: 0 <= i < |form| && form[i].0 == name
  {
    if form != [] {
      var init := form[..|form| - 1];
      FromEntriesKeys(init, name);
      assert forall i :: 0 <= i < |init| ==> init[i] == form[i];
    }
  }

  /** A name's value is that of its last entry. */
  lemma {:induction false} FromEntriesLast(form: FormData, i: nat)
    requires i < |form|
    requires forall j :: i < j < |form| ==> form[j].0 != form[i].0
    ensures form[i].0 in FromEntries(form) && FromEntries(form)[form[i].0] == form[i].1
  {
    if i < |form| - 1 {
      var init := form[..|form| - 1];
      assert init[i] == form[i];
      forall j | i < j < |init| ensures init[j].0 != init[i].0 {
        assert init[j] == form[j];
      }
      FromEntriesLast(init, i);
    }
  }

  /** `!file || file.size === 0` does not hold: an empty text field is falsy, a text field has no `size`. */
  predicate ImageGiven(file: Option<FormValue>) {
    match file
    case None => false
    case Some(TextValue(s)) => |s| > 0
    case Some(FileValue(bytes, _)) => |bytes| > 0
  }

  /** The entry is truthy: present, and not the empty string. */
  predicate Present(v: Option<FormValue>) {
    match v
    case None => false
    case Some(TextValue(s)) => |s| > 0
    case Some(FileValue(_, _)) => true
  }

  /** What `JSON.parse` sees of an entry: its text, or `String(file)`. */
  function JsonSource(v: FormValue): string {
    match v
    case TextValue(s) => s
    case FileValue(_, _) => "[object File]"
  }

  // ---- the JSON lists ----

  /** A value `JSON.parse` produces. */
  datatype Json =
    | JNull
    | JBool(b: bool)
    | JNumber(n: real)
    | JString(s: string)
    | JArray(items: seq<Json>)
    | JObject(members: seq<(string, Json)>)

  /** JavaScript truthiness of a parsed value. */
  predicate Truthy(j: Json) {
    match j
    case JNull => false
    case JBool(b) => b
    case JNumber(n) => n != 0.0
    case JString(s) => |s| > 0
    case _ => true
  }

  /**
   * `list.filter(x => x && x.trim() !== "")`: `None` when a truthy value that
   * is not a string makes `trim` throw.
   */
  function KeepEntries(items: seq<Json>): Option<seq<string>> {
    if items == [] then Some([])
    else
      var x := items[0];
      var rest := KeepEntries(items[1..]);
      if !Truthy(x) then rest
      else if !x.JString? then None
      else if |Trim(x.s)| == 0 then rest
      else if rest.None? then None
      else Some([x.s] + rest.value)
  }

  /** An entry the filter keeps: a string that is not blank. */
  predicate IsKept(j: Json) {
    j.JString? && !Blank(j.s)
  }

  function StringOf(j: Json): string {
    if j.JString? then j.s else ""
  }

  /** The filter fails exactly when a truthy entry is not a string. */
  lemma {:induction false} KeepEntriesFails(items: seq<Json>)
    ensures KeepEntries(items).Some? <==> forall i :: 0 <= i < |items| && Truthy(items[i]) ==> items[i].JString?
  {
    if items != [] {
      KeepEntriesFails(items[1..]);
      assert forall i :: 1 <= i < |items| ==> items[i] == items[1..][i - 1];
    }
  }

  /** When it does not fail, the filter keeps exactly the non-blank strings, in their original order. */
  lemma {:induction false} KeepEntriesKept(items: seq<Json>)
    requires KeepEntries(items).Some?
    ensures KeepEntries(items).value == Map(Filter(items, IsKept), StringOf)
  {
    if items != [] {
      var x, tail := items[0], items[1..];
      if x.JString? {
        BlankTest(x.s);
      }
      if KeepEntries(tail).Some? {
        KeepEntriesKept(tail);
      }
      if IsKept(x) {
        var kept := Filter(tail, IsKept);
        assert Map([x] + kept, StringOf) == [x.s] + Map(kept, StringOf);
      }
    }
  }

  // ---- the outcome ----

  /** How a `POST` ends, each with its own response. */
  datatype PostOutcome =
    | ImageRequired
    | ListsRequired
    | ListsMalformed
    | ListsNotArrays
    | ListsEmpty
    | ImageFailed(error: string)
    | Created(event: EventRecord)
    | Invalid(errors: seq<string>)
    | DuplicateTitle
    | CreationFailed(error: string)

  function Status(o: PostOutcome): int {
    match o
    case Created(_) => 201
    case DuplicateTitle => 409
    case ImageFailed(_) => 500
    case CreationFailed(_) => 500
    case _ => 400
  }

  /** The `message` of the response body. */
  function ResponseMessage(o: PostOutcome): (m: string)
    ensures |m| > 0
  {
    match o
    case ImageRequired => "Image file is required"
    case ListsRequired => "Tags and agenda are required"
    case ListsMalformed => "Invalid tags or agenda format"
    case ListsNotArrays => "Tags and agenda must be arrays"
    case ListsEmpty => "Tags and agenda must contain at least one non-empty item"
    case ImageFailed(_) => "Failed to process image"
    case Created(_) => "Event created successfully"
    case Invalid(_) => "Validation error"
    case DuplicateTitle => "An event with this title already exists"
    case CreationFailed(_) => "Event Creation Failed"
  }

  /** The fallback `error` of the outer `catch`. */
  const UnknownErrorOccurred := "Unknown error occurred"

  /** What `file.arrayBuffer()` throws when the image entry is a text field. */
  const NotAFileMessage := "file.arrayBuffer is not a function"

  /** The `catch` around `Event.create`: validation errors, then code 11000, then rethrown to the outer `catch`. */
  function StoreErrorOutcome(e: StoreError): PostOutcome {
    if Name(e) == "ValidationError" then Invalid(FieldMessages(e.errors))
    else if Code(e) == Some(11000) then DuplicateTitle
    else CreationFailed(CatchMessage(AsException(e), UnknownErrorOccurred))
  }

  /** The filtered `tags` and `agenda`, or the outcome of the check that stops the request. */
  function ListsOf(form: FormData, parse: string -> Option<Json>): Result<(seq<string>, seq<string>), PostOutcome> {
    var tagsStr, agendaStr := FormGet(form, "tags"), FormGet(form, "agenda");
    if !Present(tagsStr) || !Present(agendaStr) then Err(ListsRequired)
    else
      var tags, agenda := parse(JsonSource(tagsStr.value)), parse(JsonSource(agendaStr.value));
      if tags.None? || agenda.None? then Err(ListsMalformed)
      else if !tags.value.JArray? || !agenda.value.JArray? then Err(ListsNotArrays)
      else
        var keptTags, keptAgenda := KeepEntries(tags.value.items), KeepEntries(agenda.value.items);
        if keptTags.None? || keptAgenda.None? then Err(ListsMalformed)
        else if |keptTags.value| == 0 || |keptAgenda.value| == 0 then Err(ListsEmpty)
        else Ok((keptTags.value, keptAgenda.value))
  }

  /** The image as a `data:` URL; a text field has no `arrayBuffer`. */
  function ImageDataUrl(file: FormValue): Result<string, PostOutcome> {
    match file
    case TextValue(_) => Err(ImageFailed(NotAFileMessage))
    case FileValue(bytes, fileType) => Ok(DataUrl(MediaTypeOf(fileType), bytes))
  }

  /**
   * `{...event, tags, agenda}`: the text entries of `event` as string values
   * (the two list entries overridden by the filtered lists), and the lists.
   */
  function CandidateOf(event: map<string, FormValue>, tags: seq<string>, agenda: seq<string>): Candidate {
    Candidate(map k | k in event && event[k].TextValue? && k != "tags" && k != "agenda" :: event[k].text, agenda, tags)
  }

  /** What the route passes to `Event.create`: the form's entries with `image` replaced by the data URL. */
  function Submitted(form: FormData, url: string, tags: seq<string>, agenda: seq<string>): Candidate {
    CandidateOf(FromEntries(form)["image" := TextValue(url)], tags, agenda)
  }

  /**
   * The request up to `Event.create`: the candidate it submits, or the
   * outcome of the check that stops it first.
   */
  function PostCandidate(form: FormData, parse: string -> Option<Json>): Result<Candidate, PostOutcome> {
    var file := FormGet(form, "image");
    if !ImageGiven(file) then Err(ImageRequired)
    else
      match ListsOf(form, parse)
      case Err(o) => Err(o)
      case Ok(lists) =>
        match ImageDataUrl(file.value)
        case Err(o) => Err(o)
        case Ok(url) => Ok(Submitted(form, url, lists.0, lists.1))
  }

  /** The `catch` around `Event.create` and the response: the outcome and the stored events afterwards. */
  function Answer(events: seq<EventRecord>, created: Result<EventRecord, StoreError>): (PostOutcome, seq<EventRecord>) {
    match created
    case Ok(e) => (Created(e), events + [e])
    case Err(e) => (StoreErrorOutcome(e), events)
  }

  /** A submitted candidate against the stored `events`. */
  function Submission(events: seq<EventRecord>, c: Candidate, id: ObjectId, now: int,
                      dateEngine: string -> Option<EngineDate>): (PostOutcome, seq<EventRecord>)
  {
    Answer(events, Creation(events, c, id, now, dateEngine))
  }

  /**
   * One `POST`: the outcome and the stored events afterwards. `connection` is
   * what `connectDB()` rejects with, if it does; `request` is what
   * `req.formData()` resolves or rejects with.
   */
  function PostRun(connection: Option<Exception>, request: Result<FormData, Exception>, parse: string -> Option<Json>,
                   events: seq<EventRecord>, id: ObjectId, now: int, dateEngine: string -> Option<EngineDate>): (PostOutcome, seq<EventRecord>)
  {
    if connection.Some? then (CreationFailed(CatchMessage(connection.value, UnknownErrorOccurred)), events)
    else if request.Err? then (CreationFailed(CatchMessage(request.error, UnknownErrorOccurred)), events)
    else
      match PostCandidate(request.value, parse)
      case Err(o) => (o, events)
      case Ok(c) => Submission(events, c, id, now, dateEngine)
  }

  // ---- properties of POST ----

  /** A missing or empty image is refused before the lists are looked at, whatever they hold. */
  lemma ImageCheckedFirst(form: FormData, parse: string -> Option<Json>, parse': string -> Option<Json>)
    requires !ImageGiven(FormGet(form, "image"))
    ensures PostCandidate(form, parse) == PostCandidate(form, parse') == Err(ImageRequired)
  {
  }

  /**
   * Past the image check, the lists decide in order: missing, unparsable,
   * not arrays, an entry `trim` rejects, nothing left after filtering.
   */
  lemma ListChecks(form: FormData, parse: string -> Option<Json>)
    requires ImageGiven(FormGet(form, "image"))
    ensures ListsOf(form, parse).Err? ==> PostCandidate(form, parse) == Err(ListsOf(form, parse).error)
    ensures ListsOf(form, parse).Ok? ==>
      var (tags, agenda) := ListsOf(form, parse).value;
      |tags| > 0 && |agenda| > 0 && (forall t :: t in tags ==> !Blank(t)) && (forall a :: a in agenda ==> !Blank(a))
  {
    if ListsOf(form, parse).Ok? {
      var tagsStr, agendaStr := FormGet(form, "tags"), FormGet(form, "agenda");
      var tags, agenda := parse(JsonSource(tagsStr.value)).value, parse(JsonSource(agendaStr.value)).value;
      KeepEntriesKept(tags.items);
      KeepEntriesKept(agenda.items);
      FilterMembers(tags.items, IsKept);
      FilterMembers(agenda.items, IsKept);
    }
  }

  /** Every failed list check answers 400. */
  lemma ListFailuresAre400(form: FormData, parse: string -> Option<Json>)
    requires ListsOf(form, parse).Err?
    ensures Status(ListsOf(form, parse).error) == 400
  {
  }

  /**
   * A candidate reaches `Event.create` with the image as a base 64 `data:`
   * URL of the uploaded bytes, the filtered lists, and every other text entry
   * as its last value.
   */
  lemma SubmittedCandidate(form: FormData, parse: string -> Option<Json>, c: Candidate)
    requires PostCandidate(form, parse) == Ok(c)
    ensures FormGet(form, "image").Some? && FormGet(form, "image").value.FileValue?
    ensures var file := FormGet(form, "image").value;
      "image" in c.strings && c.strings["image"] == DataUrl(MediaTypeOf(file.fileType), file.bytes)
    ensures ListsOf(form, parse).Ok? && (c.tags, c.agenda) == ListsOf(form, parse).value
    ensures forall i :: 0 <= i < |form| && form[i].0 !in {"image", "tags", "agenda"} && form[i].1.TextValue?
                     && (forall j :: i < j < |form| ==> form[j].0 != form[i].0)
                     ==> form[i].0 in c.strings && c.strings[form[i].0] == form[i].1.text
  {
    forall i | 0 <= i < |form| && form[i].0 !in {"image", "tags", "agenda"} && form[i].1.TextValue?
               && (forall j :: i < j < |form| ==> form[j].0 != form[i].0)
      ensures form[i].0 in c.strings && c.strings[form[i].0] == form[i].1.text
    {
      FromEntriesLast(form, i);
    }
  }

  /** The data URL reads back as the file's media type (or `image/jpeg`) and its bytes. */
  lemma SubmittedImageReadsBack(form: FormData, parse: string -> Option<Json>, c: Candidate)
    requires PostCandidate(form, parse) == Ok(c)
    requires var file := FormGet(form, "image"); file.Some? && file.value.FileValue? && ',' !in file.value.fileType
    ensures var file := FormGet(form, "image").value;
      ParseDataUrl(c.strings["image"]) == Some((MediaTypeOf(file.fileType), file.bytes))
  {
    SubmittedCandidate(form, parse, c);
    var file := FormGet(form, "image").value;
    DataUrlReadsBack(MediaTypeOf(file.fileType), file.bytes);
  }

  /**
   * What `Event.create` answers decides the status: 201 with the stored
   * event, 400 with one message per failed path, 409 for a duplicate key, 500
   * with the hook's message for anything else.
   */
  lemma AnswerStatus(events: seq<EventRecord>, created: Result<EventRecord, StoreError>)
    ensures var (o, after) := Answer(events, created);
      match created
      case Ok(e) => Status(o) == 201 && o == Created(e) && after == events + [e]
      case Err(Validation(_, errors)) => Status(o) == 400 && o == Invalid(FieldMessages(errors)) && after == events
      case Err(DuplicateKey(_)) => Status(o) == 409 && o == DuplicateTitle && after == events
      case Err(Thrown(m)) => Status(o) == 500 && o == CreationFailed(m) && after == events
  {
  }

  /**
   * The stored events change only on a 201, and then by the one created
   * event; a connection or form-data failure answers 500 with its message.
   */
  lemma PostWritesOnlyOnCreate(connection: Option<Exception>, request: Result<FormData, Exception>, parse: string -> Option<Json>,
                               events: seq<EventRecord>, id: ObjectId, now: int, dateEngine: string -> Option<EngineDate>)
    ensures var (o, after) := PostRun(connection, request, parse, events, id, now, dateEngine);
      && (Status(o) == 201 <==> o.Created?)
      && (o.Created? ==> after == events + [o.event])
      && (!o.Created? ==> after == events)
    ensures connection.None? && request.Err? && request.error.ErrorObject? ==>
      PostRun(connection, request, parse, events, id, now, dateEngine).0 == CreationFailed(request.error.message)
  {
    if connection.None? && request.Ok? && PostCandidate(request.value, parse).Ok? {
      var c := PostCandidate(request.value, parse).value;
      AnswerStatus(events, Creation(events, c, id, now, dateEngine));
    }
  }

  /**
   * A form whose title gives a stored slug, and that passes validation and
   * the hook, answers 409 and writes nothing (when its `_id` is fresh).
   */
  lemma DuplicateTitleConflict(form: FormData, parse: string -> Option<Json>, events: seq<EventRecord>, id: ObjectId,
                               now: int, dateEngine: string -> Option<EngineDate>, c: Candidate, i: nat)
    requires PostCandidate(form, parse) == Ok(c)
    requires i < |events| && events[i].slug == GenerateSlug(Lookup(Cast(c.strings), Title))
    requires Conforms(Cast(c.strings), c.agenda, c.tags)
    requires HookOutcome(Cast(c.strings), c.agenda, c.tags, Cast(c.strings).Keys, dateEngine).0.None?
    requires !IdTaken(events, id)
    ensures PostRun(None, Ok(form), parse, events, id, now, dateEngine) == (DuplicateTitle, events)
    ensures Status(DuplicateTitle) == 409
  {
    DuplicateSlugRejected(events, c, id, now, dateEngine, i);
    AnswerStatus(events, Creation(events, c, id, now, dateEngine));
  }

  /** The `POST` handler. */
  method Post(store: EventStore, connection: Option<Exception>, request: Result<FormData, Exception>,
              parse: string -> Option<Json>, id: ObjectId, now: int, dateEngine: string -> Option<EngineDate>)
    returns (o: PostOutcome)
    requires store.Valid()
    modifies store
    ensures store.Valid()
    ensures (o, store.events) == PostRun(connection, request, parse, old(store.events), id, now, dateEngine)
  {
    if connection.Some? {
      return CreationFailed(CatchMessage(connection.value, UnknownErrorOccurred));
    }
    if request.Err? {
      return CreationFailed(CatchMessage(request.error, UnknownErrorOccurred));
    }
    var form := request.value;
    var event := FromEntries(form);
    var file := FormGet(form, "image");
    if !ImageGiven(file) {
      return ImageRequired;
    }
    var tagsStr, agendaStr := FormGet(form, "tags"), FormGet(form, "agenda");
    if !Present(tagsStr) || !Present(agendaStr) {
      return ListsRequired;
    }
    var tagsJson, agendaJson := parse(JsonSource(tagsStr.value)), parse(JsonSource(agendaStr.value));
    if tagsJson.None? || agendaJson.None? {
      return ListsMalformed;
    }
    if !tagsJson.value.JArray? || !agendaJson.value.JArray? {
      return ListsNotArrays;
    }
    var keptTags, keptAgenda := KeepEntries(tagsJson.value.items), KeepEntries(agendaJson.value.items);
    if keptTags.None? || keptAgenda.None? {
      return ListsMalformed;
    }
    var tags, agenda := keptTags.value, keptAgenda.value;
    if |tags| == 0 || |agenda| == 0 {
      return ListsEmpty;
    }
    if file.value.TextValue? {
      return ImageFailed(NotAFileMessage);
    }
    event := event["image" := TextValue(DataUrl(MediaTypeOf(file.value.fileType), file.value.bytes))];
    var created := store.Create(CandidateOf(event, tags, agenda), id, now, dateEngine);
    if created.Err? {
      return StoreErrorOutcome(created.error);
    }
    return Created(created.value);
  }

  // ---- GET ----

  /** How a `GET` ends. */
  datatype GetOutcome = Listed(events: seq<EventRecord>) | ListingFailed

  function GetStatus(o: GetOutcome): int {
    if o.Listed? then 200 else 500
  }

  /** `sort({createdAt: -1})`: an event goes before every event created no later. */
  predicate NewerOrSame(a: EventRecord, b: EventRecord) {
    a.createdAt >= b.createdAt
  }

  lemma NewerOrSameTotalPreorder()
    ensures TotalPreorder(NewerOrSame)
  {
  }

  /**
   * `Event.find().sort({createdAt: -1})`: every stored event, newest first,
   * or 500 when the connection fails. The order among events created at
   * the same instant is not fixed.
   */
  function GetRun(connection: Option<Exception>, events: seq<EventRecord>): (o: GetOutcome)
    ensures o.Listed? <==> connection.None?
    ensures GetStatus(o) == (if connection.None? then 200 else 500)
    ensures o.Listed? ==> multiset(o.events) == multiset(events)
    ensures o.Listed? ==> forall i, j :: 0 <= i < j < |o.events| ==> o.events[i].createdAt >= o.events[j].createdAt
  {
    if connection.Some? then ListingFailed
    else
      NewerOrSameTotalPreorder();
      Listed(Sort(events, NewerOrSame))
  }
}

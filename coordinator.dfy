/**
 * The update step of the coordinator: one HTTP response from the OPM API
 * turned into the 13-field snapshot the entities read, or an update failure.
 * The GET itself (session, 30-second timeout) is abstracted into `Fetch`.
 */
module Coordinator {
  import opened Wrappers
  import Json
  import DotNetDate

  /** The 13 fields of the normalised snapshot. */
  datatype Field =
    | Id | Title | Location | StatusSummary | ShortMessage | LongMessage | ExtendedInformation
    | AppliesTo | Icon | StatusType | StatusTypeGuid | DatePosted | Url

  /** The dict key each field is stored under (the ATTR_* names agree with these). */
  function Key(f: Field): string {
    match f
    case Id => "id"
    case Title => "title"
    case Location => "location"
    case StatusSummary => "status_summary"
    case ShortMessage => "short_message"
    case LongMessage => "long_message"
    case ExtendedInformation => "extended_information"
    case AppliesTo => "applies_to"
    case Icon => "icon"
    case StatusType => "status_type"
    case StatusTypeGuid => "status_type_guid"
    case DatePosted => "date_posted"
    case Url => "url"
  }

  /** The normalised snapshot: a dict from field (named by Key) to value. */
  type Record = map<Field, Json.Value>

  /** `coordinator.data`: None until the first successful update. */
  type Snapshot = Option<Record>

  const ALL_FIELDS: set<Field> := {
    Id, Title, Location, StatusSummary, ShortMessage, LongMessage, ExtendedInformation,
    AppliesTo, Icon, StatusType, StatusTypeGuid, DatePosted, Url
  }

  /** The response body as `resp.json(content_type=None)` decodes it. */
  datatype Body = Decoded(json: Json.Value) | Undecodable

  /** What the GET produced: a response, an aiohttp client error, or the timeout. */
  datatype Fetch = Response(status: int, body: Body) | ClientError | TimedOut

  datatype UpdateError =
    | BadStatus(status: int)  // "OPM API returned status <status>"
    | Communication           // aiohttp.ClientError
    | Timeout                 // TimeoutError
    | BadPayload              // KeyError, TypeError or ValueError while reading the payload
    | NotAnObject             // the payload is not a JSON object: `.get` raises AttributeError

  /** The entity code's `if self.coordinator.data:` — a snapshot that is present and non-empty. */
  predicate HasData(data: Snapshot) {
    data.Some? && data.value != map[]
  }

  /** The payload key `src` copied to `dst`, or `default` when the key is absent. */
  predicate Copied(data: Json.Dict, src: string, rec: Record, dst: Field, default: Json.Value) {
    dst in rec && (src in data ==> rec[dst] == data[src]) && (src !in data ==> rec[dst] == default)
  }

  /** The value stored under date_posted for a date that did not raise. */
  function DateValue(o: DotNetDate.Outcome): (v: Json.Value)
    requires !o.Raises?
    ensures v == Json.Null <==> o.Absent?
    ensures o.Text? ==> v == Json.Str(o.s)
  {
    match o
    case Absent => Json.Null
    case Text(s) => Json.Str(s)
  }

  /** The payload key each field is read from (`url` falls back to `StatusWebPage`). */
  function Source(f: Field): string {
    match f
    case Id => "Id"
    case Title => "Title"
    case Location => "Location"
    case StatusSummary => "StatusSummary"
    case ShortMessage => "ShortStatusMessage"
    case LongMessage => "LongStatusMessage"
    case ExtendedInformation => "ExtendedInformation"
    case AppliesTo => "AppliesTo"
    case Icon => "Icon"
    case StatusType => "StatusType"
    case StatusTypeGuid => "StatusTypeGuid"
    case DatePosted => "DateStatusPosted"
    case Url => "Url"
  }

  /** The value a field takes when its payload key is absent. */
  function Default(f: Field): Json.Value {
    match f
    case Id | DatePosted => Json.Null
    case StatusSummary => Json.Str("Unknown")
    case _ => Json.Str("")
  }

  /** Field f of rec holds the payload value under Source(f), or Default(f) when that key is absent. */
  predicate CopiedField(data: Json.Dict, rec: Record, f: Field) {
    Copied(data, Source(f), rec, f, Default(f))
  }

  /** One entry of the dict literal of `_async_update_data`, given the converted date. */
  function Entry(data: Json.Dict, posted: Json.Value, f: Field): Json.Value {
    if f == DatePosted then posted
    else if f == Url then Json.Get(data, "Url", Json.Get(data, "StatusWebPage", Json.Str("")))
    else Json.Get(data, Source(f), Default(f))
  }

  /** The dict literal of `_async_update_data`, given the converted date. */
  function Build(data: Json.Dict, posted: Json.Value): (rec: Record)
    ensures rec.Keys == ALL_FIELDS
    ensures rec[DatePosted] == posted
    ensures forall f :: f != DatePosted && f != Url ==> CopiedField(data, rec, f)
    ensures
      && ("Url" in data ==> rec[Url] == data["Url"])
      && ("Url" !in data && "StatusWebPage" in data ==> rec[Url] == data["StatusWebPage"])
      && ("Url" !in data && "StatusWebPage" !in data ==> rec[Url] == Json.Str(""))
  {
    var rec := map f | f in ALL_FIELDS :: Entry(data, posted, f);
    BuildFields(data, posted, rec);
    rec
  }

  /** What each entry of the dict literal holds. */
  lemma BuildFields(data: Json.Dict, posted: Json.Value, rec: Record)
    requires rec == map f | f in ALL_FIELDS :: Entry(data, posted, f)
    ensures rec.Keys == ALL_FIELDS
    ensures rec[DatePosted] == posted
    ensures forall f :: f != DatePosted && f != Url ==> CopiedField(data, rec, f)
    ensures
      && ("Url" in data ==> rec[Url] == data["Url"])
      && ("Url" !in data && "StatusWebPage" in data ==> rec[Url] == data["StatusWebPage"])
      && ("Url" !in data && "StatusWebPage" !in data ==> rec[Url] == Json.Str(""))
  {
    forall f | f != DatePosted && f != Url ensures CopiedField(data, rec, f) {
      FieldInAll(f);
      assert rec[f] == Json.Get(data, Source(f), Default(f));
    }
  }

  /**
   * The normalisation of `_async_update_data`. Every field is copied from its
   * payload key when that key is present (whatever its value, null included)
   * and takes its default only when the key is absent; the date is converted
   * by `_parse_dotnet_date`, whose exceptions fail the update.
   */
  function Normalize(data: Json.Dict): (r: Result<Record, UpdateError>)
    ensures r.Failure? <==> DotNetDate.Parse(Json.Get(data, "DateStatusPosted", Json.Null)).Raises?
    ensures r.Failure? ==> r.error == BadPayload
    ensures r.Success? ==>
      r.value == Build(data, DateValue(DotNetDate.Parse(Json.Get(data, "DateStatusPosted", Json.Null))))
  {
    var posted := DotNetDate.Parse(Json.Get(data, "DateStatusPosted", Json.Null));
    if posted.Raises? then Failure(BadPayload) else Success(Build(data, DateValue(posted)))
  }

  /**
   * `_async_update_data` on one fetch: only a 200 response whose body decodes
   * to a JSON object can yield a snapshot, and then the snapshot is the
   * normalised payload.
   */
  function Update(f: Fetch): (r: Result<Record, UpdateError>)
    ensures f.Response? && f.status != 200 ==> r == Failure(BadStatus(f.status))
    ensures f.ClientError? ==> r == Failure(Communication)
    ensures f.TimedOut? ==> r == Failure(Timeout)
    ensures f.Response? && f.status == 200 && f.body.Undecodable? ==> r == Failure(BadPayload)
    ensures f.Response? && f.status == 200 && f.body.Decoded? && !f.body.json.Object? ==> r == Failure(NotAnObject)
    ensures r.Success? <==>
      && f.Response? && f.status == 200 && f.body.Decoded? && f.body.json.Object?
      && Normalize(f.body.json.fields).Success?
    ensures f.Response? && f.status == 200 && f.body.Decoded? && f.body.json.Object? ==>
      r == Normalize(f.body.json.fields)
    ensures r.Success? ==> r == Normalize(f.body.json.fields) && r.value.Keys == ALL_FIELDS
  {
    match f
    case ClientError => Failure(Communication)
    case TimedOut => Failure(Timeout)
    case Response(status, body) =>
      if status != 200 then Failure(BadStatus(status))
      else
        match body
        case Undecodable => Failure(BadPayload)
        case Decoded(json) =>
          if json.Object? then Normalize(json.fields) else Failure(NotAnObject)
  }

  /** A snapshot from a successful update always counts as data for the entities. */
  lemma UpdateGivesData(f: Fetch)
    requires Update(f).Success?
    ensures HasData(Some(Update(f).value))
  {
    assert Id in Update(f).value;
  }

  /** A successful normalisation is data for the entities, and its status_summary comes from the payload. */
  lemma NormalizedSummary(data: Json.Dict)
    requires Normalize(data).Success?
    ensures HasData(Some(Normalize(data).value))
    ensures CopiedField(data, Normalize(data).value, StatusSummary)
  {
    var rec := Normalize(data).value;
    assert Id in rec;
  }

  /** Every field is one of the 13. */
  lemma FieldInAll(f: Field)
    ensures f in ALL_FIELDS
  {
  }

  /** An empty payload has no date to convert, so normalising it cannot fail. */
  lemma NormalizeEmptySucceeds()
    ensures Normalize(map[]) == Success(Build(map[], Json.Null))
  {
    DotNetDate.ParseFalsy(Json.Null);
    assert Json.Get(map[], "DateStatusPosted", Json.Null) == Json.Null;
  }

  /** With no payload keys, the dict literal holds every field's default. */
  lemma BuildEmpty(f: Field)
    ensures f in Build(map[], Json.Null) && Build(map[], Json.Null)[f] == Default(f)
  {
    var rec := Build(map[], Json.Null);
    FieldInAll(f);
    if f != DatePosted && f != Url {
      assert CopiedField(map[], rec, f);
    }
  }

  /** An empty payload gives every field its default. */
  lemma NormalizeEmpty(f: Field)
    ensures Normalize(map[]).Success?
    ensures f in Normalize(map[]).value && Normalize(map[]).value[f] == Default(f)
  {
    NormalizeEmptySucceeds();
    BuildEmpty(f);
  }

  /** The 13 dict keys are distinct, so the snapshot dict really has 13 entries. */
  lemma KeyInjective(f: Field, g: Field)
    requires Key(f) == Key(g)
    ensures f == g
  {
  }
}

/**
 * The two sensors: "Operating Status" (the status summary, an icon chosen by
 * the OPM icon token, and the snapshot's fields as attributes) and "Status
 * Message" (the short message). Each reads the coordinator's snapshot, which is
 * None until the first successful update.
 */
module Sensor {
  import opened Wrappers
  import Json
  import opened Coordinator

  const DEFAULT_ICON := "mdi:office-building"
  const MESSAGE_ICON := "mdi:message-text"

  /** ICON_MAP: OPM icon tokens to Material Design icons. */
  const ICON_MAP: map<string, string> := map[
    "Open" := "mdi:door-open",
    "Closed" := "mdi:door-closed",
    "Alert" := "mdi:alert",
    "Announcement" := "mdi:bullhorn"
  ]

  /** The fields exposed as attributes: all but id and status_type_guid. */
  const ATTRIBUTE_FIELDS: set<Field> := {
    Title, Location, StatusSummary, ShortMessage, LongMessage, ExtendedInformation,
    AppliesTo, Icon, StatusType, DatePosted, Url
  }

  /** `data.get(key)` on the snapshot dict: None when the field is missing. */
  function Lookup(rec: Record, f: Field): (v: Json.Value)
    ensures f in rec ==> v == rec[f]
    ensures f !in rec ==> v == Json.Null
  {
    if f in rec then rec[f] else Json.Null
  }

  /** The status sensor's unique id: the config entry id, then `_status`. */
  function StatusUniqueId(entryId: string): (id: string)
    ensures |id| == |entryId| + 7 && id[..|entryId|] == entryId && id[|entryId|..] == "_status"
  {
    entryId + "_status"
  }

  /** The message sensor's unique id: the config entry id, then `_short_message`. */
  function ShortMessageUniqueId(entryId: string): (id: string)
    ensures |id| == |entryId| + 14 && id[..|entryId|] == entryId && id[|entryId|..] == "_short_message"
  {
    entryId + "_short_message"
  }

  /** OPMStatusSensor.native_value: the status summary, or None without data. */
  function StatusValue(data: Snapshot): (v: Json.Value)
    ensures !HasData(data) ==> v == Json.Null
    ensures HasData(data) && StatusSummary in data.value ==> v == data.value[StatusSummary]
    ensures HasData(data) ==> v == Lookup(data.value, StatusSummary)
  {
    if HasData(data) then Lookup(data.value, StatusSummary) else Json.Null
  }

  /** A token ICON_MAP knows; lists and dicts cannot even be looked up. */
  function IconFor(token: Json.Value): (icon: string)
    requires Json.Hashable(token)
    ensures token.Str? && token.s in ICON_MAP ==> icon == ICON_MAP[token.s]
    ensures !(token.Str? && token.s in ICON_MAP) ==> icon == DEFAULT_ICON
  {
    if token.Str? && token.s in ICON_MAP then ICON_MAP[token.s] else DEFAULT_ICON
  }

  /** The icon token the status sensor looks up: `data.get("icon", "")`. */
  function IconToken(rec: Record): Json.Value {
    if Icon in rec then rec[Icon] else Json.Str("")
  }

  /** OPMStatusSensor.icon: ICON_MAP's icon for the snapshot's token, mdi:office-building otherwise. */
  function StatusIcon(data: Snapshot): (icon: string)
    requires HasData(data) ==> Json.Hashable(IconToken(data.value))
    ensures icon in ICON_MAP.Values || icon == DEFAULT_ICON
    ensures !HasData(data) ==> icon == DEFAULT_ICON
    ensures HasData(data) && Icon !in data.value ==> icon == DEFAULT_ICON
    ensures HasData(data) && Icon in data.value ==> icon == IconFor(data.value[Icon])
  {
    if HasData(data) then IconFor(IconToken(data.value)) else DEFAULT_ICON
  }

  /** OPMStatusSensor.extra_state_attributes. */
  function StatusAttributes(data: Snapshot): (attrs: map<Field, Json.Value>)
    ensures !HasData(data) ==> attrs == map[]
    ensures HasData(data) ==> attrs.Keys == ATTRIBUTE_FIELDS
    ensures HasData(data) ==> forall f :: f in attrs ==> attrs[f] == Lookup(data.value, f)
    ensures Id !in attrs && StatusTypeGuid !in attrs
  {
    if HasData(data) then
      var attrs := map f | f in ATTRIBUTE_FIELDS :: Lookup(data.value, f);
      assert attrs.Keys == ATTRIBUTE_FIELDS;
      attrs
    else map[]
  }

  /** OPMShortMessageSensor.native_value: the short message, or None without data. */
  function ShortMessageValue(data: Snapshot): (v: Json.Value)
    ensures !HasData(data) ==> v == Json.Null
    ensures HasData(data) && ShortMessage in data.value ==> v == data.value[ShortMessage]
    ensures HasData(data) ==> v == Lookup(data.value, ShortMessage)
  {
    if HasData(data) then Lookup(data.value, ShortMessage) else Json.Null
  }

  /** OPMShortMessageSensor.icon: the same icon whatever the snapshot. */
  function ShortMessageIcon(data: Snapshot): (icon: string)
    ensures icon == MESSAGE_ICON
  {
    MESSAGE_ICON
  }

  /** The attribute fields are all fields but id and status_type_guid. */
  lemma AttributeFieldsAreTheRest()
    ensures ATTRIBUTE_FIELDS == ALL_FIELDS - {Id, StatusTypeGuid}
  {
    forall f ensures f in ATTRIBUTE_FIELDS <==> f in ALL_FIELDS - {Id, StatusTypeGuid} {
      FieldInAll(f);
    }
  }

  /** The four OPM tokens map to their icons, matched case-sensitively. */
  lemma IconTable()
    ensures IconFor(Json.Str("Open")) == "mdi:door-open"
    ensures IconFor(Json.Str("Closed")) == "mdi:door-closed"
    ensures IconFor(Json.Str("Alert")) == "mdi:alert"
    ensures IconFor(Json.Str("Announcement")) == "mdi:bullhorn"
    ensures IconFor(Json.Str("open")) == DEFAULT_ICON
    ensures IconFor(Json.Str("")) == DEFAULT_ICON
    ensures IconFor(Json.Null) == DEFAULT_ICON
  {
  }

  /**
   * On a snapshot from a successful update, the attributes are the snapshot's
   * fields without id and status_type_guid, value for value.
   */
  lemma AttributesOfUpdate(f: Fetch)
    requires Update(f).Success?
    ensures var rec := Update(f).value;
      StatusAttributes(Some(rec)) == map g | g in rec.Keys - {Id, StatusTypeGuid} :: rec[g]
  {
    AttributesOfFullRecord(Update(f).value);
  }

  /** For a record with all 13 fields, the attributes are the record without id and status_type_guid. */
  lemma AttributesOfFullRecord(rec: Record)
    requires rec.Keys == ALL_FIELDS
    ensures StatusAttributes(Some(rec)) == map g | g in rec.Keys - {Id, StatusTypeGuid} :: rec[g]
  {
    assert Id in rec;
    AttributeFieldsAreTheRest();
  }

  /** On a snapshot from a successful update, the status is the payload's StatusSummary or "Unknown". */
  lemma StatusOfPayload(data: Json.Dict)
    requires Normalize(data).Success?
    ensures "StatusSummary" in data ==> StatusValue(Some(Normalize(data).value)) == data["StatusSummary"]
    ensures "StatusSummary" !in data ==> StatusValue(Some(Normalize(data).value)) == Json.Str("Unknown")
  {
    NormalizedSummary(data);
    StatusOfCopiedSummary(data, Normalize(data).value);
  }

  /** A snapshot whose status_summary was copied from the payload shows the payload's value or "Unknown". */
  lemma StatusOfCopiedSummary(data: Json.Dict, rec: Record)
    requires HasData(Some(rec)) && CopiedField(data, rec, StatusSummary)
    ensures "StatusSummary" in data ==> StatusValue(Some(rec)) == data["StatusSummary"]
    ensures "StatusSummary" !in data ==> StatusValue(Some(rec)) == Json.Str("Unknown")
  {
    assert Source(StatusSummary) == "StatusSummary";
  }
}

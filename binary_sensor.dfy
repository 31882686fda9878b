/**
 * The "Federal Offices Open" binary sensor: on exactly when the status
 * summary, lower-cased, starts with "open"; unknown (None) before the first
 * successful update.
 */
module BinarySensor {
  import opened Wrappers
  import Json
  import opened Coordinator
  import Sensor

  const ON_ICON := "mdi:door-open"
  const OFF_ICON := "mdi:door-closed"

  /** The binary sensor's unique id: the config entry id, then `_open`. */
  function OpenUniqueId(entryId: string): (id: string)
    ensures |id| == |entryId| + 5 && id[..|entryId|] == entryId && id[|entryId|..] == "_open"
  {
    entryId + "_open"
  }

  /** `str.lower()` on one character, for ASCII letters. */
  function LowerChar(c: char): char {
    if 'A' <= c <= 'Z' then (c as int + 32) as char else c
  }

  /** `str.lower()`, for ASCII letters. */
  function Lower(s: string): (t: string)
    ensures |t| == |s| && forall i :: 0 <= i < |s| ==> t[i] == LowerChar(s[i])
  {
    if s == [] then [] else [LowerChar(s[0])] + Lower(s[1..])
  }

  /** `status.lower().startswith("open")`: the first four letters spell "open" in any case. */
  predicate StartsWithOpen(s: string)
    ensures StartsWithOpen(s) <==> OpenInAnyCase(s)
  {
    LowerStartsWithOpen(s);
    "open" <= Lower(s)
  }

  /** The status summary the binary sensor reads: `data.get("status_summary", "")`. */
  function Summary(rec: Record): Json.Value {
    if StatusSummary in rec then rec[StatusSummary] else Json.Str("")
  }

  /** `.lower()` exists only on text: a summary of any other type makes is_on raise. */
  predicate SummaryIsText(data: Snapshot) {
    HasData(data) ==> Summary(data.value).Str?
  }

  /** The first four characters spell "open" in any mix of upper and lower case. */
  predicate OpenInAnyCase(s: string) {
    && |s| >= 4
    && (s[0] == 'o' || s[0] == 'O') && (s[1] == 'p' || s[1] == 'P')
    && (s[2] == 'e' || s[2] == 'E') && (s[3] == 'n' || s[3] == 'N')
  }

  /** OPMOpenBinarySensor.is_on. */
  function IsOn(data: Snapshot): (on: Option<bool>)
    requires SummaryIsText(data)
    ensures on.None? <==> !HasData(data)
    ensures on == Some(true) <==> HasData(data) && OpenInAnyCase(Summary(data.value).s)
  {
    if !HasData(data) then None
    else Some(StartsWithOpen(Summary(data.value).s))
  }

  /** OPMOpenBinarySensor.icon: the open door exactly when is_on is true. */
  function OpenIcon(data: Snapshot): (icon: string)
    requires SummaryIsText(data)
    ensures icon == ON_ICON <==> IsOn(data) == Some(true)
    ensures icon == OFF_ICON <==> IsOn(data) != Some(true)
  {
    if IsOn(data) == Some(true) then ON_ICON else OFF_ICON
  }

  /** OPMOpenBinarySensor.extra_state_attributes: the summary and who it applies to. */
  function OpenAttributes(data: Snapshot): (attrs: map<Field, Json.Value>)
    ensures !HasData(data) ==> attrs == map[]
    ensures HasData(data) ==> attrs.Keys == {StatusSummary, AppliesTo}
    ensures HasData(data) ==> forall f :: f in attrs ==> attrs[f] == Sensor.Lookup(data.value, f)
  {
    if HasData(data) then
      map[StatusSummary := Sensor.Lookup(data.value, StatusSummary),
          AppliesTo := Sensor.Lookup(data.value, AppliesTo)]
    else map[]
  }

  /** Lower-casing and testing for "open" is the same as testing each letter in both cases. */
  lemma LowerStartsWithOpen(s: string)
    ensures "open" <= Lower(s) <==> OpenInAnyCase(s)
  {
    var t := Lower(s);
    if |s| >= 4 {
      assert "open" <= t <==> t[0] == 'o' && t[1] == 'p' && t[2] == 'e' && t[3] == 'n';
    }
  }

  /** Texts equal up to letter case. */
  predicate SameUpToCase(s: string, t: string) {
    |s| == |t| && forall i :: 0 <= i < |s| ==> LowerChar(s[i]) == LowerChar(t[i])
  }

  /** Changing the letter case of the summary never changes is_on. */
  lemma CaseInsensitive(s: string, t: string)
    requires SameUpToCase(s, t)
    ensures StartsWithOpen(s) == StartsWithOpen(t)
  {
    assert Lower(s) == Lower(t);
  }

  /** The default summary "Unknown" (no StatusSummary in the payload) reads as not open. */
  lemma UnknownIsClosed(data: Json.Dict)
    requires Normalize(data).Success? && "StatusSummary" !in data
    ensures SummaryIsText(Some(Normalize(data).value))
    ensures IsOn(Some(Normalize(data).value)) == Some(false)
    ensures OpenIcon(Some(Normalize(data).value)) == OFF_ICON
  {
    NormalizedSummary(data);
    UnknownSummaryIsClosed(Normalize(data).value);
  }

  /** A snapshot whose summary is "Unknown" reads as closed. */
  lemma UnknownSummaryIsClosed(rec: Record)
    requires rec != map[] && Summary(rec) == Json.Str("Unknown")
    ensures SummaryIsText(Some(rec))
    ensures IsOn(Some(rec)) == Some(false)
    ensures OpenIcon(Some(rec)) == OFF_ICON
  {
    assert Lower("Unknown")[0] == 'u';
  }

  /**
   * From payload to binary sensor: after a successful update whose payload
   * holds a text StatusSummary, is_on is true exactly when that text begins
   * with "open" in any case.
   */
  lemma OpenOfPayload(data: Json.Dict)
    requires Normalize(data).Success?
    requires "StatusSummary" in data && data["StatusSummary"].Str?
    ensures SummaryIsText(Some(Normalize(data).value))
    ensures IsOn(Some(Normalize(data).value)) == Some(OpenInAnyCase(data["StatusSummary"].s))
  {
    NormalizedSummary(data);
  }

  /** The three entities' unique ids never collide, for the same or different config entries. */
  lemma UniqueIdsDistinct(e1: string, e2: string)
    ensures Sensor.StatusUniqueId(e1) != Sensor.ShortMessageUniqueId(e2)
    ensures Sensor.StatusUniqueId(e1) != OpenUniqueId(e2)
    ensures Sensor.ShortMessageUniqueId(e1) != OpenUniqueId(e2)
    ensures Sensor.StatusUniqueId(e1) == Sensor.StatusUniqueId(e2) ==> e1 == e2
    ensures Sensor.ShortMessageUniqueId(e1) == Sensor.ShortMessageUniqueId(e2) ==> e1 == e2
    ensures OpenUniqueId(e1) == OpenUniqueId(e2) ==> e1 == e2
  {
    var s1, m2 := Sensor.StatusUniqueId(e1), Sensor.ShortMessageUniqueId(e2);
    assert s1[|s1| - 1] == 's' && m2[|m2| - 1] == 'e';
    var m1, o2 := Sensor.ShortMessageUniqueId(e1), OpenUniqueId(e2);
    assert m1[|m1| - 1] == 'e' && o2[|o2| - 1] == 'n';
    SuffixCancels(e1, e2, "_status");
    SuffixCancels(e1, e2, "_short_message");
    SuffixCancels(e1, e2, "_open");
  }

  lemma SuffixCancels(a: string, b: string, suffix: string)
    ensures a + suffix == b + suffix ==> a == b
  {
    if a + suffix == b + suffix {
      assert a == (a + suffix)[..|a|];
    }
  }
}

# OPM federal operating status — a Dafny model

This project models the pure core of the Home Assistant integration
`opm_status`. The integration polls the U.S. Office of Personnel Management's
operating-status JSON feed and exposes three entities:

- an "Operating Status" sensor;
- a "Status Message" sensor;
- a "Federal Offices Open" binary sensor.

The model covers:

- **Coordinator** (`coordinator.dfy`): one poll of `_async_update_data`, as a
  function from the fetch outcome to a normalised snapshot or an update failure.
  - A non-200 status fails, and so do client errors, timeouts and undecodable
    bodies.
  - The payload's keys are copied into a 13-field record. A default applies
    only when a key is absent, and `url` falls back from `Url` to
    `StatusWebPage` to `""`.
  - `DateStatusPosted` goes through `_parse_dotnet_date`.
- **DotNetDate** (`dotnet_date.dfy`): `_parse_dotnet_date`.
  - Falsy input gives None.
  - The regex `/Date\((\d+)\)/` is searched for as `re.search` does: leftmost
    match, greedy digits.
  - A match becomes `datetime.fromtimestamp(ms / 1000, tz=timezone.utc).isoformat()`.
  - A text with no match comes back unchanged. This includes the offset form
    `/Date(123+0500)/`.
- **IsoFormat, Civil, Decimal** (`iso_format.dfy`, `civil.dfy`, `decimal.dfy`):
  the parts of Python's `datetime` the conversion relies on.
  - The proleptic Gregorian calendar counted in days from 1970-01-01.
  - The `isoformat()` text `YYYY-MM-DDTHH:MM:SS[.ffffff]+00:00`.
  - A parser for that text, so results can be stated as "this text denotes
    exactly this instant".
  - `int()` on digit strings.
- **Sensor** (`sensor.dfy`): the status sensor's value, its icon (through
  `ICON_MAP`) and its attributes; the message sensor's value and icon; both
  unique ids.
- **BinarySensor** (`binary_sensor.dfy`): `is_on`, the icon, the attributes and
  the unique id.
- **Json and Wrappers** (`json.dfy`, `wrappers.dfy`):
  - `Json` holds decoded JSON values, Python truthiness, hashability and
    `dict.get`.
  - `Wrappers` holds `Option` and `Result`.

All three source files compute values, with no loops and no state of their own
beyond the coordinator's snapshot. So the model is functions and lemmas, with no
classes. The snapshot `coordinator.data` is a parameter of type
`Option<Record>`, where None means "no successful update yet".

A `Record` maps the enumeration `Coordinator.Field` to JSON values.
`Coordinator.Key` gives each field's dict key (`"status_summary"`, …), and
`KeyInjective` shows the 13 keys are distinct. The attribute keys (`ATTR_*` in
`const.py`) are the same strings.

## Model

| member | source | states |
|---|---|---|
| Coordinator.Update | custom_components/opm_status/coordinator.py:48-83 | a status other than 200 fails with that status; a client error, a timeout and an undecodable body fail; a JSON value that is not an object fails; a 200 response whose body is an object gives exactly the normalisation of that object, so a date that raises fails as a parsing error; a poll succeeds exactly when the response is 200, the body is an object and normalisation succeeds, and then the snapshot has all 13 keys |
| Coordinator.Normalize | custom_components/opm_status/coordinator.py:62-76 | normalisation fails (as a parsing error) exactly when converting `DateStatusPosted` raises; otherwise the record is the dict literal with the converted date |
| Coordinator.Build | custom_components/opm_status/coordinator.py:62-76 | the record has exactly the 13 fields; every field except date_posted and url holds the payload value under its source key when that key is present, whatever its value, and its default (None for id, "Unknown" for status_summary, "" otherwise) only when absent; url is `Url`, else `StatusWebPage`, else "" |
| Coordinator.DateValue | custom_components/opm_status/coordinator.py:74 | date_posted is None exactly when `_parse_dotnet_date` returned None, and otherwise the text it returned |
| Coordinator.NormalizedSummary | custom_components/opm_status/coordinator.py:66 | a successful normalisation has data, and its status_summary is the payload's `StatusSummary`, or "Unknown" when absent |
| Coordinator.UpdateGivesData | custom_components/opm_status/coordinator.py:62-76 | a snapshot from a successful poll is never empty, so every entity treats it as data |
| Coordinator.NormalizeEmpty | custom_components/opm_status/coordinator.py:62-76 | an empty payload normalises successfully and every field takes its default |
| Coordinator.KeyInjective | custom_components/opm_status/coordinator.py:63-75 | the 13 snapshot keys are pairwise distinct |
| DotNetDate.Parse | custom_components/opm_status/coordinator.py:21-32 | the result is None exactly for a falsy value; a truthy non-text raises; a non-empty text with no match comes back unchanged; with a match capturing d and ms = int(d), the result is a text denoting exactly ms milliseconds after the epoch when ms fits a datetime, and raises otherwise (ParseFalsy, ParseNonText, ParseNoMatch and ParseMatch state the same cases as separate lemmas) |
| DotNetDate.ParseFalsy | custom_components/opm_status/coordinator.py:23-24 | None, "" and every other falsy value give None |
| DotNetDate.ParseNonText | custom_components/opm_status/coordinator.py:25 | a truthy value that is not a text makes the regex search raise |
| DotNetDate.ParseNoMatch | custom_components/opm_status/coordinator.py:25-32 | a non-empty text in which the regex matches nowhere is returned unchanged |
| DotNetDate.ParseMatch | custom_components/opm_status/coordinator.py:25-31 | with a leftmost match capturing digits d and ms = int(d): when ms fits a datetime, the result is an ISO text denoting exactly ms milliseconds after the epoch, 25 characters for a whole second and 32 (with `.ffffff`) otherwise; beyond year 9999 the conversion raises |
| DotNetDate.LeftmostIsSearch | custom_components/opm_status/coordinator.py:25 | the search finds exactly the leftmost match and its digits |
| DotNetDate.ParseIgnoresSurroundings | custom_components/opm_status/coordinator.py:25-31 | only the leftmost match counts: a text converts exactly as `/Date(d)/` alone would |
| DotNetDate.MatchUnique | custom_components/opm_status/coordinator.py:25 | the greedy `\d+` captures at most one digit string at a position |
| DotNetDate.MatchAt | custom_components/opm_status/coordinator.py:25 | trying the regex at one position finds a match exactly when there is one there |
| DotNetDate.Search | custom_components/opm_status/coordinator.py:25-26 | the search returns the first position from i on with a match, and None exactly when no position matches |
| DotNetDate.DigitRun | custom_components/opm_status/coordinator.py:25 | the greedy `\d+` consumes digits up to the first non-digit or the end |
| DotNetDate.OffsetFormPassesThrough | custom_components/opm_status/coordinator.py:25-32 | every offset-form text `/Date(<digits><+ or -><digits>)/`, such as `/Date(123+0500)/`, has no match and is returned unchanged |
| IsoFormat.FromTimestamp | custom_components/opm_status/coordinator.py:29-31 | for a timestamp a datetime can hold, the isoformat text denotes exactly ms milliseconds after the epoch and carries a fraction exactly when ms % 1000 ≠ 0 |
| IsoFormat.FromMillis | custom_components/opm_status/coordinator.py:30 | the UTC date-time for ms is a valid date-time denoting ms·1000 microseconds, with microsecond 0 exactly for whole seconds, and its year is at most 9999 exactly when ms ≤ 253402300799999 |
| IsoFormat.Render | custom_components/opm_status/coordinator.py:31 | the `isoformat()` text is 25 characters for a whole second and 32 with the `.ffffff` fraction, has `T` between date and time and ends in `+00:00`; ParseRender states that it reads back as the same date-time |
| IsoFormat.ParseRender | custom_components/opm_status/coordinator.py:31 | the isoformat text of a valid date-time reads back as that date-time |
| Civil.FromDays | custom_components/opm_status/coordinator.py:30 | the date n days after 1970-01-01 is a valid date that counts back to n |
| Civil.FromDaysOfDaysFromCivil | custom_components/opm_status/coordinator.py:30 | counting a date's days from the epoch and converting back gives the same date |
| Civil.DaysFromCivilInjective | custom_components/opm_status/coordinator.py:30 | distinct valid dates are distinct days |
| Civil.FromDaysYearBound | custom_components/opm_status/coordinator.py:30 | the date n days after the epoch is before the year 10000 exactly when n < 2932897 |
| Decimal.ValueOfPad | custom_components/opm_status/coordinator.py:29-31 | `int()` of a zero-padded field gives back the number written |
| Sensor.StatusValue | custom_components/opm_status/sensor.py:72-77 | without data the value is None; with data it is the snapshot's status_summary, or None when the snapshot lacks that field |
| Sensor.StatusOfPayload | custom_components/opm_status/sensor.py:72-77 | after a successful update the status is the payload's `StatusSummary`, or "Unknown" when the key is absent |
| Sensor.StatusOfCopiedSummary | custom_components/opm_status/sensor.py:72-77 | a snapshot whose status_summary was copied from the payload shows the payload's `StatusSummary`, or "Unknown" when it is absent |
| Sensor.IconFor | custom_components/opm_status/sensor.py:27-32 | a token that is a key of ICON_MAP gives its icon; any other hashable token gives mdi:office-building |
| Sensor.IconTable | custom_components/opm_status/sensor.py:27-32 | Open, Closed, Alert and Announcement map to their four icons; the lookup is case-sensitive ("open" gets the default) |
| Sensor.StatusIcon | custom_components/opm_status/sensor.py:79-85 | the icon is always one of ICON_MAP's icons or the default; the default without data or without an icon field; otherwise the table's icon for the token |
| Sensor.StatusAttributes | custom_components/opm_status/sensor.py:87-105 | no data gives no attributes; with data exactly the 11 keys, each the snapshot's value (None when missing); id and status_type_guid are never exposed |
| Sensor.AttributeFieldsAreTheRest | custom_components/opm_status/sensor.py:93-105 | the 11 attribute keys are exactly the 13 snapshot fields without id and status_type_guid |
| Sensor.AttributesOfUpdate | custom_components/opm_status/sensor.py:87-105 | on a successful poll's snapshot the attributes are the snapshot without id and status_type_guid, value for value |
| Sensor.AttributesOfFullRecord | custom_components/opm_status/sensor.py:87-105 | for any snapshot with all 13 fields, the attributes are the snapshot without id and status_type_guid |
| Sensor.ShortMessageValue | custom_components/opm_status/sensor.py:129-134 | without data the value is None; with data it is the snapshot's short_message, or None when the snapshot lacks that field |
| Sensor.StatusUniqueId | custom_components/opm_status/sensor.py:62 | the id is the config entry id followed by `_status`; UniqueIdsDistinct states that it collides with no other entity's id |
| Sensor.ShortMessageUniqueId | custom_components/opm_status/sensor.py:119 | the id is the config entry id followed by `_short_message`; UniqueIdsDistinct states that it collides with no other entity's id |
| Sensor.ShortMessageIcon | custom_components/opm_status/sensor.py:136-139 | the icon is mdi:message-text whatever the snapshot |
| BinarySensor.IsOn | custom_components/opm_status/binary_sensor.py:55-62 | None exactly when there is no data; true exactly when there is data and the summary's first four characters spell "open" in any case |
| BinarySensor.StartsWithOpen | custom_components/opm_status/binary_sensor.py:62 | `s.lower().startswith("open")` holds exactly when the first four characters are o/O, p/P, e/E, n/N |
| BinarySensor.LowerStartsWithOpen | custom_components/opm_status/binary_sensor.py:62 | the ASCII lower-cased text begins with "open" exactly when the first four characters spell "open" in any case |
| BinarySensor.CaseInsensitive | custom_components/opm_status/binary_sensor.py:62 | two summaries equal up to letter case give the same is_on |
| BinarySensor.UnknownIsClosed | custom_components/opm_status/binary_sensor.py:55-69 | when the payload has no StatusSummary, the default "Unknown" reads as closed, with the closed-door icon |
| BinarySensor.UnknownSummaryIsClosed | custom_components/opm_status/binary_sensor.py:55-69 | a non-empty snapshot whose summary is "Unknown" is off, with the closed-door icon |
| BinarySensor.OpenOfPayload | custom_components/opm_status/binary_sensor.py:55-62 | after a successful update with a text StatusSummary, is_on is whether that text starts with "open" in any case |
| BinarySensor.OpenIcon | custom_components/opm_status/binary_sensor.py:64-69 | the icon is mdi:door-open exactly when is_on is true, and mdi:door-closed otherwise, including when is_on is None |
| BinarySensor.OpenAttributes | custom_components/opm_status/binary_sensor.py:71-79 | no data gives no attributes; with data exactly status_summary and applies_to, each the snapshot's value |
| BinarySensor.OpenUniqueId | custom_components/opm_status/binary_sensor.py:52 | the id is the config entry id followed by `_open`; UniqueIdsDistinct states that it collides with no other entity's id |
| BinarySensor.UniqueIdsDistinct | custom_components/opm_status/binary_sensor.py:52 | the ids `<entry>_status`, `<entry>_short_message` and `<entry>_open` never collide, and each determines its entry id |

## Left out

- The HTTP request, the 30-second timeout and `resp.json()` are not modelled as
  I/O. Their outcomes are the parameter `Coordinator.Fetch`: a response with a
  status and a decoded or undecodable body, a client error, or a timeout.
- Scheduling is not modelled: the poll interval and the coordinator keeping the
  last good snapshot after a failed update. The snapshot is a parameter of every
  entity function.
- IsoFormat.FromTimestamp: converts whole milliseconds exactly. The source
  divides by 1000 in floating point, and `fromtimestamp` then rounds the nearest
  double half-even to microseconds. That is exact only below about 2^33 seconds
  (the year 2242). Above that, half a floating-point step exceeds half a
  microsecond and grows to about 15 µs near the year 9999. For example,
  `/Date(253402300799999)/` becomes the double 253402300799.998992919921875,
  and the source renders it as `9999-12-31T23:59:59.998993+00:00`. The model
  renders `.999000`.
- DotNetDate.ParseMatch: its "exactly ms milliseconds" holds for the source only
  below 2^33 seconds, for the floating-point reason above.
- DotNetDate.Parse: turns every capture past 9999-12-31T23:59:59.999 into one
  exception that fails the update as a parsing error. In the source, the
  exception depends on the size of the capture:
  - more than 4300 digits: `int()` raises ValueError (line 29), which is caught;
  - fewer digits, but past the float range: the `/` on line 30 raises
    OverflowError, which is not caught;
  - past the range of the platform's time conversion: `fromtimestamp` raises
    OverflowError or OSError, which is not caught;
  - otherwise: a year past 9999 raises ValueError, which is caught.
- `Coordinator.Update` gives a non-object payload its own failure,
  `NotAnObject`. In the source, `.get` raises AttributeError, which the handler
  does not catch.
- Only ASCII is modelled. `\d` matches ASCII digits only, and `str.lower()`
  folds only `A`-`Z`. Python also accepts other Unicode decimal digits and case
  mappings.
- BinarySensor.IsOn: requires the summary to be a text (or absent). Python's
  `.lower()` raises on any other type, and that exception is not modelled.
- BinarySensor.OpenIcon: has the same requirement as `IsOn`, because it
  evaluates `is_on`.
- Sensor.StatusIcon: requires the icon token to be hashable. A list or dict
  token makes `ICON_MAP.get` raise TypeError, which is not modelled.
- Sensor.IconFor: has the same `Json.Hashable` requirement as `StatusIcon`, for
  the same reason.
- JSON numbers are kept as reals. Nothing in the core looks at a number except
  through truthiness.
- Not modelled:
  - `config_flow.py`: the UI flow and the scan-interval option.
  - `const.py`: only its literal values appear, inlined.
  - Platform setup (`async_setup_entry`).
  - Device info, entity names and the binary sensor's device class.

/**
 * `_parse_dotnet_date`: the Microsoft DataContract JSON date `/Date(<ms>)/`
 * (milliseconds after the Unix epoch) turned into an ISO 8601 UTC text.
 * The regex `/Date\((\d+)\)/` is searched for anywhere in the text; the
 * leftmost match wins, and a text without a match is passed through.
 */
module DotNetDate {
  import opened Wrappers
  import Json
  import Decimal
  import IsoFormat

  const OPEN := "/Date("
  const CLOSE := ")/"

  /** What `_parse_dotnet_date` gives back: None, a text, or an exception it lets escape. */
  datatype Outcome = Absent | Text(s: string) | Raises

  /** The regex matches s at position i, capturing the digits d. */
  predicate MatchesAt(s: string, i: nat, d: string) {
    var p := i + |OPEN|;
    && |d| >= 1 && Decimal.AllDigits(d)
    && p + |d| + |CLOSE| <= |s|
    && s[i..p] == OPEN && s[p..p + |d|] == d && s[p + |d|..p + |d| + |CLOSE|] == CLOSE
  }

  /** The match at i is the leftmost one in s. */
  ghost predicate LeftmostMatch(s: string, i: nat, d: string) {
    MatchesAt(s, i, d) && forall k: nat, e :: k < i ==> !MatchesAt(s, k, e)
  }

  /** The length of the longest run of digits starting at p (what the greedy `\d+` takes). */
  function DigitRun(s: string, p: nat): (n: nat)
    requires p <= |s|
    ensures p + n <= |s| && forall k :: p <= k < p + n ==> Decimal.IsDigit(s[k])
    ensures p + n == |s| || !Decimal.IsDigit(s[p + n])
    decreases |s| - p
  {
    if p < |s| && Decimal.IsDigit(s[p]) then
      1 + DigitRun(s, p + 1)
    else 0
  }

  /** A match at i captures exactly the digit run after `/Date(`. */
  lemma MatchIsDigitRun(s: string, i: nat, d: string)
    requires MatchesAt(s, i, d)
    ensures DigitRun(s, i + |OPEN|) == |d|
  {
    var p := i + |OPEN|;
    assert s[p + |d|] == s[p + |d|..p + |d| + |CLOSE|][0] == ')';
    assert forall k :: p <= k < p + |d| ==> Decimal.IsDigit(s[k]) by {
      forall k | p <= k < p + |d| ensures Decimal.IsDigit(s[k]) {
        assert s[k] == d[k - p];
      }
    }
  }

  /** The regex tried at position i alone. */
  function MatchAt(s: string, i: nat): (r: Option<string>)
    ensures r.Some? ==> MatchesAt(s, i, r.value)
    ensures r.None? ==> forall d :: !MatchesAt(s, i, d)
  {
    var p := i + |OPEN|;
    if p <= |s| && s[i..p] == OPEN then
      var n := DigitRun(s, p);
      if n >= 1 && p + n + |CLOSE| <= |s| && s[p + n..p + n + |CLOSE|] == CLOSE then
        DigitRunMatches(s, i);
        Some(s[p..p + n])
      else
        NoMatchWithoutClose(s, i);
        None
    else
      NoMatchWithoutOpen(s, i);
      None
  }

  /** `/Date(`, a non-empty digit run and `)/` in a row make a match. */
  lemma DigitRunMatches(s: string, i: nat)
    requires i + |OPEN| <= |s| && s[i..i + |OPEN|] == OPEN
    requires var p, n := i + |OPEN|, DigitRun(s, i + |OPEN|);
      n >= 1 && p + n + |CLOSE| <= |s| && s[p + n..p + n + |CLOSE|] == CLOSE
    ensures var p := i + |OPEN|; MatchesAt(s, i, s[p..p + DigitRun(s, p)])
  {
    var p := i + |OPEN|;
    var d := s[p..p + DigitRun(s, p)];
    forall k | 0 <= k < |d| ensures Decimal.IsDigit(d[k]) {
      assert d[k] == s[p + k];
    }
  }

  /** No match can start where `/Date(` does not. */
  lemma NoMatchWithoutOpen(s: string, i: nat)
    requires !(i + |OPEN| <= |s| && s[i..i + |OPEN|] == OPEN)
    ensures forall d :: !MatchesAt(s, i, d)
  {
  }

  /** After `/Date(`, no match unless the digit run is non-empty and `)/` follows it. */
  lemma NoMatchWithoutClose(s: string, i: nat)
    requires i + |OPEN| <= |s| && s[i..i + |OPEN|] == OPEN
    requires var p, n := i + |OPEN|, DigitRun(s, i + |OPEN|);
      !(n >= 1 && p + n + |CLOSE| <= |s| && s[p + n..p + n + |CLOSE|] == CLOSE)
    ensures forall d :: !MatchesAt(s, i, d)
  {
    forall d ensures !MatchesAt(s, i, d) {
      if MatchesAt(s, i, d) {
        MatchIsDigitRun(s, i, d);
      }
    }
  }

  /** The regex captures at most one digit string at a given position. */
  lemma MatchUnique(s: string, i: nat, d: string, e: string)
    requires MatchesAt(s, i, d) && MatchesAt(s, i, e)
    ensures d == e
  {
    MatchIsDigitRun(s, i, d);
    MatchIsDigitRun(s, i, e);
  }

  /** `re.search` from position i on: the first position with a match, and its digits. */
  function Search(s: string, i: nat): (r: Option<(nat, string)>)
    requires i <= |s|
    ensures r.Some? ==> i <= r.value.0 && MatchesAt(s, r.value.0, r.value.1)
    ensures r.Some? ==> forall k: nat, e :: i <= k < r.value.0 ==> !MatchesAt(s, k, e)
    ensures r.None? ==> forall k: nat, e :: i <= k ==> !MatchesAt(s, k, e)
    decreases |s| - i
  {
    if i == |s| then None
    else
      match MatchAt(s, i)
      case Some(d) => Some((i, d))
      case None => Search(s, i + 1)
  }

  /**
   * `_parse_dotnet_date` applied to whatever the payload holds under
   * `DateStatusPosted` (Null when the key is absent).
   */
  function Parse(v: Json.Value): (r: Outcome)
    ensures r.Absent? <==> !Json.Truthy(v)
    ensures Json.Truthy(v) && !v.Str? ==> r == Raises
    ensures v.Str? && v.s != [] && Search(v.s, 0).None? ==> r == Text(v.s)
    ensures v.Str? && Search(v.s, 0).Some? ==>
      var ms := Decimal.Value(Search(v.s, 0).value.1);
      && (ms <= IsoFormat.MAX_MILLIS ==> r.Text? && IsoFormat.Instant(r.s) == Some(ms * 1000))
      && (ms > IsoFormat.MAX_MILLIS ==> r == Raises)
  {
    if !Json.Truthy(v) then Absent
    else if !v.Str? then Raises
    else
      match Search(v.s, 0)
      case None => Text(v.s)
      case Some((_, d)) =>
        var ms := Decimal.Value(d);
        if ms <= IsoFormat.MAX_MILLIS then Text(IsoFormat.FromTimestamp(ms)) else Raises
  }

  /** None, an empty text and every other falsy value give None. */
  lemma ParseFalsy(v: Json.Value)
    requires !Json.Truthy(v)
    ensures Parse(v) == Absent
    ensures Parse(Json.Null) == Absent && Parse(Json.Str("")) == Absent
  {
  }

  /** A truthy value that is not a text makes `re.search` raise. */
  lemma ParseNonText(v: Json.Value)
    requires Json.Truthy(v) && !v.Str?
    ensures Parse(v) == Raises
  {
  }

  /** A non-empty text in which the regex matches nowhere comes back unchanged. */
  lemma ParseNoMatch(s: string)
    requires s != []
    requires forall k: nat, e :: !MatchesAt(s, k, e)
    ensures Parse(Json.Str(s)) == Text(s)
  {
  }

  /**
   * With a leftmost match capturing d: when the timestamp fits a datetime, the
   * result is an ISO text denoting exactly Value(d) milliseconds after the
   * epoch, with a fraction exactly when that is not a whole second; otherwise
   * the conversion raises.
   */
  lemma ParseMatch(s: string, i: nat, d: string)
    requires LeftmostMatch(s, i, d)
    ensures var ms := Decimal.Value(d);
      && (ms <= IsoFormat.MAX_MILLIS ==>
            && Parse(Json.Str(s)).Text?
            && IsoFormat.Instant(Parse(Json.Str(s)).s) == Some(ms * 1000)
            && |Parse(Json.Str(s)).s| == (if ms % 1000 == 0 then 25 else 32))
      && (ms > IsoFormat.MAX_MILLIS ==> Parse(Json.Str(s)) == Raises)
  {
    LeftmostIsSearch(s, i, d);
  }

  /** Search finds exactly the leftmost match. */
  lemma LeftmostIsSearch(s: string, i: nat, d: string)
    requires LeftmostMatch(s, i, d)
    ensures s != [] && Search(s, 0) == Some((i, d))
  {
    var r := Search(s, 0);
    assert r.Some?;
    MatchUnique(s, i, d, r.value.1);
  }

  /** What `_parse_dotnet_date` makes of a text in which the search found d first. */
  lemma ParseOfSearch(s: string, i: nat, d: string)
    requires s != [] && Search(s, 0) == Some((i, d))
    ensures Decimal.AllDigits(d)
    ensures Parse(Json.Str(s)) ==
      if Decimal.Value(d) <= IsoFormat.MAX_MILLIS then Text(IsoFormat.FromTimestamp(Decimal.Value(d))) else Raises
  {
    assert Json.Truthy(Json.Str(s));
  }

  /** Only the leftmost match counts: the text around it is ignored. */
  lemma ParseIgnoresSurroundings(s: string, i: nat, d: string)
    requires LeftmostMatch(s, i, d)
    ensures Parse(Json.Str(s)) == Parse(Json.Str(OPEN + d + CLOSE))
  {
    var w := OPEN + d + CLOSE;
    assert MatchesAt(w, 0, d);
    LeftmostIsSearch(s, i, d);
    LeftmostIsSearch(w, 0, d);
    ParseOfSearch(s, i, d);
    ParseOfSearch(w, 0, d);
  }

  /** The offset form `/Date(<ms><sign><zone>)/`, e.g. `/Date(123+0500)/`. */
  function OffsetForm(d: string, sign: char, z: string): string {
    OPEN + d + [sign] + z + CLOSE
  }

  /** Inside an offset-form text, only the first and the last character are slashes. */
  lemma OffsetFormSlashes(d: string, sign: char, z: string)
    requires Decimal.AllDigits(d) && Decimal.AllDigits(z) && (sign == '+' || sign == '-')
    ensures var s := OffsetForm(d, sign, z);
      forall k :: 0 < k < |s| - 1 ==> s[k] != '/'
  {
    var s := OffsetForm(d, sign, z);
    forall k | 0 < k < |s| - 1 ensures s[k] != '/' {
      if k < |OPEN| {
        assert s[k] == OPEN[k];
      } else if k < |OPEN| + |d| {
        assert s[k] == d[k - |OPEN|];
      } else if k == |OPEN| + |d| {
        assert s[k] == sign;
      } else if k < |OPEN| + |d| + 1 + |z| {
        assert s[k] == z[k - |OPEN| - |d| - 1];
      } else {
        assert s[k] == CLOSE[0];
      }
    }
  }

  /** At the start of an offset-form text, the digits are followed by the sign, never by `)`. */
  lemma OffsetFormNoMatchAtStart(d: string, sign: char, z: string)
    requires Decimal.AllDigits(d) && Decimal.AllDigits(z) && (sign == '+' || sign == '-')
    ensures forall e :: !MatchesAt(OffsetForm(d, sign, z), 0, e)
  {
    var s := OffsetForm(d, sign, z);
    var p := |OPEN|;
    assert s[p + |d|] == sign;
    forall e | |e| >= 1 && p + |e| + |CLOSE| <= |s|
      ensures !MatchesAt(s, 0, e)
    {
      if |e| < |d| {
        assert s[p + |e|] == d[|e|];
        assert s[p + |e|..p + |e| + |CLOSE|][0] != ')';
      } else if |e| == |d| {
        assert s[p + |e|..p + |e| + |CLOSE|][0] == sign;
      } else {
        assert s[p..p + |e|][|d|] == sign;
      }
    }
  }

  /**
   * The offset form has no `)` right after the digits, so the regex matches
   * nowhere and `_parse_dotnet_date` hands the text back unchanged.
   */
  lemma OffsetFormPassesThrough(d: string, sign: char, z: string)
    requires Decimal.AllDigits(d) && Decimal.AllDigits(z) && (sign == '+' || sign == '-')
    ensures Parse(Json.Str(OffsetForm(d, sign, z))) == Text(OffsetForm(d, sign, z))
  {
    var s := OffsetForm(d, sign, z);
    OffsetFormSlashes(d, sign, z);
    OffsetFormNoMatchAtStart(d, sign, z);
    forall k: nat, e ensures !MatchesAt(s, k, e) {
      if 0 < k && k + |OPEN| <= |s| {
        assert s[k..k + |OPEN|][0] == s[k];
      }
    }
    ParseNoMatch(s);
  }
}

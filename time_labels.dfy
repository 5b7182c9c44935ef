/** The two relative-time heuristics of the chat page: turning a timestamp
    into a label such as `5分钟前`, and estimating a timestamp back from such a
    label. The clock (`Date.now()`) is the parameter `now`; the locale date
    rendering used for old timestamps is the opaque parameter `dateLabel`. */
module TimeLabels {
  import opened Optional
  import opened Strings

  const Minute: int := 60 * 1000
  const Hour: int := 60 * Minute
  const Day: int := 24 * Hour

  const JustNowLabel: string := "刚刚"
  const MinutesUnit: string := "分钟"
  const HoursUnit: string := "小时"
  const AgoSuffix: string := "前"

  /** The bucket a time difference falls into. */
  datatype RelativeTime = JustNow | MinutesAgo(minutes: nat) | HoursAgo(hours: nat) | OnDate(timestamp: int)

  /** The bucketing of `formatRelativeTime`, on `diff = now - timestamp`. */
  function Classify(now: int, timestamp: int): (r: RelativeTime)
    ensures r == JustNow <==> now - timestamp < Minute
    ensures r.MinutesAgo? <==> Minute <= now - timestamp < Hour
    ensures r.HoursAgo? <==> Hour <= now - timestamp < Day
    ensures r.OnDate? <==> Day <= now - timestamp
    ensures r.MinutesAgo? ==> 1 <= r.minutes <= 59 && r.minutes * Minute <= now - timestamp < (r.minutes + 1) * Minute
    ensures r.HoursAgo? ==> 1 <= r.hours <= 23 && r.hours * Hour <= now - timestamp < (r.hours + 1) * Hour
    ensures r.OnDate? ==> r.timestamp == timestamp
  {
    var diff := now - timestamp;
    if diff < Minute then JustNow
    else if diff < Hour then MinutesAgo(diff / Minute)
    else if diff < Day then HoursAgo(diff / Hour)
    else OnDate(timestamp)
  }

  /** The text shown for a bucket. */
  function Render(r: RelativeTime, dateLabel: int -> string): string {
    match r
    case JustNow => JustNowLabel
    case MinutesAgo(m) => NatToDecimal(m) + MinutesUnit + AgoSuffix
    case HoursAgo(h) => NatToDecimal(h) + HoursUnit + AgoSuffix
    case OnDate(ts) => dateLabel(ts)
  }

  /** `formatRelativeTime(timestamp)` at clock value `now`. */
  function FormatRelativeTime(now: int, timestamp: int, dateLabel: int -> string): (r: string)
    ensures now - timestamp < Minute ==> r == JustNowLabel
    ensures Minute <= now - timestamp < Day ==> r != [] && r[|r| - 1] == AgoSuffix[0]
    ensures Day <= now - timestamp ==> r == dateLabel(timestamp)
  {
    Render(Classify(now, timestamp), dateLabel)
  }

  /** Index just past the run of decimal digits that starts at `i`. */
  function DigitRunEnd(s: string, i: nat): (j: nat)
    requires i <= |s|
    ensures i <= j <= |s| && AllDigits(s[i..j])
    ensures j < |s| ==> !IsDigit(s[j])
    decreases |s| - i
  {
    if i < |s| && IsDigit(s[i]) then
      var j := DigitRunEnd(s, i + 1);
      assert s[i..j] == [s[i]] + s[i + 1..j];
      j
    else i
  }

  /** The leftmost match of `/(\d+)<unit>/` at or after `i`, scanning digit runs:
      a match must start at the beginning of a run and its `\d+` must take the
      whole run, because the unit does not start with a digit. */
  function MatchFrom(s: string, unit: string, i: nat): Option<nat>
    requires i <= |s|
    decreases |s| - i
  {
    if i == |s| then None
    else if IsDigit(s[i]) then
      var j := DigitRunEnd(s, i);
      if OccursAt(s, unit, j) then Some(DecimalValue(s[i..j])) else MatchFrom(s, unit, j)
    else MatchFrom(s, unit, i + 1)
  }

  /** `parseInt(text.match(/(\d+)<unit>/)[1], 10)`, or None when there is no match. */
  function MatchCount(text: string, unit: string): Option<nat> {
    MatchFrom(text, unit, 0)
  }

  /** `estimateTimestampFromLastActive(text)` at clock value `now`. */
  function EstimateTimestamp(text: string, now: int): (r: Option<int>)
    ensures text == [] ==> r.None?
    ensures r.Some? ==> r.value <= now
  {
    if text == [] then None
    else if Contains(text, JustNowLabel) then Some(now)
    else match MatchCount(text, MinutesUnit)
      case Some(n) => Some(now - n * Minute)
      case None =>
        match MatchCount(text, HoursUnit)
        case Some(n) => Some(now - n * Hour)
        case None => None
  }

  /** A match is only found when the unit really occurs in the label. */
  lemma {:induction false} MatchFromNeedsUnit(s: string, unit: string, i: nat)
    requires i <= |s| && !Contains(s, unit)
    ensures MatchFrom(s, unit, i) == None
    decreases |s| - i
  {
    if i < |s| {
      if IsDigit(s[i]) {
        var j := DigitRunEnd(s, i);
        ContainsIff(s, unit);
        assert !OccursAt(s, unit, j);
        MatchFromNeedsUnit(s, unit, j);
      } else {
        MatchFromNeedsUnit(s, unit, i + 1);
      }
    }
  }

  /** `/(\d+)<unit>/` can match starting at `a`: some run of digits from `a` is followed
      by the unit. */
  ghost predicate MatchesAt(s: string, unit: string, a: nat) {
    exists b: nat :: a < b <= |s| && AllDigits(s[a..b]) && OccursAt(s, unit, b)
  }

  /** `s[a..b]` is the number the regular expression captures when the search starts
      at `i`: digits followed by the unit, with no match starting between `i` and `a`. */
  ghost predicate FirstMatch(s: string, unit: string, i: nat, a: nat, b: nat) {
    i <= a < b <= |s| && AllDigits(s[a..b]) && OccursAt(s, unit, b)
    && forall a': nat :: i <= a' < a ==> !MatchesAt(s, unit, a')
  }

  /** When the unit does not start with a digit, the digits before it are a whole run:
      a match from `a` ends where the run from `a` ends. */
  lemma MatchEndsRun(s: string, unit: string, a: nat, b: nat)
    requires unit != [] && !IsDigit(unit[0])
    requires a < b <= |s| && AllDigits(s[a..b]) && OccursAt(s, unit, b)
    ensures b == DigitRunEnd(s, a)
  {
    assert s[b] == unit[0];
    if b < |s| {
      DigitRunOver(s, a, b);
    } else {
      MatchEndsRunAtEnd(s, a, b);
    }
  }

  /** `MatchFrom` is the leftmost-match search of the regular expression from `i`:
      it finds nothing exactly when no match starts at or after `i`, and otherwise
      the value of the first match's digits. */
  lemma {:induction false} MatchFromSpec(s: string, unit: string, i: nat)
    requires unit != [] && !IsDigit(unit[0])
    requires i <= |s|
    ensures MatchFrom(s, unit, i).None? <==> forall a: nat :: i <= a < |s| ==> !MatchesAt(s, unit, a)
    ensures forall n :: MatchFrom(s, unit, i) == Some(n) ==>
      exists a: nat, b: nat :: FirstMatch(s, unit, i, a, b) && n == DecimalValue(s[a..b])
    ensures forall a: nat, b: nat :: FirstMatch(s, unit, i, a, b) ==> MatchFrom(s, unit, i) == Some(DecimalValue(s[a..b]))
    decreases |s| - i
  {
    if i == |s| {
      return;
    }
    var next: nat := if IsDigit(s[i]) then DigitRunEnd(s, i) else i + 1;
    if IsDigit(s[i]) && OccursAt(s, unit, next) {
      assert MatchesAt(s, unit, i) by {
        assert i < next <= |s| && AllDigits(s[i..next]) && OccursAt(s, unit, next);
      }
      assert FirstMatch(s, unit, i, i, next);
      forall a: nat, b: nat | FirstMatch(s, unit, i, a, b)
        ensures MatchFrom(s, unit, i) == Some(DecimalValue(s[a..b]))
      {
        MatchEndsRun(s, unit, a, b);
      }
      return;
    }
    // no match starts between `i` and `next`
    forall a: nat | i <= a < next
      ensures !MatchesAt(s, unit, a)
    {
      if MatchesAt(s, unit, a) {
        var b: nat :| a < b <= |s| && AllDigits(s[a..b]) && OccursAt(s, unit, b);
        assert s[a] == s[a..b][0];
        if IsDigit(s[i]) {
          assert AllDigits(s[a..next]) by {
            assert forall k :: a <= k < next ==> s[k] == s[i..next][k - i];
          }
          if next < |s| {
            DigitRunOver(s, a, next);
          } else {
            MatchEndsRunAtEnd(s, a, next);
          }
          MatchEndsRun(s, unit, a, b);
        }
      }
    }
    MatchFromSpec(s, unit, next);
    assert MatchFrom(s, unit, i) == MatchFrom(s, unit, next);
    forall n | MatchFrom(s, unit, i) == Some(n)
      ensures exists a: nat, b: nat :: FirstMatch(s, unit, i, a, b) && n == DecimalValue(s[a..b])
    {
      var a: nat, b: nat :| FirstMatch(s, unit, next, a, b) && n == DecimalValue(s[a..b]);
      assert FirstMatch(s, unit, i, a, b);
    }
    forall a: nat, b: nat | FirstMatch(s, unit, i, a, b)
      ensures MatchFrom(s, unit, i) == Some(DecimalValue(s[a..b]))
    {
      if a < next {
        assert MatchesAt(s, unit, a);
      }
      assert FirstMatch(s, unit, next, a, b);
    }
  }

  /** A run of digits that reaches the end of the text ends there. */
  lemma {:induction false} MatchEndsRunAtEnd(s: string, a: nat, j: nat)
    requires a <= j == |s| && AllDigits(s[a..j])
    ensures DigitRunEnd(s, a) == j
    decreases j - a
  {
    if a < j {
      assert s[a] == s[a..j][0];
      assert s[a + 1..j] == s[a..j][1..];
      MatchEndsRunAtEnd(s, a + 1, j);
    }
  }

  /** `text.match(/(\d+)<unit>/)` fails exactly when no digits anywhere are followed by
      the unit. */
  lemma MatchCountNone(text: string, unit: string)
    requires unit != [] && !IsDigit(unit[0])
    ensures MatchCount(text, unit).None? <==> forall a: nat :: a < |text| ==> !MatchesAt(text, unit, a)
  {
    MatchFromSpec(text, unit, 0);
  }

  /** A number the search finds is the value of the leftmost digits followed by the unit. */
  lemma MatchCountFound(text: string, unit: string, n: nat)
    requires unit != [] && !IsDigit(unit[0])
    requires MatchCount(text, unit) == Some(n)
    ensures exists a: nat, b: nat :: FirstMatch(text, unit, 0, a, b) && n == DecimalValue(text[a..b])
  {
    MatchFromSpec(text, unit, 0);
  }

  /** The leftmost digits followed by the unit are what the search finds. */
  lemma MatchCountFirst(text: string, unit: string, a: nat, b: nat)
    requires unit != [] && !IsDigit(unit[0])
    requires FirstMatch(text, unit, 0, a, b)
    ensures MatchCount(text, unit) == Some(DecimalValue(text[a..b]))
  {
    MatchFromSpec(text, unit, 0);
  }

  /** A label with a number right at its front, followed by the unit, yields that number. */
  lemma MatchCountLeading(n: nat, unit: string, rest: string)
    requires unit != [] && !IsDigit(unit[0])
    ensures MatchCount(NatToDecimal(n) + unit + rest, unit) == Some(n)
  {
    var d := NatToDecimal(n);
    var s := d + unit + rest;
    assert s[..|d|] == d;
    DigitRunOver(s, 0, |d|);
    assert s[|d|..|d| + |unit|] == unit;
    assert s[0..|d|] == d;
    DecimalRoundTrip(n);
  }

  /** The digit run that starts at `i` extends over a known all-digit stretch up to `j`,
      and stops there when `s[j]` is not a digit. */
  lemma {:induction false} DigitRunOver(s: string, i: nat, j: nat)
    requires i <= j < |s| && AllDigits(s[i..j]) && !IsDigit(s[j])
    ensures DigitRunEnd(s, i) == j
    decreases j - i
  {
    if i < j {
      assert s[i] == s[i..j][0];
      assert s[i + 1..j] == s[i..j][1..];
      DigitRunOver(s, i + 1, j);
    }
  }

  /** The labels `formatRelativeTime` produces contain none of the other markers. */
  lemma RenderedMarkers(m: nat)
    ensures !Contains(NatToDecimal(m) + MinutesUnit + AgoSuffix, JustNowLabel)
    ensures !Contains(NatToDecimal(m) + HoursUnit + AgoSuffix, JustNowLabel)
    ensures !Contains(NatToDecimal(m) + HoursUnit + AgoSuffix, MinutesUnit)
  {
    var d := NatToDecimal(m);
    var a := d + MinutesUnit + AgoSuffix;
    var b := d + HoursUnit + AgoSuffix;
    assert forall k :: 0 <= k < |a| ==> k < |d| || a[k] in MinutesUnit + AgoSuffix;
    assert forall k :: 0 <= k < |b| ==> k < |d| || b[k] in HoursUnit + AgoSuffix;
    NotContainsWithoutHead(a, JustNowLabel);
    NotContainsWithoutHead(b, JustNowLabel);
    NotContainsWithoutHead(b, MinutesUnit);
  }

  /** Estimating from a label formatted a moment earlier recovers the timestamp to
      within the label's resolution: exactly `now` for `刚刚`, never later than the
      timestamp by a minute (or an hour) and never earlier than it for the minute
      (hour) labels, and nothing for a date label. */
  lemma EstimateAfterFormat(now: int, timestamp: int, dateLabel: int -> string)
    requires !Contains(dateLabel(timestamp), JustNowLabel)
    requires !Contains(dateLabel(timestamp), MinutesUnit)
    requires !Contains(dateLabel(timestamp), HoursUnit)
    ensures var e := EstimateTimestamp(FormatRelativeTime(now, timestamp, dateLabel), now);
      if now - timestamp < Minute then e == Some(now)
      else if now - timestamp < Hour then e.Some? && timestamp <= e.value < timestamp + Minute
      else if now - timestamp < Day then e.Some? && timestamp <= e.value < timestamp + Hour
      else e == None
  {
    var text := FormatRelativeTime(now, timestamp, dateLabel);
    match Classify(now, timestamp)
    case JustNow =>
      assert text[..|JustNowLabel|] == JustNowLabel;
    case MinutesAgo(m) =>
      RenderedMarkers(m);
      MatchCountLeading(m, MinutesUnit, AgoSuffix);
    case HoursAgo(h) =>
      RenderedMarkers(h);
      MatchFromNeedsUnit(text, MinutesUnit, 0);
      MatchCountLeading(h, HoursUnit, AgoSuffix);
    case OnDate(_) =>
      MatchFromNeedsUnit(text, MinutesUnit, 0);
      MatchFromNeedsUnit(text, HoursUnit, 0);
  }

  /** The minute check runs before the hour check: a label carrying both a minute
      and an hour count is read by its minutes. */
  lemma MinutesBeforeHours(text: string, now: int)
    requires text != [] && !Contains(text, JustNowLabel)
    requires MatchCount(text, MinutesUnit).Some? && MatchCount(text, HoursUnit).Some?
    ensures EstimateTimestamp(text, now) == Some(now - MatchCount(text, MinutesUnit).value * Minute)
  {
  }

  /** The meaning of `estimateTimestampFromLastActive` on labels without a number:
      nothing for an empty label, `now` for one containing `刚刚`, and nothing for a
      label with neither unit. */
  lemma EstimateCases(text: string, now: int)
    ensures text == [] ==> EstimateTimestamp(text, now) == None
    ensures text != [] && Contains(text, JustNowLabel) ==> EstimateTimestamp(text, now) == Some(now)
    ensures text != [] && !Contains(text, MinutesUnit) && !Contains(text, HoursUnit) && !Contains(text, JustNowLabel)
            ==> EstimateTimestamp(text, now) == None
  {
    if !Contains(text, MinutesUnit) && !Contains(text, HoursUnit) {
      MatchFromNeedsUnit(text, MinutesUnit, 0);
      MatchFromNeedsUnit(text, HoursUnit, 0);
    }
  }

  /** A label with digits before `分钟` is read as that many minutes ago, using the
      leftmost such digits. */
  lemma EstimateMinutes(text: string, now: int, a: nat, b: nat)
    requires text != [] && !Contains(text, JustNowLabel)
    requires FirstMatch(text, MinutesUnit, 0, a, b)
    ensures EstimateTimestamp(text, now) == Some(now - DecimalValue(text[a..b]) * Minute)
  {
    MatchCountFirst(text, MinutesUnit, a, b);
  }

  /** A label without digits before `分钟` but with digits before `小时` is read as that
      many hours ago, using the leftmost such digits. */
  lemma EstimateHours(text: string, now: int, a: nat, b: nat)
    requires text != [] && !Contains(text, JustNowLabel)
    requires forall m: nat :: m < |text| ==> !MatchesAt(text, MinutesUnit, m)
    requires FirstMatch(text, HoursUnit, 0, a, b)
    ensures EstimateTimestamp(text, now) == Some(now - DecimalValue(text[a..b]) * Hour)
  {
    MatchCountNone(text, MinutesUnit);
    EstimateHoursWithoutMinutes(text, now, a, b);
  }

  lemma EstimateHoursWithoutMinutes(text: string, now: int, a: nat, b: nat)
    requires text != [] && !Contains(text, JustNowLabel)
    requires MatchCount(text, MinutesUnit) == None
    requires FirstMatch(text, HoursUnit, 0, a, b)
    ensures EstimateTimestamp(text, now) == Some(now - DecimalValue(text[a..b]) * Hour)
  {
    MatchCountFirst(text, HoursUnit, a, b);
  }

  /** A label without `刚刚` and without digits before either unit gives nothing, however
      the units occur in it otherwise. */
  lemma EstimateNothing(text: string, now: int)
    requires !Contains(text, JustNowLabel)
    requires forall m: nat :: m < |text| ==> !MatchesAt(text, MinutesUnit, m)
    requires forall m: nat :: m < |text| ==> !MatchesAt(text, HoursUnit, m)
    ensures EstimateTimestamp(text, now) == None
  {
    MatchCountNone(text, MinutesUnit);
    MatchCountNone(text, HoursUnit);
  }
}

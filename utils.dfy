/** The pure helpers of src/utils.ts: padding, clamping, chunking, millisecond
    conversions, mentions and the phrase `getRelativeTimeString` builds. */
module Utils {
  import opened Strings
  import opened Calendar

  /** `pad(value)`: a `0` in front of values below 10. */
  function Pad(value: int): string
  {
    var digits := IntToString(value);
    if value < 10 then "0" + digits else digits
  }

  /** The padded text has the added `0` exactly below 10; a non-negative value padded is a
      numeral of the same value, two digits long below 100. */
  lemma PadDigits(value: int)
    ensures value < 10 <==> |Pad(value)| == |IntToString(value)| + 1
    ensures 0 <= value ==> AllDigits(Pad(value)) && DigitsValue(Pad(value)) == value
    ensures 0 <= value < 100 ==> |Pad(value)| == 2
  {
    var digits := IntToString(value);
    if value >= 0 {
      NatToStringLength(value);
      DigitsValueOfNatToString(value);
      if value < 10 {
        assert Pad(value) == Zeros(1) + digits;
        LeadingZeros(1, digits);
      }
    }
  }

  /** `clamp(min, value, max)`. */
  function Clamp(min: int, value: int, max: int): (r: int)
    ensures min <= max ==> min <= r <= max
    ensures min <= value <= max ==> r == value
    ensures value < min ==> r == min
    ensures min <= max < value ==> r == max
  {
    if value < min then min else if value > max then max else value
  }

  /** `minutes(amount)` in milliseconds. */
  function Minutes(amount: int): int
  {
    amount * 60 * 1000
  }

  /** `seconds(amount)` in milliseconds. */
  function Seconds(amount: int): int
  {
    amount * 1000
  }

  /** A minute is sixty seconds, and adding `n` minutes to an instant adds `minutes(n)`
      milliseconds. */
  lemma MinutesAreSeconds(amount: int, t: Instant)
    ensures Minutes(amount) == Seconds(60 * amount)
    ensures Add(t, amount, Minute) == t + Minutes(amount)
    ensures Seconds(amount) == amount * MsPerSecond
  {
  }

  /** `mentionUser(userId)`. */
  function MentionUser(userId: string): string
  {
    "<@" + userId + ">"
  }

  /** `mentionChannel(channelId)`. */
  function MentionChannel(channelId: string): string
  {
    "<#" + channelId + ">"
  }

  /** The id inside a mention of the given kind (`@` or `#`), if the text is one. */
  function MentionedId(s: string, kind: char): Option<string>
  {
    if |s| >= 3 && s[0] == '<' && s[1] == kind && s[|s| - 1] == '>' then Some(s[2..|s| - 1]) else None
  }

  /** A mention gives its id back, and user and channel mentions never coincide. */
  lemma MentionRoundTrip(id: string, other: string)
    ensures MentionedId(MentionUser(id), '@') == Some(id)
    ensures MentionedId(MentionChannel(id), '#') == Some(id)
    ensures MentionedId(MentionUser(id), '#') == None
    ensures MentionUser(id) != MentionChannel(other)
  {
    var u := MentionUser(id);
    assert u[2..|u| - 1] == id;
    var c := MentionChannel(id);
    assert c[2..|c| - 1] == id;
    assert MentionUser(id)[1] == '@' && MentionChannel(other)[1] == '#';
  }

  /** `chunk(input, length)`: consecutive slices of `length` characters, the last one
      possibly shorter. A `length` of zero or less never leaves the loop, so it
      is excluded. */
  method Chunk(input: string, length: int) returns (chunks: seq<string>)
    requires length > 0
    ensures Concat(chunks) == input
    ensures forall k :: 0 <= k < |chunks| ==> 0 < |chunks[k]| <= length
    ensures forall k :: 0 <= k < |chunks| - 1 ==> |chunks[k]| == length
    ensures |chunks| == (|input| + length - 1) / length
  {
    chunks := [];
    var i, n := 0, |input|;
    while i < n
      invariant 0 <= i <= n
      invariant i < n ==> i == |chunks| * length
      invariant |chunks| > 0 ==> (|chunks| - 1) * length < i <= |chunks| * length
      invariant Concat(chunks) == input[..i]
      invariant forall k :: 0 <= k < |chunks| ==> 0 < |chunks[k]| <= length
      invariant forall k :: 0 <= k < |chunks| - 1 ==> |chunks[k]| == length
      invariant i < n ==> forall k :: 0 <= k < |chunks| ==> |chunks[k]| == length
    {
      var end := if i + length < n then i + length else n;
      assert (|chunks| + 1) * length == |chunks| * length + length;
      ChunkStep(input, chunks, i, end);
      chunks := chunks + [input[i..end]];
      i := end;
    }
    if n == 0 {
      assert chunks == [];
    } else {
      CeilingDivision(n, length, |chunks|);
    }
    assert input[..n] == input;
  }

  /** Appending the next piece of `input` keeps the pieces spelling out a prefix of it. */
  lemma ChunkStep(input: string, chunks: seq<string>, i: int, end: int)
    requires 0 <= i <= end <= |input| && Concat(chunks) == input[..i]
    ensures Concat(chunks + [input[i..end]]) == input[..end]
  {
    ConcatAppend(chunks, input[i..end]);
    assert input[..end] == input[..i] + input[i..end];
  }

  /** `count` slices of `length` are the fewest that cover `n` characters. */
  lemma CeilingDivision(n: int, length: int, count: int)
    requires length > 0 && count > 0
    requires (count - 1) * length < n <= count * length
    ensures (n + length - 1) / length == count
  {
    var m := n + length - 1;
    var q := m / length;
    assert (count - 1) * length == count * length - length;
    assert count * length <= m < count * length + length;
    assert q * length <= m < q * length + length;
    if q < count {
      MulMonotone(q + 1, count, length);
    } else if q > count {
      MulMonotone(count + 1, q, length);
    }
  }

  lemma MulMonotone(a: int, b: int, c: int)
    requires a <= b && c > 0
    ensures a * c <= b * c
  {
    assert b * c - a * c == (b - a) * c;
  }

  /** `prepareTimeUnit(word, amount)`: the amount, a space and the word, with an `s`
      exactly when the amount is above one. */
  function PrepareTimeUnit(word: string, amount: int): (s: string)
    ensures |s| == |IntToString(amount)| + 1 + |word| + (if amount > 1 then 1 else 0)
    ensures s[..|IntToString(amount)| + 1 + |word|] == IntToString(amount) + " " + word
    ensures amount > 1 ==> s[|s| - 1] == 's'
  {
    IntToString(amount) + " " + (if amount > 1 then word + "s" else word)
  }

  /** The phrase `getRelativeTimeString` selects from its four differences. */
  function RelativePhrase(monthDiff: int, dayDiff: int, hourDiff: int, minuteDiff: int): string
  {
    if monthDiff > 0 then
      if dayDiff > 0 then PrepareTimeUnit("month", monthDiff) + " and " + PrepareTimeUnit("day", dayDiff)
      else PrepareTimeUnit("month", monthDiff)
    else if dayDiff > 0 then
      if dayDiff > 2 || (hourDiff == 0 && minuteDiff == 0) then PrepareTimeUnit("day", dayDiff)
      else if hourDiff > 0 && minuteDiff == 0 then PrepareTimeUnit("day", dayDiff) + " and " + PrepareTimeUnit("hour", hourDiff)
      else if hourDiff == 0 && minuteDiff > 0 then PrepareTimeUnit("day", dayDiff) + " and " + PrepareTimeUnit("minute", minuteDiff)
      else PrepareTimeUnit("day", dayDiff) + ", " + PrepareTimeUnit("hour", hourDiff) + " and " + PrepareTimeUnit("minute", minuteDiff)
    else if hourDiff > 0 then
      if minuteDiff > 0 then PrepareTimeUnit("hour", hourDiff) + " and " + PrepareTimeUnit("minute", minuteDiff)
      else PrepareTimeUnit("hour", hourDiff)
    else if minuteDiff > 0 then PrepareTimeUnit("minute", minuteDiff)
    else "less than a minute"
  }

  /** Rank of a unit word, largest unit first. */
  function Rank(word: string): int
  {
    match word
    case "month" => 0
    case "day" => 1
    case "hour" => 2
    case "minute" => 3
    case _ => 4
  }

  /** Which (unit, amount) parts a phrase mentions: months with days; otherwise up to three
      days alone; otherwise every non-zero part of days, hours and minutes. */
  function PhraseParts(monthDiff: int, dayDiff: int, hourDiff: int, minuteDiff: int): (parts: seq<(string, int)>)
    ensures forall k :: 0 <= k < |parts| ==> parts[k].1 > 0
    ensures forall k :: 0 <= k < |parts| - 1 ==> Rank(parts[k].0) < Rank(parts[k + 1].0)
  {
    var days := if dayDiff > 0 then [("day", dayDiff)] else [];
    var hours := if hourDiff > 0 then [("hour", hourDiff)] else [];
    var mins := if minuteDiff > 0 then [("minute", minuteDiff)] else [];
    if monthDiff > 0 then [("month", monthDiff)] + days
    else if dayDiff > 2 then days
    else days + hours + mins
  }

  /** How parts are joined: one alone, two with `and`, three with a comma and `and`. */
  function Render(parts: seq<(string, int)>): string
    requires |parts| <= 3
  {
    if |parts| == 0 then "less than a minute"
    else if |parts| == 1 then PrepareTimeUnit(parts[0].0, parts[0].1)
    else if |parts| == 2 then PrepareTimeUnit(parts[0].0, parts[0].1) + " and " + PrepareTimeUnit(parts[1].0, parts[1].1)
    else PrepareTimeUnit(parts[0].0, parts[0].1) + ", " + PrepareTimeUnit(parts[1].0, parts[1].1)
         + " and " + PrepareTimeUnit(parts[2].0, parts[2].1)
  }

  /** For the non-negative differences the stepping produces, the phrase is the rendering
      of its parts. */
  lemma PhraseIsRenderedParts(monthDiff: int, dayDiff: int, hourDiff: int, minuteDiff: int)
    requires dayDiff >= 0 && hourDiff >= 0 && minuteDiff >= 0
    ensures |PhraseParts(monthDiff, dayDiff, hourDiff, minuteDiff)| <= 3
    ensures RelativePhrase(monthDiff, dayDiff, hourDiff, minuteDiff) == Render(PhraseParts(monthDiff, dayDiff, hourDiff, minuteDiff))
  {
    if monthDiff > 0 || dayDiff > 2 {
      LongPhraseParts(monthDiff, dayDiff, hourDiff, minuteDiff);
    } else {
      ShortPhraseParts(monthDiff, dayDiff, hourDiff, minuteDiff);
    }
  }

  lemma LongPhraseParts(monthDiff: int, dayDiff: int, hourDiff: int, minuteDiff: int)
    requires dayDiff >= 0 && hourDiff >= 0 && minuteDiff >= 0
    requires monthDiff > 0 || dayDiff > 2
    ensures |PhraseParts(monthDiff, dayDiff, hourDiff, minuteDiff)| <= 3
    ensures RelativePhrase(monthDiff, dayDiff, hourDiff, minuteDiff) == Render(PhraseParts(monthDiff, dayDiff, hourDiff, minuteDiff))
  {
    var parts := PhraseParts(monthDiff, dayDiff, hourDiff, minuteDiff);
    if monthDiff > 0 {
      assert parts == [("month", monthDiff)] + (if dayDiff > 0 then [("day", dayDiff)] else []);
    } else {
      assert parts == [("day", dayDiff)];
    }
  }

  lemma ShortPhraseParts(monthDiff: int, dayDiff: int, hourDiff: int, minuteDiff: int)
    requires dayDiff >= 0 && hourDiff >= 0 && minuteDiff >= 0
    requires monthDiff <= 0 && dayDiff <= 2
    ensures |PhraseParts(monthDiff, dayDiff, hourDiff, minuteDiff)| <= 3
    ensures RelativePhrase(monthDiff, dayDiff, hourDiff, minuteDiff) == Render(PhraseParts(monthDiff, dayDiff, hourDiff, minuteDiff))
  {
    var parts := PhraseParts(monthDiff, dayDiff, hourDiff, minuteDiff);
    var days := if dayDiff > 0 then [("day", dayDiff)] else [];
    var hours := if hourDiff > 0 then [("hour", hourDiff)] else [];
    var mins := if minuteDiff > 0 then [("minute", minuteDiff)] else [];
    assert parts == days + hours + mins;
    if dayDiff > 0 && hourDiff > 0 && minuteDiff > 0 {
      assert parts == [("day", dayDiff), ("hour", hourDiff), ("minute", minuteDiff)];
    }
  }

  /** No difference: `less than a minute`. A month difference mentions only months and
      days; otherwise more than two days mention only the days. */
  lemma PhraseSelection(monthDiff: int, dayDiff: int, hourDiff: int, minuteDiff: int)
    ensures monthDiff <= 0 && dayDiff <= 0 && hourDiff <= 0 && minuteDiff <= 0 ==>
              RelativePhrase(monthDiff, dayDiff, hourDiff, minuteDiff) == "less than a minute"
    ensures monthDiff > 0 ==> forall p :: p in PhraseParts(monthDiff, dayDiff, hourDiff, minuteDiff) ==> p.0 in {"month", "day"}
    ensures monthDiff <= 0 && dayDiff > 2 ==> PhraseParts(monthDiff, dayDiff, hourDiff, minuteDiff) == [("day", dayDiff)]
  {
  }

  /** moment's `diff` in a fixed-length unit: truncated toward zero. */
  function DiffIn(later: Instant, earlier: Instant, unitMs: int): int
    requires unitMs > 0
  {
    var d := later - earlier;
    if d >= 0 then d / unitMs else -((-d) / unitMs)
  }

  /** The day, hour and minute differences of `getRelativeTimeString` after `past` has
      been moved by the month difference (computed by moment, given here as `monthDiff`):
      each is taken and then stepped over before the next. */
  function StepDiffs(past: Instant, future: Instant, monthDiff: int): (int, int, int)
  {
    DiffsFrom(if monthDiff > 0 then Add(past, monthDiff, Month) else past, future)
  }

  /** The day, hour and minute differences taken from the instant `a` onwards. */
  function DiffsFrom(a: Instant, future: Instant): (int, int, int)
  {
    var dayDiff := DiffIn(future, a, MsPerDay);
    var a' := if dayDiff > 0 then Add(a, dayDiff, Day) else a;
    var hourDiff := DiffIn(future, a', MsPerHour);
    var a'' := if hourDiff > 0 then Add(a', hourDiff, Hour) else a';
    var minuteDiff := DiffIn(future, a'', MsPerMinute);
    (dayDiff, hourDiff, minuteDiff)
  }

  /** `getRelativeTimeString(past, future)`. */
  function RelativeTimeString(past: Instant, future: Instant, monthDiff: int): string
  {
    var (d, h, m) := StepDiffs(past, future, monthDiff);
    RelativePhrase(monthDiff, d, h, m)
  }

  /** When `future` is not before the month-stepped instant, the remaining difference splits
      into whole days, fewer than 24 hours and fewer than 60 minutes, short of `future` by
      less than a minute. */
  lemma StepDiffsDecompose(past: Instant, future: Instant, monthDiff: int)
    requires future >= (if monthDiff > 0 then Add(past, monthDiff, Month) else past)
    ensures var a := if monthDiff > 0 then Add(past, monthDiff, Month) else past;
            var (d, h, m) := StepDiffs(past, future, monthDiff);
            && d >= 0 && 0 <= h < 24 && 0 <= m < 60
            && a + d * MsPerDay + h * MsPerHour + m * MsPerMinute <= future
            && future < a + d * MsPerDay + h * MsPerHour + (m + 1) * MsPerMinute
  {
    DiffsFromDecompose(if monthDiff > 0 then Add(past, monthDiff, Month) else past, future);
  }

  lemma DiffsFromDecompose(a: Instant, future: Instant)
    requires future >= a
    ensures var (d, h, m) := DiffsFrom(a, future);
            && d >= 0 && 0 <= h < 24 && 0 <= m < 60
            && a + d * MsPerDay + h * MsPerHour + m * MsPerMinute <= future
            && future < a + d * MsPerDay + h * MsPerHour + (m + 1) * MsPerMinute
  {
    var r := future - a;
    var d := r / MsPerDay;
    var r1 := r % MsPerDay;
    var h := r1 / MsPerHour;
    var r2 := r1 % MsPerHour;
    var m := r2 / MsPerMinute;
    assert r == d * MsPerDay + r1;
    assert r1 == h * MsPerHour + r2;
    assert r2 == m * MsPerMinute + r2 % MsPerMinute;
    AddFixedLength(a, d);
    AddFixedLength(a + d * MsPerDay, h);
    assert DiffIn(future, a, MsPerDay) == d;
    assert DiffIn(future, a + d * MsPerDay, MsPerHour) == h;
    assert DiffIn(future, a + d * MsPerDay + h * MsPerHour, MsPerMinute) == m;
  }
}

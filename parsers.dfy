/** The two time-expression parsers of src/parsers.ts: relative durations such as
    `3d2h1m`, and absolute dates such as `fri 11:05` or `31/01/2030 00:45`. The zone is
    fixed at UTC+0 (see module Calendar). */
module Parsers {
  import opened Strings
  import opened Calendar

  /** The `timeValues` dictionary: raw unit token to value, in insertion order. */
  type TimeValues = seq<(string, nat)>

  /** `RelativeTime`: `{ valid: false }` or `{ valid: true, date, timeValues }`. */
  datatype RelativeTime = RelativeInvalid | RelativeValid(date: Instant, timeValues: TimeValues)

  /** `AbsoluteTime`: `{ valid: false }` or `{ valid: true, date, isTimeInputted }`; the date
      may be moment's "Invalid date", since only the shape of the text is checked. */
  datatype AbsoluteTime = AbsoluteInvalid | AbsoluteValid(date: Moment, isTimeInputted: bool)

  // ---------------------------------------------------------------------------
  // Relative time

  /** A token of `/[0-9]+|[A-Za-z]+/g`: a non-empty run of digits or of ASCII letters. */
  predicate IsToken(t: string) { |t| > 0 && (AllDigits(t) || AllLetters(t)) }

  /** `text.match(/[0-9]+|[A-Za-z]+/g)`: the maximal digit runs and letter runs, left to
      right; every other character only separates tokens. */
  function Tokenize(s: string): (tokens: seq<string>)
    ensures forall k :: 0 <= k < |tokens| ==> IsToken(tokens[k])
    decreases |s|
  {
    if s == [] then []
    else if IsDigit(s[0]) then
      var n := DigitRun(s);
      [s[..n]] + Tokenize(s[n..])
    else if IsAsciiLetter(s[0]) then
      var n := LetterRun(s);
      [s[..n]] + Tokenize(s[n..])
    else Tokenize(s[1..])
  }

  /** Tokens in which digit runs and letter runs alternate. */
  predicate Alternating(tokens: seq<string>)
  {
    && (forall k :: 0 <= k < |tokens| ==> IsToken(tokens[k]))
    && (forall k :: 0 <= k < |tokens| - 1 ==> (IsDigit(tokens[k][0]) <==> !IsDigit(tokens[k + 1][0])))
  }

  /** Tokenizing the concatenation of alternating runs gives the runs back. */
  lemma {:induction false} TokenizeConcat(tokens: seq<string>)
    requires Alternating(tokens)
    ensures Tokenize(Concat(tokens)) == tokens
  {
    if tokens != [] {
      var a, rest := tokens[0], Concat(tokens[1..]);
      assert Alternating(tokens[1..]) by {
        assert forall k :: 0 <= k < |tokens| - 1 ==> tokens[1..][k] == tokens[k + 1];
      }
      TokenizeConcat(tokens[1..]);
      if |tokens| > 1 {
        assert rest == tokens[1] + Concat(tokens[2..]) by {
          assert tokens[1..][1..] == tokens[2..];
        }
        assert rest[0] == tokens[1][0];
      }
      if IsDigit(a[0]) {
        TokenizeDigitRun(a, rest);
      } else {
        TokenizeLetterRun(a, rest);
      }
    }
  }

  /** A maximal digit run at the front of the text is the first token. */
  lemma TokenizeDigitRun(a: string, rest: string)
    requires |a| > 0 && AllDigits(a) && (rest == [] || !IsDigit(rest[0]))
    ensures Tokenize(a + rest) == [a] + Tokenize(rest)
  {
    RunLength(a, rest, true);
    assert (a + rest)[|a|..] == rest;
  }

  /** A maximal letter run at the front of the text is the first token. */
  lemma TokenizeLetterRun(a: string, rest: string)
    requires |a| > 0 && AllLetters(a) && (rest == [] || !IsAsciiLetter(rest[0]))
    ensures Tokenize(a + rest) == [a] + Tokenize(rest)
  {
    RunLength(a, rest, false);
    assert (a + rest)[|a|..] == rest;
  }

  /** Any other character only separates tokens. */
  lemma TokenizeSeparator(c: char, rest: string)
    requires !IsDigit(c) && !IsAsciiLetter(c)
    ensures Tokenize([c] + rest) == Tokenize(rest)
  {
    assert ([c] + rest)[1..] == rest;
  }

  lemma {:induction false} RunLength(a: string, rest: string, digits: bool)
    requires |a| > 0
    requires digits ==> AllDigits(a) && (rest == [] || !IsDigit(rest[0]))
    requires !digits ==> AllLetters(a) && (rest == [] || !IsAsciiLetter(rest[0]))
    ensures digits ==> DigitRun(a + rest) == |a| && (a + rest)[..|a|] == a
    ensures !digits ==> LetterRun(a + rest) == |a| && (a + rest)[..|a|] == a
    decreases |a|
  {
    assert (a + rest)[1..] == a[1..] + rest;
    if |a| > 1 {
      RunLength(a[1..], rest, digits);
    }
  }

  /** `Number(token)` for a token: the value of a digit run; NaN (None) for a letter run. */
  function NumberOf(token: string): Option<nat>
  {
    if token != [] && AllDigits(token) then Some(DigitsValue(token)) else None
  }

  /** The unit a raw token names: the case-sensitive alias list of the `switch`. */
  function UnitOf(token: string): Option<Unit>
  {
    match token
    case "year" => Some(Year)
    case "y" => Some(Year)
    case "month" => Some(Month)
    case "mo" => Some(Month)
    case "week" => Some(Week)
    case "w" => Some(Week)
    case "day" => Some(Day)
    case "d" => Some(Day)
    case "hour" => Some(Hour)
    case "h" => Some(Hour)
    case "minute" => Some(Minute)
    case "m" => Some(Minute)
    case _ => None
  }

  /** `timeValues[unit]`: the value stored under a raw unit token, if any. */
  function Lookup(tv: TimeValues, unit: string): (r: Option<nat>)
    ensures r.Some? <==> exists k :: 0 <= k < |tv| && tv[k].0 == unit
  {
    if tv == [] then None
    else if tv[|tv| - 1].0 == unit then Some(tv[|tv| - 1].1)
    else
      var r := Lookup(tv[..|tv| - 1], unit);
      assert forall k :: 0 <= k < |tv| - 1 ==> tv[..|tv| - 1][k] == tv[k];
      r
  }

  /** The (value token, unit token) pairs of an even-length token sequence. */
  function Pairs(tokens: seq<string>): (ps: seq<(string, string)>)
    ensures |ps| == |tokens| / 2
  {
    seq(|tokens| / 2, k requires 0 <= k < |tokens| / 2 => (tokens[2 * k], tokens[2 * k + 1]))
  }

  /** A sequence of pairs the first loop lets through: positive values, no unit token twice. */
  predicate PairsAccepted(ps: seq<(string, string)>)
  {
    && (forall k :: 0 <= k < |ps| ==> NumberOf(ps[k].0).Some? && NumberOf(ps[k].0).value > 0)
    && (forall k, l :: 0 <= k < l < |ps| ==> ps[k].1 != ps[l].1)
  }

  /** Every unit token is one of the aliases of the `switch`. */
  predicate UnitsKnown(tv: TimeValues)
  {
    forall k :: 0 <= k < |tv| ==> UnitOf(tv[k].0).Some?
  }

  function TimeValuesOf(ps: seq<(string, string)>): (tv: TimeValues)
    ensures |tv| == |ps|
    ensures forall k :: 0 <= k < |ps| ==> tv[k].0 == ps[k].1
  {
    seq(|ps|, k requires 0 <= k < |ps| => (ps[k].1, match NumberOf(ps[k].0) case Some(v) => v case None => 0))
  }

  /** Adds one entry of the dictionary to a date; an entry whose unit is not known leaves
      the date as it is (the parser never gets that far with one). */
  function AddEntry(date: Instant, entry: (string, nat)): Instant
  {
    match UnitOf(entry.0)
    case Some(u) => Add(date, entry.1, u)
    case None => date
  }

  /** `step` applied to `start` and each entry in turn, first to last. */
  function FoldEntries(step: (Instant, (string, nat)) -> Instant, start: Instant, tv: TimeValues): Instant
  {
    if tv == [] then start else step(FoldEntries(step, start, tv[..|tv| - 1]), tv[|tv| - 1])
  }

  /** Folding over two dictionaries one after the other is folding over their concatenation. */
  lemma {:induction false} FoldEntriesAppend(step: (Instant, (string, nat)) -> Instant, start: Instant, tv: TimeValues, more: TimeValues)
    ensures FoldEntries(step, start, tv + more) == FoldEntries(step, FoldEntries(step, start, tv), more)
    decreases |more|
  {
    if more == [] {
      assert tv + more == tv;
    } else {
      var init := more[..|more| - 1];
      assert (tv + more)[..|tv + more| - 1] == tv + init;
      assert (tv + more)[|tv + more| - 1] == more[|more| - 1];
      FoldEntriesAppend(step, start, tv, init);
    }
  }

  /** The instant `start` with each unit added in the order of `tv`. */
  function ApplyUnits(start: Instant, tv: TimeValues): Instant
    requires UnitsKnown(tv)
  {
    FoldEntries(AddEntry, start, tv)
  }

  /** One more known unit adds that unit to the date so far. */
  lemma ApplyUnitsStep(start: Instant, tv: TimeValues, j: nat)
    requires j < |tv| && UnitsKnown(tv[..j]) && UnitOf(tv[j].0).Some?
    ensures UnitsKnown(tv[..j + 1])
    ensures ApplyUnits(start, tv[..j + 1]) == Add(ApplyUnits(start, tv[..j]), tv[j].1, UnitOf(tv[j].0).value)
  {
    assert tv[..j + 1][..j] == tv[..j];
  }

  /** Applying two dictionaries one after the other is applying their concatenation. */
  lemma ApplyUnitsAppend(start: Instant, tv: TimeValues, more: TimeValues)
    requires UnitsKnown(tv) && UnitsKnown(more)
    ensures UnitsKnown(tv + more)
    ensures ApplyUnits(start, tv + more) == ApplyUnits(ApplyUnits(start, tv), more)
  {
    assert UnitsKnown(tv + more) by {
      forall k | 0 <= k < |tv + more|
        ensures UnitOf((tv + more)[k].0).Some?
      {
        if k >= |tv| {
          assert (tv + more)[k] == more[k - |tv|];
        }
      }
    }
    FoldEntriesAppend(AddEntry, start, tv, more);
  }

  /** What `parseRelativeTime` returns, stated declaratively: the tokens come in
      (value, unit) pairs with positive values, distinct raw unit tokens and known units;
      the date is `start` with every unit added in input order. */
  function RelativeTimeSpec(start: Instant, text: string): RelativeTime
  {
    RelativeTimeOfTokens(start, Tokenize(text))
  }

  /** The outcome for a token sequence. */
  function RelativeTimeOfTokens(start: Instant, tokens: seq<string>): RelativeTime
  {
    if tokens == [] || |tokens| % 2 == 1 then RelativeInvalid
    else
      var ps := Pairs(tokens);
      var tv := TimeValuesOf(ps);
      if PairsAccepted(ps) && UnitsKnown(tv) then RelativeValid(ApplyUnits(start, tv), tv)
      else RelativeInvalid
  }

  /** `parseRelativeTime(start, relativeTime, tz)` (duplicated as the private function of
      the same name in src/remindercommands.ts). */
  method ParseRelativeTime(start: Instant, relativeTime: string) returns (r: RelativeTime)
    ensures r == RelativeTimeSpec(start, relativeTime)
  {
    var tokens := Tokenize(relativeTime);
    ghost var matched := tokens;
    var noMatch := tokens == [];
    if noMatch {
      // `match` gives null and `?? [,]` a one-element array; its only element is never read
      tokens := [""];
    }
    var timeValues: TimeValues := [];
    var i := 0;
    while i < |tokens|
      invariant 0 <= i <= |tokens| && i % 2 == 0
      invariant timeValues == TimeValuesOf(Pairs(tokens[..i]))
      invariant PairsAccepted(Pairs(tokens[..i]))
    {
      // a unit token already present (also an inherited key such as `constructor`, which
      // the alias check below rejects in any case), NaN, or a value <= 0
      if i + 1 >= |tokens| || Lookup(timeValues, tokens[i + 1]).Some?
         || NumberOf(tokens[i]).None? || NumberOf(tokens[i]).value <= 0
      {
        InvalidWhenPairFails(start, matched, tokens, noMatch, i);
        return RelativeInvalid;
      }
      AcceptedExtend(tokens, i);
      timeValues := timeValues + [(tokens[i + 1], NumberOf(tokens[i]).value)];
      i := i + 2;
    }
    assert tokens[..i] == tokens;
    assert !noMatch;
    r := AddUnits(start, timeValues);
  }

  /** The second loop of `parseRelativeTime`: `for (const unit in timeValues)` visits the
      keys in insertion order (every key a unit alias can be is a string, not an array
      index); an unknown unit makes the whole result invalid. */
  method AddUnits(start: Instant, timeValues: TimeValues) returns (r: RelativeTime)
    ensures r == if UnitsKnown(timeValues) then RelativeValid(ApplyUnits(start, timeValues), timeValues) else RelativeInvalid
  {
    var date := start;
    var j := 0;
    while j < |timeValues|
      invariant 0 <= j <= |timeValues|
      invariant UnitsKnown(timeValues[..j])
      invariant date == ApplyUnits(start, timeValues[..j])
    {
      var unit := timeValues[j].0;
      var value := timeValues[j].1;
      if UnitOf(unit).None? {
        assert !UnitOf(timeValues[j].0).Some?;
        return RelativeInvalid;
      }
      ApplyUnitsStep(start, timeValues, j);
      date := Add(date, value, UnitOf(unit).value);
      j := j + 1;
    }
    assert timeValues[..j] == timeValues;
    return RelativeValid(date, timeValues);
  }

  /** One more accepted pair extends the pairs, the accepted prefix and the dictionary. */
  lemma AcceptedExtend(tokens: seq<string>, i: nat)
    requires i % 2 == 0 && i + 2 <= |tokens|
    requires PairsAccepted(Pairs(tokens[..i]))
    requires Lookup(TimeValuesOf(Pairs(tokens[..i])), tokens[i + 1]).None?
    requires NumberOf(tokens[i]).Some? && NumberOf(tokens[i]).value > 0
    ensures PairsAccepted(Pairs(tokens[..i + 2]))
    ensures TimeValuesOf(Pairs(tokens[..i + 2]))
            == TimeValuesOf(Pairs(tokens[..i])) + [(tokens[i + 1], NumberOf(tokens[i]).value)]
  {
    var ps, ps' := Pairs(tokens[..i]), Pairs(tokens[..i + 2]);
    assert ps' == ps + [(tokens[i], tokens[i + 1])];
    forall k | 0 <= k < |ps|
      ensures ps[k].1 != tokens[i + 1]
    {
      assert TimeValuesOf(ps)[k].0 == ps[k].1;
    }
  }

  /** A failing check at pair `i` of the first loop makes the declarative result invalid. */
  lemma InvalidWhenPairFails(start: Instant, matched: seq<string>, tokens: seq<string>, noMatch: bool, i: nat)
    requires noMatch <==> matched == []
    requires tokens == if noMatch then [""] else matched
    requires i % 2 == 0 && i < |tokens|
    requires i + 1 >= |tokens| || Lookup(TimeValuesOf(Pairs(tokens[..i])), tokens[i + 1]).Some?
             || NumberOf(tokens[i]).None? || NumberOf(tokens[i]).value <= 0
    ensures RelativeTimeOfTokens(start, matched) == RelativeInvalid
  {
    if !noMatch && |tokens| % 2 == 0 {
      var ps := Pairs(tokens);
      assert ps[i / 2] == (tokens[i], tokens[i + 1]);
      if Lookup(TimeValuesOf(Pairs(tokens[..i])), tokens[i + 1]).Some? {
        var k :| 0 <= k < i / 2 && TimeValuesOf(Pairs(tokens[..i]))[k].0 == tokens[i + 1];
        assert ps[k] == Pairs(tokens[..i])[k];
        assert ps[k].1 == ps[i / 2].1;
      }
    }
  }

  /** An empty or odd token sequence is invalid: `""`, `abcd` and `1.1d` among others. */
  lemma OddTokensInvalid(start: Instant, text: string)
    requires |Tokenize(text)| % 2 == 1 || Tokenize(text) == []
    ensures RelativeTimeSpec(start, text) == RelativeInvalid
  {
  }

  /** A value token that is not a positive number, at any pair, makes the input invalid. */
  lemma NonPositiveInvalid(start: Instant, text: string, k: nat)
    requires 2 * k < |Tokenize(text)|
    requires NumberOf(Tokenize(text)[2 * k]).None? || NumberOf(Tokenize(text)[2 * k]).value == 0
    ensures RelativeTimeSpec(start, text) == RelativeInvalid
  {
    var tokens := Tokenize(text);
    if |tokens| % 2 == 0 {
      assert Pairs(tokens)[k].0 == tokens[2 * k];
    }
  }

  /** A unit token outside the twelve aliases, at any pair, makes the input invalid, even
      after valid pairs; the match is case-sensitive. */
  lemma UnknownUnitInvalid(start: Instant, text: string, k: nat)
    requires 2 * k + 1 < |Tokenize(text)|
    requires UnitOf(Tokenize(text)[2 * k + 1]).None?
    ensures RelativeTimeSpec(start, text) == RelativeInvalid
  {
    var tokens := Tokenize(text);
    if |tokens| % 2 == 0 {
      assert TimeValuesOf(Pairs(tokens))[k].0 == tokens[2 * k + 1];
    }
  }

  /** The same raw unit token twice makes the input invalid (`1d1d`); different aliases of
      one unit do not (see ParserExamples). */
  lemma RepeatedUnitInvalid(start: Instant, text: string, k: nat, l: nat)
    requires k < l && 2 * l + 1 < |Tokenize(text)|
    requires Tokenize(text)[2 * k + 1] == Tokenize(text)[2 * l + 1]
    ensures RelativeTimeSpec(start, text) == RelativeInvalid
  {
    var tokens := Tokenize(text);
    if |tokens| % 2 == 0 {
      assert Pairs(tokens)[k].1 == Pairs(tokens)[l].1;
    }
  }

  /** On success `timeValues` has one entry per pair, in input order, under distinct keys,
      and looking up a pair's unit token gives that pair's number. */
  lemma ValidTimeValues(start: Instant, text: string)
    requires RelativeTimeSpec(start, text).RelativeValid?
    ensures var tokens := Tokenize(text);
            var tv := RelativeTimeSpec(start, text).timeValues;
            && |tokens| == 2 * |tv|
            && (forall k :: 0 <= k < |tv| ==>
                  tv[k].0 == tokens[2 * k + 1] && AllDigits(tokens[2 * k]) && tv[k].1 == DigitsValue(tokens[2 * k]) > 0)
            && (forall k :: 0 <= k < |tv| ==> Lookup(tv, tv[k].0) == Some(tv[k].1))
  {
    var tokens := Tokenize(text);
    var ps := Pairs(tokens);
    var tv := TimeValuesOf(ps);
    forall k | 0 <= k < |tv|
      ensures tv[k].0 == tokens[2 * k + 1] && AllDigits(tokens[2 * k])
              && tv[k].1 == DigitsValue(tokens[2 * k]) > 0
    {
      assert ps[k] == (tokens[2 * k], tokens[2 * k + 1]);
    }
    forall k | 0 <= k < |tv|
      ensures Lookup(tv, tv[k].0) == Some(tv[k].1)
    {
      LookupDistinct(tv, k);
    }
  }

  /** Conversely, tokens that form positive pairs over distinct known units are accepted,
      with exactly those pairs as `timeValues`. */
  lemma RelativeValidWhen(start: Instant, text: string, tv: TimeValues)
    requires var tokens := Tokenize(text);
             && |tokens| == 2 * |tv| > 0
             && (forall k :: 0 <= k < |tv| ==>
                   tokens[2 * k + 1] == tv[k].0 && NumberOf(tokens[2 * k]) == Some(tv[k].1) && tv[k].1 > 0)
    requires UnitsKnown(tv)
    requires forall k, l :: 0 <= k < l < |tv| ==> tv[k].0 != tv[l].0
    ensures RelativeTimeSpec(start, text) == RelativeValid(ApplyUnits(start, tv), tv)
  {
    PairsOfTokens(Tokenize(text), tv);
  }

  /** Tokens that form positive pairs over distinct units are accepted pairs whose
      dictionary is `tv`. */
  lemma PairsOfTokens(tokens: seq<string>, tv: TimeValues)
    requires |tokens| == 2 * |tv| > 0
    requires forall k :: 0 <= k < |tv| ==>
               tokens[2 * k + 1] == tv[k].0 && NumberOf(tokens[2 * k]) == Some(tv[k].1) && tv[k].1 > 0
    requires forall k, l :: 0 <= k < l < |tv| ==> tv[k].0 != tv[l].0
    ensures TimeValuesOf(Pairs(tokens)) == tv && PairsAccepted(Pairs(tokens))
  {
    assert TimeValuesOf(Pairs(tokens)) == tv;
  }

  /** In a dictionary with distinct keys, looking up the key of entry `k` finds entry `k`. */
  lemma {:induction false} LookupDistinct(tv: TimeValues, k: nat)
    requires k < |tv|
    requires forall i, j :: 0 <= i < j < |tv| ==> tv[i].0 != tv[j].0
    ensures Lookup(tv, tv[k].0) == Some(tv[k].1)
  {
    if k < |tv| - 1 {
      var init := tv[..|tv| - 1];
      assert init[k] == tv[k];
      LookupDistinct(init, k);
    }
  }

  // ---------------------------------------------------------------------------
  // Absolute time

  /** `/^[A-Za-z]+$/`. */
  predicate IsWordText(s: string) { |s| > 0 && AllLetters(s) }

  /** The `switch` on the lower-cased word: 0..6 for Sunday..Saturday, -2 for `today`,
      -1 for anything else. */
  function WeekdayNumber(lower: string): (w: int)
    ensures -2 <= w <= 6
  {
    match lower
    case "sun" => 0
    case "sunday" => 0
    case "mon" => 1
    case "monday" => 1
    case "tue" => 2
    case "tuesday" => 2
    case "wed" => 3
    case "wednesday" => 3
    case "thu" => 4
    case "thursday" => 4
    case "fri" => 5
    case "friday" => 5
    case "sat" => 6
    case "saturday" => 6
    case "today" => -2
    case _ => -1
  }

  predicate IsOneOrTwoDigits(s: string) { 1 <= |s| <= 2 && AllDigits(s) }

  predicate IsFourDigits(s: string) { |s| == 4 && AllDigits(s) }

  /** `/^([\d]{1,2})\/([\d]{1,2})$/`. */
  predicate IsShortDate(s: string)
  {
    var p := Split(s, '/');
    |p| == 2 && IsOneOrTwoDigits(p[0]) && IsOneOrTwoDigits(p[1])
  }

  /** `/^([\d]{1,2})\/([\d]{1,2})\/([\d]{4})$/`. */
  predicate IsLongDate(s: string)
  {
    var p := Split(s, '/');
    |p| == 3 && IsOneOrTwoDigits(p[0]) && IsOneOrTwoDigits(p[1]) && IsFourDigits(p[2])
  }

  /** `/^[\d]{1,2}[hH]$/`. */
  predicate IsShortTime(s: string)
  {
    2 <= |s| <= 3 && (s[|s| - 1] == 'h' || s[|s| - 1] == 'H') && AllDigits(s[..|s| - 1])
  }

  /** `/^([\d]{1,2}):([\d]{2})$/`. */
  predicate IsLongTime(s: string)
  {
    var p := Split(s, ':');
    |p| == 2 && IsOneOrTwoDigits(p[0]) && |p[1]| == 2 && AllDigits(p[1])
  }

  /** `zeroPad` applied to a numeral its caller has already matched as digits, whose
      `parseInt` is therefore `n`. */
  function ZeroPad(n: nat): (s: string)
    ensures AllDigits(s)
  {
    if n < 10 then "0" + NatToString(n) else NatToString(n)
  }

  /** The days to add to reach weekday `target` from weekday `current`. */
  function DaysAhead(target: int, current: int): int
  {
    if target > current then target - current else target + 7 - current
  }

  /** The day, month and year fields `convertAbsoluteTimeRawInput` interpolates into
      `convertedDate`, or None when `convertedDate` stays `"invalid"`. */
  function DateFields(dateArg: string, now: Instant): Option<(string, string, string)>
  {
    if IsWordText(dateArg) then
      var w := WeekdayNumber(ToLower(dateArg));
      if w == -1 then None
      else if w == -2 then Some(FormatFields(now))
      else Some(FormatFields(Add(now, DaysAhead(w, Weekday(now)), Day)))
    else if IsShortDate(dateArg) then
      var p := Split(dateArg, '/');
      Some((ZeroPad(DigitsValue(p[0])), ZeroPad(DigitsValue(p[1])), IntToString(DateOf(now).year)))
    else if IsLongDate(dateArg) then
      var p := Split(dateArg, '/');
      Some((ZeroPad(DigitsValue(p[0])), ZeroPad(DigitsValue(p[1])), ZeroPad(DigitsValue(p[2]))))
    else None
  }

  /** `convertedDate`. */
  function ConvertDate(dateArg: string, now: Instant): string
  {
    match DateFields(dateArg, now)
    case None => "invalid"
    case Some((d, m, y)) => d + "/" + m + "/" + y
  }

  /** `convertedTime` and `isTimeInputted`; an absent time argument is None (`test(undefined)`
      reads the text "undefined", which neither time form matches). */
  function ConvertTime(timeArg: Option<string>): (string, bool)
  {
    if timeArg.Some? && IsShortTime(timeArg.value) then
      var s := timeArg.value;
      (ZeroPad(DigitsValue(s[..|s| - 1])) + ":00", true)
    else if timeArg.Some? && IsLongTime(timeArg.value) then
      var p := Split(timeArg.value, ':');
      (ZeroPad(DigitsValue(p[0])) + ":" + p[1], true)
    else ("06:00", false)
  }

  /** `convertAbsoluteTimeRawInput(dateArg, timeArg, now)`. */
  function ConvertAbsoluteTimeRawInput(dateArg: string, timeArg: Option<string>, now: Instant): (string, bool)
  {
    var t := ConvertTime(timeArg);
    (ConvertDate(dateArg, now) + " " + t.0, t.1)
  }

  /** `[\d]{2}\/[\d]{2}\/[\d]{4} [\d]{2}:[\d]{2}` matches at position `i` of `s`. */
  predicate ShapeAt(s: string, i: nat)
    requires i + 16 <= |s|
  {
    && AllDigits(s[i..i + 2]) && s[i + 2] == '/'
    && AllDigits(s[i + 3..i + 5]) && s[i + 5] == '/'
    && AllDigits(s[i + 6..i + 10]) && s[i + 10] == ' '
    && AllDigits(s[i + 11..i + 13]) && s[i + 13] == ':'
    && AllDigits(s[i + 14..i + 16])
  }

  /** The unanchored `test` of the shape regex: it matches somewhere in `s`. */
  predicate ContainsShape(s: string)
  {
    exists i: nat :: i + 16 <= |s| && ShapeAt(s, i)
  }

  /** `moment.tz(s, "DD/MM/YYYY HH:mm", tz)` for a text that is exactly of that shape: the
      fields are read as numbers and checked for overflow. Other texts are never parsed
      here (see AbsoluteShapeIsWhole). */
  function ParseCanonical(s: string): Moment
  {
    if |s| == 16 && ShapeAt(s, 0) then
      FromCivil(DigitsValue(s[0..2]), DigitsValue(s[3..5]), DigitsValue(s[6..10]),
                DigitsValue(s[11..13]), DigitsValue(s[14..16]))
    else InvalidDate
  }

  /** `parseAbsoluteTime(dateArg, timeArg, now, tz)`. */
  function ParseAbsoluteTime(dateArg: string, timeArg: Option<string>, now: Instant): AbsoluteTime
  {
    var c := ConvertAbsoluteTimeRawInput(dateArg, timeArg, now);
    if !ContainsShape(c.0) then AbsoluteInvalid
    else AbsoluteValid(ParseCanonical(c.0), c.1)
  }

  // ---------------------------------------------------------------------------
  // What an absolute time means

  /** The civil date a date argument names, and whether that date's year comes out of
      the formatting as exactly four digits: weekday names move to the next such weekday
      1 to 7 days ahead, `today` keeps `now`'s date, `D/M` takes `now`'s year and
      `D/M/YYYY` is read as written. */
  function NamedDate(dateArg: string, now: Instant): Option<(Date, bool)>
  {
    if IsWordText(dateArg) then
      var w := WeekdayNumber(ToLower(dateArg));
      if w == -1 then None
      else
        var target := if w == -2 then now else Add(now, DaysAhead(w, Weekday(now)), Day);
        var date := DateOf(target);
        Some((date, 0 <= date.year <= 9999))
    else if IsShortDate(dateArg) then
      var p := Split(dateArg, '/');
      var year := DateOf(now).year;
      Some((Date(year, DigitsValue(p[1]), DigitsValue(p[0])), 1000 <= year <= 9999))
    else if IsLongDate(dateArg) then
      var p := Split(dateArg, '/');
      Some((Date(DigitsValue(p[2]), DigitsValue(p[1]), DigitsValue(p[0])), DigitsValue(p[2]) >= 1000))
    else None
  }

  /** A weekday name moves `now` forward to the next day with that weekday: between 1 and
      7 days ahead, so the current weekday moves a full week. */
  lemma WeekdayNextOccurrence(w: int, now: Instant)
    requires 0 <= w <= 6
    ensures var k := DaysAhead(w, Weekday(now));
            && 1 <= k <= 7
            && Weekday(Add(now, k, Day)) == w
            && (forall j :: 1 <= j < k ==> Weekday(Add(now, j, Day)) != w)
  {
    var k := DaysAhead(w, Weekday(now));
    WeekdayShift(now, k);
    forall j | 1 <= j < k
      ensures Weekday(Add(now, j, Day)) != w
    {
      WeekdayShift(now, j);
    }
  }

  /** The hour and minute a time argument names, and whether one was given: `Hh` is H:00,
      `H:MM` is H:MM, anything else is 06:00 without a time. */
  function ClockOf(timeArg: Option<string>): (nat, nat, bool)
  {
    if timeArg.Some? && IsShortTime(timeArg.value) then
      var s := timeArg.value;
      (DigitsValue(s[..|s| - 1]), 0, true)
    else if timeArg.Some? && IsLongTime(timeArg.value) then
      var p := Split(timeArg.value, ':');
      (DigitsValue(p[0]), DigitsValue(p[1]), true)
    else (6, 0, false)
  }

  /** The result of `parseAbsoluteTime`: invalid exactly when the date argument is not
      recognised or its year does not come out as four digits; otherwise the named date at
      the named time, read by moment with its overflow checks (and no other range check). */
  lemma AbsoluteTimeMeaning(dateArg: string, timeArg: Option<string>, now: Instant)
    ensures ParseAbsoluteTime(dateArg, timeArg, now) ==
              match NamedDate(dateArg, now)
              case None => AbsoluteInvalid
              case Some((date, fits)) =>
                if fits then
                  var clock := ClockOf(timeArg);
                  AbsoluteValid(FromCivil(date.day, date.month, date.year, clock.0, clock.1), clock.2)
                else AbsoluteInvalid
  {
    var t := ConvertTime(timeArg);
    ConvertTimeMeaning(timeArg);
    DateFieldsMeaning(dateArg, now);
    match DateFields(dateArg, now)
    case None =>
      NoShapeWithoutDate(t.0);
    case Some((d, m, y)) =>
      var date := NamedDate(dateArg, now).value.0;
      ShapeIffFourDigitYear(d, m, y, t.0);
      if IsFourDigits(y) {
        ReadBack(d, m, y, t.0);
      }
  }

  /** Whenever the assembled text passes the shape test, it is exactly that shape: the
      regex finds it at position 0 and nothing follows. */
  lemma AbsoluteShapeIsWhole(dateArg: string, timeArg: Option<string>, now: Instant)
    requires ContainsShape(ConvertAbsoluteTimeRawInput(dateArg, timeArg, now).0)
    ensures var s := ConvertAbsoluteTimeRawInput(dateArg, timeArg, now).0;
            |s| == 16 && ShapeAt(s, 0)
  {
    var t := ConvertTime(timeArg);
    ConvertTimeMeaning(timeArg);
    DateFieldsMeaning(dateArg, now);
    match DateFields(dateArg, now)
    case None =>
      NoShapeWithoutDate(t.0);
    case Some((d, m, y)) =>
      ShapeIffFourDigitYear(d, m, y, t.0);
      ReadBack(d, m, y, t.0);
  }

  /** `HH:MM`: two digits, a colon, two digits. */
  predicate IsClockText(t: string)
  {
    |t| == 5 && AllDigits(t[..2]) && t[2] == ':' && AllDigits(t[3..])
  }

  /** `convertedTime` is always of the form `HH:MM` and spells the clock of the argument. */
  lemma ConvertTimeMeaning(timeArg: Option<string>)
    ensures IsClockText(ConvertTime(timeArg).0)
    ensures var t := ConvertTime(timeArg).0;
            DigitsValue(t[..2]) == ClockOf(timeArg).0 && DigitsValue(t[3..]) == ClockOf(timeArg).1
    ensures ConvertTime(timeArg).1 == ClockOf(timeArg).2
  {
    var t := ConvertTime(timeArg).0;
    if timeArg.Some? && IsShortTime(timeArg.value) {
      ShortClockText(timeArg.value);
    } else if timeArg.Some? && IsLongTime(timeArg.value) {
      LongClockText(timeArg.value);
    } else {
      assert t[..2] == "06" && t[3..] == "00";
    }
  }

  /** The clock text of an `Hh` argument: the padded hour and `00`. */
  lemma ShortClockText(s: string)
    requires IsShortTime(s)
    ensures var t := ZeroPad(DigitsValue(s[..|s| - 1])) + ":00";
            IsClockText(t) && DigitsValue(t[..2]) == DigitsValue(s[..|s| - 1]) && DigitsValue(t[3..]) == 0
  {
    var v := DigitsValue(s[..|s| - 1]);
    DigitsAtMost99(s[..|s| - 1]);
    ZeroPadTwo(v);
    var t := ZeroPad(v) + ":00";
    assert t[..2] == ZeroPad(v) && t[3..] == "00";
  }

  /** The clock text of an `H:MM` argument: the padded hour and the minutes as given. */
  lemma LongClockText(s: string)
    requires IsLongTime(s)
    ensures var p := Split(s, ':');
            var t := ZeroPad(DigitsValue(p[0])) + ":" + p[1];
            IsClockText(t) && DigitsValue(t[..2]) == DigitsValue(p[0]) && DigitsValue(t[3..]) == DigitsValue(p[1])
  {
    var p := Split(s, ':');
    var v := DigitsValue(p[0]);
    DigitsAtMost99(p[0]);
    ZeroPadTwo(v);
    var t := ZeroPad(v) + ":" + p[1];
    assert t[..2] == ZeroPad(v) && t[3..] == p[1];
  }

  /** The interpolated date fields: day and month are two digits of the named day and month;
      the year has neither `/` nor a space, is four digits exactly when the named date fits,
      and then spells the named year. */
  lemma DateFieldsMeaning(dateArg: string, now: Instant)
    ensures DateFields(dateArg, now).None? <==> NamedDate(dateArg, now).None?
    ensures DateFields(dateArg, now).Some? ==>
              var (d, m, y) := DateFields(dateArg, now).value;
              var (date, fits) := NamedDate(dateArg, now).value;
              && |d| == 2 && AllDigits(d) && DigitsValue(d) == date.day
              && |m| == 2 && AllDigits(m) && DigitsValue(m) == date.month
              && '/' !in y && ' ' !in y
              && (IsFourDigits(y) <==> fits)
              && (fits ==> DigitsValue(y) == date.year)
  {
    if IsWordText(dateArg) {
      var w := WeekdayNumber(ToLower(dateArg));
      if w != -1 {
        var target := if w == -2 then now else Add(now, DaysAhead(w, Weekday(now)), Day);
        var date := DateOf(target);
        ZeroFillValue(date.day, 2);
        NatToStringLength(date.day);
        ZeroFillValue(date.month, 2);
        NatToStringLength(date.month);
        ZeroFillYear(date.year);
      }
    } else if IsShortDate(dateArg) {
      var p := Split(dateArg, '/');
      DigitsAtMost99(p[0]);
      DigitsAtMost99(p[1]);
      ZeroPadTwo(DigitsValue(p[0]));
      ZeroPadTwo(DigitsValue(p[1]));
      IntToStringYear(DateOf(now).year);
    } else if IsLongDate(dateArg) {
      var p := Split(dateArg, '/');
      DigitsAtMost99(p[0]);
      DigitsAtMost99(p[1]);
      ZeroPadTwo(DigitsValue(p[0]));
      ZeroPadTwo(DigitsValue(p[1]));
      DigitsAtMost9999(p[2]);
      ZeroPadYear(DigitsValue(p[2]));
    }
  }

  lemma DigitsAtMost99(s: string)
    requires IsOneOrTwoDigits(s)
    ensures DigitsValue(s) < 100
  {
    DigitsValueBound(s);
    assert Pow10(2) == 100;
  }

  lemma DigitsAtMost9999(s: string)
    requires IsFourDigits(s)
    ensures DigitsValue(s) < 10000
  {
    DigitsValueBound(s);
    assert Pow10(4) == 10000;
  }

  /** zeroPad of a value below 100 is two digits of that value. */
  lemma ZeroPadTwo(n: nat)
    requires n < 100
    ensures |ZeroPad(n)| == 2 && DigitsValue(ZeroPad(n)) == n
  {
    NatToStringLength(n);
    DigitsValueOfNatToString(n);
    if n < 10 {
      assert ZeroPad(n) == Zeros(1) + NatToString(n);
      LeadingZeros(1, NatToString(n));
    }
  }

  /** zeroPad of a year below 10000 is four digits exactly from 1000 on. */
  lemma ZeroPadYear(n: nat)
    requires n < 10000
    ensures IsFourDigits(ZeroPad(n)) <==> n >= 1000
    ensures DigitsValue(ZeroPad(n)) == n
  {
    NatToStringLength(n);
    ZeroPadTwo(if n < 100 then n else 0);
    DigitsValueOfNatToString(n);
  }

  /** `${year}` is four digits exactly for the years 1000..9999. */
  lemma IntToStringYear(n: int)
    ensures IsFourDigits(IntToString(n)) <==> 1000 <= n <= 9999
    ensures '/' !in IntToString(n) && ' ' !in IntToString(n)
    ensures 1000 <= n <= 9999 ==> DigitsValue(IntToString(n)) == n
  {
    if n < 0 {
      assert IntToString(n)[0] == '-';
      NoSlashOrSpace(NatToString(-n));
      assert IntToString(n) == "-" + NatToString(-n);
    } else {
      NatToStringLength(n);
      DigitsValueOfNatToString(n);
      NoSlashOrSpace(NatToString(n));
    }
  }

  /** The `YYYY` field is four digits exactly for the years 0..9999. */
  lemma ZeroFillYear(n: int)
    ensures IsFourDigits(ZeroFill(n, 4)) <==> 0 <= n <= 9999
    ensures '/' !in ZeroFill(n, 4) && ' ' !in ZeroFill(n, 4)
    ensures 0 <= n <= 9999 ==> DigitsValue(ZeroFill(n, 4)) == n
  {
    ZeroFillValue(n, 4);
    var digits := NatToString(if n < 0 then -n else n);
    NoSlashOrSpace(digits);
    NoSlashOrSpace(Zeros(if |digits| < 4 then 4 - |digits| else 0));
    if n >= 0 {
      NatToStringLength(n);
    }
  }

  lemma NoSlashOrSpace(s: string)
    requires AllDigits(s)
    ensures '/' !in s && ' ' !in s
  {
  }

  /** With a two-digit day and month, a year without `/` or space and an `HH:MM` time, the
      shape regex matches exactly when the year is four digits. */
  lemma ShapeIffFourDigitYear(d: string, m: string, y: string, t: string)
    requires |d| == 2 && AllDigits(d) && |m| == 2 && AllDigits(m)
    requires '/' !in y && ' ' !in y
    requires IsClockText(t)
    ensures ContainsShape(d + "/" + m + "/" + y + " " + t) <==> IsFourDigits(y)
  {
    var s := d + "/" + m + "/" + y + " " + t;
    if IsFourDigits(y) {
      ReadBack(d, m, y, t);
    }
    if ContainsShape(s) {
      var i: nat :| i + 16 <= |s| && ShapeAt(s, i);
      // the only `/` are at 2 and 5; the only space right after the year
      forall k | 0 <= k < |s| && k != 2 && k != 5
        ensures s[k] != '/'
      {
        if 6 <= k < 6 + |y| {
          assert s[k] == y[k - 6];
        } else if 6 + |y| < k {
          assert s[k] == t[k - 7 - |y|];
          assert k - 7 - |y| < 2 ==> t[..2][k - 7 - |y|] == t[k - 7 - |y|];
          assert k - 7 - |y| > 2 ==> t[3..][k - 10 - |y|] == t[k - 7 - |y|];
        } else if k < 2 {
          assert s[k] == d[k];
        } else if 2 < k < 5 {
          assert s[k] == m[k - 3];
        }
      }
      assert i == 0;
      assert s[6 + |y|] == ' ';
      assert |y| == 4;
      assert s[6..10] == y;
    }
  }

  /** The assembled text for a four-digit year: exactly the shape, with the fields in place. */
  lemma ReadBack(d: string, m: string, y: string, t: string)
    requires |d| == 2 && AllDigits(d) && |m| == 2 && AllDigits(m)
    requires IsFourDigits(y)
    requires IsClockText(t)
    ensures var s := d + "/" + m + "/" + y + " " + t;
            && |s| == 16 && ShapeAt(s, 0)
            && s[0..2] == d && s[3..5] == m && s[6..10] == y
            && s[11..13] == t[..2] && s[14..16] == t[3..]
  {
    var s := d + "/" + m + "/" + y + " " + t;
    assert s[0..2] == d && s[3..5] == m && s[6..10] == y;
    assert s[11..13] == t[..2] && s[14..16] == t[3..];
  }

  /** `"invalid HH:MM"` never passes the shape test: it is three characters too short. */
  lemma NoShapeWithoutDate(t: string)
    requires IsClockText(t)
    ensures !ContainsShape("invalid" + " " + t)
  {
  }
}

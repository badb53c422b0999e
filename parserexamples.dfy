/** The examples of src/tests/asserts.ts, and a few more, worked out on the model. The
    tests run at 02/02/2025 00:00 in Europe/Lisbon, which is UTC+0 in winter; that instant
    is `Feb2`, day 20121 of the Unix epoch and a Sunday. */
module ParserExamples {
  import opened Strings
  import opened Calendar
  import opened Parsers

  const Feb2: Instant := 1738454400000

  // ---------------------------------------------------------------------------
  // Calendar facts the examples need

  /** Day 20121 of the epoch is 2025-02-02. */
  lemma Day20121(z: int)
    requires z == 20121
    ensures CivilFromDays(z) == Date(2025, 2, 2)
  {
    assert z + 719468 == 739589;
    assert 739589 / 146097 == 5;
    assert 739589 - 5 * 146097 == 9104;
    assert 9104 / 36524 == 0;
    assert 9104 - 36524 * 0 == 9104;
    assert 9104 / 1461 == 6 && 9104 - 1461 * 6 == 338;
    assert 338 / 365 == 0 && 338 - 365 * 0 == 338;
    assert (5 * 338 + 2) / 153 == 11;
    assert 338 - (153 * 11 + 2) / 5 + 1 == 2;
  }

  /** Day 20122 of the epoch is 2025-02-03. */
  lemma Day20122(z: int)
    requires z == 20122
    ensures CivilFromDays(z) == Date(2025, 2, 3)
  {
    assert z + 719468 == 739590;
    assert 739590 / 146097 == 5;
    assert 739590 - 5 * 146097 == 9105;
    assert 9105 / 36524 == 0;
    assert 9105 - 36524 * 0 == 9105;
    assert 9105 / 1461 == 6 && 9105 - 1461 * 6 == 339;
    assert 339 / 365 == 0 && 339 - 365 * 0 == 339;
    assert (5 * 339 + 2) / 153 == 11;
    assert 339 - (153 * 11 + 2) / 5 + 1 == 3;
  }

  /** Day 20123 of the epoch is 2025-02-04. */
  lemma Day20123(z: int)
    requires z == 20123
    ensures CivilFromDays(z) == Date(2025, 2, 4)
  {
    assert z + 719468 == 739591;
    assert 739591 / 146097 == 5;
    assert 739591 - 5 * 146097 == 9106;
    assert 9106 / 36524 == 0;
    assert 9106 - 36524 * 0 == 9106;
    assert 9106 / 1461 == 6 && 9106 - 1461 * 6 == 340;
    assert 340 / 365 == 0 && 340 - 365 * 0 == 340;
    assert (5 * 340 + 2) / 153 == 11;
    assert 340 - (153 * 11 + 2) / 5 + 1 == 4;
  }

  /** Day 20124 of the epoch is 2025-02-05. */
  lemma Day20124(z: int)
    requires z == 20124
    ensures CivilFromDays(z) == Date(2025, 2, 5)
  {
    assert z + 719468 == 739592;
    assert 739592 / 146097 == 5;
    assert 739592 - 5 * 146097 == 9107;
    assert 9107 / 36524 == 0;
    assert 9107 - 36524 * 0 == 9107;
    assert 9107 / 1461 == 6 && 9107 - 1461 * 6 == 341;
    assert 341 / 365 == 0 && 341 - 365 * 0 == 341;
    assert (5 * 341 + 2) / 153 == 11;
    assert 341 - (153 * 11 + 2) / 5 + 1 == 5;
  }

  /** Day 20125 of the epoch is 2025-02-06. */
  lemma Day20125(z: int)
    requires z == 20125
    ensures CivilFromDays(z) == Date(2025, 2, 6)
  {
    assert z + 719468 == 739593;
    assert 739593 / 146097 == 5;
    assert 739593 - 5 * 146097 == 9108;
    assert 9108 / 36524 == 0;
    assert 9108 - 36524 * 0 == 9108;
    assert 9108 / 1461 == 6 && 9108 - 1461 * 6 == 342;
    assert 342 / 365 == 0 && 342 - 365 * 0 == 342;
    assert (5 * 342 + 2) / 153 == 11;
    assert 342 - (153 * 11 + 2) / 5 + 1 == 6;
  }

  /** Day 20126 of the epoch is 2025-02-07. */
  lemma Day20126(z: int)
    requires z == 20126
    ensures CivilFromDays(z) == Date(2025, 2, 7)
  {
    assert z + 719468 == 739594;
    assert 739594 / 146097 == 5;
    assert 739594 - 5 * 146097 == 9109;
    assert 9109 / 36524 == 0;
    assert 9109 - 36524 * 0 == 9109;
    assert 9109 / 1461 == 6 && 9109 - 1461 * 6 == 343;
    assert 343 / 365 == 0 && 343 - 365 * 0 == 343;
    assert (5 * 343 + 2) / 153 == 11;
    assert 343 - (153 * 11 + 2) / 5 + 1 == 7;
  }

  /** Day 20127 of the epoch is 2025-02-08. */
  lemma Day20127(z: int)
    requires z == 20127
    ensures CivilFromDays(z) == Date(2025, 2, 8)
  {
    assert z + 719468 == 739595;
    assert 739595 / 146097 == 5;
    assert 739595 - 5 * 146097 == 9110;
    assert 9110 / 36524 == 0;
    assert 9110 - 36524 * 0 == 9110;
    assert 9110 / 1461 == 6 && 9110 - 1461 * 6 == 344;
    assert 344 / 365 == 0 && 344 - 365 * 0 == 344;
    assert (5 * 344 + 2) / 153 == 11;
    assert 344 - (153 * 11 + 2) / 5 + 1 == 8;
  }

  /** Day 20128 of the epoch is 2025-02-09. */
  lemma Day20128(z: int)
    requires z == 20128
    ensures CivilFromDays(z) == Date(2025, 2, 9)
  {
    assert z + 719468 == 739596;
    assert 739596 / 146097 == 5;
    assert 739596 - 5 * 146097 == 9111;
    assert 9111 / 36524 == 0;
    assert 9111 - 36524 * 0 == 9111;
    assert 9111 / 1461 == 6 && 9111 - 1461 * 6 == 345;
    assert 345 / 365 == 0 && 345 - 365 * 0 == 345;
    assert (5 * 345 + 2) / 153 == 11;
    assert 345 - (153 * 11 + 2) / 5 + 1 == 9;
  }

  /** Day 21230 of the epoch is 2028-02-16. */
  lemma Day21230(z: int)
    requires z == 21230
    ensures CivilFromDays(z) == Date(2028, 2, 16)
  {
    assert z + 719468 == 740698;
    assert 740698 / 146097 == 5;
    assert 740698 - 5 * 146097 == 10213;
    assert 10213 / 36524 == 0;
    assert 10213 - 36524 * 0 == 10213;
    assert 10213 / 1461 == 6 && 10213 - 1461 * 6 == 1447;
    assert 1447 / 365 == 3 && 1447 - 365 * 3 == 352;
    assert (5 * 352 + 2) / 153 == 11;
    assert 352 - (153 * 11 + 2) / 5 + 1 == 16;
  }

  /** Day 20118 of the epoch is 2025-01-30. */
  lemma Day20118(z: int)
    requires z == 20118
    ensures CivilFromDays(z) == Date(2025, 1, 30)
  {
    assert z + 719468 == 739586;
    assert 739586 / 146097 == 5;
    assert 739586 - 5 * 146097 == 9101;
    assert 9101 / 36524 == 0;
    assert 9101 - 36524 * 0 == 9101;
    assert 9101 / 1461 == 6 && 9101 - 1461 * 6 == 335;
    assert 335 / 365 == 0 && 335 - 365 * 0 == 335;
    assert (5 * 335 + 2) / 153 == 10;
    assert 335 - (153 * 10 + 2) / 5 + 1 == 30;
  }

  /** Day 20119 of the epoch is 2025-01-31. */
  lemma Day20119(z: int)
    requires z == 20119
    ensures CivilFromDays(z) == Date(2025, 1, 31)
  {
    assert z + 719468 == 739587;
    assert 739587 / 146097 == 5;
    assert 739587 - 5 * 146097 == 9102;
    assert 9102 / 36524 == 0;
    assert 9102 - 36524 * 0 == 9102;
    assert 9102 / 1461 == 6 && 9102 - 1461 * 6 == 336;
    assert 336 / 365 == 0 && 336 - 365 * 0 == 336;
    assert (5 * 336 + 2) / 153 == 10;
    assert 336 - (153 * 10 + 2) / 5 + 1 == 31;
  }

  /** An instant a whole number of days after the epoch is midnight of that day. */
  lemma Midnight(t: Instant, k: int)
    requires t == k * MsPerDay
    ensures DayNumber(t) == k && TimeOfDay(t) == 0
  {
  }

  /** `Feb2` is 02/02/2025 at midnight, a Sunday. */
  lemma Feb2Date(t: Instant)
    requires t == Feb2
    ensures DayNumber(t) == 20121 && TimeOfDay(t) == 0
    ensures DateOf(t) == Date(2025, 2, 2) && Weekday(t) == 0
  {
    assert Feb2 == 20121 * MsPerDay;
    Midnight(t, 20121);
    Day20121(DayNumber(t));
  }

  /** The text of a split, read back from its pieces. */
  lemma SplitOf(text: string, c: char, pieces: seq<string>)
    requires |pieces| > 0 && (forall k :: 0 <= k < |pieces| ==> c !in pieces[k])
    requires Join(pieces, [c]) == text
    ensures Split(text, c) == pieces
  {
    SplitJoin(pieces, c);
  }

  /** A text split into a day, a month and a four-digit year is the long date form. */
  lemma LongDateOf(s: string, p: seq<string>)
    requires Split(s, '/') == p && |p| == 3
    requires IsOneOrTwoDigits(p[0]) && IsOneOrTwoDigits(p[1]) && IsFourDigits(p[2])
    ensures !IsWordText(s) && !IsShortDate(s) && IsLongDate(s)
  {
    JoinSplit(s, '/');
    assert s == p[0] + "/" + Join(p[1..], "/");
    assert s[0] == p[0][0];
  }

  lemma DateArg0Number()
    ensures WeekdayNumber("abcd") == -1
  {
  }

  lemma DateArg0Letters(s: string)
    requires s == "abcd"
    ensures IsWordText(s) && forall i :: 0 <= i < |s| ==> !('A' <= s[i] <= 'Z')
  {
  }

  lemma DateArg0(s: string)
    requires s == "abcd"
    ensures IsWordText(s) && WeekdayNumber(ToLower(s)) == -1
  {
    DateArg0Letters(s);
    ToLowerNoUpper(s);
    DateArg0Number();
  }

  lemma Named0(s: string, now: Instant)
    requires s == "abcd"
    ensures NamedDate(s, now) == None
  {
    DateArg0(s);
  }

  lemma Clock0()
    ensures ClockOf(None) == (6, 0, false)
  {
  }

  lemma Clock1(s: string)
    requires s == "23"
    ensures ClockOf(Some(s)) == (6, 0, false)
  {
    SplitOf(s, ':', [s]);
  }

  lemma DateArg1Split(s: string)
    requires s == "02/02/2026"
    ensures Split(s, '/') == ["02", "02", "2026"]
  {
    var p := ["02", "02", "2026"];
    assert Join(p[2..], "/") == "2026" && Join(p[1..], "/") == "02/2026";
    SplitOf(s, '/', p);
  }

  lemma DateArg1Pieces(p: seq<string>)
    requires p == ["02", "02", "2026"]
    ensures |p| == 3 && IsOneOrTwoDigits(p[0]) && IsOneOrTwoDigits(p[1]) && IsFourDigits(p[2])
  {
  }

  lemma DateArg1(s: string)
    requires s == "02/02/2026"
    ensures Split(s, '/') == ["02", "02", "2026"] && !IsWordText(s) && !IsShortDate(s) && IsLongDate(s)
  {
    DateArg1Split(s);
    DateArg1Pieces(Split(s, '/'));
    LongDateOf(s, Split(s, '/'));
  }

  lemma Values0()
    ensures DigitsValue("02") == 2 && DigitsValue("2026") == 2026
  {
    TwoDigits("02");
    FourDigits("2026");
  }

  lemma Named1(s: string, now: Instant)
    requires s == "02/02/2026"
    ensures NamedDate(s, now) == Some((Date(2026, 2, 2), true))
  {
    DateArg1(s);
    Values0();
  }

  lemma Values1()
    ensures DigitsValue("06") == 6 && DigitsValue("17") == 17
  {
    TwoDigits("06");
    TwoDigits("17");
  }

  lemma Clock2(s: string)
    requires s == "17:06"
    ensures ClockOf(Some(s)) == (17, 6, true)
  {
    var p := ["17", "06"];
    assert Join(p[1..], ":") == "06";
    SplitOf(s, ':', p);
    assert !IsShortTime(s);
    Values1();
  }

  lemma DateArg2Split(s: string)
    requires s == "02/6/2026"
    ensures Split(s, '/') == ["02", "6", "2026"]
  {
    var p := ["02", "6", "2026"];
    assert Join(p[2..], "/") == "2026" && Join(p[1..], "/") == "6/2026";
    SplitOf(s, '/', p);
  }

  lemma DateArg2Pieces(p: seq<string>)
    requires p == ["02", "6", "2026"]
    ensures |p| == 3 && IsOneOrTwoDigits(p[0]) && IsOneOrTwoDigits(p[1]) && IsFourDigits(p[2])
  {
  }

  lemma DateArg2(s: string)
    requires s == "02/6/2026"
    ensures Split(s, '/') == ["02", "6", "2026"] && !IsWordText(s) && !IsShortDate(s) && IsLongDate(s)
  {
    DateArg2Split(s);
    DateArg2Pieces(Split(s, '/'));
    LongDateOf(s, Split(s, '/'));
  }

  lemma Values2()
    ensures DigitsValue("02") == 2 && DigitsValue("2026") == 2026 && DigitsValue("6") == 6
  {
    TwoDigits("02");
    FourDigits("2026");
    OneDigit("6");
  }

  lemma Named2(s: string, now: Instant)
    requires s == "02/6/2026"
    ensures NamedDate(s, now) == Some((Date(2026, 6, 2), true))
  {
    DateArg2(s);
    Values2();
  }

  lemma DateArg3Split(s: string)
    requires s == "3/7/2026"
    ensures Split(s, '/') == ["3", "7", "2026"]
  {
    var p := ["3", "7", "2026"];
    assert Join(p[2..], "/") == "2026" && Join(p[1..], "/") == "7/2026";
    SplitOf(s, '/', p);
  }

  lemma DateArg3Pieces(p: seq<string>)
    requires p == ["3", "7", "2026"]
    ensures |p| == 3 && IsOneOrTwoDigits(p[0]) && IsOneOrTwoDigits(p[1]) && IsFourDigits(p[2])
  {
  }

  lemma DateArg3(s: string)
    requires s == "3/7/2026"
    ensures Split(s, '/') == ["3", "7", "2026"] && !IsWordText(s) && !IsShortDate(s) && IsLongDate(s)
  {
    DateArg3Split(s);
    DateArg3Pieces(Split(s, '/'));
    LongDateOf(s, Split(s, '/'));
  }

  lemma Values3()
    ensures DigitsValue("2026") == 2026 && DigitsValue("3") == 3 && DigitsValue("7") == 7
  {
    FourDigits("2026");
    OneDigit("3");
    OneDigit("7");
  }

  lemma Named3(s: string, now: Instant)
    requires s == "3/7/2026"
    ensures NamedDate(s, now) == Some((Date(2026, 7, 3), true))
  {
    DateArg3(s);
    Values3();
  }

  lemma DateArg4Split(s: string)
    requires s == "1/3"
    ensures Split(s, '/') == ["1", "3"]
  {
    var p := ["1", "3"];
    assert Join(p[1..], "/") == "3";
    SplitOf(s, '/', p);
  }

  lemma DateArg4(s: string)
    requires s == "1/3"
    ensures Split(s, '/') == ["1", "3"] && !IsWordText(s) && IsShortDate(s)
  {
    DateArg4Split(s);
    assert !IsAsciiLetter(s[0]);
  }

  lemma Values4()
    ensures DigitsValue("1") == 1 && DigitsValue("3") == 3
  {
    OneDigit("1");
    OneDigit("3");
  }

  lemma Named4(s: string, now: Instant)
    requires s == "1/3" && DayNumber(now) == 20121
    ensures NamedDate(s, now) == Some((Date(2025, 3, 1), true))
  {
    DateArg4(s);
    Values4();
    Day20121(DayNumber(now));
    assert DateOf(now).year == 2025;
  }

  lemma DateArg5Split(s: string)
    requires s == "02/12"
    ensures Split(s, '/') == ["02", "12"]
  {
    var p := ["02", "12"];
    assert Join(p[1..], "/") == "12";
    SplitOf(s, '/', p);
  }

  lemma DateArg5(s: string)
    requires s == "02/12"
    ensures Split(s, '/') == ["02", "12"] && !IsWordText(s) && IsShortDate(s)
  {
    DateArg5Split(s);
    assert !IsAsciiLetter(s[0]);
  }

  lemma Values5()
    ensures DigitsValue("02") == 2 && DigitsValue("12") == 12
  {
    TwoDigits("02");
    TwoDigits("12");
  }

  lemma Named5(s: string, now: Instant)
    requires s == "02/12" && DayNumber(now) == 20121
    ensures NamedDate(s, now) == Some((Date(2025, 12, 2), true))
  {
    DateArg5(s);
    Values5();
    Day20121(DayNumber(now));
    assert DateOf(now).year == 2025;
  }

  lemma DateArg6Split(s: string)
    requires s == "6/12"
    ensures Split(s, '/') == ["6", "12"]
  {
    var p := ["6", "12"];
    assert Join(p[1..], "/") == "12";
    SplitOf(s, '/', p);
  }

  lemma DateArg6(s: string)
    requires s == "6/12"
    ensures Split(s, '/') == ["6", "12"] && !IsWordText(s) && IsShortDate(s)
  {
    DateArg6Split(s);
    assert !IsAsciiLetter(s[0]);
  }

  lemma Values6()
    ensures DigitsValue("12") == 12 && DigitsValue("6") == 6
  {
    TwoDigits("12");
    OneDigit("6");
  }

  lemma Named6(s: string, now: Instant)
    requires s == "6/12" && DayNumber(now) == 20121
    ensures NamedDate(s, now) == Some((Date(2025, 12, 6), true))
  {
    DateArg6(s);
    Values6();
    Day20121(DayNumber(now));
    assert DateOf(now).year == 2025;
  }

  lemma DateArg7Split(s: string)
    requires s == "03/02"
    ensures Split(s, '/') == ["03", "02"]
  {
    var p := ["03", "02"];
    assert Join(p[1..], "/") == "02";
    SplitOf(s, '/', p);
  }

  lemma DateArg7(s: string)
    requires s == "03/02"
    ensures Split(s, '/') == ["03", "02"] && !IsWordText(s) && IsShortDate(s)
  {
    DateArg7Split(s);
    assert !IsAsciiLetter(s[0]);
  }

  lemma Values7()
    ensures DigitsValue("02") == 2 && DigitsValue("03") == 3
  {
    TwoDigits("02");
    TwoDigits("03");
  }

  lemma Named7(s: string, now: Instant)
    requires s == "03/02" && DayNumber(now) == 20121
    ensures NamedDate(s, now) == Some((Date(2025, 2, 3), true))
  {
    DateArg7(s);
    Values7();
    Day20121(DayNumber(now));
    assert DateOf(now).year == 2025;
  }

  lemma DateArg8Split(s: string)
    requires s == "02/02"
    ensures Split(s, '/') == ["02", "02"]
  {
    var p := ["02", "02"];
    assert Join(p[1..], "/") == "02";
    SplitOf(s, '/', p);
  }

  lemma DateArg8(s: string)
    requires s == "02/02"
    ensures Split(s, '/') == ["02", "02"] && !IsWordText(s) && IsShortDate(s)
  {
    DateArg8Split(s);
    assert !IsAsciiLetter(s[0]);
  }

  lemma Values8()
    ensures DigitsValue("02") == 2
  {
    TwoDigits("02");
  }

  lemma Named8(s: string, now: Instant)
    requires s == "02/02" && DayNumber(now) == 20121
    ensures NamedDate(s, now) == Some((Date(2025, 2, 2), true))
  {
    DateArg8(s);
    Values8();
    Day20121(DayNumber(now));
    assert DateOf(now).year == 2025;
  }

  lemma DateArg9Split(s: string)
    requires s == "5/1"
    ensures Split(s, '/') == ["5", "1"]
  {
    var p := ["5", "1"];
    assert Join(p[1..], "/") == "1";
    SplitOf(s, '/', p);
  }

  lemma DateArg9(s: string)
    requires s == "5/1"
    ensures Split(s, '/') == ["5", "1"] && !IsWordText(s) && IsShortDate(s)
  {
    DateArg9Split(s);
    assert !IsAsciiLetter(s[0]);
  }

  lemma Values9()
    ensures DigitsValue("1") == 1 && DigitsValue("5") == 5
  {
    OneDigit("1");
    OneDigit("5");
  }

  lemma Named9(s: string, now: Instant)
    requires s == "5/1" && DayNumber(now) == 20121
    ensures NamedDate(s, now) == Some((Date(2025, 1, 5), true))
  {
    DateArg9(s);
    Values9();
    Day20121(DayNumber(now));
    assert DateOf(now).year == 2025;
  }

  lemma DateArg10Split(s: string)
    requires s == "10/1"
    ensures Split(s, '/') == ["10", "1"]
  {
    var p := ["10", "1"];
    assert Join(p[1..], "/") == "1";
    SplitOf(s, '/', p);
  }

  lemma DateArg10(s: string)
    requires s == "10/1"
    ensures Split(s, '/') == ["10", "1"] && !IsWordText(s) && IsShortDate(s)
  {
    DateArg10Split(s);
    assert !IsAsciiLetter(s[0]);
  }

  lemma Values10()
    ensures DigitsValue("1") == 1 && DigitsValue("10") == 10
  {
    OneDigit("1");
    TwoDigits("10");
  }

  lemma Named10(s: string, now: Instant)
    requires s == "10/1" && DayNumber(now) == 20121
    ensures NamedDate(s, now) == Some((Date(2025, 1, 10), true))
  {
    DateArg10(s);
    Values10();
    Day20121(DayNumber(now));
    assert DateOf(now).year == 2025;
  }

  lemma Values11()
    ensures DigitsValue("12") == 12
  {
    TwoDigits("12");
  }

  lemma Clock3(s: string)
    requires s == "12h"
    ensures ClockOf(Some(s)) == (12, 0, true)
  {
    assert IsShortTime(s) by { assert s[..|s| - 1] == "12"; }
    assert s[..|s| - 1] == "12";
    Values11();
  }

  lemma DateArg11Split(s: string)
    requires s == "02/02/2027"
    ensures Split(s, '/') == ["02", "02", "2027"]
  {
    var p := ["02", "02", "2027"];
    assert Join(p[2..], "/") == "2027" && Join(p[1..], "/") == "02/2027";
    SplitOf(s, '/', p);
  }

  lemma DateArg11Pieces(p: seq<string>)
    requires p == ["02", "02", "2027"]
    ensures |p| == 3 && IsOneOrTwoDigits(p[0]) && IsOneOrTwoDigits(p[1]) && IsFourDigits(p[2])
  {
  }

  lemma DateArg11(s: string)
    requires s == "02/02/2027"
    ensures Split(s, '/') == ["02", "02", "2027"] && !IsWordText(s) && !IsShortDate(s) && IsLongDate(s)
  {
    DateArg11Split(s);
    DateArg11Pieces(Split(s, '/'));
    LongDateOf(s, Split(s, '/'));
  }

  lemma Values12()
    ensures DigitsValue("02") == 2 && DigitsValue("2027") == 2027
  {
    TwoDigits("02");
    FourDigits("2027");
  }

  lemma Named11(s: string, now: Instant)
    requires s == "02/02/2027"
    ensures NamedDate(s, now) == Some((Date(2027, 2, 2), true))
  {
    DateArg11(s);
    Values12();
  }

  lemma DateArg12Number()
    ensures WeekdayNumber("sun") == 0
  {
  }

  lemma DateArg12Letters(s: string)
    requires s == "sun"
    ensures IsWordText(s) && forall i :: 0 <= i < |s| ==> !('A' <= s[i] <= 'Z')
  {
  }

  lemma DateArg12(s: string)
    requires s == "sun"
    ensures IsWordText(s) && WeekdayNumber(ToLower(s)) == 0
  {
    DateArg12Letters(s);
    ToLowerNoUpper(s);
    DateArg12Number();
  }

  lemma Named12(s: string, now: Instant)
    requires s == "sun" && DayNumber(now) == 20121
    ensures NamedDate(s, now) == Some((Date(2025, 2, 9), true))
  {
    DateArg12(s);
    assert Weekday(now) == 0;
    DayShift(now, 7);
    Day20128(DayNumber(Add(now, 7, Day)));
    assert DateOf(Add(now, 7, Day)) == Date(2025, 2, 9);
  }

  lemma Values13()
    ensures DigitsValue("05") == 5 && DigitsValue("11") == 11
  {
    TwoDigits("05");
    TwoDigits("11");
  }

  lemma Clock4(s: string)
    requires s == "11:05"
    ensures ClockOf(Some(s)) == (11, 5, true)
  {
    var p := ["11", "05"];
    assert Join(p[1..], ":") == "05";
    SplitOf(s, ':', p);
    assert !IsShortTime(s);
    Values13();
  }

  lemma DateArg13(s: string)
    requires s == "Mon"
    ensures IsWordText(s) && WeekdayNumber(ToLower(s)) == 1
  {
    assert ToLower(s[2..]) == "n";
    assert ToLower(s[1..]) == "on";
    assert ToLower(s[0..]) == "mon";
    assert s[0..] == s;
  }

  lemma Named13(s: string, now: Instant)
    requires s == "Mon" && DayNumber(now) == 20121
    ensures NamedDate(s, now) == Some((Date(2025, 2, 3), true))
  {
    DateArg13(s);
    assert Weekday(now) == 0;
    DayShift(now, 1);
    Day20122(DayNumber(Add(now, 1, Day)));
    assert DateOf(Add(now, 1, Day)) == Date(2025, 2, 3);
  }

  lemma DateArg14(s: string)
    requires s == "TUE"
    ensures IsWordText(s) && WeekdayNumber(ToLower(s)) == 2
  {
    assert ToLower(s[2..]) == "e";
    assert ToLower(s[1..]) == "ue";
    assert ToLower(s[0..]) == "tue";
    assert s[0..] == s;
  }

  lemma Named14(s: string, now: Instant)
    requires s == "TUE" && DayNumber(now) == 20121
    ensures NamedDate(s, now) == Some((Date(2025, 2, 4), true))
  {
    DateArg14(s);
    assert Weekday(now) == 0;
    DayShift(now, 2);
    Day20123(DayNumber(Add(now, 2, Day)));
    assert DateOf(Add(now, 2, Day)) == Date(2025, 2, 4);
  }

  lemma DateArg15Number()
    ensures WeekdayNumber("wed") == 3
  {
  }

  lemma DateArg15Letters(s: string)
    requires s == "wed"
    ensures IsWordText(s) && forall i :: 0 <= i < |s| ==> !('A' <= s[i] <= 'Z')
  {
  }

  lemma DateArg15(s: string)
    requires s == "wed"
    ensures IsWordText(s) && WeekdayNumber(ToLower(s)) == 3
  {
    DateArg15Letters(s);
    ToLowerNoUpper(s);
    DateArg15Number();
  }

  lemma Named15(s: string, now: Instant)
    requires s == "wed" && DayNumber(now) == 20121
    ensures NamedDate(s, now) == Some((Date(2025, 2, 5), true))
  {
    DateArg15(s);
    assert Weekday(now) == 0;
    DayShift(now, 3);
    Day20124(DayNumber(Add(now, 3, Day)));
    assert DateOf(Add(now, 3, Day)) == Date(2025, 2, 5);
  }

  lemma DateArg16Number()
    ensures WeekdayNumber("thursday") == 4
  {
  }

  lemma DateArg16Letters(s: string)
    requires s == "thursday"
    ensures IsWordText(s) && forall i :: 0 <= i < |s| ==> !('A' <= s[i] <= 'Z')
  {
  }

  lemma DateArg16(s: string)
    requires s == "thursday"
    ensures IsWordText(s) && WeekdayNumber(ToLower(s)) == 4
  {
    DateArg16Letters(s);
    ToLowerNoUpper(s);
    DateArg16Number();
  }

  lemma Named16(s: string, now: Instant)
    requires s == "thursday" && DayNumber(now) == 20121
    ensures NamedDate(s, now) == Some((Date(2025, 2, 6), true))
  {
    DateArg16(s);
    assert Weekday(now) == 0;
    DayShift(now, 4);
    Day20125(DayNumber(Add(now, 4, Day)));
    assert DateOf(Add(now, 4, Day)) == Date(2025, 2, 6);
  }

  lemma DateArg17Number()
    ensures WeekdayNumber("friday") == 5
  {
  }

  lemma DateArg17Letters(s: string)
    requires s == "friday"
    ensures IsWordText(s) && forall i :: 0 <= i < |s| ==> !('A' <= s[i] <= 'Z')
  {
  }

  lemma DateArg17(s: string)
    requires s == "friday"
    ensures IsWordText(s) && WeekdayNumber(ToLower(s)) == 5
  {
    DateArg17Letters(s);
    ToLowerNoUpper(s);
    DateArg17Number();
  }

  lemma Named17(s: string, now: Instant)
    requires s == "friday" && DayNumber(now) == 20121
    ensures NamedDate(s, now) == Some((Date(2025, 2, 7), true))
  {
    DateArg17(s);
    assert Weekday(now) == 0;
    DayShift(now, 5);
    Day20126(DayNumber(Add(now, 5, Day)));
    assert DateOf(Add(now, 5, Day)) == Date(2025, 2, 7);
  }

  lemma DateArg18Number()
    ensures WeekdayNumber("sat") == 6
  {
  }

  lemma DateArg18Letters(s: string)
    requires s == "sat"
    ensures IsWordText(s) && forall i :: 0 <= i < |s| ==> !('A' <= s[i] <= 'Z')
  {
  }

  lemma DateArg18(s: string)
    requires s == "sat"
    ensures IsWordText(s) && WeekdayNumber(ToLower(s)) == 6
  {
    DateArg18Letters(s);
    ToLowerNoUpper(s);
    DateArg18Number();
  }

  lemma Named18(s: string, now: Instant)
    requires s == "sat" && DayNumber(now) == 20121
    ensures NamedDate(s, now) == Some((Date(2025, 2, 8), true))
  {
    DateArg18(s);
    assert Weekday(now) == 0;
    DayShift(now, 6);
    Day20127(DayNumber(Add(now, 6, Day)));
    assert DateOf(Add(now, 6, Day)) == Date(2025, 2, 8);
  }

  lemma DateArg19Number()
    ensures WeekdayNumber("today") == -2
  {
  }

  lemma DateArg19Letters(s: string)
    requires s == "today"
    ensures IsWordText(s) && forall i :: 0 <= i < |s| ==> !('A' <= s[i] <= 'Z')
  {
  }

  lemma DateArg19(s: string)
    requires s == "today"
    ensures IsWordText(s) && WeekdayNumber(ToLower(s)) == -2
  {
    DateArg19Letters(s);
    ToLowerNoUpper(s);
    DateArg19Number();
  }

  lemma Named19(s: string, now: Instant)
    requires s == "today" && DayNumber(now) == 20121
    ensures NamedDate(s, now) == Some((Date(2025, 2, 2), true))
  {
    DateArg19(s);
    assert Weekday(now) == 0;
    DayShift(now, 0);
    Day20121(DayNumber(now));
    assert DateOf(now) == Date(2025, 2, 2);
  }

  lemma DateArg20Number()
    ensures WeekdayNumber("tmrw") == -1
  {
  }

  lemma DateArg20Letters(s: string)
    requires s == "tmrw"
    ensures IsWordText(s) && forall i :: 0 <= i < |s| ==> !('A' <= s[i] <= 'Z')
  {
  }

  lemma DateArg20(s: string)
    requires s == "tmrw"
    ensures IsWordText(s) && WeekdayNumber(ToLower(s)) == -1
  {
    DateArg20Letters(s);
    ToLowerNoUpper(s);
    DateArg20Number();
  }

  lemma Named20(s: string, now: Instant)
    requires s == "tmrw"
    ensures NamedDate(s, now) == None
  {
    DateArg20(s);
  }

  lemma DateArg21Number()
    ensures WeekdayNumber("fri") == 5
  {
  }

  lemma DateArg21Letters(s: string)
    requires s == "fri"
    ensures IsWordText(s) && forall i :: 0 <= i < |s| ==> !('A' <= s[i] <= 'Z')
  {
  }

  lemma DateArg21(s: string)
    requires s == "fri"
    ensures IsWordText(s) && WeekdayNumber(ToLower(s)) == 5
  {
    DateArg21Letters(s);
    ToLowerNoUpper(s);
    DateArg21Number();
  }

  lemma Named21(s: string, now: Instant)
    requires s == "fri" && DayNumber(now) == 20121
    ensures NamedDate(s, now) == Some((Date(2025, 2, 7), true))
  {
    DateArg21(s);
    assert Weekday(now) == 0;
    DayShift(now, 5);
    Day20126(DayNumber(Add(now, 5, Day)));
    assert DateOf(Add(now, 5, Day)) == Date(2025, 2, 7);
  }

  lemma Values14()
    ensures DigitsValue("15") == 15 && DigitsValue("7") == 7
  {
    TwoDigits("15");
    OneDigit("7");
  }

  lemma Clock5(s: string)
    requires s == "7:15"
    ensures ClockOf(Some(s)) == (7, 15, true)
  {
    var p := ["7", "15"];
    assert Join(p[1..], ":") == "15";
    SplitOf(s, ':', p);
    assert !IsShortTime(s);
    Values14();
  }

  lemma Values15()
    ensures DigitsValue("4") == 4
  {
    OneDigit("4");
  }

  lemma Clock6(s: string)
    requires s == "4h"
    ensures ClockOf(Some(s)) == (4, 0, true)
  {
    assert IsShortTime(s) by { assert s[..|s| - 1] == "4"; }
    assert s[..|s| - 1] == "4";
    Values15();
  }

  lemma Values16()
    ensures DigitsValue("16") == 16
  {
    TwoDigits("16");
  }

  lemma Clock7(s: string)
    requires s == "16h"
    ensures ClockOf(Some(s)) == (16, 0, true)
  {
    assert IsShortTime(s) by { assert s[..|s| - 1] == "16"; }
    assert s[..|s| - 1] == "16";
    Values16();
  }

  lemma Values17()
    ensures DigitsValue("17") == 17
  {
    TwoDigits("17");
  }

  lemma Clock8(s: string)
    requires s == "17H"
    ensures ClockOf(Some(s)) == (17, 0, true)
  {
    assert IsShortTime(s) by { assert s[..|s| - 1] == "17"; }
    assert s[..|s| - 1] == "17";
    Values17();
  }

  lemma DateArg22Split(s: string)
    requires s == "31/02/2030"
    ensures Split(s, '/') == ["31", "02", "2030"]
  {
    var p := ["31", "02", "2030"];
    assert Join(p[2..], "/") == "2030" && Join(p[1..], "/") == "02/2030";
    SplitOf(s, '/', p);
  }

  lemma DateArg22Pieces(p: seq<string>)
    requires p == ["31", "02", "2030"]
    ensures |p| == 3 && IsOneOrTwoDigits(p[0]) && IsOneOrTwoDigits(p[1]) && IsFourDigits(p[2])
  {
  }

  lemma DateArg22(s: string)
    requires s == "31/02/2030"
    ensures Split(s, '/') == ["31", "02", "2030"] && !IsWordText(s) && !IsShortDate(s) && IsLongDate(s)
  {
    DateArg22Split(s);
    DateArg22Pieces(Split(s, '/'));
    LongDateOf(s, Split(s, '/'));
  }

  lemma Values18()
    ensures DigitsValue("02") == 2 && DigitsValue("2030") == 2030 && DigitsValue("31") == 31
  {
    TwoDigits("02");
    FourDigits("2030");
    TwoDigits("31");
  }

  lemma Named22(s: string, now: Instant)
    requires s == "31/02/2030"
    ensures NamedDate(s, now) == Some((Date(2030, 2, 31), true))
  {
    DateArg22(s);
    Values18();
  }

  lemma Values19()
    ensures DigitsValue("00") == 0 && DigitsValue("10") == 10
  {
    TwoDigits("00");
    TwoDigits("10");
  }

  lemma Clock9(s: string)
    requires s == "10:00"
    ensures ClockOf(Some(s)) == (10, 0, true)
  {
    var p := ["10", "00"];
    assert Join(p[1..], ":") == "00";
    SplitOf(s, ':', p);
    assert !IsShortTime(s);
    Values19();
  }

  // ---------------------------------------------------------------------------
  // Relative time

  /** A number followed by a word, then more text that starts with a digit if anything. */
  lemma TokenizePair(a: string, b: string, rest: string)
    requires |a| > 0 && AllDigits(a) && |b| > 0 && AllLetters(b)
    requires rest == [] || IsDigit(rest[0])
    ensures Tokenize(a + (b + rest)) == [a, b] + Tokenize(rest)
  {
    var x := b + rest;
    assert x[0] == b[0] && IsAsciiLetter(b[0]);
    TokenizeLetterRun(b, rest);
    TokenizeDigitRun(a, x);
    ConsTwo(a, b, Tokenize(rest));
  }

  lemma ConsTwo<T>(a: T, b: T, s: seq<T>)
    ensures [a] + ([b] + s) == [a, b] + s
  {
  }

  /** The text of (number, word) pairs written one after the other. */
  function PairsText(ps: seq<(string, string)>): string
  {
    if ps == [] then "" else ps[0].0 + (ps[0].1 + PairsText(ps[1..]))
  }

  function PairsTokens(ps: seq<(string, string)>): seq<string>
  {
    if ps == [] then [] else [ps[0].0, ps[0].1] + PairsTokens(ps[1..])
  }

  predicate NumberWordPairs(ps: seq<(string, string)>)
  {
    forall k :: 0 <= k < |ps| ==> |ps[k].0| > 0 && AllDigits(ps[k].0) && |ps[k].1| > 0 && AllLetters(ps[k].1)
  }

  /** Number-word pairs written together tokenize back into their numbers and words. */
  lemma {:induction false} TokenizePairsText(ps: seq<(string, string)>)
    requires NumberWordPairs(ps)
    ensures Tokenize(PairsText(ps)) == PairsTokens(ps)
  {
    if ps != [] {
      var rest := PairsText(ps[1..]);
      assert NumberWordPairs(ps[1..]) by {
        forall k | 0 <= k < |ps| - 1
          ensures ps[1..][k] == ps[k + 1]
        {
        }
      }
      TokenizePairsText(ps[1..]);
      if ps[1..] != [] {
        assert rest == ps[1].0 + (ps[1].1 + PairsText(ps[2..])) by {
          assert ps[1..][1..] == ps[2..];
        }
        assert rest[0] == ps[1].0[0];
      }
      TokenizePair(ps[0].0, ps[0].1, rest);
    }
  }

  lemma UnknownUnitText(ps: seq<(string, string)>, s: string)
    requires ps == [("1", "x")] && s == "1x"
    ensures PairsText(ps) == s
  {

  }

  lemma UnknownUnitShape(ps: seq<(string, string)>)
    requires ps == [("1", "x")]
    ensures NumberWordPairs(ps)
  {
    forall k | 0 <= k < |ps|
      ensures |ps[k].0| > 0 && AllDigits(ps[k].0) && |ps[k].1| > 0 && AllLetters(ps[k].1)
    {
    }
  }

  lemma UnknownUnitTokenList(ps: seq<(string, string)>)
    requires ps == [("1", "x")]
    ensures PairsTokens(ps) == ["1", "x"]
  {

  }

  /** `1x` tokenizes into ["1", "x"]. */
  lemma UnknownUnitTokens(s: string)
    requires s == "1x"
    ensures Tokenize(s) == ["1", "x"]
  {
    var ps := [("1", "x")];
    UnknownUnitText(ps, s);
    UnknownUnitShape(ps);
    UnknownUnitTokenList(ps);
    TokenizePairsText(ps);
  }

  lemma UpperCaseUnitText(ps: seq<(string, string)>, s: string)
    requires ps == [("1", "D")] && s == "1D"
    ensures PairsText(ps) == s
  {

  }

  lemma UpperCaseUnitShape(ps: seq<(string, string)>)
    requires ps == [("1", "D")]
    ensures NumberWordPairs(ps)
  {
    forall k | 0 <= k < |ps|
      ensures |ps[k].0| > 0 && AllDigits(ps[k].0) && |ps[k].1| > 0 && AllLetters(ps[k].1)
    {
    }
  }

  lemma UpperCaseUnitTokenList(ps: seq<(string, string)>)
    requires ps == [("1", "D")]
    ensures PairsTokens(ps) == ["1", "D"]
  {

  }

  /** `1D` tokenizes into ["1", "D"]. */
  lemma UpperCaseUnitTokens(s: string)
    requires s == "1D"
    ensures Tokenize(s) == ["1", "D"]
  {
    var ps := [("1", "D")];
    UpperCaseUnitText(ps, s);
    UpperCaseUnitShape(ps);
    UpperCaseUnitTokenList(ps);
    TokenizePairsText(ps);
  }

  lemma ZeroValueText(ps: seq<(string, string)>, s: string)
    requires ps == [("1", "d"), ("0", "m")] && s == "1d0m"
    ensures PairsText(ps) == s
  {
    assert PairsText(ps[1..]) == "0m";
  }

  lemma ZeroValueShape(ps: seq<(string, string)>)
    requires ps == [("1", "d"), ("0", "m")]
    ensures NumberWordPairs(ps)
  {
    forall k | 0 <= k < |ps|
      ensures |ps[k].0| > 0 && AllDigits(ps[k].0) && |ps[k].1| > 0 && AllLetters(ps[k].1)
    {
    }
  }

  lemma ZeroValueTokenList(ps: seq<(string, string)>)
    requires ps == [("1", "d"), ("0", "m")]
    ensures PairsTokens(ps) == ["1", "d", "0", "m"]
  {
    assert PairsTokens(ps[1..]) == ["0", "m"];
  }

  /** `1d0m` tokenizes into ["1", "d", "0", "m"]. */
  lemma ZeroValueTokens(s: string)
    requires s == "1d0m"
    ensures Tokenize(s) == ["1", "d", "0", "m"]
  {
    var ps := [("1", "d"), ("0", "m")];
    ZeroValueText(ps, s);
    ZeroValueShape(ps);
    ZeroValueTokenList(ps);
    TokenizePairsText(ps);
  }

  lemma UnknownSecondUnitText(ps: seq<(string, string)>, s: string)
    requires ps == [("1", "d"), ("1", "x")] && s == "1d1x"
    ensures PairsText(ps) == s
  {
    assert PairsText(ps[1..]) == "1x";
  }

  lemma UnknownSecondUnitShape(ps: seq<(string, string)>)
    requires ps == [("1", "d"), ("1", "x")]
    ensures NumberWordPairs(ps)
  {
    forall k | 0 <= k < |ps|
      ensures |ps[k].0| > 0 && AllDigits(ps[k].0) && |ps[k].1| > 0 && AllLetters(ps[k].1)
    {
    }
  }

  lemma UnknownSecondUnitTokenList(ps: seq<(string, string)>)
    requires ps == [("1", "d"), ("1", "x")]
    ensures PairsTokens(ps) == ["1", "d", "1", "x"]
  {
    assert PairsTokens(ps[1..]) == ["1", "x"];
  }

  /** `1d1x` tokenizes into ["1", "d", "1", "x"]. */
  lemma UnknownSecondUnitTokens(s: string)
    requires s == "1d1x"
    ensures Tokenize(s) == ["1", "d", "1", "x"]
  {
    var ps := [("1", "d"), ("1", "x")];
    UnknownSecondUnitText(ps, s);
    UnknownSecondUnitShape(ps);
    UnknownSecondUnitTokenList(ps);
    TokenizePairsText(ps);
  }

  lemma RepeatedUnitText(ps: seq<(string, string)>, s: string)
    requires ps == [("1", "d"), ("1", "d")] && s == "1d1d"
    ensures PairsText(ps) == s
  {
    assert PairsText(ps[1..]) == "1d";
  }

  lemma RepeatedUnitShape(ps: seq<(string, string)>)
    requires ps == [("1", "d"), ("1", "d")]
    ensures NumberWordPairs(ps)
  {
    forall k | 0 <= k < |ps|
      ensures |ps[k].0| > 0 && AllDigits(ps[k].0) && |ps[k].1| > 0 && AllLetters(ps[k].1)
    {
    }
  }

  lemma RepeatedUnitTokenList(ps: seq<(string, string)>)
    requires ps == [("1", "d"), ("1", "d")]
    ensures PairsTokens(ps) == ["1", "d", "1", "d"]
  {
    assert PairsTokens(ps[1..]) == ["1", "d"];
  }

  /** `1d1d` tokenizes into ["1", "d", "1", "d"]. */
  lemma RepeatedUnitTokens(s: string)
    requires s == "1d1d"
    ensures Tokenize(s) == ["1", "d", "1", "d"]
  {
    var ps := [("1", "d"), ("1", "d")];
    RepeatedUnitText(ps, s);
    RepeatedUnitShape(ps);
    RepeatedUnitTokenList(ps);
    TokenizePairsText(ps);
  }

  lemma TwoAliasesText(ps: seq<(string, string)>, s: string)
    requires ps == [("1", "d"), ("1", "day")] && s == "1d1day"
    ensures PairsText(ps) == s
  {
    assert PairsText(ps[1..]) == "1day";
  }

  lemma TwoAliasesShape(ps: seq<(string, string)>)
    requires ps == [("1", "d"), ("1", "day")]
    ensures NumberWordPairs(ps)
  {
    forall k | 0 <= k < |ps|
      ensures |ps[k].0| > 0 && AllDigits(ps[k].0) && |ps[k].1| > 0 && AllLetters(ps[k].1)
    {
    }
  }

  lemma TwoAliasesTokenList(ps: seq<(string, string)>)
    requires ps == [("1", "d"), ("1", "day")]
    ensures PairsTokens(ps) == ["1", "d", "1", "day"]
  {
    assert PairsTokens(ps[1..]) == ["1", "day"];
  }

  /** `1d1day` tokenizes into ["1", "d", "1", "day"]. */
  lemma TwoAliasesTokens(s: string)
    requires s == "1d1day"
    ensures Tokenize(s) == ["1", "d", "1", "day"]
  {
    var ps := [("1", "d"), ("1", "day")];
    TwoAliasesText(ps, s);
    TwoAliasesShape(ps);
    TwoAliasesTokenList(ps);
    TokenizePairsText(ps);
  }

  lemma OneMinuteText(ps: seq<(string, string)>, s: string)
    requires ps == [("1", "m")] && s == "1m"
    ensures PairsText(ps) == s
  {

  }

  lemma OneMinuteShape(ps: seq<(string, string)>)
    requires ps == [("1", "m")]
    ensures NumberWordPairs(ps)
  {
    forall k | 0 <= k < |ps|
      ensures |ps[k].0| > 0 && AllDigits(ps[k].0) && |ps[k].1| > 0 && AllLetters(ps[k].1)
    {
    }
  }

  lemma OneMinuteTokenList(ps: seq<(string, string)>)
    requires ps == [("1", "m")]
    ensures PairsTokens(ps) == ["1", "m"]
  {

  }

  /** `1m` tokenizes into ["1", "m"]. */
  lemma OneMinuteTokens(s: string)
    requires s == "1m"
    ensures Tokenize(s) == ["1", "m"]
  {
    var ps := [("1", "m")];
    OneMinuteText(ps, s);
    OneMinuteShape(ps);
    OneMinuteTokenList(ps);
    TokenizePairsText(ps);
  }

  lemma DaysHoursMinutesText(ps: seq<(string, string)>, s: string)
    requires ps == [("3", "d"), ("2", "h"), ("1", "m")] && s == "3d2h1m"
    ensures PairsText(ps) == s
  {
    assert PairsText(ps[2..]) == "1m";
    assert PairsText(ps[1..]) == "2h1m";
  }

  lemma DaysHoursMinutesShape(ps: seq<(string, string)>)
    requires ps == [("3", "d"), ("2", "h"), ("1", "m")]
    ensures NumberWordPairs(ps)
  {
    forall k | 0 <= k < |ps|
      ensures |ps[k].0| > 0 && AllDigits(ps[k].0) && |ps[k].1| > 0 && AllLetters(ps[k].1)
    {
    }
  }

  lemma DaysHoursMinutesTokenList(ps: seq<(string, string)>)
    requires ps == [("3", "d"), ("2", "h"), ("1", "m")]
    ensures PairsTokens(ps) == ["3", "d", "2", "h", "1", "m"]
  {
    assert PairsTokens(ps[2..]) == ["1", "m"];
    assert PairsTokens(ps[1..]) == ["2", "h", "1", "m"];
  }

  /** `3d2h1m` tokenizes into ["3", "d", "2", "h", "1", "m"]. */
  lemma DaysHoursMinutesTokens(s: string)
    requires s == "3d2h1m"
    ensures Tokenize(s) == ["3", "d", "2", "h", "1", "m"]
  {
    var ps := [("3", "d"), ("2", "h"), ("1", "m")];
    DaysHoursMinutesText(ps, s);
    DaysHoursMinutesShape(ps);
    DaysHoursMinutesTokenList(ps);
    TokenizePairsText(ps);
  }

  lemma AllUnitsText(ps: seq<(string, string)>, s: string)
    requires ps == [("3", "y"), ("2", "w"), ("1", "mo"), ("6", "d"), ("12", "h"), ("36", "m")] && s == "3y2w1mo6d12h36m"
    ensures PairsText(ps) == s
  {
    assert PairsText(ps[5..]) == "36m";
    assert PairsText(ps[4..]) == "12h36m";
    assert PairsText(ps[3..]) == "6d12h36m";
    assert PairsText(ps[2..]) == "1mo6d12h36m";
    assert PairsText(ps[1..]) == "2w1mo6d12h36m";
  }

  lemma AllUnitsShape(ps: seq<(string, string)>)
    requires ps == [("3", "y"), ("2", "w"), ("1", "mo"), ("6", "d"), ("12", "h"), ("36", "m")]
    ensures NumberWordPairs(ps)
  {
    forall k | 0 <= k < |ps|
      ensures |ps[k].0| > 0 && AllDigits(ps[k].0) && |ps[k].1| > 0 && AllLetters(ps[k].1)
    {
    }
  }

  lemma AllUnitsTokenList(ps: seq<(string, string)>)
    requires ps == [("3", "y"), ("2", "w"), ("1", "mo"), ("6", "d"), ("12", "h"), ("36", "m")]
    ensures PairsTokens(ps) == ["3", "y", "2", "w", "1", "mo", "6", "d", "12", "h", "36", "m"]
  {
    assert PairsTokens(ps[5..]) == ["36", "m"];
    assert PairsTokens(ps[4..]) == ["12", "h", "36", "m"];
    assert PairsTokens(ps[3..]) == ["6", "d", "12", "h", "36", "m"];
    assert PairsTokens(ps[2..]) == ["1", "mo", "6", "d", "12", "h", "36", "m"];
    assert PairsTokens(ps[1..]) == ["2", "w", "1", "mo", "6", "d", "12", "h", "36", "m"];
  }

  /** `3y2w1mo6d12h36m` tokenizes into ["3", "y", "2", "w", "1", "mo", "6", "d", "12", "h", "36", "m"]. */
  lemma AllUnitsTokens(s: string)
    requires s == "3y2w1mo6d12h36m"
    ensures Tokenize(s) == ["3", "y", "2", "w", "1", "mo", "6", "d", "12", "h", "36", "m"]
  {
    var ps := [("3", "y"), ("2", "w"), ("1", "mo"), ("6", "d"), ("12", "h"), ("36", "m")];
    AllUnitsText(ps, s);
    AllUnitsShape(ps);
    AllUnitsTokenList(ps);
    TokenizePairsText(ps);
  }

  lemma MonthThenDayText(ps: seq<(string, string)>, s: string)
    requires ps == [("1", "mo"), ("1", "d")] && s == "1mo1d"
    ensures PairsText(ps) == s
  {
    assert PairsText(ps[1..]) == "1d";
  }

  lemma MonthThenDayShape(ps: seq<(string, string)>)
    requires ps == [("1", "mo"), ("1", "d")]
    ensures NumberWordPairs(ps)
  {
    forall k | 0 <= k < |ps|
      ensures |ps[k].0| > 0 && AllDigits(ps[k].0) && |ps[k].1| > 0 && AllLetters(ps[k].1)
    {
    }
  }

  lemma MonthThenDayTokenList(ps: seq<(string, string)>)
    requires ps == [("1", "mo"), ("1", "d")]
    ensures PairsTokens(ps) == ["1", "mo", "1", "d"]
  {
    assert PairsTokens(ps[1..]) == ["1", "d"];
  }

  /** `1mo1d` tokenizes into ["1", "mo", "1", "d"]. */
  lemma MonthThenDayTokens(s: string)
    requires s == "1mo1d"
    ensures Tokenize(s) == ["1", "mo", "1", "d"]
  {
    var ps := [("1", "mo"), ("1", "d")];
    MonthThenDayText(ps, s);
    MonthThenDayShape(ps);
    MonthThenDayTokenList(ps);
    TokenizePairsText(ps);
  }

  lemma DayThenMonthText(ps: seq<(string, string)>, s: string)
    requires ps == [("1", "d"), ("1", "mo")] && s == "1d1mo"
    ensures PairsText(ps) == s
  {
    assert PairsText(ps[1..]) == "1mo";
  }

  lemma DayThenMonthShape(ps: seq<(string, string)>)
    requires ps == [("1", "d"), ("1", "mo")]
    ensures NumberWordPairs(ps)
  {
    forall k | 0 <= k < |ps|
      ensures |ps[k].0| > 0 && AllDigits(ps[k].0) && |ps[k].1| > 0 && AllLetters(ps[k].1)
    {
    }
  }

  lemma DayThenMonthTokenList(ps: seq<(string, string)>)
    requires ps == [("1", "d"), ("1", "mo")]
    ensures PairsTokens(ps) == ["1", "d", "1", "mo"]
  {
    assert PairsTokens(ps[1..]) == ["1", "mo"];
  }

  /** `1d1mo` tokenizes into ["1", "d", "1", "mo"]. */
  lemma DayThenMonthTokens(s: string)
    requires s == "1d1mo"
    ensures Tokenize(s) == ["1", "d", "1", "mo"]
  {
    var ps := [("1", "d"), ("1", "mo")];
    DayThenMonthText(ps, s);
    DayThenMonthShape(ps);
    DayThenMonthTokenList(ps);
    TokenizePairsText(ps);
  }

  lemma TwoDaysApplied(start: Instant)
    ensures ApplyUnits(start, [("d", 1), ("day", 1)]) == start + 2 * MsPerDay
  {
    assert UnitOf("d") == Some(Day) && UnitOf("day") == Some(Day);
    ApplyTwo(start, [("d", 1), ("day", 1)]);
    AddFixedLength(start, 1);
    AddFixedLength(start + MsPerDay, 1);
  }
  lemma DaysHoursMinutesApplied(start: Instant)
    ensures ApplyUnits(start, [("d", 3), ("h", 2), ("m", 1)]) == start + 3 * MsPerDay + 2 * MsPerHour + MsPerMinute
  {
    assert UnitOf("d") == Some(Day) && UnitOf("h") == Some(Hour) && UnitOf("m") == Some(Minute);
    ApplyThree(start, [("d", 3), ("h", 2), ("m", 1)]);
    AddFixedLength(start, 3);
    AddFixedLength(start + 3 * MsPerDay, 2);
    AddFixedLength(start + 3 * MsPerDay + 2 * MsPerHour, 1);
  }
  lemma DaysHoursMinutesEnd(start: Instant)
    requires start == Feb2
    ensures start + 3 * MsPerDay + 2 * MsPerHour + MsPerMinute == FromCivil(5, 2, 2025, 2, 1).ms
  {
    assert DaysFromCivil(2025, 2, 5) == 20124;
  }
  lemma ThreeYears(t: Instant)
    requires DateOf(t) == Date(2025, 2, 2) && TimeOfDay(t) == 0
    ensures Add(t, 3, Year) == 21216 * MsPerDay
  {
    AddMonthsDate(t, 36, 2028, 2);
    assert DaysInMonth(2028, 2) == 29;
    Civil21216();
  }
  lemma Civil21216()
    ensures DaysFromCivil(2028, 2, 2) == 21216
  {
  }
  lemma OneMonthFrom(t: Instant)
    requires DateOf(t) == Date(2028, 2, 16) && TimeOfDay(t) == 0
    ensures Add(t, 1, Month) == 21259 * MsPerDay
  {
    AddMonthsDate(t, 1, 2028, 3);
    assert DaysInMonth(2028, 3) == 31;
    Civil21259();
  }
  lemma Civil21259()
    ensures DaysFromCivil(2028, 3, 16) == 21259
  {
  }
  lemma At21230(t: Instant)
    requires t == 21230 * MsPerDay
    ensures DateOf(t) == Date(2028, 2, 16) && TimeOfDay(t) == 0
  {
    Midnight(t, 21230);
    Day21230(DayNumber(t));
  }
  lemma YearsWeeksApplied(start: Instant)
    requires DateOf(start) == Date(2025, 2, 2) && TimeOfDay(start) == 0
    ensures ApplyUnits(start, [("y", 3), ("w", 2)]) == 21230 * MsPerDay
  {
    assert UnitOf("y") == Some(Year) && UnitOf("w") == Some(Week);
    ApplyTwo(start, [("y", 3), ("w", 2)]);
    ThreeYears(start);
    AddFixedLength(21216 * MsPerDay, 2);
    AddFixedLength(21216 * MsPerDay, 14);
  }
  lemma MonthApplied(t: Instant)
    requires t == 21230 * MsPerDay
    ensures ApplyUnits(t, [("mo", 1)]) == 21259 * MsPerDay
  {
    assert UnitOf("mo") == Some(Month);
    ApplyOne(t, [("mo", 1)]);
    At21230(t);
    OneMonthFrom(t);
  }
  lemma DaysHoursMinutesFrom(t: Instant)
    requires t == 21259 * MsPerDay
    ensures ApplyUnits(t, [("d", 6), ("h", 12), ("m", 36)]) == FromCivil(22, 3, 2028, 12, 36).ms
  {
    assert UnitOf("d") == Some(Day) && UnitOf("h") == Some(Hour) && UnitOf("m") == Some(Minute);
    ApplyThree(t, [("d", 6), ("h", 12), ("m", 36)]);
    AddFixedLength(t, 6);
    AddFixedLength(t + 6 * MsPerDay, 12);
    AddFixedLength(t + 6 * MsPerDay + 12 * MsPerHour, 36);
    March22();
  }
  /** 22/03/2028 12:36 is day 21265 plus 12 hours and 36 minutes. */
  lemma March22()
    ensures FromCivil(22, 3, 2028, 12, 36).ms == 21265 * MsPerDay + 12 * MsPerHour + 36 * MsPerMinute
  {
    assert DaysFromCivil(2028, 3, 22) == 21265;
  }
  lemma AllUnitsFacts()
    ensures UnitOf("y") == Some(Year) && UnitOf("w") == Some(Week) && UnitOf("mo") == Some(Month)
    ensures UnitOf("d") == Some(Day) && UnitOf("h") == Some(Hour) && UnitOf("m") == Some(Minute)
  {
  }

  lemma AllUnitsApplied(start: Instant)
    requires DateOf(start) == Date(2025, 2, 2) && TimeOfDay(start) == 0
    ensures ApplyUnits(start, [("y", 3), ("w", 2), ("mo", 1), ("d", 6), ("h", 12), ("m", 36)])
            == FromCivil(22, 3, 2028, 12, 36).ms
  {
    var a, b, c := [("y", 3), ("w", 2)], [("mo", 1)], [("d", 6), ("h", 12), ("m", 36)];
    AllUnitsFacts();
    YearsWeeksApplied(start);
    MonthApplied(21230 * MsPerDay);
    DaysHoursMinutesFrom(21259 * MsPerDay);
    ApplyUnitsAppend(start, a, b);
    ApplyUnitsAppend(start, a + b, c);
    assert a + b + c == [("y", 3), ("w", 2), ("mo", 1), ("d", 6), ("h", 12), ("m", 36)];
  }
  lemma Values12And36()
    ensures DigitsValue("12") == 12 && DigitsValue("36") == 36
  {
    TwoDigits("12");
    TwoDigits("36");
  }
  lemma MonthFromJan30(t: Instant)
    requires DateOf(t) == Date(2025, 1, 30) && TimeOfDay(t) == 0
    ensures Add(t, 1, Month) == 20147 * MsPerDay
  {
    AddMonthsDate(t, 1, 2025, 2);
    assert DaysInMonth(2025, 2) == 28;
    Civil20147();
  }
  lemma MonthFromJan31(t: Instant)
    requires DateOf(t) == Date(2025, 1, 31) && TimeOfDay(t) == 0
    ensures Add(t, 1, Month) == 20147 * MsPerDay
  {
    AddMonthsDate(t, 1, 2025, 2);
    assert DaysInMonth(2025, 2) == 28;
    Civil20147();
  }
  lemma Civil20147()
    ensures DaysFromCivil(2025, 2, 28) == 20147
  {
  }
  lemma At20118(t: Instant)
    requires t == 20118 * MsPerDay
    ensures DateOf(t) == Date(2025, 1, 30) && TimeOfDay(t) == 0
  {
    Midnight(t, 20118);
    Day20118(DayNumber(t));
  }
  lemma At20119(t: Instant)
    requires t == 20119 * MsPerDay
    ensures DateOf(t) == Date(2025, 1, 31) && TimeOfDay(t) == 0
  {
    Midnight(t, 20119);
    Day20119(DayNumber(t));
  }
  /** 01/03/2025 00:00 is day 20148. */
  lemma March1()
    ensures FromCivil(1, 3, 2025, 0, 0).ms == 20148 * MsPerDay
  {
    assert DaysFromCivil(2025, 3, 1) == 20148;
  }
  /** 28/02/2025 00:00 is day 20147. */
  lemma February28()
    ensures FromCivil(28, 2, 2025, 0, 0).ms == 20147 * MsPerDay
  {
    Civil20147();
  }
  /** Two known units are added first to last. */
  lemma ApplyTwo(start: Instant, tv: TimeValues)
    requires |tv| == 2 && UnitsKnown(tv)
    ensures ApplyUnits(start, tv) == Add(Add(start, tv[0].1, UnitOf(tv[0].0).value), tv[1].1, UnitOf(tv[1].0).value)
  {
    var a, b := [tv[0]], [tv[1]];
    assert tv == a + b;
    ApplyUnitsAppend(start, a, b);
    ApplyOne(start, a);
    ApplyOne(ApplyUnits(start, a), b);
  }
  /** One known unit is added to the start. */
  lemma ApplyOne(start: Instant, tv: TimeValues)
    requires |tv| == 1 && UnitsKnown(tv)
    ensures ApplyUnits(start, tv) == Add(start, tv[0].1, UnitOf(tv[0].0).value)
  {
    assert tv[..0] == [] && tv[..1] == tv;
    ApplyUnitsStep(start, tv, 0);
  }
  /** Three known units are added first to last. */
  lemma ApplyThree(start: Instant, tv: TimeValues)
    requires |tv| == 3 && UnitsKnown(tv)
    ensures ApplyUnits(start, tv)
            == Add(Add(Add(start, tv[0].1, UnitOf(tv[0].0).value), tv[1].1, UnitOf(tv[1].0).value), tv[2].1, UnitOf(tv[2].0).value)
  {
    var a, b := tv[..2], [tv[2]];
    assert tv == a + b;
    ApplyUnitsAppend(start, a, b);
    ApplyTwo(start, a);
    ApplyOne(ApplyUnits(start, a), b);
  }
  lemma MonthThenDayApplied(start: Instant)
    requires start == 20118 * MsPerDay
    ensures ApplyUnits(start, [("mo", 1), ("d", 1)]) == FromCivil(1, 3, 2025, 0, 0).ms
  {
    assert UnitOf("mo") == Some(Month) && UnitOf("d") == Some(Day);
    ApplyTwo(start, [("mo", 1), ("d", 1)]);
    At20118(start);
    MonthFromJan30(start);
    AddFixedLength(20147 * MsPerDay, 1);
    March1();
  }
  lemma DayThenMonthApplied(start: Instant)
    requires start == 20118 * MsPerDay
    ensures ApplyUnits(start, [("d", 1), ("mo", 1)]) == FromCivil(28, 2, 2025, 0, 0).ms
  {
    assert UnitOf("mo") == Some(Month) && UnitOf("d") == Some(Day);
    ApplyTwo(start, [("d", 1), ("mo", 1)]);
    AddFixedLength(start, 1);
    At20119(20119 * MsPerDay);
    MonthFromJan31(20119 * MsPerDay);
    February28();
  }

  /** `1x`: `x` is no unit. */
  lemma UnknownUnitExample(start: Instant, s: string)
    requires s == "1x"
    ensures RelativeTimeSpec(start, s) == RelativeInvalid
  {
    UnknownUnitTokens(s);
    UnknownUnitInvalid(start, s, 0);
  }

  /** `1D`: units are case-sensitive. */
  lemma UpperCaseUnitExample(start: Instant, s: string)
    requires s == "1D"
    ensures RelativeTimeSpec(start, s) == RelativeInvalid
  {
    UpperCaseUnitTokens(s);
    UnknownUnitInvalid(start, s, 0);
  }

  /** `abcd`: a single token. */
  lemma LettersOnlyExample(start: Instant, s: string)
    requires s == "abcd"
    ensures RelativeTimeSpec(start, s) == RelativeInvalid
  {
    TokenizeLetterRun(s, "");
    assert s + "" == s;
    OddTokensInvalid(start, s);
  }

  /** `1.1d`: the dot only separates, leaving three tokens. */
  lemma DecimalPointExample(start: Instant, s: string)
    requires s == "1.1d"
    ensures RelativeTimeSpec(start, s) == RelativeInvalid
  {
    TokenizePair("1", "d", "");
    assert "1" + ("d" + "") == "1d";
    TokenizeSeparator('.', "1d");
    assert s == "1" + ".1d" && ".1d" == ['.'] + "1d";
    TokenizeDigitRun("1", ".1d");
    OddTokensInvalid(start, s);
  }

  /** `1d0m`: a zero value after a valid pair. */
  lemma ZeroValueExample(start: Instant, s: string)
    requires s == "1d0m"
    ensures RelativeTimeSpec(start, s) == RelativeInvalid
  {
    ZeroValueTokens(s);
    assert NumberOf("0") == Some(0);
    NonPositiveInvalid(start, s, 1);
  }

  /** `1d1x`: an unknown unit after a valid pair. */
  lemma UnknownSecondUnitExample(start: Instant, s: string)
    requires s == "1d1x"
    ensures RelativeTimeSpec(start, s) == RelativeInvalid
  {
    UnknownSecondUnitTokens(s);
    UnknownUnitInvalid(start, s, 1);
  }

  /** `1d1d`: the same unit token twice. */
  lemma RepeatedUnitExample(start: Instant, s: string)
    requires s == "1d1d"
    ensures RelativeTimeSpec(start, s) == RelativeInvalid
  {
    RepeatedUnitTokens(s);
    RepeatedUnitInvalid(start, s, 0, 1);
  }

  /** `1d1day`: two aliases of one unit are two keys, and both are added. */
  lemma TwoAliasesExample(start: Instant, s: string)
    requires s == "1d1day"
    ensures RelativeTimeSpec(start, s) == RelativeValid(start + 2 * MsPerDay, [("d", 1), ("day", 1)])
  {
    TwoAliasesTokens(s);
    DayAliasFacts();
    TwoDaysApplied(start);
    ValidTwo(start, s, ["1", "d", "1", "day"], [("d", 1), ("day", 1)], start + 2 * MsPerDay);
  }
  /** `1m` is 02/02/2025 00:01. */
  lemma OneMinuteExample(start: Instant, s: string)
    requires start == Feb2 && s == "1m"
    ensures RelativeTimeSpec(start, s) == RelativeValid(FromCivil(2, 2, 2025, 0, 1).ms, [("m", 1)])
  {
    OneMinuteTokens(s);
    assert NumberOf("1") == Some(1) && UnitOf("m") == Some(Minute);
    MatchOne(Tokenize(s), [("m", 1)]);
    RelativeValidWhen(start, s, [("m", 1)]);
    ApplyOne(start, [("m", 1)]);
    AddFixedLength(start, 1);
    Feb2Minute();
  }

  /** 02/02/2025 00:01 is one minute after `Feb2`. */
  lemma Feb2Minute()
    ensures FromCivil(2, 2, 2025, 0, 1).ms == Feb2 + MsPerMinute
  {
    assert DaysFromCivil(2025, 2, 2) == 20121;
  }

  /** The tokens of one known (number, unit) pair match a one-entry dictionary. */
  lemma MatchOne(ts: seq<string>, tv: TimeValues)
    requires |ts| == 2 && |tv| == 1 && ts[1] == tv[0].0 && NumberOf(ts[0]) == Some(tv[0].1) && tv[0].1 > 0
    requires UnitOf(tv[0].0).Some?
    ensures |ts| == 2 * |tv| > 0
    ensures forall k :: 0 <= k < |tv| ==> ts[2 * k + 1] == tv[k].0 && NumberOf(ts[2 * k]) == Some(tv[k].1) && tv[k].1 > 0
    ensures UnitsKnown(tv)
  {
  }

  lemma MonthDayFacts()
    ensures NumberOf("1") == Some(1) && UnitOf("mo") == Some(Month) && UnitOf("d") == Some(Day)
  {
  }

  lemma DayAliasFacts()
    ensures NumberOf("1") == Some(1) && UnitOf("d") == Some(Day) && UnitOf("day") == Some(Day)
  {
  }

  /** Text that tokenizes into two known pairs with different unit tokens is valid, with the
      dictionary of the pairs. */
  lemma ValidTwo(start: Instant, s: string, ts: seq<string>, tv: TimeValues, t: Instant)
    requires Tokenize(s) == ts
    requires |ts| == 4 && |tv| == 2 && ts[1] == tv[0].0 && ts[3] == tv[1].0 && tv[0].0 != tv[1].0
    requires NumberOf(ts[0]) == Some(tv[0].1) && tv[0].1 > 0 && NumberOf(ts[2]) == Some(tv[1].1) && tv[1].1 > 0
    requires UnitOf(tv[0].0).Some? && UnitOf(tv[1].0).Some?
    requires UnitsKnown(tv) ==> ApplyUnits(start, tv) == t
    ensures RelativeTimeSpec(start, s) == RelativeValid(t, tv)
  {
    MatchTwo(ts, tv);
    RelativeValidWhen(start, s, tv);
  }

  /** The tokens of two known pairs with different unit tokens match a two-entry dictionary. */
  lemma MatchTwo(ts: seq<string>, tv: TimeValues)
    requires |ts| == 4 && |tv| == 2 && ts[1] == tv[0].0 && ts[3] == tv[1].0 && tv[0].0 != tv[1].0
    requires NumberOf(ts[0]) == Some(tv[0].1) && tv[0].1 > 0 && NumberOf(ts[2]) == Some(tv[1].1) && tv[1].1 > 0
    requires UnitOf(tv[0].0).Some? && UnitOf(tv[1].0).Some?
    ensures |ts| == 2 * |tv| > 0
    ensures forall k :: 0 <= k < |tv| ==> ts[2 * k + 1] == tv[k].0 && NumberOf(ts[2 * k]) == Some(tv[k].1) && tv[k].1 > 0
    ensures UnitsKnown(tv)
    ensures forall k, l :: 0 <= k < l < |tv| ==> tv[k].0 != tv[l].0
  {
  }
  /** `3d2h1m` is 05/02/2025 02:01. */
  lemma DaysHoursMinutesExample(start: Instant, s: string)
    requires start == Feb2 && s == "3d2h1m"
    ensures RelativeTimeSpec(start, s) == RelativeValid(FromCivil(5, 2, 2025, 2, 1).ms, [("d", 3), ("h", 2), ("m", 1)])
  {
    var tv := [("d", 3), ("h", 2), ("m", 1)];
    DaysHoursMinutesTokens(s);
    DaysHoursMinutesMatch(Tokenize(s), tv);
    RelativeValidWhen(start, s, tv);
    DaysHoursMinutesApplied(start);
    DaysHoursMinutesEnd(start);
  }

  lemma DaysHoursMinutesMatch(ts: seq<string>, tv: TimeValues)
    requires ts == ["3", "d", "2", "h", "1", "m"]
    requires tv == [("d", 3), ("h", 2), ("m", 1)]
    ensures |ts| == 2 * |tv| > 0
    ensures forall k :: 0 <= k < |tv| ==> ts[2 * k + 1] == tv[k].0 && NumberOf(ts[2 * k]) == Some(tv[k].1) && tv[k].1 > 0
    ensures UnitsKnown(tv)
    ensures forall k, l :: 0 <= k < l < |tv| ==> tv[k].0 != tv[l].0
  {
    assert NumberOf("3") == Some(3) && NumberOf("2") == Some(2) && NumberOf("1") == Some(1);
    assert UnitOf("d") == Some(Day) && UnitOf("h") == Some(Hour) && UnitOf("m") == Some(Minute);
  }

  lemma AllUnitsMatch(ts: seq<string>, tv: TimeValues)
    requires ts == ["3", "y", "2", "w", "1", "mo", "6", "d", "12", "h", "36", "m"]
    requires tv == [("y", 3), ("w", 2), ("mo", 1), ("d", 6), ("h", 12), ("m", 36)]
    ensures |ts| == 2 * |tv| > 0
    ensures forall k :: 0 <= k < |tv| ==> ts[2 * k + 1] == tv[k].0 && NumberOf(ts[2 * k]) == Some(tv[k].1) && tv[k].1 > 0
  {
    Values12And36();
    assert NumberOf("3") == Some(3) && NumberOf("2") == Some(2) && NumberOf("1") == Some(1) && NumberOf("6") == Some(6);
    assert NumberOf("12") == Some(12) && NumberOf("36") == Some(36);
  }

  lemma AllUnitsKeys(tv: TimeValues)
    requires tv == [("y", 3), ("w", 2), ("mo", 1), ("d", 6), ("h", 12), ("m", 36)]
    ensures UnitsKnown(tv)
    ensures forall k, l :: 0 <= k < l < |tv| ==> tv[k].0 != tv[l].0
  {
    assert UnitOf("y") == Some(Year) && UnitOf("w") == Some(Week) && UnitOf("mo") == Some(Month);
    assert UnitOf("d") == Some(Day) && UnitOf("h") == Some(Hour) && UnitOf("m") == Some(Minute);
  }

  /** `3y2w1mo6d12h36m` is 22/03/2028 12:36: years, weeks, months, days, hours and minutes
      are added in that (input) order. */
  lemma AllUnitsExample(start: Instant, s: string)
    requires start == Feb2 && s == "3y2w1mo6d12h36m"
    ensures RelativeTimeSpec(start, s)
            == RelativeValid(FromCivil(22, 3, 2028, 12, 36).ms,
                             [("y", 3), ("w", 2), ("mo", 1), ("d", 6), ("h", 12), ("m", 36)])
  {
    var tv := [("y", 3), ("w", 2), ("mo", 1), ("d", 6), ("h", 12), ("m", 36)];
    AllUnitsTokens(s);
    AllUnitsMatch(Tokenize(s), tv);
    AllUnitsKeys(tv);
    RelativeValidWhen(start, s, tv);
    Feb2Date(start);
    AllUnitsApplied(start);
  }

  /** From 30/01/2025, a month then a day is 01/03/2025: 30 February is clamped to the 28th
      before the day is added. */
  lemma MonthThenDayExample(start: Instant, s: string)
    requires start == 20118 * MsPerDay && s == "1mo1d"
    ensures RelativeTimeSpec(start, s) == RelativeValid(FromCivil(1, 3, 2025, 0, 0).ms, [("mo", 1), ("d", 1)])
  {
    MonthThenDayTokens(s);
    MonthDayFacts();
    MonthThenDayApplied(start);
    ValidTwo(start, s, ["1", "mo", "1", "d"], [("mo", 1), ("d", 1)], FromCivil(1, 3, 2025, 0, 0).ms);
  }
  /** From 30/01/2025, a day then a month is 28/02/2025: the order of the units matters. */
  lemma DayThenMonthExample(start: Instant, s: string)
    requires start == 20118 * MsPerDay && s == "1d1mo"
    ensures RelativeTimeSpec(start, s) == RelativeValid(FromCivil(28, 2, 2025, 0, 0).ms, [("d", 1), ("mo", 1)])
  {
    DayThenMonthTokens(s);
    MonthDayFacts();
    DayThenMonthApplied(start);
    ValidTwo(start, s, ["1", "d", "1", "mo"], [("d", 1), ("mo", 1)], FromCivil(28, 2, 2025, 0, 0).ms);
  }

  // ---------------------------------------------------------------------------
  // Absolute time

  /** `abcd` is no weekday: invalid. */
  lemma WordWithoutTime(now: Instant)
    requires now == Feb2
    ensures ParseAbsoluteTime("abcd", None, now) == AbsoluteInvalid
  {
    Feb2Date(now);
    Named0("abcd", now);
    Clock0();
    AbsoluteTimeMeaning("abcd", None, now);
  }

  /** `abcd 23` is invalid; `23` is no time form either. */
  lemma WordWithBareNumber(now: Instant)
    requires now == Feb2
    ensures ParseAbsoluteTime("abcd", Some("23"), now) == AbsoluteInvalid
  {
    Feb2Date(now);
    Named0("abcd", now);
    Clock1("23");
    AbsoluteTimeMeaning("abcd", Some("23"), now);
  }

  /** `02/02/2026 17:06` is read as written. */
  lemma LongDateKept(now: Instant)
    requires now == Feb2
    ensures ParseAbsoluteTime("02/02/2026", Some("17:06"), now) == AbsoluteValid(FromCivil(2, 2, 2026, 17, 6), true)
  {
    Feb2Date(now);
    Named1("02/02/2026", now);
    Clock2("17:06");
    AbsoluteTimeMeaning("02/02/2026", Some("17:06"), now);
  }

  /** `02/6/2026`: the month is zero-padded. */
  lemma LongDatePadsMonth(now: Instant)
    requires now == Feb2
    ensures ParseAbsoluteTime("02/6/2026", Some("17:06"), now) == AbsoluteValid(FromCivil(2, 6, 2026, 17, 6), true)
  {
    Feb2Date(now);
    Named2("02/6/2026", now);
    Clock2("17:06");
    AbsoluteTimeMeaning("02/6/2026", Some("17:06"), now);
  }

  /** `3/7/2026`: day and month are zero-padded. */
  lemma LongDatePadsBoth(now: Instant)
    requires now == Feb2
    ensures ParseAbsoluteTime("3/7/2026", Some("17:06"), now) == AbsoluteValid(FromCivil(3, 7, 2026, 17, 6), true)
  {
    Feb2Date(now);
    Named3("3/7/2026", now);
    Clock2("17:06");
    AbsoluteTimeMeaning("3/7/2026", Some("17:06"), now);
  }

  /** `1/3` takes the current year. */
  lemma ShortDateOneDigits(now: Instant)
    requires now == Feb2
    ensures ParseAbsoluteTime("1/3", Some("17:06"), now) == AbsoluteValid(FromCivil(1, 3, 2025, 17, 6), true)
  {
    Feb2Date(now);
    Named4("1/3", now);
    Clock2("17:06");
    AbsoluteTimeMeaning("1/3", Some("17:06"), now);
  }

  /** `02/12` takes the current year. */
  lemma ShortDateDecember(now: Instant)
    requires now == Feb2
    ensures ParseAbsoluteTime("02/12", Some("17:06"), now) == AbsoluteValid(FromCivil(2, 12, 2025, 17, 6), true)
  {
    Feb2Date(now);
    Named5("02/12", now);
    Clock2("17:06");
    AbsoluteTimeMeaning("02/12", Some("17:06"), now);
  }

  /** `6/12` takes the current year. */
  lemma ShortDatePadsDay(now: Instant)
    requires now == Feb2
    ensures ParseAbsoluteTime("6/12", Some("17:06"), now) == AbsoluteValid(FromCivil(6, 12, 2025, 17, 6), true)
  {
    Feb2Date(now);
    Named6("6/12", now);
    Clock2("17:06");
    AbsoluteTimeMeaning("6/12", Some("17:06"), now);
  }

  /** `03/02` without a time is 06:00, with no time inputted. */
  lemma ShortDateDefaultTime(now: Instant)
    requires now == Feb2
    ensures ParseAbsoluteTime("03/02", None, now) == AbsoluteValid(FromCivil(3, 2, 2025, 6, 0), false)
  {
    Feb2Date(now);
    Named7("03/02", now);
    Clock0();
    AbsoluteTimeMeaning("03/02", None, now);
  }

  /** `02/02` stays in the current year: there is no rollover to the next one. */
  lemma ShortDateTodayNoRollover(now: Instant)
    requires now == Feb2
    ensures ParseAbsoluteTime("02/02", None, now) == AbsoluteValid(FromCivil(2, 2, 2025, 6, 0), false)
  {
    Feb2Date(now);
    Named8("02/02", now);
    Clock0();
    AbsoluteTimeMeaning("02/02", None, now);
  }

  /** `5/1`, already past, stays in the current year. */
  lemma ShortDatePastNoRollover(now: Instant)
    requires now == Feb2
    ensures ParseAbsoluteTime("5/1", None, now) == AbsoluteValid(FromCivil(5, 1, 2025, 6, 0), false)
  {
    Feb2Date(now);
    Named9("5/1", now);
    Clock0();
    AbsoluteTimeMeaning("5/1", None, now);
  }

  /** `10/1 12h`, already past, stays in the current year. */
  lemma ShortDatePastHourForm(now: Instant)
    requires now == Feb2
    ensures ParseAbsoluteTime("10/1", Some("12h"), now) == AbsoluteValid(FromCivil(10, 1, 2025, 12, 0), true)
  {
    Feb2Date(now);
    Named10("10/1", now);
    Clock3("12h");
    AbsoluteTimeMeaning("10/1", Some("12h"), now);
  }

  /** `02/02/2027` without a time is 06:00. */
  lemma LongDateDefaultTime(now: Instant)
    requires now == Feb2
    ensures ParseAbsoluteTime("02/02/2027", None, now) == AbsoluteValid(FromCivil(2, 2, 2027, 6, 0), false)
  {
    Feb2Date(now);
    Named11("02/02/2027", now);
    Clock0();
    AbsoluteTimeMeaning("02/02/2027", None, now);
  }

  /** On a Sunday, `sun` is a week later. */
  lemma SundayMovesAWeek(now: Instant)
    requires now == Feb2
    ensures ParseAbsoluteTime("sun", Some("11:05"), now) == AbsoluteValid(FromCivil(9, 2, 2025, 11, 5), true)
  {
    Feb2Date(now);
    Named12("sun", now);
    Clock4("11:05");
    AbsoluteTimeMeaning("sun", Some("11:05"), now);
  }

  /** `Mon` (any case) is the next day. */
  lemma MondayNextDay(now: Instant)
    requires now == Feb2
    ensures ParseAbsoluteTime("Mon", Some("11:05"), now) == AbsoluteValid(FromCivil(3, 2, 2025, 11, 5), true)
  {
    Feb2Date(now);
    Named13("Mon", now);
    Clock4("11:05");
    AbsoluteTimeMeaning("Mon", Some("11:05"), now);
  }

  /** `TUE` is two days later. */
  lemma TuesdayUpperCase(now: Instant)
    requires now == Feb2
    ensures ParseAbsoluteTime("TUE", Some("11:05"), now) == AbsoluteValid(FromCivil(4, 2, 2025, 11, 5), true)
  {
    Feb2Date(now);
    Named14("TUE", now);
    Clock4("11:05");
    AbsoluteTimeMeaning("TUE", Some("11:05"), now);
  }

  /** `wed` is three days later. */
  lemma WednesdayShort(now: Instant)
    requires now == Feb2
    ensures ParseAbsoluteTime("wed", Some("11:05"), now) == AbsoluteValid(FromCivil(5, 2, 2025, 11, 5), true)
  {
    Feb2Date(now);
    Named15("wed", now);
    Clock4("11:05");
    AbsoluteTimeMeaning("wed", Some("11:05"), now);
  }

  /** `thursday` is four days later. */
  lemma ThursdayLong(now: Instant)
    requires now == Feb2
    ensures ParseAbsoluteTime("thursday", Some("11:05"), now) == AbsoluteValid(FromCivil(6, 2, 2025, 11, 5), true)
  {
    Feb2Date(now);
    Named16("thursday", now);
    Clock4("11:05");
    AbsoluteTimeMeaning("thursday", Some("11:05"), now);
  }

  /** `friday` is five days later. */
  lemma FridayLong(now: Instant)
    requires now == Feb2
    ensures ParseAbsoluteTime("friday", Some("11:05"), now) == AbsoluteValid(FromCivil(7, 2, 2025, 11, 5), true)
  {
    Feb2Date(now);
    Named17("friday", now);
    Clock4("11:05");
    AbsoluteTimeMeaning("friday", Some("11:05"), now);
  }

  /** `sat` is six days later. */
  lemma SaturdayShort(now: Instant)
    requires now == Feb2
    ensures ParseAbsoluteTime("sat", Some("11:05"), now) == AbsoluteValid(FromCivil(8, 2, 2025, 11, 5), true)
  {
    Feb2Date(now);
    Named18("sat", now);
    Clock4("11:05");
    AbsoluteTimeMeaning("sat", Some("11:05"), now);
  }

  /** `today 11:05` keeps the date. */
  lemma TodayWithTime(now: Instant)
    requires now == Feb2
    ensures ParseAbsoluteTime("today", Some("11:05"), now) == AbsoluteValid(FromCivil(2, 2, 2025, 11, 5), true)
  {
    Feb2Date(now);
    Named19("today", now);
    Clock4("11:05");
    AbsoluteTimeMeaning("today", Some("11:05"), now);
  }

  /** `today` without a time is 06:00 of the same date. */
  lemma TodayDefaultTime(now: Instant)
    requires now == Feb2
    ensures ParseAbsoluteTime("today", None, now) == AbsoluteValid(FromCivil(2, 2, 2025, 6, 0), false)
  {
    Feb2Date(now);
    Named19("today", now);
    Clock0();
    AbsoluteTimeMeaning("today", None, now);
  }

  /** `tmrw` is not one of the recognised words: invalid. */
  lemma TomorrowNotRecognised(now: Instant)
    requires now == Feb2
    ensures ParseAbsoluteTime("tmrw", None, now) == AbsoluteInvalid
  {
    Feb2Date(now);
    Named20("tmrw", now);
    Clock0();
    AbsoluteTimeMeaning("tmrw", None, now);
  }

  /** `fri` without a time. */
  lemma FridayDefaultTime(now: Instant)
    requires now == Feb2
    ensures ParseAbsoluteTime("fri", None, now) == AbsoluteValid(FromCivil(7, 2, 2025, 6, 0), false)
  {
    Feb2Date(now);
    Named21("fri", now);
    Clock0();
    AbsoluteTimeMeaning("fri", None, now);
  }

  /** `7:15`: the hour is zero-padded. */
  lemma LongTimeOneDigitHour(now: Instant)
    requires now == Feb2
    ensures ParseAbsoluteTime("03/02", Some("7:15"), now) == AbsoluteValid(FromCivil(3, 2, 2025, 7, 15), true)
  {
    Feb2Date(now);
    Named7("03/02", now);
    Clock5("7:15");
    AbsoluteTimeMeaning("03/02", Some("7:15"), now);
  }

  /** `4h` is 04:00. */
  lemma HourFormOneDigit(now: Instant)
    requires now == Feb2
    ensures ParseAbsoluteTime("03/02", Some("4h"), now) == AbsoluteValid(FromCivil(3, 2, 2025, 4, 0), true)
  {
    Feb2Date(now);
    Named7("03/02", now);
    Clock6("4h");
    AbsoluteTimeMeaning("03/02", Some("4h"), now);
  }

  /** `16h` is 16:00. */
  lemma HourFormTwoDigits(now: Instant)
    requires now == Feb2
    ensures ParseAbsoluteTime("03/02", Some("16h"), now) == AbsoluteValid(FromCivil(3, 2, 2025, 16, 0), true)
  {
    Feb2Date(now);
    Named7("03/02", now);
    Clock7("16h");
    AbsoluteTimeMeaning("03/02", Some("16h"), now);
  }

  /** `17H` is 17:00. */
  lemma HourFormUpperCase(now: Instant)
    requires now == Feb2
    ensures ParseAbsoluteTime("03/02", Some("17H"), now) == AbsoluteValid(FromCivil(3, 2, 2025, 17, 0), true)
  {
    Feb2Date(now);
    Named7("03/02", now);
    Clock8("17H");
    AbsoluteTimeMeaning("03/02", Some("17H"), now);
  }

  /** The shape test does not look at ranges: 31/02 passes and moment gives "Invalid date". */
  lemma NoRangeCheck(now: Instant)
    requires now == Feb2
    ensures ParseAbsoluteTime("31/02/2030", Some("10:00"), now) == AbsoluteValid(FromCivil(31, 2, 2030, 10, 0), true)
  {
    Feb2Date(now);
    Named22("31/02/2030", now);
    Clock9("10:00");
    AbsoluteTimeMeaning("31/02/2030", Some("10:00"), now);
  }
}

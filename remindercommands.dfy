/** The decision logic of the reminder commands (src/remindercommands.ts): which reply a
    command gives and what it does to the reminder table. Discord appears only as the
    `Context` of the message and the `Reply` sent back; the owner check, the guild check,
    the current instant and what moment makes of a date text are inputs. */
module ReminderCommands {
  import opened Strings
  import opened Calendar
  import opened Parsers
  import opened Data
  import Utils

  /** What the commands read from the triggering message. */
  datatype Context = Context(isOwner: bool, inGuild: bool, authorId: string, channelId: string)

  /** The usage texts, by the command that sends them. */
  datatype Usage = ReminderUsage | PeriodicUsage | DelayUsage | ClearUsage | RelativeUsage | AbsoluteUsage

  /** The message a command sends back (NoReply: nothing is sent). */
  datatype Reply =
    | NoReply
    | ShowUsage(usage: Usage)
    | UseInServer
    | InvalidTime(usage: Usage)
    | TooLong
    | TooSoon
    | TooLate
    | RepeatsEvery(name: string, rawTime: string)
    | SetFor(date: Instant)
    | SetEchoFor(text: string, date: Instant)
    | SetAbsoluteFor(date: Instant, wait: string)
    | NothingToDelay
    | NoReminders
    | Listing(text: string)
    | NotFound
    | Deleted(name: string)

  // ---------------------------------------------------------------------------
  // Validation

  const MaxTextLength: int := 1000
  const MinAhead: int := 60 * 1000
  const MaxAhead: int := 365 * 24 * 60 * 60 * 1000

  /** The three checks of both `build*` functions, in their order: text length, then the
      target being at least a minute and at most 365 days after `nowUtc`. */
  function Validate(text: string, dateUtc: Instant, nowUtc: Instant): (error: Option<Reply>)
    ensures error.None? <==> |text| <= MaxTextLength && MinAhead <= dateUtc - nowUtc <= MaxAhead
  {
    if |text| > MaxTextLength then Some(TooLong)
    else if dateUtc - nowUtc < MinAhead then Some(TooSoon)
    else if dateUtc - nowUtc > MaxAhead then Some(TooLate)
    else None
  }

  /** A text over 1000 characters is reported first, whatever the date; a date too soon is
      reported before one too late could be. */
  lemma ValidateOrder(text: string, dateUtc: Instant, nowUtc: Instant)
    ensures |text| > 1000 ==> Validate(text, dateUtc, nowUtc) == Some(TooLong)
    ensures |text| <= 1000 && dateUtc < nowUtc + 60000 ==> Validate(text, dateUtc, nowUtc) == Some(TooSoon)
    ensures |text| <= 1000 && dateUtc > nowUtc + 31536000000 ==> Validate(text, dateUtc, nowUtc) == Some(TooLate)
  {
  }

  /** The reminder a command builds, before any optional field is set. */
  function NewReminder(ctx: Context, isPeriodic: bool, text: string, date: Instant): Reminder
  {
    Reminder(isPeriodic, text, date, ctx.authorId, ctx.channelId, None, None, None, None)
  }

  // ---------------------------------------------------------------------------
  // buildRelativeTimeReminder

  /** What `buildRelativeTimeReminder(message, args, isPeriodic, echoReminder)` replies and
      stores, with `now` the instant it reads: (reply, reminder stored). */
  function RelativeDecision(ctx: Context, args: seq<string>, isPeriodic: bool, echo: bool, now: Instant): (Reply, Option<Reminder>)
  {
    if !ctx.inGuild then (UseInServer, None)
    else if |args| < 3 then (ShowUsage(RelativeUsage), None)
    else match RelativeTimeSpec(now, args[1])
      case RelativeInvalid => (InvalidTime(RelativeUsage), None)
      case RelativeValid(date, tv) =>
        var text := Join(args[2..], " ");
        var error := Validate(text, date, now);
        if error.Some? then (error.value, None)
        else if isPeriodic then
          (RepeatsEvery(args[0], args[1]),
           Some(NewReminder(ctx, true, text, date).(name := Some(args[0]), rawTime := Some(args[1]), timeValues := Some(tv))))
        else if echo then (SetEchoFor(text, date), Some(NewReminder(ctx, false, text, date)))
        else (SetFor(date), Some(NewReminder(ctx, false, text, date)))
  }

  /** A reminder is stored exactly when the message comes from a server, has a time and a
      text, the time parses and the checks pass. */
  lemma RelativeStoresWhen(ctx: Context, args: seq<string>, isPeriodic: bool, echo: bool, now: Instant)
    ensures RelativeDecision(ctx, args, isPeriodic, echo, now).1.Some? <==>
              && ctx.inGuild && |args| >= 3
              && RelativeTimeSpec(now, args[1]).RelativeValid?
              && Validate(Join(args[2..], " "), RelativeTimeSpec(now, args[1]).date, now).None?
  {
  }

  /** A stored reminder carries the message's author and channel, the remaining arguments
      as its text, the parsed date, a time window of [1 minute, 365 days] after `now`, and
      a name, raw time and time values exactly when it is periodic. */
  lemma RelativeStoredReminder(ctx: Context, args: seq<string>, isPeriodic: bool, echo: bool, now: Instant)
    requires RelativeDecision(ctx, args, isPeriodic, echo, now).1.Some?
    ensures var r := RelativeDecision(ctx, args, isPeriodic, echo, now).1.value;
            && |args| >= 3
            && r.isPeriodic == isPeriodic && r.authorId == ctx.authorId && r.channelId == ctx.channelId
            && r.text == Join(args[2..], " ") && |r.text| <= 1000
            && RelativeTimeSpec(now, args[1]) == RelativeValid(r.timestamp, RelativeTimeSpec(now, args[1]).timeValues)
            && now + 60000 <= r.timestamp <= now + 31536000000
            && r.id.None?
            && (r.name.Some? <==> isPeriodic) && (r.rawTime.Some? <==> isPeriodic) && (r.timeValues.Some? <==> isPeriodic)
            && (isPeriodic ==> r.name == Some(args[0]) && r.rawTime == Some(args[1])
                               && r.timeValues == Some(RelativeTimeSpec(now, args[1]).timeValues))
  {
  }

  /** The state change of a command that may store one reminder under a fresh key. */
  predicate StoredUnder(before: map<string, Reminder>, after: map<string, Reminder>, stored: Option<Reminder>, key: string)
  {
    after == if stored.Some? then before[key := stored.value] else before
  }

  /** `buildRelativeTimeReminder`; `key` is the fresh key `push` would generate. */
  method BuildRelativeTimeReminder(data: ReminderData, ctx: Context, args: seq<string>, isPeriodic: bool, echo: bool, now: Instant, key: string)
    returns (reply: Reply)
    requires key !in data.storedReminders
    modifies data
    ensures var d := RelativeDecision(ctx, args, isPeriodic, echo, now);
            && reply == d.0
            && StoredUnder(old(data.reminders), data.reminders, d.1, key)
            && StoredUnder(old(data.storedReminders), data.storedReminders, d.1, key)
    ensures data.lastReminderMessage == old(data.lastReminderMessage) && data.latestId == old(data.latestId)
    ensures data.timezone == old(data.timezone) && data.storedLast == old(data.storedLast)
    ensures data.storedLatestId == old(data.storedLatestId) && data.storedTimezone == old(data.storedTimezone)
  {
    if !ctx.inGuild {
      return UseInServer;
    }
    if |args| < 3 {
      return ShowUsage(RelativeUsage);
    }
    var parsed := ParseRelativeTime(now, args[1]);
    if parsed.RelativeInvalid? {
      return InvalidTime(RelativeUsage);
    }
    var dateUtc := parsed.date;
    var text := Join(args[2..], " ");
    if |text| > MaxTextLength {
      return TooLong;
    }
    if dateUtc - now < MinAhead {
      return TooSoon;
    }
    if dateUtc - now > MaxAhead {
      return TooLate;
    }
    var reminder := NewReminder(ctx, isPeriodic, text, dateUtc);
    if isPeriodic {
      reminder := reminder.(name := Some(args[0]), rawTime := Some(args[1]), timeValues := Some(parsed.timeValues));
    }
    data.SetReminder(reminder, key);
    if isPeriodic {
      reply := RepeatsEvery(args[0], args[1]);
    } else if echo {
      reply := SetEchoFor(text, dateUtc);
    } else {
      reply := SetFor(dateUtc);
    }
  }

  // ---------------------------------------------------------------------------
  // buildAbsoluteTimeReminder

  /** The date text of the `at` command: its two arguments around one space. */
  function AbsoluteText(args: seq<string>): string
    requires |args| >= 3
  {
    args[1] + " " + args[2]
  }

  /** What moment makes of the date text `raw`: for a text that is exactly the
      `DD/MM/YYYY HH:mm` shape it is the canonical reading; moment's lenient reading of
      longer texts is not modelled. */
  predicate ParsedAs(raw: string, parsed: Moment)
  {
    |raw| == 16 && ShapeAt(raw, 0) ==> parsed == ParseCanonical(raw)
  }

  /** The timestamp `buildAbsoluteTimeReminder` as written stores, if it stores one. An
      "Invalid date" has NaN as its value, every comparison with NaN is false, and so it
      passes both time checks and is stored. */
  function AbsoluteTimestampAsWritten(ctx: Context, args: seq<string>, now: Instant, parsed: Moment): Option<Moment>
  {
    if !ctx.inGuild || |args| < 4 || !ContainsShape(AbsoluteText(args)) then None
    else if |Join(args[3..], " ")| > MaxTextLength then None
    else match parsed
      case InvalidDate => Some(InvalidDate)
      case Valid(ms) => if Validate(Join(args[3..], " "), ms, now).Some? then None else Some(Valid(ms))
  }

  /** The day 31 of February passes the shape check, is read as "Invalid date", and is
      stored as written. */
  lemma InvalidDateStoredAsWritten(ctx: Context, args: seq<string>, now: Instant, parsed: Moment)
    requires ctx.inGuild
    requires args == ["at", "31/02/2030", "10:00", "hello"]
    requires ParsedAs(AbsoluteText(args), parsed)
    ensures AbsoluteTimestampAsWritten(ctx, args, now, parsed) == Some(InvalidDate)
  {
    var raw := AbsoluteText(args);
    assert raw == "31/02/2030 10:00";
    ShapeOfLongDate(raw);
    assert ContainsShape(raw);
    TwoDigits(raw[0..2]);
    TwoDigits(raw[3..5]);
    assert DigitsValue(raw[0..2]) == 31 && DigitsValue(raw[3..5]) == 2;
    assert parsed == InvalidDate;
    assert Join(args[3..], " ") == "hello";
  }

  lemma ShapeOfLongDate(raw: string)
    requires raw == "31/02/2030 10:00"
    ensures |raw| == 16 && ShapeAt(raw, 0)
  {
    assert raw[0..2] == "31" && raw[3..5] == "02" && raw[6..10] == "2030";
    assert raw[11..13] == "10" && raw[14..16] == "00";
  }

  /** What `buildAbsoluteTimeReminder(message, args)` replies and stores, with an
      "Invalid date" rejected like a text of the wrong shape. `monthDiff` is moment's month
      difference between `now` and the date, for the reply's relative phrase. */
  function AbsoluteDecision(ctx: Context, args: seq<string>, now: Instant, parsed: Moment, monthDiff: int): (Reply, Option<Reminder>)
  {
    if !ctx.inGuild then (UseInServer, None)
    else if |args| < 4 then (ShowUsage(AbsoluteUsage), None)
    else if !ContainsShape(AbsoluteText(args)) || parsed.InvalidDate? then (InvalidTime(AbsoluteUsage), None)
    else
      var text := Join(args[3..], " ");
      var error := Validate(text, parsed.ms, now);
      if error.Some? then (error.value, None)
      else (SetAbsoluteFor(parsed.ms, Utils.RelativeTimeString(now, parsed.ms, monthDiff)),
            Some(NewReminder(ctx, false, text, parsed.ms)))
  }

  /** Only a valid instant in the window is stored, as a one-shot reminder of the remaining
      arguments; for a valid date the decision agrees with the code as written. */
  lemma AbsoluteStoredReminder(ctx: Context, args: seq<string>, now: Instant, parsed: Moment, monthDiff: int)
    ensures var stored := AbsoluteDecision(ctx, args, now, parsed, monthDiff).1;
            stored.Some? ==>
              && |args| >= 4 && ContainsShape(AbsoluteText(args))
              && parsed == Valid(stored.value.timestamp)
              && now + 60000 <= stored.value.timestamp <= now + 31536000000
              && stored.value == NewReminder(ctx, false, Join(args[3..], " "), stored.value.timestamp)
    ensures parsed.Valid? ==>
              var stored := AbsoluteDecision(ctx, args, now, parsed, monthDiff).1;
              AbsoluteTimestampAsWritten(ctx, args, now, parsed) == (if stored.Some? then Some(Valid(stored.value.timestamp)) else None)
    ensures parsed.InvalidDate? ==> AbsoluteDecision(ctx, args, now, parsed, monthDiff).1.None?
  {
  }

  /** `buildAbsoluteTimeReminder`; `parsed` is what moment reads from the date text and
      `key` the fresh key `push` would generate. */
  method BuildAbsoluteTimeReminder(data: ReminderData, ctx: Context, args: seq<string>, now: Instant, parsed: Moment, monthDiff: int, key: string)
    returns (reply: Reply)
    requires key !in data.storedReminders
    requires |args| >= 3 ==> ParsedAs(AbsoluteText(args), parsed)
    modifies data
    ensures var d := AbsoluteDecision(ctx, args, now, parsed, monthDiff);
            && reply == d.0
            && StoredUnder(old(data.reminders), data.reminders, d.1, key)
            && StoredUnder(old(data.storedReminders), data.storedReminders, d.1, key)
    ensures data.lastReminderMessage == old(data.lastReminderMessage) && data.latestId == old(data.latestId)
    ensures data.timezone == old(data.timezone) && data.storedLast == old(data.storedLast)
    ensures data.storedLatestId == old(data.storedLatestId) && data.storedTimezone == old(data.storedTimezone)
  {
    if !ctx.inGuild {
      return UseInServer;
    }
    if |args| < 4 {
      return ShowUsage(AbsoluteUsage);
    }
    if !ContainsShape(AbsoluteText(args)) || parsed.InvalidDate? {
      return InvalidTime(AbsoluteUsage);
    }
    var dateUtc := parsed.ms;
    var text := Join(args[3..], " ");
    if |text| > MaxTextLength {
      return TooLong;
    }
    if dateUtc - now < MinAhead {
      return TooSoon;
    }
    if dateUtc - now > MaxAhead {
      return TooLate;
    }
    data.SetReminder(NewReminder(ctx, false, text, dateUtc), key);
    reply := SetAbsoluteFor(dateUtc, Utils.RelativeTimeString(now, dateUtc, monthDiff));
  }

  // ---------------------------------------------------------------------------
  // reminder, periodicreminder, delay

  /** `reminder(message, args)`: owner only; `in` and `at` choose the builder. */
  function ReminderDecision(ctx: Context, args: seq<string>, now: Instant, parsed: Moment, monthDiff: int): (Reply, Option<Reminder>)
  {
    if !ctx.isOwner then (NoReply, None)
    else if |args| < 3 then (ShowUsage(ReminderUsage), None)
    else if args[0] == "in" then RelativeDecision(ctx, args, false, false, now)
    else if args[0] == "at" then AbsoluteDecision(ctx, args, now, parsed, monthDiff)
    else (ShowUsage(ReminderUsage), None)
  }

  /** Without the owner, without three arguments, or with a first argument other than
      `in`/`at`, nothing is stored; `in` stores a one-shot reminder of the relative time. */
  lemma ReminderDispatch(ctx: Context, args: seq<string>, now: Instant, parsed: Moment, monthDiff: int)
    ensures !ctx.isOwner || |args| < 3 || (args[0] != "in" && args[0] != "at") ==>
              ReminderDecision(ctx, args, now, parsed, monthDiff).1.None?
    ensures !ctx.isOwner ==> ReminderDecision(ctx, args, now, parsed, monthDiff).0 == NoReply
    ensures var stored := ReminderDecision(ctx, args, now, parsed, monthDiff).1;
            stored.Some? ==> ctx.isOwner && !stored.value.isPeriodic && stored.value.name.None?
  {
  }

  method ReminderCommand(data: ReminderData, ctx: Context, args: seq<string>, now: Instant, parsed: Moment, monthDiff: int, key: string)
    returns (reply: Reply)
    requires key !in data.storedReminders
    requires |args| >= 3 ==> ParsedAs(AbsoluteText(args), parsed)
    modifies data
    ensures var d := ReminderDecision(ctx, args, now, parsed, monthDiff);
            && reply == d.0
            && StoredUnder(old(data.reminders), data.reminders, d.1, key)
            && StoredUnder(old(data.storedReminders), data.storedReminders, d.1, key)
    ensures data.lastReminderMessage == old(data.lastReminderMessage) && data.latestId == old(data.latestId)
    ensures data.timezone == old(data.timezone) && data.storedLast == old(data.storedLast)
    ensures data.storedLatestId == old(data.storedLatestId) && data.storedTimezone == old(data.storedTimezone)
  {
    if !ctx.isOwner {
      return NoReply;
    }
    if |args| < 3 {
      return ShowUsage(ReminderUsage);
    }
    if args[0] == "in" {
      reply := BuildRelativeTimeReminder(data, ctx, args, false, false, now, key);
    } else if args[0] == "at" {
      reply := BuildAbsoluteTimeReminder(data, ctx, args, now, parsed, monthDiff, key);
    } else {
      reply := ShowUsage(ReminderUsage);
    }
  }

  /** `periodicreminder(message, args)`: owner only, `name date message`. */
  function PeriodicDecision(ctx: Context, args: seq<string>, now: Instant): (Reply, Option<Reminder>)
  {
    if !ctx.isOwner then (NoReply, None)
    else if |args| < 3 then (ShowUsage(PeriodicUsage), None)
    else RelativeDecision(ctx, args, true, false, now)
  }

  /** A periodic reminder is named by the first argument and repeats every second one. */
  lemma PeriodicNamed(ctx: Context, args: seq<string>, now: Instant)
    ensures var d := PeriodicDecision(ctx, args, now);
            d.1.Some? ==> && ctx.isOwner && |args| >= 3 && d.1.value.isPeriodic
                          && d.1.value.name == Some(args[0]) && d.1.value.rawTime == Some(args[1])
                          && d.0 == RepeatsEvery(args[0], args[1])
  {
  }

  method PeriodicReminder(data: ReminderData, ctx: Context, args: seq<string>, now: Instant, key: string)
    returns (reply: Reply)
    requires key !in data.storedReminders
    modifies data
    ensures var d := PeriodicDecision(ctx, args, now);
            && reply == d.0
            && StoredUnder(old(data.reminders), data.reminders, d.1, key)
            && StoredUnder(old(data.storedReminders), data.storedReminders, d.1, key)
    ensures data.lastReminderMessage == old(data.lastReminderMessage) && data.latestId == old(data.latestId)
    ensures data.timezone == old(data.timezone) && data.storedLast == old(data.storedLast)
    ensures data.storedLatestId == old(data.storedLatestId) && data.storedTimezone == old(data.storedTimezone)
  {
    if !ctx.isOwner {
      return NoReply;
    }
    if |args| < 3 {
      return ShowUsage(PeriodicUsage);
    }
    reply := BuildRelativeTimeReminder(data, ctx, args, true, false, now, key);
  }

  /** `delay(message, args)`: the last announced text is set again, `args[0]` from now.
      `!toDelay` also holds for the empty text. */
  function DelayDecision(ctx: Context, args: seq<string>, last: Option<string>, now: Instant): (Reply, Option<Reminder>)
  {
    if !ctx.isOwner then (NoReply, None)
    else if |args| < 1 then (ShowUsage(DelayUsage), None)
    else if last.None? || last.value == "" then (NothingToDelay, None)
    else RelativeDecision(ctx, ["", args[0], last.value], false, true, now)
  }

  /** A delayed reminder is a one-shot reminder of exactly the last message, at the time
      `args[0]` names, and its reply echoes the text. */
  lemma DelayRepeatsLast(ctx: Context, args: seq<string>, last: Option<string>, now: Instant)
    ensures var d := DelayDecision(ctx, args, last, now);
            d.1.Some? ==> && last.Some? && last.value != "" && |args| >= 1
                          && d.1.value.text == last.value && !d.1.value.isPeriodic
                          && RelativeTimeSpec(now, args[0]) == RelativeValid(d.1.value.timestamp, RelativeTimeSpec(now, args[0]).timeValues)
                          && d.0 == SetEchoFor(last.value, d.1.value.timestamp)
    ensures last.None? || last == Some("") ==> DelayDecision(ctx, args, last, now).1.None?
  {
    var d := DelayDecision(ctx, args, last, now);
    if d.1.Some? {
      var a := ["", args[0], last.value];
      assert a[2..] == [last.value];
      assert Join(a[2..], " ") == last.value;
    }
  }

  method Delay(data: ReminderData, ctx: Context, args: seq<string>, now: Instant, key: string)
    returns (reply: Reply)
    requires key !in data.storedReminders
    modifies data
    ensures var d := DelayDecision(ctx, args, old(data.GetLastReminderMessage()), now);
            && reply == d.0
            && StoredUnder(old(data.reminders), data.reminders, d.1, key)
            && StoredUnder(old(data.storedReminders), data.storedReminders, d.1, key)
    ensures data.lastReminderMessage == old(data.lastReminderMessage) && data.latestId == old(data.latestId)
    ensures data.timezone == old(data.timezone) && data.storedLast == old(data.storedLast)
    ensures data.storedLatestId == old(data.storedLatestId) && data.storedTimezone == old(data.storedTimezone)
  {
    if !ctx.isOwner {
      return NoReply;
    }
    if |args| < 1 {
      return ShowUsage(DelayUsage);
    }
    var toDelay := data.GetLastReminderMessage();
    if toDelay.None? || toDelay.value == "" {
      return NothingToDelay;
    }
    reply := BuildRelativeTimeReminder(data, ctx, ["", args[0], toDelay.value], false, true, now, key);
  }

  // ---------------------------------------------------------------------------
  // list

  /** The reminders of one kind, in visiting order (the two `push` calls of the key loop). */
  function Group(table: map<string, Reminder>, order: seq<string>, periodic: bool): (rs: seq<Reminder>)
    requires forall k :: 0 <= k < |order| ==> order[k] in table
    ensures forall i :: 0 <= i < |rs| ==> rs[i].isPeriodic == periodic
  {
    if order == [] then []
    else
      var before := Group(table, order[..|order| - 1], periodic);
      var r := table[order[|order| - 1]];
      if r.isPeriodic == periodic then before + [r] else before
  }

  /** Every visited reminder lands in exactly one of the two groups. */
  lemma {:induction false} GroupsPartition(table: map<string, Reminder>, order: seq<string>)
    requires forall k :: 0 <= k < |order| ==> order[k] in table
    ensures multiset(Group(table, order, true)) + multiset(Group(table, order, false))
            == multiset(seq(|order|, i requires 0 <= i < |order| => table[order[i]]))
  {
    if order != [] {
      var init := order[..|order| - 1];
      GroupsPartition(table, init);
      var all := seq(|order|, i requires 0 <= i < |order| => table[order[i]]);
      var allInit := seq(|init|, i requires 0 <= i < |init| => table[init[i]]);
      assert all == allInit + [table[order[|order| - 1]]];
    }
  }

  predicate SortedByTime(rs: seq<Reminder>)
  {
    forall i, j :: 0 <= i < j < |rs| ==> rs[i].timestamp <= rs[j].timestamp
  }

  /** `x` placed after every reminder of `rs` that is not later than it. */
  function Insert(x: Reminder, rs: seq<Reminder>): seq<Reminder>
  {
    if rs == [] then [x]
    else if x.timestamp < rs[0].timestamp then [x] + rs
    else [rs[0]] + Insert(x, rs[1..])
  }

  /** `rs.sort((r1, r2) => r1.timestamp - r2.timestamp)`, a stable sort, written as an
      insertion sort. */
  function SortByTime(rs: seq<Reminder>): seq<Reminder>
  {
    if rs == [] then [] else Insert(rs[|rs| - 1], SortByTime(rs[..|rs| - 1]))
  }

  /** The reminders of `rs` due exactly at `t`, in order. */
  function WithTime(rs: seq<Reminder>, t: Instant): seq<Reminder>
  {
    if rs == [] then []
    else (if rs[0].timestamp == t then [rs[0]] else []) + WithTime(rs[1..], t)
  }

  lemma {:induction false} WithTimeAppend(rs: seq<Reminder>, x: Reminder, t: Instant)
    ensures WithTime(rs + [x], t) == WithTime(rs, t) + (if x.timestamp == t then [x] else [])
  {
    if rs != [] {
      assert (rs + [x])[1..] == rs[1..] + [x];
      WithTimeAppend(rs[1..], x, t);
    }
  }

  lemma {:induction false} WithTimeNone(rs: seq<Reminder>, t: Instant)
    requires forall i :: 0 <= i < |rs| ==> rs[i].timestamp > t
    ensures WithTime(rs, t) == []
  {
    if rs != [] {
      WithTimeNone(rs[1..], t);
    }
  }

  lemma {:induction false} InsertMultiset(x: Reminder, rs: seq<Reminder>)
    ensures multiset(Insert(x, rs)) == multiset(rs) + multiset{x}
  {
    if rs != [] && x.timestamp >= rs[0].timestamp {
      InsertMultiset(x, rs[1..]);
      assert rs == [rs[0]] + rs[1..];
    }
  }

  lemma {:induction false} InsertBound(x: Reminder, rs: seq<Reminder>, b: Instant)
    requires x.timestamp >= b
    requires forall i :: 0 <= i < |rs| ==> rs[i].timestamp >= b
    ensures forall i :: 0 <= i < |Insert(x, rs)| ==> Insert(x, rs)[i].timestamp >= b
  {
    if rs != [] && x.timestamp >= rs[0].timestamp {
      InsertBound(x, rs[1..], b);
    }
  }

  lemma {:induction false} InsertSorted(x: Reminder, rs: seq<Reminder>)
    requires SortedByTime(rs)
    ensures SortedByTime(Insert(x, rs))
  {
    if rs != [] && x.timestamp >= rs[0].timestamp {
      InsertSorted(x, rs[1..]);
      InsertBound(x, rs[1..], rs[0].timestamp);
    }
  }

  lemma {:induction false} InsertWithTime(x: Reminder, rs: seq<Reminder>, t: Instant)
    requires SortedByTime(rs)
    ensures WithTime(Insert(x, rs), t) == WithTime(rs, t) + (if x.timestamp == t then [x] else [])
  {
    if rs == [] {
    } else if x.timestamp < rs[0].timestamp {
      if x.timestamp == t {
        WithTimeNone(rs, t);
      }
    } else {
      InsertWithTime(x, rs[1..], t);
    }
  }

  /** The sort gives the reminders ordered by timestamp, each exactly as often as before,
      and those due at the same instant keep their relative order. */
  lemma {:induction false} SortByTimeFacts(rs: seq<Reminder>, t: Instant)
    ensures SortedByTime(SortByTime(rs))
    ensures multiset(SortByTime(rs)) == multiset(rs)
    ensures WithTime(SortByTime(rs), t) == WithTime(rs, t)
  {
    if rs != [] {
      var init := rs[..|rs| - 1];
      var x := rs[|rs| - 1];
      SortByTimeFacts(init, t);
      InsertSorted(x, SortByTime(init));
      InsertMultiset(x, SortByTime(init));
      InsertWithTime(x, SortByTime(init), t);
      assert rs == init + [x];
      WithTimeAppend(init, x, t);
    }
  }

  /** A missing optional field prints as `undefined`. */
  function Shown(s: Option<string>): string
  {
    if s.Some? then s.value else "undefined"
  }

  /** The line of a one-shot reminder: its text, its date and how long until it. */
  function NonPeriodicLine(r: Reminder, describeDate: Instant -> string, describeWait: Instant -> string): string
  {
    "➜ '" + r.text + "' at " + describeDate(r.timestamp) + " `(in " + describeWait(r.timestamp) + ")`\n"
  }

  /** The line of a periodic reminder: its name, its text, its period and how long until
      it is next announced. */
  function PeriodicLine(r: Reminder, describeWait: Instant -> string): string
  {
    "➜ `" + Shown(r.name) + "`: '" + r.text + "' every " + Shown(r.rawTime) + " `(next up in " + describeWait(r.timestamp) + ")`\n"
  }

  function Line(r: Reminder, periodic: bool, describeDate: Instant -> string, describeWait: Instant -> string): string
  {
    if periodic then PeriodicLine(r, describeWait) else NonPeriodicLine(r, describeDate, describeWait)
  }

  /** The lines of a group, one per reminder in order. */
  function Lines(rs: seq<Reminder>, periodic: bool, describeDate: Instant -> string, describeWait: Instant -> string): string
  {
    if rs == [] then ""
    else Lines(rs[..|rs| - 1], periodic, describeDate, describeWait) + Line(rs[|rs| - 1], periodic, describeDate, describeWait)
  }

  const NonPeriodicHeader: string := "**Non-periodic reminders:**\n"
  const PeriodicHeader: string := "**Periodic reminders:**\n"

  /** The listing before truncation: the sorted one-shot reminders, a blank line when both
      groups are present, then the sorted periodic ones, each group under its heading. */
  function ListText(nonperiodic: seq<Reminder>, periodic: seq<Reminder>, describeDate: Instant -> string, describeWait: Instant -> string): string
  {
    (if |nonperiodic| > 0 then NonPeriodicHeader + Lines(SortByTime(nonperiodic), false, describeDate, describeWait) else "")
    + (if |periodic| > 0 && |nonperiodic| > 0 then "\n" else "")
    + (if |periodic| > 0 then PeriodicHeader + Lines(SortByTime(periodic), true, describeDate, describeWait) else "")
  }

  /** A message over 1990 characters is cut to 1990 and marked with ` (...)`. */
  function Truncate(msg: string): (r: string)
    ensures |r| <= 1996
    ensures |msg| <= 1990 ==> r == msg
    ensures |msg| > 1990 ==> |r| == 1996 && r[..1990] == msg[..1990] && r[1990..] == " (...)"
  {
    if |msg| > 1990 then msg[..1990] + " (...)" else msg
  }

  /** What `list` sends: `order` is the order `for ... in` visits the keys, and
      `describeDate` and `describeWait` are moment's `format` and `getRelativeTimeString`
      from the current instant. */
  function ListReply(table: map<string, Reminder>, order: seq<string>, describeDate: Instant -> string, describeWait: Instant -> string): Reply
    requires forall k :: 0 <= k < |order| ==> order[k] in table
  {
    var nonperiodic := Group(table, order, false);
    var periodic := Group(table, order, true);
    if |periodic| == 0 && |nonperiodic| == 0 then NoReminders
    else Listing(Truncate(ListText(nonperiodic, periodic, describeDate, describeWait)))
  }

  /** An empty table is reported as such; otherwise the listing opens with the one-shot
      reminders when there are any, and with the periodic heading when there are none. */
  lemma ListOpening(table: map<string, Reminder>, order: seq<string>, describeDate: Instant -> string, describeWait: Instant -> string)
    requires forall k :: 0 <= k < |order| ==> order[k] in table
    ensures order == [] ==> ListReply(table, order, describeDate, describeWait) == NoReminders
    ensures var text := ListText(Group(table, order, false), Group(table, order, true), describeDate, describeWait);
            && (|Group(table, order, false)| > 0 ==> text[..|NonPeriodicHeader|] == NonPeriodicHeader)
            && (|Group(table, order, false)| == 0 ==> text == (if |Group(table, order, true)| > 0 then PeriodicHeader + Lines(SortByTime(Group(table, order, true)), true, describeDate, describeWait) else ""))
  {
  }

  /** The key loop of `list`: each visited reminder is pushed onto its group. */
  method PartitionByKind(reminders: map<string, Reminder>, order: seq<string>) returns (periodic: seq<Reminder>, nonperiodic: seq<Reminder>)
    requires forall k :: 0 <= k < |order| ==> order[k] in reminders
    ensures periodic == Group(reminders, order, true) && nonperiodic == Group(reminders, order, false)
  {
    periodic, nonperiodic := [], [];
    var i := 0;
    while i < |order|
      invariant 0 <= i <= |order|
      invariant periodic == Group(reminders, order[..i], true)
      invariant nonperiodic == Group(reminders, order[..i], false)
    {
      assert order[..i + 1][..i] == order[..i];
      var r := reminders[order[i]];
      if r.isPeriodic {
        periodic := periodic + [r];
      } else {
        nonperiodic := nonperiodic + [r];
      }
      i := i + 1;
    }
    assert order[..i] == order;
  }

  /** A `forEach` of `list`: one line per reminder is appended to `msgText`. */
  method AppendLines(msgText: string, rs: seq<Reminder>, periodic: bool, describeDate: Instant -> string, describeWait: Instant -> string)
    returns (out: string)
    ensures out == msgText + Lines(rs, periodic, describeDate, describeWait)
  {
    out := msgText;
    var j := 0;
    while j < |rs|
      invariant 0 <= j <= |rs|
      invariant out == msgText + Lines(rs[..j], periodic, describeDate, describeWait)
    {
      LinesStep(rs, j, periodic, describeDate, describeWait);
      AppendAssoc(msgText, Lines(rs[..j], periodic, describeDate, describeWait), Line(rs[j], periodic, describeDate, describeWait));
      out := out + Line(rs[j], periodic, describeDate, describeWait);
      j := j + 1;
    }
    assert rs[..j] == rs;
  }

  lemma LinesStep(rs: seq<Reminder>, j: nat, periodic: bool, describeDate: Instant -> string, describeWait: Instant -> string)
    requires j < |rs|
    ensures Lines(rs[..j + 1], periodic, describeDate, describeWait)
            == Lines(rs[..j], periodic, describeDate, describeWait) + Line(rs[j], periodic, describeDate, describeWait)
  {
    assert rs[..j + 1][..j] == rs[..j];
  }

  lemma AppendAssoc<T>(a: seq<T>, b: seq<T>, c: seq<T>)
    ensures a + b + c == a + (b + c)
  {
  }

  /** `list(message)`. */
  method List(data: ReminderData, ctx: Context, order: seq<string>, describeDate: Instant -> string, describeWait: Instant -> string)
    returns (reply: Reply)
    requires forall k :: 0 <= k < |order| ==> order[k] in data.reminders
    ensures reply == if ctx.isOwner then ListReply(data.reminders, order, describeDate, describeWait) else NoReply
  {
    if !ctx.isOwner {
      return NoReply;
    }
    var reminders := data.GetReminders();
    var periodic, nonperiodic := PartitionByKind(reminders, order);
    if |periodic| == 0 && |nonperiodic| == 0 {
      return NoReminders;
    }
    var first := "";
    if |nonperiodic| > 0 {
      first := AppendLines(NonPeriodicHeader, SortByTime(nonperiodic), false, describeDate, describeWait);
    }
    var gap := if |periodic| > 0 && |nonperiodic| > 0 then "\n" else "";
    var second := "";
    if |periodic| > 0 {
      second := AppendLines(PeriodicHeader, SortByTime(periodic), true, describeDate, describeWait);
    }
    var msgText := first + gap + second;
    reply := Listing(if |msgText| > 1990 then msgText[..1990] + " (...)" else msgText);
  }

  // ---------------------------------------------------------------------------
  // clear

  /** The test of the key loop: a periodic reminder with a non-empty name equal to the
      argument ignoring case. */
  predicate NameMatches(r: Reminder, target: string)
  {
    r.isPeriodic && r.name.Some? && r.name.value != "" && ToLower(r.name.value) == ToLower(target)
  }

  /** The last key in visiting order whose reminder matches (the loop keeps overwriting
      `targetKey`). */
  function LastMatch(table: map<string, Reminder>, order: seq<string>, target: string): Option<string>
    requires forall k :: 0 <= k < |order| ==> order[k] in table
  {
    if order == [] then None
    else if NameMatches(table[order[|order| - 1]], target) then Some(order[|order| - 1])
    else LastMatch(table, order[..|order| - 1], target)
  }

  /** LastMatch finds nothing exactly when no visited key matches. */
  lemma {:induction false} LastMatchNone(table: map<string, Reminder>, order: seq<string>, target: string)
    requires forall k :: 0 <= k < |order| ==> order[k] in table
    ensures LastMatch(table, order, target).None? <==> forall i :: 0 <= i < |order| ==> !NameMatches(table[order[i]], target)
  {
    if order != [] {
      var init := order[..|order| - 1];
      assert forall k :: 0 <= k < |init| ==> init[k] == order[k];
      LastMatchNone(table, init, target);
    }
  }

  /** What LastMatch finds is a visited key that matches, and no key visited after it
      matches. */
  lemma {:induction false} LastMatchSome(table: map<string, Reminder>, order: seq<string>, target: string)
    requires forall k :: 0 <= k < |order| ==> order[k] in table
    requires LastMatch(table, order, target).Some?
    ensures exists i :: 0 <= i < |order| && order[i] == LastMatch(table, order, target).value
                        && NameMatches(table[order[i]], target)
                        && forall j :: i < j < |order| ==> !NameMatches(table[order[j]], target)
  {
    var n := |order|;
    if NameMatches(table[order[n - 1]], target) {
      assert order[n - 1] == LastMatch(table, order, target).value;
    } else {
      var init := order[..n - 1];
      assert forall k :: 0 <= k < |init| ==> init[k] == order[k];
      LastMatchSome(table, init, target);
      var i :| 0 <= i < |init| && init[i] == LastMatch(table, init, target).value
               && NameMatches(table[init[i]], target)
               && forall j :: i < j < |init| ==> !NameMatches(table[init[j]], target);
      assert order[i] == init[i];
    }
  }

  /** Names are compared ignoring case on both sides. */
  lemma ClearIgnoresCase(table: map<string, Reminder>, order: seq<string>, a: string, b: string)
    requires forall k :: 0 <= k < |order| ==> order[k] in table
    requires ToLower(a) == ToLower(b)
    ensures LastMatch(table, order, a) == LastMatch(table, order, b)
  {
  }

  /** `clear(message, args)`: the matching key, if found and non-empty, is removed from
      the table and from the store; otherwise nothing changes. */
  method Clear(data: ReminderData, ctx: Context, args: seq<string>, order: seq<string>)
    returns (reply: Reply)
    requires forall k :: 0 <= k < |order| ==> order[k] in data.reminders
    modifies data
    ensures var target := if ctx.isOwner && |args| >= 1 then LastMatch(old(data.reminders), order, args[0]) else None;
            if target.Some? && target.value != "" then
              && reply == Deleted(args[0])
              && target.value in old(data.reminders)
              && data.reminders == old(data.reminders) - {target.value}
              && data.storedReminders == old(data.storedReminders) - {target.value}
            else
              && reply == (if !ctx.isOwner then NoReply else if |args| < 1 then ShowUsage(ClearUsage) else NotFound)
              && data.reminders == old(data.reminders) && data.storedReminders == old(data.storedReminders)
    ensures data.lastReminderMessage == old(data.lastReminderMessage) && data.latestId == old(data.latestId)
    ensures data.timezone == old(data.timezone) && data.storedLast == old(data.storedLast)
    ensures data.storedLatestId == old(data.storedLatestId) && data.storedTimezone == old(data.storedTimezone)
  {
    if !ctx.isOwner {
      return NoReply;
    }
    if |args| < 1 {
      return ShowUsage(ClearUsage);
    }
    var reminders := data.GetReminders();
    var targetKey: Option<string> := None;
    var i := 0;
    while i < |order|
      invariant 0 <= i <= |order|
      invariant targetKey == LastMatch(reminders, order[..i], args[0])
      invariant targetKey.Some? ==> targetKey.value in reminders
    {
      assert order[..i + 1][..i] == order[..i];
      if NameMatches(reminders[order[i]], args[0]) {
        targetKey := Some(order[i]);
      }
      i := i + 1;
    }
    assert order[..i] == order;
    if targetKey.None? || targetKey.value == "" {
      return NotFound;
    }
    data.reminders := data.reminders - {targetKey.value};
    data.DeleteReminder(targetKey.value);
    reply := Deleted(args[0]);
  }
}

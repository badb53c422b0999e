/** The announcement pass of src/events.ts: every due reminder is announced in its channel
    and then either deleted or, when periodic, re-armed from its stored time values. */
module Events {
  import opened Strings
  import opened Calendar
  import opened Parsers
  import opened Data
  import Utils

  // ---------------------------------------------------------------------------
  // Renewal

  /** The units the renewal `switch` knows: the parser's aliases without `week`/`w`. */
  function RenewUnitOf(token: string): Option<Unit>
  {
    match token
    case "year" => Some(Year)
    case "y" => Some(Year)
    case "month" => Some(Month)
    case "mo" => Some(Month)
    case "day" => Some(Day)
    case "d" => Some(Day)
    case "hour" => Some(Hour)
    case "h" => Some(Hour)
    case "minute" => Some(Minute)
    case "m" => Some(Minute)
    case _ => None
  }

  /** The instant `t` with every stored value the renewal knows added in stored order; any
      other key is passed over. */
  function RenewalDate(t: Instant, tv: TimeValues): Instant
  {
    if tv == [] then t
    else
      var last := tv[|tv| - 1];
      var before := RenewalDate(t, tv[..|tv| - 1]);
      match RenewUnitOf(last.0)
      case Some(u) => Add(before, last.1, u)
      case None => before
  }

  /** The new timestamp of a renewed reminder: `clock` (the `moment()` of the renewal)
      advanced by the stored offsets, less five seconds. */
  function RenewedTimestamp(r: Reminder, clock: Instant): Instant
  {
    var tv := if r.timeValues.Some? then r.timeValues.value else [];
    RenewalDate(clock, tv) - 5 * MsPerSecond
  }

  /** `renewReminder(reminder)`: only the timestamp changes. */
  method RenewReminder(reminder: Reminder, clock: Instant) returns (renewed: Reminder)
    ensures renewed == reminder.(timestamp := RenewedTimestamp(reminder, clock))
  {
    var date := clock;
    // `for ... in undefined` visits nothing
    var tv := if reminder.timeValues.Some? then reminder.timeValues.value else [];
    var i := 0;
    while i < |tv|
      invariant 0 <= i <= |tv|
      invariant date == RenewalDate(clock, tv[..i])
    {
      var unit := tv[i].0;
      var value := tv[i].1;
      assert tv[..i + 1][..i] == tv[..i];
      match RenewUnitOf(unit) {
        case Some(u) => date := Add(date, value, u);
        case None =>
      }
      i := i + 1;
    }
    assert tv[..i] == tv;
    date := date - 5 * MsPerSecond;
    renewed := reminder.(timestamp := date);
  }

  /** A key the renewal does not know, `w`/`week` included, changes nothing. */
  lemma {:induction false} UnknownKeySkipped(t: Instant, tv: TimeValues, key: string, value: nat)
    requires RenewUnitOf(key).None?
    ensures RenewalDate(t, tv + [(key, value)]) == RenewalDate(t, tv)
  {
    assert (tv + [(key, value)])[..|tv|] == tv;
  }

  /** For stored values without `w`/`week` keys, renewing from `clock` gives the date the
      parser computed from `clock` for the same values. */
  lemma {:induction false} RenewMatchesParse(t: Instant, tv: TimeValues)
    requires UnitsKnown(tv)
    requires forall k :: 0 <= k < |tv| ==> tv[k].0 != "w" && tv[k].0 != "week"
    ensures RenewalDate(t, tv) == ApplyUnits(t, tv)
  {
    if tv != [] {
      var init := tv[..|tv| - 1];
      assert forall k :: 0 <= k < |init| ==> init[k] == tv[k];
      RenewMatchesParse(t, init);
      assert RenewUnitOf(tv[|tv| - 1].0) == UnitOf(tv[|tv| - 1].0);
    }
  }

  /** Values stored only under `w`/`week` are all skipped: the renewed reminder is five
      seconds in the past, so it is due again at the next pass. */
  lemma {:induction false} WeeklyOnlyIsDueAgain(r: Reminder, clock: Instant)
    requires r.timeValues.Some?
    requires forall k :: 0 <= k < |r.timeValues.value| ==> r.timeValues.value[k].0 in {"w", "week"}
    ensures RenewedTimestamp(r, clock) == clock - 5000
  {
    WeekOnly(clock, r.timeValues.value);
  }

  lemma {:induction false} WeekOnly(t: Instant, tv: TimeValues)
    requires forall k :: 0 <= k < |tv| ==> tv[k].0 in {"w", "week"}
    ensures RenewalDate(t, tv) == t
  {
    if tv != [] {
      var init := tv[..|tv| - 1];
      assert forall k :: 0 <= k < |init| ==> init[k] == tv[k];
      WeekOnly(t, init);
      WeekKeyUnknown(tv[|tv| - 1].0);
      RenewalSkips(t, tv);
    }
  }

  lemma WeekKeyUnknown(key: string)
    requires key in {"w", "week"}
    ensures RenewUnitOf(key) == None
  {
  }

  lemma RenewalSkips(t: Instant, tv: TimeValues)
    requires tv != [] && RenewUnitOf(tv[|tv| - 1].0) == None
    ensures RenewalDate(t, tv) == RenewalDate(t, tv[..|tv| - 1])
  {
  }

  // ---------------------------------------------------------------------------
  // The pass

  /** What one pass does to a reminder: None when it is deleted. Not yet due: unchanged.
      Due, in a channel that no longer exists: dropped unannounced. Due and announced:
      re-armed if periodic, deleted otherwise. */
  function Outcome(r: Reminder, now: Instant, clock: Instant, channels: set<string>): Option<Reminder>
  {
    if r.timestamp > now then Some(r)
    else if r.channelId !in channels then None
    else if r.isPeriodic then Some(r.(timestamp := RenewedTimestamp(r, clock)))
    else None
  }

  /** Whether the pass announces `r`. */
  predicate Announces(r: Reminder, now: Instant, channels: set<string>)
  {
    r.timestamp <= now && r.channelId in channels
  }

  /** The table after the keys in `visited` have been dealt with. */
  function Partial(table: map<string, Reminder>, visited: set<string>, now: Instant, clock: Instant, channels: set<string>): map<string, Reminder>
  {
    map k | k in table && (k !in visited || Outcome(table[k], now, clock, channels).Some?) ::
      if k in visited then Outcome(table[k], now, clock, channels).value else table[k]
  }

  /** The table after a whole pass. */
  function AfterPass(table: map<string, Reminder>, now: Instant, clock: Instant, channels: set<string>): map<string, Reminder>
  {
    Partial(table, table.Keys, now, clock, channels)
  }

  /** `${mentionUser(authorId)} says: ${text}`. */
  function AnnouncementText(r: Reminder): string
  {
    Utils.MentionUser(r.authorId) + " says: " + r.text
  }

  /** The messages a pass sends, as (channel id, content), in visiting order. */
  function Announcements(table: map<string, Reminder>, order: seq<string>, now: Instant, channels: set<string>): seq<(string, string)>
    requires forall k :: 0 <= k < |order| ==> order[k] in table
  {
    if order == [] then []
    else
      var key := order[|order| - 1];
      var before := Announcements(table, order[..|order| - 1], now, channels);
      if Announces(table[key], now, channels) then before + [(table[key].channelId, AnnouncementText(table[key]))]
      else before
  }

  /** The text of the last reminder announced, if any. */
  function LastAnnounced(table: map<string, Reminder>, order: seq<string>, now: Instant, channels: set<string>): Option<string>
    requires forall k :: 0 <= k < |order| ==> order[k] in table
  {
    if order == [] then None
    else
      var key := order[|order| - 1];
      if Announces(table[key], now, channels) then Some(table[key].text)
      else LastAnnounced(table, order[..|order| - 1], now, channels)
  }

  /** An iteration order of the table: each key exactly once. */
  predicate IsOrderOf(order: seq<string>, table: map<string, Reminder>)
  {
    && (forall k :: 0 <= k < |order| ==> order[k] in table)
    && (forall k :: k in table ==> k in order)
    && (forall i, j :: 0 <= i < j < |order| ==> order[i] != order[j])
  }

  /** The body of the `for ... in` loop for one key: the reminder under `key` is left
      alone, dropped, or announced and then renewed or deleted, as Outcome says; the
      message sent, if any, is returned. */
  method VisitReminder(data: ReminderData, key: string, now: Instant, clock: Instant, channels: set<string>)
    returns (message: Option<(string, string)>)
    requires key in data.reminders
    modifies data
    ensures var r := old(data.reminders)[key];
            var o := Outcome(r, now, clock, channels);
            data.reminders == if o.Some? then old(data.reminders)[key := o.value] else old(data.reminders) - {key}
    ensures var r := old(data.reminders)[key];
            && message == (if Announces(r, now, channels) then Some((r.channelId, AnnouncementText(r))) else None)
            && data.lastReminderMessage == (if Announces(r, now, channels) then Some(r.text) else old(data.lastReminderMessage))
            && data.storedLast == (if Announces(r, now, channels) then Some(r.text) else old(data.storedLast))
    ensures data.latestId == old(data.latestId) && data.timezone == old(data.timezone)
    ensures data.storedReminders == old(data.storedReminders)
    ensures data.storedLatestId == old(data.storedLatestId) && data.storedTimezone == old(data.storedTimezone)
  {
    var reminder := data.reminders[key];
    if reminder.timestamp > now {
      message := None;
    } else if reminder.channelId !in channels {
      data.reminders := data.reminders - {key};
      message := None;
    } else {
      message := Some((reminder.channelId, AnnouncementText(reminder)));
      data.SetLastReminderMessage(reminder.text);
      if reminder.isPeriodic {
        var renewed := RenewReminder(reminder, clock);
        data.reminders := data.reminders[key := renewed];
      } else {
        data.reminders := data.reminders - {key};
      }
    }
  }

  /** `announceReminders()`. `now` is the pass's `nowUtc`, `clock` what `moment()` reads in
      each renewal, `channels` the channel ids the bot can still fetch, and `order` the
      order `for ... in` visits the keys. Sending always succeeds. */
  method AnnounceReminders(data: ReminderData, now: Instant, clock: Instant, channels: set<string>, order: seq<string>)
    returns (sent: seq<(string, string)>)
    requires IsOrderOf(order, data.reminders)
    modifies data
    ensures data.reminders == AfterPass(old(data.reminders), now, clock, channels)
    ensures sent == Announcements(old(data.reminders), order, now, channels)
    ensures var last := LastAnnounced(old(data.reminders), order, now, channels);
            && data.lastReminderMessage == (if last.Some? then last else old(data.lastReminderMessage))
            && data.storedLast == (if last.Some? then last else old(data.storedLast))
    ensures data.storedReminders == data.reminders
    ensures data.latestId == old(data.latestId) && data.timezone == old(data.timezone)
    ensures data.storedLatestId == old(data.storedLatestId) && data.storedTimezone == old(data.storedTimezone)
  {
    ghost var table := data.reminders;
    ghost var visited: set<string> := {};
    sent := [];
    var i := 0;
    while i < |order|
      invariant 0 <= i <= |order|
      invariant forall k :: k in visited <==> k in order[..i]
      invariant data.reminders == Partial(table, visited, now, clock, channels)
      invariant sent == Announcements(table, order[..i], now, channels)
      invariant var last := LastAnnounced(table, order[..i], now, channels);
                && data.lastReminderMessage == (if last.Some? then last else old(data.lastReminderMessage))
                && data.storedLast == (if last.Some? then last else old(data.storedLast))
      invariant data.latestId == old(data.latestId) && data.timezone == old(data.timezone)
      invariant data.storedLatestId == old(data.storedLatestId) && data.storedTimezone == old(data.storedTimezone)
    {
      var key := order[i];
      assert order[..i + 1] == order[..i] + [key];
      assert key !in visited;
      PartialStep(table, visited, key, now, clock, channels);
      var message := VisitReminder(data, key, now, clock, channels);
      if message.Some? {
        sent := sent + [message.value];
      }
      visited := visited + {key};
      i := i + 1;
    }
    assert order[..i] == order;
    assert visited == table.Keys;
    data.SaveReminders(data.reminders);
  }

  /** Dealing with one more key changes that key only, as Outcome says. */
  lemma PartialStep(table: map<string, Reminder>, visited: set<string>, key: string, now: Instant, clock: Instant, channels: set<string>)
    requires key in table && key !in visited
    ensures key in Partial(table, visited, now, clock, channels)
    ensures Partial(table, visited, now, clock, channels)[key] == table[key]
    ensures var before := Partial(table, visited, now, clock, channels);
            var o := Outcome(table[key], now, clock, channels);
            Partial(table, visited + {key}, now, clock, channels)
              == if o.Some? then before[key := o.value] else before - {key}
  {
  }

  // ---------------------------------------------------------------------------
  // What a pass promises

  /** A reminder that is not due is left exactly as it was. */
  lemma NotDueUntouched(table: map<string, Reminder>, now: Instant, clock: Instant, channels: set<string>, key: string)
    requires key in table && table[key].timestamp > now
    ensures key in AfterPass(table, now, clock, channels)
    ensures AfterPass(table, now, clock, channels)[key] == table[key]
  {
  }

  /** A due reminder is gone after the pass unless it was periodic and announced; then only
      its timestamp has changed, to the renewed one. No key is added. */
  lemma DueOutcome(table: map<string, Reminder>, now: Instant, clock: Instant, channels: set<string>, key: string)
    requires key in table && table[key].timestamp <= now
    ensures var r := table[key];
            var after := AfterPass(table, now, clock, channels);
            && (key in after <==> r.isPeriodic && r.channelId in channels)
            && (key in after ==> after[key] == r.(timestamp := RenewedTimestamp(r, clock)))
    ensures AfterPass(table, now, clock, channels).Keys <= table.Keys
  {
  }

  /** The last message recorded by a pass is the text of its last announcement, and there
      is one exactly when something was announced. */
  lemma {:induction false} LastMessageIsLastSent(table: map<string, Reminder>, order: seq<string>, now: Instant, channels: set<string>)
    requires forall k :: 0 <= k < |order| ==> order[k] in table
    ensures var sent := Announcements(table, order, now, channels);
            var last := LastAnnounced(table, order, now, channels);
            && (last.Some? <==> sent != [])
            && (last.Some? ==> exists k :: 0 <= k < |order| && Announces(table[order[k]], now, channels)
                                 && table[order[k]].text == last.value
                                 && sent[|sent| - 1] == (table[order[k]].channelId, AnnouncementText(table[order[k]])))
  {
    if order != [] {
      var init := order[..|order| - 1];
      assert forall k :: 0 <= k < |init| ==> init[k] == order[k];
      LastMessageIsLastSent(table, init, now, channels);
      var last := LastAnnounced(table, order, now, channels);
      if !Announces(table[order[|order| - 1]], now, channels) && last.Some? {
        var k :| 0 <= k < |init| && Announces(table[init[k]], now, channels)
                 && table[init[k]].text == last.value
                 && Announcements(table, init, now, channels)[|Announcements(table, init, now, channels)| - 1]
                    == (table[init[k]].channelId, AnnouncementText(table[init[k]]));
        assert init[k] == order[k];
      }
    }
  }

  /** Every announcement is of a due reminder whose channel exists, in that channel. */
  lemma {:induction false} AnnouncedAreDue(table: map<string, Reminder>, order: seq<string>, now: Instant, channels: set<string>, m: nat)
    requires forall k :: 0 <= k < |order| ==> order[k] in table
    requires m < |Announcements(table, order, now, channels)|
    ensures exists k :: 0 <= k < |order| && Announces(table[order[k]], now, channels)
                        && Announcements(table, order, now, channels)[m] == (table[order[k]].channelId, AnnouncementText(table[order[k]]))
  {
    var init := order[..|order| - 1];
    assert forall k :: 0 <= k < |init| ==> init[k] == order[k];
    var before := Announcements(table, init, now, channels);
    if m < |before| {
      AnnouncedAreDue(table, init, now, channels, m);
      var k :| 0 <= k < |init| && Announces(table[init[k]], now, channels)
               && before[m] == (table[init[k]].channelId, AnnouncementText(table[init[k]]));
      assert init[k] == order[k];
    } else {
      assert Announcements(table, order, now, channels)[m]
             == (table[order[|order| - 1]].channelId, AnnouncementText(table[order[|order| - 1]]));
    }
  }
}

/** The reminder table and its configuration values (src/data.ts): the module-level
    variables become the fields of one `ReminderData` object, and the Firebase paths the
    module reads and writes become fields of the same object, so that each operation says
    what it does to memory and what it does to the store. */
module Data {
  import opened Strings
  import opened Calendar
  import opened Parsers

  /** `Reminder`. `id` is None when the field was never set (the reminder commands do not
      set it); `name` is the property the periodic-reminder command adds although
      the type does not declare it. */
  datatype Reminder = Reminder(
    isPeriodic: bool,
    text: string,
    timestamp: Instant,
    authorId: string,
    channelId: string,
    id: Option<int>,
    rawTime: Option<string>,
    timeValues: Option<TimeValues>,
    name: Option<string>)

  /** `maxId`. */
  const MaxId: int := 5000

  /** JavaScript's `%` on integers: the remainder takes the sign of the dividend. */
  function JsRem(a: int, n: int): int
    requires n > 0
  {
    if a >= 0 then a % n else -((-a) % n)
  }

  /** The remainder of a non-negative number is the Euclidean one; of a negative number it
      lies in (-n, 0], and is the negated remainder of its absolute value. */
  lemma JsRemRange(a: int, n: int)
    requires n > 0
    ensures a >= 0 ==> 0 <= JsRem(a, n) < n && JsRem(a, n) == a % n
    ensures a < 0 ==> -n < JsRem(a, n) <= 0 && JsRem(a, n) == -JsRem(-a, n)
  {
  }

  /** Ids repeat with period `maxId + 1` once the counter is non-negative. */
  lemma IdPeriod(a: int)
    requires a >= 0
    ensures JsRem(a + MaxId + 1, MaxId + 1) == JsRem(a, MaxId + 1)
  {
    assert a + MaxId + 1 == a + 1 * (MaxId + 1);
  }

  class ReminderData {
    /** `reminders`: the in-memory table, keyed by the store's push keys. */
    var reminders: map<string, Reminder>
    /** `lastReminderMessage`. */
    var lastReminderMessage: Option<string>
    /** `latestId`; None stands for NaN, which `++` keeps. */
    var latestId: Option<int>
    /** `timezone` (undefined until loaded). */
    var timezone: Option<string>

    /** The store: `reminders/`, `reminderconfig/last/`, `reminderconfig/latestId` and
        `reminderconfig/timezone`. */
    var storedReminders: map<string, Reminder>
    var storedLast: Option<string>
    var storedLatestId: Option<int>
    var storedTimezone: Option<string>

    /** The module's initial values, over a store with the given contents. */
    constructor (stored: map<string, Reminder>, last: Option<string>, id: Option<int>, tz: Option<string>)
      ensures reminders == map[] && lastReminderMessage == None && latestId == Some(-1) && timezone == None
      ensures storedReminders == stored && storedLast == last && storedLatestId == id && storedTimezone == tz
    {
      reminders := map[];
      lastReminderMessage := None;
      latestId := Some(-1);
      timezone := None;
      storedReminders := stored;
      storedLast := last;
      storedLatestId := id;
      storedTimezone := tz;
    }

    /** `loadImmediate`: every variable is read back from the store; a missing timezone
        falls back to the owner's (`ownerTimezone`, from the environment). */
    method LoadImmediate(ownerTimezone: Option<string>)
      modifies this
      ensures reminders == storedReminders && lastReminderMessage == storedLast && latestId == storedLatestId
      ensures timezone == if storedTimezone.Some? then storedTimezone else ownerTimezone
      ensures storedReminders == old(storedReminders) && storedLast == old(storedLast)
      ensures storedLatestId == old(storedLatestId) && storedTimezone == old(storedTimezone)
    {
      reminders := storedReminders;
      lastReminderMessage := storedLast;
      latestId := storedLatestId;
      timezone := if storedTimezone.Some? then storedTimezone else ownerTimezone;
    }

    /** `saveImmediate`: the in-memory table replaces the stored one. */
    method SaveImmediate()
      modifies this
      ensures storedReminders == reminders
      ensures reminders == old(reminders) && lastReminderMessage == old(lastReminderMessage)
      ensures latestId == old(latestId) && timezone == old(timezone)
      ensures storedLast == old(storedLast) && storedLatestId == old(storedLatestId) && storedTimezone == old(storedTimezone)
    {
      storedReminders := reminders;
    }

    /** `saveReminders(table)`. */
    method SaveReminders(table: map<string, Reminder>)
      modifies this
      ensures storedReminders == table
      ensures reminders == old(reminders) && lastReminderMessage == old(lastReminderMessage)
      ensures latestId == old(latestId) && timezone == old(timezone)
      ensures storedLast == old(storedLast) && storedLatestId == old(storedLatestId) && storedTimezone == old(storedTimezone)
    {
      storedReminders := table;
    }

    /** `saveReminder`: `push` stores the reminder under a key the store has not used,
        which the caller receives as `key`. */
    method SaveReminder(reminder: Reminder, key: string) returns (pushed: string)
      requires key !in storedReminders
      modifies this
      ensures pushed == key
      ensures storedReminders == old(storedReminders)[key := reminder]
      ensures reminders == old(reminders) && lastReminderMessage == old(lastReminderMessage)
      ensures latestId == old(latestId) && timezone == old(timezone)
      ensures storedLast == old(storedLast) && storedLatestId == old(storedLatestId) && storedTimezone == old(storedTimezone)
    {
      storedReminders := storedReminders[key := reminder];
      pushed := key;
    }

    /** `deleteReminder(key)` removes the key from the store only; the in-memory table is
        left as it is. */
    method DeleteReminder(key: string)
      modifies this
      ensures storedReminders == old(storedReminders) - {key}
      ensures reminders == old(reminders) && lastReminderMessage == old(lastReminderMessage)
      ensures latestId == old(latestId) && timezone == old(timezone)
      ensures storedLast == old(storedLast) && storedLatestId == old(storedLatestId) && storedTimezone == old(storedTimezone)
    {
      storedReminders := storedReminders - {key};
    }

    /** `getReminders` returns the live table: callers that change it change the fields of
        this object (see Events and ReminderCommands). */
    function GetReminders(): map<string, Reminder>
      reads this
    {
      reminders
    }

    /** `setReminder`: the reminder is pushed to the store and kept in memory under the
        pushed key; every other entry is left as it was. */
    method SetReminder(reminder: Reminder, key: string)
      requires key !in storedReminders
      modifies this
      ensures reminders == old(reminders)[key := reminder]
      ensures storedReminders == old(storedReminders)[key := reminder]
      ensures forall k :: k in old(reminders) && k != key ==> k in reminders && reminders[k] == old(reminders)[k]
      ensures lastReminderMessage == old(lastReminderMessage) && latestId == old(latestId) && timezone == old(timezone)
      ensures storedLast == old(storedLast) && storedLatestId == old(storedLatestId) && storedTimezone == old(storedTimezone)
    {
      var pushed := SaveReminder(reminder, key);
      reminders := reminders[pushed := reminder];
    }

    /** `setLastReminderMessage`: the message is kept and written to the store. */
    method SetLastReminderMessage(message: string)
      modifies this
      ensures GetLastReminderMessage() == Some(message) && storedLast == Some(message)
      ensures reminders == old(reminders) && latestId == old(latestId) && timezone == old(timezone)
      ensures storedReminders == old(storedReminders) && storedLatestId == old(storedLatestId)
      ensures storedTimezone == old(storedTimezone)
    {
      lastReminderMessage := Some(message);
      storedLast := Some(message);
    }

    function GetLastReminderMessage(): Option<string>
      reads this
    {
      lastReminderMessage
    }

    /** `setTimezone`: the zone is kept and written to the store. */
    method SetTimezone(tz: string)
      modifies this
      ensures GetTimezone() == Some(tz) && storedTimezone == Some(tz)
      ensures reminders == old(reminders) && lastReminderMessage == old(lastReminderMessage)
      ensures latestId == old(latestId)
      ensures storedReminders == old(storedReminders) && storedLast == old(storedLast)
      ensures storedLatestId == old(storedLatestId)
    {
      timezone := Some(tz);
      storedTimezone := Some(tz);
    }

    function GetTimezone(): Option<string>
      reads this
    {
      timezone
    }

    /** `generateId`: the counter goes up by one and never wraps; the id is the counter
        modulo `maxId + 1`, which lies in [0, maxId] once the counter is non-negative, and
        is also written to the store. NaN stays NaN. */
    method GenerateId() returns (newId: Option<int>)
      modifies this
      ensures old(latestId).None? ==> latestId == None && newId == None
      ensures old(latestId).Some? ==> latestId == Some(old(latestId).value + 1)
      ensures old(latestId).Some? ==> newId == Some(JsRem(old(latestId).value + 1, MaxId + 1))
      ensures old(latestId).Some? && old(latestId).value >= -1 ==> 0 <= newId.value <= MaxId
      ensures storedLatestId == newId
      ensures reminders == old(reminders) && lastReminderMessage == old(lastReminderMessage)
      ensures timezone == old(timezone)
      ensures storedReminders == old(storedReminders) && storedLast == old(storedLast)
      ensures storedTimezone == old(storedTimezone)
    {
      if latestId.Some? {
        latestId := Some(latestId.value + 1);
        JsRemRange(latestId.value, MaxId + 1);
        newId := Some(JsRem(latestId.value, MaxId + 1));
      } else {
        newId := None;
      }
      storedLatestId := newId;
    }
  }
}

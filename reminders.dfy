/**
 * Reminders, stored as one list under the key "pet_reminders": adding a
 * reminder with its validation, the earliest-first display order, toggling
 * `completed`, deleting, and the decision whether to arm a notification.
 * Instants are milliseconds; `parse` stands for `new Date(text).getTime()`,
 * with `None` for NaN.
 */
module Reminders {
  import opened Wrappers
  import opened Text
  import opened Storage
  import opened Lists
  import opened Sorting

  const Key := "pet_reminders"
  const TitleRequired := "Please enter a reminder title"
  const DateTimeRequired := "Please select a date and time"
  const DateTimeInvalid := "Please enter a valid date and time"
  const DateTimePast := "Please select a future date and time"
  const SaveFailed := "Failed to save reminder"

  /** The values of the title, date-and-time and notes inputs. */
  datatype ReminderForm = ReminderForm(title: string, datetime: string, notes: string)

  /**
   * A stored reminder. `datetime` is the instant the source stores as
   * `toISOString()` text, which reads back to the same instant.
   */
  datatype Reminder = Reminder(id: int, title: string, datetime: int, notes: string, completed: bool)

  function IdOf(r: Reminder): int {
    r.id
  }

  /**
   * The checks of `handleAddReminder`, in order: a title that is not blank, a
   * date-and-time that is not empty, one that parses, and one not earlier than
   * `now`. On success the result is the parsed instant.
   */
  function ValidateReminder(form: ReminderForm, parse: string -> Option<int>, now: int): (r: Result<int, string>)
    ensures IsBlank(form.title) ==> r == Failure(TitleRequired)
    ensures !IsBlank(form.title) && form.datetime == [] ==> r == Failure(DateTimeRequired)
    ensures !IsBlank(form.title) && form.datetime != [] && parse(form.datetime).None? ==> r == Failure(DateTimeInvalid)
    ensures !IsBlank(form.title) && form.datetime != [] && parse(form.datetime).Some? ==>
              (parse(form.datetime).value < now <==> r == Failure(DateTimePast))
    ensures r.Success? <==>
              !IsBlank(form.title) && form.datetime != [] && parse(form.datetime).Some? && parse(form.datetime).value >= now
    ensures r.Success? ==> r.value == parse(form.datetime).value
  {
    if IsBlank(form.title) then Failure(TitleRequired)
    else if form.datetime == [] then Failure(DateTimeRequired)
    else match parse(form.datetime)
      case None => Failure(DateTimeInvalid)
      case Some(at) => if at < now then Failure(DateTimePast) else Success(at)
  }

  /** The boundary of the last check: an instant equal to `now` passes, one a millisecond earlier does not. */
  lemma ValidationBoundary(form: ReminderForm, parse: string -> Option<int>, now: int)
    requires !IsBlank(form.title) && form.datetime != [] && parse(form.datetime).Some?
    ensures parse(form.datetime).value == now ==> ValidateReminder(form, parse, now) == Success(now)
    ensures parse(form.datetime).value == now ==> ValidateReminder(form, parse, now + 1) == Failure(DateTimePast)
  {
  }

  /** The reminder `handleAddReminder` builds at instant `now` for the accepted instant `at`. */
  function NewReminder(form: ReminderForm, at: int, now: int): Reminder {
    Reminder(now, Trim(form.title), at, Trim(form.notes), false)
  }

  /** A new reminder is not completed, has a non-empty trimmed title and trimmed notes. */
  lemma NewReminderFields(form: ReminderForm, parse: string -> Option<int>, now: int)
    requires ValidateReminder(form, parse, now).Success?
    ensures var r := NewReminder(form, ValidateReminder(form, parse, now).value, now);
      && r.id == now && !r.completed && r.datetime >= now
      && r.title != [] && IsTrimmed(r.title) && IsTrimmed(r.notes)
  {
    TrimCutsOnlyWhiteSpace(form.title);
    TrimCutsOnlyWhiteSpace(form.notes);
  }

  /** The browser's notification permission; `Unsupported` when the page has no `Notification` at all. */
  datatype Permission = Unsupported | Default | Granted | Denied

  /** What `scheduleNotification` does: whether it asks for permission, and the timer delay if it arms one. */
  datatype Schedule = Schedule(requestsPermission: bool, delay: Option<int>)

  /**
   * The decision in `scheduleNotification` for a reminder due at `target`,
   * taken at `now`: permission is requested only while undecided, and since the
   * request answers later, a timer is armed only when permission was already
   * granted and the target lies strictly in the future, after `target - now`.
   */
  function ScheduleNotification(permission: Permission, target: int, now: int): (s: Schedule)
    ensures s.requestsPermission <==> permission == Default
    ensures s.delay.Some? <==> permission == Granted && target > now
    ensures s.delay.Some? ==> s.delay.value > 0 && now + s.delay.value == target
  {
    if permission == Unsupported then Schedule(false, None)
    else
      var requests := permission == Default;
      if permission == Granted && target > now then Schedule(requests, Some(target - now))
      else Schedule(requests, None)
  }

  /**
   * A reminder accepted for exactly the instant of submission is never
   * notified: scheduling happens no earlier than the check, so the target is
   * not strictly in the future.
   */
  lemma DueNowIsNeverNotified(form: ReminderForm, parse: string -> Option<int>, now: int,
                              permission: Permission, scheduledAt: int)
    requires parse(form.datetime) == Some(now) && scheduledAt >= now
    ensures ValidateReminder(form, parse, now).Success? ==>
              ScheduleNotification(permission, NewReminder(form, now, now).datetime, scheduledAt).delay.None?
  {
  }

  /** The longest wait a browser timer honours: `setTimeout` reads its delay as a 32-bit signed integer. */
  const MaxTimerDelay := 0x7FFF_FFFF

  /**
   * What a browser timer actually waits when asked for `d` milliseconds: `d`
   * is reduced modulo 2^32 into the signed 32-bit range, and a negative
   * result counts as no wait at all.
   */
  function TimerWait(d: int): (w: int)
    ensures 0 <= w <= MaxTimerDelay
    ensures 0 <= d <= MaxTimerDelay ==> w == d
    ensures MaxTimerDelay < d < 0x1_0000_0000 ==> w == 0
  {
    var m := d % 0x1_0000_0000;
    var signed := if m > MaxTimerDelay then m - 0x1_0000_0000 else m;
    if signed < 0 then 0 else signed
  }

  /**
   * A reminder 30 days ahead, with permission granted, asks `setTimeout` for
   * 2592000000 milliseconds, which the timer reads as a negative delay: the
   * notification fires at once instead of at the reminder's time.
   */
  lemma ThirtyDaysAheadFiresAtOnce(now: int)
    ensures var s := ScheduleNotification(Granted, now + 30 * 86400000, now);
            s.delay == Some(2592000000) && TimerWait(s.delay.value) == 0
  {
  }

  /** The sum of a sequence of waits. */
  function Total(waits: seq<int>): int
  {
    if waits == [] then 0 else waits[0] + Total(waits[1..])
  }

  /**
   * The intended way to wait `d` milliseconds: a chain of timers, each armed
   * when the previous one fires, each within what a timer honours, together
   * waiting exactly `d`.
   */
  function TimerChain(d: int): (chain: seq<int>)
    decreases d
    ensures d <= 0 ==> chain == []
    ensures forall k :: 0 <= k < |chain| ==> 0 < chain[k] <= MaxTimerDelay && TimerWait(chain[k]) == chain[k]
    ensures d > 0 ==> Total(chain) == d
  {
    if d <= 0 then []
    else if d <= MaxTimerDelay then [d]
    else [MaxTimerDelay] + TimerChain(d - MaxTimerDelay)
  }

  /**
   * With the chain in place of the single timer, every notification that
   * `ScheduleNotification` arms fires exactly at the reminder's time, however
   * far ahead it lies.
   */
  lemma ChainedTimerFiresOnTime(permission: Permission, target: int, now: int)
    ensures var s := ScheduleNotification(permission, target, now);
            s.delay.Some? ==> now + Total(TimerChain(s.delay.value)) == target
  {
  }

  /**
   * `handleAddReminder`: validation failures are reported in the order of
   * `ValidateReminder` and store nothing; otherwise the reminder is appended to
   * the loaded list (empty when the key is absent) and the whole list is saved.
   * Only after a successful save is the notification decided, at `scheduledAt`;
   * a refused save reports the failure, schedules nothing and leaves the
   * stored list as it was.
   */
  method AddReminder(store: Store<Reminder>, form: ReminderForm, parse: string -> Option<int>, now: int,
                     accepted: bool, permission: Permission, scheduledAt: int)
    returns (r: Result<Reminder, string>, schedule: Option<Schedule>)
    modifies store
    ensures ValidateReminder(form, parse, now).Failure? ==>
              && r == Failure(ValidateReminder(form, parse, now).error) && schedule.None?
              && store.db == old(store.db)
    ensures ValidateReminder(form, parse, now).Success? && !accepted ==>
              r == Failure(SaveFailed) && schedule.None? && store.db == old(store.db)
    ensures ValidateReminder(form, parse, now).Success? && accepted ==>
              var reminder := NewReminder(form, ValidateReminder(form, parse, now).value, now);
              && r == Success(reminder)
              && schedule == Some(ScheduleNotification(permission, reminder.datetime, scheduledAt))
              && store.db == old(store.db)[Key := old(store.List(Key)) + [reminder]]
  {
    var checked := ValidateReminder(form, parse, now);
    if checked.Failure? {
      return Failure(checked.error), None;
    }
    var reminder := NewReminder(form, checked.value, now);
    var reminders := store.List(Key);
    reminders := reminders + [reminder];
    var ok := store.Save(Key, reminders, accepted);
    if ok {
      r := Success(reminder);
      schedule := Some(ScheduleNotification(permission, reminder.datetime, scheduledAt));
    } else {
      r := Failure(SaveFailed);
      schedule := None;
    }
  }

  /** The comparator of the display sort, `new Date(a.datetime) - new Date(b.datetime)`: earlier first. */
  predicate EarlierOrSame(a: Reminder, b: Reminder) {
    a.datetime <= b.datetime
  }

  /**
   * `loadReminders`: the loaded list sorted earliest first for display. It
   * holds exactly the stored reminders, and nothing is written back: the store
   * is not among what this method may change.
   */
  method DisplayOrder(store: Store<Reminder>) returns (shown: seq<Reminder>)
    ensures multiset(shown) == multiset(store.List(Key))
    ensures forall i, j :: 0 <= i < j < |shown| ==> shown[i].datetime <= shown[j].datetime
  {
    var reminders := store.List(Key);
    shown := SortedCopy(reminders, EarlierOrSame);
  }

  /** `completed` flipped on the first reminder with the id; the list as it is when no reminder has it. */
  function ToggleFirst(s: seq<Reminder>, id: int): seq<Reminder> {
    match FirstIndexOf(s, IdOf, id)
    case Some(i) => s[i := s[i].(completed := !s[i].completed)]
    case None => s
  }

  /**
   * A toggle changes one field of one reminder: the first with the id gets the
   * opposite `completed`, everything else (the length, its other fields, all
   * other reminders) stays.
   */
  lemma ToggleChangesOneFlag(s: seq<Reminder>, id: int)
    ensures |ToggleFirst(s, id)| == |s|
    ensures !HasId(s, IdOf, id) ==> ToggleFirst(s, id) == s
    ensures HasId(s, IdOf, id) ==>
              var i := FirstIndexOf(s, IdOf, id).value;
              && ToggleFirst(s, id)[i] == s[i].(completed := !s[i].completed)
              && forall k :: 0 <= k < |s| && k != i ==> ToggleFirst(s, id)[k] == s[k]
  {
  }

  /** Toggling twice restores the list: the flip does not move which reminder the id finds. */
  lemma ToggleTwiceRestores(s: seq<Reminder>, id: int)
    ensures ToggleFirst(ToggleFirst(s, id), id) == s
  {
    var t := ToggleFirst(s, id);
    assert SameIds(t, s, IdOf);
    SameIdsSameIndex(t, s, IdOf, id);
  }

  /** A toggle keeps ids where they were, so it keeps them unique. */
  lemma ToggleKeepsUniqueIds(s: seq<Reminder>, id: int)
    requires UniqueIds(s, IdOf)
    ensures UniqueIds(ToggleFirst(s, id), IdOf)
  {
    assert SameIds(ToggleFirst(s, id), s, IdOf);
  }

  /**
   * `handleReminderToggle`: flips `completed` on the first reminder with the
   * id in the loaded list and saves it; an id that is not there writes nothing.
   */
  method ToggleReminder(store: Store<Reminder>, id: int, accepted: bool) returns (saved: bool)
    modifies store
    ensures saved == (accepted && HasId(old(store.List(Key)), IdOf, id))
    ensures !HasId(old(store.List(Key)), IdOf, id) ==> store.db == old(store.db)
    ensures HasId(old(store.List(Key)), IdOf, id) ==>
              store.db == Saved(old(store.db), Key, ToggleFirst(old(store.List(Key)), id), accepted)
  {
    var reminders := store.List(Key);
    var index := FirstIndexOf(reminders, IdOf, id);
    saved := false;
    if index.Some? {
      var i := index.value;
      reminders := reminders[i := reminders[i].(completed := !reminders[i].completed)];
      saved := store.Save(Key, reminders, accepted);
    }
  }

  /**
   * `handleDeleteReminder`: every reminder with the id is filtered out of the
   * loaded list and the rest is saved in its order. There is no confirmation.
   */
  method DeleteReminder(store: Store<Reminder>, id: int, accepted: bool) returns (ok: bool)
    modifies store
    ensures ok == accepted
    ensures store.db == Saved(old(store.db), Key, Without(old(store.List(Key)), IdOf, id), accepted)
  {
    var reminders := store.List(Key);
    var updatedReminders := Without(reminders, IdOf, id);
    ok := store.Save(Key, updatedReminders, accepted);
  }
}

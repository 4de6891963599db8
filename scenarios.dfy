/**
 * Client code in the role of the page: short runs of handlers whose outcome
 * follows from the handlers' contracts alone.
 */
module Scenarios {
  import opened Wrappers
  import opened Storage
  import opened Lists
  import Text
  import HealthRecords
  import Reminders

  /** Two records added one after the other are stored in the order they were added. */
  method AddedRecordsStoredInOrder() {
    var store := new Store<HealthRecords.HealthRecord>(map[]);
    var first := HealthRecords.AddHealthRecord(store, HealthRecords.RecordForm("2024-01-10", "checkup", ""), 1000, true);
    var second := HealthRecords.AddHealthRecord(store, HealthRecords.RecordForm("2024-03-01", "vaccination", "rabies"), 2000, true);
    assert store.List(HealthRecords.Key) == [first.value, second.value];
    assert first.value.kind == "checkup" && second.value.kind == "vaccination";
  }

  /** A list of two holds the same two entries as `[a, b]` only in one of its two orders. */
  lemma TwoInSomeOrder<T>(shown: seq<T>, a: T, b: T)
    requires multiset(shown) == multiset([a, b])
    ensures shown == [a, b] || shown == [b, a]
  {
    assert |shown| == |multiset(shown)| == 2;
    assert shown[0] in multiset(shown) && shown[1] in multiset(shown);
    if shown[0] == a {
      assert multiset(shown) == multiset([a]) + multiset([shown[1]]);
    } else {
      assert multiset(shown) == multiset([shown[0]]) + multiset([a]);
    }
  }

  /** Of two stored records, the one with the later date is shown first. */
  method NewestRecordShownFirst(a: HealthRecords.HealthRecord, b: HealthRecords.HealthRecord, parse: string -> Option<int>)
    requires parse(a.date) == Some(1704844800000) && parse(b.date) == Some(1709251200000)
  {
    var store := new Store<HealthRecords.HealthRecord>(map[HealthRecords.Key := [a, b]]);
    var shown := HealthRecords.DisplayOrder(store, parse);
    TwoInSomeOrder(shown, a, b);
    assert shown[0] == b || a == b;
  }

  /** A reminder for an hour later passes validation and becomes the only stored reminder. */
  method AddedReminderIsStored(title: string, when: string, parse: string -> Option<int>, now: int)
    requires !Text.IsBlank(title) && when != [] && parse(when) == Some(now + 3600000)
  {
    var store := new Store<Reminders.Reminder>(map[]);
    var form := Reminders.ReminderForm(title, when, "");
    assert Reminders.ValidateReminder(form, parse, now) == Success(now + 3600000);
    var added, _ := Reminders.AddReminder(store, form, parse, now, true, Reminders.Granted, now);
    var r := added.value;
    assert store.List(Reminders.Key) == [r];
    assert r.datetime == now + 3600000 && !r.completed;
  }

  /** The only reminder, toggled, is shown completed. */
  method ToggledReminderShownCompleted(r: Reminders.Reminder) {
    var store := new Store<Reminders.Reminder>(map[Reminders.Key := [r]]);
    assert FirstIndexOf([r], Reminders.IdOf, r.id) == Some(0);
    var saved := Reminders.ToggleReminder(store, r.id, true);
    assert store.List(Reminders.Key) == [r.(completed := !r.completed)];
    var shown := Reminders.DisplayOrder(store);
    assert multiset(shown) == multiset([r.(completed := !r.completed)]);
    assert |shown| == 1 && shown[0] in multiset(shown);
    assert shown[0].id == r.id && shown[0].completed != r.completed;
  }

  /** Deleting a reminder removes it from the display, and deleting it again leaves the list as it is. */
  method DeleteTwice(initial: seq<Reminders.Reminder>, id: int) {
    var store := new Store<Reminders.Reminder>(map[Reminders.Key := initial]);
    var ok := Reminders.DeleteReminder(store, id, true);
    var once := store.List(Reminders.Key);
    ok := Reminders.DeleteReminder(store, id, true);
    WithoutIdempotent(initial, Reminders.IdOf, id);
    assert store.List(Reminders.Key) == once;
    var shown := Reminders.DisplayOrder(store);
    assert forall k :: 0 <= k < |shown| ==> shown[k].id != id by {
      forall k | 0 <= k < |shown| ensures shown[k].id != id {
        assert shown[k] in multiset(once);
        var j :| 0 <= j < |once| && once[j] == shown[k];
      }
    }
  }

  /** A key that was never written reads as the empty list. */
  method NeverWrittenIsEmpty() {
    var store := new Store<Reminders.Reminder>(map[]);
    var shown := Reminders.DisplayOrder(store);
    assert shown == [];
  }
}

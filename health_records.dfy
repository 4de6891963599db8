/**
 * Health records, stored as one list under the key "pet_health_records":
 * adding a record from the form, the newest-first display order, editing and
 * deleting, and the two display helpers for a record's type.
 */
module HealthRecords {
  import opened Wrappers
  import opened Text
  import opened Storage
  import opened Lists
  import opened Sorting

  const Key := "pet_health_records"
  const DateRequired := "Please select a date"
  const TypeRequired := "Please select a record type"
  const SaveFailed := "Failed to save health record"

  /** The values of the date, type and notes inputs. */
  datatype RecordForm = RecordForm(date: string, kind: string, notes: string)

  /**
   * A stored record. `kind` is the source's `type` field; `date` is the text
   * of the date input, kept as given. A new record has no `updatedAt`.
   */
  datatype HealthRecord = HealthRecord(
    id: int, date: string, kind: string, notes: string, createdAt: int, updatedAt: Option<int>)

  function IdOf(r: HealthRecord): int {
    r.id
  }

  /** The record `handleAddHealthRecord` builds at instant `now`. */
  function NewRecord(form: RecordForm, now: int): HealthRecord {
    HealthRecord(now, form.date, form.kind, Trim(form.notes), now, None)
  }

  /** A new record keeps date and type as given, trims the notes, and is stamped only with `createdAt`. */
  lemma NewRecordFields(form: RecordForm, now: int)
    ensures var r := NewRecord(form, now);
      && r.id == now && r.createdAt == now && r.updatedAt.None?
      && r.date == form.date && r.kind == form.kind
      && IsTrimmed(r.notes) && (AllWhiteSpace(form.notes) <==> r.notes == [])
  {
    TrimCutsOnlyWhiteSpace(form.notes);
    BlankIffAllWhiteSpace(form.notes);
  }

  /**
   * `handleAddHealthRecord`: an empty date is refused first, then an empty
   * type; otherwise the record is appended to the loaded list (empty when the
   * key is absent) and the whole list is saved. A refused save reports the
   * failure and leaves the stored list as it was.
   */
  method AddHealthRecord(store: Store<HealthRecord>, form: RecordForm, now: int, accepted: bool)
    returns (r: Result<HealthRecord, string>)
    modifies store
    ensures form.date == [] ==> r == Failure(DateRequired) && store.db == old(store.db)
    ensures form.date != [] && form.kind == [] ==> r == Failure(TypeRequired) && store.db == old(store.db)
    ensures form.date != [] && form.kind != [] && !accepted ==>
              r == Failure(SaveFailed) && store.db == old(store.db)
    ensures form.date != [] && form.kind != [] && accepted ==>
              && r == Success(NewRecord(form, now))
              && store.db == old(store.db)[Key := old(store.List(Key)) + [NewRecord(form, now)]]
  {
    if form.date == [] {
      return Failure(DateRequired);
    }
    if form.kind == [] {
      return Failure(TypeRequired);
    }
    var record := NewRecord(form, now);
    var records := store.List(Key);
    records := records + [record];
    var ok := store.Save(Key, records, accepted);
    if ok {
      r := Success(record);
    } else {
      r := Failure(SaveFailed);
    }
  }

  /**
   * The display order on parsed dates: later dates first. A date that does not
   * parse (`None`, the source's NaN) goes after every date that does.
   */
  predicate NewerOrSame(a: Option<int>, b: Option<int>) {
    match a
    case Some(x) => b.None? || x >= b.value
    case None => b.None?
  }

  /** The comparator of the display sort, `new Date(b.date) - new Date(a.date)`, given the date parser. */
  function NewestFirst(parse: string -> Option<int>): (HealthRecord, HealthRecord) -> bool {
    (a: HealthRecord, b: HealthRecord) => NewerOrSame(parse(a.date), parse(b.date))
  }

  lemma NewestFirstIsTotalPreorder(parse: string -> Option<int>)
    ensures TotalPreorder(NewestFirst(parse))
  {
    var le := NewestFirst(parse);
    forall x, y ensures le(x, y) || le(y, x) {
      assert le(x, y) == NewerOrSame(parse(x.date), parse(y.date));
      assert le(y, x) == NewerOrSame(parse(y.date), parse(x.date));
    }
    forall x, y, z | le(x, y) && le(y, z) ensures le(x, z) {
      assert NewerOrSame(parse(x.date), parse(y.date)) && NewerOrSame(parse(y.date), parse(z.date));
      assert le(x, z) == NewerOrSame(parse(x.date), parse(z.date));
    }
  }

  /**
   * `loadHealthRecords`: the loaded list sorted newest first for display. It
   * holds exactly the stored records, and nothing is written back: the store is
   * not among what this method may change.
   */
  method DisplayOrder(store: Store<HealthRecord>, parse: string -> Option<int>) returns (shown: seq<HealthRecord>)
    ensures multiset(shown) == multiset(store.List(Key))
    ensures forall i, j :: 0 <= i < j < |shown| ==> NewerOrSame(parse(shown[i].date), parse(shown[j].date))
  {
    var records := store.List(Key);
    NewestFirstIsTotalPreorder(parse);
    shown := SortedCopy(records, NewestFirst(parse));
  }

  /**
   * `handleEditHealthRecord`: loads the list and finds the record; an id that
   * is not there leaves the form as it was (`None`). Nothing is written.
   */
  method BeginEdit(store: Store<HealthRecord>, id: int) returns (session: Option<EditSession<HealthRecord>>)
    ensures session.None? <==> !HasId(store.List(Key), IdOf, id)
    ensures session.Some? ==>
              && session.value.loaded == store.List(Key)
              && session.value.record == store.List(Key)[FirstIndexOf(store.List(Key), IdOf, id).value]
              && session.value.record.id == id
  {
    var records := store.List(Key);
    var found := FindById(records, IdOf, id);
    if found.Some? {
      session := Some(EditSession(records, found.value));
    } else {
      session := None;
    }
  }

  /** The record the edit form's submit handler builds from the record found at the click. */
  function EditedRecord(original: HealthRecord, form: RecordForm, now: int): HealthRecord {
    original.(date := form.date, kind := form.kind, notes := Trim(form.notes), updatedAt := Some(now))
  }

  /** An edit keeps id and `createdAt`, takes date and type as given, trims the notes and adds `updatedAt`. */
  lemma EditedRecordFields(original: HealthRecord, form: RecordForm, now: int)
    ensures var r := EditedRecord(original, form, now);
      && r.id == original.id && r.createdAt == original.createdAt && r.updatedAt == Some(now)
      && r.date == form.date && r.kind == form.kind && IsTrimmed(r.notes)
  {
    TrimCutsOnlyWhiteSpace(form.notes);
  }

  /**
   * The edit form's submit handler, as written: the edited record replaces the
   * first entry with its id in the list loaded at the click, and that list is
   * saved whole, whatever the store holds now. Neither field is validated on
   * this path, and a refused save is silent.
   */
  method SubmitEdit(store: Store<HealthRecord>, session: EditSession<HealthRecord>, form: RecordForm,
                    now: int, accepted: bool)
    returns (ok: bool)
    modifies store
    ensures ok == accepted
    ensures store.db == Saved(old(store.db), Key,
                              ReplaceFirst(session.loaded, IdOf, EditedRecord(session.record, form, now)), accepted)
  {
    var updated := EditedRecord(session.record, form, now);
    var records := session.loaded;
    var index := FirstIndexOf(records, IdOf, session.record.id);
    if index.Some? {
      records := records[index.value := updated];
    }
    ok := store.Save(Key, records, accepted);
  }

  /**
   * Submitting an edit as written puts back every other record of the list
   * loaded at the click, including one deleted from the store in between.
   */
  lemma StaleEditRestoresDeleted(db: Db<HealthRecord>, session: EditSession<HealthRecord>, form: RecordForm,
                                 now: int, other: HealthRecord)
    requires other in session.loaded && other.id != session.record.id
    requires other !in LoadOrEmpty(db, Key)
    ensures other in LoadOrEmpty(Saved(db, Key, ReplaceFirst(session.loaded, IdOf, EditedRecord(session.record, form, now)), true), Key)
  {
    ReplaceFirstKeepsOthers(session.loaded, IdOf, EditedRecord(session.record, form, now), other);
  }

  /**
   * The edit as intended: reload the list at submission, apply the form to the
   * record stored now, and write it at that record's index. A record deleted
   * since the click is left deleted and nothing is written.
   */
  method SubmitEditReloaded(store: Store<HealthRecord>, id: int, form: RecordForm, now: int, accepted: bool)
    returns (ok: bool)
    modifies store
    ensures ok == (accepted && HasId(old(store.List(Key)), IdOf, id))
    ensures !HasId(old(store.List(Key)), IdOf, id) ==> store.db == old(store.db)
    ensures HasId(old(store.List(Key)), IdOf, id) ==>
              var updated := EditedRecord(FindById(old(store.List(Key)), IdOf, id).value, form, now);
              store.db == Saved(old(store.db), Key, ReplaceFirst(old(store.List(Key)), IdOf, updated), accepted)
  {
    var records := store.List(Key);
    var index := FirstIndexOf(records, IdOf, id);
    if index.None? {
      return false;
    }
    var updated := EditedRecord(records[index.value], form, now);
    records := records[index.value := updated];
    ok := store.Save(Key, records, accepted);
  }

  /** The reloaded edit stores nothing but the records already stored and the edited one. */
  lemma ReloadedEditAddsNothing(db: Db<HealthRecord>, id: int, form: RecordForm, now: int, y: HealthRecord)
    requires HasId(LoadOrEmpty(db, Key), IdOf, id)
    ensures var updated := EditedRecord(FindById(LoadOrEmpty(db, Key), IdOf, id).value, form, now);
      y in LoadOrEmpty(Saved(db, Key, ReplaceFirst(LoadOrEmpty(db, Key), IdOf, updated), true), Key) ==>
        y == updated || y in LoadOrEmpty(db, Key)
  {
    var updated := EditedRecord(FindById(LoadOrEmpty(db, Key), IdOf, id).value, form, now);
    if y in ReplaceFirst(LoadOrEmpty(db, Key), IdOf, updated) {
      ReplaceFirstAddsOnly(LoadOrEmpty(db, Key), IdOf, updated, y);
    }
  }

  /**
   * `handleDeleteHealthRecord`: when the user confirms, every record with the
   * id is filtered out of the loaded list and the rest is saved in its order.
   */
  method DeleteHealthRecord(store: Store<HealthRecord>, id: int, confirmed: bool, accepted: bool) returns (ok: bool)
    modifies store
    ensures ok == (confirmed && accepted)
    ensures store.db == if confirmed then Saved(old(store.db), Key, Without(old(store.List(Key)), IdOf, id), accepted)
                        else old(store.db)
  {
    ok := false;
    if confirmed {
      var records := store.List(Key);
      var updatedRecords := Without(records, IdOf, id);
      ok := store.Save(Key, updatedRecords, accepted);
    }
  }

  /** `word.charAt(0).toUpperCase() + word.slice(1)`. */
  function Capitalize(word: string): string {
    if word == [] then [] else [ToUpper(word[0])] + word[1..]
  }

  /** `.map(Capitalize)` over the pieces. */
  function CapitalizeAll(words: seq<string>): (r: seq<string>)
    ensures |r| == |words|
  {
    if words == [] then [] else [Capitalize(words[0])] + CapitalizeAll(words[1..])
  }

  /** `formatRecordType`: "annual-checkup" reads "Annual Checkup". */
  function FormatRecordType(kind: string): string {
    Join(CapitalizeAll(Split(kind, '-')), ' ')
  }

  /** The character `formatRecordType` puts at position `i`: a space for a dash, the upper case at a word start. */
  function TitleChar(kind: string, i: nat): char
    requires i < |kind|
  {
    if kind[i] == '-' then ' '
    else if i == 0 || kind[i - 1] == '-' then ToUpper(kind[i])
    else kind[i]
  }

  /** The same formatting with the first piece left as it is (what follows the first character of a word). */
  function FormatAfterFirst(kind: string): string {
    var words := Split(kind, '-');
    Join([words[0]] + CapitalizeAll(words[1..]), ' ')
  }

  /** `Join` of pieces whose first piece starts with `c` starts with `c`. */
  lemma JoinConsChar(c: char, w: string, rest: seq<string>)
    ensures Join([[c] + w] + rest, ' ') == [c] + Join([w] + rest, ' ')
  {
    if rest != [] {
      assert ([[c] + w] + rest)[1..] == rest == ([w] + rest)[1..];
    }
  }

  lemma {:induction false} FormatRecordTypeAtBoth(kind: string)
    ensures |FormatRecordType(kind)| == |kind| && |FormatAfterFirst(kind)| == |kind|
    ensures forall i :: 0 <= i < |kind| ==> FormatRecordType(kind)[i] == TitleChar(kind, i)
    ensures forall i :: 0 <= i < |kind| ==>
              FormatAfterFirst(kind)[i] == if i == 0 && kind[0] != '-' then kind[0] else TitleChar(kind, i)
    decreases |kind|
  {
    if kind != [] {
      var t := kind[1..];
      FormatRecordTypeAtBoth(t);
      var words := Split(t, '-');
      if kind[0] == '-' {
        assert Split(kind, '-') == [[]] + words;
        assert CapitalizeAll([[]] + words) == [[]] + CapitalizeAll(words);
        assert FormatRecordType(kind) == [' '] + FormatRecordType(t);
        assert FormatAfterFirst(kind) == [' '] + FormatRecordType(t);
      } else {
        assert Split(kind, '-') == [[kind[0]] + words[0]] + words[1..];
        assert CapitalizeAll(Split(kind, '-')) == [[ToUpper(kind[0])] + words[0]] + CapitalizeAll(words[1..]);
        JoinConsChar(ToUpper(kind[0]), words[0], CapitalizeAll(words[1..]));
        JoinConsChar(kind[0], words[0], CapitalizeAll(words[1..]));
        assert FormatRecordType(kind) == [ToUpper(kind[0])] + FormatAfterFirst(t);
        assert FormatAfterFirst(kind) == [kind[0]] + FormatAfterFirst(t);
      }
    }
  }

  /**
   * `formatRecordType` keeps the length, turns every dash into a space and
   * upper-cases exactly the first character of each dash-separated word.
   */
  lemma FormatRecordTypeAt(kind: string)
    ensures |FormatRecordType(kind)| == |kind|
    ensures forall i :: 0 <= i < |kind| ==> FormatRecordType(kind)[i] == TitleChar(kind, i)
  {
    FormatRecordTypeAtBoth(kind);
  }

  /**
   * For a type without spaces the words survive: splitting the formatted text
   * on spaces gives the capitalized dash-separated words, one for one.
   */
  lemma FormatRecordTypeWords(kind: string)
    requires Free(kind, ' ')
    ensures Split(FormatRecordType(kind), ' ') == CapitalizeAll(Split(kind, '-'))
    ensures |Split(FormatRecordType(kind), ' ')| == |Split(kind, '-')|
  {
    var words := Split(kind, '-');
    JoinSplit(kind, '-');
    forall k | 0 <= k < |words| ensures Free(words[k], ' ') {
      SplitPiecesFree(kind, '-', ' ', k);
    }
    CapitalizeAllFree(words);
    SplitJoin(CapitalizeAll(words), ' ');
  }

  /** A piece of a split holds only characters of the split string. */
  lemma {:induction false} SplitPiecesFree(s: string, sep: char, c: char, k: nat)
    requires Free(s, c) && k < |Split(s, sep)|
    ensures Free(Split(s, sep)[k], c)
    decreases |s|
  {
    if s != [] {
      var rest := Split(s[1..], sep);
      forall k' | 0 <= k' < |rest| ensures Free(rest[k'], c) {
        SplitPiecesFree(s[1..], sep, c, k');
      }
    }
  }

  /** Capitalizing adds no space to space-free words. */
  lemma {:induction false} CapitalizeAllFree(words: seq<string>)
    requires forall k :: 0 <= k < |words| ==> Free(words[k], ' ')
    ensures forall k :: 0 <= k < |words| ==> Free(CapitalizeAll(words)[k], ' ')
  {
    if words != [] {
      CapitalizeAllFree(words[1..]);
      assert Free(words[0], ' ');
    }
  }

  /** The classes of the type badge, `styles` in `getTypeStyles`. */
  const Styles: map<string, string> := map[
    "vaccination" := "bg-green-100 text-green-800",
    "checkup" := "bg-blue-100 text-blue-800",
    "medication" := "bg-yellow-100 text-yellow-800",
    "surgery" := "bg-red-100 text-red-800",
    "other" := "bg-gray-100 text-gray-800"]

  /** The property names every JavaScript object inherits from `Object.prototype`; each holds a truthy value. */
  const ObjectPrototypeMembers: set<string> := {
    "constructor", "hasOwnProperty", "isPrototypeOf", "propertyIsEnumerable", "toString",
    "toLocaleString", "valueOf", "__proto__", "__defineGetter__", "__defineSetter__",
    "__lookupGetter__", "__lookupSetter__"}

  /** What `styles[type] || styles.other` evaluates to: a class list, or an inherited member of the object. */
  datatype StyleValue = ClassList(classes: string) | InheritedMember(name: string)

  /**
   * `getTypeStyles` as written: the property lookup also finds the members the
   * `styles` object inherits, so a type named like one of them yields that
   * member instead of a class list.
   */
  function TypeStylesAsWritten(kind: string): StyleValue {
    if kind in Styles then ClassList(Styles[kind])
    else if kind in ObjectPrototypeMembers then InheritedMember(kind)
    else ClassList(Styles["other"])
  }

  /** `getTypeStyles` as intended: the own entry for a known type, the `other` entry for any other string. */
  function GetTypeStyles(kind: string): (classes: string)
    ensures classes in Styles.Values
    ensures kind in Styles ==> classes == Styles[kind]
    ensures kind !in Styles ==> classes == Styles["other"]
  {
    if kind in Styles then Styles[kind] else Styles["other"]
  }

  /** The two lookups agree on every string that is not an inherited member's name. */
  lemma TypeStylesAgreeOffPrototype(kind: string)
    requires kind !in ObjectPrototypeMembers
    ensures TypeStylesAsWritten(kind) == ClassList(GetTypeStyles(kind))
  {
  }

  /** The type "constructor" gets the `Object` function, not the `other` classes. */
  lemma TypeStylesConstructorCounterexample()
    ensures TypeStylesAsWritten("constructor") == InheritedMember("constructor")
    ensures GetTypeStyles("constructor") == "bg-gray-100 text-gray-800"
  {
    assert "constructor" !in Styles;
  }

  /** Each of the five known types gets a badge of its own. */
  lemma KnownTypesHaveDistinctStyles(a: string, b: string)
    requires a in Styles && b in Styles && a != b
    ensures GetTypeStyles(a) != GetTypeStyles(b)
  {
  }
}

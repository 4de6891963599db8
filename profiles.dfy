/**
 * Pet profiles, stored as one list under the key "pet_profiles": adding a
 * profile from the form, editing one in place, and deleting one. The photo is
 * the data URL the file reader produced, or `None` when no file was chosen.
 */
module Profiles {
  import opened Wrappers
  import opened Text
  import opened Storage
  import opened Lists

  const Key := "pet_profiles"
  const NameRequired := "Please enter your pet's name"
  const SaveFailed := "Failed to save pet profile"
  const UpdateFailed := "Failed to update pet profile"

  /** The text fields of the profile form, as `FormData` returns them. */
  datatype ProfileForm = ProfileForm(
    name: string, breed: string, age: string, weight: string,
    medicalHistory: string, vaccinations: string, notes: string)

  /** A stored profile; `createdAt` and `updatedAt` are instants in milliseconds. */
  datatype Profile = Profile(
    id: int, name: string, breed: string, age: string, weight: string,
    photo: Option<string>, medicalHistory: string, vaccinations: string, notes: string,
    createdAt: int, updatedAt: int)

  function IdOf(p: Profile): int {
    p.id
  }

  /** Every text field of the profile is trimmed. */
  predicate TextTrimmed(p: Profile) {
    && IsTrimmed(p.name) && IsTrimmed(p.breed) && IsTrimmed(p.age) && IsTrimmed(p.weight)
    && IsTrimmed(p.medicalHistory) && IsTrimmed(p.vaccinations) && IsTrimmed(p.notes)
  }

  /** The profile `saveProfile` builds from the form at instant `now`. */
  function NewProfile(form: ProfileForm, photo: Option<string>, now: int): Profile {
    Profile(now, Trim(form.name), Trim(form.breed), Trim(form.age), Trim(form.weight),
            photo, Trim(form.medicalHistory), Trim(form.vaccinations), Trim(form.notes),
            now, now)
  }

  /**
   * A new profile takes its id and both time stamps from the clock, keeps the
   * photo it was given (none when no file was chosen), has every text field
   * trimmed, and has a non-empty name whenever the form passed validation.
   */
  lemma NewProfileFields(form: ProfileForm, photo: Option<string>, now: int)
    ensures var p := NewProfile(form, photo, now);
      && p.id == now && p.createdAt == now && p.updatedAt == now
      && p.photo == photo
      && TextTrimmed(p)
      && (!IsBlank(form.name) <==> p.name != [])
  {
    TrimCutsOnlyWhiteSpace(form.name);
    TrimCutsOnlyWhiteSpace(form.breed);
    TrimCutsOnlyWhiteSpace(form.age);
    TrimCutsOnlyWhiteSpace(form.weight);
    TrimCutsOnlyWhiteSpace(form.medicalHistory);
    TrimCutsOnlyWhiteSpace(form.vaccinations);
    TrimCutsOnlyWhiteSpace(form.notes);
  }

  /** Ids stay unique when the clock has moved past every stored id, as the single-threaded page assumes. */
  lemma AddKeepsIdsUnique(profiles: seq<Profile>, form: ProfileForm, photo: Option<string>, now: int)
    requires UniqueIds(profiles, IdOf)
    requires forall k :: 0 <= k < |profiles| ==> profiles[k].id < now
    ensures UniqueIds(profiles + [NewProfile(form, photo, now)], IdOf)
  {
    AppendKeepsUniqueIds(profiles, IdOf, NewProfile(form, photo, now));
  }

  /**
   * `handleAddProfile` followed by `saveProfile`: a blank name is refused and
   * nothing is stored; otherwise the new profile is appended to the loaded list
   * (empty when the key is absent) and the whole list is saved. A refused save
   * reports the failure and leaves the stored list as it was.
   */
  method AddProfile(store: Store<Profile>, form: ProfileForm, photo: Option<string>, now: int, accepted: bool)
    returns (r: Result<Profile, string>)
    modifies store
    ensures IsBlank(form.name) ==> r == Failure(NameRequired) && store.db == old(store.db)
    ensures !IsBlank(form.name) && !accepted ==> r == Failure(SaveFailed) && store.db == old(store.db)
    ensures !IsBlank(form.name) && accepted ==>
              && r == Success(NewProfile(form, photo, now))
              && store.db == old(store.db)[Key := old(store.List(Key)) + [NewProfile(form, photo, now)]]
  {
    if IsBlank(form.name) {
      return Failure(NameRequired);
    }
    var profile := NewProfile(form, photo, now);
    var profiles := store.List(Key);
    profiles := profiles + [profile];
    var ok := store.Save(Key, profiles, accepted);
    if ok {
      r := Success(profile);
    } else {
      r := Failure(SaveFailed);
    }
  }

  /**
   * `handleEditProfile`: loads the list and finds the profile; an id that is
   * not there leaves the form as it was (`None`). Nothing is written.
   */
  method BeginEdit(store: Store<Profile>, id: int) returns (session: Option<EditSession<Profile>>)
    ensures session.None? <==> !HasId(store.List(Key), IdOf, id)
    ensures session.Some? ==>
              && session.value.loaded == store.List(Key)
              && session.value.record == store.List(Key)[FirstIndexOf(store.List(Key), IdOf, id).value]
              && session.value.record.id == id
  {
    var profiles := store.List(Key);
    var found := FindById(profiles, IdOf, id);
    if found.Some? {
      session := Some(EditSession(profiles, found.value));
    } else {
      session := None;
    }
  }

  /**
   * The profile the edit form's submit handler builds: the profile found at
   * the click with the trimmed text fields of the form and a new `updatedAt`;
   * the photo is replaced only when a new file was chosen.
   */
  function EditedProfile(original: Profile, form: ProfileForm, newPhoto: Option<string>, now: int): Profile {
    original.(
      name := Trim(form.name), breed := Trim(form.breed), age := Trim(form.age), weight := Trim(form.weight),
      medicalHistory := Trim(form.medicalHistory), vaccinations := Trim(form.vaccinations),
      notes := Trim(form.notes), updatedAt := now,
      photo := if newPhoto.Some? then newPhoto else original.photo)
  }

  /**
   * An edit keeps the id, the creation stamp and (absent a new file) the photo,
   * trims every text field and stamps `updatedAt`; it never removes a photo.
   */
  lemma EditedProfileFields(original: Profile, form: ProfileForm, newPhoto: Option<string>, now: int)
    ensures var p := EditedProfile(original, form, newPhoto, now);
      && p.id == original.id && p.createdAt == original.createdAt && p.updatedAt == now
      && (newPhoto.None? ==> p.photo == original.photo)
      && (newPhoto.Some? ==> p.photo == newPhoto)
      && (original.photo.Some? ==> p.photo.Some?)
      && TextTrimmed(p)
  {
    TrimCutsOnlyWhiteSpace(form.name);
    TrimCutsOnlyWhiteSpace(form.breed);
    TrimCutsOnlyWhiteSpace(form.age);
    TrimCutsOnlyWhiteSpace(form.weight);
    TrimCutsOnlyWhiteSpace(form.medicalHistory);
    TrimCutsOnlyWhiteSpace(form.vaccinations);
    TrimCutsOnlyWhiteSpace(form.notes);
  }

  /**
   * The edit form's submit handler with `saveUpdatedProfile`, as written: the
   * edited profile replaces the first entry with its id in the list loaded at
   * the click, and that list is saved whole, whatever the store holds now. The
   * name is not validated on this path. A refused save reports the failure and
   * leaves the store as it was.
   */
  method SubmitEdit(store: Store<Profile>, session: EditSession<Profile>, form: ProfileForm,
                    newPhoto: Option<string>, now: int, accepted: bool)
    returns (r: Result<Profile, string>)
    modifies store
    ensures var updated := EditedProfile(session.record, form, newPhoto, now);
      && r == (if accepted then Success(updated) else Failure(UpdateFailed))
      && store.db == Saved(old(store.db), Key, ReplaceFirst(session.loaded, IdOf, updated), accepted)
  {
    var updated := EditedProfile(session.record, form, newPhoto, now);
    var profiles := session.loaded;
    var index := FirstIndexOf(profiles, IdOf, updated.id);
    if index.Some? {
      profiles := profiles[index.value := updated];
    }
    var ok := store.Save(Key, profiles, accepted);
    if ok {
      r := Success(updated);
    } else {
      r := Failure(UpdateFailed);
    }
  }

  /**
   * Submitting an edit as written puts back every other profile of the list
   * loaded at the click, including one deleted from the store in between.
   */
  lemma StaleEditRestoresDeleted(db: Db<Profile>, session: EditSession<Profile>, form: ProfileForm,
                                 newPhoto: Option<string>, now: int, other: Profile)
    requires other in session.loaded && other.id != session.record.id
    requires other !in LoadOrEmpty(db, Key)
    ensures var updated := EditedProfile(session.record, form, newPhoto, now);
      other in LoadOrEmpty(Saved(db, Key, ReplaceFirst(session.loaded, IdOf, updated), true), Key)
  {
    var updated := EditedProfile(session.record, form, newPhoto, now);
    ReplaceFirstKeepsOthers(session.loaded, IdOf, updated, other);
  }

  /**
   * The edit as intended: reload the list at submission, apply the form to the
   * profile stored now, and write it at that profile's index. A profile deleted
   * since the click is reported as a failed update and nothing is written.
   */
  method SubmitEditReloaded(store: Store<Profile>, id: int, form: ProfileForm,
                            newPhoto: Option<string>, now: int, accepted: bool)
    returns (r: Result<Profile, string>)
    modifies store
    ensures !HasId(old(store.List(Key)), IdOf, id) ==> r == Failure(UpdateFailed) && store.db == old(store.db)
    ensures HasId(old(store.List(Key)), IdOf, id) ==>
              var current := FindById(old(store.List(Key)), IdOf, id).value;
              var updated := EditedProfile(current, form, newPhoto, now);
              && r == (if accepted then Success(updated) else Failure(UpdateFailed))
              && store.db == Saved(old(store.db), Key, ReplaceFirst(old(store.List(Key)), IdOf, updated), accepted)
  {
    var profiles := store.List(Key);
    var index := FirstIndexOf(profiles, IdOf, id);
    if index.None? {
      return Failure(UpdateFailed);
    }
    var updated := EditedProfile(profiles[index.value], form, newPhoto, now);
    profiles := profiles[index.value := updated];
    var ok := store.Save(Key, profiles, accepted);
    if ok {
      r := Success(updated);
    } else {
      r := Failure(UpdateFailed);
    }
  }

  /** The reloaded edit stores nothing but the profiles already stored and the edited one. */
  lemma ReloadedEditAddsNothing(db: Db<Profile>, id: int, form: ProfileForm, newPhoto: Option<string>,
                                now: int, y: Profile)
    requires HasId(LoadOrEmpty(db, Key), IdOf, id)
    ensures var current := FindById(LoadOrEmpty(db, Key), IdOf, id).value;
      var updated := EditedProfile(current, form, newPhoto, now);
      y in LoadOrEmpty(Saved(db, Key, ReplaceFirst(LoadOrEmpty(db, Key), IdOf, updated), true), Key) ==>
        y == updated || y in LoadOrEmpty(db, Key)
  {
    var current := FindById(LoadOrEmpty(db, Key), IdOf, id).value;
    var updated := EditedProfile(current, form, newPhoto, now);
    if y in ReplaceFirst(LoadOrEmpty(db, Key), IdOf, updated) {
      ReplaceFirstAddsOnly(LoadOrEmpty(db, Key), IdOf, updated, y);
    }
  }

  /**
   * `handleDeleteProfile`: when the user confirms, every profile with the id is
   * filtered out of the loaded list and the rest is saved in its order.
   */
  method DeleteProfile(store: Store<Profile>, id: int, confirmed: bool, accepted: bool) returns (ok: bool)
    modifies store
    ensures ok == (confirmed && accepted)
    ensures store.db == if confirmed then Saved(old(store.db), Key, Without(old(store.List(Key)), IdOf, id), accepted)
                        else old(store.db)
  {
    ok := false;
    if confirmed {
      var profiles := store.List(Key);
      var updatedProfiles := Without(profiles, IdOf, id);
      ok := store.Save(Key, updatedProfiles, accepted);
    }
  }
}

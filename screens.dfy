/** The screens' state. Each screen keeps its lists in state variables that its handlers replace
    wholesale with the result of a list operation, and then saves the new list to the store. The
    system's alarm slots are a class of their own. */
module Screens {
  import opened Base
  import opened Text
  import opened Calendar
  import opened Records
  import opened Images
  import opened Directory
  import opened Visits
  import opened Reminders
  import opened Persistence

  /** The pending reminders, one slot per visitor id. */
  class Alarms {
    var pending: map<string, Reminder>

    constructor()
      ensures pending == map[]
    {
      pending := map[];
    }

    /** `scheduleReminder`, whose failures the callers swallow. `today` is the date at the time
        of scheduling. */
    method ScheduleFor(v: Visitor, today: Date)
      requires today.Valid()
      modifies this
      ensures pending == Schedule(old(pending), v, today)
    {
      pending := Schedule(pending, v, today);
    }
  }

  /* ---------------- what loading writes back ---------------- */

  /** The store after the visitors screen's load: each list is written back only when the image
      migration changed it. */
  function VisitorsLoadWrites(codec: Codec, fs: FileStore, prefs: map<string, string>): (r: map<string, string>)
    ensures forall k :: k != VisitorsKey && k != SavedPeopleKey ==> (k in r <==> k in prefs) && (k in prefs ==> r[k] == prefs[k])
    ensures (MigrateVisitors(fs, LoadedVisitors(codec, prefs)) == LoadedVisitors(codec, prefs) &&
             MigrateSavedPeople(fs, LoadedSavedPeople(codec, prefs)) == LoadedSavedPeople(codec, prefs)) ==> r == prefs
  {
    var vs := LoadedVisitors(codec, prefs);
    var ps := LoadedSavedPeople(codec, prefs);
    var p1 := if MigrateVisitors(fs, vs) != vs then prefs[VisitorsKey := codec.encodeVisitors(MigrateVisitors(fs, vs))] else prefs;
    if MigrateSavedPeople(fs, ps) != ps then p1[SavedPeopleKey := codec.encodeSavedPeople(MigrateSavedPeople(fs, ps))] else p1
  }

  /** After a load the store holds the migrated lists, and a second load writes nothing. */
  lemma VisitorsLoadSettles(codec: Codec, fs: FileStore, prefs: map<string, string>)
    requires Lawful(codec) && CopiesAreOwn(fs)
    ensures var after := VisitorsLoadWrites(codec, fs, prefs);
      && LoadedVisitors(codec, after) == MigrateVisitors(fs, LoadedVisitors(codec, prefs))
      && LoadedSavedPeople(codec, after) == MigrateSavedPeople(fs, LoadedSavedPeople(codec, prefs))
      && VisitorsLoadWrites(codec, fs, after) == after
  {
    var vs := LoadedVisitors(codec, prefs);
    var ps := LoadedSavedPeople(codec, prefs);
    var mv, mp := MigrateVisitors(fs, vs), MigrateSavedPeople(fs, ps);
    assert codec.decodeVisitors(codec.encodeVisitors(mv)) == Some(mv);
    assert codec.decodeSavedPeople(codec.encodeSavedPeople(mp)) == Some(mp);
    var after := VisitorsLoadWrites(codec, fs, prefs);
    assert LoadedVisitors(codec, after) == mv;
    assert LoadedSavedPeople(codec, after) == mp;
    MigrateVisitorsIdempotent(fs, vs);
    MigrateSavedPeopleIdempotent(fs, ps);
  }

  /** The store after the directory's load: the built-in list is stored when nothing is. */
  function DirectoryLoadWrites(codec: Codec, prefs: map<string, string>): (r: map<string, string>)
    ensures forall k :: k != ContactsKey ==> (k in r <==> k in prefs) && (k in prefs ==> r[k] == prefs[k])
    ensures |LoadedContacts(codec, prefs)| > 0 ==> r == prefs
    ensures |LoadedContacts(codec, prefs)| == 0 ==> ContactsKey in r && r[ContactsKey] == codec.encodeContacts(BuiltInContacts)
  {
    if |LoadedContacts(codec, prefs)| == 0 then prefs[ContactsKey := codec.encodeContacts(BuiltInContacts)] else prefs
  }

  /** Seeding happens once: the next load finds the built-in list and writes nothing. */
  lemma DirectoryLoadSettles(codec: Codec, prefs: map<string, string>)
    requires Lawful(codec)
    ensures var after := DirectoryLoadWrites(codec, prefs);
      && LoadedContacts(codec, after) == InitialDirectory(LoadedContacts(codec, prefs))
      && DirectoryLoadWrites(codec, after) == after
  {
    assert codec.decodeContacts(codec.encodeContacts(BuiltInContacts)) == Some(BuiltInContacts);
  }

  /** The store after the My-ID screen's load: the profile is written back only when its ID
      reference was migrated. */
  function MyIdLoadWrites(codec: Codec, fs: FileStore, prefs: map<string, string>): (r: map<string, string>)
    ensures forall k :: k != ProfileKey ==> (k in r <==> k in prefs) && (k in prefs ==> r[k] == prefs[k])
    ensures MigrateProfile(fs, LoadedProfile(codec, prefs)) == LoadedProfile(codec, prefs) ==> r == prefs
  {
    var p := LoadedProfile(codec, prefs);
    if MigrateProfile(fs, p) != p then prefs[ProfileKey := codec.encodeProfile(MigrateProfile(fs, p))] else prefs
  }

  lemma MyIdLoadSettles(codec: Codec, fs: FileStore, prefs: map<string, string>)
    requires Lawful(codec) && CopiesAreOwn(fs)
    ensures var after := MyIdLoadWrites(codec, fs, prefs);
      && LoadedProfile(codec, after) == MigrateProfile(fs, LoadedProfile(codec, prefs))
      && MyIdLoadWrites(codec, fs, after) == after
  {
    var p := LoadedProfile(codec, prefs);
    var m := MigrateProfile(fs, p);
    assert codec.decodeProfile(codec.encodeProfile(m)) == Some(m);
    MigratedMyIdIdempotent(fs, p.myIdUri);
    assert MigrateProfile(fs, m) == m;
  }

  /** The profile a pick of `uri` stores: the private copy's reference, "" when the copy failed. */
  function PickedProfile(fs: FileStore, p: Profile, uri: string): (r: Profile)
    ensures r.name == p.name && r.apartment == p.apartment && r.profilePhotoUri == p.profilePhotoUri
    ensures fs.copy(uri, IdImages).Some? ==> r.myIdUri == fs.copy(uri, IdImages).value
    ensures fs.copy(uri, IdImages).None? ==> r.myIdUri == ""
  {
    p.(myIdUri := fs.copy(uri, IdImages).GetOr(""))
  }

  /** A picked ID image is already private, so the next load migrates nothing and writes nothing. */
  lemma PickedIdSettles(codec: Codec, fs: FileStore, prefs: map<string, string>, p: Profile, uri: string)
    requires Lawful(codec) && CopiesAreOwn(fs)
    ensures var after := prefs[ProfileKey := codec.encodeProfile(PickedProfile(fs, p, uri))];
      && LoadedProfile(codec, after) == PickedProfile(fs, p, uri)
      && MyIdLoadWrites(codec, fs, after) == after
  {
    var q := PickedProfile(fs, p, uri);
    assert codec.decodeProfile(codec.encodeProfile(q)) == Some(q);
    if fs.copy(uri, IdImages).Some? {
      assert fs.isOwn(q.myIdUri);
    } else {
      assert IsBlank(q.myIdUri);
    }
    assert MigrateProfile(fs, q) == q;
  }

  /** The screen's ID reference: none when the stored text is blank. */
  function ShownReference(uri: string): (r: Option<string>)
    ensures r.None? <==> IsBlank(uri)
    ensures r.Some? ==> r.value == uri
  {
    if IsBlank(uri) then None else Some(uri)
  }

  /* ---------------- the visitors screen ---------------- */

  /** The store after an accepted add: the visitors are saved, and the saved people too when the
      add remembered the person. */
  function AddWrites(codec: Codec, prefs: map<string, string>, r: AddOutcome): map<string, string>
    requires r.Added?
  {
    var p1 := prefs[VisitorsKey := codec.encodeVisitors(r.visitors)];
    if r.remembered then p1[SavedPeopleKey := codec.encodeSavedPeople(r.saved)] else p1
  }

  class VisitorsScreen {
    const store: Store
    const alarms: Alarms
    var visitors: seq<Visitor>
    var savedPeople: seq<SavedPerson>
    var profile: Profile

    constructor(store: Store, alarms: Alarms)
      ensures this.store == store && this.alarms == alarms
      ensures visitors == [] && savedPeople == [] && profile == DefaultProfile
    {
      this.store := store;
      this.alarms := alarms;
      visitors := [];
      savedPeople := [];
      profile := DefaultProfile;
    }

    /** The screen's first composition: load, migrate image references, write back what
        changed, and sort the visitors by (date, arrival). */
    method Load(fs: FileStore)
      modifies this, store
      ensures profile == LoadedProfile(store.codec, old(store.prefs))
      ensures visitors == LoadOrder(MigrateVisitors(fs, LoadedVisitors(store.codec, old(store.prefs))))
      ensures savedPeople == MigrateSavedPeople(fs, LoadedSavedPeople(store.codec, old(store.prefs)))
      ensures store.prefs == VisitorsLoadWrites(store.codec, fs, old(store.prefs))
    {
      profile := store.LoadProfile();
      var loadedVisitors := store.LoadVisitors();
      var migratedVisitors := MigrateVisitors(fs, loadedVisitors);
      var loadedSaved := store.LoadSavedPeople();
      var migratedSaved := MigrateSavedPeople(fs, loadedSaved);
      if migratedVisitors != loadedVisitors {
        store.SaveVisitors(migratedVisitors);
      }
      if migratedSaved != loadedSaved {
        store.SaveSavedPeople(migratedSaved);
      }
      visitors := LoadOrder(migratedVisitors);
      savedPeople := migratedSaved;
    }

    /** Save in the add dialog; the outcome says whether the visit was logged. */
    method ConfirmAdd(fs: FileStore, form: AddForm, today: Date, visitorId: string, personId: string) returns (r: AddOutcome)
      requires today.Valid() && TimesValid(form.arrival, form.departure)
      modifies this, store, alarms
      ensures r == AddVisit(fs, old(visitors), old(savedPeople), form, today, visitorId, personId)
      ensures profile == old(profile)
      ensures r.Rejected? ==> visitors == old(visitors) && savedPeople == old(savedPeople)
      ensures r.Rejected? ==> store.prefs == old(store.prefs) && alarms.pending == old(alarms.pending)
      ensures r.Added? ==> visitors == r.visitors && savedPeople == r.saved
      ensures r.Added? ==> store.prefs == AddWrites(store.codec, old(store.prefs), r)
      ensures r.Added? ==> alarms.pending == Schedule(old(alarms.pending), r.visitor, today)
    {
      r := AddVisit(fs, visitors, savedPeople, form, today, visitorId, personId);
      if r.Rejected? {
        return;
      }
      visitors := r.visitors;
      store.SaveVisitors(visitors);
      if r.remembered {
        savedPeople := r.saved;
        store.SaveSavedPeople(savedPeople);
      }
      alarms.ScheduleFor(r.visitor, today);
    }

    /** Save in the edit dialog, for the visit `v` the dialog was opened on; the result is the
        edited visit, or None when the dialog refused to save. */
    method SaveEdit(v: Visitor, form: EditForm, today: Date) returns (edited: Option<Visitor>)
      requires today.Valid() && TimesValid(form.arrival, form.departure)
      modifies this, store, alarms
      ensures edited == EditedVisitor(v, form)
      ensures savedPeople == old(savedPeople) && profile == old(profile)
      ensures edited.None? ==> visitors == old(visitors) && store.prefs == old(store.prefs) && alarms.pending == old(alarms.pending)
      ensures edited.Some? ==> visitors == ReplaceById(old(visitors), edited.value)
      ensures edited.Some? ==> store.prefs == old(store.prefs)[VisitorsKey := store.codec.encodeVisitors(visitors)]
      ensures edited.Some? ==> alarms.pending == Schedule(old(alarms.pending), edited.value, today)
    {
      edited := EditedVisitor(v, form);
      if edited.None? {
        return;
      }
      visitors := ReplaceById(visitors, edited.value);
      store.SaveVisitors(visitors);
      alarms.ScheduleFor(edited.value, today);
    }

    /** Delete from a row or from the edit dialog. The visit's pending reminder stays. */
    method Delete(id: string)
      modifies this, store
      ensures visitors == DeleteById(old(visitors), id)
      ensures savedPeople == old(savedPeople) && profile == old(profile)
      ensures store.prefs == old(store.prefs)[VisitorsKey := store.codec.encodeVisitors(visitors)]
    {
      visitors := DeleteById(visitors, id);
      store.SaveVisitors(visitors);
    }

    /** "Duplicate for tomorrow" on a row; false where the app would fail instead. */
    method DuplicateTomorrow(base: Visitor, newId: string, today: Date) returns (done: bool)
      requires today.Valid()
      modifies this, store, alarms
      ensures savedPeople == old(savedPeople) && profile == old(profile)
      ensures done == DuplicateForTomorrow(old(visitors), base, newId).Some?
      ensures !done ==> visitors == old(visitors) && store.prefs == old(store.prefs) && alarms.pending == old(alarms.pending)
      ensures done ==>
        && visitors == DuplicateForTomorrow(old(visitors), base, newId).value
        && store.prefs == old(store.prefs)[VisitorsKey := store.codec.encodeVisitors(visitors)]
        && alarms.pending == Schedule(old(alarms.pending), visitors[|visitors| - 1], today)
    {
      var r := DuplicateForTomorrow(visitors, base, newId);
      if r.None? {
        return false;
      }
      visitors := r.value;
      store.SaveVisitors(visitors);
      alarms.ScheduleFor(visitors[|visitors| - 1], today);
      return true;
    }

    /** Delete in the saved-people list. */
    method DeletePerson(id: string)
      modifies this, store
      ensures savedPeople == DeleteSavedPerson(old(savedPeople), id)
      ensures visitors == old(visitors) && profile == old(profile)
      ensures store.prefs == old(store.prefs)[SavedPeopleKey := store.codec.encodeSavedPeople(savedPeople)]
    {
      savedPeople := DeleteSavedPerson(savedPeople, id);
      store.SaveSavedPeople(savedPeople);
    }

    /** Save in the edit-saved-visitor dialog. */
    method EditPerson(id: string, newName: string, newImage: Option<string>)
      modifies this, store
      ensures savedPeople == EditSavedPerson(old(savedPeople), id, newName, newImage)
      ensures visitors == old(visitors) && profile == old(profile)
      ensures store.prefs == old(store.prefs)[SavedPeopleKey := store.codec.encodeSavedPeople(savedPeople)]
    {
      savedPeople := EditSavedPerson(savedPeople, id, newName, newImage);
      store.SaveSavedPeople(savedPeople);
    }

    /** The manage dialog's "Done": its working list replaces the saved people. */
    method SaveAllPeople(people: seq<SavedPerson>)
      modifies this, store
      ensures savedPeople == people
      ensures visitors == old(visitors) && profile == old(profile)
      ensures store.prefs == old(store.prefs)[SavedPeopleKey := store.codec.encodeSavedPeople(people)]
    {
      savedPeople := people;
      store.SaveSavedPeople(people);
    }
  }

  /* ---------------- the directory screen ---------------- */

  class DirectoryScreen {
    const store: Store
    var contacts: seq<Contact>

    constructor(store: Store)
      ensures this.store == store && contacts == []
    {
      this.store := store;
      contacts := [];
    }

    /** Load the stored list, seeding the built-in one when nothing is stored. */
    method Load()
      modifies this, store
      ensures contacts == InitialDirectory(LoadedContacts(store.codec, old(store.prefs)))
      ensures store.prefs == DirectoryLoadWrites(store.codec, old(store.prefs))
    {
      var saved := store.LoadContacts();
      if |saved| == 0 {
        store.SaveContacts(BuiltInContacts);
        contacts := BuiltInContacts;
      } else {
        contacts := saved;
      }
    }

    method Add(name: string, phone: string, hours: string, category: string) returns (ok: bool)
      modifies this, store
      ensures ok == AddContact(old(contacts), name, phone, hours, category).Some?
      ensures !ok ==> contacts == old(contacts) && store.prefs == old(store.prefs)
      ensures ok ==> (contacts == AddContact(old(contacts), name, phone, hours, category).value
                      && store.prefs == old(store.prefs)[ContactsKey := store.codec.encodeContacts(contacts)])
    {
      var r := AddContact(contacts, name, phone, hours, category);
      if r.None? {
        return false;
      }
      contacts := r.value;
      store.SaveContacts(contacts);
      return true;
    }

    method Toggle(c: Contact)
      modifies this, store
      ensures contacts == ToggleFavorite(old(contacts), c)
      ensures store.prefs == old(store.prefs)[ContactsKey := store.codec.encodeContacts(contacts)]
    {
      contacts := ToggleFavorite(contacts, c);
      store.SaveContacts(contacts);
    }

    method Edit(original: Contact, name: string, phone: string, hours: string, category: string) returns (ok: bool)
      modifies this, store
      ensures ok == EditContact(old(contacts), original, name, phone, hours, category).Some?
      ensures !ok ==> contacts == old(contacts) && store.prefs == old(store.prefs)
      ensures ok ==> (contacts == EditContact(old(contacts), original, name, phone, hours, category).value
                      && store.prefs == old(store.prefs)[ContactsKey := store.codec.encodeContacts(contacts)])
    {
      var r := EditContact(contacts, original, name, phone, hours, category);
      if r.None? {
        return false;
      }
      contacts := r.value;
      store.SaveContacts(contacts);
      return true;
    }

    method Delete(target: Contact)
      modifies this, store
      ensures contacts == DeleteContact(old(contacts), target)
      ensures store.prefs == old(store.prefs)[ContactsKey := store.codec.encodeContacts(contacts)]
    {
      contacts := DeleteContact(contacts, target);
      store.SaveContacts(contacts);
    }
  }

  /* ---------------- the My-ID screen ---------------- */

  class MyIdScreen {
    const store: Store
    var profile: Profile
    var myIdUri: Option<string>

    constructor(store: Store)
      ensures this.store == store && profile == DefaultProfile && myIdUri.None?
    {
      this.store := store;
      profile := DefaultProfile;
      myIdUri := None;
    }

    /** Load the profile and move a foreign ID image into private storage once. */
    method Load(fs: FileStore)
      modifies this, store
      ensures profile == MigrateProfile(fs, LoadedProfile(store.codec, old(store.prefs)))
      ensures myIdUri == ShownReference(profile.myIdUri)
      ensures store.prefs == MyIdLoadWrites(store.codec, fs, old(store.prefs))
    {
      profile := store.LoadProfile();
      var current := profile.myIdUri;
      var migrated := MigratedMyId(fs, current);
      if migrated != current {
        profile := profile.(myIdUri := migrated);
        store.SaveProfile(profile);
      }
      myIdUri := ShownReference(migrated);
    }

    /** Picking a new ID image: it is copied into private storage, and the copy becomes the
        screen's reference and the profile's stored one. */
    method Pick(fs: FileStore, uri: string)
      modifies this, store
      ensures myIdUri == fs.copy(uri, IdImages)
      ensures profile == PickedProfile(fs, old(profile), uri)
      ensures store.prefs == old(store.prefs)[ProfileKey := store.codec.encodeProfile(profile)]
    {
      var privateUri := fs.copy(uri, IdImages);
      myIdUri := privateUri;
      profile := PickedProfile(fs, profile, uri);
      store.SaveProfile(profile);
    }
  }

  /* ---------------- the dashboard ---------------- */

  class DashboardScreen {
    const store: Store
    var profile: Profile
    var visitors: seq<Visitor>

    constructor(store: Store)
      ensures this.store == store && profile == DefaultProfile && visitors == []
    {
      this.store := store;
      profile := DefaultProfile;
      visitors := [];
    }

    /** Today's visits by arrival; loading writes nothing. */
    method Load(today: Date)
      requires today.Valid()
      modifies this
      ensures profile == LoadedProfile(store.codec, store.prefs)
      ensures visitors == DashboardToday(LoadedVisitors(store.codec, store.prefs), FormatDate(today))
    {
      profile := store.LoadProfile();
      var loaded := store.LoadVisitors();
      visitors := DashboardToday(loaded, FormatDate(today));
    }
  }
}

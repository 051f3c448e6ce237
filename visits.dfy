/** The visitor log: adding, editing, deleting and duplicating visits, the saved people kept for
    reuse, and the today / upcoming / previous views. Every operation returns the new lists; the
    screen that owns them replaces its state with the result and saves it. */
module Visits {
  import opened Base
  import opened Text
  import opened Calendar
  import opened Records
  import opened Images
  import opened Sorting

  /* ---------------- adding a visit ---------------- */

  /** The add dialog's state when Save is pressed. `picked` is the chosen ID image: the private
      copy made when it was picked, or a saved person's reference. The times come from the time
      picker, so they are valid whenever present. */
  datatype AddForm = AddForm(name: string, picked: Option<string>, arrival: Option<Time>, departure: Option<Time>, saveForReuse: bool)

  predicate TimesValid(a: Option<Time>, d: Option<Time>) {
    (a.Some? ==> a.value.Valid()) && (d.Some? ==> d.value.Valid())
  }

  datatype AddOutcome =
    | Rejected
    | Added(visitor: Visitor, visitors: seq<Visitor>, saved: seq<SavedPerson>, remembered: bool)

  /** Some saved person has this name, ignoring case, and exactly this image reference. */
  predicate KnownPerson(saved: seq<SavedPerson>, name: string, image: string) {
    exists i :: 0 <= i < |saved| && EqualsIgnoreCase(saved[i].name, name) && saved[i].idImageUri == image
  }

  /** Appending a person makes them known under every name equal to theirs ignoring case, and
      changes nothing for other names and images. */
  lemma KnownPersonAppend(saved: seq<SavedPerson>, p: SavedPerson, name: string, image: string)
    ensures KnownPerson(saved + [p], name, image) <==>
      KnownPerson(saved, name, image) || (EqualsIgnoreCase(p.name, name) && p.idImageUri == image)
  {
    var s := saved + [p];
    if KnownPerson(s, name, image) && !(EqualsIgnoreCase(p.name, name) && p.idImageUri == image) {
      var i :| 0 <= i < |s| && EqualsIgnoreCase(s[i].name, name) && s[i].idImageUri == image;
      assert i < |saved| && s[i] == saved[i];
    }
    if KnownPerson(saved, name, image) {
      var i :| 0 <= i < |saved| && EqualsIgnoreCase(saved[i].name, name) && saved[i].idImageUri == image;
      assert s[i] == saved[i];
    }
    if EqualsIgnoreCase(p.name, name) && p.idImageUri == image {
      assert s[|saved|] == p;
    }
  }

  /** Save in the add dialog. It is refused when the trimmed name is blank, no image was picked,
      a time is missing, or no private copy of the image can be made. Otherwise one visitor for
      today is appended, and with save-for-reuse on the person is remembered unless an entry with
      the same name (ignoring case) and image already exists. `visitorId` and `personId` are the
      fresh UUIDs. */
  function AddVisit(fs: FileStore, visitors: seq<Visitor>, saved: seq<SavedPerson>, form: AddForm,
                    today: Date, visitorId: string, personId: string): (r: AddOutcome)
    requires today.Valid() && TimesValid(form.arrival, form.departure)
    ensures r.Rejected? <==>
      IsBlank(Trim(form.name)) || form.picked.None? || form.arrival.None? || form.departure.None? ||
      EnsurePrivate(fs, form.picked.value, VisitorImages).None?
    ensures r.Added? ==>
      && r.visitors == visitors + [r.visitor]
      && r.visitor.id == visitorId
      && r.visitor.name == Trim(form.name)
      && Some(r.visitor.idImageUri) == EnsurePrivate(fs, form.picked.value, VisitorImages)
      && r.visitor.arrival == FormatTime(form.arrival.value)
      && r.visitor.departure == FormatTime(form.departure.value)
      && r.visitor.date == FormatDate(today)
    ensures r.Added? ==> (r.remembered <==> form.saveForReuse && !KnownPerson(saved, r.visitor.name, r.visitor.idImageUri))
    ensures r.Added? ==>
      r.saved == if r.remembered then saved + [SavedPerson(personId, r.visitor.name, r.visitor.idImageUri)] else saved
  {
    var n := Trim(form.name);
    if IsBlank(n) || form.picked.None? || form.arrival.None? || form.departure.None? then Rejected
    else
      match EnsurePrivate(fs, form.picked.value, VisitorImages)
      case None => Rejected
      case Some(priv) =>
        var v := Visitor(visitorId, n, priv, FormatTime(form.arrival.value), FormatTime(form.departure.value), FormatDate(today));
        var remember := form.saveForReuse && !KnownPerson(saved, n, priv);
        Added(v, visitors + [v], if remember then saved + [SavedPerson(personId, n, priv)] else saved, remember)
  }

  /** An added visitor's stored times are five characters long and read back as the picked
      times, and its stored date reads back as today. */
  lemma AddedVisitorReadable(fs: FileStore, visitors: seq<Visitor>, saved: seq<SavedPerson>, form: AddForm,
                             today: Date, visitorId: string, personId: string)
    requires today.Valid() && TimesValid(form.arrival, form.departure)
    requires AddVisit(fs, visitors, saved, form, today, visitorId, personId).Added?
    ensures var v := AddVisit(fs, visitors, saved, form, today, visitorId, personId).visitor;
      && |v.arrival| == 5 && ParseTime(v.arrival) == form.arrival
      && |v.departure| == 5 && ParseTime(v.departure) == form.departure
      && ParseDate(v.date) == Some(today)
  {
    ParseFormatTime(form.arrival.value);
    ParseFormatTime(form.departure.value);
    ParseFormatDate(today);
  }

  /** An added visitor has a non-blank name without surrounding whitespace. */
  lemma AddedNameClean(fs: FileStore, visitors: seq<Visitor>, saved: seq<SavedPerson>, form: AddForm,
                       today: Date, visitorId: string, personId: string)
    requires today.Valid() && TimesValid(form.arrival, form.departure)
    requires AddVisit(fs, visitors, saved, form, today, visitorId, personId).Added?
    ensures var v := AddVisit(fs, visitors, saved, form, today, visitorId, personId).visitor;
      !IsBlank(v.name) && Trim(v.name) == v.name
  {
    var v := AddVisit(fs, visitors, saved, form, today, visitorId, personId).visitor;
    assert v.name == Trim(form.name) && !IsBlank(Trim(form.name));
    TrimIdempotent(form.name);
  }

  /** When private copies are own references, an added visitor's image is one. */
  lemma AddedImageOwn(fs: FileStore, visitors: seq<Visitor>, saved: seq<SavedPerson>, form: AddForm,
                      today: Date, visitorId: string, personId: string)
    requires today.Valid() && TimesValid(form.arrival, form.departure) && CopiesAreOwn(fs)
    requires AddVisit(fs, visitors, saved, form, today, visitorId, personId).Added?
    ensures fs.isOwn(AddVisit(fs, visitors, saved, form, today, visitorId, personId).visitor.idImageUri)
  {
    EnsurePrivateIsOwn(fs, form.picked.value, VisitorImages);
  }

  /** Saving the same form twice remembers the person at most once. */
  lemma AddTwiceSavesOnce(fs: FileStore, visitors: seq<Visitor>, saved: seq<SavedPerson>, form: AddForm,
                          today: Date, id1: string, id2: string, pid1: string, pid2: string)
    requires today.Valid() && TimesValid(form.arrival, form.departure)
    requires AddVisit(fs, visitors, saved, form, today, id1, pid1).Added?
    ensures var first := AddVisit(fs, visitors, saved, form, today, id1, pid1);
      var second := AddVisit(fs, first.visitors, first.saved, form, today, id2, pid2);
      second.Added? && second.saved == first.saved && |second.visitors| == |visitors| + 2
  {
    var first := AddVisit(fs, visitors, saved, form, today, id1, pid1);
    var n, priv := first.visitor.name, first.visitor.idImageUri;
    if form.saveForReuse {
      if !KnownPerson(saved, n, priv) {
        var k := |saved|;
        assert first.saved[k] == SavedPerson(pid1, n, priv);
        assert EqualsIgnoreCase(first.saved[k].name, n);
      }
      assert KnownPerson(first.saved, n, priv);
    }
  }

  /** The add dialog opened from a saved person: name and image filled in, times empty, and
      save-for-reuse off. */
  function PrefillFrom(p: SavedPerson): (f: AddForm)
    ensures f.name == p.name && f.picked == Some(p.idImageUri) && !f.saveForReuse && f.arrival.None? && f.departure.None?
  {
    AddForm(p.name, Some(p.idImageUri), None, None, false)
  }

  /** Reusing a saved person with an own image logs a visit with that image and leaves the saved
      list as it was. */
  lemma ReuseSavedPerson(fs: FileStore, visitors: seq<Visitor>, saved: seq<SavedPerson>, p: SavedPerson,
                         a: Time, d: Time, today: Date, visitorId: string, personId: string)
    requires today.Valid() && a.Valid() && d.Valid() && !IsBlank(p.name) && fs.isOwn(p.idImageUri)
    ensures var r := AddVisit(fs, visitors, saved, PrefillFrom(p).(arrival := Some(a), departure := Some(d)), today, visitorId, personId);
      r.Added? && r.saved == saved && r.visitor.idImageUri == p.idImageUri && r.visitor.name == Trim(p.name)
  {
  }

  /* ---------------- editing a visit ---------------- */

  /** The edit dialog's fields. */
  datatype EditForm = EditForm(name: string, arrival: Option<Time>, departure: Option<Time>)

  /** The edit dialog as it opens: the stored name, and each stored time if it parses. */
  function OpenEdit(v: Visitor): (f: EditForm)
    ensures f.name == v.name && TimesValid(f.arrival, f.departure)
    ensures f.arrival == ParseTime(v.arrival) && f.departure == ParseTime(v.departure)
  {
    EditForm(v.name, ParseTime(v.arrival), ParseTime(v.departure))
  }

  /** Save in the edit dialog: refused when the name is blank or a time is missing; otherwise
      the name is trimmed and the times stored as "HH:mm", and id, image and date are kept. */
  function EditedVisitor(v: Visitor, form: EditForm): (r: Option<Visitor>)
    requires TimesValid(form.arrival, form.departure)
    ensures r.None? <==> IsBlank(form.name) || form.arrival.None? || form.departure.None?
    ensures r.Some? ==>
      && r.value.id == v.id && r.value.idImageUri == v.idImageUri && r.value.date == v.date
      && r.value.name == Trim(form.name)
      && r.value.arrival == FormatTime(form.arrival.value) && r.value.departure == FormatTime(form.departure.value)
  {
    if IsBlank(form.name) || form.arrival.None? || form.departure.None? then None
    else
      Some(v.(name := Trim(form.name), arrival := FormatTime(form.arrival.value), departure := FormatTime(form.departure.value)))
  }

  /** The edited visit's stored times read back as the times picked in the dialog. */
  lemma EditedVisitorReadable(v: Visitor, form: EditForm)
    requires TimesValid(form.arrival, form.departure) && EditedVisitor(v, form).Some?
    ensures ParseTime(EditedVisitor(v, form).value.arrival) == form.arrival
    ensures ParseTime(EditedVisitor(v, form).value.departure) == form.departure
  {
    ParseFormatTime(form.arrival.value);
    ParseFormatTime(form.departure.value);
  }

  /** Opening the editor on a visitor in stored form and saving at once gives the same visitor. */
  lemma EditUnchanged(v: Visitor, a: Time, d: Time)
    requires a.Valid() && d.Valid() && v.arrival == FormatTime(a) && v.departure == FormatTime(d)
    requires !IsBlank(v.name) && Trim(v.name) == v.name
    ensures EditedVisitor(v, OpenEdit(v)) == Some(v)
  {
    ParseFormatTime(a);
    ParseFormatTime(d);
  }

  /** Every record with the edited visitor's id is replaced by it; the others are kept. */
  function ReplaceById(vs: seq<Visitor>, u: Visitor): (r: seq<Visitor>)
    ensures |r| == |vs|
    ensures forall i :: 0 <= i < |vs| ==> r[i] == if vs[i].id == u.id then u else vs[i]
  {
    MapSeq(vs, (x: Visitor) => if x.id == u.id then u else x)
  }

  /** Replacing keeps every position's id, and doing it twice is doing it once. */
  lemma ReplaceByIdKeepsIds(vs: seq<Visitor>, u: Visitor)
    ensures forall i :: 0 <= i < |vs| ==> ReplaceById(vs, u)[i].id == vs[i].id
    ensures ReplaceById(ReplaceById(vs, u), u) == ReplaceById(vs, u)
  {
  }

  function EditVisit(vs: seq<Visitor>, v: Visitor, form: EditForm): (r: Option<seq<Visitor>>)
    requires TimesValid(form.arrival, form.departure)
    ensures r.None? <==> EditedVisitor(v, form).None?
    ensures r.Some? ==> r.value == ReplaceById(vs, EditedVisitor(v, form).value)
  {
    match EditedVisitor(v, form)
    case None => None
    case Some(u) => Some(ReplaceById(vs, u))
  }

  /* ---------------- deleting and duplicating ---------------- */

  function HasNotId(id: string): Visitor -> bool {
    (v: Visitor) => v.id != id
  }

  /** Delete: every record with that id goes, the rest stay in order. */
  function DeleteById(vs: seq<Visitor>, id: string): (r: seq<Visitor>)
    ensures |r| <= |vs|
    ensures forall x :: x in r <==> x in vs && x.id != id
  {
    Filter(vs, HasNotId(id))
  }

  /** Deleting removes exactly the occurrences with that id. */
  lemma DeleteByIdCounts(vs: seq<Visitor>, id: string, x: Visitor)
    ensures multiset(DeleteById(vs, id))[x] == if x.id == id then 0 else multiset(vs)[x]
  {
    FilterMultiset(vs, HasNotId(id), x);
  }

  /** Deleting keeps the surviving records in their order: it works piece by piece, and a single
      record stays exactly when it has another id. */
  lemma DeleteByIdOrder(a: seq<Visitor>, b: seq<Visitor>, v: Visitor, id: string)
    ensures DeleteById(a + b, id) == DeleteById(a, id) + DeleteById(b, id)
    ensures DeleteById([v], id) == if v.id == id then [] else [v]
  {
    FilterConcat(a, b, HasNotId(id));
    assert [v][1..] == [];
  }

  /** Deleting an id nobody has changes nothing. */
  lemma {:induction false} DeleteAbsentId(vs: seq<Visitor>, id: string)
    requires forall i :: 0 <= i < |vs| ==> vs[i].id != id
    ensures DeleteById(vs, id) == vs
  {
    if |vs| > 0 {
      DeleteAbsentId(vs[1..], id);
      assert vs == [vs[0]] + vs[1..];
      FilterCons(vs[0], vs[1..], HasNotId(id));
    }
  }

  /** "Duplicate for tomorrow": a copy of `base` with a fresh id and the next calendar day, written
      as `LocalDate.toString` writes it, is appended. None where the app fails instead: the stored date does not parse, or is the
      last representable date. */
  function DuplicateForTomorrow(vs: seq<Visitor>, base: Visitor, newId: string): (r: Option<seq<Visitor>>)
    ensures r.None? <==> ParseDate(base.date).None? || ParseDate(base.date) == Some(MaxDate)
    ensures r.Some? ==>
      && |r.value| == |vs| + 1 && r.value[..|vs|] == vs
      && r.value[|vs|].(id := base.id, date := base.date) == base
      && r.value[|vs|].id == newId
      && r.value[|vs|].date == FormatDate(NextDay(ParseDate(base.date).value).value)
      && ParseDate(r.value[|vs|].date).Some?
      && DayNumber(ParseDate(r.value[|vs|].date).value) == DayNumber(ParseDate(base.date).value) + 1
  {
    match ParseDate(base.date)
    case None => None
    case Some(d) =>
      match NextDay(d)
      case None => None
      case Some(n) =>
        ParseFormatDate(n);
        var copy := base.(id := newId, date := FormatDate(n));
        assert (vs + [copy])[..|vs|] == vs;
        Some(vs + [copy])
  }

  /* ---------------- saved people ---------------- */

  function PersonHasNotId(id: string): SavedPerson -> bool {
    (p: SavedPerson) => p.id != id
  }

  /** Delete a saved person (the saved-people list and the manage dialog alike). */
  function DeleteSavedPerson(ps: seq<SavedPerson>, id: string): (r: seq<SavedPerson>)
    ensures |r| <= |ps|
    ensures forall x :: x in r <==> x in ps && x.id != id
  {
    Filter(ps, PersonHasNotId(id))
  }

  /** Deleting a saved person keeps the others in their order. */
  lemma DeleteSavedPersonOrder(a: seq<SavedPerson>, b: seq<SavedPerson>, p: SavedPerson, id: string)
    ensures DeleteSavedPerson(a + b, id) == DeleteSavedPerson(a, id) + DeleteSavedPerson(b, id)
    ensures DeleteSavedPerson([p], id) == if p.id == id then [] else [p]
  {
    FilterConcat(a, b, PersonHasNotId(id));
    assert [p][1..] == [];
  }

  lemma DeleteSavedPersonCounts(ps: seq<SavedPerson>, id: string, x: SavedPerson)
    ensures multiset(DeleteSavedPerson(ps, id))[x] == if x.id == id then 0 else multiset(ps)[x]
  {
    FilterMultiset(ps, PersonHasNotId(id), x);
  }

  /** The edit-saved-visitor dialog's Save: the name becomes the trimmed new name (a blank name
      is not refused) and the image becomes the dialog's image, or stays when the dialog holds
      none. The dialog starts with the person's own reference and "Change ID" sets it to
      `EnsurePrivate` of the pick, which is None when the private copy failed. */
  function EditSavedPerson(ps: seq<SavedPerson>, id: string, newName: string, newImage: Option<string>): (r: seq<SavedPerson>)
    ensures |r| == |ps|
    ensures forall i :: 0 <= i < |ps| ==> r[i].id == ps[i].id
    ensures forall i :: 0 <= i < |ps| && ps[i].id != id ==> r[i] == ps[i]
    ensures forall i :: 0 <= i < |ps| && ps[i].id == id ==>
      r[i].name == Trim(newName) && r[i].idImageUri == newImage.GetOr(ps[i].idImageUri)
  {
    MapSeq(ps, (p: SavedPerson) => if p.id == id then p.(name := Trim(newName), idImageUri := newImage.GetOr(p.idImageUri)) else p)
  }

  /** Saving the same edit again changes nothing more. */
  lemma EditSavedPersonIdempotent(ps: seq<SavedPerson>, id: string, newName: string, newImage: Option<string>)
    ensures EditSavedPerson(EditSavedPerson(ps, id, newName, newImage), id, newName, newImage)
         == EditSavedPerson(ps, id, newName, newImage)
  {
    var once := EditSavedPerson(ps, id, newName, newImage);
    var twice := EditSavedPerson(once, id, newName, newImage);
    forall i | 0 <= i < |ps| ensures twice[i] == once[i] {
      if ps[i].id == id {
        assert once[i].id == id;
        assert twice[i].idImageUri == once[i].idImageUri;
      }
    }
  }

  /** The manage dialog's rename: refused when the trimmed name is blank. */
  function RenameSavedPerson(ps: seq<SavedPerson>, id: string, name: string): (r: Option<seq<SavedPerson>>)
    ensures r.None? <==> IsBlank(Trim(name))
    ensures r.Some? ==> |r.value| == |ps| && forall i :: 0 <= i < |ps| ==>
      r.value[i] == if ps[i].id == id then ps[i].(name := Trim(name)) else ps[i]
  {
    if IsBlank(Trim(name)) then None
    else Some(MapSeq(ps, (p: SavedPerson) => if p.id == id then p.(name := Trim(name)) else p))
  }

  /** The manage dialog's "Change ID Image": nothing happens when no private copy can be made. */
  function ChangeSavedPersonImage(fs: FileStore, ps: seq<SavedPerson>, id: string, uri: string): (r: seq<SavedPerson>)
    ensures |r| == |ps|
    ensures EnsurePrivate(fs, uri, VisitorImages).None? ==> r == ps
    ensures EnsurePrivate(fs, uri, VisitorImages).Some? ==> forall i :: 0 <= i < |ps| ==>
      r[i] == if ps[i].id == id then ps[i].(idImageUri := EnsurePrivate(fs, uri, VisitorImages).value) else ps[i]
  {
    match EnsurePrivate(fs, uri, VisitorImages)
    case None => ps
    case Some(priv) => MapSeq(ps, (p: SavedPerson) => if p.id == id then p.(idImageUri := priv) else p)
  }

  /* ---------------- today / upcoming / previous ---------------- */

  function OnDate(today: string): Visitor -> bool {
    (v: Visitor) => v.date == today
  }

  function AfterDate(today: string): Visitor -> bool {
    (v: Visitor) => Less(today, v.date)
  }

  function BeforeDate(today: string): Visitor -> bool {
    (v: Visitor) => Less(v.date, today)
  }

  /** The three parts of the visitors screen, each in list order, by string order of the ISO
      date text `today`. */
  function TodayPart(vs: seq<Visitor>, today: string): (r: seq<Visitor>)
    ensures forall v :: v in r <==> v in vs && v.date == today
  {
    Filter(vs, OnDate(today))
  }

  function UpcomingPart(vs: seq<Visitor>, today: string): (r: seq<Visitor>)
    ensures forall v :: v in r <==> v in vs && Less(today, v.date)
  {
    Filter(vs, AfterDate(today))
  }

  function PreviousPart(vs: seq<Visitor>, today: string): (r: seq<Visitor>)
    ensures forall v :: v in r <==> v in vs && Less(v.date, today)
  {
    Filter(vs, BeforeDate(today))
  }

  /** Each visitor is in exactly one part. */
  lemma PartitionExact(vs: seq<Visitor>, today: string, v: Visitor)
    requires v in vs
    ensures || (v in TodayPart(vs, today) && v !in UpcomingPart(vs, today) && v !in PreviousPart(vs, today))
            || (v !in TodayPart(vs, today) && v in UpcomingPart(vs, today) && v !in PreviousPart(vs, today))
            || (v !in TodayPart(vs, today) && v !in UpcomingPart(vs, today) && v in PreviousPart(vs, today))
  {
    Trichotomy(v.date, today);
  }

  lemma {:induction false} PartitionMultiset(vs: seq<Visitor>, today: string)
    ensures multiset(TodayPart(vs, today)) + multiset(UpcomingPart(vs, today)) + multiset(PreviousPart(vs, today)) == multiset(vs)
  {
    if |vs| > 0 {
      var x, rest := vs[0], vs[1..];
      PartitionMultiset(rest, today);
      assert vs == [x] + rest;
      FilterCons(x, rest, OnDate(today));
      FilterCons(x, rest, AfterDate(today));
      FilterCons(x, rest, BeforeDate(today));
      Trichotomy(x.date, today);
    }
  }

  /** Together the parts hold every visitor exactly as often as the list does. */
  lemma PartitionCounts(vs: seq<Visitor>, today: string)
    ensures multiset(TodayPart(vs, today)) + multiset(UpcomingPart(vs, today)) + multiset(PreviousPart(vs, today)) == multiset(vs)
    ensures |TodayPart(vs, today)| + |UpcomingPart(vs, today)| + |PreviousPart(vs, today)| == |vs|
  {
    PartitionMultiset(vs, today);
    assert |multiset(vs)| == |vs|;
  }

  /** Upcoming shows its first twenty entries, previous its last twenty. */
  function ShownUpcoming(vs: seq<Visitor>, today: string): (r: seq<Visitor>)
    ensures |r| == Min(20, |UpcomingPart(vs, today)|) && r <= UpcomingPart(vs, today)
  {
    Take(UpcomingPart(vs, today), 20)
  }

  function ShownPrevious(vs: seq<Visitor>, today: string): (r: seq<Visitor>)
    ensures |r| == Min(20, |PreviousPart(vs, today)|)
    ensures PreviousPart(vs, today) == PreviousPart(vs, today)[..|PreviousPart(vs, today)| - |r|] + r
  {
    TakeLast(PreviousPart(vs, today), 20)
  }

  /* ---------------- orders ---------------- */

  /** `compareBy { date }.thenBy { arrival }`. */
  predicate DateArrivalLe(a: Visitor, b: Visitor) {
    Less(a.date, b.date) || (a.date == b.date && LessEq(a.arrival, b.arrival))
  }

  /** `sortedBy { arrival }`. */
  predicate ArrivalLe(a: Visitor, b: Visitor) {
    LessEq(a.arrival, b.arrival)
  }

  predicate DateLe(a: Visitor, b: Visitor) {
    LessEq(a.date, b.date)
  }

  lemma DateArrivalPreorder()
    ensures TotalPreorder(DateArrivalLe)
  {
    forall a: Visitor, b: Visitor ensures DateArrivalLe(a, b) || DateArrivalLe(b, a) {
      Trichotomy(a.date, b.date);
      LessEqTotal(a.arrival, b.arrival);
    }
    forall a: Visitor, b: Visitor, c: Visitor | DateArrivalLe(a, b) && DateArrivalLe(b, c)
      ensures DateArrivalLe(a, c)
    {
      if Less(a.date, b.date) && Less(b.date, c.date) {
        LessTransitive(a.date, b.date, c.date);
      } else if a.date == b.date && b.date == c.date {
        LessEqTransitive(a.arrival, b.arrival, c.arrival);
      }
    }
  }

  lemma ArrivalPreorder()
    ensures TotalPreorder(ArrivalLe)
  {
    forall a: Visitor, b: Visitor ensures ArrivalLe(a, b) || ArrivalLe(b, a) {
      LessEqTotal(a.arrival, b.arrival);
    }
    forall a: Visitor, b: Visitor, c: Visitor | ArrivalLe(a, b) && ArrivalLe(b, c)
      ensures ArrivalLe(a, c)
    {
      LessEqTransitive(a.arrival, b.arrival, c.arrival);
    }
  }

  /** The order the visitors screen puts the list in when it loads. */
  function LoadOrder(vs: seq<Visitor>): (r: seq<Visitor>)
    ensures |r| == |vs| && multiset(r) == multiset(vs)
  {
    SortBy(vs, DateArrivalLe)
  }

  /** The loaded list is ordered by date, then arrival, and visits tied on both keep their
      stored order. */
  lemma LoadOrderSorted(vs: seq<Visitor>, k: Visitor)
    ensures Sorted(LoadOrder(vs), DateArrivalLe)
    ensures Filter(LoadOrder(vs), EquivTo(DateArrivalLe, k)) == Filter(vs, EquivTo(DateArrivalLe, k))
  {
    DateArrivalPreorder();
    SortBySorted(vs, DateArrivalLe);
    SortByStable(vs, DateArrivalLe, k);
  }

  lemma DateArrivalSortedByDate(vs: seq<Visitor>)
    requires Sorted(vs, DateArrivalLe)
    ensures Sorted(vs, DateLe)
  {
    forall i, j | 0 <= i < j < |vs| ensures DateLe(vs[i], vs[j]) {
      assert DateArrivalLe(vs[i], vs[j]);
    }
  }

  /** Right after loading, the upcoming entries shown are the soonest ones. */
  lemma ShownUpcomingAreSoonest(vs: seq<Visitor>, today: string)
    requires Sorted(vs, DateArrivalLe)
    ensures var up, shown := UpcomingPart(vs, today), ShownUpcoming(vs, today);
      forall i, j :: 0 <= i < |shown| <= j < |up| ==> LessEq(shown[i].date, up[j].date)
  {
    DateArrivalSortedByDate(vs);
    FilterSorted(vs, AfterDate(today), DateLe);
    var up, shown := UpcomingPart(vs, today), ShownUpcoming(vs, today);
    SortedPrefixBefore(up, shown, DateLe);
    forall i, j | 0 <= i < |shown| <= j < |up| ensures LessEq(shown[i].date, up[j].date) {
      assert DateLe(shown[i], up[j]);
    }
  }

  /** Right after loading, the previous entries shown are the most recent ones. */
  lemma ShownPreviousAreLatest(vs: seq<Visitor>, today: string)
    requires Sorted(vs, DateArrivalLe)
    ensures var prev, shown := PreviousPart(vs, today), ShownPrevious(vs, today);
      forall i, j :: 0 <= i < |prev| - |shown| && 0 <= j < |shown| ==> LessEq(prev[i].date, shown[j].date)
  {
    DateArrivalSortedByDate(vs);
    FilterSorted(vs, BeforeDate(today), DateLe);
    var prev, shown := PreviousPart(vs, today), ShownPrevious(vs, today);
    SortedBeforeSuffix(prev, shown, DateLe);
    forall i, j | 0 <= i < |prev| - |shown| && 0 <= j < |shown| ensures LessEq(prev[i].date, shown[j].date) {
      assert DateLe(prev[i], shown[j]);
    }
  }

  /** The dashboard's list: today's visits ordered by arrival. */
  function DashboardToday(vs: seq<Visitor>, today: string): (r: seq<Visitor>)
    ensures multiset(r) == multiset(TodayPart(vs, today))
  {
    SortBy(TodayPart(vs, today), ArrivalLe)
  }

  /** It holds exactly today's visits, ordered by arrival, equal arrivals in stored order. */
  lemma DashboardTodaySpec(vs: seq<Visitor>, today: string, k: Visitor)
    ensures forall v :: v in DashboardToday(vs, today) <==> v in vs && v.date == today
    ensures Sorted(DashboardToday(vs, today), ArrivalLe)
    ensures Filter(DashboardToday(vs, today), EquivTo(ArrivalLe, k)) == Filter(TodayPart(vs, today), EquivTo(ArrivalLe, k))
  {
    ArrivalPreorder();
    var r := DashboardToday(vs, today);
    forall v ensures v in r <==> v in vs && v.date == today {
      assert v in r <==> v in multiset(r);
      assert v in TodayPart(vs, today) <==> v in multiset(TodayPart(vs, today));
    }
    SortBySorted(TodayPart(vs, today), ArrivalLe);
    SortByStable(TodayPart(vs, today), ArrivalLe, k);
  }
}

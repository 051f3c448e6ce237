/** The app's storage: one preferences store holding four JSON texts under fixed keys, the
    loaders that fall back to defaults, the savers that each rewrite one key, and the backup
    document that export writes and import reads section by section. The JSON library is an
    abstract codec: a pair of functions per shape. */
module Persistence {
  import opened Base
  import opened Records

  const ProfileKey := "profile_json"
  const ContactsKey := "contacts_json"
  const VisitorsKey := "visitors_json"
  const SavedPeopleKey := "saved_people_json"

  /** A section of the backup document: its name there and the store key it is written to. */
  datatype Section = ProfileSection | ContactsSection | VisitorsSection | SavedPeopleSection {
    function Name(): string {
      match this
      case ProfileSection => "profile"
      case ContactsSection => "contacts"
      case VisitorsSection => "visitors"
      case SavedPeopleSection => "saved_people"
    }

    function Key(): string {
      match this
      case ProfileSection => ProfileKey
      case ContactsSection => ContactsKey
      case VisitorsSection => VisitorsKey
      case SavedPeopleSection => SavedPeopleKey
    }
  }

  /** The sections, in the order import handles them. */
  const Sections: seq<Section> := [ProfileSection, ContactsSection, VisitorsSection, SavedPeopleSection]

  /** Different sections have different names and are written to different keys. */
  lemma SectionsDistinct(a: Section, b: Section)
    requires a != b
    ensures a.Name() != b.Name() && a.Key() != b.Key()
  {
  }

  /** The JSON library. A decoder returns None where it throws. A backup document is read as a
      map from section name to that section's JSON text; a section whose value is JSON null is
      absent from the map. */
  datatype Codec = Codec(
    encodeProfile: Profile -> string, decodeProfile: string -> Option<Profile>,
    encodeContacts: seq<Contact> -> string, decodeContacts: string -> Option<seq<Contact>>,
    encodeVisitors: seq<Visitor> -> string, decodeVisitors: string -> Option<seq<Visitor>>,
    encodeSavedPeople: seq<SavedPerson> -> string, decodeSavedPeople: string -> Option<seq<SavedPerson>>,
    encodeDocument: map<string, string> -> string, decodeDocument: string -> Option<map<string, string>>)

  /** Every decoder reads back what its encoder wrote. */
  ghost predicate Lawful(codec: Codec) {
    && (forall p :: codec.decodeProfile(codec.encodeProfile(p)) == Some(p))
    && (forall cs :: codec.decodeContacts(codec.encodeContacts(cs)) == Some(cs))
    && (forall vs :: codec.decodeVisitors(codec.encodeVisitors(vs)) == Some(vs))
    && (forall ps :: codec.decodeSavedPeople(codec.encodeSavedPeople(ps)) == Some(ps))
    && (forall d :: codec.decodeDocument(codec.encodeDocument(d)) == Some(d))
  }

  /* ---------------- loading ---------------- */

  /** A loader: the decoded text under `key`, or the default when the key is absent or the text
      does not decode. */
  function LoadOr<T>(prefs: map<string, string>, key: string, decode: string -> Option<T>, default: T): (r: T)
    ensures key !in prefs ==> r == default
    ensures key in prefs ==> r == decode(prefs[key]).GetOr(default)
  {
    if key in prefs then decode(prefs[key]).GetOr(default) else default
  }

  /** What was saved under a key is what loads from it. */
  lemma SavedLoads<T>(prefs: map<string, string>, key: string, encode: T -> string, decode: string -> Option<T>, default: T, x: T)
    requires decode(encode(x)) == Some(x)
    ensures LoadOr(prefs[key := encode(x)], key, decode, default) == x
  {
  }

  /** Writing one key does not change what loads from another. */
  lemma OtherKeyLoads<T>(prefs: map<string, string>, key: string, other: string, text: string, decode: string -> Option<T>, default: T)
    requires key != other
    ensures LoadOr(prefs[other := text], key, decode, default) == LoadOr(prefs, key, decode, default)
  {
  }

  function LoadedProfile(codec: Codec, prefs: map<string, string>): Profile {
    LoadOr(prefs, ProfileKey, codec.decodeProfile, DefaultProfile)
  }

  function LoadedContacts(codec: Codec, prefs: map<string, string>): seq<Contact> {
    LoadOr(prefs, ContactsKey, codec.decodeContacts, [])
  }

  function LoadedVisitors(codec: Codec, prefs: map<string, string>): seq<Visitor> {
    LoadOr(prefs, VisitorsKey, codec.decodeVisitors, [])
  }

  function LoadedSavedPeople(codec: Codec, prefs: map<string, string>): seq<SavedPerson> {
    LoadOr(prefs, SavedPeopleKey, codec.decodeSavedPeople, [])
  }

  /* ---------------- export ---------------- */

  /** The backup: the four loaded values, each encoded under its section name. */
  function Snapshot(codec: Codec, prefs: map<string, string>): (doc: map<string, string>)
    ensures doc.Keys == {"profile", "contacts", "visitors", "saved_people"}
  {
    map["profile" := codec.encodeProfile(LoadedProfile(codec, prefs)),
        "contacts" := codec.encodeContacts(LoadedContacts(codec, prefs)),
        "visitors" := codec.encodeVisitors(LoadedVisitors(codec, prefs)),
        "saved_people" := codec.encodeSavedPeople(LoadedSavedPeople(codec, prefs))]
  }

  /* ---------------- import ---------------- */

  datatype ImportOutcome =
    | Unreadable          // the picked file could not be opened
    | NotADocument        // the text does not parse as a JSON object
    | Completed           // every present section was written
    | StoppedAt(section: Section)  // that section did not decode; it and the later ones were not written

  /** One section: decoded with its shape's decoder and saved under its key, or None where
      decoding throws. */
  function ApplySection(codec: Codec, prefs: map<string, string>, section: Section, text: string): (r: Option<map<string, string>>)
    ensures r.Some? ==> r.value.Keys == prefs.Keys + {section.Key()}
    ensures r.Some? ==> forall k :: k in prefs && k != section.Key() ==> r.value[k] == prefs[k]
  {
    match section
    case ProfileSection =>
      (match codec.decodeProfile(text)
       case None => None
       case Some(p) => Some(prefs[ProfileKey := codec.encodeProfile(p)]))
    case ContactsSection =>
      (match codec.decodeContacts(text)
       case None => None
       case Some(cs) => Some(prefs[ContactsKey := codec.encodeContacts(cs)]))
    case VisitorsSection =>
      (match codec.decodeVisitors(text)
       case None => None
       case Some(vs) => Some(prefs[VisitorsKey := codec.encodeVisitors(vs)]))
    case SavedPeopleSection =>
      (match codec.decodeSavedPeople(text)
       case None => None
       case Some(ps) => Some(prefs[SavedPeopleKey := codec.encodeSavedPeople(ps)]))
  }

  /** The present sections among `names`, in order, until one fails. */
  function ApplySections(codec: Codec, prefs: map<string, string>, doc: map<string, string>, names: seq<Section>): (r: (ImportOutcome, map<string, string>))
    ensures r.0 == Completed || (r.0.StoppedAt? && r.0.section in names && r.0.section.Name() in doc)
    decreases |names|
  {
    if |names| == 0 then (Completed, prefs)
    else if names[0].Name() !in doc then ApplySections(codec, prefs, doc, names[1..])
    else
      match ApplySection(codec, prefs, names[0], doc[names[0].Name()])
      case None => (StoppedAt(names[0]), prefs)
      case Some(next) => ApplySections(codec, next, doc, names[1..])
  }

  /** Import handles the first of the remaining sections and goes on with the rest. */
  lemma ApplySectionsStep(codec: Codec, prefs: map<string, string>, doc: map<string, string>, section: Section, rest: seq<Section>)
    ensures ApplySections(codec, prefs, doc, [section] + rest) ==
      if section.Name() !in doc then ApplySections(codec, prefs, doc, rest)
      else match ApplySection(codec, prefs, section, doc[section.Name()])
        case None => (StoppedAt(section), prefs)
        case Some(next) => ApplySections(codec, next, doc, rest)
  {
    assert ([section] + rest)[1..] == rest;
  }

  /** `importAll`: nothing happens when the file cannot be read or is not a JSON object;
      otherwise the sections are applied in order. */
  function ImportAll(codec: Codec, prefs: map<string, string>, src: Option<string>): (r: (ImportOutcome, map<string, string>))
    ensures r.0.Unreadable? <==> src.None?
    ensures r.0.NotADocument? <==> src.Some? && codec.decodeDocument(src.value).None?
    ensures r.0.Unreadable? || r.0.NotADocument? ==> r.1 == prefs
    ensures r.0.StoppedAt? ==> r.0.section.Name() in codec.decodeDocument(src.value).value
  {
    if src.None? then (Unreadable, prefs)
    else
      match codec.decodeDocument(src.value)
      case None => (NotADocument, prefs)
      case Some(doc) => ApplySections(codec, prefs, doc, Sections)
  }

  /** A key that no present section among `names` is written to keeps its value. */
  lemma {:induction false} ApplySectionsKeepsOthers(codec: Codec, prefs: map<string, string>, doc: map<string, string>, names: seq<Section>, key: string)
    requires forall i :: 0 <= i < |names| && names[i].Name() in doc ==> names[i].Key() != key
    ensures var after := ApplySections(codec, prefs, doc, names).1;
      (key in after <==> key in prefs) && (key in prefs ==> after[key] == prefs[key])
    decreases |names|
  {
    if |names| > 0 {
      if names[0].Name() !in doc {
        ApplySectionsKeepsOthers(codec, prefs, doc, names[1..], key);
      } else if ApplySection(codec, prefs, names[0], doc[names[0].Name()]).Some? {
        var next := ApplySection(codec, prefs, names[0], doc[names[0].Name()]).value;
        ApplySectionsKeepsOthers(codec, next, doc, names[1..], key);
      }
    }
  }

  /** An unreadable file or a text that is not a document writes nothing. */
  lemma ImportRejectedWritesNothing(codec: Codec, prefs: map<string, string>, src: Option<string>)
    requires src.None? || codec.decodeDocument(src.value).None?
    ensures ImportAll(codec, prefs, src).1 == prefs
    ensures ImportAll(codec, prefs, src).0 == (if src.None? then Unreadable else NotADocument)
  {
  }

  /** The key of a section the document lacks keeps its value. */
  lemma ImportAbsentSectionUntouched(codec: Codec, prefs: map<string, string>, text: string, section: Section)
    requires codec.decodeDocument(text).Some? && section.Name() !in codec.decodeDocument(text).value
    ensures var after := ImportAll(codec, prefs, Some(text)).1;
      (section.Key() in after <==> section.Key() in prefs)
      && (section.Key() in prefs ==> after[section.Key()] == prefs[section.Key()])
  {
    var doc := codec.decodeDocument(text).value;
    forall i | 0 <= i < |Sections| && Sections[i].Name() in doc
      ensures Sections[i].Key() != section.Key()
    {
      SectionsDistinct(Sections[i], section);
    }
    ApplySectionsKeepsOthers(codec, prefs, doc, Sections, section.Key());
  }

  /** A document with only a contacts section that decodes rewrites the contacts and nothing
      else. */
  lemma ImportContactsOnly(codec: Codec, prefs: map<string, string>, text: string, cs: seq<Contact>)
    requires codec.decodeDocument(text).Some? && codec.decodeDocument(text).value.Keys == {"contacts"}
    requires codec.decodeContacts(codec.decodeDocument(text).value["contacts"]) == Some(cs)
    ensures ImportAll(codec, prefs, Some(text)) == (Completed, prefs[ContactsKey := codec.encodeContacts(cs)])
  {
    var doc := codec.decodeDocument(text).value;
    assert "profile" !in doc && "visitors" !in doc && "saved_people" !in doc;
    var after := prefs[ContactsKey := codec.encodeContacts(cs)];
    assert ApplySections(codec, after, doc, Sections[4..]) == (Completed, after);
    assert ApplySections(codec, after, doc, Sections[3..]) == (Completed, after);
    assert ApplySections(codec, after, doc, Sections[2..]) == (Completed, after);
    assert ApplySections(codec, prefs, doc, Sections[1..]) == (Completed, after);
  }

  /** A section that fails to decode stops the import: the sections after it are not written. */
  lemma {:induction false} StoppedKeepsLater(codec: Codec, prefs: map<string, string>, doc: map<string, string>, names: seq<Section>, k: int)
    requires forall i, j :: 0 <= i < j < |names| ==> names[i] != names[j]
    requires 0 <= k < |names| && ApplySections(codec, prefs, doc, names).0 == StoppedAt(names[k])
    ensures var after := ApplySections(codec, prefs, doc, names).1;
      forall j :: k <= j < |names| ==>
        (names[j].Key() in after <==> names[j].Key() in prefs)
        && (names[j].Key() in prefs ==> after[names[j].Key()] == prefs[names[j].Key()])
    decreases |names|
  {
    if k > 0 {
      var next := if names[0].Name() !in doc then prefs else ApplySection(codec, prefs, names[0], doc[names[0].Name()]).GetOr(prefs);
      StoppedKeepsLater(codec, next, doc, names[1..], k - 1);
      forall j | k <= j < |names|
        ensures names[j].Key() != names[0].Key()
      {
        SectionsDistinct(names[j], names[0]);
      }
    }
  }

  /** A document with all four sections, each of which decodes, writes all four keys. */
  lemma ImportAllSections(codec: Codec, target: map<string, string>, doc: map<string, string>,
                          p: Profile, cs: seq<Contact>, vs: seq<Visitor>, ps: seq<SavedPerson>)
    requires doc.Keys == {"profile", "contacts", "visitors", "saved_people"}
    requires codec.decodeProfile(doc["profile"]) == Some(p)
    requires codec.decodeContacts(doc["contacts"]) == Some(cs)
    requires codec.decodeVisitors(doc["visitors"]) == Some(vs)
    requires codec.decodeSavedPeople(doc["saved_people"]) == Some(ps)
    ensures ApplySections(codec, target, doc, Sections)
      == (Completed, target[ProfileKey := codec.encodeProfile(p)][ContactsKey := codec.encodeContacts(cs)]
                           [VisitorsKey := codec.encodeVisitors(vs)][SavedPeopleKey := codec.encodeSavedPeople(ps)])
  {
    var m1 := target[ProfileKey := codec.encodeProfile(p)];
    var m2 := m1[ContactsKey := codec.encodeContacts(cs)];
    var m3 := m2[VisitorsKey := codec.encodeVisitors(vs)];
    var m4 := m3[SavedPeopleKey := codec.encodeSavedPeople(ps)];
    assert ApplySections(codec, m3, doc, Sections[3..]) == (Completed, m4);
    assert ApplySections(codec, m2, doc, Sections[2..]) == (Completed, m4);
    assert ApplySections(codec, m1, doc, Sections[1..]) == (Completed, m4);
  }

  /** Importing an export restores every loaded value, whatever the store held before. */
  lemma ExportImportRoundTrip(codec: Codec, prefs: map<string, string>, target: map<string, string>)
    requires Lawful(codec)
    ensures var r := ImportAll(codec, target, Some(codec.encodeDocument(Snapshot(codec, prefs))));
      && r.0 == Completed
      && LoadedProfile(codec, r.1) == LoadedProfile(codec, prefs)
      && LoadedContacts(codec, r.1) == LoadedContacts(codec, prefs)
      && LoadedVisitors(codec, r.1) == LoadedVisitors(codec, prefs)
      && LoadedSavedPeople(codec, r.1) == LoadedSavedPeople(codec, prefs)
  {
    var doc := Snapshot(codec, prefs);
    var p, cs, vs, ps := LoadedProfile(codec, prefs), LoadedContacts(codec, prefs), LoadedVisitors(codec, prefs), LoadedSavedPeople(codec, prefs);
    assert codec.decodeDocument(codec.encodeDocument(doc)) == Some(doc);
    assert codec.decodeProfile(codec.encodeProfile(p)) == Some(p);
    assert codec.decodeContacts(codec.encodeContacts(cs)) == Some(cs);
    assert codec.decodeVisitors(codec.encodeVisitors(vs)) == Some(vs);
    assert codec.decodeSavedPeople(codec.encodeSavedPeople(ps)) == Some(ps);
    ImportAllSections(codec, target, doc, p, cs, vs, ps);
  }

  /* ---------------- the store ---------------- */

  /** The preferences store: four JSON texts under fixed keys. */
  class Store {
    const codec: Codec
    var prefs: map<string, string>

    constructor(codec: Codec, prefs: map<string, string>)
      ensures this.codec == codec && this.prefs == prefs
    {
      this.codec := codec;
      this.prefs := prefs;
    }

    method LoadProfile() returns (p: Profile)
      ensures p == LoadedProfile(codec, prefs)
    {
      p := DefaultProfile;
      if ProfileKey in prefs {
        var decoded := codec.decodeProfile(prefs[ProfileKey]);
        if decoded.Some? {
          p := decoded.value;
        }
      }
    }

    method LoadContacts() returns (cs: seq<Contact>)
      ensures cs == LoadedContacts(codec, prefs)
    {
      cs := [];
      if ContactsKey in prefs {
        var decoded := codec.decodeContacts(prefs[ContactsKey]);
        if decoded.Some? {
          cs := decoded.value;
        }
      }
    }

    method LoadVisitors() returns (vs: seq<Visitor>)
      ensures vs == LoadedVisitors(codec, prefs)
    {
      vs := [];
      if VisitorsKey in prefs {
        var decoded := codec.decodeVisitors(prefs[VisitorsKey]);
        if decoded.Some? {
          vs := decoded.value;
        }
      }
    }

    method LoadSavedPeople() returns (ps: seq<SavedPerson>)
      ensures ps == LoadedSavedPeople(codec, prefs)
    {
      ps := [];
      if SavedPeopleKey in prefs {
        var decoded := codec.decodeSavedPeople(prefs[SavedPeopleKey]);
        if decoded.Some? {
          ps := decoded.value;
        }
      }
    }

    method SaveProfile(p: Profile)
      modifies this
      ensures prefs == old(prefs)[ProfileKey := codec.encodeProfile(p)]
    {
      prefs := prefs[ProfileKey := codec.encodeProfile(p)];
    }

    method SaveContacts(cs: seq<Contact>)
      modifies this
      ensures prefs == old(prefs)[ContactsKey := codec.encodeContacts(cs)]
    {
      prefs := prefs[ContactsKey := codec.encodeContacts(cs)];
    }

    method SaveVisitors(vs: seq<Visitor>)
      modifies this
      ensures prefs == old(prefs)[VisitorsKey := codec.encodeVisitors(vs)]
    {
      prefs := prefs[VisitorsKey := codec.encodeVisitors(vs)];
    }

    method SaveSavedPeople(ps: seq<SavedPerson>)
      modifies this
      ensures prefs == old(prefs)[SavedPeopleKey := codec.encodeSavedPeople(ps)]
    {
      prefs := prefs[SavedPeopleKey := codec.encodeSavedPeople(ps)];
    }

    /** `exportAll`: the text written to the chosen file. */
    method Export() returns (text: string)
      ensures text == codec.encodeDocument(Snapshot(codec, prefs))
    {
      var p := LoadProfile();
      var cs := LoadContacts();
      var vs := LoadVisitors();
      var ps := LoadSavedPeople();
      text := codec.encodeDocument(map["profile" := codec.encodeProfile(p), "contacts" := codec.encodeContacts(cs),
                                       "visitors" := codec.encodeVisitors(vs), "saved_people" := codec.encodeSavedPeople(ps)]);
    }

    /** One section of `importAll`: when the document has it, decode it with its shape's
        decoder and save it; false when decoding threw. */
    method ImportSection(doc: map<string, string>, section: Section) returns (ok: bool)
      modifies this
      ensures section.Name() !in doc ==> ok && prefs == old(prefs)
      ensures section.Name() in doc ==>
        && ok == ApplySection(codec, old(prefs), section, doc[section.Name()]).Some?
        && prefs == ApplySection(codec, old(prefs), section, doc[section.Name()]).GetOr(old(prefs))
    {
      if section.Name() !in doc {
        return true;
      }
      var text := doc[section.Name()];
      match section {
        case ProfileSection =>
          var p := codec.decodeProfile(text);
          if p.None? {
            return false;
          }
          SaveProfile(p.value);
        case ContactsSection =>
          var cs := codec.decodeContacts(text);
          if cs.None? {
            return false;
          }
          SaveContacts(cs.value);
        case VisitorsSection =>
          var vs := codec.decodeVisitors(text);
          if vs.None? {
            return false;
          }
          SaveVisitors(vs.value);
        case SavedPeopleSection =>
          var ps := codec.decodeSavedPeople(text);
          if ps.None? {
            return false;
          }
          SaveSavedPeople(ps.value);
      }
      return true;
    }

    /** `importAll`: `src` is the picked file's text, None when it cannot be opened. */
    method Import(src: Option<string>) returns (outcome: ImportOutcome)
      modifies this
      ensures (outcome, prefs) == ImportAll(codec, old(prefs), src)
    {
      if src.None? {
        return Unreadable;
      }
      var root := codec.decodeDocument(src.value);
      if root.None? {
        return NotADocument;
      }
      var doc := root.value;
      ghost var before := prefs;
      assert Sections == [ProfileSection] + [ContactsSection, VisitorsSection, SavedPeopleSection];
      ApplySectionsStep(codec, before, doc, ProfileSection, [ContactsSection, VisitorsSection, SavedPeopleSection]);
      var ok := ImportSection(doc, ProfileSection);
      if !ok {
        return StoppedAt(ProfileSection);
      }
      before := prefs;
      ApplySectionsStep(codec, before, doc, ContactsSection, [VisitorsSection, SavedPeopleSection]);
      ok := ImportSection(doc, ContactsSection);
      if !ok {
        return StoppedAt(ContactsSection);
      }
      before := prefs;
      ApplySectionsStep(codec, before, doc, VisitorsSection, [SavedPeopleSection]);
      ok := ImportSection(doc, VisitorsSection);
      if !ok {
        return StoppedAt(VisitorsSection);
      }
      before := prefs;
      ApplySectionsStep(codec, before, doc, SavedPeopleSection, []);
      ok := ImportSection(doc, SavedPeopleSection);
      if !ok {
        return StoppedAt(SavedPeopleSection);
      }
      return Completed;
    }
  }
}

/** Which image reference a record keeps: the app copies ID images into its private storage
    (served by its own FileProvider) and rewrites older references to those copies. Everything
    the platform decides is an input here: whether a reference is under the app's own provider
    authority, whether it can be opened, and what a private copy returns. */
module Images {
  import opened Base
  import opened Text
  import opened Records

  /** The private sub-directories copies go to. */
  const IdImages := "id_images"
  const VisitorImages := "visitor_images"

  /** `isOwn`: the reference's authority is the app's own FileProvider. `isReadable`: it opens.
      `copy(uri, subdir)`: the reference of the private copy, None when copying fails. */
  datatype FileStore = FileStore(isOwn: string -> bool, isReadable: string -> bool, copy: (string, string) -> Option<string>)

  /** A private copy is always served by the app's own provider. */
  ghost predicate CopiesAreOwn(fs: FileStore) {
    forall uri, subdir :: fs.copy(uri, subdir).Some? ==> fs.isOwn(fs.copy(uri, subdir).value)
  }

  /** `ensurePrivateImage`: an own reference is used as it is, any other is copied. */
  function EnsurePrivate(fs: FileStore, uri: string, subdir: string): (r: Option<string>)
    ensures fs.isOwn(uri) ==> r == Some(uri)
    ensures !fs.isOwn(uri) ==> r == fs.copy(uri, subdir)
  {
    if fs.isOwn(uri) then Some(uri) else fs.copy(uri, subdir)
  }

  /** Whatever `EnsurePrivate` returns is an own reference, so asking again changes nothing. */
  lemma EnsurePrivateIsOwn(fs: FileStore, uri: string, subdir: string)
    requires CopiesAreOwn(fs)
    ensures EnsurePrivate(fs, uri, subdir).Some? ==> fs.isOwn(EnsurePrivate(fs, uri, subdir).value)
    ensures EnsurePrivate(fs, uri, subdir).Some? ==>
      EnsurePrivate(fs, EnsurePrivate(fs, uri, subdir).value, subdir) == EnsurePrivate(fs, uri, subdir)
  {
  }

  /* ---------------- visitors and saved people ---------------- */

  /** The migrated reference of a visitor or saved person: an own or unreadable reference is
      kept; a readable foreign one becomes its private copy, or is kept when the copy fails. */
  function MigratedRef(fs: FileStore, uri: string): (r: string)
    ensures r != uri ==> !fs.isOwn(uri) && fs.isReadable(uri) && fs.copy(uri, VisitorImages) == Some(r)
    ensures fs.isOwn(uri) || !fs.isReadable(uri) || fs.copy(uri, VisitorImages).None? ==> r == uri
    ensures !fs.isOwn(uri) && fs.isReadable(uri) && fs.copy(uri, VisitorImages).Some? ==> r == fs.copy(uri, VisitorImages).value
  {
    if fs.isOwn(uri) then uri
    else if fs.isReadable(uri) then EnsurePrivate(fs, uri, VisitorImages).GetOr(uri)
    else uri
  }

  /** A second migration finds nothing left to do. */
  lemma MigratedRefIdempotent(fs: FileStore, uri: string)
    requires CopiesAreOwn(fs)
    ensures MigratedRef(fs, MigratedRef(fs, uri)) == MigratedRef(fs, uri)
  {
    if MigratedRef(fs, uri) != uri {
      assert fs.isOwn(MigratedRef(fs, uri));
    }
  }

  function MigrateVisitor(fs: FileStore, v: Visitor): (r: Visitor)
    ensures r == v.(idImageUri := MigratedRef(fs, v.idImageUri))
  {
    var fixed := MigratedRef(fs, v.idImageUri);
    if fixed != v.idImageUri then v.(idImageUri := fixed) else v
  }

  function MigrateSavedPerson(fs: FileStore, p: SavedPerson): (r: SavedPerson)
    ensures r == p.(idImageUri := MigratedRef(fs, p.idImageUri))
  {
    var fixed := MigratedRef(fs, p.idImageUri);
    if fixed != p.idImageUri then p.(idImageUri := fixed) else p
  }

  /** The load-time migration of the visitor list: record by record, only the image changes. */
  function MigrateVisitors(fs: FileStore, vs: seq<Visitor>): (r: seq<Visitor>)
    ensures |r| == |vs|
    ensures forall i :: 0 <= i < |vs| ==> r[i] == vs[i].(idImageUri := MigratedRef(fs, vs[i].idImageUri))
  {
    MapSeq(vs, v => MigrateVisitor(fs, v))
  }

  function MigrateSavedPeople(fs: FileStore, ps: seq<SavedPerson>): (r: seq<SavedPerson>)
    ensures |r| == |ps|
    ensures forall i :: 0 <= i < |ps| ==> r[i] == ps[i].(idImageUri := MigratedRef(fs, ps[i].idImageUri))
  {
    MapSeq(ps, p => MigrateSavedPerson(fs, p))
  }

  /** The list is written back exactly when some record's reference moved. */
  lemma MigrateVisitorsChanged(fs: FileStore, vs: seq<Visitor>)
    ensures MigrateVisitors(fs, vs) != vs <==> exists i :: 0 <= i < |vs| && MigratedRef(fs, vs[i].idImageUri) != vs[i].idImageUri
  {
    var r := MigrateVisitors(fs, vs);
    if r != vs {
      var i :| 0 <= i < |vs| && r[i] != vs[i];
      assert MigratedRef(fs, vs[i].idImageUri) != vs[i].idImageUri;
    }
  }

  lemma MigrateSavedPeopleChanged(fs: FileStore, ps: seq<SavedPerson>)
    ensures MigrateSavedPeople(fs, ps) != ps <==> exists i :: 0 <= i < |ps| && MigratedRef(fs, ps[i].idImageUri) != ps[i].idImageUri
  {
    var r := MigrateSavedPeople(fs, ps);
    if r != ps {
      var i :| 0 <= i < |ps| && r[i] != ps[i];
      assert MigratedRef(fs, ps[i].idImageUri) != ps[i].idImageUri;
    }
  }

  /** Running the migration on its own output changes nothing. */
  lemma MigrateVisitorsIdempotent(fs: FileStore, vs: seq<Visitor>)
    requires CopiesAreOwn(fs)
    ensures MigrateVisitors(fs, MigrateVisitors(fs, vs)) == MigrateVisitors(fs, vs)
  {
    var once := MigrateVisitors(fs, vs);
    forall i | 0 <= i < |vs| ensures MigratedRef(fs, once[i].idImageUri) == once[i].idImageUri {
      MigratedRefIdempotent(fs, vs[i].idImageUri);
    }
  }

  lemma MigrateSavedPeopleIdempotent(fs: FileStore, ps: seq<SavedPerson>)
    requires CopiesAreOwn(fs)
    ensures MigrateSavedPeople(fs, MigrateSavedPeople(fs, ps)) == MigrateSavedPeople(fs, ps)
  {
    var once := MigrateSavedPeople(fs, ps);
    forall i | 0 <= i < |ps| ensures MigratedRef(fs, once[i].idImageUri) == once[i].idImageUri {
      MigratedRefIdempotent(fs, ps[i].idImageUri);
    }
  }

  /* ---------------- the profile's My-ID image ---------------- */

  /** The My-ID migration: a non-blank foreign readable reference is copied into the ID images;
      unlike the visitor migration, a failed copy clears the reference to "". Anything else is
      kept as it is. */
  function MigratedMyId(fs: FileStore, current: string): (r: string)
    ensures IsBlank(current) || fs.isOwn(current) || !fs.isReadable(current) ==> r == current
    ensures !IsBlank(current) && !fs.isOwn(current) && fs.isReadable(current) ==>
      r == (if fs.copy(current, IdImages).Some? then fs.copy(current, IdImages).value else "")
  {
    if !IsBlank(current) && !fs.isOwn(current) && fs.isReadable(current) then
      fs.copy(current, IdImages).GetOr("")
    else current
  }

  /** After one migration the reference is blank or own, so a second one keeps it. */
  lemma MigratedMyIdIdempotent(fs: FileStore, current: string)
    requires CopiesAreOwn(fs)
    ensures MigratedMyId(fs, MigratedMyId(fs, current)) == MigratedMyId(fs, current)
  {
    var once := MigratedMyId(fs, current);
    if once != current {
      if fs.copy(current, IdImages).Some? {
        assert fs.isOwn(once);
      } else {
        assert once == "";
        assert IsBlank(once);
      }
    }
  }

  function MigrateProfile(fs: FileStore, p: Profile): (r: Profile)
    ensures r == p.(myIdUri := MigratedMyId(fs, p.myIdUri))
    ensures r != p <==> MigratedMyId(fs, p.myIdUri) != p.myIdUri
  {
    var migrated := MigratedMyId(fs, p.myIdUri);
    if migrated != p.myIdUri then p.(myIdUri := migrated) else p
  }
}

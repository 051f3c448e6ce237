/** The phone directory: the built-in contact list, the edits a resident makes to it, and the
    filtered, sorted and grouped view. Contacts have no id; every edit finds its target by
    structural equality, so it acts on all entries equal to it. */
module Directory {
  import opened Base
  import opened Text
  import opened Records
  import opened Sorting

  /** The directory shipped with the app, all entries non-favorite. */
  const BuiltInContacts: seq<Contact> := [
    Contact("Compound Manager – Ms. Hala Al Athel", "4037", "8:00 am – 5:00 pm", "Administration", false),
    Contact("Deputy Manager – Mohammad Al-Alfan", "4019", "8:00 am – 5:00 pm", "Administration", false),
    Contact("Secretary (C.M.) – Lourdes", "4037", "8:00 am – 5:00 pm", "Administration", false),
    Contact("Lease Administrator – Mohd. Moklesur Rahman", "4036", "8:00 am – 5:00 pm", "Leasing", false),
    Contact("Leasing Assistant – Danish", "4003", "8:00 am – 5:00 pm", "Leasing", false),
    Contact("Leasing Assistant – Ms. Randa", "4005", "8:00 am – 5:00 pm", "Leasing", false),
    Contact("Chief Accountant – Mohammed Nadeem Baig", "4039", "8:00 am – 5:00 pm", "Accounting", false),
    Contact("Accountant – Sajid Ali", "4026", "8:00 am – 5:00 pm", "Accounting", false),
    Contact("Cashier – Kumar", "4006", "8:00 am – 8:00 pm", "Accounting", false),
    Contact("IT / HR – Mr. Fahad", "4045", "8:00 am – 11:00 pm", "IT / HR", false),
    Contact("PABX Telephone – Augustin", "3999", "1:00 pm – 9:00 pm", "IT / HR", false),
    Contact("Video Operator – Augustin", "4009", "3:00 pm – 11:00 pm", "IT / HR", false),
    Contact("Housing Supervisor – Lourdes", "4004 / 1387", "8:00 am – 5:00 pm", "Housing", false),
    Contact("Housing Assistant – Amina", "4004 / 1387", "8:00 am – 5:00 pm", "Housing", false),
    Contact("Operator & Security (Emergency)", "0 / 4001 / 4024", "24 Hours", "Emergency", false),
    Contact("Administration Reception – Jewel / Kamlesh", "0", "24 Hours", "Emergency", false),
    Contact("Transport Supervisor – Najim Uddin", "0", "8:00 am – 5:00 pm", "Emergency", false),
    Contact("Maintenance Manager – Mr. Chris", "4027", "8:00 am – 5:00 pm", "Maintenance", false),
    Contact("Maintenance Coordinator – Mr. Dias", "1333", "8:00 am – 5:00 pm", "Maintenance", false),
    Contact("Maintenance Office – Masoud", "4022", "8:00 am – 5:00 pm", "Maintenance", false),
    Contact("Warehouse – Obaidullah", "4044", "8:00 am – 5:00 pm", "Maintenance", false),
    Contact("Security Supervisor – Dosari", "4001 / 4024", "8:00 am – 5:00 pm", "Security", false),
    Contact("Visitor Gate – Security", "4001", "24 Hours", "Security", false),
    Contact("Main Gate – Security", "4042 / 1193", "24 Hours", "Security", false),
    Contact("Arm Gate – Security", "4040", "24 Hours", "Security", false),
    Contact("Housekeeping Supervisor – Masoud", "4022", "8:00 am – 5:00 pm", "Housekeeping", false),
    Contact("Pest Control & Landscaping – Shabir", "4007", "8:00 am – 5:00 pm", "Housekeeping", false),
    Contact("Recreation Supervisor – Roel", "4017", "9:00 am – 5:00 pm", "Recreation", false),
    Contact("Attendant Rec. A", "4015", "3:00 pm – 11:00 pm", "Recreation", false),
    Contact("Attendant Rec. B – Hasan", "4029", "8:00 am – 11:00 pm", "Recreation", false),
    Contact("Coffee Shop Rec. A", "3215", "7:00 am – 12:00 am", "Food & Shops", false),
    Contact("Sports Café Shop Rec. A", "3216", "1:00 pm – 12:00 am", "Food & Shops", false),
    Contact("New Crystal Pizza Shop", "4008", "11:00 am – 12:00 am", "Food & Shops", false),
    Contact("Restaurant Crystal", "4033", "12:00 pm – 12:00 am", "Food & Shops", false),
    Contact("Pizza Shop – Bakery", "3233", "11:00 am – 12:00 am", "Food & Shops", false),
    Contact("ZINC Café (Family S. Pool)", "4021", "12:00 pm – 12:00 am", "Food & Shops", false),
    Contact("Laundry Shop", "4018", "12:00 pm – 10:00 pm", "Services", false),
    Contact("Mini Market", "4020", "7:00 am – 12:00 am", "Services", false)
  ]

  /** The list the directory shows after loading: the stored list, or the built-in one (which is
      then also stored) when nothing is stored. */
  function InitialDirectory(stored: seq<Contact>): (r: seq<Contact>)
    ensures |r| > 0
    ensures |stored| > 0 ==> r == stored
    ensures |stored| == 0 ==> r == BuiltInContacts
  {
    if |stored| == 0 then BuiltInContacts else stored
  }

  /* ---------------- edits ---------------- */

  /** The fallback label is not blank: `CategoryLabel` and `AddContact` need this for their
      non-blank category clauses. */
  lemma OtherNotBlank()
    ensures !IsBlank("Other")
  {
    assert !IsWhitespace("Other"[0]);
  }

  /** The category a contact is filed under: its own, or "Other" when blank. */
  function CategoryLabel(c: Contact): (l: string)
    ensures !IsBlank(l)
    ensures !IsBlank(c.category) ==> l == c.category
  {
    OtherNotBlank();
    IfBlank(c.category, "Other")
  }

  /** The add dialog's Save (enabled only with a non-blank name and phone): one contact with
      trimmed fields, "Other" for a blank category, not a favorite, appended at the end. */
  function AddContact(cs: seq<Contact>, name: string, phone: string, hours: string, category: string): (r: Option<seq<Contact>>)
    ensures r.None? <==> IsBlank(name) || IsBlank(phone)
    ensures r.Some? ==> |r.value| == |cs| + 1 && r.value[..|cs|] == cs
    ensures r.Some? ==> var c := r.value[|cs|];
      && c.name == Trim(name) && c.phone == Trim(phone) && c.hours == Trim(hours)
      && c.category == IfBlank(Trim(category), "Other") && !c.favorite
      && !IsBlank(c.name) && !IsBlank(c.phone) && !IsBlank(c.category)
  {
    if IsBlank(name) || IsBlank(phone) then None
    else
      var c := NewContact(Trim(name), Trim(phone), Trim(hours), IfBlank(Trim(category), "Other"));
      OtherNotBlank();
      assert !IsBlank(c.category);
      assert (cs + [c])[..|cs|] == cs;
      assert (cs + [c])[|cs|] == c;
      Some(cs + [c])
  }

  /** The star button: every entry equal to `c` has its favorite flag flipped. */
  function ToggleFavorite(cs: seq<Contact>, c: Contact): (r: seq<Contact>)
    ensures |r| == |cs|
    ensures forall i :: 0 <= i < |cs| ==> r[i] == if cs[i] == c then c.(favorite := !c.favorite) else cs[i]
  {
    MapSeq(cs, (x: Contact) => if x == c then x.(favorite := !x.favorite) else x)
  }

  /** Starring again undoes a star, unless the list already held the flipped entry: then
      both groups end up with the flag of `c`. */
  lemma ToggleFavoriteTwice(cs: seq<Contact>, c: Contact)
    ensures var flipped := c.(favorite := !c.favorite);
      flipped !in cs <==> ToggleFavorite(ToggleFavorite(cs, c), flipped) == cs
  {
    var flipped := c.(favorite := !c.favorite);
    var twice := ToggleFavorite(ToggleFavorite(cs, c), flipped);
    if flipped in cs {
      var i :| 0 <= i < |cs| && cs[i] == flipped;
      assert twice[i] == c;
    }
  }

  /** The edit dialog's Save: refused unless name and phone are non-blank; every entry equal to
      the original gets the trimmed fields ("Other" for a blank category) and keeps its flag. */
  function EditContact(cs: seq<Contact>, original: Contact, name: string, phone: string, hours: string, category: string): (r: Option<seq<Contact>>)
    ensures r.None? <==> IsBlank(name) || IsBlank(phone)
    ensures r.Some? ==> |r.value| == |cs| && forall i :: 0 <= i < |cs| ==>
      r.value[i] == if cs[i] == original
                    then Contact(Trim(name), Trim(phone), Trim(hours), IfBlank(Trim(category), "Other"), original.favorite)
                    else cs[i]
  {
    if IsBlank(name) || IsBlank(phone) then None
    else
      var edited := (x: Contact) => x.(name := Trim(name), phone := Trim(phone), hours := Trim(hours), category := IfBlank(Trim(category), "Other"));
      Some(MapSeq(cs, (x: Contact) => if x == original then edited(x) else x))
  }

  function IsNot(target: Contact): Contact -> bool {
    (x: Contact) => x != target
  }

  /** Delete: every entry equal to the target goes, the rest stay in order. */
  function DeleteContact(cs: seq<Contact>, target: Contact): (r: seq<Contact>)
    ensures target !in r
    ensures forall x :: x in r <==> x in cs && x != target
  {
    Filter(cs, IsNot(target))
  }

  /** Deleting keeps the other entries in their order. */
  lemma DeleteContactOrder(a: seq<Contact>, b: seq<Contact>, c: Contact, target: Contact)
    ensures DeleteContact(a + b, target) == DeleteContact(a, target) + DeleteContact(b, target)
    ensures DeleteContact([c], target) == if c == target then [] else [c]
  {
    FilterConcat(a, b, IsNot(target));
    assert [c][1..] == [];
  }

  lemma DeleteContactCounts(cs: seq<Contact>, target: Contact, x: Contact)
    ensures |DeleteContact(cs, target)| == |cs| - multiset(cs)[target]
    ensures multiset(DeleteContact(cs, target))[x] == if x == target then 0 else multiset(cs)[x]
  {
    FilterMultiset(cs, IsNot(target), x);
    DeleteCount(cs, target);
  }

  lemma {:induction false} DeleteCount(cs: seq<Contact>, target: Contact)
    ensures |DeleteContact(cs, target)| == |cs| - multiset(cs)[target]
  {
    if |cs| > 0 {
      DeleteCount(cs[1..], target);
      assert cs == [cs[0]] + cs[1..];
      FilterCons(cs[0], cs[1..], IsNot(target));
    }
  }

  /* ---------------- the view ---------------- */

  predicate StringLe(a: string, b: string) {
    LessEq(a, b)
  }

  lemma StringPreorder()
    ensures TotalPreorder(StringLe)
  {
    forall a: string, b: string ensures StringLe(a, b) || StringLe(b, a) {
      LessEqTotal(a, b);
    }
    forall a: string, b: string, c: string | StringLe(a, b) && StringLe(b, c) ensures StringLe(a, c) {
      LessEqTransitive(a, b, c);
    }
  }

  /** The category chips: "All", then every category label once, in string order. */
  function Categories(cs: seq<Contact>): (r: seq<string>)
    ensures |r| >= 1 && r[0] == "All"
  {
    ["All"] + SortBy(Distinct(MapSeq(cs, CategoryLabel)), StringLe)
  }

  /** The labels in use, sorted under `le`: each label once. */
  lemma SortedLabels(cs: seq<Contact>, le: (string, string) -> bool)
    requires TotalPreorder(le)
    ensures var keys := SortBy(Distinct(MapSeq(cs, CategoryLabel)), le);
      && (forall l :: l in keys <==> exists c :: c in cs && CategoryLabel(c) == l)
      && NoDuplicates(keys) && Sorted(keys, le)
  {
    var labels := MapSeq(cs, CategoryLabel);
    var d := Distinct(labels);
    var keys := SortBy(d, le);
    SortBySorted(d, le);
    forall l ensures l in keys <==> exists c :: c in cs && CategoryLabel(c) == l {
      assert l in keys <==> l in multiset(keys);
      assert l in d <==> l in multiset(d);
      if l in labels {
        var i :| 0 <= i < |labels| && labels[i] == l;
        assert cs[i] in cs;
      }
      if exists c :: c in cs && CategoryLabel(c) == l {
        var c :| c in cs && CategoryLabel(c) == l;
        var i :| 0 <= i < |cs| && cs[i] == c;
        assert labels[i] == l;
      }
    }
    forall i, j | 0 <= i < j < |keys| ensures keys[i] != keys[j] {
      SortedDistinct(keys, d, i, j);
    }
  }

  /** After "All" come exactly the labels in use, each once and in increasing order. */
  lemma CategoriesSpec(cs: seq<Contact>)
    ensures var chips := Categories(cs)[1..];
      && (forall l :: l in chips <==> exists c :: c in cs && CategoryLabel(c) == l)
      && (forall i, j :: 0 <= i < j < |chips| ==> Less(chips[i], chips[j]))
  {
    var chips := SortBy(Distinct(MapSeq(cs, CategoryLabel)), StringLe);
    assert Categories(cs)[1..] == chips;
    StringPreorder();
    SortedLabels(cs, StringLe);
    forall i, j | 0 <= i < j < |chips| ensures Less(chips[i], chips[j]) {
      assert StringLe(chips[i], chips[j]) && chips[i] != chips[j];
    }
  }

  lemma SortedDistinct(chips: seq<string>, d: seq<string>, i: int, j: int)
    requires NoDuplicates(d) && multiset(chips) == multiset(d) && 0 <= i < j < |chips|
    ensures chips[i] != chips[j]
  {
    if chips[i] == chips[j] {
      var x := chips[i];
      assert multiset(chips)[x] >= 2 by {
        assert chips == chips[..i] + [x] + chips[i + 1..j] + [x] + chips[j + 1..];
      }
      DistinctOnce(d, x);
    }
  }

  lemma {:induction false} DistinctOnce(d: seq<string>, x: string)
    requires NoDuplicates(d)
    ensures multiset(d)[x] <= 1
  {
    if |d| > 0 {
      assert d == [d[0]] + d[1..];
      assert NoDuplicates(d[1..]);
      DistinctOnce(d[1..], x);
      if d[0] == x {
        assert x !in d[1..];
      }
    }
  }

  /** `compareByDescending { favorite }.thenBy { category }.thenBy { name }`. It compares the raw
      category, so a blank one sorts before every other. */
  predicate ContactLe(a: Contact, b: Contact) {
    || (a.favorite && !b.favorite)
    || (a.favorite == b.favorite && (Less(a.category, b.category) || (a.category == b.category && LessEq(a.name, b.name))))
  }

  lemma ContactPreorder()
    ensures TotalPreorder(ContactLe)
  {
    forall a: Contact, b: Contact ensures ContactLe(a, b) || ContactLe(b, a) {
      Trichotomy(a.category, b.category);
      LessEqTotal(a.name, b.name);
    }
    forall a: Contact, b: Contact, c: Contact | ContactLe(a, b) && ContactLe(b, c) ensures ContactLe(a, c) {
      if a.favorite == b.favorite && b.favorite == c.favorite {
        if Less(a.category, b.category) && Less(b.category, c.category) {
          LessTransitive(a.category, b.category, c.category);
        } else if a.category == b.category && b.category == c.category {
          LessEqTransitive(a.name, b.name, c.name);
        }
      }
    }
  }

  /** Whether a contact passes the search box and the category chip. `q` is the query as the
      screen uses it: trimmed and lowercased. */
  predicate Matches(c: Contact, q: string, filter: string) {
    && (IsBlank(q) || Contains(Lowercase(c.name), q) || Contains(Lowercase(c.phone), q) || Contains(Lowercase(c.hours), q))
    && (filter == "All" || CategoryLabel(c) == filter)
  }

  function MatchesQuery(query: string, filter: string): Contact -> bool {
    (c: Contact) => Matches(c, Lowercase(Trim(query)), filter)
  }

  /** The list the directory shows: sorted, then filtered by the query and the category chip. */
  function Visible(cs: seq<Contact>, query: string, filter: string): (r: seq<Contact>)
    ensures |r| <= |cs|
    ensures forall i :: 0 <= i < |r| ==> Matches(r[i], Lowercase(Trim(query)), filter)
  {
    Filter(SortBy(cs, ContactLe), MatchesQuery(query, filter))
  }

  /** The search box: a blank (trimmed, lowercased) query matches everything, any other query
      must occur in the lowercased name, phone or hours; the chip "All" admits every category,
      any other chip only contacts carrying that label. */
  lemma MatchesSpec(c: Contact, q: string, filter: string)
    ensures Matches(c, q, filter) <==>
      (|| IsBlank(q)
       || (exists k: nat :: OccursAt(Lowercase(c.name), q, k))
       || (exists k: nat :: OccursAt(Lowercase(c.phone), q, k))
       || (exists k: nat :: OccursAt(Lowercase(c.hours), q, k)))
      && (filter == "All" || CategoryLabel(c) == filter)
  {
    ContainsSpec(Lowercase(c.name), q);
    ContainsSpec(Lowercase(c.phone), q);
    ContainsSpec(Lowercase(c.hours), q);
  }

  /** With a blank query and the "All" chip the directory shows every contact, in comparator
      order. */
  lemma BlankQueryShowsAll(cs: seq<Contact>, query: string)
    requires IsBlank(query)
    ensures Visible(cs, query, "All") == SortBy(cs, ContactLe)
  {
    assert Trim(query) == [];
    assert Lowercase(Trim(query)) == [];
    var sorted := SortBy(cs, ContactLe);
    FilterAll(sorted, MatchesQuery(query, "All"));
  }

  /** The visible list holds every matching contact as often as the directory does, in
      comparator order, so favorites come first. */
  lemma VisibleSpec(cs: seq<Contact>, query: string, filter: string, c: Contact)
    ensures var r := Visible(cs, query, filter);
      && (c in r <==> c in cs && Matches(c, Lowercase(Trim(query)), filter))
      && multiset(r)[c] == (if Matches(c, Lowercase(Trim(query)), filter) then multiset(cs)[c] else 0)
      && Sorted(r, ContactLe)
      && (forall i, j :: 0 <= i < j < |r| && r[j].favorite ==> r[i].favorite)
  {
    var sorted := SortBy(cs, ContactLe);
    var r := Visible(cs, query, filter);
    FilterMultiset(sorted, MatchesQuery(query, filter), c);
    assert c in r <==> c in multiset(r);
    assert c in cs <==> c in multiset(cs);
    ContactPreorder();
    SortBySorted(cs, ContactLe);
    FilterSorted(sorted, MatchesQuery(query, filter), ContactLe);
    forall i, j | 0 <= i < j < |r| && r[j].favorite ensures r[i].favorite {
      assert ContactLe(r[i], r[j]);
    }
  }

  /* ---------------- grouping ---------------- */

  /** `compareBy { it != "Emergency" }.thenBy { it }`: "Emergency" first, then string order. */
  predicate GroupKeyLe(a: string, b: string) {
    a == "Emergency" || (b != "Emergency" && LessEq(a, b))
  }

  lemma GroupKeyPreorder()
    ensures TotalPreorder(GroupKeyLe)
  {
    forall a: string, b: string ensures GroupKeyLe(a, b) || GroupKeyLe(b, a) {
      LessEqTotal(a, b);
    }
    forall a: string, b: string, c: string | GroupKeyLe(a, b) && GroupKeyLe(b, c) ensures GroupKeyLe(a, c) {
      if a != "Emergency" {
        LessEqTransitive(a, b, c);
      }
    }
  }

  function HasLabel(l: string): Contact -> bool {
    (c: Contact) => CategoryLabel(c) == l
  }

  function GroupKeys(vs: seq<Contact>): seq<string> {
    SortBy(Distinct(MapSeq(vs, CategoryLabel)), GroupKeyLe)
  }

  /** `groupBy` on the category label, as a list of (label, contacts) in key order. */
  function Grouped(vs: seq<Contact>): (r: seq<(string, seq<Contact>)>)
    ensures |r| == |GroupKeys(vs)|
    ensures forall i :: 0 <= i < |r| ==> r[i].0 == GroupKeys(vs)[i] && r[i].1 == Filter(vs, HasLabel(r[i].0))
  {
    MapSeq(GroupKeys(vs), (l: string) => (l, Filter(vs, HasLabel(l))))
  }

  /** The group keys are exactly the labels in use, "Emergency" first and the rest in
      increasing string order; each group is non-empty and holds exactly its label's contacts,
      in visible order. */
  lemma GroupedSpec(vs: seq<Contact>)
    ensures var g := Grouped(vs);
      && (forall l :: l in GroupKeys(vs) <==> exists c :: c in vs && CategoryLabel(c) == l)
      && (forall i :: 0 < i < |g| ==> g[i].0 != "Emergency")
      && (forall i, j :: 0 < i < j < |g| ==> Less(g[i].0, g[j].0))
      && (forall i, j :: 0 <= i < j < |g| ==> GroupKeyLe(g[i].0, g[j].0) && g[i].0 != g[j].0)
      && (forall i :: 0 <= i < |g| ==> |g[i].1| > 0)
      && (forall i, c :: 0 <= i < |g| && c in g[i].1 ==> c in vs && CategoryLabel(c) == g[i].0)
  {
    var g := Grouped(vs);
    var keys := GroupKeys(vs);
    GroupKeyPreorder();
    SortedLabels(vs, GroupKeyLe);
    forall i | 0 < i < |g| ensures g[i].0 != "Emergency" {
      assert GroupKeyLe(keys[0], keys[i]) && keys[0] != keys[i];
    }
    forall i, j | 0 < i < j < |g| ensures Less(g[i].0, g[j].0) {
      assert GroupKeyLe(keys[i], keys[j]) && keys[i] != keys[j];
    }
    forall i, j | 0 <= i < j < |g| ensures GroupKeyLe(g[i].0, g[j].0) && g[i].0 != g[j].0 {
      assert GroupKeyLe(keys[i], keys[j]) && keys[i] != keys[j];
    }
    forall i | 0 <= i < |g| ensures |g[i].1| > 0 {
      assert keys[i] in keys;
      var c :| c in vs && CategoryLabel(c) == keys[i];
      assert c in g[i].1;
    }
  }
}

/**
  The vault's records and the list operations the app performs on them:
  add and edit, delete, merge or overwrite import, the category list, the
  search filter and the link each entry shows.
*/
module Entries {
  import opened Wrappers
  import opened Lists

  /** One saved credential. `createdAt` is a millisecond timestamp. */
  datatype PasswordEntry = PasswordEntry(
    id: string,
    site: string,
    username: string,
    password: string,
    category: string,
    createdAt: int)

  /** What the password form hands to the app: the four fields, and the id when editing. */
  datatype SaveRequest = SaveRequest(
    id: Option<string>,
    site: string,
    username: string,
    password: string,
    category: string)

  /** The preference slot the import dialog writes and the app reads. */
  const IMPORT_MODE_KEY := "vault_last_import_mode"
  const OVERWRITE := "overwrite"
  const ALL_CATEGORIES := "all"

  /** `entryData.id` is truthy. */
  predicate IsEdit(req: SaveRequest) {
    req.id.Some? && req.id.value != ""
  }

  /** `{ ...p, ...entryData }`: the request's fields over the stored entry. */
  function Merged(p: PasswordEntry, req: SaveRequest): (e: PasswordEntry)
    ensures e.id == p.id && e.createdAt == p.createdAt
    ensures e.site == req.site && e.username == req.username
    ensures e.password == req.password && e.category == req.category
  {
    p.(site := req.site, username := req.username, password := req.password, category := req.category)
  }

  /** The edit branch: every entry with the request's id is merged, the others are kept, in place. */
  function EditEntries(passwords: seq<PasswordEntry>, id: string, req: SaveRequest): (r: seq<PasswordEntry>)
    ensures |r| == |passwords|
    ensures forall i :: 0 <= i < |r| ==> r[i].id == passwords[i].id && r[i].createdAt == passwords[i].createdAt
    ensures forall i :: 0 <= i < |r| && passwords[i].id != id ==> r[i] == passwords[i]
    ensures forall i :: 0 <= i < |r| && passwords[i].id == id ==> r[i] == Merged(passwords[i], req)
  {
    seq(|passwords|, i requires 0 <= i < |passwords| =>
      if passwords[i].id == id then Merged(passwords[i], req) else passwords[i])
  }

  /** The entry an add creates, with a fresh id and the current time. */
  function NewEntry(req: SaveRequest, uuid: string, now: int): PasswordEntry {
    PasswordEntry(uuid, req.site, req.username, req.password, req.category, now)
  }

  /** `handleSavePassword`: edit in place when the request carries an id, else prepend a new entry. */
  function SaveEntry(passwords: seq<PasswordEntry>, req: SaveRequest, uuid: string, now: int): (r: seq<PasswordEntry>)
    ensures IsEdit(req) ==> r == EditEntries(passwords, req.id.value, req)
    ensures !IsEdit(req) ==> |r| == |passwords| + 1 && r[0] == NewEntry(req, uuid, now) && r[1..] == passwords
  {
    if IsEdit(req) then EditEntries(passwords, req.id.value, req)
    else [NewEntry(req, uuid, now)] + passwords
  }

  /** Ids of the list, in order. */
  function Ids(passwords: seq<PasswordEntry>): (ids: seq<string>)
    ensures |ids| == |passwords|
    ensures forall i :: 0 <= i < |ids| ==> ids[i] == passwords[i].id
  {
    Map(passwords, (p: PasswordEntry) => p.id)
  }

  /** Saving never changes the ids already in the list: an edit keeps them all in place, an add puts the new one first. */
  lemma SaveKeepsIds(passwords: seq<PasswordEntry>, req: SaveRequest, uuid: string, now: int)
    ensures IsEdit(req) ==> Ids(SaveEntry(passwords, req, uuid, now)) == Ids(passwords)
    ensures !IsEdit(req) ==> Ids(SaveEntry(passwords, req, uuid, now)) == [uuid] + Ids(passwords)
  {
    var r := SaveEntry(passwords, req, uuid, now);
    if !IsEdit(req) {
      assert forall i :: 1 <= i < |r| ==> r[i] == passwords[i - 1];
    }
  }

  /** Editing an id that is in no entry leaves the list unchanged. */
  lemma EditOfUnknownIdChangesNothing(passwords: seq<PasswordEntry>, req: SaveRequest)
    requires IsEdit(req)
    requires forall p :: p in passwords ==> p.id != req.id.value
    ensures EditEntries(passwords, req.id.value, req) == passwords
  {
    var r := EditEntries(passwords, req.id.value, req);
    assert forall i :: 0 <= i < |passwords| ==> passwords[i] in passwords;
  }

  /** `passwords.find(p => p.id === id)`: the first entry with the id, if any. */
  function FindById(passwords: seq<PasswordEntry>, id: string): (r: Option<PasswordEntry>)
    ensures r.Some? <==> exists p :: p in passwords && p.id == id
    ensures r.Some? ==> r.value in passwords && r.value.id == id
    ensures r.Some? ==> exists i :: 0 <= i < |passwords| && passwords[i] == r.value && forall j :: 0 <= j < i ==> passwords[j].id != id
    decreases |passwords|
  {
    if passwords == [] then None
    else if passwords[0].id == id then Some(passwords[0])
    else
      var rest := FindById(passwords[1..], id);
      if rest.Some? then
        var i :| 0 <= i < |passwords[1..]| && passwords[1..][i] == rest.value && forall j :: 0 <= j < i ==> passwords[1..][j].id != id;
        assert passwords[i + 1] == rest.value;
        assert forall j :: 0 <= j < i + 1 ==> passwords[j].id != id by {
          forall j | 1 <= j < i + 1 ensures passwords[j].id != id {
            assert passwords[j] == passwords[1..][j - 1];
          }
        }
        rest
      else
        assert forall p :: p in passwords ==> p.id != id by {
          forall p | p in passwords ensures p.id != id {
            var k :| 0 <= k < |passwords| && passwords[k] == p;
            if k > 0 {
              assert passwords[1..][k - 1] == p;
            }
          }
        }
        rest
  }

  /** The delete confirmation: keep exactly the entries whose id differs. */
  function DeleteEntry(passwords: seq<PasswordEntry>, id: string): (r: seq<PasswordEntry>)
    ensures forall p :: p in r <==> p in passwords && p.id != id
    ensures forall p :: multiset(r)[p] == if p.id != id then multiset(passwords)[p] else 0
  {
    FilterCounts(passwords, (p: PasswordEntry) => p.id != id);
    Filter(passwords, (p: PasswordEntry) => p.id != id)
  }

  /** Deleting keeps the surviving entries in their order and removes the id entirely. */
  lemma DeleteKeepsOrder(passwords: seq<PasswordEntry>, id: string)
    ensures IsSubsequence(DeleteEntry(passwords, id), passwords)
    ensures id !in Ids(DeleteEntry(passwords, id))
  {
    FilterIsSubsequence(passwords, (p: PasswordEntry) => p.id != id);
    var r := DeleteEntry(passwords, id);
    assert forall i :: 0 <= i < |r| ==> r[i] in r;
  }

  /** The merge import: the existing list, then every imported entry whose id the existing list does not use. */
  function MergeImport(existing: seq<PasswordEntry>, imported: seq<PasswordEntry>): (r: seq<PasswordEntry>)
    ensures existing <= r
    ensures forall p :: p in r[|existing|..] <==> p in imported && p.id !in Ids(existing)
    ensures forall p :: multiset(r[|existing|..])[p] == if p.id !in Ids(existing) then multiset(imported)[p] else 0
  {
    var existingIds := Ids(existing);
    var added := Filter(imported, (p: PasswordEntry) => p.id !in existingIds);
    FilterCounts(imported, (p: PasswordEntry) => p.id !in existingIds);
    assert (existing + added)[|existing|..] == added;
    existing + added
  }

  /** An imported entry is dropped by a merge exactly when its id is already in use, and the appended part keeps the import order. */
  lemma MergeAppendsNewInOrder(existing: seq<PasswordEntry>, imported: seq<PasswordEntry>)
    ensures IsSubsequence(MergeImport(existing, imported)[|existing|..], imported)
    ensures |MergeImport(existing, imported)| <= |existing| + |imported|
  {
    var existingIds := Ids(existing);
    var r := MergeImport(existing, imported);
    assert r[|existing|..] == Filter(imported, (p: PasswordEntry) => p.id !in existingIds);
    FilterIsSubsequence(imported, (p: PasswordEntry) => p.id !in existingIds);
  }

  /** Importing a list into itself by merge changes nothing. */
  lemma MergeWithItselfIsIdentity(existing: seq<PasswordEntry>)
    ensures MergeImport(existing, existing) == existing
  {
    var existingIds := Ids(existing);
    assert forall i :: 0 <= i < |existing| ==> existing[i].id == existingIds[i];
    assert forall p :: p in existing ==> p.id in existingIds;
    FilterDropsAll(existing, (p: PasswordEntry) => p.id !in existingIds);
  }

  /**
    The app's `onImport`: overwrite when the saved preference is exactly
    "overwrite", otherwise (absent, empty or anything else) merge.
  */
  function ImportInto(existing: seq<PasswordEntry>, imported: seq<PasswordEntry>, savedMode: Option<string>): (r: seq<PasswordEntry>)
    ensures savedMode == Some(OVERWRITE) ==> r == imported
    ensures savedMode != Some(OVERWRITE) ==> existing <= r
    ensures savedMode != Some(OVERWRITE) ==>
              forall p :: p in r[|existing|..] <==> p in imported && p.id !in Ids(existing)
    ensures savedMode != Some(OVERWRITE) ==>
              forall p :: multiset(r[|existing|..])[p] == if p.id !in Ids(existing) then multiset(imported)[p] else 0
  {
    if savedMode == Some(OVERWRITE) then imported else MergeImport(existing, imported)
  }

  /** `passwords.map(p => p.category)`: the category of each entry, in order. */
  function CategoryOf(passwords: seq<PasswordEntry>): (cats: seq<string>)
    ensures |cats| == |passwords|
    ensures forall c :: c in cats <==> exists p :: p in passwords && p.category == c
  {
    var cats := Map(passwords, (p: PasswordEntry) => p.category);
    assert forall c :: c in cats <==> exists p :: p in passwords && p.category == c by {
      forall c ensures c in cats <==> exists p :: p in passwords && p.category == c {
        if c in cats {
          var i :| 0 <= i < |cats| && cats[i] == c;
          assert passwords[i] in passwords;
        }
        if exists p :: p in passwords && p.category == c {
          var p :| p in passwords && p.category == c;
          var i :| 0 <= i < |passwords| && passwords[i] == p;
          assert cats[i] == c;
        }
      }
    }
    cats
  }

  /** `categories`: "all", then the distinct non-empty categories in order of first use. */
  function Categories(passwords: seq<PasswordEntry>): (r: seq<string>)
    ensures |r| >= 1 && r[0] == ALL_CATEGORIES
    ensures Distinct(r[1..])
    ensures forall c :: c in r[1..] <==> c != "" && exists p :: p in passwords && p.category == c
  {
    [ALL_CATEGORIES] + Dedup(Filter(CategoryOf(passwords), (c: string) => c != ""))
  }

  // ------------------------------------------------------------------ search

  /** ASCII lower-casing of one character. */
  function LowerChar(c: char): (l: char)
    ensures !('A' <= l <= 'Z')
    ensures !('A' <= c <= 'Z') ==> l == c
  {
    if 'A' <= c <= 'Z' then (c as int + 32) as char else c
  }

  /** `toLowerCase`, restricted to ASCII letters. */
  function Lower(s: string): (r: string)
    ensures |r| == |s|
    ensures forall i :: 0 <= i < |s| ==> r[i] == LowerChar(s[i])
  {
    seq(|s|, i requires 0 <= i < |s| => LowerChar(s[i]))
  }

  /** Lower-casing twice is lower-casing once. */
  lemma LowerIdempotent(s: string)
    ensures Lower(Lower(s)) == Lower(s)
  {
  }

  /** `s.includes(t)`: `t` occurs in `s` at some position. */
  predicate Contains(s: string, t: string) {
    exists i :: 0 <= i <= |s| && t <= s[i..]
  }

  /** The `filteredPasswords` test: category (or "all") and an empty or case-insensitive search on site or username. */
  predicate Matches(p: PasswordEntry, selectedCategory: string, searchTerm: string) {
    && (selectedCategory == ALL_CATEGORIES || p.category == selectedCategory)
    && (searchTerm == ""
        || Contains(Lower(p.site), Lower(searchTerm))
        || Contains(Lower(p.username), Lower(searchTerm)))
  }

  /** `filteredPasswords`. */
  function FilteredPasswords(passwords: seq<PasswordEntry>, selectedCategory: string, searchTerm: string): (r: seq<PasswordEntry>)
    ensures forall p :: p in r <==> p in passwords && Matches(p, selectedCategory, searchTerm)
    ensures forall p :: multiset(r)[p] == if Matches(p, selectedCategory, searchTerm) then multiset(passwords)[p] else 0
  {
    FilterCounts(passwords, (p: PasswordEntry) => Matches(p, selectedCategory, searchTerm));
    Filter(passwords, (p: PasswordEntry) => Matches(p, selectedCategory, searchTerm))
  }

  /** The shown list is an order-preserving subsequence of the vault, and with "all" and no search it is the whole vault. */
  lemma FilteredIsSubsequence(passwords: seq<PasswordEntry>, selectedCategory: string, searchTerm: string)
    ensures IsSubsequence(FilteredPasswords(passwords, selectedCategory, searchTerm), passwords)
    ensures selectedCategory == ALL_CATEGORIES && searchTerm == "" ==>
              FilteredPasswords(passwords, selectedCategory, searchTerm) == passwords
  {
    FilterIsSubsequence(passwords, (p: PasswordEntry) => Matches(p, selectedCategory, searchTerm));
    if selectedCategory == ALL_CATEGORIES && searchTerm == "" {
      FilterKeepsAll(passwords, (p: PasswordEntry) => Matches(p, selectedCategory, searchTerm));
    }
  }

  /** Search ignores case: a term and its lower-cased form select the same entries. */
  lemma {:induction false} SearchIgnoresCase(p: PasswordEntry, selectedCategory: string, searchTerm: string)
    ensures Matches(p, selectedCategory, searchTerm) <==> Matches(p, selectedCategory, Lower(searchTerm))
  {
    LowerIdempotent(searchTerm);
    assert searchTerm == "" <==> Lower(searchTerm) == "";
  }

  /** Every entry whose site contains the term is found, whatever the case of either. */
  lemma SiteMatchIsFound(p: PasswordEntry, searchTerm: string, i: int)
    requires 0 <= i <= |p.site|
    requires Lower(searchTerm) <= Lower(p.site)[i..]
    ensures Matches(p, ALL_CATEGORIES, searchTerm)
  {
  }

  // ------------------------------------------------------------------- links

  /** `/^https?:\/\//`: the site already starts with a lower-case http or https scheme. */
  predicate HasScheme(site: string) {
    "http://" <= site || "https://" <= site
  }

  /** The `PasswordItem` link: the site itself when it has a scheme, else the site behind "https://". */
  function SiteHref(site: string): (href: string)
    ensures HasScheme(href)
    ensures HasScheme(site) ==> href == site
    ensures !HasScheme(site) ==> href == "https://" + site
  {
    if HasScheme(site) then site else "https://" + site
  }

  /** Linking is idempotent: the link of a link is itself. */
  lemma SiteHrefIdempotent(site: string)
    ensures SiteHref(SiteHref(site)) == SiteHref(site)
  {
  }
}

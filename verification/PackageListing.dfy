/**
 * The package listing that is derived page by page from the version documents
 * (`r2PackageMetadata` of workers/shared/edge-publish.js), read while publishes
 * go on.
 */
module PackageListing {
  import opened Common
  import opened Routes
  import opened EdgePublish
  import opened PublishMeta
  import opened MetadataReader
  import opened Ordering
  import PublishSafety
  import Text
  import Utf8

  const MAX_PAGES := 10
  const MAX_OBJECTS := 10000

  /** One entry of an R2 listing. */
  datatype Entry = Entry(key: string, uploaded: int, marker: Visibility)

  /** One answer of `list`: it throws, it has the wrong shape, or it is a page.
      `cursor` is `None` when the page carries no string. */
  datatype Page = Throws | Malformed | Page(entries: seq<Entry>, truncated: bool, cursor: Option<string>)

  // ----- the page loop -----

  predicate AllPublic(entries: seq<Entry>) {
    forall i | 0 <= i < |entries| :: PermitsPublic(entries[i].marker)
  }

  /** A page after which the loop goes on. */
  predicate Continues(page: Page, k: nat, got: nat, cursors: set<string>) {
    && page.Page? && AllPublic(page.entries) && got + |page.entries| <= MAX_OBJECTS
    && page.truncated && k + 1 < MAX_PAGES
    && page.cursor.Some? && page.cursor.value != "" && page.cursor.value !in cursors
  }

  /** The answer of the loop when `page` is the last one it asks for. */
  function Conclude(page: Page, objects: seq<Entry>): Read<seq<Entry>> {
    if !page.Page? then Absent
    else if !AllPublic(page.entries) then NonPublic
    else if page.truncated || |objects| + |page.entries| > MAX_OBJECTS then Absent
    else Found(objects + page.entries)
  }

  /** The answers a bucket would give to the ten calls the loop may make. */
  type Answers = ps: seq<Page> | |ps| == MAX_PAGES witness seq(MAX_PAGES, _ => Throws)

  function EntriesOf(page: Page): seq<Entry> { if page.Page? then page.entries else [] }

  function Entries(pages: Answers, n: nat): seq<Entry>
    requires n <= MAX_PAGES
  {
    if n == 0 then [] else Entries(pages, n - 1) + EntriesOf(pages[n - 1])
  }

  function CursorOf(page: Page): set<string> {
    if page.Page? && page.cursor.Some? then {page.cursor.value} else {}
  }

  function Cursors(pages: Answers, n: nat): set<string>
    requires n <= MAX_PAGES
  {
    if n == 0 then {} else Cursors(pages, n - 1) + CursorOf(pages[n - 1])
  }

  /** The loop goes on after the page of call `k`. */
  predicate GoesOn(pages: Answers, k: nat)
    requires k < MAX_PAGES
  {
    Continues(pages[k], k, |Entries(pages, k)|, Cursors(pages, k))
  }

  /** The loop asks for the first `n` pages and then at least one more. */
  predicate Asked(pages: Answers, n: nat)
    requires n <= MAX_PAGES
  {
    n == 0 || (Asked(pages, n - 1) && GoesOn(pages, n - 1))
  }

  /**
   * The do/while loop against any bucket at all: `pages[k]` is the answer to
   * its k-th call. It makes at most ten calls, and asks for another page only
   * after a page that continues.
   */
  method ListAll(pages: Answers) returns (result: Read<seq<Entry>>, calls: nat)
    ensures 1 <= calls <= MAX_PAGES
    ensures Asked(pages, calls - 1) && !GoesOn(pages, calls - 1)
    ensures result == Conclude(pages[calls - 1], Entries(pages, calls - 1))
  {
    var objects: seq<Entry> := [];
    var cursors: set<string> := {};
    calls := 0;
    while true
      invariant 0 <= calls < MAX_PAGES
      invariant objects == Entries(pages, calls) && cursors == Cursors(pages, calls)
      invariant Asked(pages, calls)
      decreases MAX_PAGES - calls
    {
      var page := pages[calls];
      calls := calls + 1;
      if !page.Page? { return Absent, calls; }
      if !AllPublic(page.entries) { return NonPublic, calls; }
      if |objects| + |page.entries| > MAX_OBJECTS { return Absent, calls; }
      if !page.truncated { return Found(objects + page.entries), calls; }
      if calls >= MAX_PAGES || page.cursor.None? || page.cursor.value == "" || page.cursor.value in cursors {
        return Absent, calls;
      }
      objects := objects + page.entries;
      cursors := cursors + {page.cursor.value};
    }
  }

  // ----- honest buckets -----

  /** The bucket at the moment of each call: its keys under the prefix, and the
      upload time of each. Objects are never removed or replaced. */
  datatype Timeline = Timeline(keys: seq<set<string>>, uploaded: map<string, int>)

  ghost predicate Growing(b: Timeline) {
    && |b.keys| == MAX_PAGES
    && (forall j, k | 0 <= j <= k < MAX_PAGES :: b.keys[j] <= b.keys[k])
    && b.keys[MAX_PAGES - 1] <= b.uploaded.Keys
  }

  /** The entry describes a key that exists at the moment of call `k`. */
  predicate Listed(b: Timeline, k: nat, e: Entry) {
    k < |b.keys| && e.key in b.keys[k] && e.key in b.uploaded && e.uploaded == b.uploaded[e.key]
  }

  /** Key `key` comes after everything listed so far. */
  predicate After(entries: seq<Entry>, key: string) {
    entries == [] || Less(entries[|entries| - 1].key, key)
  }

  predicate Ascending(entries: seq<Entry>) {
    forall i | 0 < i < |entries| :: Less(entries[i - 1].key, entries[i].key)
  }

  predicate HasKey(es: seq<Entry>, key: string) { exists i :: 0 <= i < |es| && es[i].key == key }

  /** A page holds the next keys in key order, as the bucket is at that moment. */
  ghost predicate HonestPage(b: Timeline, k: nat, before: seq<Entry>, page: Page)
    requires k < |b.keys|
  {
    page.Page? ==>
      && Ascending(page.entries)
      && (page.entries != [] ==> After(before, page.entries[0].key))
      && (forall i | 0 <= i < |page.entries| :: Listed(b, k, page.entries[i]))
      && (forall key | key in b.keys[k] && After(before, key) ::
            (page.truncated && After(before + page.entries, key)) || HasKey(page.entries, key))
  }

  ghost predicate Honest(b: Timeline, pages: Answers) {
    |b.keys| == MAX_PAGES && forall k | 0 <= k < MAX_PAGES :: HonestPage(b, k, Entries(pages, k), pages[k])
  }

  lemma AscendingConcat(a: seq<Entry>, c: seq<Entry>)
    requires Ascending(a) && Ascending(c) && (c != [] ==> After(a, c[0].key))
    ensures Ascending(a + c)
  {
    var t := a + c;
    forall i | 0 < i < |t| ensures Less(t[i - 1].key, t[i].key) {
      if i > |a| { assert Less(c[i - |a| - 1].key, c[i - |a|].key); }
    }
  }

  lemma HasKeyConcat(a: seq<Entry>, c: seq<Entry>, key: string)
    ensures HasKey(a + c, key) <==> HasKey(a, key) || HasKey(c, key)
  {
    var t := a + c;
    if HasKey(a, key) {
      var i :| 0 <= i < |a| && a[i].key == key;
      assert t[i].key == key;
    }
    if HasKey(c, key) {
      var i :| 0 <= i < |c| && c[i].key == key;
      assert t[|a| + i].key == key;
    }
  }

  /** Everything listed exists by call `k`, and what existed at the start is
      listed or, when `more`, still comes after. */
  ghost predicate Covers(b: Timeline, k: nat, es: seq<Entry>, more: bool) {
    && |b.keys| > k && Ascending(es)
    && (forall i | 0 <= i < |es| :: Listed(b, k, es[i]))
    && (forall key | key in b.keys[0] :: (more && After(es, key)) || HasKey(es, key))
  }

  lemma OnePageMore(b: Timeline, k: nat, before: seq<Entry>, page: Page)
    requires Growing(b) && k < MAX_PAGES && page.Page? && HonestPage(b, k, before, page)
    requires if k == 0 then before == [] else Covers(b, k - 1, before, true)
    ensures Covers(b, k, before + page.entries, page.truncated)
  {
    var es := before + page.entries;
    AscendingConcat(before, page.entries);
    forall i | 0 <= i < |es| ensures Listed(b, k, es[i]) {
      if i < |before| {
        assert Listed(b, k - 1, before[i]) && b.keys[k - 1] <= b.keys[k];
      } else {
        assert Listed(b, k, page.entries[i - |before|]);
      }
    }
    forall key | key in b.keys[0] ensures (page.truncated && After(es, key)) || HasKey(es, key) {
      assert b.keys[0] <= b.keys[k];
      HasKeyConcat(before, page.entries, key);
    }
  }

  /** What has been listed after `n` pages, and what is still to come. */
  lemma {:induction false} ListedSoFar(b: Timeline, pages: Answers, n: nat)
    requires n <= MAX_PAGES && Growing(b) && Honest(b, pages) && Asked(pages, n)
    ensures n > 0 ==> Covers(b, n - 1, Entries(pages, n), true)
    ensures AllPublic(Entries(pages, n))
  {
    if n > 0 {
      ListedSoFar(b, pages, n - 1);
      assert GoesOn(pages, n - 1) && HonestPage(b, n - 1, Entries(pages, n - 1), pages[n - 1]);
      OnePageMore(b, n - 1, Entries(pages, n - 1), pages[n - 1]);
    }
  }

  /**
   * A listing that answers holds every document that existed before its first
   * page and nothing that did not exist at its last, in strict key order and
   * so without duplicates, while publishes went on in between.
   */
  lemma ListingIsComplete(b: Timeline, pages: Answers, calls: nat, objects: seq<Entry>)
    requires Growing(b) && Honest(b, pages) && 1 <= calls <= MAX_PAGES && Asked(pages, calls - 1)
    requires Conclude(pages[calls - 1], Entries(pages, calls - 1)) == Found(objects)
    ensures Covers(b, calls - 1, objects, false) && AllPublic(objects)
  {
    ListedSoFar(b, pages, calls - 1);
    assert HonestPage(b, calls - 1, Entries(pages, calls - 1), pages[calls - 1]);
    OnePageMore(b, calls - 1, Entries(pages, calls - 1), pages[calls - 1]);
  }

  // ----- newest first -----

  /** Later uploads first; a stable sort leaves ties in key order. */
  predicate Newer(a: Entry, c: Entry) {
    a.uploaded > c.uploaded || (a.uploaded == c.uploaded && Less(a.key, c.key))
  }

  predicate NewestFirst(es: seq<Entry>) {
    forall i, j | 0 <= i < j < |es| :: Newer(es[i], es[j])
  }

  /** Insert an entry that preceded all of `es`: before everything that is not
      strictly newer, as a stable sort by descending upload time does. */
  function Insert(e: Entry, es: seq<Entry>): seq<Entry> {
    if es == [] || e.uploaded >= es[0].uploaded then [e] + es else [es[0]] + Insert(e, es[1..])
  }

  function SortByUpload(es: seq<Entry>): seq<Entry> {
    if es == [] then [] else Insert(es[0], SortByUpload(es[1..]))
  }

  lemma {:induction false} InsertKeeps(e: Entry, es: seq<Entry>)
    ensures multiset(Insert(e, es)) == multiset{e} + multiset(es)
  {
    if es != [] && e.uploaded < es[0].uploaded {
      InsertKeeps(e, es[1..]);
      assert es == [es[0]] + es[1..];
    }
  }

  lemma {:induction false} SortKeeps(es: seq<Entry>)
    ensures multiset(SortByUpload(es)) == multiset(es)
  {
    if es != [] {
      SortKeeps(es[1..]);
      InsertKeeps(es[0], SortByUpload(es[1..]));
      assert es == [es[0]] + es[1..];
    }
  }

  lemma {:induction false} InsertSorted(e: Entry, es: seq<Entry>)
    requires NewestFirst(es) && forall x | x in es :: Less(e.key, x.key)
    ensures NewestFirst(Insert(e, es))
  {
    if es == [] {
    } else if e.uploaded >= es[0].uploaded {
      forall j | 0 <= j < |es| ensures Newer(e, es[j]) {
        assert es[j] in es;
      }
    } else {
      var rest := Insert(e, es[1..]);
      InsertSorted(e, es[1..]);
      InsertKeeps(e, es[1..]);
      forall x | x in rest ensures Newer(es[0], x) {
        assert x in multiset(rest);
        if x != e { assert x in es[1..]; }
      }
    }
  }

  lemma {:induction false} AscendingHead(es: seq<Entry>)
    requires es != [] && Ascending(es)
    ensures forall x | x in es[1..] :: Less(es[0].key, x.key)
    ensures Ascending(es[1..])
  {
    var rest := es[1..];
    forall i | 0 < i < |rest| ensures Less(rest[i - 1].key, rest[i].key) {
      assert Less(es[i].key, es[i + 1].key);
    }
    if rest != [] {
      AscendingHead(rest);
      assert Less(es[0].key, es[1].key);
      forall x | x in rest ensures Less(es[0].key, x.key) {
        if x != rest[0] {
          assert x in rest[1..];
          LessTransitive(es[0].key, rest[0].key, x.key);
        }
      }
    }
  }

  lemma {:induction false} SortSorts(es: seq<Entry>)
    requires Ascending(es)
    ensures NewestFirst(SortByUpload(es))
  {
    if es != [] {
      AscendingHead(es);
      SortSorts(es[1..]);
      SortKeeps(es[1..]);
      forall x | x in SortByUpload(es[1..]) ensures Less(es[0].key, x.key) {
        assert x in multiset(SortByUpload(es[1..]));
      }
      InsertSorted(es[0], SortByUpload(es[1..]));
    }
  }

  // ----- r2PackageMetadata -----

  datatype PackageMetadata = PackageMetadata(
    org: string, name: string, vcs: Units, repoUrl: Units, latest: string,
    versions: seq<string>, description: Option<Units>)

  predicate IsJson(e: Entry) { Text.EndsWith(e.key, ".json") }

  function OnlyJson(es: seq<Entry>): seq<Entry> {
    if es == [] then [] else (if IsJson(es[0]) then [es[0]] else []) + OnlyJson(es[1..])
  }

  /** `key.slice(prefix.length, -5)` */
  function VersionOfKey(prefix: string, key: string): string {
    if |key| - 5 >= |prefix| then key[|prefix|..|key| - 5] else ""
  }

  function VersionsOf(prefix: string, es: seq<Entry>): seq<string> {
    seq(|es|, i requires 0 <= i < |es| => VersionOfKey(prefix, es[i].key))
  }

  type Reader = string -> Read<Json>

  function Published(objects: seq<Entry>): seq<Entry> { SortByUpload(OnlyJson(objects)) }

  function Summarize(org: string, name: string, versions: seq<string>, newest: Document): PackageMetadata
    requires versions != []
  {
    var facts := if newest.Record? && newest.package.Facts? then newest.package else Facts(Unmarked, None, None, None);
    PackageMetadata(org, name,
                    if facts.vcs.Some? then facts.vcs.value else Utf8.Utf16("git"),
                    if facts.repoUrl.Some? then facts.repoUrl.value else [],
                    versions[0], versions, facts.description)
  }

  /** The listing that a complete set of objects gives. */
  function Derive(org: string, name: string, objects: seq<Entry>, read: Reader): Read<PackageMetadata> {
    var published := Published(objects);
    if published == [] then Absent
    else
      match read(published[0].key)
      case Absent => Absent
      case NonPublic => NonPublic
      case Found(newest) =>
        Found(Summarize(org, name, VersionsOf(VersionPrefixKey(org, name), published), DocumentOf(newest)))
  }

  /** The number of calls the loop makes, once it has made `n` and goes on. */
  function Calls(pages: Answers, n: nat): (calls: nat)
    requires n < MAX_PAGES
    ensures n < calls <= MAX_PAGES && !GoesOn(pages, calls - 1)
    ensures Asked(pages, n) ==> Asked(pages, calls - 1)
    decreases MAX_PAGES - n
  {
    if GoesOn(pages, n) then Calls(pages, n + 1) else n + 1
  }

  lemma {:induction false} CallsUnique(pages: Answers, n: nat, calls: nat)
    requires n < calls <= MAX_PAGES && Asked(pages, calls - 1) && !GoesOn(pages, calls - 1)
    ensures Calls(pages, n) == calls
    decreases MAX_PAGES - n
  {
    AskedEarlier(pages, n, calls - 1);
    if n + 1 < calls { CallsUnique(pages, n + 1, calls); }
  }

  lemma {:induction false} AskedEarlier(pages: Answers, n: nat, k: nat)
    requires n <= k < MAX_PAGES && Asked(pages, k)
    ensures n < k ==> GoesOn(pages, n)
  {
    if n + 1 < k { AskedEarlier(pages, n, k - 1); }
  }

  /** Page `k` carries this cursor. */
  predicate Carries(page: Page, cursor: string) { page.Page? && page.cursor == Some(cursor) }

  lemma {:induction false} CursorsExactly(pages: Answers, n: nat, cursor: string)
    requires n <= MAX_PAGES
    ensures cursor in Cursors(pages, n) <==> exists j :: 0 <= j < n && Carries(pages[j], cursor)
  {
    if n > 0 { CursorsExactly(pages, n - 1, cursor); }
  }

  /**
   * The loop goes on after a page exactly when it is truncated, everything on
   * it is unmarked or public, at most 10 000 objects have been listed, it is not
   * the tenth, and its cursor is a text that no earlier page carried.
   */
  lemma GoesOnExactly(pages: Answers, k: nat)
    requires k < MAX_PAGES
    ensures GoesOn(pages, k) <==>
            && pages[k].Page? && pages[k].truncated && k < 9 && |Entries(pages, k + 1)| <= 10_000
            && (forall e | e in pages[k].entries :: !e.marker.Restricted?)
            && pages[k].cursor.Some? && pages[k].cursor.value != ""
            && forall j | 0 <= j < k :: !Carries(pages[j], pages[k].cursor.value)
  {
    if pages[k].Page? && pages[k].cursor.Some? { CursorsExactly(pages, k, pages[k].cursor.value); }
    if pages[k].Page? {
      var es := pages[k].entries;
      assert forall i | 0 <= i < |es| :: es[i] in es;
    }
  }

  /** All objects that the loop collects, if it comes to a last page. */
  function Collected(pages: Answers): Read<seq<Entry>> {
    var calls := Calls(pages, 0);
    Conclude(pages[calls - 1], Entries(pages, calls - 1))
  }

  lemma CollectedBy(pages: Answers, calls: nat)
    requires 1 <= calls <= MAX_PAGES && Asked(pages, calls - 1) && !GoesOn(pages, calls - 1)
    ensures Calls(pages, 0) == calls && Collected(pages) == Conclude(pages[calls - 1], Entries(pages, calls - 1))
  {
    CallsUnique(pages, 0, calls);
  }

  /** `r2PackageMetadata` as a function of what the bucket answers. */
  function Listing(org: string, name: string, pages: Answers, read: Reader): Read<PackageMetadata> {
    if !OrgName(org) || !OrgName(name) then Absent
    else
      match Collected(pages)
      case Absent => Absent
      case NonPublic => NonPublic
      case Found(objects) => Derive(org, name, objects, read)
  }

  method R2PackageMetadata(org: string, name: string, pages: Answers, read: Reader)
    returns (result: Read<PackageMetadata>, calls: nat)
    ensures result == Listing(org, name, pages, read)
    ensures calls == if OrgName(org) && OrgName(name) then Calls(pages, 0) else 0
  {
    if !OrgName(org) || !OrgName(name) { return Absent, 0; }
    var listed: Read<seq<Entry>>;
    listed, calls := ListAll(pages);
    CollectedBy(pages, calls);
    match listed
    case Absent => result := Absent;
    case NonPublic => result := NonPublic;
    case Found(objects) => result := Derive(org, name, objects, read);
  }

  /**
   * When a listing answers: the names are registry names, the last page the
   * loop asked for is a page, nothing it carries is marked non-public, no page
   * follows it, at most 10 000 objects were listed, one of them is a document,
   * and the newest document can be read.
   */
  lemma ListingAnswers(org: string, name: string, pages: Answers, read: Reader)
    ensures var calls := Calls(pages, 0);
            var last, objects := pages[calls - 1], Entries(pages, calls);
            Listing(org, name, pages, read).Found? <==>
            && OrgName(org) && OrgName(name)
            && last.Page? && AllPublic(last.entries) && !last.truncated && |objects| <= MAX_OBJECTS
            && Published(objects) != [] && read(Published(objects)[0].key).Found?
    ensures var objects := Entries(pages, Calls(pages, 0));
            Published(objects) != [] <==> exists e :: e in objects && IsJson(e)
  {
    var calls := Calls(pages, 0);
    ConcludeExactly(pages, calls);
    DeriveExactly(org, name, Entries(pages, calls), read);
  }

  lemma ConcludeExactly(pages: Answers, calls: nat)
    requires 0 < calls <= MAX_PAGES
    ensures var last, c := pages[calls - 1], Conclude(pages[calls - 1], Entries(pages, calls - 1));
            && (c.Found? <==> last.Page? && AllPublic(last.entries) && !last.truncated
                              && |Entries(pages, calls)| <= MAX_OBJECTS)
            && (c.Found? ==> c.value == Entries(pages, calls))
  {
  }

  lemma DeriveExactly(org: string, name: string, objects: seq<Entry>, read: Reader)
    ensures Derive(org, name, objects, read).Found? <==>
            Published(objects) != [] && read(Published(objects)[0].key).Found?
    ensures Published(objects) != [] <==> exists e :: e in objects && IsJson(e)
  {
    OnlyJsonEmpty(objects);
    SortKeeps(OnlyJson(objects));
    assert |multiset(Published(objects))| == |multiset(OnlyJson(objects))|;
  }

  lemma {:induction false} OnlyJsonEmpty(es: seq<Entry>)
    ensures OnlyJson(es) != [] <==> exists e :: e in es && IsJson(e)
  {
    if es != [] { OnlyJsonEmpty(es[1..]); }
  }

  // ----- what a listing says -----

  lemma {:induction false} OnlyJsonKeeps(es: seq<Entry>)
    requires forall i | 0 <= i < |es| :: IsJson(es[i])
    ensures OnlyJson(es) == es
  {
    if es != [] { OnlyJsonKeeps(es[1..]); }
  }

  /** Every key under the prefix is the key of a version document. */
  ghost predicate OnlyVersions(org: string, name: string, keys: set<string>) {
    forall key | key in keys :: exists v :: VersionMetadataKey(org, name, v) == Some(key)
  }

  lemma VersionKeyBack(org: string, name: string, v: string, key: string)
    requires VersionMetadataKey(org, name, v) == Some(key)
    ensures VersionOfKey(VersionPrefixKey(org, name), key) == v && Text.EndsWith(key, ".json")
  {
    var prefix := VersionPrefixKey(org, name);
    assert key == prefix + v + ".json";
    assert key[|prefix|..|key| - 5] == v;
  }

  lemma CoveredIsVersions(b: Timeline, k: nat, es: seq<Entry>, org: string, name: string)
    requires Covers(b, k, es, false) && OnlyVersions(org, name, b.keys[k])
    ensures forall i | 0 <= i < |es| ::
      IsJson(es[i]) && VersionMetadataKey(org, name, VersionOfKey(VersionPrefixKey(org, name), es[i].key)) == Some(es[i].key)
  {
    forall i | 0 <= i < |es|
      ensures IsJson(es[i])
      ensures VersionMetadataKey(org, name, VersionOfKey(VersionPrefixKey(org, name), es[i].key)) == Some(es[i].key)
    {
      assert Listed(b, k, es[i]);
      var v :| VersionMetadataKey(org, name, v) == Some(es[i].key);
      VersionKeyBack(org, name, v, es[i].key);
    }
  }

  lemma SameEntries(a: seq<Entry>, c: seq<Entry>, e: Entry)
    requires multiset(a) == multiset(c)
    ensures e in a <==> e in c
  {
    assert e in a <==> e in multiset(a);
    assert e in c <==> e in multiset(c);
  }

  function KeyOf(org: string, name: string, v: string): string {
    if VersionMetadataKey(org, name, v).Some? then VersionMetadataKey(org, name, v).value else ""
  }

  /** Version `v` has a document at the moment of call `k`. */
  predicate Claimed(b: Timeline, k: nat, org: string, name: string, v: string) {
    && VersionMetadataKey(org, name, v).Some? && k < |b.keys|
    && KeyOf(org, name, v) in b.keys[k] && KeyOf(org, name, v) in b.uploaded
  }

  /** `v` was uploaded later than `w`, or at the same time and sorts before it. */
  predicate UploadedAfter(b: Timeline, org: string, name: string, v: string, w: string) {
    var x, y := KeyOf(org, name, v), KeyOf(org, name, w);
    && x in b.uploaded && y in b.uploaded
    && (b.uploaded[x] > b.uploaded[y] || (b.uploaded[x] == b.uploaded[y] && Less(x, y)))
  }

  lemma VersionsClaimed(b: Timeline, k: nat, es: seq<Entry>, org: string, name: string, i: nat)
    requires Covers(b, k, es, false) && OnlyVersions(org, name, b.keys[k]) && i < |SortByUpload(es)|
    ensures var e, v := SortByUpload(es)[i], VersionsOf(VersionPrefixKey(org, name), SortByUpload(es))[i];
      Listed(b, k, e) && Claimed(b, k, org, name, v) && KeyOf(org, name, v) == e.key
  {
    PublishedEntries(b, k, es, org, name);
  }

  lemma ClaimedIsShown(b: Timeline, k: nat, es: seq<Entry>, org: string, name: string, v: string)
    requires Covers(b, k, es, false) && Claimed(b, 0, org, name, v)
    ensures v in VersionsOf(VersionPrefixKey(org, name), SortByUpload(es))
  {
    var key := KeyOf(org, name, v);
    assert HasKey(es, key);
    var i :| 0 <= i < |es| && es[i].key == key;
    SortKeeps(es);
    SameEntries(es, SortByUpload(es), es[i]);
    var j :| 0 <= j < |SortByUpload(es)| && SortByUpload(es)[j] == es[i];
    VersionKeyBack(org, name, v, key);
    assert VersionsOf(VersionPrefixKey(org, name), SortByUpload(es))[j] == v;
  }

  lemma VersionsOrdered(b: Timeline, k: nat, es: seq<Entry>, org: string, name: string, i: nat, j: nat)
    requires Covers(b, k, es, false) && OnlyVersions(org, name, b.keys[k]) && i < j < |SortByUpload(es)|
    ensures var vs := VersionsOf(VersionPrefixKey(org, name), SortByUpload(es));
      UploadedAfter(b, org, name, vs[i], vs[j]) && vs[i] != vs[j]
  {
    VersionsClaimed(b, k, es, org, name, i);
    VersionsClaimed(b, k, es, org, name, j);
    SortSorts(es);
    assert Newer(SortByUpload(es)[i], SortByUpload(es)[j]);
    LessTotal(SortByUpload(es)[i].key, SortByUpload(es)[j].key);
  }

  lemma DerivedVersions(org: string, name: string, objects: seq<Entry>, read: Reader, listing: PackageMetadata)
    requires forall i | 0 <= i < |objects| :: IsJson(objects[i])
    requires Derive(org, name, objects, read) == Found(listing)
    ensures listing.versions == VersionsOf(VersionPrefixKey(org, name), SortByUpload(objects))
    ensures listing.versions != [] && listing.latest == listing.versions[0]
  {
    OnlyJsonKeeps(objects);
  }

  /**
   * When a listing read during any publishing answers: every version claimed
   * before the first page is in it, every version in it was claimed by the
   * last page, there are no duplicates, later uploads come first, and
   * `latest` is the head. Each version is exactly the one in its key.
   */
  lemma ListingIsExact(
    b: Timeline, pages: Answers, calls: nat, objects: seq<Entry>, org: string, name: string,
    read: Reader, listing: PackageMetadata)
    requires Growing(b) && Honest(b, pages) && 1 <= calls <= MAX_PAGES && Asked(pages, calls - 1)
    requires Conclude(pages[calls - 1], Entries(pages, calls - 1)) == Found(objects)
    requires OnlyVersions(org, name, b.keys[calls - 1])
    requires Derive(org, name, objects, read) == Found(listing)
    ensures listing.versions != [] && listing.latest == listing.versions[0]
    ensures forall v | v in listing.versions :: Claimed(b, calls - 1, org, name, v)
    ensures forall v | Claimed(b, 0, org, name, v) :: v in listing.versions
    ensures forall i, j | 0 <= i < j < |listing.versions| ::
      && UploadedAfter(b, org, name, listing.versions[i], listing.versions[j])
      && listing.versions[i] != listing.versions[j]
  {
    ListingIsComplete(b, pages, calls, objects);
    CoveredIsVersions(b, calls - 1, objects, org, name);
    DerivedVersions(org, name, objects, read, listing);
    forall v | v in listing.versions ensures Claimed(b, calls - 1, org, name, v) {
      var i :| 0 <= i < |listing.versions| && listing.versions[i] == v;
      VersionsClaimed(b, calls - 1, objects, org, name, i);
    }
    forall v | Claimed(b, 0, org, name, v) ensures v in listing.versions {
      ClaimedIsShown(b, calls - 1, objects, org, name, v);
    }
    forall i, j | 0 <= i < j < |listing.versions|
      ensures UploadedAfter(b, org, name, listing.versions[i], listing.versions[j])
           && listing.versions[i] != listing.versions[j]
    {
      VersionsOrdered(b, calls - 1, objects, org, name, i, j);
    }
  }

  lemma PublishedEntries(b: Timeline, k: nat, es: seq<Entry>, org: string, name: string)
    requires Covers(b, k, es, false) && OnlyVersions(org, name, b.keys[k])
    ensures forall i | 0 <= i < |SortByUpload(es)| ::
      var e := SortByUpload(es)[i];
      Listed(b, k, e) && VersionMetadataKey(org, name, VersionOfKey(VersionPrefixKey(org, name), e.key)) == Some(e.key)
  {
    CoveredIsVersions(b, k, es, org, name);
    SortKeeps(es);
    forall i | 0 <= i < |SortByUpload(es)|
      ensures var e := SortByUpload(es)[i];
        Listed(b, k, e) && VersionMetadataKey(org, name, VersionOfKey(VersionPrefixKey(org, name), e.key)) == Some(e.key)
    {
      SameEntries(es, SortByUpload(es), SortByUpload(es)[i]);
      var j :| 0 <= j < |es| && es[j] == SortByUpload(es)[i];
      assert Listed(b, k, es[j]);
    }
  }

  // ----- the timeline of a publishing run -----

  function KeysUnder(store: Store, prefix: string): set<string> {
    set key | key in store && prefix <= key
  }

  lemma {:induction false} ExecConcat(w: World, s: State, a: seq<Event>, c: seq<Event>)
    ensures Exec(w, s, a + c) == Exec(w, Exec(w, s, a), c)
  {
    if c == [] {
      assert a + c == a;
    } else {
      ExecConcat(w, s, a, c[..|c| - 1]);
      assert (a + c)[..|a + c| - 1] == a + c[..|c| - 1];
    }
  }

  /** While publishers run, the keys under a prefix only grow. */
  lemma RunsGrow(w: World, store: Store, events: seq<Event>, i: nat, j: nat, prefix: string)
    requires ValidWorld(w) && i <= j <= |events|
    ensures KeysUnder(Exec(w, Start(store), events[..i]).store, prefix)
         <= KeysUnder(Exec(w, Start(store), events[..j]).store, prefix)
  {
    assert events[..j] == events[..i] + events[i..j];
    ExecConcat(w, Start(store), events[..i], events[i..j]);
    PublishSafety.StoreGrows(w, Exec(w, Start(store), events[..i]), events[i..j]);
  }

  lemma PrefixNamesPackage(org: string, name: string, o: string, n: string, v: string)
    requires OrgName(org) && OrgName(name) && VersionMetadataKey(o, n, v).Some?
    requires VersionPrefixKey(org, name) <= VersionMetadataKey(o, n, v).value
    ensures o == org && n == name
  {
    var key, prefix := VersionMetadataKey(o, n, v).value, VersionPrefixKey(org, name);
    var rest := key[|prefix|..];
    assert key == prefix + rest;
    VersionKeySegments(o, n, v);
    OrgNameIsPlain(org);
    OrgNameIsPlain(name);
    PrefixSegments(org, name, rest);
    var segs := ["metadata", org, name, "versions"] + Text.Split(rest, '/');
    assert segs == ["metadata", o, n, "versions", v + ".json"];
    assert segs[1] == org && segs[2] == name;
  }

  lemma PrefixSegments(org: string, name: string, rest: string)
    requires '/' !in org && '/' !in name
    ensures Text.Split(VersionPrefixKey(org, name) + rest, '/') ==
            ["metadata", org, name, "versions"] + Text.Split(rest, '/')
  {
    var t2 := "versions" + ['/'] + rest;
    var t1 := name + ['/'] + t2;
    Text.SplitHead("versions", '/', rest);
    Text.SplitHead(name, '/', t2);
    OuterSegments(org, t1);
    PrefixNested(org, name, rest);
  }

  lemma PrefixNested(org: string, name: string, rest: string)
    ensures VersionPrefixKey(org, name) + rest ==
            "metadata" + ['/'] + (org + ['/'] + (name + ['/'] + ("versions" + ['/'] + rest)))
  {
    var x := "versions" + ['/'] + rest;
    assert "/versions/" + rest == ['/'] + x;
    assert VersionPrefixKey(org, name) + rest == "metadata/" + org + "/" + name + ("/versions/" + rest);
    var y := name + ['/'] + x;
    assert "metadata/" + org + "/" + name + (['/'] + x) == "metadata/" + org + (['/'] + y);
    assert "metadata/" == "metadata" + ['/'];
  }

  lemma OuterSegments(org: string, tail: string)
    requires '/' !in org
    ensures Text.Split("metadata" + ['/'] + (org + ['/'] + tail), '/') == ["metadata", org] + Text.Split(tail, '/')
  {
    Text.SplitHead(org, '/', tail);
    Text.SplitHead("metadata", '/', org + ['/'] + tail);
  }

  /** Publishers put nothing but version documents under a package's prefix. */
  lemma RunsKeepVersions(w: World, store: Store, events: seq<Event>, org: string, name: string)
    requires ValidWorld(w) && OrgName(org) && OrgName(name)
    requires OnlyVersions(org, name, KeysUnder(store, VersionPrefixKey(org, name)))
    ensures OnlyVersions(org, name, KeysUnder(Exec(w, Start(store), events).store, VersionPrefixKey(org, name)))
  {
    var prefix := VersionPrefixKey(org, name);
    forall key | key in KeysUnder(Exec(w, Start(store), events).store, prefix)
      ensures exists v :: VersionMetadataKey(org, name, v) == Some(key)
    {
      if key !in store {
        assert key[0] == prefix[0] == 'm';
        var id := PublishSafety.NewDocumentsAreClaimed(w, store, events, key);
        PlanWrites(w, id);
        var route := w.jobs(id).route;
        PrefixNamesPackage(org, name, route.org, route.name, route.version);
      } else {
        assert key in KeysUnder(store, prefix);
      }
    }
  }

  /** The package's keys at ten moments of a run. */
  function RunTimeline(w: World, store: Store, events: seq<Event>, times: seq<nat>, prefix: string,
                       uploaded: map<string, int>): Timeline
    requires forall k | 0 <= k < |times| :: times[k] <= |events|
  {
    Timeline(seq(|times|, k requires 0 <= k < |times| =>
      KeysUnder(Exec(w, Start(store), events[..times[k]]).store, prefix)), uploaded)
  }

  ghost predicate Moments(times: seq<nat>, events: seq<Event>) {
    && |times| == MAX_PAGES
    && (forall k | 0 <= k < |times| :: times[k] <= |events|)
    && (forall j, k | 0 <= j <= k < |times| :: times[j] <= times[k])
  }

  lemma RunTimelineGrows(w: World, store: Store, events: seq<Event>, times: seq<nat>, prefix: string,
                         uploaded: map<string, int>)
    requires ValidWorld(w) && Moments(times, events)
    requires KeysUnder(Exec(w, Start(store), events[..times[MAX_PAGES - 1]]).store, prefix) <= uploaded.Keys
    ensures Growing(RunTimeline(w, store, events, times, prefix, uploaded))
  {
    var b := RunTimeline(w, store, events, times, prefix, uploaded);
    forall j, k | 0 <= j <= k < MAX_PAGES ensures b.keys[j] <= b.keys[k] {
      RunsGrow(w, store, events, times[j], times[k], prefix);
    }
  }

  /**
   * End to end: while any publishers interleave, a listing whose pages are
   * honest shows every publish that had answered 201 before its first page.
   */
  lemma ListingShowsEveryEarlierPublish(
    w: World, store: Store, events: seq<Event>, times: seq<nat>, uploaded: map<string, int>,
    pages: Answers, calls: nat, objects: seq<Entry>, org: string, name: string,
    read: Reader, listing: PackageMetadata, id: nat)
    requires ValidWorld(w) && Moments(times, events) && OrgName(org) && OrgName(name)
    requires var prefix := VersionPrefixKey(org, name);
      && OnlyVersions(org, name, KeysUnder(store, prefix))
      && KeysUnder(Exec(w, Start(store), events[..times[MAX_PAGES - 1]]).store, prefix) <= uploaded.Keys
      && Honest(RunTimeline(w, store, events, times, prefix, uploaded), pages)
    requires 1 <= calls <= MAX_PAGES && Asked(pages, calls - 1)
    requires Conclude(pages[calls - 1], Entries(pages, calls - 1)) == Found(objects)
    requires Derive(org, name, objects, read) == Found(listing)
    requires PhaseOf(Exec(w, Start(store), events[..times[0]]), id) == Answered(201)
    requires w.jobs(id).route.org == org && w.jobs(id).route.name == name
    ensures w.jobs(id).route.version in listing.versions
    ensures forall v | v in listing.versions ::
      KeyOf(org, name, v) in Exec(w, Start(store), events[..times[calls - 1]]).store
  {
    var prefix := VersionPrefixKey(org, name);
    var b := RunTimeline(w, store, events, times, prefix, uploaded);
    RunTimelineGrows(w, store, events, times, prefix, uploaded);
    RunsKeepVersions(w, store, events[..times[calls - 1]], org, name);
    ListingIsExact(b, pages, calls, objects, org, name, read, listing);
    WinnerIsClaimed(w, store, events[..times[0]], id);
    var key := PlanOf(w, id).versionKey;
    assert key in b.keys[0] && b.keys[0] <= b.keys[MAX_PAGES - 1];
    assert Claimed(b, 0, org, name, w.jobs(id).route.version);
    forall v | v in listing.versions
      ensures KeyOf(org, name, v) in Exec(w, Start(store), events[..times[calls - 1]]).store
    {
      assert Claimed(b, calls - 1, org, name, v);
    }
  }

  lemma WinnerIsClaimed(w: World, store: Store, events: seq<Event>, id: nat)
    requires ValidWorld(w) && PhaseOf(Exec(w, Start(store), events), id) == Answered(201)
    ensures PlanOf(w, id).Write?
    ensures var route, key := w.jobs(id).route, PlanOf(w, id).versionKey;
      && VersionMetadataKey(route.org, route.name, route.version) == Some(key)
      && key in KeysUnder(Exec(w, Start(store), events).store, VersionPrefixKey(route.org, route.name))
  {
    PublishSafety.AtMostOnePublishWins(w, store, events, id, id);
    PlanWrites(w, id);
    var route, key := w.jobs(id).route, PlanOf(w, id).versionKey;
    assert key == VersionPrefixKey(route.org, route.name) + (route.version + ".json");
  }
}

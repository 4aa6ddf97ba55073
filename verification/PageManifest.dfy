/** The page manifest of a source contract: growing sets and one final count force
    the manifest to partition the units by their physical pages. */
module PageManifest {
  import opened Wrappers
  import opened Bytes
  import opened SourceContract
  import opened TableGrid
  import Text

  // ---------- the declarative reading ----------

  /** `key` names a unit that lies on page `p`. */
  ghost predicate OnPage(c: Contract, p: nat, key: string) {
    exists i :: 0 <= i < |c.units| && c.units[i].unitId == key && StandsOn(c.units[i], p)
  }

  ghost predicate IsImage(c: Contract, key: string) {
    exists i :: 0 <= i < |c.units| && c.units[i].unitId == key && c.units[i].kind == ImageRegion
  }

  predicate Lists(page: SourcePage, key: string) { key in page.unitIds }
  predicate ListsImage(page: SourcePage, key: string) { key in page.imageIds }

  ghost predicate PageNamed(page: SourcePage, p: nat) {
    && page.ordinal == p
    && (page.classification == "text" || page.classification == "scanned" || page.classification == "blank")
  }

  /** Page `p` lists each unit that lies on it once, and no other, and its image
      list holds each image unit among them once. */
  ghost predicate PageExact(c: Contract, p: nat)
    requires p < |c.pages|
  {
    var page := c.pages[p];
    && PageNamed(page, p) && Distinct(page.unitIds) && Distinct(page.imageIds)
    && (forall k: string :: Lists(page, k) <==> OnPage(c, p, k))
    && (forall k: string :: ListsImage(page, k) <==> OnPage(c, p, k) && IsImage(c, k))
  }

  ghost predicate Paged(c: Contract, i: nat)
    requires i < |c.units|
  {
    exists p :: 0 <= p < |c.pages| && StandsOn(c.units[i], p)
  }

  ghost predicate Partitions(c: Contract) {
    && (forall p :: 0 <= p < |c.pages| ==> PageExact(c, p))
    && (c.pages != [] ==> forall i :: 0 <= i < |c.units| ==> Paged(c, i))
  }

  // ---------- what the loops establish ----------

  /** What one turn of the page loop checks. */
  ghost predicate PageChecked(c: Contract, p: nat)
    requires p < |c.pages|
  {
    var page := c.pages[p];
    && PageNamed(page, p) && Distinct(page.unitIds) && Distinct(page.imageIds)
    && (forall k: string :: Lists(page, k) ==> OnPage(c, p, k))
    && (forall k: string :: ListsImage(page, k) <==> Lists(page, k) && IsImage(c, k))
  }

  ghost predicate ListedBefore(c: Contract, n: nat, key: string)
    requires n <= |c.pages|
  {
    exists p :: 0 <= p < n && Lists(c.pages[p], key)
  }

  ghost predicate UniqueIds(c: Contract) { Distinct(Ids(c.units)) }

  lemma SameUnit(c: Contract, i: nat, j: nat)
    requires UniqueIds(c) && i < |c.units| && j < |c.units| && c.units[i].unitId == c.units[j].unitId
    ensures i == j
  {
    assert Ids(c.units)[i] == Ids(c.units)[j];
  }

  lemma OnePage(c: Contract, p: nat, q: nat, key: string)
    requires UniqueIds(c) && OnPage(c, p, key) && OnPage(c, q, key)
    ensures p == q
  {
    var i :| 0 <= i < |c.units| && c.units[i].unitId == key && StandsOn(c.units[i], p);
    var j :| 0 <= j < |c.units| && c.units[j].unitId == key && StandsOn(c.units[j], q);
    SameUnit(c, i, j);
  }

  method IndexUnits(c: Contract) returns (index: map<string, Identity>)
    requires UniqueIds(c)
    ensures forall i :: 0 <= i < |c.units| ==> c.units[i].unitId in index && index[c.units[i].unitId] == c.units[i]
    ensures forall k :: k in index ==> exists i :: 0 <= i < |c.units| && c.units[i].unitId == k
  {
    index := map[];
    for n := 0 to |c.units|
      invariant forall i :: 0 <= i < n ==> c.units[i].unitId in index && index[c.units[i].unitId] == c.units[i]
      invariant forall k :: k in index ==> exists i :: 0 <= i < n && c.units[i].unitId == k
    {
      assert forall i :: 0 <= i < n ==> Ids(c.units)[i] != Ids(c.units)[n];
      index := index[c.units[n].unitId := c.units[n]];
    }
  }

  ghost predicate Indexes(index: map<string, Identity>, c: Contract) {
    && (forall p: nat, k :: OnPage(c, p, k) <==> k in index && StandsOn(index[k], p))
    && (forall k :: IsImage(c, k) <==> k in index && index[k].kind == ImageRegion)
  }

  lemma IndexDecides(index: map<string, Identity>, c: Contract)
    requires forall i :: 0 <= i < |c.units| ==> c.units[i].unitId in index && index[c.units[i].unitId] == c.units[i]
    requires forall k :: k in index ==> exists i :: 0 <= i < |c.units| && c.units[i].unitId == k
    ensures Indexes(index, c)
  {
  }

  /** The inner loop over the units of one page. */
  method CheckPageUnits(c: Contract, n: nat, index: map<string, Identity>, before: set<string>)
    returns (r: Result<(), Failure>, covered: set<string>)
    requires n < |c.pages| && UniqueIds(c) && Indexes(index, c) && c.pages[n].ordinal == n
    requires forall p :: 0 <= p < n ==> PageChecked(c, p)
    requires forall k :: k in before <==> ListedBefore(c, n, k)
    ensures r.Ok? <==> Distinct(c.pages[n].unitIds) && forall k: string :: Lists(c.pages[n], k) ==> OnPage(c, n, k)
    ensures r.Ok? ==> forall k :: k in covered <==> k in before || Lists(c.pages[n], k)
  {
    var keys := c.pages[n].unitIds;
    var pageIds: set<string> := {};
    covered := before;
    for j := 0 to |keys|
      invariant Distinct(keys[..j]) && forall k: string :: k in keys[..j] ==> OnPage(c, n, k)
      invariant forall k :: k in pageIds <==> k in keys[..j]
      invariant forall k :: k in covered <==> k in before || k in keys[..j]
    {
      var key := keys[j];
      assert keys[..j + 1] == keys[..j] + [key];
      assert Lists(c.pages[n], key);
      if key !in index { return Err(UnknownUnit), covered; }
      if key in pageIds { return Err(PageMismatch), covered; }
      if key in covered {
        var p :| 0 <= p < n && Lists(c.pages[p], key);
        assert PageChecked(c, p);
        if OnPage(c, n, key) { OnePage(c, p, n, key); }
        return Err(PageMismatch), covered;
      }
      PageStands(index[key]);
      if PageOf(index[key]) != Some(n) { return Err(PageMismatch), covered; }
      pageIds := pageIds + {key};
      covered := covered + {key};
    }
    assert keys[..|keys|] == keys;
    r := Ok(());
  }

  method CheckPageImages(c: Contract, n: nat, index: map<string, Identity>) returns (ok: bool)
    requires n < |c.pages| && Indexes(index, c)
    ensures ok <==> Distinct(c.pages[n].imageIds)
                    && forall k: string :: ListsImage(c.pages[n], k) <==> Lists(c.pages[n], k) && IsImage(c, k)
  {
    var page := c.pages[n];
    var expected := set k | k in page.unitIds && k in index && index[k].kind == ImageRegion;
    var actual := set k | k in page.imageIds;
    SizeDecidesDistinct(page.imageIds);
    ok := expected == actual && |actual| == |page.imageIds|;
    assert actual == Members(page.imageIds);
    assert forall k :: k in expected <==> Lists(page, k) && IsImage(c, k);
    assert forall k :: k in actual <==> ListsImage(page, k);
    if forall k :: ListsImage(page, k) <==> Lists(page, k) && IsImage(c, k) { assert expected == actual; }
  }

  ghost function Members(s: seq<string>): set<string> { set k | k in s }

  /** A list has no duplicate exactly when its set is as large as it is long. */
  lemma {:induction false} SizeDecidesDistinct(s: seq<string>)
    ensures |Members(s)| <= |s|
    ensures |Members(s)| == |s| <==> Distinct(s)
  {
    if s != [] {
      var n := |s| - 1;
      var rest := s[..n];
      SizeDecidesDistinct(rest);
      assert s == rest + [s[n]];
      assert Members(s) == Members(rest) + {s[n]};
      assert Distinct(s) <==> Distinct(rest) && s[n] !in rest;
    }
  }

  lemma CountedIsCovered(c: Contract, covered: set<string>)
    requires UniqueIds(c) && covered <= Members(Ids(c.units))
    ensures |covered| == |c.units| <==> covered == Members(Ids(c.units))
  {
    var ids := Members(Ids(c.units));
    SizeDecidesDistinct(Ids(c.units));
    assert ids == covered + (ids - covered);
  }

  /** The count at the end turns the one-sided checks of the loop into a partition. */
  lemma CheckedIsPartition(c: Contract, covered: set<string>)
    requires UniqueIds(c)
    requires forall p :: 0 <= p < |c.pages| ==> PageChecked(c, p)
    requires forall k :: k in covered <==> ListedBefore(c, |c.pages|, k)
    ensures (c.pages == [] || |covered| == |c.units|) <==> Partitions(c)
  {
    forall k | k in covered ensures k in Members(Ids(c.units)) {
      var p :| 0 <= p < |c.pages| && Lists(c.pages[p], k);
      assert PageChecked(c, p) && OnPage(c, p, k);
      var i :| 0 <= i < |c.units| && c.units[i].unitId == k;
      assert Ids(c.units)[i] == k;
    }
    CountedIsCovered(c, covered);
    if c.pages != [] && covered == Members(Ids(c.units)) {
      forall i | 0 <= i < |c.units| ensures ListedBefore(c, |c.pages|, c.units[i].unitId) {
        assert Ids(c.units)[i] in Members(Ids(c.units));
      }
      CoveredIsPartition(c);
    }
    if c.pages != [] && Partitions(c) {
      PartitionCovers(c);
      assert covered == Members(Ids(c.units));
    }
  }

  lemma CoveredIsPartition(c: Contract)
    requires UniqueIds(c)
    requires forall p :: 0 <= p < |c.pages| ==> PageChecked(c, p)
    requires forall i :: 0 <= i < |c.units| ==> ListedBefore(c, |c.pages|, c.units[i].unitId)
    ensures Partitions(c)
  {
    forall p, k | 0 <= p < |c.pages| && OnPage(c, p, k) ensures Lists(c.pages[p], k) {
      var i :| 0 <= i < |c.units| && c.units[i].unitId == k;
      var q :| 0 <= q < |c.pages| && Lists(c.pages[q], k);
      assert PageChecked(c, q) && OnPage(c, q, k);
      OnePage(c, p, q, k);
    }
    forall p | 0 <= p < |c.pages| ensures PageExact(c, p) { assert PageChecked(c, p); }
    forall i | 0 <= i < |c.units| ensures Paged(c, i) {
      var k := c.units[i].unitId;
      var q :| 0 <= q < |c.pages| && Lists(c.pages[q], k);
      assert PageChecked(c, q) && OnPage(c, q, k);
      var j :| 0 <= j < |c.units| && c.units[j].unitId == k && StandsOn(c.units[j], q);
      SameUnit(c, i, j);
    }
  }

  lemma PartitionCovers(c: Contract)
    requires Partitions(c) && c.pages != []
    ensures forall k :: k in Ids(c.units) ==> ListedBefore(c, |c.pages|, k)
  {
    forall k | k in Ids(c.units) ensures ListedBefore(c, |c.pages|, k) {
      var i :| 0 <= i < |c.units| && Ids(c.units)[i] == k;
      assert Paged(c, i);
      var p :| 0 <= p < |c.pages| && StandsOn(c.units[i], p);
      assert PageExact(c, p) && OnPage(c, p, k);
    }
  }

  lemma ExactIsChecked(c: Contract, p: nat)
    requires p < |c.pages| && PageExact(c, p)
    ensures PageChecked(c, p)
  {
  }

  /** One turn of the page loop. */
  method CheckPage(c: Contract, n: nat, index: map<string, Identity>, before: set<string>)
    returns (r: Result<(), Failure>, covered: set<string>)
    requires n < |c.pages| && UniqueIds(c) && Indexes(index, c)
    requires forall p :: 0 <= p < n ==> PageChecked(c, p)
    requires forall k :: k in before <==> ListedBefore(c, n, k)
    ensures r.Ok? <==> PageChecked(c, n)
    ensures r.Ok? ==> forall k :: k in covered <==> k in before || Lists(c.pages[n], k)
  {
    var page := c.pages[n];
    if page.ordinal != n
       || (page.classification != "text" && page.classification != "scanned" && page.classification != "blank")
    {
      return Err(PageOrder), before;
    }
    r, covered := CheckPageUnits(c, n, index, before);
    if r.Err? { return; }
    var images := CheckPageImages(c, n, index);
    if !images { return Err(PageImages), covered; }
  }

  lemma ListedNext(c: Contract, n: nat, key: string)
    requires n < |c.pages|
    ensures ListedBefore(c, n + 1, key) <==> ListedBefore(c, n, key) || Lists(c.pages[n], key)
  {
  }

  /** The page loop of the contract check. */
  method CheckPages(c: Contract) returns (r: Result<(), Failure>)
    requires UniqueIds(c)
    ensures r.Ok? <==> Partitions(c)
  {
    var index := IndexUnits(c);
    IndexDecides(index, c);
    var covered: set<string> := {};
    for n := 0 to |c.pages|
      invariant forall p :: 0 <= p < n ==> PageChecked(c, p)
      invariant forall k :: k in covered <==> ListedBefore(c, n, k)
    {
      r, covered := CheckPage(c, n, index, covered);
      if r.Err? {
        if PageExact(c, n) { ExactIsChecked(c, n); }
        return;
      }
      forall k ensures ListedBefore(c, n + 1, k) <==> ListedBefore(c, n, k) || Lists(c.pages[n], k) {
        ListedNext(c, n, k);
      }
    }
    CheckedIsPartition(c, covered);
    if c.pages != [] && |covered| != |c.units| { return Err(OmittedUnits); }
    r := Ok(());
  }

  // ---------- the whole contract ----------

  /** What the parser returned, with its `page_count` metadata. */
  datatype Parsed = Parsed(markdown: seq<Byte>, units: seq<Unit>, pageCount: Option<string>)

  predicate IsHex(c: char) { '0' <= c <= '9' || 'a' <= c <= 'f' || 'A' <= c <= 'F' }

  /** The digits that hexadecimal text is made of. */
  lemma HexDigits(c: char)
    ensures IsHex(c) <==> c in "0123456789abcdefABCDEF"
  {
  }

  ghost predicate HeaderOk(c: Contract, parsed: Parsed, sha: Hash) {
    && c.schemaVersion == 2 && |c.revision| == 64
    && (forall i :: 0 <= i < |c.revision| ==> c.revision[i] in "0123456789abcdefABCDEF")
    && !AllSpace(c.parserVersion) && c.markdownSha == sha(parsed.markdown) && |c.units| == |parsed.units|
  }

  ghost predicate CountOk(c: Contract, pageCount: Option<string>) {
    pageCount.Some? ==> Text.ParseBelow(pageCount.value, 0x1_0000_0000_0000_0000) == Some(|c.pages|)
  }

  ghost predicate Accepted(c: Contract, parsed: Parsed, sha: Hash) {
    && c.glyphsVerified && HeaderOk(c, parsed, sha)
    && UnitsOk(c, parsed.units, parsed.markdown, sha) && Partitions(c) && CountOk(c, parsed.pageCount)
  }

  /** The revision is 64 hexadecimal digits. */
  method CheckRevision(revision: string) returns (ok: bool)
    ensures ok <==> |revision| == 64 && forall i :: 0 <= i < |revision| ==> revision[i] in "0123456789abcdefABCDEF"
  {
    if |revision| != 64 { return false; }
    for n := 0 to |revision|
      invariant forall i :: 0 <= i < n ==> revision[i] in "0123456789abcdefABCDEF"
    {
      HexDigits(revision[n]);
      if !IsHex(revision[n]) { return false; }
    }
    ok := true;
  }

  method CheckHeader(c: Contract, parsed: Parsed, sha: Hash) returns (ok: bool)
    ensures ok <==> HeaderOk(c, parsed, sha)
  {
    var hex := CheckRevision(c.revision);
    var blank := Blank(c.parserVersion);
    ok := c.schemaVersion == 2 && hex && !blank && c.markdownSha == sha(parsed.markdown) && |c.units| == |parsed.units|;
  }

  /** A contract is accepted exactly when its units are the native ones, pairwise
      distinct and mapped to ordered spans, and its pages partition them. */
  method Validate(c: Contract, parsed: Parsed, sha: Hash) returns (r: Result<(), Failure>)
    ensures r.Ok? <==> Accepted(c, parsed, sha)
  {
    if !c.glyphsVerified { return Err(Glyphs); }
    var header := CheckHeader(c, parsed, sha);
    if !header { return Err(HeaderMismatch); }
    r := CheckUnits(c, parsed.units, parsed.markdown, sha);
    if r.Err? { return; }
    r := CheckPages(c);
    if r.Err? { return; }
    if parsed.pageCount.Some? {
      var count := Text.ParseBelow(parsed.pageCount.value, 0x1_0000_0000_0000_0000);
      if count.None? { return Err(PageCount); }
      if count.value != |c.pages| { return Err(PageCoverage); }
    }
  }

  ghost predicate ListedAt(c: Contract, key: string, p: nat, j: nat) {
    p < |c.pages| && j < |c.pages[p].unitIds| && c.pages[p].unitIds[j] == key
  }

  /** Each unit of an accepted contract with pages stands at exactly one place of
      the manifest, on its own physical page, and in that page's image list
      exactly when it is an image; no other page's image list has it. */
  lemma UnitsArePartitioned(c: Contract, parsed: Parsed, sha: Hash, i: nat) returns (p: nat, j: nat)
    requires Accepted(c, parsed, sha) && c.pages != [] && i < |c.units|
    ensures ListedAt(c, c.units[i].unitId, p, j) && StandsOn(c.units[i], p) && c.pages[p].ordinal == p
    ensures forall q: nat, l: nat :: ListedAt(c, c.units[i].unitId, q, l) ==> q == p && l == j
    ensures forall q ::
              0 <= q < |c.pages| && ListsImage(c.pages[q], c.units[i].unitId) <==>
              q == p && c.units[i].kind == ImageRegion
  {
    var key := c.units[i].unitId;
    assert Paged(c, i);
    p :| 0 <= p < |c.pages| && StandsOn(c.units[i], p);
    assert PageExact(c, p) && OnPage(c, p, key);
    j :| 0 <= j < |c.pages[p].unitIds| && c.pages[p].unitIds[j] == key;
    forall q: nat, l: nat | ListedAt(c, key, q, l) ensures q == p && l == j {
      assert PageExact(c, q) && Lists(c.pages[q], key);
      OnePage(c, p, q, key);
    }
    assert IsImage(c, key) <==> c.units[i].kind == ImageRegion by {
      if IsImage(c, key) {
        var m :| 0 <= m < |c.units| && c.units[m].unitId == key && c.units[m].kind == ImageRegion;
        SameUnit(c, i, m);
      }
    }
    forall q | 0 <= q < |c.pages| && ListsImage(c.pages[q], key) ensures q == p {
      assert PageExact(c, q);
      OnePage(c, p, q, key);
    }
  }

  ghost function Listings(c: Contract, n: nat): nat
    requires n <= |c.pages|
  {
    if n == 0 then 0 else Listings(c, n - 1) + |c.pages[n - 1].unitIds|
  }

  ghost predicate ListedKeys(c: Contract, n: nat, keys: set<string>)
    requires n <= |c.pages|
  {
    forall k :: k in keys <==> ListedBefore(c, n, k)
  }

  lemma ListedElsewhere(c: Contract, n: nat, k: string)
    requires UniqueIds(c) && Partitions(c) && n < |c.pages| && ListedBefore(c, n, k)
    ensures !Lists(c.pages[n], k)
  {
    var p :| 0 <= p < n && Lists(c.pages[p], k);
    assert PageExact(c, p) && PageExact(c, n);
    if Lists(c.pages[n], k) { OnePage(c, p, n, k); }
  }

  lemma DisjointUnion(a: set<string>, b: set<string>)
    requires forall k :: k in a ==> k !in b
    ensures |a + b| == |a| + |b|
  {
    assert a !! b;
  }

  lemma {:induction false} ListingsAreDisjoint(c: Contract, n: nat) returns (keys: set<string>)
    requires UniqueIds(c) && Partitions(c) && n <= |c.pages|
    ensures ListedKeys(c, n, keys) && |keys| == Listings(c, n)
  {
    if n == 0 {
      keys := {};
    } else {
      var before := ListingsAreDisjoint(c, n - 1);
      var page := c.pages[n - 1];
      assert PageExact(c, n - 1);
      SizeDecidesDistinct(page.unitIds);
      forall k | k in before ensures k !in Members(page.unitIds) { ListedElsewhere(c, n - 1, k); }
      DisjointUnion(before, Members(page.unitIds));
      keys := before + Members(page.unitIds);
      forall k ensures k in keys <==> ListedBefore(c, n, k) { ListedNext(c, n - 1, k); }
    }
  }

  /** Nothing is listed twice or left out: the page lists together are as long as
      the unit list. */
  lemma ListingsAreConserved(c: Contract, parsed: Parsed, sha: Hash)
    requires Accepted(c, parsed, sha) && c.pages != []
    ensures Listings(c, |c.pages|) == |c.units|
  {
    var keys := ListingsAreDisjoint(c, |c.pages|);
    PartitionCovers(c);
    forall k | k in keys ensures k in Members(Ids(c.units)) {
      var p :| 0 <= p < |c.pages| && Lists(c.pages[p], k);
      assert PageExact(c, p) && OnPage(c, p, k);
      var i :| 0 <= i < |c.units| && c.units[i].unitId == k;
      assert Ids(c.units)[i] == k;
    }
    assert keys == Members(Ids(c.units));
    SizeDecidesDistinct(Ids(c.units));
  }
}

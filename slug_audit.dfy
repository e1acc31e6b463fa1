/**
 * The content audit: compares the concept slugs seeded into the database with the
 * slugs named by the content files and reports every mismatch. Reading the files,
 * the tuple regular expression and printing are outside the model; what remains is
 * the locating of the seed insert block, duplicate detection and the set logic.
 */
module SlugAudit {
  import opened Common

  const INSERT_TEXT: string := "insert into concepts"
  const CONFLICT_TEXT: string := "on conflict (slug) do nothing;"
  const LOCATE_ERROR: string := "Unable to locate concepts seed insert block in supabase/seed.sql"

  /** `pat` occurs in `s` starting at position `i`. */
  predicate OccursAt(s: string, pat: string, i: int)
  {
    0 <= i && i + |pat| <= |s| && s[i..i + |pat|] == pat
  }

  /** `s.indexOf(pat, from)` for `from >= 0`: the first occurrence at or after `from`, or -1. */
  function IndexOf(s: string, pat: string, from: nat): (r: int)
    ensures r == -1 || (from <= r && OccursAt(s, pat, r))
    ensures r == -1 ==> forall i :: from <= i ==> !OccursAt(s, pat, i)
    ensures r != -1 ==> forall i :: from <= i < r ==> !OccursAt(s, pat, i)
    decreases |s| - from
  {
    if from + |pat| > |s| then -1
    else if s[from..from + |pat|] == pat then from
    else IndexOf(s, pat, from + 1)
  }

  /**
   * The bounds of the seed's concepts insert block: from the first
   * "insert into concepts" to the first "on conflict (slug) do nothing;" after
   * it; an error when either is missing.
   */
  function LocateSeedInsertBlock(seedSql: string): (r: Result<(nat, nat), string>)
    ensures r.Err? <==>
      (forall i :: !OccursAt(seedSql, INSERT_TEXT, i)) ||
      (exists a :: OccursAt(seedSql, INSERT_TEXT, a) && (forall i :: 0 <= i < a ==> !OccursAt(seedSql, INSERT_TEXT, i))
        && forall j :: a <= j ==> !OccursAt(seedSql, CONFLICT_TEXT, j))
    ensures r.Err? ==> r.error == LOCATE_ERROR
    ensures r.Ok? ==> var (a, b) := r.value;
      && OccursAt(seedSql, INSERT_TEXT, a) && (forall i :: 0 <= i < a ==> !OccursAt(seedSql, INSERT_TEXT, i))
      && a <= b && OccursAt(seedSql, CONFLICT_TEXT, b)
      && (forall j :: a <= j < b ==> !OccursAt(seedSql, CONFLICT_TEXT, j))
  {
    var insertStart := IndexOf(seedSql, INSERT_TEXT, 0);
    // indexOf treats a negative start position as 0
    var insertEnd := IndexOf(seedSql, CONFLICT_TEXT, if insertStart < 0 then 0 else insertStart);
    if insertStart < 0 || insertEnd < 0 then Err(LOCATE_ERROR)
    else Ok((insertStart, insertEnd))
  }

  /** The elements of a sequence, as a set. */
  function Elems(s: seq<string>): set<string>
  {
    set x | x in s
  }

  /** `[...new Set(s)]`: every value once, in order of first occurrence. */
  function Unique(s: seq<string>): (r: seq<string>)
    ensures Distinct(r)
    ensures forall x :: x in r <==> x in s
    ensures Elems(r) == Elems(s)
    decreases |s|
  {
    if |s| == 0 then []
    else
      var front := s[..|s| - 1];
      var u := Unique(front);
      assert Elems(s) == Elems(front) + {s[|s| - 1]} by {
        assert s == front + [s[|s| - 1]];
      }
      if s[|s| - 1] in front then u else u + [s[|s| - 1]]
  }

  /** The position of the first occurrence of `x` in `s`. */
  function FirstIndex(x: string, s: seq<string>): (i: nat)
    requires x in s
    ensures i < |s| && s[i] == x && x !in s[..i]
  {
    if s[0] == x then 0 else 1 + FirstIndex(x, s[1..])
  }

  lemma FirstIndexInPrefix(x: string, s: seq<string>, n: nat)
    requires n <= |s| && x in s[..n]
    ensures FirstIndex(x, s) == FirstIndex(x, s[..n])
  {
    var i := FirstIndex(x, s[..n]);
    assert s[..n][..i] == s[..i];
  }

  /** `Unique` lists values in the order in which they first occur. */
  lemma {:induction false} UniqueKeepsFirstOccurrenceOrder(s: seq<string>)
    ensures forall i, j :: 0 <= i < j < |Unique(s)| ==>
      FirstIndex(Unique(s)[i], s) < FirstIndex(Unique(s)[j], s)
    decreases |s|
  {
    if |s| > 0 {
      var n := |s| - 1;
      var front := s[..n];
      var u := Unique(front);
      UniqueKeepsFirstOccurrenceOrder(front);
      forall x | x in u
        ensures FirstIndex(x, s) == FirstIndex(x, front) < n
      {
        assert x in Elems(front);
        FirstIndexInPrefix(x, s, n);
      }
      if s[n] !in front {
        assert FirstIndex(s[n], s) == n;
        assert Unique(s) == u + [s[n]];
        forall i, j | 0 <= i < j < |Unique(s)|
          ensures FirstIndex(Unique(s)[i], s) < FirstIndex(Unique(s)[j], s)
        {
          assert Unique(s)[i] == u[i];
          if j < |u| {
            assert Unique(s)[j] == u[j];
          }
        }
      }
    }
  }

  /** A JavaScript `Map` from values to counts: `order` is its key insertion order. */
  datatype CountMap = CountMap(order: seq<string>, counts: map<string, nat>)
  {
    ghost predicate Valid()
    {
      Distinct(order) && Elems(order) == counts.Keys
    }

    /** `map.get(k) ?? 0` */
    function Get(k: string): nat
    {
      if k in counts then counts[k] else 0
    }

    /** `map.set(k, v)`: a new key goes to the end of the order, an old one keeps its place. */
    function Set(k: string, v: nat): (m: CountMap)
      requires Valid()
      ensures m.Valid()
      ensures m.counts == counts[k := v]
      ensures m.order == if k in counts then order else order + [k]
    {
      if k in counts then CountMap(order, counts[k := v]) else CountMap(order + [k], counts[k := v])
    }

    /** `[...map.entries()].filter(([, count]) => count > 1).map(([value]) => value)` */
    function KeysCountedTwice(): (r: seq<string>)
      requires Valid()
    {
      Filter(order, (k: string) => k in counts && counts[k] > 1)
    }
  }

  /** Values of `values` that occur at least twice, once each, in order of first occurrence. */
  function Duplicates(values: seq<string>): seq<string>
  {
    Filter(Unique(values), (v: string) => multiset(values)[v] > 1)
  }

  /** The counts map after the first i values: keys in first-occurrence order, each with its count. */
  ghost predicate CountedUpTo(counts: CountMap, values: seq<string>, i: nat)
    requires i <= |values|
  {
    counts.Valid()
    && counts.order == Unique(values[..i])
    && forall v :: v in counts.counts ==> counts.counts[v] == multiset(values[..i])[v]
  }

  /** Counting one more value. */
  lemma CountStep(counts: CountMap, values: seq<string>, i: nat)
    requires i < |values| && CountedUpTo(counts, values, i)
    ensures CountedUpTo(counts.Set(values[i], counts.Get(values[i]) + 1), values, i + 1)
  {
    var value := values[i];
    assert values[..i + 1] == values[..i] + [value];
    assert value in counts.counts <==> value in values[..i] by {
      assert Elems(counts.order) == Elems(values[..i]);
    }
  }

  /** Once every value is counted, the keys counted twice are the duplicates. */
  lemma CountedAll(counts: CountMap, values: seq<string>)
    requires CountedUpTo(counts, values, |values|)
    ensures counts.KeysCountedTwice() == Duplicates(values)
  {
    assert values[..|values|] == values;
    FilterAgrees(Unique(values), (k: string) => k in counts.counts && counts.counts[k] > 1,
      (v: string) => multiset(values)[v] > 1);
  }

  /** The counting loop: once all values are counted, the map's keys are `Unique(values)`. */
  method FindDuplicates(values: seq<string>) returns (dups: seq<string>)
    ensures dups == Duplicates(values)
  {
    var counts := CountMap([], map[]);
    for i := 0 to |values|
      invariant CountedUpTo(counts, values, i)
    {
      CountStep(counts, values, i);
      counts := counts.Set(values[i], counts.Get(values[i]) + 1);
    }
    CountedAll(counts, values);
    dups := counts.KeysCountedTwice();
  }

  /** A value is reported as duplicate iff it occurs at least twice; none is reported twice. */
  lemma DuplicatesMeaning(values: seq<string>)
    ensures forall v :: v in Duplicates(values) <==> multiset(values)[v] >= 2
    ensures Distinct(Duplicates(values))
  {
    DistinctFilter(Unique(values), (v: string) => multiset(values)[v] > 1);
    forall v | multiset(values)[v] >= 2
      ensures v in Duplicates(values)
    {
      assert v in values;
    }
  }

  /** Two filters that agree on every element of `s` keep the same elements. */
  lemma {:induction false} FilterAgrees(s: seq<string>, p: string -> bool, q: string -> bool)
    requires forall x :: x in s ==> p(x) == q(x)
    ensures Filter(s, p) == Filter(s, q)
    decreases |s|
  {
    if |s| > 0 {
      assert forall x :: x in s[..|s| - 1] ==> x in s;
      FilterAgrees(s[..|s| - 1], p, q);
    }
  }

  lemma {:induction false} DistinctFilter(s: seq<string>, p: string -> bool)
    requires Distinct(s)
    ensures Distinct(Filter(s, p))
    decreases |s|
  {
    if |s| > 0 {
      var n := |s| - 1;
      DistinctFilter(s[..n], p);
      var f := Filter(s[..n], p);
    }
  }

  /** A sequence is free of repeats iff no value in it occurs twice. */
  lemma DistinctIffNoDuplicates(values: seq<string>)
    ensures Distinct(values) <==> Duplicates(values) == []
  {
    DuplicatesMeaning(values);
    if Distinct(values) {
      DistinctCountsOnce(values);
      assert forall v :: v !in Duplicates(values);
      NoMembersEmpty(Duplicates(values));
    } else {
      var i, j :| 0 <= i < j < |values| && values[i] == values[j];
      assert values == values[..j] + [values[j]] + values[j + 1..];
      assert values[i] in values[..j];
      assert multiset(values)[values[i]] >= 2;
      assert values[i] in Duplicates(values);
    }
  }

  lemma NoMembersEmpty(s: seq<string>)
    ensures (forall v :: v !in s) ==> s == []
  {
    if |s| > 0 {
      assert s[0] in s;
    }
  }

  /** What the audit computes besides its log output. */
  datatype AuditReport = AuditReport(
    seedUnique: seq<string>,
    contentUnique: seq<string>,
    onlyInSeed: seq<string>,
    onlyInContent: seq<string>,
    duplicateSeed: seq<string>,
    duplicateContent: seq<string>,
    invalidFiles: seq<string>,
    hasMismatch: bool)

  /** The unique, only-in, duplicate and mismatch computations of the audit. */
  method AuditSlugs(seedSlugs: seq<string>, contentSlugs: seq<string>, invalidFiles: seq<string>)
    returns (report: AuditReport)
    ensures report.seedUnique == Unique(seedSlugs) && report.contentUnique == Unique(contentSlugs)
    ensures forall x :: x in report.onlyInSeed <==> x in seedSlugs && x !in contentSlugs
    ensures forall x :: x in report.onlyInContent <==> x in contentSlugs && x !in seedSlugs
    ensures Distinct(report.onlyInSeed) && Distinct(report.onlyInContent)
    ensures report.duplicateSeed == Duplicates(seedSlugs)
    ensures report.duplicateContent == Duplicates(contentSlugs)
    ensures report.invalidFiles == invalidFiles
    ensures report.hasMismatch <==>
      !(Elems(seedSlugs) == Elems(contentSlugs) && Distinct(seedSlugs) && Distinct(contentSlugs) && invalidFiles == [])
  {
    var seedUnique := Unique(seedSlugs);
    var contentUnique := Unique(contentSlugs);
    var seedSet := Elems(seedUnique);
    var contentSet := Elems(contentUnique);
    var onlyInSeed := Filter(seedUnique, (slug: string) => slug !in contentSet);
    var onlyInContent := Filter(contentUnique, (slug: string) => slug !in seedSet);
    var duplicateSeed := FindDuplicates(seedSlugs);
    var duplicateContent := FindDuplicates(contentSlugs);
    var hasMismatch :=
      |onlyInSeed| > 0 ||
      |onlyInContent| > 0 ||
      |duplicateSeed| > 0 ||
      |duplicateContent| > 0 ||
      |invalidFiles| > 0;
    report := AuditReport(seedUnique, contentUnique, onlyInSeed, onlyInContent,
      duplicateSeed, duplicateContent, invalidFiles, hasMismatch);
    DistinctFilter(seedUnique, (slug: string) => slug !in contentSet);
    DistinctFilter(contentUnique, (slug: string) => slug !in seedSet);
    DistinctIffNoDuplicates(seedSlugs);
    DistinctIffNoDuplicates(contentSlugs);
    OnlyInEmptyIffSameSlugs(seedSlugs, contentSlugs, onlyInSeed, onlyInContent);
  }

  lemma OnlyInEmptyIffSameSlugs(seed: seq<string>, content: seq<string>, a: seq<string>, b: seq<string>)
    requires forall x :: x in a <==> x in seed && x !in content
    requires forall x :: x in b <==> x in content && x !in seed
    ensures (a == [] && b == []) <==> Elems(seed) == Elems(content)
  {
    if a != [] {
      assert a[0] in Elems(seed) - Elems(content);
    }
    if b != [] {
      assert b[0] in Elems(content) - Elems(seed);
    }
    if Elems(seed) != Elems(content) {
      if x :| x in Elems(seed) - Elems(content) {
        assert x in a;
      } else {
        var y :| y in Elems(content) - Elems(seed);
        assert y in b;
      }
    }
  }
}

/**
 * The section index the picker builds from the host's country catalog:
 * countries grouped under the first character of their name, each group
 * ordered by name, and the section titles in ascending order.
 */
module Countries {
  import opened Lexicographic

  /** A country record as the picker reads it (the flag image is not modelled). */
  datatype Country = Country(name: string, phoneCode: string)

  /** `name[name.startIndex]` traps on an empty name, so indexing needs a named country. */
  predicate Named(c: Country) {
    |c.name| > 0
  }

  predicate AllNamed(catalog: seq<Country>) {
    forall c :: c in catalog ==> Named(c)
  }

  /** The section key of a country: the first character of its name, exactly as written. */
  function Key(c: Country): (k: string)
    requires Named(c)
    ensures |k| == 1 && HasPrefix(c.name, k)
  {
    [c.name[0]]
  }

  /** Which countries a filter keeps. */
  datatype Selector =
    | SameInitial(key: string)  // the countries of one section
    | NamePrefix(query: string) // the countries a search query matches

  predicate Selects(sel: Selector, c: Country) {
    match sel
    case SameInitial(k) => Named(c) && Key(c) == k
    case NamePrefix(q) => HasPrefix(c.name, q)
  }

  /** The countries of `s` that `sel` keeps, in their order in `s`. */
  function Filter(s: seq<Country>, sel: Selector): (r: seq<Country>)
    ensures |r| <= |s|
  {
    if s == [] then []
    else Filter(s[..|s| - 1], sel) + (if Selects(sel, s[|s| - 1]) then [s[|s| - 1]] else [])
  }

  /** The catalog entries filed under section `k`, in catalog order. */
  function Bucket(catalog: seq<Country>, k: string): seq<Country> {
    Filter(catalog, SameInitial(k))
  }

  /** The entries of `s` whose name starts with `query`, in their order in `s`. */
  function StartingWith(s: seq<Country>, query: string): seq<Country> {
    Filter(s, NamePrefix(query))
  }

  /** The distinct section keys of the catalog. */
  function FirstLetters(catalog: seq<Country>): set<string> {
    set c | c in catalog && Named(c) :: Key(c)
  }

  ghost predicate SortedByName(s: seq<Country>) {
    forall i, j :: 0 <= i < j < |s| ==> !Less(s[j].name, s[i].name)
  }

  ghost predicate StrictlyAscending(titles: seq<string>) {
    forall i, j :: 0 <= i < j < |titles| ==> Less(titles[i], titles[j])
  }

  /** The alphabetical section titles of a catalog: its keys, ascending, each once. */
  ghost predicate IsLetterTitles(catalog: seq<Country>, titles: seq<string>) {
    && StrictlyAscending(titles)
    && forall t :: t in titles <==> t in FirstLetters(catalog)
  }

  /** A section's contents: its catalog entries, reordered by name. */
  ghost predicate IsLetterBucket(catalog: seq<Country>, k: string, b: seq<Country>) {
    SortedByName(b) && multiset(b) == multiset(Bucket(catalog, k))
  }

  /** The complete alphabetical index of a catalog. */
  ghost predicate IsLetterIndex(catalog: seq<Country>, titles: seq<string>, buckets: map<string, seq<Country>>) {
    && IsLetterTitles(catalog, titles)
    && buckets.Keys == FirstLetters(catalog)
    && forall k :: k in buckets ==> IsLetterBucket(catalog, k, buckets[k])
  }

  /** The rows of the sectioned list, section after section. */
  function Rows(titles: seq<string>, buckets: map<string, seq<Country>>): seq<Country>
    requires forall t :: t in titles ==> t in buckets
  {
    if titles == [] then [] else buckets[titles[0]] + Rows(titles[1..], buckets)
  }

  /** The names of a sequence of countries, in order. */
  function Names(s: seq<Country>): (r: seq<string>)
    ensures |r| == |s|
  {
    seq(|s|, i requires 0 <= i < |s| => s[i].name)
  }

  // ---------------------------------------------------------------- filters

  lemma {:induction false} FilterMembership(s: seq<Country>, sel: Selector, x: Country)
    ensures x in Filter(s, sel) <==> x in s && Selects(sel, x)
  {
    if s != [] {
      FilterMembership(s[..|s| - 1], sel, x);
      assert s == s[..|s| - 1] + [s[|s| - 1]];
    }
  }

  lemma {:induction false} FilterCount(s: seq<Country>, sel: Selector, x: Country)
    ensures multiset(Filter(s, sel))[x] == if Selects(sel, x) then multiset(s)[x] else 0
  {
    if s != [] {
      FilterCount(s[..|s| - 1], sel, x);
      assert s == s[..|s| - 1] + [s[|s| - 1]];
    }
  }

  /** Filtering keeps the order of the filtered sequence. */
  lemma {:induction false} FilterSorted(s: seq<Country>, sel: Selector)
    requires SortedByName(s)
    ensures SortedByName(Filter(s, sel))
  {
    if s != [] {
      var init, last := s[..|s| - 1], s[|s| - 1];
      assert SortedByName(init);
      FilterSorted(init, sel);
      var r := Filter(s, sel);
      if Selects(sel, last) {
        forall i, j | 0 <= i < j < |r|
          ensures !Less(r[j].name, r[i].name)
        {
          if j == |r| - 1 {
            FilterMembership(init, sel, r[i]);
            var k :| 0 <= k < |init| && init[k] == r[i];
            assert s[k] == r[i];
          }
        }
      }
    }
  }

  lemma FilterOfPermutation(a: seq<Country>, b: seq<Country>, sel: Selector)
    requires multiset(a) == multiset(b)
    ensures multiset(Filter(a, sel)) == multiset(Filter(b, sel))
  {
    forall x
      ensures multiset(Filter(a, sel))[x] == multiset(Filter(b, sel))[x]
    {
      FilterCount(a, sel, x);
      FilterCount(b, sel, x);
    }
  }

  // --------------------------------------------------------------- sections

  lemma FirstLettersAppend(s: seq<Country>, c: Country)
    ensures FirstLetters(s + [c]) == FirstLetters(s) + (if Named(c) then {Key(c)} else {})
  {
    assert forall x :: x in s + [c] <==> x in s || x == c;
  }

  lemma BucketAppend(s: seq<Country>, c: Country, k: string)
    ensures Bucket(s + [c], k) == Bucket(s, k) + (if Named(c) && Key(c) == k then [c] else [])
  {
    assert (s + [c])[..|s|] == s;
  }

  /** A country is in bucket `k` exactly when it is in the catalog with key `k`. */
  lemma BucketMembership(catalog: seq<Country>, k: string, x: Country)
    ensures x in Bucket(catalog, k) <==> x in catalog && Named(x) && Key(x) == k
  {
    FilterMembership(catalog, SameInitial(k), x);
  }

  /** A key is a section key of the catalog exactly when its bucket is non-empty. */
  lemma FirstLetterIffBucket(catalog: seq<Country>, k: string)
    ensures k in FirstLetters(catalog) <==> Bucket(catalog, k) != []
  {
    if k in FirstLetters(catalog) {
      var c :| c in catalog && Named(c) && Key(c) == k;
      BucketMembership(catalog, k, c);
    }
    if Bucket(catalog, k) != [] {
      BucketMembership(catalog, k, Bucket(catalog, k)[0]);
    }
  }

  lemma AscendingHead(titles: seq<string>, t: string)
    requires StrictlyAscending(titles) && t in titles
    ensures t == titles[0] || Less(titles[0], t)
    ensures t in titles[1..] ==> t != titles[0]
  {
    var i :| 0 <= i < |titles| && titles[i] == t;
    if t in titles[1..] {
      var j :| 0 <= j < |titles| - 1 && titles[1..][j] == t;
      assert Less(titles[0], titles[j + 1]);
      LessIrreflexive(t);
    }
  }

  /**
   * Section titles are determined by their set: two strictly ascending
   * title lists with the same members are equal.
   */
  lemma {:induction false} TitlesDetermined(a: seq<string>, b: seq<string>)
    requires StrictlyAscending(a) && StrictlyAscending(b)
    requires forall t :: t in a <==> t in b
    ensures a == b
  {
    assert b != [] ==> b[0] in a;
    if a != [] {
      assert a[0] in b;
      AscendingHead(b, a[0]);
      AscendingHead(a, b[0]);
      if a[0] != b[0] {
        LessAsymmetric(a[0], b[0]);
      }
      forall t
        ensures t in a[1..] <==> t in b[1..]
      {
        if t in a[1..] {
          AscendingHead(a, t);
          AscendingHead(b, t);
        }
        if t in b[1..] {
          AscendingHead(b, t);
          AscendingHead(a, t);
        }
      }
      TitlesDetermined(a[1..], b[1..]);
      assert a == [a[0]] + a[1..] && b == [b[0]] + b[1..];
    }
  }

  lemma {:induction false} RowsCount(catalog: seq<Country>, titles: seq<string>, buckets: map<string, seq<Country>>, x: Country)
    requires StrictlyAscending(titles)
    requires forall t :: t in titles ==> t in buckets && multiset(buckets[t]) == multiset(Bucket(catalog, t))
    ensures multiset(Rows(titles, buckets))[x] == if Named(x) && Key(x) in titles then multiset(catalog)[x] else 0
  {
    if titles != [] {
      var t := titles[0];
      assert StrictlyAscending(titles[1..]);
      RowsCount(catalog, titles[1..], buckets, x);
      FilterCount(catalog, SameInitial(t), x);
      if Named(x) && Key(x) == t {
        if t in titles[1..] {
          AscendingHead(titles, t);
        }
      }
    }
  }

  /**
   * No country is lost or duplicated: the rows of the alphabetical index,
   * section after section, are a permutation of the catalog.
   */
  lemma LetterIndexPartition(catalog: seq<Country>, titles: seq<string>, buckets: map<string, seq<Country>>)
    requires AllNamed(catalog)
    requires IsLetterIndex(catalog, titles, buckets)
    ensures multiset(Rows(titles, buckets)) == multiset(catalog)
  {
    forall x
      ensures multiset(Rows(titles, buckets))[x] == multiset(catalog)[x]
    {
      RowsCount(catalog, titles, buckets, x);
      if x in catalog {
        assert Key(x) in FirstLetters(catalog);
      }
    }
  }

  /** Every country sits in exactly one bucket, the one under its own key. */
  lemma LetterIndexPlacement(catalog: seq<Country>, titles: seq<string>, buckets: map<string, seq<Country>>, k: string, x: Country)
    requires IsLetterIndex(catalog, titles, buckets)
    requires k in buckets
    ensures x in buckets[k] <==> x in catalog && Named(x) && Key(x) == k
  {
    assert x in buckets[k] <==> x in multiset(Bucket(catalog, k));
    BucketMembership(catalog, k, x);
  }

  /**
   * A query's matches all lie in the section of its first character, so
   * filtering that section (or nothing, when the catalog has no such
   * section) finds exactly the catalog entries that start with the query,
   * in name order.
   */
  lemma LetterSearchComplete(catalog: seq<Country>, candidates: seq<Country>, query: string)
    requires |query| > 0
    requires [query[0]] in FirstLetters(catalog) ==> IsLetterBucket(catalog, [query[0]], candidates)
    requires [query[0]] !in FirstLetters(catalog) ==> candidates == []
    ensures SortedByName(StartingWith(candidates, query))
    ensures multiset(StartingWith(candidates, query)) == multiset(StartingWith(catalog, query))
  {
    var k := [query[0]];
    FirstLetterIffBucket(catalog, k);
    FilterSorted(candidates, NamePrefix(query));
    FilterOfPermutation(candidates, Bucket(catalog, k), NamePrefix(query));
    forall x
      ensures multiset(StartingWith(Bucket(catalog, k), query))[x] == multiset(StartingWith(catalog, query))[x]
    {
      FilterCount(Bucket(catalog, k), NamePrefix(query), x);
      FilterCount(catalog, SameInitial(k), x);
      FilterCount(catalog, NamePrefix(query), x);
    }
  }

  lemma SameNames(x: string, y: string)
    requires !Less(x, y) && !Less(y, x)
    ensures x == y
  {
    LessTotal(x, y);
  }

  /** Names in non-decreasing order. */
  ghost predicate NonDecreasing(names: seq<string>) {
    forall i, j :: 0 <= i < j < |names| ==> !Less(names[j], names[i])
  }

  lemma MultisetRemove<T>(s: seq<T>, i: nat)
    requires i < |s|
    ensures multiset(s[..i] + s[i + 1..]) == multiset(s) - multiset{s[i]}
    ensures multiset(s) == multiset(s[..i] + s[i + 1..]) + multiset{s[i]}
  {
    assert s == s[..i] + [s[i]] + s[i + 1..];
  }

  lemma NamesRemove(s: seq<Country>, i: nat)
    requires i < |s|
    ensures Names(s[..i] + s[i + 1..]) == Names(s)[..i] + Names(s)[i + 1..]
  {
    var l, r := Names(s[..i] + s[i + 1..]), Names(s)[..i] + Names(s)[i + 1..];
    assert |l| == |r|;
    forall j | 0 <= j < |l|
      ensures l[j] == r[j]
    {
      if j < i {
        assert l[j] == s[j].name == r[j];
      } else {
        assert l[j] == s[j + 1].name == r[j];
      }
    }
  }

  lemma NamesCons(s: seq<Country>)
    requires s != []
    ensures Names(s) == [s[0].name] + Names(s[1..])
  {
    var l, r := Names(s), [s[0].name] + Names(s[1..]);
    assert |l| == |r|;
    forall j | 0 <= j < |l|
      ensures l[j] == r[j]
    {
      if j > 0 {
        assert r[j] == Names(s[1..])[j - 1] == s[j].name;
      }
    }
  }

  lemma NamesMultisetCons(s: seq<Country>)
    requires s != []
    ensures multiset(Names(s)) == multiset(Names(s[1..])) + multiset{s[0].name}
  {
    NamesCons(s);
  }

  lemma NamesMultisetRemove(s: seq<Country>, i: nat)
    requires i < |s|
    ensures multiset(Names(s)) == multiset(Names(s[..i] + s[i + 1..])) + multiset{s[i].name}
  {
    NamesRemove(s, i);
    MultisetRemove(Names(s), i);
  }

  lemma TailPermutation(a: seq<Country>, b: seq<Country>, i: nat)
    requires multiset(a) == multiset(b) && a != []
    requires i < |b| && b[i] == a[0]
    ensures multiset(a[1..]) == multiset(b[..i] + b[i + 1..])
  {
    assert multiset(a[1..]) == multiset(a) - multiset{a[0]} by {
      assert a == [a[0]] + a[1..];
    }
    MultisetRemove(b, i);
  }

  /** Reordering countries reorders their names. */
  lemma {:induction false} NamesOfPermutation(a: seq<Country>, b: seq<Country>)
    requires multiset(a) == multiset(b)
    ensures multiset(Names(a)) == multiset(Names(b))
  {
    if a == [] {
      assert |multiset(b)| == 0;
    } else {
      assert a[0] in multiset(b);
      var i :| 0 <= i < |b| && b[i] == a[0];
      TailPermutation(a, b, i);
      NamesOfPermutation(a[1..], b[..i] + b[i + 1..]);
      NamesMultisetCons(a);
      NamesMultisetRemove(b, i);
    }
  }

  /** Two non-decreasing name lists with the same members, counted with multiplicity, are equal. */
  lemma {:induction false} NonDecreasingDetermined(x: seq<string>, y: seq<string>)
    requires NonDecreasing(x) && NonDecreasing(y)
    requires multiset(x) == multiset(y)
    ensures x == y
  {
    if x == [] {
      assert |multiset(y)| == 0;
    } else {
      assert x[0] in multiset(y);
      assert y[0] in multiset(x);
      var i :| 0 <= i < |y| && y[i] == x[0];
      var h :| 0 <= h < |x| && x[h] == y[0];
      LessIrreflexive(x[0]);
      LessIrreflexive(y[0]);
      assert !Less(x[h], x[0]) && !Less(y[i], y[0]);
      SameNames(x[0], y[0]);
      assert multiset(x[1..]) == multiset(x) - multiset{x[0]} by {
        assert x == [x[0]] + x[1..];
      }
      assert multiset(y[1..]) == multiset(y) - multiset{y[0]} by {
        assert y == [y[0]] + y[1..];
      }
      NonDecreasingDetermined(x[1..], y[1..]);
    }
  }

  /**
   * Two orderings by name of the same countries list the same names: the
   * sort may order countries of equal name either way, and nothing else.
   */
  lemma SortedPermutationNames(a: seq<Country>, b: seq<Country>)
    requires SortedByName(a) && SortedByName(b)
    requires multiset(a) == multiset(b)
    ensures Names(a) == Names(b)
  {
    NamesOfPermutation(a, b);
    NonDecreasingDetermined(Names(a), Names(b));
  }

  /**
   * Building the alphabetical index twice from one catalog gives the same
   * titles, the same sections and, in each section, the same names in the
   * same order.
   */
  lemma LetterIndexDeterministic(catalog: seq<Country>,
                                 titles1: seq<string>, buckets1: map<string, seq<Country>>,
                                 titles2: seq<string>, buckets2: map<string, seq<Country>>)
    requires IsLetterIndex(catalog, titles1, buckets1)
    requires IsLetterIndex(catalog, titles2, buckets2)
    ensures titles1 == titles2
    ensures buckets1.Keys == buckets2.Keys
    ensures forall k :: k in buckets1 ==> Names(buckets1[k]) == Names(buckets2[k])
  {
    TitlesDetermined(titles1, titles2);
    forall k | k in buckets1
      ensures Names(buckets1[k]) == Names(buckets2[k])
    {
      SortedPermutationNames(buckets1[k], buckets2[k]);
    }
  }
}

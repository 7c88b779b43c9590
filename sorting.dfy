/**
 * The two sorts the index builder asks the standard library for:
 * `value.sorted(by: { $0.name < $1.name })` on a section's countries and
 * `header.sorted()` on the set of section titles. Both are insertion sorts
 * here; only "sorted permutation" is promised, not stability.
 */
module Sorting {
  import opened Lexicographic
  import opened Countries

  /** Inserts `c` after every country whose name is not greater than its own. */
  method InsertByName(sorted: seq<Country>, c: Country) returns (r: seq<Country>)
    requires SortedByName(sorted)
    ensures SortedByName(r)
    ensures multiset(r) == multiset(sorted) + multiset{c}
  {
    var k := 0;
    while k < |sorted| && !Less(c.name, sorted[k].name)
      invariant 0 <= k <= |sorted|
      invariant forall j :: 0 <= j < k ==> !Less(c.name, sorted[j].name)
    {
      k := k + 1;
    }
    r := sorted[..k] + [c] + sorted[k..];
    forall i, j | 0 <= i < j < |r|
      ensures !Less(r[j].name, r[i].name)
    {
      if i == k {
        if Less(r[j].name, c.name) {
          LessTransitive(r[j].name, c.name, sorted[k].name);
          if j - 1 == k {
            LessIrreflexive(sorted[k].name);
          }
        }
      }
    }
    assert sorted == sorted[..k] + sorted[k..];
  }

  /** Orders countries by name, as `sorted(by:)` with `lhs.name < rhs.name` does. */
  method SortByName(s: seq<Country>) returns (r: seq<Country>)
    ensures SortedByName(r)
    ensures multiset(r) == multiset(s)
  {
    r := [];
    var i := 0;
    while i < |s|
      invariant 0 <= i <= |s|
      invariant SortedByName(r)
      invariant multiset(r) == multiset(s[..i])
    {
      r := InsertByName(r, s[i]);
      assert s[..i + 1] == s[..i] + [s[i]];
      i := i + 1;
    }
    assert s[..|s|] == s;
  }

  /** Inserts a new title at its place in a strictly ascending title list. */
  method InsertTitle(titles: seq<string>, t: string) returns (r: seq<string>)
    requires StrictlyAscending(titles) && t !in titles
    ensures StrictlyAscending(r)
    ensures forall x :: x in r <==> x in titles || x == t
  {
    var k := 0;
    while k < |titles| && Less(titles[k], t)
      invariant 0 <= k <= |titles|
      invariant forall j :: 0 <= j < k ==> Less(titles[j], t)
    {
      k := k + 1;
    }
    if k < |titles| {
      LessTotal(titles[k], t);
    }
    r := titles[..k] + [t] + titles[k..];
    forall i, j | 0 <= i < j < |r|
      ensures Less(r[i], r[j])
    {
      if i == k && j - 1 > k {
        LessTransitive(t, titles[k], titles[j - 1]);
      }
    }
    assert titles == titles[..k] + titles[k..];
  }

  /** Lists a set of titles in ascending order, as `Set<String>.sorted()` does. */
  method SortTitles(keys: set<string>) returns (titles: seq<string>)
    ensures StrictlyAscending(titles)
    ensures forall t :: t in titles <==> t in keys
  {
    titles := [];
    var rest := keys;
    while rest != {}
      invariant rest <= keys
      invariant StrictlyAscending(titles)
      invariant forall t :: t in titles <==> t in keys - rest
      decreases rest
    {
      var t :| t in rest;
      titles := InsertTitle(titles, t);
      rest := rest - {t};
    }
  }
}

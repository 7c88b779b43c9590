/**
 * CountryPickerViewController: the in-memory section index and the search
 * filter behind the picker's table view. The host picker view's settings are
 * fixed at construction; the controller's four stored properties are fields
 * its methods update.
 */
module CountryPicker {
  import opened Options
  import opened Lexicographic
  import opened Countries
  import opened Sorting

  /** What the controller reads from its host picker view. */
  datatype PickerSettings = PickerSettings(
    countries: seq<Country>,
    preferredCountries: seq<Country>,
    preferredCountriesSectionTitle: Option<string>,
    showOnlyPreferredSection: bool,
    showPhoneCodeInList: bool)

  /** The set of first characters of the catalog's names (lines 70-74). */
  method CollectHeader(catalog: seq<Country>) returns (header: set<string>)
    requires AllNamed(catalog)
    ensures header == FirstLetters(catalog)
  {
    header := {};
    var i := 0;
    while i < |catalog|
      invariant 0 <= i <= |catalog|
      invariant header == FirstLetters(catalog[..i])
    {
      assert catalog[..i + 1] == catalog[..i] + [catalog[i]];
      FirstLettersAppend(catalog[..i], catalog[i]);
      header := header + {Key(catalog[i])};
      i := i + 1;
    }
    assert catalog[..|catalog|] == catalog;
  }

  /** The catalog grouped by first character, each group in catalog order (lines 76-85). */
  method GroupByKey(catalog: seq<Country>) returns (data: map<string, seq<Country>>)
    requires AllNamed(catalog)
    ensures data.Keys == FirstLetters(catalog)
    ensures forall k :: k in data ==> data[k] == Bucket(catalog, k)
  {
    data := map[];
    var i := 0;
    while i < |catalog|
      invariant 0 <= i <= |catalog|
      invariant data.Keys == FirstLetters(catalog[..i])
      invariant forall k :: k in data ==> data[k] == Bucket(catalog[..i], k)
    {
      var country := catalog[i];
      var index := Key(country);
      assert catalog[..i + 1] == catalog[..i] + [country];
      FirstLettersAppend(catalog[..i], country);
      forall k
        ensures Bucket(catalog[..i + 1], k) == Bucket(catalog[..i], k) + (if index == k then [country] else [])
      {
        BucketAppend(catalog[..i], country, k);
      }
      if index !in data {
        FirstLetterIffBucket(catalog[..i], index);
      }
      var dictValue := if index in data then data[index] else [];
      data := data[index := dictValue + [country]];
      i := i + 1;
    }
    assert catalog[..|catalog|] == catalog;
  }

  /** Sorts every group by name, one key at a time in no particular order (lines 88-92). */
  method SortSections(catalog: seq<Country>, grouped: map<string, seq<Country>>) returns (data: map<string, seq<Country>>)
    requires forall k :: k in grouped ==> grouped[k] == Bucket(catalog, k)
    ensures data.Keys == grouped.Keys
    ensures forall k :: k in data ==> IsLetterBucket(catalog, k, data[k])
  {
    data := grouped;
    var pending := data.Keys;
    while pending != {}
      invariant pending <= grouped.Keys == data.Keys
      invariant forall k :: k in data && k !in pending ==> IsLetterBucket(catalog, k, data[k])
      invariant forall k :: k in pending ==> data[k] == grouped[k]
      decreases pending
    {
      var key :| key in pending;
      var sorted := SortByName(data[key]);
      data := data[key := sorted];
      pending := pending - {key};
    }
  }

  /**
   * The alphabetical part of `prepareTableItems`: the set of first characters,
   * sorted, and the catalog grouped by first character, each group sorted by name.
   */
  method BuildLetterIndex(catalog: seq<Country>) returns (titles: seq<string>, buckets: map<string, seq<Country>>)
    requires AllNamed(catalog)
    ensures IsLetterIndex(catalog, titles, buckets)
  {
    var header := CollectHeader(catalog);
    var data := GroupByKey(catalog);
    data := SortSections(catalog, data);
    titles := SortTitles(header);
    buckets := data;
  }

  class CountryPickerViewController {
    /** The host picker view's settings. */
    const picker: PickerSettings
    /** Whether the customization supplies its own section header view. */
    const customHeaderView: bool

    var searchResults: seq<Country>
    var isSearchMode: bool
    var sectionsTitles: seq<string>
    var countries: map<string, seq<Country>>

    constructor (picker: PickerSettings, customHeaderView: bool)
      ensures this.picker == picker && this.customHeaderView == customHeaderView
      ensures searchResults == [] && !isSearchMode
      ensures sectionsTitles == [] && countries == map[]
      ensures TitlesHaveBuckets()
    {
      this.picker := picker;
      this.customHeaderView := customHeaderView;
      searchResults := [];
      isSearchMode := false;
      sectionsTitles := [];
      countries := map[];
    }

    /** A preferred section needs a title and at least one preferred country. */
    predicate HasPreferredSection() {
      picker.preferredCountriesSectionTitle.Some? && |picker.preferredCountries| > 0
    }

    predicate ShowOnlyPreferredSection() {
      picker.showOnlyPreferredSection
    }

    function PreferredTitle(): string
      requires HasPreferredSection()
    {
      picker.preferredCountriesSectionTitle.value
    }

    /** Every section title has a bucket, so the `!` unwraps of the lookups succeed. */
    ghost predicate TitlesHaveBuckets()
      reads this
    {
      forall t :: t in sectionsTitles ==> t in countries
    }

    /** The titles the fast-scroll index lists: all but a leading preferred title. */
    function IndexTitles(): seq<string>
      reads this
    {
      if HasPreferredSection() && |sectionsTitles| > 0 then sectionsTitles[1..] else sectionsTitles
    }

    /**
     * The state `prepareTableItems` leaves when it builds the alphabetical
     * index: letter titles behind an optional preferred title, and letter
     * buckets beside an optional preferred bucket that wins on a clash.
     */
    ghost predicate AlphabeticalIndex()
      reads this
    {
      && TitlesHaveBuckets()
      && IsLetterTitles(picker.countries, IndexTitles())
      && (HasPreferredSection() ==>
            && |sectionsTitles| > 0 && sectionsTitles[0] == PreferredTitle()
            && countries.Keys == FirstLetters(picker.countries) + {PreferredTitle()}
            && countries[PreferredTitle()] == picker.preferredCountries)
      && (!HasPreferredSection() ==> countries.Keys == FirstLetters(picker.countries))
      && forall k :: k in countries && !(HasPreferredSection() && k == PreferredTitle()) ==>
           IsLetterBucket(picker.countries, k, countries[k])
    }

    /** `prepareTableItems` */
    method PrepareTableItems()
      requires !ShowOnlyPreferredSection() ==> AllNamed(picker.countries)
      modifies this`sectionsTitles, this`countries
      ensures !ShowOnlyPreferredSection() ==> AlphabeticalIndex()
      ensures ShowOnlyPreferredSection() && HasPreferredSection() ==>
        && sectionsTitles == [PreferredTitle()] + old(sectionsTitles)
        && countries == old(countries)[PreferredTitle() := picker.preferredCountries]
      ensures ShowOnlyPreferredSection() && !HasPreferredSection() ==>
        sectionsTitles == old(sectionsTitles) && countries == old(countries)
      ensures old(TitlesHaveBuckets()) ==> TitlesHaveBuckets()
    {
      if !ShowOnlyPreferredSection() {
        var header, data := BuildLetterIndex(picker.countries);
        sectionsTitles := header;
        countries := data;
      }

      // Add preferred section if data is available
      if HasPreferredSection() {
        var preferredTitle := picker.preferredCountriesSectionTitle.value;
        sectionsTitles := [preferredTitle] + sectionsTitles;
        countries := countries[preferredTitle := picker.preferredCountries];
      }
    }

    /** The bucket a non-empty query searches (lines 255-262). */
    function SearchCandidates(text: string): seq<Country>
      requires |text| > 0
      reads this
    {
      if ShowOnlyPreferredSection() && HasPreferredSection() && PreferredTitle() in countries then
        countries[PreferredTitle()]
      else if [text[0]] in countries then
        countries[[text[0]]]
      else
        []
    }

    /** `updateSearchResults(for:)`, given the search bar's text. */
    method UpdateSearchResults(searchText: Option<string>)
      modifies this`isSearchMode, this`searchResults
      ensures isSearchMode <==> searchText.Some? && |searchText.value| > 0
      ensures !isSearchMode ==> searchResults == old(searchResults)
      ensures isSearchMode ==>
        searchResults == StartingWith(SearchCandidates(searchText.value), searchText.value)
    {
      isSearchMode := false;
      if searchText.Some? && |searchText.value| > 0 {
        var text := searchText.value;
        isSearchMode := true;
        searchResults := [];

        var indexArray: seq<Country> := [];
        if ShowOnlyPreferredSection() && HasPreferredSection() && PreferredTitle() in countries {
          indexArray := countries[PreferredTitle()];
        } else if [text[0]] in countries {
          indexArray := countries[[text[0]]];
        }

        var i := 0;
        while i < |indexArray|
          invariant 0 <= i <= |indexArray|
          invariant isSearchMode
          invariant searchResults == StartingWith(indexArray[..i], text)
        {
          assert indexArray[..i + 1][..i] == indexArray[..i];
          if HasPrefix(indexArray[i].name, text) {
            searchResults := searchResults + [indexArray[i]];
          }
          i := i + 1;
        }
        assert indexArray[..|indexArray|] == indexArray;
      }
    }

    // ------------------------------------------------- table view queries

    /** `numberOfSections(in:)` */
    function NumberOfSections(): (n: nat)
      reads this
      ensures isSearchMode ==> n == 1
      ensures !isSearchMode ==>
        n == |IndexTitles()| + (if HasPreferredSection() && |sectionsTitles| > 0 then 1 else 0)
    {
      if isSearchMode then 1 else |sectionsTitles|
    }

    /** A section the table may ask about: any in search mode, else one with a bucket. */
    predicate IsSection(section: int)
      reads this
    {
      isSearchMode || (0 <= section < |sectionsTitles| && sectionsTitles[section] in countries)
    }

    /** `tableView(_:numberOfRowsInSection:)` */
    function NumberOfRowsInSection(section: int): nat
      requires IsSection(section)
      reads this
    {
      if isSearchMode then |searchResults| else |countries[sectionsTitles[section]]|
    }

    /** The country shown at an index path (`cellForRowAt`, `didSelectRowAt`). */
    function CountryAt(section: int, row: int): (country: Country)
      requires IsSection(section) && 0 <= row < NumberOfRowsInSection(section)
      reads this
      ensures isSearchMode ==> country in searchResults
      ensures !isSearchMode ==> country in countries[sectionsTitles[section]]
    {
      if isSearchMode then searchResults[row] else countries[sectionsTitles[section]][row]
    }

    /** `didSelectRowAt`: the country the host is told was picked. */
    method DidSelectRowAt(section: int, row: int) returns (country: Country)
      requires IsSection(section) && 0 <= row < NumberOfRowsInSection(section)
      ensures country == CountryAt(section, row)
    {
      country := if isSearchMode then searchResults[row]
        else countries[sectionsTitles[section]][row];
    }

    /** The cell text: the name, followed by the phone code in parentheses when the host asks for it. */
    function DisplayName(country: Country): (name: string)
      ensures HasPrefix(name, country.name)
      ensures name == country.name <==> !picker.showPhoneCodeInList
      ensures picker.showPhoneCodeInList ==>
        name[|country.name|..] == " (" + country.phoneCode + ")"
    {
      if picker.showPhoneCodeInList then country.name + " (" + country.phoneCode + ")" else country.name
    }

    /** `tableView(_:titleForHeaderInSection:)` */
    function TitleForHeaderInSection(section: int): (title: Option<string>)
      requires !customHeaderView && !isSearchMode ==> 0 <= section < |sectionsTitles|
      reads this
      ensures title.Some? <==> !customHeaderView && !isSearchMode
      ensures title.Some? ==> title.value in sectionsTitles
    {
      if customHeaderView then None
      else if isSearchMode then None
      else Some(sectionsTitles[section])
    }

    /** `sectionIndexTitles(for:)` */
    function SectionIndexTitles(): (titles: Option<seq<string>>)
      reads this
      ensures titles.None? <==> isSearchMode
      ensures titles.Some? ==> |titles.value| <= |sectionsTitles|
      ensures titles.Some? && !HasPreferredSection() ==> titles.value == sectionsTitles
      ensures titles.Some? && HasPreferredSection() && |sectionsTitles| > 0 ==>
        [sectionsTitles[0]] + titles.value == sectionsTitles
    {
      if isSearchMode then None else Some(IndexTitles())
    }

    /** `tableView(_:sectionForSectionIndexTitle:at:)`: the first section with that title. */
    function SectionForSectionIndexTitle(title: string): (section: nat)
      requires title in sectionsTitles
      reads this
      ensures section < |sectionsTitles| && sectionsTitles[section] == title
      ensures forall j :: 0 <= j < section ==> sectionsTitles[j] != title
    {
      FirstIndexOf(sectionsTitles, title)
    }

    // ------------------------------------------- what the index promises

    /**
     * Without a preferred section, the sectioned list shows every catalog
     * country exactly once.
     */
    lemma SectionsPartitionCatalog()
      requires AllNamed(picker.countries)
      requires AlphabeticalIndex() && !HasPreferredSection()
      ensures multiset(Rows(sectionsTitles, countries)) == multiset(picker.countries)
      ensures |Rows(sectionsTitles, countries)| == |picker.countries|
    {
      LetterIndexPartition(picker.countries, sectionsTitles, countries);
      assert |multiset(Rows(sectionsTitles, countries))| == |multiset(picker.countries)|;
    }

    /**
     * A row of a letter section is a catalog country whose name starts with
     * the section's title, and that title is the section's header.
     */
    lemma RowsMatchTheirHeader(section: int, row: int)
      requires AlphabeticalIndex() && !isSearchMode
      requires IsSection(section) && 0 <= row < NumberOfRowsInSection(section)
      requires !(HasPreferredSection() && sectionsTitles[section] == PreferredTitle())
      ensures CountryAt(section, row) in picker.countries
      ensures Named(CountryAt(section, row)) && Key(CountryAt(section, row)) == sectionsTitles[section]
      ensures !customHeaderView ==> TitleForHeaderInSection(section) == Some(Key(CountryAt(section, row)))
    {
      var k := sectionsTitles[section];
      var c := CountryAt(section, row);
      assert c in multiset(Bucket(picker.countries, k));
      BucketMembership(picker.countries, k, c);
    }

    /**
     * Every catalog country is listed in the section the fast-scroll index
     * jumps to for its first character, unless the preferred title took
     * that character's bucket.
     */
    lemma EveryCountryListed(c: Country)
      requires AlphabeticalIndex()
      requires c in picker.countries && Named(c)
      requires !(HasPreferredSection() && Key(c) == PreferredTitle())
      ensures Key(c) in sectionsTitles
      ensures sectionsTitles[SectionForSectionIndexTitle(Key(c))] in countries
      ensures c in countries[sectionsTitles[SectionForSectionIndexTitle(Key(c))]]
    {
      var k := Key(c);
      assert k in FirstLetters(picker.countries);
      assert k in IndexTitles();
      BucketMembership(picker.countries, k, c);
      assert c in multiset(countries[k]);
    }

    /**
     * A preferred title that equals a letter key is listed twice, its letter
     * section shows the preferred countries too, and the fast-scroll index
     * jumps to the preferred section for it.
     */
    lemma PreferredTitleClash()
      requires AlphabeticalIndex() && HasPreferredSection()
      requires PreferredTitle() in FirstLetters(picker.countries)
      ensures PreferredTitle() in IndexTitles()
      ensures var letter := 1 + FirstIndexOf(IndexTitles(), PreferredTitle());
        && letter < |sectionsTitles| && sectionsTitles[letter] == PreferredTitle()
        && countries[sectionsTitles[letter]] == picker.preferredCountries
      ensures SectionForSectionIndexTitle(PreferredTitle()) == 0
    {
    }

    /** Each fast-scroll title takes the table to a section headed by that title. */
    lemma FastScrollReachesItsSection(title: string)
      requires SectionIndexTitles().Some? && title in SectionIndexTitles().value
      ensures title in sectionsTitles
      ensures SectionForSectionIndexTitle(title) < NumberOfSections()
      ensures !customHeaderView ==>
        TitleForHeaderInSection(SectionForSectionIndexTitle(title)) == Some(title)
    {
    }

    /**
     * On the alphabetical index, a search finds exactly the catalog
     * countries that start with the query, in name order, unless the
     * preferred title took the bucket of the query's first character.
     */
    lemma SearchFindsCatalogMatches(text: string)
      requires AlphabeticalIndex() && !ShowOnlyPreferredSection()
      requires |text| > 0
      requires !(HasPreferredSection() && [text[0]] == PreferredTitle())
      ensures SortedByName(StartingWith(SearchCandidates(text), text))
      ensures multiset(StartingWith(SearchCandidates(text), text)) == multiset(StartingWith(picker.countries, text))
    {
      LetterSearchComplete(picker.countries, SearchCandidates(text), text);
    }

    /**
     * In preferred-only mode, once the preferred bucket is in place a search
     * keeps exactly the preferred countries that start with the query, in
     * the host's order.
     */
    lemma PreferredOnlySearch(text: string, x: Country)
      requires ShowOnlyPreferredSection() && HasPreferredSection()
      requires PreferredTitle() in countries && countries[PreferredTitle()] == picker.preferredCountries
      requires |text| > 0
      ensures StartingWith(SearchCandidates(text), text) == StartingWith(picker.preferredCountries, text)
      ensures x in StartingWith(SearchCandidates(text), text) <==>
        x in picker.preferredCountries && HasPrefix(x.name, text)
    {
      FilterMembership(picker.preferredCountries, NamePrefix(text), x);
    }
  }

  /** `Array.index(of:)`, on a list that holds the element. */
  function FirstIndexOf(s: seq<string>, x: string): (i: nat)
    requires x in s
    ensures i < |s| && s[i] == x
    ensures forall j :: 0 <= j < i ==> s[j] != x
  {
    if s[0] == x then 0 else 1 + FirstIndexOf(s[1..], x)
  }
}

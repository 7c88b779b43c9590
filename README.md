# CountryPickerView: section index and search filter

A Dafny model of the logic inside `CountryPickerViewController`, the table
view controller of the CountryPickerView iOS library. The controller takes the
host picker view's country catalog and groups it into sections. Each section
holds the countries whose name starts with one character. It orders each
section by name and lists the section titles in ascending order. It can put a
host-chosen "preferred" section first. It answers the table view's questions
(section and row counts, the country in a cell, header titles, the fast-scroll
index and title lookup). On every change of the search text it filters one
section by name prefix.

Files:

- `options.dfy`: `Option`, for Swift optionals.
- `lexicographic.dfy`: Swift `String` `<` and `hasPrefix` on `seq<char>`.
  Lemmas show that `<` is a strict total order.
- `countries.dfy`: the `Country` record and the section key. It has the filter
  behind sections and search. It specifies the alphabetical index (titles
  strictly ascending; each bucket a by-name sorted permutation of the catalog
  entries with that key). Its lemmas cover partition, placement, search
  completeness and determinism.
- `sorting.dfy`: the two library sorts the builder uses, as insertion sorts.
  One is `sorted(by:)` on names; the other is `Set<String>.sorted()`.
- `picker.dfy`: the controller, as a class. It stores `searchResults`,
  `isSearchMode`, `sectionsTitles` and `countries` as fields. The host's
  settings are constants fixed at construction. The class has the index
  builder (`PrepareTableItems`), the search filter (`UpdateSearchResults`),
  the read-only queries and lemmas that connect them.

On these points the code does something easy to misread, and the model follows it:

- Section keys and the search bucket key are the first character exactly as
  written. Nothing is upper-cased (lines 73, 80, 260).
- An empty or missing query sets `isSearchMode` to false. It leaves
  `searchResults` as it was and does not clear it (lines 250-251).
- A preferred section needs a non-nil title and a non-empty preferred list.
  An empty title string is allowed (lines 35-38).
- The fast-scroll list drops only its first entry when there is a preferred
  section (line 231). A preferred title equal to a letter key therefore still
  appears there (`PreferredTitleClash`).
- In preferred-only mode `prepareTableItems` does not reset the index. It
  prepends the preferred title to whatever titles were there (lines 66, 99-102).

## Model

| member | source | states |
|---|---|---|
| `Lexicographic.LessIrreflexive` | CountryPickerView/CountryPickerViewController.swift:89-91 | no name sorts before itself under `<` |
| `Lexicographic.LessTransitive` | CountryPickerView/CountryPickerViewController.swift:89-91 | `<` on names is transitive |
| `Lexicographic.LessTotal` | CountryPickerView/CountryPickerViewController.swift:94 | any two titles are equal or one sorts before the other |
| `Countries.Key` | CountryPickerView/CountryPickerViewController.swift:80 | a section key is one character and is a prefix of the name |
| `Countries.FilterMembership` | CountryPickerView/CountryPickerViewController.swift:264 | a filtered list holds exactly the entries of the input that the criterion keeps |
| `Countries.FilterSorted` | CountryPickerView/CountryPickerViewController.swift:264 | filtering a list sorted by name leaves it sorted by name |
| `Countries.BucketMembership` | CountryPickerView/CountryPickerViewController.swift:78-85 | a country is grouped under key k iff it is in the catalog and its name starts with k |
| `Countries.FirstLetterIffBucket` | CountryPickerView/CountryPickerViewController.swift:70-85 | a key is in the header set iff its group is non-empty, so there are no empty sections |
| `Countries.TitlesDetermined` | CountryPickerView/CountryPickerViewController.swift:94 | two strictly ascending title lists with the same members are equal |
| `Countries.LetterIndexPartition` | CountryPickerView/CountryPickerViewController.swift:70-95 | the sections' rows, in title order, are a permutation of the catalog: nothing lost or duplicated |
| `Countries.LetterIndexPlacement` | CountryPickerView/CountryPickerViewController.swift:76-95 | each country is in the bucket of its own key and in no other |
| `Countries.LetterSearchComplete` | CountryPickerView/CountryPickerViewController.swift:260-264 | filtering the bucket of the query's first character finds exactly the catalog's prefix matches, sorted by name |
| `Countries.SortedPermutationNames` | CountryPickerView/CountryPickerViewController.swift:88-92 | two by-name sorts of the same countries list the same names in the same order |
| `Countries.LetterIndexDeterministic` | CountryPickerView/CountryPickerViewController.swift:66-96 | rebuilding the index from one catalog gives the same titles, the same keys and the same names in each section |
| `Sorting.SortByName` | CountryPickerView/CountryPickerViewController.swift:88-92 | a section's countries come back sorted by name and as a permutation |
| `Sorting.SortTitles` | CountryPickerView/CountryPickerViewController.swift:94 | the header set comes back strictly ascending with exactly the set's members |
| `CountryPicker.CollectHeader` | CountryPickerView/CountryPickerViewController.swift:70-74 | the header set is exactly the set of first characters of the catalog's names |
| `CountryPicker.GroupByKey` | CountryPickerView/CountryPickerViewController.swift:76-85 | the grouped data has one key per first character, each holding that key's countries in catalog order |
| `CountryPicker.SortSections` | CountryPickerView/CountryPickerViewController.swift:88-92 | every group is replaced by a by-name sorted permutation of itself; the keys stay the same |
| `CountryPicker.BuildLetterIndex` | CountryPickerView/CountryPickerViewController.swift:66-96 | header set and grouped data form the alphabetical index of the catalog (titles ascending, keys = first characters, buckets sorted permutations) |
| `CountryPicker.FirstIndexOf` | CountryPickerView/CountryPickerViewController.swift:238 | `index(of:)` returns the first position holding the element |
| `CountryPicker.CountryPickerViewController.constructor` | CountryPickerView/CountryPickerViewController.swift:30-44 | empty results, not searching, no titles, no buckets; the host settings are kept |
| `CountryPicker.CountryPickerViewController.PrepareTableItems` | CountryPickerView/CountryPickerViewController.swift:64-106 | without preferred-only mode: the alphabetical index, preferred title first and preferred bucket overriding when a preferred section exists. With it: the old index, with the preferred title prepended and its bucket set. Every title keeps a bucket |
| `CountryPicker.CountryPickerViewController.UpdateSearchResults` | CountryPickerView/CountryPickerViewController.swift:249-267 | search mode iff the text is non-empty. Then the results are the candidate bucket's prefix matches in bucket order. Otherwise the results are unchanged |
| `CountryPicker.CountryPickerViewController.NumberOfSections` | CountryPickerView/CountryPickerViewController.swift:147-149 | one section in search mode. Otherwise the fast-scroll titles plus one for a leading preferred section |
| `CountryPicker.CountryPickerViewController.CountryAt` | CountryPickerView/CountryPickerViewController.swift:158-159 | the cell's country is a search result in search mode, else a member of the section's bucket |
| `CountryPicker.CountryPickerViewController.DidSelectRowAt` | CountryPickerView/CountryPickerViewController.swift:199-202 | the picked country is the one the cell at that index path shows |
| `CountryPicker.CountryPickerViewController.DisplayName` | CountryPickerView/CountryPickerViewController.swift:161 | the cell text starts with the name; it differs from the name iff phone codes are shown, and then ends with " (code)" |
| `CountryPicker.CountryPickerViewController.TitleForHeaderInSection` | CountryPickerView/CountryPickerViewController.swift:217-224 | a header title exists iff there is no custom header view and no search, and it is a section title |
| `CountryPicker.CountryPickerViewController.SectionIndexTitles` | CountryPickerView/CountryPickerViewController.swift:226-235 | nil in search mode. Otherwise all titles without a preferred section, and the titles minus the first with one |
| `CountryPicker.CountryPickerViewController.SectionForSectionIndexTitle` | CountryPickerView/CountryPickerViewController.swift:237-239 | the first section whose title is the given one (the title must be present) |
| `CountryPicker.CountryPickerViewController.SectionsPartitionCatalog` | CountryPickerView/CountryPickerViewController.swift:64-106 | with no preferred section the listed rows are a permutation of the catalog, and the row counts add up to its size |
| `CountryPicker.CountryPickerViewController.RowsMatchTheirHeader` | CountryPickerView/CountryPickerViewController.swift:151-159 | each row of a letter section is a catalog country whose key is the section's title and header |
| `CountryPicker.CountryPickerViewController.EveryCountryListed` | CountryPickerView/CountryPickerViewController.swift:76-102 | every catalog country is in the section the title lookup finds for its key, unless the preferred title took that key |
| `CountryPicker.CountryPickerViewController.PreferredTitleClash` | CountryPickerView/CountryPickerViewController.swift:99-102 | a preferred title equal to a letter key is listed twice. Both sections show the preferred countries, and title lookup lands on section 0 |
| `CountryPicker.CountryPickerViewController.FastScrollReachesItsSection` | CountryPickerView/CountryPickerViewController.swift:226-239 | every fast-scroll title resolves to a section below the section count, headed by that title |
| `CountryPicker.CountryPickerViewController.SearchFindsCatalogMatches` | CountryPickerView/CountryPickerViewController.swift:257-264 | on the alphabetical index, a search yields exactly the catalog countries starting with the query, sorted by name |
| `CountryPicker.CountryPickerViewController.PreferredOnlySearch` | CountryPickerView/CountryPickerViewController.swift:257-259 | in preferred-only mode the search keeps exactly the preferred countries with the prefix, in the host's order |

Some members are direct expressions that the contracts and lemmas above use;
their properties are stated there:

- `CountryPicker.CountryPickerViewController.HasPreferredSection` (lines 35-38)
  and `ShowOnlyPreferredSection` (lines 39-41) read the host's settings.
- `CountryPicker.CountryPickerViewController.NumberOfRowsInSection`
  (lines 151-153) is the size of the results or of the section's bucket.
- `CountryPicker.CountryPickerViewController.IndexTitles` is the
  `dropFirst()` of line 231. It is used by `SectionIndexTitles` and
  `NumberOfSections`.
- `CountryPicker.CountryPickerViewController.SearchCandidates` is the choice
  of the bucket to search at lines 255-262. It is used by
  `UpdateSearchResults`, `SearchFindsCatalogMatches` and `PreferredOnlySearch`.
- `Lexicographic.Less` is Swift `String` `<` as used at lines 90 and 94. It
  is used by `LessIrreflexive`, `LessTransitive`, `LessTotal` and the sorts.
- `Lexicographic.HasPrefix` is `hasPrefix` at line 264, and `Countries.Filter`
  is the `filter` on the same line. Both are used by `FilterMembership`,
  `FilterSorted` and `LetterSearchComplete`.

## Left out

- UIKit plumbing: `viewDidLoad`, `viewWillAppear`, `prepareNavItem`, `prepareSearchBar`, `close`, the search bar delegate methods, `reloadData`, dismissing or popping the controller and the selection completion closure. None of these holds logic of its own.
- Cell and header styling: flag image, fonts, colours, separator inset, header font and header height. The `CountryPickerViewControllerCustomization` struct is reduced to one flag, whether a custom header view is set.
- The checkmark on the selected country (line 173) needs only equality on `Country`. The `Country` type's own file is not part of this model: `Country` here is a name and a phone code, with structural equality.
- Unicode: names and queries are `seq<char>`, the "first character" is `name[0]`, and `<` and `hasPrefix` are lexicographic on characters. Swift's grapheme clusters and canonical equivalence are not modelled.
- `SortByName`: states only a sorted permutation. Swift's `sorted(by:)` promises no stability, so the order of equal names is not fixed.
- The weak back-reference to the host picker view is replaced by settings fixed at construction. The host's later changes to them are not modelled.
- Runtime traps: the model does not capture them. Each place where the Swift code would crash is a precondition instead, so a caller that would trap cannot call the member at all:
  - An empty country name is subscripted at `name[name.startIndex]` (lines 73, 80). This becomes `Named`/`AllNamed` and the `requires` of `PrepareTableItems`.
  - A section or row index is out of range, or a dictionary key is unwrapped with `!` (lines 152, 158-159, 201-202). These become `IsSection` and the row bounds on `NumberOfRowsInSection`, `CountryAt` and `DidSelectRowAt`.
  - `sectionsTitles[section]` is read out of range (line 223). This becomes the `requires` of `TitleForHeaderInSection`.
  - `index(of:)!` finds no match (line 238). This becomes `requires title in sectionsTitles` on `SectionForSectionIndexTitle`.
- Reporting the selection to the host (`didSelectCountry`) is represented by `DidSelectRowAt` returning the country.

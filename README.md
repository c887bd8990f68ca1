# Beer defects: a verified model of the query rules

The beer defects application is a small Flask site. It serves a hard-coded
catalog of beer off-flavors ("defects"). Each record has its chemical
makeup, brewing stage, origins, off-flavors, solutions, prevention, a link
and a category. There are two versions of the application:

- `beer_defects_app.py` is the primary file. It has eight records, a
  detail page per defect, a troubleshooting guide that filters by brewing
  stage and off-flavors, and a recipe analysis page.
- `beer_defects_app_backup.py` is the backup file. It has three records, a
  listing grouped by category, a detail page, a free-text off-flavor
  search and the same recipe analysis page.

This project models the logic between the routes and the catalog, and
proves what that logic promises.

Python values are modelled as follows:

- A `dict` is an insertion-ordered sequence of key/value pairs with
  distinct keys (`OrderedMap`). `d.get(k)`, `d[k] = v` and `k in d` keep
  Python's meaning, including the rule that a new key goes at the end.
- A request is either a GET or a POST carrying a form, a map from field
  name to text. `request.form.get(key, '')` defaults to the empty string.
- `str.lower`, `str.strip` and `str.split(",")` are written out for ASCII
  (`Text`). `strip` removes the characters Python's `str.isspace` accepts
  in that range: space, tab through carriage return, and the four
  separator controls 0x1C to 0x1F.

Modules:

| module | file | models |
|---|---|---|
| `Wrappers` | wrappers.dfy | `Option` for optional record fields and missing form fields |
| `Text` | text.dfy | ASCII `lower`, `strip`, `split`, and substring containment |
| `OrderedMap` | ordered_map.dfy | Python's ordered `dict` |
| `Defects` | defects.dfy | the record, the catalog type and the `/defect/<name>` lookup |
| `Requests` | requests.dfy | GET/POST requests and the normalised form field |
| `Troubleshoot` | troubleshoot.dfy | the filter of `troubleshoot()` in the primary file, with its loop |
| `Search` | search.dfy | the comprehension of `search_defects()` in the backup file |
| `Grouping` | grouping.dfy | the loop of `list_defects()` in the backup file |
| `Recipe` | recipe.dfy | `analyze_recipe()`, identical in both files |
| `PrimaryApp` | primary_app.dfy | the eight-record catalog literal and facts about it |
| `BackupApp` | backup_app.dfy | the three-record catalog literal and facts about it |

The two loops that change state step by step are Dafny methods with loop
invariants. One is the troubleshooting scan that stores matches into a
dict. The other is the grouping loop that creates and appends to lists of
a dict. Each is proved equal to a specification function. These are
`Troubleshoot.Filter` and `Grouping.Grouped`, and the lemmas beside them
state what the source promises about them. `search_defects` is one
expression in the source, so it is a function.

## Model

| member | source | states |
|---|---|---|
| Text.ToLower | beer_defects_app.py:247-248 | `lower()` for ASCII: same length, no capital left, and only capitals change |
| Text.Strip | beer_defects_app.py:247-248 | `strip()`: white space removed from both ends, never longer than its input (StripSpec and StripEnds say exactly what is kept) |
| Text.Split | beer_defects_app.py:249 | `split(",")`: the pieces between commas, always at least one (the round trip is JoinSplit and SplitJoin) |
| Text.Contains | beer_defects_app.py:252 | the substring test `stage in ...`: "" is contained in every string, and a contained string is no longer than the string |
| Text.LowerIdempotent | beer_defects_app.py:247-248 | lower-casing twice is lower-casing once, and the result has no upper-case letter |
| Text.LowerAppend | beer_defects_app.py:252 | lower-casing works character by character, so it commutes with concatenation |
| Text.StripSpec | beer_defects_app.py:247-248 | `strip()` keeps exactly the middle part of its input, between the leading and the trailing white space |
| Text.StripEnds | beer_defects_app.py:247-248 | a non-empty stripped string neither starts nor ends with white space |
| Text.StripIdempotent | beer_defects_app.py:247-249 | stripping an already stripped string (the terms of the flavor field) changes nothing |
| Text.StripUntrimmed | beer_defects_app.py:247-248 | a string with no white space at either end is returned unchanged |
| Text.StripAllSpace | beer_defects_app_backup.py:151 | a blank or white-space-only field strips to "" |
| Text.JoinSplit | beer_defects_app.py:249 | joining the pieces of `split(",")` with "," gives back the input |
| Text.SplitPieces | beer_defects_app.py:249 | `split(",")` gives one more piece than there are commas, and no piece holds a comma |
| Text.SplitJoin | beer_defects_app_backup.py:152 | splitting the comma-join of comma-free pieces gives back those pieces |
| Text.SplitNoSep | beer_defects_app_backup.py:152 | a query without a comma is a single term |
| Text.SplitPrefix | beer_defects_app_backup.py:152 | the first comma ends the first term, and the rest splits on its own |
| Requests.NormalizedField | beer_defects_app.py:247-248 | a form field read with "" as its default, then stripped and lower-cased: no longer than the field, no capital, no white space at its ends |
| OrderedMap.Get | beer_defects_app.py:208 | `dict.get` gives None exactly when the key is absent, and otherwise a value stored under that key |
| OrderedMap.GetStored | beer_defects_app.py:208 | with distinct keys, looking up a stored key gives exactly the value beside it |
| OrderedMap.Put | beer_defects_app.py:256 | `d[k] = v` keeps the key order and appends a new key at the end; keys stay distinct |
| OrderedMap.PutGet | beer_defects_app.py:256 | after `d[k] = v`, `d.get(k)` is `v` and every other key keeps its value |
| OrderedMap.PutAt | beer_defects_app_backup.py:92 | putting at an existing key replaces that entry in place |
| OrderedMap.PutNewTwice | beer_defects_app_backup.py:90-92 | a new key put twice (empty list, then the appended list) ends up once, at the end, with the second value |
| Defects.HasOffFlavor | beer_defects_app.py:253 | the off-flavor membership test, defined as the term being in the lower-cased off-flavor list (a record without "Off-Flavors" has none) |
| Defects.HasOffFlavorIff | beer_defects_app.py:253 | `term in map(str.lower, off_flavors)` holds iff some lower-cased off-flavor equals the term as a whole string |
| Defects.DefectDetail | beer_defects_app.py:207-238 | the lookup is an exact, case-sensitive key match; an absent name gives "Defect not found" with 404, a present one its own record |
| Defects.DetailOfPresent | beer_defects_app.py:208-236 | a name in the catalog yields the detail page of exactly the record stored under it |
| Defects.DetailOfAbsent | beer_defects_app_backup.py:143-144 | a name not in the catalog yields ("Defect not found", 404) |
| Troubleshoot.MatchesStage | beer_defects_app.py:252 | the stage condition holds iff the stage is a substring of the lower-cased brewing stage; the `not stage or` guard adds nothing |
| Troubleshoot.MatchesFlavor | beer_defects_app.py:253 | the flavor condition, defined as: no terms, or some term with HasOffFlavor (HasOffFlavorIff gives its meaning) |
| Troubleshoot.Matches | beer_defects_app.py:255 | the two conditions combined with AND, defined as their conjunction |
| Troubleshoot.Filter | beer_defects_app.py:251-256 | the specification of the scan: the matching entries in catalog order, never more than the catalog (FilterMembers and FilterSubsequence state its meaning) |
| Troubleshoot.FlavorTerms | beer_defects_app.py:249 | an empty off-flavor field gives no terms; otherwise there is one term per comma-separated piece |
| Troubleshoot.FilterMembers | beer_defects_app.py:251-256 | an entry is a match iff it is in the catalog and satisfies both the stage and the flavor condition |
| Troubleshoot.FilterSubsequence | beer_defects_app.py:251-256 | the matches are a subsequence of the catalog, in catalog order, with their records unchanged |
| Troubleshoot.FilterKeys | beer_defects_app.py:256 | every name among the matches is a catalog name |
| Troubleshoot.FilterDistinct | beer_defects_app.py:256 | the matches have distinct names, as a dict does |
| Troubleshoot.FilterAppend | beer_defects_app.py:251-256 | scanning one more entry appends it exactly when it matches |
| Troubleshoot.FilterIdentity | beer_defects_app.py:249-256 | with no stage and no off-flavors, the result is the whole catalog, in order and unchanged |
| Troubleshoot.FilterIdempotent | beer_defects_app.py:251-256 | filtering the matches again with the same inputs changes nothing |
| Troubleshoot.ScanStep | beer_defects_app.py:251-256 | one loop iteration: a match has a name not yet stored, so `matches[name] = details` appends it |
| Troubleshoot.CollectMatches | beer_defects_app.py:251-256 | the loop stores exactly the matching entries, in catalog order and with distinct names |
| Troubleshoot.Troubleshoot | beer_defects_app.py:242-258 | GET gives empty fields and no matches; POST strips and lower-cases both fields and returns the filter of the catalog by them |
| Search.AnyTermMatches | beer_defects_app_backup.py:153 | the search condition, defined as some term with HasOffFlavor |
| Search.SearchCatalog | beer_defects_app_backup.py:153 | the dict comprehension, never more than the catalog (SearchMembers and SearchIsFlavorFilter state its meaning) |
| Search.SearchTerms | beer_defects_app_backup.py:152 | one stripped term per comma-separated piece; the empty query gives the single term "" |
| Search.SearchIsFlavorFilter | beer_defects_app_backup.py:153 | the search selects what the troubleshooting filter selects with no stage and the same terms |
| Search.SearchMembers | beer_defects_app_backup.py:153 | a record is found iff some term equals one of its lower-cased off-flavors; results keep catalog order and distinct names |
| Search.EmptyTermFindsNothing | beer_defects_app_backup.py:151-153 | the term "" finds nothing in a catalog without an empty off-flavor |
| Search.BlankQueryTerms | beer_defects_app_backup.py:151-152 | a blank or white-space-only query normalises to "", whose only term is "" |
| Search.PlainQueryTerms | beer_defects_app_backup.py:151-152 | a query already stripped and lower-case, without a comma, normalises to itself and is its own single term |
| Search.SearchDefects | beer_defects_app_backup.py:147-154 | GET gives an empty query and no matches; POST gives exactly the catalog entries matching a term, in order, with distinct names |
| Grouping.FirstOccurrences | beer_defects_app_backup.py:89-91 | the categories as the dict's keys: each category exactly once |
| Grouping.FirstOccurrencesOrder | beer_defects_app_backup.py:89-91 | the keys are ordered by where each category first occurs in the catalog |
| Grouping.InCategoryMembers | beer_defects_app_backup.py:92 | a category's list holds exactly the entries of that category, in catalog order |
| Grouping.Grouped | beer_defects_app_backup.py:86-92 | the grouped listing has one group per category that occurs, with distinct keys |
| Grouping.GroupStepNew | beer_defects_app_backup.py:90-92 | an entry with an unseen category opens a new group at the end, holding just that entry |
| Grouping.GroupStepSeen | beer_defects_app_backup.py:92 | an entry with a seen category is appended to that group, and no other group changes |
| Grouping.GroupStep | beer_defects_app_backup.py:89-92 | one iteration (create the list if missing, then append) turns the groups of a prefix into those of the next prefix |
| Grouping.ListDefects | beer_defects_app_backup.py:86-92 | the loop builds exactly the grouped listing |
| Grouping.GroupPartition | beer_defects_app_backup.py:88-92 | every entry is in the group keyed by its "Category", or "Uncategorized" when it has none (line 89), and in no other group |
| Grouping.GroupOrder | beer_defects_app_backup.py:88-92 | groups come in order of first occurrence, and each keeps catalog order |
| Grouping.GroupSizes | beer_defects_app_backup.py:87-92 | the group sizes add up to the catalog size |
| Recipe.Analyze | beer_defects_app.py:270-273 | DMS iff the boil is under 60 minutes, hot alcohol iff the temperature is over 70, DMS first, at most two issues |
| Recipe.AnalyzeNoRepeats | beer_defects_app_backup.py:187-190 | an issue list never names an issue twice |
| Recipe.AnalyzeExamples | beer_defects_app.py:270-273 | (45, 65) gives DMS; (90, 75) hot alcohol; (45, 75) both in that order; (90, 65) and (60, 70) none |
| Recipe.AnalyzeRecipe | beer_defects_app.py:262-273 | GET leaves both inputs unset and flags nothing; POST reads both fields (0 when missing) and flags by the thresholds |
| PrimaryApp.CatalogEntries | beer_defects_app.py:7-133 | the eight names in insertion order, each record's brewing stage and category, off-flavors on every record, and Oxidation alone without a prevention list |
| PrimaryApp.FermentationStage | beer_defects_app.py:251-256 | the stage "fermentation" alone matches Diacetyl, Phenolic, Alcoholic and Sourness, in that order, and excludes Oxidation |
| PrimaryApp.WholeWordFlavor | beer_defects_app.py:253 | "buttery" finds Diacetyl, but its substring "butter" does not |
| PrimaryApp.BothConditions | beer_defects_app.py:252-254 | Sourness and Astringency both taste "tart", but only Sourness also matches the stage "fermentation" |
| PrimaryApp.OxidationDetail | beer_defects_app.py:41-52 | Oxidation, the record without a prevention list, is found by its exact name, but not as "oxidation" |
| BackupApp.CatalogEntries | beer_defects_app_backup.py:8-59 | the three names in insertion order, each record's brewing stage and category, and off-flavors and prevention on every record |
| BackupApp.NoEmptyOffFlavor | beer_defects_app_backup.py:13-46 | none of the three off-flavor lists (lines 13, 30, 46) contains an empty string |
| BackupApp.SearchButtery | beer_defects_app_backup.py:151-153 | searching "buttery" returns exactly Diacetyl |
| BackupApp.SearchEmpty | beer_defects_app_backup.py:151-153 | searching the empty query returns nothing |
| BackupApp.ListedGroups | beer_defects_app_backup.py:86-92 | the listing shows Fermentation (Diacetyl, Acetaldehyde) and then Boil (DMS) |
| BackupApp.DetailLookups | beer_defects_app_backup.py:113-144 | the DMS page shows its record, and "Oxidation" is not found in the backup catalog |

## Left out

- Flask itself is not modelled: routing, `app.run` and the `request` global. A request is a value handed to each handler.
- HTML rendering with `render_template_string` is left out, including Jinja's display conditions such as the empty-matches branch at beer_defects_app.py:290. Each handler returns the values it would pass to its template.
- `/export` (DataFrame construction, `to_excel` and `send_file`) is left out. It is a foreign library call plus file I/O with a fixed file name.
- `int()` and `float()` parsing of the recipe fields, and the exceptions they raise, are not modelled. A field reaches the model already parsed, and a missing field is None, standing for the default 0.
- Recipe.Analyze: the temperature is a Dafny `real`, so IEEE rounding, NaN and infinities are not modelled.
- `str.lower` and `str.strip` are modelled for ASCII only. Non-ASCII letters are not case-mapped, and non-ASCII white space is not stripped.
- The free-text fields (chemical makeup, origins, solutions, prevention, link) are carried as opaque strings and lists.
- The home pages and the plain catalog listing of the primary file are left out. They only render the catalog.

## Notes on the code

- An empty search query yields no results. The code has no guard for this. `"".split(",")` gives the single term `""`, and that term equals no off-flavor of the shipped catalog. `Search.EmptyTermFindsNothing` proves the general statement. `BackupApp.SearchEmpty` proves it for the shipped catalog.
- The troubleshooting guide turns an off-flavor field of only commas (",") into a list of empty terms, not into "no terms". It then finds only records that have an empty off-flavor, and the shipped catalog has none. Only an empty field reaches the "no terms" case (`Troubleshoot.FlavorTerms`).
- `if defect:` in `defect_detail` tests a dict's truthiness. Every catalog record is a non-empty dict, so the test is true exactly when the name is present, and the model tests presence (`Defects.DefectDetail`).

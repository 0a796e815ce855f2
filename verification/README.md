# National-park site scraper: verified core

This project models the pure core of a small scraper for the U.S. National
Park Service website (`proj2_nps.py`). The scraper builds one `NationalSite`
record per park page. It caches the sites of each state in a state cache
file, keyed by the state page's URL. It caches the nearby-places search
result of each site in a place cache file, keyed by zipcode. It then prints
both, replacing empty place fields with placeholders.

What is modelled:

- `Words` (`words.dfy`): joining a word list with single spaces, Python's
  `s[:-1]`, and `list.index` (as an `Option`: `None` where Python raises
  `ValueError`).
- `Titles` (`titles.dfy`): the name/category split of a page title. It
  covers the `try` branch that splits at the first `"National"` and the
  `except` branch taken when there is no such word. Both are modelled as the
  code runs them, loops and the trailing-character drop included.
- `Sites` (`sites.dfy`): the `NationalSite` record and its display line. It
  also covers the five-string row a site is flattened to in the state cache,
  and how a site is rebuilt from such a row.
- `Caches` (`caches.dfy`): `get_sites_for_state` and `get_nearby_places`.
  A cache file is `Option<map>`, where `None` stands for a missing or
  unparsable file, which `open_cache` reads as an empty map. Each operation
  returns the file's content afterwards and whether it went to the network.
  The network fetch is a function parameter.
- `Places` (`places.dfy`): the placeholder substitution for a place's
  address, category and city.

The title split follows the code as written. A title without `"National"`
is evidently meant to become the name in full, but the code keeps only the
last word (see Findings). `Titles.SplitTitle` models the code;
`Titles.SplitTitleIntended` models the intent. No other part of the model
depends on the split: the caches take the fetched sites as given.

The state cache's malformed-entry path is modelled. It is taken when a
cached row has fewer than five strings. The sites rebuilt before that row
are kept and the fetched sites are added after them. Because the source
appends to the cached list it read, the stored entry keeps its old rows and
gains one new row per returned site. The short row therefore stays cached,
and every later call for that state fetches again (`Caches.ShortRowPersists`).

## Model

| member | source | states |
|---|---|---|
| Words.IndexOf | proj2_nps.py:131 | the first position holding the word, with no earlier occurrence; `None` exactly when the word is absent (where `index` raises) |
| Words.DropLast | proj2_nps.py:134 | dropping the last character: the result plus that character is the input; "" stays "" |
| Titles.AppendEach | proj2_nps.py:132-136 | appending "word " for each word yields the accumulator followed by the words joined with single spaces and one trailing space |
| Titles.OverwriteEach | proj2_nps.py:139-140 | the assigning loop leaves only the last word plus a space, or the initial value for no words |
| Titles.AppendThenDropIsJoin | proj2_nps.py:132-137 | accumulate-then-drop-last equals joining with single spaces, for every word list including the empty one |
| Titles.SplitTitle | proj2_nps.py:127-141 | with "National" present: name = words before its first occurrence, category = words from it on, each joined by single spaces; without it: category "" and name the last word only ("" for no words) |
| Titles.CategoryBeginsWithNational | proj2_nps.py:131-137 | whenever the title holds "National", the category begins with "National" |
| Titles.NameAndCategoryRejoin | proj2_nps.py:131-137 | when "National" is present but not first, name + " " + category is the whole title joined by single spaces |
| Titles.LeadingNationalLeavesNameEmpty | proj2_nps.py:131-137 | when the title starts with "National", the name is "" and the category is the whole title |
| Titles.SplitTitleIntended | proj2_nps.py:138-141 | corrected split: agrees with the code whenever "National" is present, and otherwise makes the whole title the name with an empty category |
| Titles.IsleRoyaleExample | proj2_nps.py:127-137 | "Isle Royale National Park" splits into name "Isle Royale" and category "National Park" |
| Titles.OverwriteKeepsOnlyLastWord | proj2_nps.py:138-141 | "Blue Ridge Parkway" yields name "Parkway" as written, and the full title with the correction |
| Sites.Info | proj2_nps.py:76 | the display is exactly the name, " (", the category, "): ", the address, one space and the zipcode, in that order and nothing else; the phone is not part of it |
| Sites.InfoIgnoresPhone | proj2_nps.py:76 | changing the phone never changes the display line |
| Sites.Flatten | proj2_nps.py:239 | a site becomes a row of exactly five strings, and rebuilding that row gives the same site |
| Sites.Rebuild | proj2_nps.py:228 | a site read from a row of at least five strings has category, name, address, zipcode and phone equal to the row's first five entries in that order; entries after the fifth are ignored |
| Sites.FlattenAll | proj2_nps.py:238-239 | one five-string row per site, in site order, each rebuilding to its site |
| Sites.RebuildAll | proj2_nps.py:226-228 | one site per row, in row order, each read positionally from its row |
| Sites.RebuildAllFlattenAll | proj2_nps.py:226-239 | flattening a site list and rebuilding it returns the same list |
| Caches.OpenCache | proj2_nps.py:181-188 | a missing or unparsable cache file reads as the empty map; a readable one reads as exactly the map it holds |
| Caches.RebuildableRows | proj2_nps.py:224-229 | the rebuild loop gets through exactly the leading rows of at least five strings and stops at the first shorter row |
| Caches.GetSitesForState | proj2_nps.py:221-242 | miss: returns the fetched sites, stores one row per site in fetch order under the URL, other keys unchanged, a corrupt file replaced; clean hit: returns the cached sites in order, file untouched, no fetch; short-row hit: rebuilt prefix then fetched sites, old rows kept and new rows appended |
| Caches.GetSitesKeepsWellFormed | proj2_nps.py:238-241 | a cache whose rows all rebuild keeps that property after any call |
| Caches.SecondStateLookupIsHit | proj2_nps.py:221-241 | on a well-formed cache, a second call for the same state fetches nothing and returns the same sites and file |
| Caches.ShortRowPersists | proj2_nps.py:224-241 | a cached short row is never repaired, so the entry still fails to rebuild after the call |
| Caches.GetNearbyPlaces | proj2_nps.py:260-269 | hit: cached response, file untouched, no fetch; miss: fetched response stored under the zipcode, every other key unchanged |
| Caches.SharedZipcodeFetchedOnce | proj2_nps.py:260-269 | a second lookup for any site with the same zipcode is served from the cache with the first response and no fetch |
| Places.OrPlaceholder | proj2_nps.py:309-311 | an empty value is replaced by the placeholder; anything else passes through |
| Places.Shown | proj2_nps.py:309-315 | empty address, category and city become "no address", "no category" and "no city"; non-empty ones are unchanged; no shown field is empty |
| Places.ShownIdempotent | proj2_nps.py:309-315 | substituting placeholders twice gives the same as once |
| Places.ShownKeepsCompleteFields | proj2_nps.py:309-315 | a place with no empty field is shown exactly as received |
| Places.ShownAll | proj2_nps.py:308-315 | one shown field record per search result, in response order |

## Left out

- HTTP requests to the park site and to the places search API: the fetch is a function parameter. The API key, the query string and its fixed parameters are folded into it.
- Regular-expression extraction from the HTML (state links, title, phone, zipcode, address, site links). It depends on the regex engine and the HTML library's rendering. The title model starts from the already-split word list.
- A page whose title does not match the title pattern. The word list is then never bound and the `except` branch itself fails with a `NameError`. The model assumes a title was found.
- JSON reading and writing of the cache files. A file is modelled by its decoded map, with `None` for a missing or unparsable file. Serialisation is not modelled.
- Cached rows holding non-string JSON values. Rows are lists of strings.
- Failures of the park-site fetches (lines 119, 230), which propagate out of `get_sites_for_state` with the cache file unwritten. The fetch parameter is total.
- Network or decoding failures of the places search, which the source does not catch. The fetch parameter is total.
- A places response without `searchResults` or without one of the displayed keys, which raises `KeyError` in the source. The places are taken as typed records.
- The interactive input loop, the listing of sites, the printed line for each place and the "Using cache" / "Fetching" messages. These are user-interface output.
- The address placeholder is computed twice in the source, with the same result. It is modelled once.

## Findings

| source | as written | input that shows it | evidently intended | confidence | as-written member | corrected member |
|---|---|---|---|---|---|---|
| proj2_nps.py:139-140 | when the title has no "National", the loop assigns each word to the name instead of appending it | title words "Blue", "Ridge", "Parkway": name "Parkway", category "" | the whole title becomes the name: "Blue Ridge Parkway" | high; not executed | Titles.SplitTitle (shown by Titles.OverwriteKeepsOnlyLastWord) | Titles.SplitTitleIntended |

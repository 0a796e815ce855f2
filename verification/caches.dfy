/**
 The two get-or-fill caches of proj2_nps.py: sites per state URL
 (`get_sites_for_state`, lines 208-242) and nearby-places responses per
 zipcode (`get_nearby_places`, lines 247-269).

 A cache file is an `Option<map>`: `None` is a file that is missing or does
 not parse, which `open_cache` (lines 181-188) reads as an empty map. Every
 operation takes the file's current content and returns its content
 afterwards; `save_cache` rewrites the whole file, so a written file is
 `Some` of the full in-memory map. The network fetch is a function parameter.
 */
module Caches {
  import opened Wrappers
  import opened Sites

  /** State URL to one row of strings per site. */
  type StateCache = map<string, seq<seq<string>>>

  /** What `open_cache` yields for a file's content: a missing or unparsable
      file reads as the empty cache, a readable one as what it holds. */
  function OpenCache<V>(file: Option<map<string, V>>): (c: map<string, V>)
    ensures file.None? ==> c == map[]
    ensures file.Some? ==> c == file.value
  {
    match file
    case None => map[]
    case Some(m) => m
  }

  /** Every row of every entry can be rebuilt into a site. */
  ghost predicate WellFormed(c: StateCache)
  {
    forall url :: url in c ==> forall i :: 0 <= i < |c[url]| ==> |c[url][i]| >= RowWidth
  }

  /** How many leading rows the rebuild loop at lines 226-228 gets through
      before a row too short to index raises. */
  function RebuildableRows(rows: seq<seq<string>>): (p: nat)
    ensures p <= |rows|
    ensures forall i :: 0 <= i < p ==> |rows[i]| >= RowWidth
    ensures p < |rows| ==> |rows[p]| < RowWidth
  {
    if |rows| == 0 || |rows[0]| < RowWidth then 0 else 1 + RebuildableRows(rows[1..])
  }

  /** The result of one `get_sites_for_state` call. */
  datatype StateLookup = StateLookup(sites: seq<Site>, file: Option<StateCache>, fetched: bool)

  /**
   Sites for a state, from the cache when its entry rebuilds cleanly.
   On a miss the fetched sites are returned and stored, one row each.
   On a hit whose rows all rebuild, those sites are returned and the file is
   untouched. On a hit with a short row, the sites rebuilt before it are
   kept, the fetched sites follow them, and the cached entry (which the
   source aliases) grows by one row per returned site.
   */
  function GetSitesForState(file: Option<StateCache>, stateUrl: string, fetch: string -> seq<Site>): (r: StateLookup)
    // miss: fetch, store one row per fetched site, keep every other key
    ensures stateUrl !in OpenCache(file) ==>
              && r.fetched
              && r.sites == fetch(stateUrl)
              && r.file.Some?
              && r.file.value.Keys == OpenCache(file).Keys + {stateUrl}
              && (forall u :: u in OpenCache(file) ==> r.file.value[u] == OpenCache(file)[u])
              && |r.file.value[stateUrl]| == |r.sites|
              && (forall i :: 0 <= i < |r.sites| ==>
                    |r.file.value[stateUrl][i]| == RowWidth && Rebuild(r.file.value[stateUrl][i]) == r.sites[i])
    // clean hit: the cached sites, in order, and the file is not rewritten
    ensures stateUrl in OpenCache(file) && RebuildableRows(OpenCache(file)[stateUrl]) == |OpenCache(file)[stateUrl]| ==>
              var rows := OpenCache(file)[stateUrl];
              && !r.fetched
              && r.file == file
              && |r.sites| == |rows|
              && (forall i :: 0 <= i < |rows| ==> r.sites[i] == Rebuild(rows[i]))
    // hit on a short row: rebuilt prefix then fetched sites; old rows kept, new rows appended
    ensures stateUrl in OpenCache(file) && RebuildableRows(OpenCache(file)[stateUrl]) < |OpenCache(file)[stateUrl]| ==>
              var rows := OpenCache(file)[stateUrl];
              var p := RebuildableRows(rows);
              && r.fetched
              && |r.sites| == p + |fetch(stateUrl)|
              && (forall i :: 0 <= i < p ==> r.sites[i] == Rebuild(rows[i]))
              && r.sites[p..] == fetch(stateUrl)
              && r.file.Some?
              && r.file.value.Keys == OpenCache(file).Keys
              && (forall u :: u in OpenCache(file) && u != stateUrl ==> r.file.value[u] == OpenCache(file)[u])
              && |r.file.value[stateUrl]| == |rows| + |r.sites|
              && r.file.value[stateUrl][..|rows|] == rows
              && (forall i :: 0 <= i < |r.sites| ==>
                    |r.file.value[stateUrl][|rows| + i]| == RowWidth && Rebuild(r.file.value[stateUrl][|rows| + i]) == r.sites[i])
  {
    var cache := OpenCache(file);
    if stateUrl in cache then
      var rows := cache[stateUrl];
      var p := RebuildableRows(rows);
      var rebuilt := RebuildAll(rows[..p]);
      if p == |rows| then
        StateLookup(rebuilt, file, false)
      else
        var sites := rebuilt + fetch(stateUrl);
        StateLookup(sites, Some(cache[stateUrl := rows + FlattenAll(sites)]), true)
    else
      var sites := fetch(stateUrl);
      StateLookup(sites, Some(cache[stateUrl := FlattenAll(sites)]), true)
  }

  /** A well-formed state cache stays well-formed, and a missing or corrupt
      file is replaced by a well-formed one. */
  lemma GetSitesKeepsWellFormed(file: Option<StateCache>, stateUrl: string, fetch: string -> seq<Site>)
    requires WellFormed(OpenCache(file))
    ensures WellFormed(OpenCache(GetSitesForState(file, stateUrl, fetch).file))
  {
  }

  /** After any call on a well-formed cache, asking again for the same state
      needs no fetch and returns the same sites. */
  lemma SecondStateLookupIsHit(file: Option<StateCache>, stateUrl: string, fetch: string -> seq<Site>, refetch: string -> seq<Site>)
    requires WellFormed(OpenCache(file))
    ensures var first := GetSitesForState(file, stateUrl, fetch);
            var second := GetSitesForState(first.file, stateUrl, refetch);
            !second.fetched && second.sites == first.sites && second.file == first.file
  {
    var first := GetSitesForState(file, stateUrl, fetch);
    var rows := OpenCache(first.file)[stateUrl];
    assert forall i :: 0 <= i < |rows| ==> |rows[i]| >= RowWidth;
    assert RebuildableRows(rows) == |rows|;
    var second := GetSitesForState(first.file, stateUrl, refetch);
    assert |second.sites| == |first.sites|;
  }

  /** A short row is never repaired: after the call it is still cached, so
      every later call for that state fetches again. */
  lemma ShortRowPersists(file: Option<StateCache>, stateUrl: string, fetch: string -> seq<Site>)
    requires stateUrl in OpenCache(file)
    requires RebuildableRows(OpenCache(file)[stateUrl]) < |OpenCache(file)[stateUrl]|
    ensures var r := GetSitesForState(file, stateUrl, fetch);
            r.file.Some? && stateUrl in r.file.value
            && RebuildableRows(r.file.value[stateUrl]) < |r.file.value[stateUrl]|
  {
  }

  /** The result of one `get_nearby_places` call. */
  datatype PlaceLookup<V> = PlaceLookup(response: V, file: Option<map<string, V>>, fetched: bool)

  /**
   The nearby-places response for a site, keyed by its zipcode alone. A hit
   returns the cached response and leaves the file alone; a miss fetches,
   stores the response under the zipcode and rewrites the file.
   */
  function GetNearbyPlaces<V>(file: Option<map<string, V>>, site: Site, fetch: string -> V): (r: PlaceLookup<V>)
    ensures site.zipcode in OpenCache(file) ==>
              !r.fetched && r.response == OpenCache(file)[site.zipcode] && r.file == file
    ensures site.zipcode !in OpenCache(file) ==>
              && r.fetched
              && r.response == fetch(site.zipcode)
              && r.file.Some?
              && r.file.value.Keys == OpenCache(file).Keys + {site.zipcode}
              && r.file.value[site.zipcode] == r.response
              && (forall z :: z in OpenCache(file) ==> r.file.value[z] == OpenCache(file)[z])
  {
    var cache := OpenCache(file);
    if site.zipcode in cache then
      PlaceLookup(cache[site.zipcode], file, false)
    else
      var response := fetch(site.zipcode);
      PlaceLookup(response, Some(cache[site.zipcode := response]), true)
  }

  /** Two sites sharing a zipcode share one fetch: the second lookup is served
      from the cache with the first one's response. */
  lemma SharedZipcodeFetchedOnce<V>(file: Option<map<string, V>>, s1: Site, s2: Site, fetch: string -> V, refetch: string -> V)
    requires s1.zipcode == s2.zipcode
    ensures var first := GetNearbyPlaces(file, s1, fetch);
            var second := GetNearbyPlaces(first.file, s2, refetch);
            !second.fetched && second.response == first.response && second.file == first.file
  {
  }
}

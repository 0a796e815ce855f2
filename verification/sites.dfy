/**
 The `NationalSite` value (proj2_nps.py lines 13-76) and its flattening into
 the five-string row stored in the state cache (lines 228 and 238-239).
 */
module Sites {

  /** One national site; every field may be empty when the page lacked it. */
  datatype Site = Site(category: string, name: string, address: string, zipcode: string, phone: string)

  /** The number of strings a cached row needs before a site can be rebuilt from it. */
  const RowWidth := 5

  /** The one-line display of a site: the name, the category in parentheses
      followed by a colon, the address and the zipcode, segment by segment. */
  function Info(s: Site): (r: string)
    ensures |r| == |s.name| + |s.category| + |s.address| + |s.zipcode| + 6
    ensures var n, c, a := |s.name|, |s.category|, |s.address|;
            && r[..n] == s.name
            && r[n..n + 2] == " ("
            && r[n + 2..n + 2 + c] == s.category
            && r[n + 2 + c..n + 5 + c] == "): "
            && r[n + 5 + c..n + 5 + c + a] == s.address
            && r[n + 5 + c + a..n + 6 + c + a] == " "
            && r[n + 6 + c + a..] == s.zipcode
  {
    s.name + " (" + s.category + "): " + s.address + " " + s.zipcode
  }

  /** The phone number never appears in the display line. */
  lemma InfoIgnoresPhone(s: Site, phone: string)
    ensures Info(s.(phone := phone)) == Info(s)
  {
  }

  /** A site as the row `[category, name, address, zipcode, phone]`. */
  function Flatten(s: Site): (row: seq<string>)
    ensures |row| == RowWidth
    ensures Rebuild(row) == s
  {
    [s.category, s.name, s.address, s.zipcode, s.phone]
  }

  /** A site read back positionally from the first five entries of a row;
      anything after them is ignored. */
  function Rebuild(row: seq<string>): (s: Site)
    requires |row| >= RowWidth
    ensures [s.category, s.name, s.address, s.zipcode, s.phone] == row[..RowWidth]
  {
    Site(row[0], row[1], row[2], row[3], row[4])
  }

  /** One row per site, in the same order. */
  function FlattenAll(ss: seq<Site>): (rows: seq<seq<string>>)
    ensures |rows| == |ss|
    ensures forall i :: 0 <= i < |ss| ==> |rows[i]| == RowWidth && Rebuild(rows[i]) == ss[i]
  {
    if |ss| == 0 then [] else [Flatten(ss[0])] + FlattenAll(ss[1..])
  }

  /** One site per row, in the same order. */
  function RebuildAll(rows: seq<seq<string>>): (ss: seq<Site>)
    requires forall i :: 0 <= i < |rows| ==> |rows[i]| >= RowWidth
    ensures |ss| == |rows|
    ensures forall i :: 0 <= i < |rows| ==> ss[i] == Rebuild(rows[i])
  {
    if |rows| == 0 then [] else [Rebuild(rows[0])] + RebuildAll(rows[1..])
  }

  /** Flattening a list of sites and rebuilding it gives the same sites back. */
  lemma {:induction false} RebuildAllFlattenAll(ss: seq<Site>)
    ensures RebuildAll(FlattenAll(ss)) == ss
  {
  }
}

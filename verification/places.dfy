/**
 The substitution of placeholders for empty fields of a nearby place before
 it is displayed (proj2_nps.py lines 308-315).
 */
module Places {

  /** The three fields of a search result that are displayed. */
  datatype PlaceFields = PlaceFields(address: string, category: string, city: string)

  /** One entry of the response's `searchResults`. */
  datatype Place = Place(name: string, fields: PlaceFields)

  const NoAddress := "no address"
  const NoCategory := "no category"
  const NoCity := "no city"

  /** `placeholder if value == '' else value`. */
  function OrPlaceholder(value: string, placeholder: string): (r: string)
    ensures value != "" ==> r == value
    ensures value == "" ==> r == placeholder
  {
    if value == "" then placeholder else value
  }

  /**
   The fields as displayed: an empty address, category or city becomes its
   placeholder and a non-empty one is shown unchanged, so nothing displayed
   is empty.
   */
  function Shown(f: PlaceFields): (r: PlaceFields)
    ensures r.address != "" && r.category != "" && r.city != ""
    ensures f.address != "" ==> r.address == f.address
    ensures f.category != "" ==> r.category == f.category
    ensures f.city != "" ==> r.city == f.city
    ensures f.address == "" ==> r.address == NoAddress
    ensures f.category == "" ==> r.category == NoCategory
    ensures f.city == "" ==> r.city == NoCity
  {
    PlaceFields(
      OrPlaceholder(f.address, NoAddress),
      OrPlaceholder(f.category, NoCategory),
      OrPlaceholder(f.city, NoCity))
  }

  /** Substituting twice changes nothing more. */
  lemma ShownIdempotent(f: PlaceFields)
    ensures Shown(Shown(f)) == Shown(f)
  {
  }

  /** Fields with nothing missing are displayed exactly as received. */
  lemma ShownKeepsCompleteFields(f: PlaceFields)
    requires f.address != "" && f.category != "" && f.city != ""
    ensures Shown(f) == f
  {
  }

  /** The displayed fields of every search result, in response order. */
  function ShownAll(results: seq<Place>): (r: seq<PlaceFields>)
    ensures |r| == |results|
    ensures forall i :: 0 <= i < |results| ==> r[i] == Shown(results[i].fields)
  {
    if |results| == 0 then [] else [Shown(results[0].fields)] + ShownAll(results[1..])
  }
}

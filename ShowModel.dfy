/** The Show schema (models/Show.js): required fields and three enums; no rule orders the dates. */
module ShowModel {
  import opened Wrappers

  const Locations: seq<string> := ["ATL", "NYC", "LA", "DAL"]
  const Types: seq<string> := ["Gift", "Apparel", "Bridal", "Other"]
  const Seasons: seq<string> := ["Spring", "Summer", "Fall", "Winter"]

  /** A show; a missing enum field is "" (which no enum admits). */
  datatype Show = Show(
    id: string,
    location: string,
    startDate: Option<int>,
    endDate: Option<int>,
    showType: string,
    season: string)

  datatype ShowField = Location | StartDate | EndDate | Type | Season

  function ShowErrors(s: Show): (errs: seq<ShowField>)
    ensures Location in errs <==> s.location !in Locations
    ensures StartDate in errs <==> s.startDate.None?
    ensures EndDate in errs <==> s.endDate.None?
    ensures Type in errs <==> s.showType !in Types
    ensures Season in errs <==> s.season !in Seasons
  {
    (if s.location in Locations then [] else [Location])
    + (if s.startDate.Some? then [] else [StartDate])
    + (if s.endDate.Some? then [] else [EndDate])
    + (if s.showType in Types then [] else [Type])
    + (if s.season in Seasons then [] else [Season])
  }

  /** The schema accepts a show that ends before it starts; only the POST handler checks the order. */
  lemma SchemaIgnoresDateOrder()
    ensures ShowErrors(Show("s", "ATL", Some(10), Some(3), "Gift", "Fall")) == []
  {
  }
}

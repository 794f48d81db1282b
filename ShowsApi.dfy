/**
 * The shows endpoint (pages/api/shows/index.js): method dispatch, the ascending start-date
 * order of GET, and POST's date-order check in front of the schema. The collection is a
 * sequence of shows; the id the database gives a created show is a parameter.
 */
module ShowsApi {
  import opened Wrappers
  import ShowModel

  type Show = ShowModel.Show

  datatype Body = ShowList(shows: seq<Show>) | OneShow(show: Show) | Error(error: string)

  datatype Response = Response(status: nat, body: Body)

  /**
   * The sort order on start dates: a show without a start date sorts before every dated one,
   * as the database orders a missing field in an ascending sort.
   */
  predicate StartsNoLater(a: Show, b: Show)
  {
    a.startDate.None? || (b.startDate.Some? && a.startDate.value <= b.startDate.value)
  }

  ghost predicate SortedByStart(s: seq<Show>)
  {
    forall i, j :: 0 <= i < j < |s| ==> StartsNoLater(s[i], s[j])
  }

  function Insert(x: Show, s: seq<Show>): (r: seq<Show>)
    requires SortedByStart(s)
    ensures SortedByStart(r)
    ensures multiset(r) == multiset(s) + multiset{x}
    ensures |r| == |s| + 1
  {
    if s == [] then [x]
    else if StartsNoLater(x, s[0]) then
      assert forall j :: 0 <= j < |s| ==> StartsNoLater(s[0], s[j]) || j == 0;
      [x] + s
    else
      var rest := Insert(x, s[1..]);
      assert SortedByStart(s[1..]) by {
        forall i, j | 0 <= i < j < |s[1..]| ensures StartsNoLater(s[1..][i], s[1..][j]) {
          assert s[1..][i] == s[i + 1] && s[1..][j] == s[j + 1];
        }
      }
      assert s == [s[0]] + s[1..];
      forall k | 0 <= k < |rest| ensures StartsNoLater(s[0], rest[k]) {
        assert rest[k] in multiset(rest);
        if rest[k] != x {
          assert rest[k] in multiset(s[1..]);
          var m :| 0 <= m < |s[1..]| && s[1..][m] == rest[k];
          assert s[m + 1] == rest[k];
        }
      }
      [s[0]] + rest
  }

  /** `.sort({ startDate: 1 })`: the same shows, in ascending start-date order. */
  function SortByStart(s: seq<Show>): (r: seq<Show>)
    ensures SortedByStart(r)
    ensures multiset(r) == multiset(s)
    ensures |r| == |s|
  {
    if s == [] then []
    else
      assert s == [s[0]] + s[1..];
      Insert(s[0], SortByStart(s[1..]))
  }

  /** The POST date check: the request is refused only when both dates are valid and the end comes first. */
  predicate EndBeforeStart(data: Show)
  {
    data.startDate.Some? && data.endDate.Some? && data.endDate.value < data.startDate.value
  }

  /** The handler: the response, and the collection afterwards. */
  function Handle(store: seq<Show>, method_: string, data: Show, newId: string): (r: (Response, seq<Show>))
    ensures method_ == "GET" ==> r.1 == store && r.0.status == 200 && r.0.body.ShowList?
    ensures method_ == "GET" ==> SortedByStart(r.0.body.shows) && multiset(r.0.body.shows) == multiset(store)
    ensures method_ == "POST" && EndBeforeStart(data) ==> r == (Response(400, Error("Invalid dates")), store)
    ensures method_ == "POST" && !EndBeforeStart(data) && ShowModel.ShowErrors(data) != [] ==>
              r == (Response(500, Error("Failed to create show")), store)
    ensures method_ == "POST" && !EndBeforeStart(data) && ShowModel.ShowErrors(data) == [] ==>
              r == (Response(201, OneShow(data.(id := newId))), store + [data.(id := newId)])
    ensures method_ != "GET" && method_ != "POST" ==> r == (Response(405, Error("Method not allowed")), store)
  {
    if method_ == "GET" then (Response(200, ShowList(SortByStart(store))), store)
    else if method_ == "POST" then
      if EndBeforeStart(data) then (Response(400, Error("Invalid dates")), store)
      else if ShowModel.ShowErrors(data) != [] then (Response(500, Error("Failed to create show")), store)
      else
        var show := data.(id := newId);
        (Response(201, OneShow(show)), store + [show])
    else (Response(405, Error("Method not allowed")), store)
  }

  /** A show ending on its start day passes the date check: the comparison is strict. */
  lemma SameDayShowAccepted(store: seq<Show>, data: Show, newId: string)
    requires data.startDate.Some? && data.endDate == data.startDate
    requires ShowModel.ShowErrors(data) == []
    ensures Handle(store, "POST", data, newId).0.status == 201
    ensures Handle(store, "POST", data, newId).1 == store + [data.(id := newId)]
  {
  }

  /**
   * A show without a start date passes the date check (the comparison with an invalid date is
   * false), but the schema then refuses it and the handler answers 500.
   */
  lemma MissingDateFailsLater(store: seq<Show>, data: Show, newId: string)
    requires data.startDate.None?
    ensures !EndBeforeStart(data)
    ensures Handle(store, "POST", data, newId) == (Response(500, Error("Failed to create show")), store)
  {
    assert ShowModel.StartDate in ShowModel.ShowErrors(data);
  }

  /** Every show the handler stores has its dates in order, where both are present. */
  lemma StoredShowsOrdered(store: seq<Show>, method_: string, data: Show, newId: string)
    requires forall s :: s in store ==> !EndBeforeStart(s)
    ensures forall s :: s in Handle(store, method_, data, newId).1 ==> !EndBeforeStart(s)
  {
  }
}

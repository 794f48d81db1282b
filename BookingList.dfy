/**
 * The booking list (components/Bookings/BookingList.js): its search and filter
 * predicate, the distinct show values offered as filter options, and the grouping of
 * the filtered bookings by status.
 */
module BookingList {
  import opened Wrappers
  import Lists
  import Text
  import opened BookingModel

  /** The component's filter state; the status filter holds lower-case values. */
  datatype Filters = Filters(searchTerm: string, status: string, location: string, showType: string)

  const InitialFilters: Filters := Filters("", "all", "all", "all")

  /** The order in which statuses are meant to be shown. */
  const StatusOrder: seq<string> := ["Pending", "Confirmed", "Completed", "Cancelled"]

  /** Some day has an assigned entry whose name contains the term, ignoring case. */
  predicate StaffNameMatches(b: Booking, term: string)
  {
    exists d :: d in b.dailyStaffing && exists s :: s in d.assignedStaff && Text.IncludesIgnoringCase(StaffName(s), term)
  }

  /** The search: company name, an assigned staff name or the notes contain the term, ignoring case. */
  predicate MatchesSearch(b: Booking, term: string)
  {
    || Text.IncludesIgnoringCase(ClientName(b), term)
    || StaffNameMatches(b, term)
    || Text.IncludesIgnoringCase(b.notes.GetOr(""), term)
  }

  predicate MatchesStatus(b: Booking, filter: string)
  {
    filter == "all" || Text.Lower(b.status.GetOr("")) == filter
  }

  predicate MatchesLocation(b: Booking, filter: string)
  {
    filter == "all" || ShowLocation(b) == Some(filter)
  }

  predicate MatchesShowType(b: Booking, filter: string)
  {
    filter == "all" || ShowType(b) == Some(filter)
  }

  /** The filter callback, with its early return for an empty search term. */
  predicate Passes(b: Booking, f: Filters)
  {
    f.searchTerm == "" ||
    (MatchesSearch(b, f.searchTerm) && MatchesStatus(b, f.status)
     && MatchesLocation(b, f.location) && MatchesShowType(b, f.showType))
  }

  /**
   * filteredBookings: the bookings that pass, in their order. An empty search term lets
   * every booking through whatever the other three filters say.
   */
  function FilteredBookings(bookings: seq<Booking>, f: Filters): (r: seq<Booking>)
    ensures Lists.Subsequence(r, bookings)
    ensures forall b :: b in r ==> b in bookings && Passes(b, f)
    ensures forall b :: b in bookings && Passes(b, f) ==> b in r
    ensures f.searchTerm == "" ==> r == bookings
  {
    Lists.Filter(bookings, b => Passes(b, f))
  }

  /** With a search term, a booking passes only when it also passes the status, location and show-type filters. */
  lemma FilterNeedsAllFour(bookings: seq<Booking>, f: Filters, b: Booking)
    requires f.searchTerm != ""
    requires b in FilteredBookings(bookings, f)
    ensures MatchesSearch(b, f.searchTerm)
    ensures f.status == "all" || Text.Lower(b.status.GetOr("")) == f.status
    ensures f.location == "all" || (b.show.Populated? && b.show.doc.location == f.location)
    ensures f.showType == "all" || (b.show.Populated? && b.show.doc.showType == f.showType)
  {
  }

  /** A booking always passes the status filter set to its own lower-cased status. */
  lemma OwnLowerStatusMatches(b: Booking)
    ensures MatchesStatus(b, Text.Lower(b.status.GetOr("")))
  {
  }

  /**
   * A filter value with an upper-case letter other than "all" matches no booking, since the
   * booking's side is lower-cased: "Confirmed" never passes.
   */
  lemma UpperCaseFilterMatchesNothing(b: Booking, filter: string, i: nat)
    requires filter != "all"
    requires i < |filter| && 'A' <= filter[i] <= 'Z'
    ensures !MatchesStatus(b, filter)
  {
    var lowered := Text.Lower(b.status.GetOr(""));
  }

  /** A matching assigned staff name is enough for the search, whatever the company name and notes. */
  lemma StaffNameFindsBooking(b: Booking, day: nat, slot: nat, term: string)
    requires day < |b.dailyStaffing| && slot < |b.dailyStaffing[day].assignedStaff|
    requires Text.IncludesIgnoringCase(StaffName(b.dailyStaffing[day].assignedStaff[slot]), term)
    ensures MatchesSearch(b, term)
  {
    assert b.dailyStaffing[day] in b.dailyStaffing;
    assert b.dailyStaffing[day].assignedStaff[slot] in b.dailyStaffing[day].assignedStaff;
  }

  /** The list renders `bookings` itself; in the state the component starts in the filtered list is the same list. */
  lemma InitialFilterKeepsEverything(bookings: seq<Booking>)
    ensures FilteredBookings(bookings, InitialFilters) == bookings
  {
  }

  function LocationOrEmpty(b: Booking): string
  {
    ShowLocation(b).GetOr("")
  }

  function TypeOrEmpty(b: Booking): string
  {
    ShowType(b).GetOr("")
  }

  /** `[...new Set(values.filter(Boolean))]` */
  function PresentDistinct(values: seq<string>): (r: seq<string>)
    ensures Lists.NoDup(r)
    ensures forall x :: x in r ==> x in values && x != ""
    ensures forall x :: x in values && x != "" ==> x in r
    ensures Lists.InFirstOccurrenceOrder(r, values)
  {
    var present := Lists.Filter(values, (x: string) => x != "");
    Lists.FilterInOrder(Lists.Distinct(present), values, (x: string) => x != "");
    Lists.Distinct(present)
  }

  /** locations: each non-empty show location once. */
  function Locations(bookings: seq<Booking>): (r: seq<string>)
    ensures Lists.NoDup(r)
    ensures forall x :: x in r ==> x != "" && exists i :: 0 <= i < |bookings| && ShowLocation(bookings[i]) == Some(x)
    ensures forall i :: 0 <= i < |bookings| && ShowLocation(bookings[i]).Some? && ShowLocation(bookings[i]).value != "" ==>
      ShowLocation(bookings[i]).value in r
    ensures Lists.InFirstOccurrenceOrder(r, Lists.MapKey(bookings, LocationOrEmpty))
  {
    var values := Lists.MapKey(bookings, LocationOrEmpty);
    assert forall i :: 0 <= i < |bookings| ==> values[i] in values;
    PresentDistinct(values)
  }

  /** showTypes: each non-empty show type once. */
  function ShowTypes(bookings: seq<Booking>): (r: seq<string>)
    ensures Lists.NoDup(r)
    ensures forall x :: x in r ==> x != "" && exists i :: 0 <= i < |bookings| && ShowType(bookings[i]) == Some(x)
    ensures forall i :: 0 <= i < |bookings| && ShowType(bookings[i]).Some? && ShowType(bookings[i]).value != "" ==>
      ShowType(bookings[i]).value in r
    ensures Lists.InFirstOccurrenceOrder(r, Lists.MapKey(bookings, TypeOrEmpty))
  {
    var values := Lists.MapKey(bookings, TypeOrEmpty);
    assert forall i :: 0 <= i < |bookings| ==> values[i] in values;
    PresentDistinct(values)
  }

  /** The object key `acc[booking.status]`: a missing status is the key "undefined". */
  function StatusKey(b: Booking): string
  {
    b.status.GetOr("undefined")
  }

  /** Some booking of `s` has status key `k`. */
  ghost predicate Occurs(s: seq<Booking>, k: string)
  {
    exists j :: 0 <= j < |s| && StatusKey(s[j]) == k
  }

  /** The keys of `groups` are exactly the status keys occurring in `s`. */
  ghost predicate KeysOf(groups: map<string, seq<Booking>>, s: seq<Booking>)
  {
    forall k :: k in groups <==> Occurs(s, k)
  }

  /** Each group holds the bookings of `s` with its key, in order. */
  ghost predicate ContentsOf(groups: map<string, seq<Booking>>, s: seq<Booking>)
  {
    forall k :: k in groups ==> groups[k] == Lists.SelectKey(s, StatusKey, k)
  }

  /** `groups` holds, for each status key occurring in `s`, the bookings of `s` with that key in order. */
  ghost predicate GroupsOf(groups: map<string, seq<Booking>>, s: seq<Booking>)
  {
    KeysOf(groups, s) && ContentsOf(groups, s)
  }

  /** The pushed booking's key is added to the keys, and no other. */
  lemma KeyStep(groups: map<string, seq<Booking>>, s: seq<Booking>, b: Booking, g: seq<Booking>)
    requires KeysOf(groups, s)
    ensures KeysOf(groups[StatusKey(b) := g], s + [b])
  {
    var k := StatusKey(b);
    var t := s + [b];
    forall k' ensures k' in groups[k := g] <==> Occurs(t, k') {
      if k' in groups && k' != k {
        var j :| 0 <= j < |s| && StatusKey(s[j]) == k';
        assert t[j] == s[j];
      }
      if Occurs(t, k') {
        var j :| 0 <= j < |t| && StatusKey(t[j]) == k';
        if j < |s| {
          assert t[j] == s[j];
        }
      }
      if k' == k {
        assert t[|s|] == b;
      }
    }
  }

  /** Pushing `b` onto its group, empty when new, keeps each group the selection of its key. */
  lemma ContentStep(groups: map<string, seq<Booking>>, s: seq<Booking>, b: Booking)
    requires GroupsOf(groups, s)
    ensures var k := StatusKey(b);
      ContentsOf(groups[k := (if k in groups then groups[k] else []) + [b]], s + [b])
  {
    var k := StatusKey(b);
    var old_k := if k in groups then groups[k] else [];
    assert old_k == Lists.SelectKey(s, StatusKey, k) by {
      if k !in groups {
        NoKeyNoGroup(s, k);
      }
    }
    forall k' | k' in groups[k := old_k + [b]]
      ensures groups[k := old_k + [b]][k'] == Lists.SelectKey(s + [b], StatusKey, k')
    {
      Lists.SelectKeySnoc(s, StatusKey, k', b);
    }
  }

  /** One step of the reduce: pushing `b` onto its group extends the grouping by `b`. */
  lemma GroupStep(groups: map<string, seq<Booking>>, all: seq<Booking>, i: nat,
                  groups': map<string, seq<Booking>>)
    requires i < |all| && GroupsOf(groups, all[..i])
    requires var k := StatusKey(all[i]);
      groups' == groups[k := (if k in groups then groups[k] else []) + [all[i]]]
    ensures GroupsOf(groups', all[..i + 1])
  {
    var b, k := all[i], StatusKey(all[i]);
    KeyStep(groups, all[..i], b, (if k in groups then groups[k] else []) + [b]);
    ContentStep(groups, all[..i], b);
    assert all[..i + 1] == all[..i] + [b];
  }

  /** One step of the reduce: `acc[key] = acc[key] || []` and then `acc[key].push(booking)`. */
  function PushByStatus(groups: map<string, seq<Booking>>, b: Booking): (r: map<string, seq<Booking>>)
    ensures r.Keys == groups.Keys + {StatusKey(b)}
    ensures forall k :: k in groups && k != StatusKey(b) ==> r[k] == groups[k]
  {
    var k := StatusKey(b);
    groups[k := (if k in groups then groups[k] else []) + [b]]
  }

  /** The reduce over `s`, from the empty object. */
  function Grouping(s: seq<Booking>): map<string, seq<Booking>>
    decreases |s|
  {
    if s == [] then map[] else PushByStatus(Grouping(s[..|s| - 1]), s[|s| - 1])
  }

  /** The reduce groups its input: each status that occurs, with its bookings in order. */
  lemma {:induction false} GroupingIsGroups(s: seq<Booking>)
    ensures GroupsOf(Grouping(s), s)
    decreases |s|
  {
    if s == [] {
    } else {
      var n := |s| - 1;
      GroupingIsGroups(s[..n]);
      GroupStep(Grouping(s[..n]), s, n, Grouping(s));
      assert s[..n + 1] == s;
    }
  }

  /**
   * groupedBookings: one group per status that occurs, each holding the bookings with
   * that status in their original order.
   */
  method GroupByStatus(filtered: seq<Booking>) returns (groups: map<string, seq<Booking>>)
    ensures groups == Grouping(filtered)
    ensures forall k :: k in groups <==> exists i :: 0 <= i < |filtered| && StatusKey(filtered[i]) == k
    ensures forall k :: k in groups ==> groups[k] == Lists.SelectKey(filtered, StatusKey, k)
  {
    groups := map[];
    var i := 0;
    while i < |filtered|
      invariant 0 <= i <= |filtered|
      invariant groups == Grouping(filtered[..i])
    {
      var b := filtered[i];
      var k := StatusKey(b);
      var group := if k in groups then groups[k] else [];
      groups := groups[k := group + [b]];
      assert filtered[..i + 1][..i] == filtered[..i];
      i := i + 1;
    }
    assert filtered[..i] == filtered;
    GroupingIsGroups(filtered);
  }

  lemma NoKeyNoGroup(s: seq<Booking>, k: string)
    requires forall j :: 0 <= j < |s| ==> StatusKey(s[j]) != k
    ensures Lists.SelectKey(s, StatusKey, k) == []
  {
  }

  /**
   * Grouping loses and duplicates nothing: the groups of the statuses that occur, taken in
   * first-occurrence order, hold exactly the filtered bookings.
   */
  lemma GroupsPartitionFiltered(filtered: seq<Booking>)
    ensures var keys := Lists.Distinct(Lists.MapKey(filtered, StatusKey));
      multiset(Lists.FlattenGroups(filtered, StatusKey, keys)) == multiset(filtered)
  {
    var keys := Lists.Distinct(Lists.MapKey(filtered, StatusKey));
    forall b | b in filtered ensures StatusKey(b) in keys {
      var i :| 0 <= i < |filtered| && filtered[i] == b;
      assert Lists.MapKey(filtered, StatusKey)[i] == StatusKey(b);
    }
    Lists.GroupsPartition(filtered, StatusKey, keys);
  }

  /**
   * Reading the groups in status order shows every filtered booking exactly once when every
   * booking carries one of the four schema statuses.
   */
  lemma StatusOrderCoversValidStatuses(filtered: seq<Booking>)
    requires forall b :: b in filtered ==> b.status.Some? && b.status.value in Statuses
    ensures multiset(Lists.FlattenGroups(filtered, StatusKey, StatusOrder)) == multiset(filtered)
  {
    assert StatusOrder == Statuses;
    Lists.GroupsPartition(filtered, StatusKey, StatusOrder);
  }
}

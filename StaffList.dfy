/**
 * The staff list (components/Staff/StaffList.js): the search, the shuffle the shown list
 * goes through, the replace-or-append on save, and the per-location counts of the summary.
 */
module StaffList {
  import opened Wrappers
  import Lists
  import Text
  import StaffModel

  type Staff = StaffModel.Staff

  /** `member.role?.toLowerCase().includes(s)`: a missing field matches nothing. */
  predicate OptionalIncludes(field: Option<string>, term: string)
  {
    field.Some? && Text.IncludesIgnoringCase(field.value, term)
  }

  /** The search: name, email, role, department or one of the locations contains the term, ignoring case. */
  predicate MatchesSearch(m: Staff, term: string)
  {
    || Text.IncludesIgnoringCase(m.name, term)
    || Text.IncludesIgnoringCase(m.email, term)
    || OptionalIncludes(m.role, term)
    || OptionalIncludes(m.department, term)
    || exists loc :: loc in m.location && Text.IncludesIgnoringCase(loc, term)
  }

  function Searched(staff: seq<Staff>, term: string): (r: seq<Staff>)
    ensures Lists.Subsequence(r, staff)
    ensures forall m :: m in r ==> m in staff && MatchesSearch(m, term)
    ensures forall m :: m in staff && MatchesSearch(m, term) ==> m in r
  {
    Lists.Filter(staff, m => MatchesSearch(m, term))
  }

  /** Every string contains the empty term, so an empty search shows everybody. */
  lemma EmptySearchShowsAll(staff: seq<Staff>)
    ensures Searched(staff, "") == staff
  {
    forall m | m in staff ensures MatchesSearch(m, "") {
      assert Text.Lower("") == "";
      assert Text.IsPrefix("", Text.Lower(m.name));
    }
  }

  /**
   * shuffleArray: a copy of the list whose elements are swapped in place from the back; the
   * random index is chosen nondeterministically. The result rearranges the input and nothing more.
   */
  method Shuffle<T>(input: seq<T>) returns (shuffled: seq<T>)
    ensures |shuffled| == |input|
    ensures multiset(shuffled) == multiset(input)
  {
    if |input| == 0 {
      return input;
    }
    var a := new T[|input|](k requires 0 <= k < |input| => input[k]);
    assert a[..] == input;
    var i := a.Length - 1;
    while i > 0
      invariant 0 <= i < a.Length
      invariant multiset(a[..]) == multiset(input)
    {
      var j :| 0 <= j <= i;
      a[i], a[j] := a[j], a[i];
      i := i - 1;
    }
    shuffled := a[..];
  }

  /** A location's summary count: the shown members whose location list includes the code. */
  function LocationCount(shown: seq<Staff>, code: string): (n: nat)
    ensures n <= |shown|
    ensures n == |Lists.Filter(shown, (m: Staff) => code in m.location)|
  {
    |Lists.Filter(shown, (m: Staff) => code in m.location)|
  }

  /** The counts do not depend on the shuffle: any rearrangement of the searched staff gives the same counts. */
  lemma CountsIgnoreOrder(a: seq<Staff>, b: seq<Staff>, code: string)
    requires multiset(a) == multiset(b)
    ensures LocationCount(a, code) == LocationCount(b, code)
  {
    Lists.FilterCountPermutation(a, b, (m: Staff) => code in m.location);
  }

  /** The summary's location counts never exceed the searched total, whatever the shuffle did. */
  method Summary(staff: seq<Staff>, term: string) returns (total: nat, atl: nat, nyc: nat, la: nat, dal: nat)
    ensures total == |Searched(staff, term)|
    ensures atl == LocationCount(Searched(staff, term), "ATL") && atl <= total
    ensures nyc == LocationCount(Searched(staff, term), "NYC") && nyc <= total
    ensures la == LocationCount(Searched(staff, term), "LA") && la <= total
    ensures dal == LocationCount(Searched(staff, term), "DAL") && dal <= total
  {
    var searched := Searched(staff, term);
    var shown := Shuffle(searched);
    total := |shown|;
    CountsIgnoreOrder(shown, searched, "ATL");
    CountsIgnoreOrder(shown, searched, "NYC");
    CountsIgnoreOrder(shown, searched, "LA");
    CountsIgnoreOrder(shown, searched, "DAL");
    atl := LocationCount(shown, "ATL");
    nyc := LocationCount(shown, "NYC");
    la := LocationCount(shown, "LA");
    dal := LocationCount(shown, "DAL");
  }

  function Id(m: Staff): string
  {
    m.id
  }

  /** handleStaffUpdated: an edit replaces the members with the saved id; an add appends the new member. */
  function HandleStaffUpdated(staff: seq<Staff>, selected: Option<Staff>, updated: Staff): (r: seq<Staff>)
    ensures selected.None? ==> r == staff + [updated]
    ensures selected.Some? ==> |r| == |staff|
    ensures selected.Some? ==> forall i :: 0 <= i < |staff| ==>
      r[i] == if staff[i].id == updated.id then updated else staff[i]
  {
    if selected.Some? then Lists.ReplaceKey(staff, Id, updated.id, updated) else staff + [updated]
  }

  /** Saving an edit of a member not in the list (already deleted elsewhere) changes nothing. */
  lemma EditOfUnknownIdChangesNothing(staff: seq<Staff>, selected: Staff, updated: Staff)
    requires forall m :: m in staff ==> m.id != updated.id
    ensures HandleStaffUpdated(staff, Some(selected), updated) == staff
  {
    Lists.ReplaceUnknownKey(staff, Id, updated.id, updated);
  }
}

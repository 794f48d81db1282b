/**
 * The staff picker used for each slot (components/Bookings/StaffAutocomplete.js). Its own
 * state is the search term and whether the list is open; the selected id `value` belongs to
 * the parent, so each handler also returns the id it passes to `onChange`, if any.
 */
module StaffAutocomplete {
  import opened Wrappers
  import Lists
  import Text
  import StaffModel

  datatype PickerState = PickerState(searchTerm: string, isOpen: bool)

  function StaffId(s: StaffModel.Staff): string
  {
    s.id
  }

  /** selectedStaff: the first roster entry whose id is the current value. */
  function SelectedStaff(roster: seq<StaffModel.Staff>, value: string): (r: Option<StaffModel.Staff>)
    ensures r.Some? ==> r.value in roster && r.value.id == value
    ensures r.Some? ==> exists i :: 0 <= i < |roster| && roster[i] == r.value && forall j :: 0 <= j < i ==> roster[j].id != value
    ensures r.None? <==> forall i :: 0 <= i < |roster| ==> roster[i].id != value
  {
    Lists.FindKey(roster, StaffId, value)
  }

  predicate Offered(s: StaffModel.Staff, term: string, value: string)
  {
    Text.IncludesIgnoringCase(s.name, term) && s.id != value
  }

  /** filteredStaff: the roster entries whose name contains the term, ignoring case, other than the one selected. */
  function FilteredStaff(roster: seq<StaffModel.Staff>, value: string, term: string): (r: seq<StaffModel.Staff>)
    ensures Lists.Subsequence(r, roster)
    ensures forall s :: s in r ==> s in roster && Text.IncludesIgnoringCase(s.name, term) && s.id != value
    ensures forall s :: s in roster && Text.IncludesIgnoringCase(s.name, term) && s.id != value ==> s in r
  {
    Lists.Filter(roster, s => Offered(s, term, value))
  }

  /** The input's text: the selected person's name, or else the search term. */
  function DisplayValue(roster: seq<StaffModel.Staff>, value: string, st: PickerState): (r: string)
    ensures SelectedStaff(roster, value).Some? ==> r == SelectedStaff(roster, value).value.name
    ensures SelectedStaff(roster, value).None? ==> r == st.searchTerm
  {
    match SelectedStaff(roster, value)
    case Some(s) => s.name
    case None => st.searchTerm
  }

  /** Typing: the term becomes the text and the list opens; a current selection is cleared by emitting "". */
  function OnType(roster: seq<StaffModel.Staff>, value: string, st: PickerState, text: string): (r: (PickerState, Option<string>))
    ensures r.0 == PickerState(text, true)
    ensures r.1.Some? <==> SelectedStaff(roster, value).Some?
    ensures r.1.Some? ==> r.1.value == ""
  {
    (PickerState(text, true), if SelectedStaff(roster, value).Some? then Some("") else None)
  }

  /** Choosing an entry emits its id, clears the term and closes the list. */
  function OnSelect(st: PickerState, chosen: StaffModel.Staff): (r: (PickerState, string))
    ensures r.0 == PickerState("", false)
    ensures r.1 == chosen.id
  {
    (PickerState("", false), chosen.id)
  }

  /**
   * After a choice is made and the parent takes the emitted id, the input shows the chosen
   * person's name (ids being distinct), and that person is no longer offered.
   */
  lemma SelectThenDisplay(roster: seq<StaffModel.Staff>, st: PickerState, i: nat)
    requires i < |roster|
    requires forall j, k :: 0 <= j < k < |roster| ==> roster[j].id != roster[k].id
    ensures var (st', id) := OnSelect(st, roster[i]);
      && DisplayValue(roster, id, st') == roster[i].name
      && roster[i] !in FilteredStaff(roster, id, st'.searchTerm)
  {
    var id := roster[i].id;
    var r := SelectedStaff(roster, id);
    var j :| 0 <= j < |roster| && roster[j] == r.value && forall m :: 0 <= m < j ==> roster[m].id != id;
    assert j == i;
  }

  /**
   * Typing over a selection: once the parent takes the emitted "", the input shows what was
   * typed, provided no roster entry has the empty id.
   */
  lemma TypeOverSelection(roster: seq<StaffModel.Staff>, value: string, st: PickerState, text: string)
    requires SelectedStaff(roster, value).Some?
    requires forall i :: 0 <= i < |roster| ==> roster[i].id != ""
    ensures var (st', emitted) := OnType(roster, value, st, text);
      emitted == Some("") && DisplayValue(roster, emitted.value, st') == text
  {
  }

  /** An empty term offers the whole roster except the current selection. */
  lemma EmptyTermOffersEveryoneElse(roster: seq<StaffModel.Staff>, value: string, s: StaffModel.Staff)
    requires s in roster && s.id != value
    ensures s in FilteredStaff(roster, value, "")
  {
    assert Text.Lower("") == "";
    assert Text.IsPrefix("", Text.Lower(s.name));
  }
}

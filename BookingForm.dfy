/**
 * The daily staffing builder of the booking form (components/Bookings/BookingForm.js).
 *
 * The component holds the days twice: in its own `dailyStaffing` state and in the
 * parent's `formData.dailyStaffing`. Every day handler computes the new days from the
 * component's copy and then writes both; the show-change effect clears only the
 * parent's copy. `FormState` carries both copies so that this is visible.
 */
module BookingForm {
  import opened Wrappers
  import Lists
  import StaffModel
  import ShowModel

  /** A day as the form holds it: assigned staff are ids, "" marking an empty slot. */
  datatype FormDay = FormDay(date: Option<int>, staffNeeded: int, assignedStaff: seq<string>)

  /** The booking form's `formData`; dates are day numbers, None for the empty input. */
  datatype BookingFormData = BookingFormData(
    show: string,
    client: string,
    startDate: Option<int>,
    endDate: Option<int>,
    dailyStaffing: seq<FormDay>,
    notes: string,
    status: string)

  /** The empty form every page and modal starts from and resets to. */
  const EmptyForm: BookingFormData := BookingFormData("", "", None, None, [], "", "Pending")

  datatype FormState = FormState(
    formData: BookingFormData,
    selectedShow: Option<ShowModel.Show>,
    dailyStaffing: seq<FormDay>)

  /** The days from `start` to `end` inclusive, each needing one person and with nobody assigned. */
  function DayRange(start: int, end: int): (days: seq<FormDay>)
    ensures |days| == if start <= end then end - start + 1 else 0
    ensures forall i :: 0 <= i < |days| ==> days[i] == FormDay(Some(start + i), 1, [])
    decreases end - start
  {
    if start > end then [] else [FormDay(Some(start), 1, [])] + DayRange(start + 1, end)
  }

  /** The dates of the range are consecutive and strictly increasing. */
  lemma DayRangeConsecutive(start: int, end: int, i: nat)
    requires i + 1 < |DayRange(start, end)|
    ensures DayRange(start, end)[i + 1].date.value == DayRange(start, end)[i].date.value + 1
  {
  }

  /** The expansion loop of the date effect: one entry per day while the current date is not past the end. */
  method ExpandDays(start: int, end: int) returns (days: seq<FormDay>)
    ensures days == DayRange(start, end)
  {
    days := [];
    var current := start;
    while current <= end
      invariant start <= current && (current <= end + 1 || current == start)
      invariant |days| == current - start
      invariant forall i :: 0 <= i < |days| ==> days[i] == FormDay(Some(start + i), 1, [])
      decreases end - current
    {
      days := days + [FormDay(Some(current), 1, [])];
      current := current + 1;
    }
  }

  /** Both copies of the days now hold `days`; nothing else in the state has changed. */
  predicate Committed(st: FormState, r: FormState, days: seq<FormDay>)
  {
    && r.dailyStaffing == days
    && r.formData == st.formData.(dailyStaffing := days)
    && r.selectedShow == st.selectedShow
  }

  function Commit(st: FormState, days: seq<FormDay>): (r: FormState)
    ensures Committed(st, r, days)
  {
    st.(dailyStaffing := days, formData := st.formData.(dailyStaffing := days))
  }

  /**
   * The show-change effect: when the chosen show id names a known show, it becomes the
   * selected show and the form's dates and days are cleared. The component's own copy of
   * the days is left as it was.
   */
  function OnShowChanged(st: FormState, shows: seq<ShowModel.Show>): (r: FormState)
    ensures r.dailyStaffing == st.dailyStaffing
    ensures (st.formData.show != "" && exists i :: 0 <= i < |shows| && shows[i].id == st.formData.show) ==>
      && r.selectedShow.Some? && r.selectedShow.value in shows && r.selectedShow.value.id == st.formData.show
      && r.formData == st.formData.(startDate := None, endDate := None, dailyStaffing := [])
    ensures !(st.formData.show != "" && exists i :: 0 <= i < |shows| && shows[i].id == st.formData.show) ==> r == st
  {
    if st.formData.show == "" then st
    else match Lists.FindKey(shows, (s: ShowModel.Show) => s.id, st.formData.show)
      case None => st
      case Some(show) =>
        st.(selectedShow := Some(show),
            formData := st.formData.(startDate := None, endDate := None, dailyStaffing := []))
  }

  /** The date effect: with both dates set, both copies become the expansion of the range, replacing any earlier days. */
  function OnDatesChanged(st: FormState): (r: FormState)
    ensures st.formData.startDate.Some? && st.formData.endDate.Some? ==>
      Committed(st, r, DayRange(st.formData.startDate.value, st.formData.endDate.value))
    ensures st.formData.startDate.None? || st.formData.endDate.None? ==> r == st
  {
    if st.formData.startDate.Some? && st.formData.endDate.Some? then
      Commit(st, DayRange(st.formData.startDate.value, st.formData.endDate.value))
    else st
  }

  /**
   * One commit of the form's two effects after the parent replaced the form data `prev` by
   * `st.formData`. The show effect runs when the show id changed, then the date effect when
   * either date changed. Both write through `setFormData(prev => ..)`, so the date effect's
   * days land on what the show effect left, while the dates it expands are the rendered ones.
   */
  function EffectsAfterChange(prev: BookingFormData, st: FormState, shows: seq<ShowModel.Show>): (r: FormState)
    ensures st.formData.show == prev.show && st.formData.startDate == prev.startDate && st.formData.endDate == prev.endDate ==> r == st
    ensures st.formData.show == prev.show ==> r == DateEffectInCommit(prev, st, st)
  {
    var afterShow := if st.formData.show != prev.show then OnShowChanged(st, shows) else st;
    DateEffectInCommit(prev, st, afterShow)
  }

  /** The date effect as it runs inside a commit: triggered and computed from `rendered`, written onto `current`. */
  function DateEffectInCommit(prev: BookingFormData, rendered: FormState, current: FormState): (r: FormState)
    ensures rendered.formData.startDate == prev.startDate && rendered.formData.endDate == prev.endDate ==> r == current
    ensures rendered.formData.startDate.None? || rendered.formData.endDate.None? ==> r == current
  {
    if rendered.formData.startDate == prev.startDate && rendered.formData.endDate == prev.endDate then current
    else if rendered.formData.startDate.Some? && rendered.formData.endDate.Some? then
      Commit(current, DayRange(rendered.formData.startDate.value, rendered.formData.endDate.value))
    else current
  }

  /**
   * The effects as they are evidently meant to run: they answer the user's edits of the show
   * and the dates, and leave alone a form the modal has just filled from a saved booking.
   */
  function EffectsAfterUserChange(prev: BookingFormData, st: FormState, shows: seq<ShowModel.Show>, byUser: bool): (r: FormState)
    ensures !byUser ==> r == st
    ensures byUser ==> r == EffectsAfterChange(prev, st, shows)
  {
    if byUser then EffectsAfterChange(prev, st, shows) else st
  }

  /** `Array(n).fill('')` */
  function EmptySlots(n: nat): (slots: seq<string>)
    ensures |slots| == n && forall k :: 0 <= k < n ==> slots[k] == ""
  {
    seq(n, _ => "")
  }

  /** The days with day `index` passed through `f`; an index outside the list matches no day. */
  function MapDay(days: seq<FormDay>, index: int, f: FormDay -> FormDay): (r: seq<FormDay>)
    ensures |r| == |days|
    ensures forall i :: 0 <= i < |days| ==> r[i] == if i == index then f(days[i]) else days[i]
  {
    seq(|days|, i requires 0 <= i < |days| => if i == index then f(days[i]) else days[i])
  }

  /**
   * handleStaffCountChange: day `index` needs `count` people and its assignments are reset
   * to `count` empty slots; its date and every other day stay as they were.
   */
  function HandleStaffCountChange(st: FormState, index: int, count: nat): (r: FormState)
    ensures |r.dailyStaffing| == |st.dailyStaffing|
    ensures Committed(st, r, r.dailyStaffing)
    ensures 0 <= index < |st.dailyStaffing| ==>
      && r.dailyStaffing[index].date == st.dailyStaffing[index].date
      && r.dailyStaffing[index].staffNeeded == count
      && |r.dailyStaffing[index].assignedStaff| == count
      && forall k :: 0 <= k < count ==> r.dailyStaffing[index].assignedStaff[k] == ""
    ensures forall i :: 0 <= i < |st.dailyStaffing| && i != index ==> r.dailyStaffing[i] == st.dailyStaffing[i]
  {
    Commit(st, MapDay(st.dailyStaffing, index, (d: FormDay) => d.(staffNeeded := count, assignedStaff := EmptySlots(count))))
  }

  /** The minus button: one fewer, but never below one. */
  function MinusCount(staffNeeded: int): (n: int)
    ensures n >= 1
    ensures staffNeeded >= 2 ==> n == staffNeeded - 1
    ensures staffNeeded < 2 ==> n == 1
  {
    if staffNeeded - 1 > 1 then staffNeeded - 1 else 1
  }

  /** The plus button: exactly one more. */
  function PlusCount(staffNeeded: int): (n: int)
    ensures n == staffNeeded + 1
  {
    staffNeeded + 1
  }

  /** The two buttons undo each other on any count the minus button leaves alone. */
  lemma PlusMinusInverse(n: int)
    ensures n >= 1 ==> MinusCount(PlusCount(n)) == n
    ensures n >= 2 ==> PlusCount(MinusCount(n)) == n
    ensures n < 2 ==> PlusCount(MinusCount(n)) == 2
  {
  }

  /** Pressing plus on a day gives it one more needed person and one more slot, all of them empty. */
  lemma PlusAddsOneSlot(st: FormState, i: nat)
    requires i < |st.dailyStaffing| && st.dailyStaffing[i].staffNeeded >= 0
    ensures var r := HandleStaffCountChange(st, i, PlusCount(st.dailyStaffing[i].staffNeeded));
      && r.dailyStaffing[i].staffNeeded == st.dailyStaffing[i].staffNeeded + 1
      && |r.dailyStaffing[i].assignedStaff| == st.dailyStaffing[i].staffNeeded + 1
      && (forall k :: 0 <= k < |r.dailyStaffing[i].assignedStaff| ==> r.dailyStaffing[i].assignedStaff[k] == "")
      && r.formData.dailyStaffing == r.dailyStaffing
  {
  }

  /**
   * handleIndividualStaffAssignment: slot `position` of day `dayIndex` holds `staffId`. Writing
   * one past the end extends the list by that slot, as the array write does; nothing checks
   * whether the id is already on the day.
   */
  function HandleIndividualStaffAssignment(st: FormState, dayIndex: int, position: nat, staffId: string): (r: FormState)
    requires 0 <= dayIndex < |st.dailyStaffing| ==> position <= |st.dailyStaffing[dayIndex].assignedStaff|
    ensures |r.dailyStaffing| == |st.dailyStaffing|
    ensures Committed(st, r, r.dailyStaffing)
    ensures 0 <= dayIndex < |st.dailyStaffing| ==>
      var old_ := st.dailyStaffing[dayIndex].assignedStaff;
      var new_ := r.dailyStaffing[dayIndex].assignedStaff;
      && r.dailyStaffing[dayIndex].date == st.dailyStaffing[dayIndex].date
      && r.dailyStaffing[dayIndex].staffNeeded == st.dailyStaffing[dayIndex].staffNeeded
      && |new_| == (if position < |old_| then |old_| else |old_| + 1)
      && new_[position] == staffId
      && forall k :: 0 <= k < |old_| && k != position ==> new_[k] == old_[k]
    ensures forall i :: 0 <= i < |st.dailyStaffing| && i != dayIndex ==> r.dailyStaffing[i] == st.dailyStaffing[i]
  {
    var write := (d: FormDay) =>
      if position < |d.assignedStaff| then d.(assignedStaff := d.assignedStaff[position := staffId])
      else d.(assignedStaff := d.assignedStaff + [staffId]);
    Commit(st, MapDay(st.dailyStaffing, dayIndex, write))
  }

  /**
   * copyPreviousDay: day 0 leaves the state alone; otherwise day `dayIndex` takes the previous
   * day's count and an equal copy of its assignments, keeping its own date.
   */
  function CopyPreviousDay(st: FormState, dayIndex: int): (r: FormState)
    ensures dayIndex == 0 ==> r == st
    ensures dayIndex != 0 ==> Committed(st, r, r.dailyStaffing)
    ensures |r.dailyStaffing| == |st.dailyStaffing|
    ensures 0 < dayIndex < |st.dailyStaffing| ==>
      r.dailyStaffing[dayIndex] == st.dailyStaffing[dayIndex].(
        staffNeeded := st.dailyStaffing[dayIndex - 1].staffNeeded,
        assignedStaff := st.dailyStaffing[dayIndex - 1].assignedStaff)
    ensures forall i :: 0 <= i < |st.dailyStaffing| && i != dayIndex ==> r.dailyStaffing[i] == st.dailyStaffing[i]
  {
    if dayIndex == 0 then st
    else if 0 < dayIndex < |st.dailyStaffing| then
      var previous := st.dailyStaffing[dayIndex - 1];
      Commit(st, MapDay(st.dailyStaffing, dayIndex,
        (d: FormDay) => d.(staffNeeded := previous.staffNeeded, assignedStaff := previous.assignedStaff)))
    else
      Commit(st, st.dailyStaffing)
  }

  /** setAllDaysStaffCount: the count change applied to every day; the number of days and their dates are kept. */
  function SetAllDaysStaffCount(st: FormState, count: nat): (r: FormState)
    ensures Committed(st, r, r.dailyStaffing)
    ensures |r.dailyStaffing| == |st.dailyStaffing|
    ensures forall i :: 0 <= i < |st.dailyStaffing| ==>
      r.dailyStaffing[i] == st.dailyStaffing[i].(staffNeeded := count, assignedStaff := EmptySlots(count))
  {
    Commit(st, seq(|st.dailyStaffing|, i requires 0 <= i < |st.dailyStaffing| =>
      st.dailyStaffing[i].(staffNeeded := count, assignedStaff := EmptySlots(count))))
  }

  /** Setting every day's count agrees with setting the days' counts one by one. */
  lemma SetAllIsCountChangeEverywhere(st: FormState, count: nat, i: nat)
    requires i < |st.dailyStaffing|
    ensures SetAllDaysStaffCount(st, count).dailyStaffing[i] == HandleStaffCountChange(st, i, count).dailyStaffing[i]
  {
  }

  /** No two roster entries share an id. */
  ghost predicate DistinctIds(roster: seq<StaffModel.Staff>)
  {
    forall i, j :: 0 <= i < j < |roster| ==> roster[i].id != roster[j].id
  }

  /** The roster's ids that are not on `taken`, in roster order. */
  function AvailableIds(roster: seq<StaffModel.Staff>, taken: seq<string>): (ids: seq<string>)
    ensures forall x :: x in ids ==> x !in taken
    ensures forall i :: 0 <= i < |roster| && roster[i].id !in taken ==> roster[i].id in ids
    ensures forall x :: x in ids ==> exists i :: 0 <= i < |roster| && roster[i].id == x
    ensures DistinctIds(roster) ==> Lists.NoDup(ids)
    decreases |roster|, 1
  {
    if roster == [] then []
    else
      AvailableIdsTail(roster, taken);
      (if roster[0].id in taken then [] else [roster[0].id]) + AvailableIds(roster[1..], taken)
  }

  function StaffId(s: StaffModel.Staff): string
  {
    s.id
  }

  /**
   * The available ids are the source's own pipeline, `staffList.filter(..)` then the ids: so
   * they come in roster order, as a subsequence of the roster's ids.
   */
  lemma {:induction false} AvailableIdsInRosterOrder(roster: seq<StaffModel.Staff>, taken: seq<string>, untaken: StaffModel.Staff -> bool)
    requires forall s :: untaken(s) <==> s.id !in taken
    ensures AvailableIds(roster, taken) == Lists.MapKey(Lists.Filter(roster, untaken), StaffId)
    ensures Lists.Subsequence(AvailableIds(roster, taken), Lists.MapKey(roster, StaffId))
    decreases |roster|
  {
    if roster != [] {
      var rest := roster[1..];
      AvailableIdsInRosterOrder(rest, taken, untaken);
      var kept := Lists.Filter(rest, untaken);
      assert Lists.Filter(roster, untaken) == if untaken(roster[0]) then [roster[0]] + kept else kept;
      if untaken(roster[0]) {
        assert ([roster[0]] + kept)[1..] == kept;
      }
      var keys := Lists.MapKey(roster, StaffId);
      assert keys[1..] == Lists.MapKey(rest, StaffId);
    }
  }

  /** What the ids available from the roster's tail say about the whole roster. */
  lemma AvailableIdsTail(roster: seq<StaffModel.Staff>, taken: seq<string>)
    requires roster != []
    ensures forall i :: 1 <= i < |roster| && roster[i].id !in taken ==> roster[i].id in AvailableIds(roster[1..], taken)
    ensures forall x :: x in AvailableIds(roster[1..], taken) ==> exists i :: 0 <= i < |roster| && roster[i].id == x
    ensures DistinctIds(roster) ==> DistinctIds(roster[1..]) && roster[0].id !in AvailableIds(roster[1..], taken)
    decreases |roster|, 0
  {
    var rest := AvailableIds(roster[1..], taken);
    forall i | 1 <= i < |roster| && roster[i].id !in taken ensures roster[i].id in rest {
      assert roster[1..][i - 1] == roster[i];
    }
    forall x | x in rest ensures exists i :: 0 <= i < |roster| && roster[i].id == x {
      var i :| 0 <= i < |roster[1..]| && roster[1..][i].id == x;
      assert roster[i + 1].id == x;
    }
    if DistinctIds(roster) {
      forall x | x in rest ensures x != roster[0].id {
        var i :| 0 <= i < |roster[1..]| && roster[1..][i].id == x;
        assert roster[i + 1].id == x;
      }
    }
  }

  /**
   * autoFillDay: the day's list is REPLACED by the first `staffNeeded` roster ids that were
   * not on it; its count and date are kept, and so is every other day.
   */
  function AutoFillDay(st: FormState, dayIndex: nat, roster: seq<StaffModel.Staff>): (r: FormState)
    requires dayIndex < |st.dailyStaffing|
    ensures Committed(st, r, r.dailyStaffing)
    ensures |r.dailyStaffing| == |st.dailyStaffing|
    ensures forall i :: 0 <= i < |st.dailyStaffing| && i != dayIndex ==> r.dailyStaffing[i] == st.dailyStaffing[i]
    ensures
      var day := st.dailyStaffing[dayIndex];
      var filled := r.dailyStaffing[dayIndex];
      && filled.date == day.date && filled.staffNeeded == day.staffNeeded
      && filled.assignedStaff == Lists.SlicePrefix(AvailableIds(roster, day.assignedStaff), day.staffNeeded)
  {
    var day := st.dailyStaffing[dayIndex];
    var ids := Lists.SlicePrefix(AvailableIds(roster, day.assignedStaff), day.staffNeeded);
    Commit(st, MapDay(st.dailyStaffing, dayIndex, (d: FormDay) => d.(assignedStaff := ids)))
  }

  /**
   * What auto-fill assigns: only people who were not on the day before, each at most once
   * when the roster's ids are distinct, and as many as the count allows and the roster offers.
   */
  lemma AutoFillProperties(st: FormState, dayIndex: nat, roster: seq<StaffModel.Staff>)
    requires dayIndex < |st.dailyStaffing|
    requires st.dailyStaffing[dayIndex].staffNeeded >= 0
    ensures
      var day := st.dailyStaffing[dayIndex];
      var filled := AutoFillDay(st, dayIndex, roster).dailyStaffing[dayIndex].assignedStaff;
      var available := AvailableIds(roster, day.assignedStaff);
      && (forall x :: x in filled ==> x !in day.assignedStaff)
      && (forall x :: x in filled ==> exists i :: 0 <= i < |roster| && roster[i].id == x)
      && |filled| == (if day.staffNeeded < |available| then day.staffNeeded else |available|)
      && filled == available[..|filled|]
      && (DistinctIds(roster) ==> Lists.NoDup(filled))
  {
    var day := st.dailyStaffing[dayIndex];
    var available := AvailableIds(roster, day.assignedStaff);
    var filled := AutoFillDay(st, dayIndex, roster).dailyStaffing[dayIndex].assignedStaff;
    assert filled == available[..|filled|];
    forall x | x in filled ensures x in available {
      var k :| 0 <= k < |filled| && filled[k] == x;
      assert available[k] == x;
    }
    if DistinctIds(roster) {
      assert Lists.NoDup(available);
    }
  }

  /**
   * Auto-fill assigns what the source's pipeline computes: the roster filtered to people not on
   * the day, cut to the first `staffNeeded` in roster order, then their ids.
   */
  lemma AutoFillPicksInRosterOrder(st: FormState, dayIndex: nat, roster: seq<StaffModel.Staff>, untaken: StaffModel.Staff -> bool)
    requires dayIndex < |st.dailyStaffing|
    requires forall s :: untaken(s) <==> s.id !in st.dailyStaffing[dayIndex].assignedStaff
    ensures
      var day := st.dailyStaffing[dayIndex];
      AutoFillDay(st, dayIndex, roster).dailyStaffing[dayIndex].assignedStaff
        == Lists.MapKey(Lists.SlicePrefix(Lists.Filter(roster, untaken), day.staffNeeded), StaffId)
  {
    var day := st.dailyStaffing[dayIndex];
    AvailableIdsInRosterOrder(roster, day.assignedStaff, untaken);
    Lists.MapKeySlicePrefix(Lists.Filter(roster, untaken), StaffId, day.staffNeeded);
  }

  /**
   * Auto-fill does not top up: a day needing two with one person already on it gets two
   * new people, more than the one open slot.
   */
  lemma AutoFillReplacesRatherThanTopsUp(a: StaffModel.Staff, b: StaffModel.Staff, c: StaffModel.Staff)
    requires a.id == "a" && b.id == "b" && c.id == "c"
    ensures
      var st := FormState(EmptyForm, None, [FormDay(Some(0), 2, ["a"])]);
      AutoFillDay(st, 0, [a, b, c]).dailyStaffing[0].assignedStaff == ["b", "c"]
  {
    assert [a, b, c][1..] == [b, c];
    assert [b, c][1..] == [c];
    assert [c][1..] == [];
    assert AvailableIds([c], ["a"]) == ["c"];
    assert AvailableIds([b, c], ["a"]) == ["b", "c"];
    assert AvailableIds([a, b, c], ["a"]) == ["b", "c"];
    var st := FormState(EmptyForm, None, [FormDay(Some(0), 2, ["a"])]);
    assert AutoFillDay(st, 0, [a, b, c]).dailyStaffing[0].assignedStaff == Lists.SlicePrefix(["b", "c"], 2);
  }
}

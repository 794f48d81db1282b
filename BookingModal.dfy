/**
 * The edit modal's form-initialisation effect (components/Bookings/BookingModal.js):
 * opening it with a booking turns the booking into form data, opening it without one
 * resets the form, and while it is closed the form keeps what it has.
 */
module BookingModal {
  import opened Wrappers
  import BookingModel
  import ShowModel
  import opened BookingForm

  /** `booking.show?._id || ''`: only a document carries `_id`; a bare id string does not. */
  function ShowIdOf(b: BookingModel.Booking): string
  {
    if b.show.Populated? then b.show.doc.id else ""
  }

  function ClientIdOf(b: BookingModel.Booking): string
  {
    if b.client.Populated? then b.client.doc.id else ""
  }

  /** `typeof staff === 'string' ? staff : staff._id` */
  function StaffIdOf(s: BookingModel.StaffRef): (id: string)
    ensures id == s.id
  {
    match s
    case StaffId(id) => id
    case StaffDoc(id, _) => id
  }

  /** `day.staffNeeded || 1`: a zero count falls back to one. */
  function NeededOrOne(n: int): (r: int)
    ensures r != 0
    ensures n != 0 ==> r == n
    ensures n == 0 ==> r == 1
  {
    if n == 0 then 1 else n
  }

  function DayToForm(d: BookingModel.Day): (r: FormDay)
    ensures r.date == d.date
    ensures r.staffNeeded == NeededOrOne(d.staffNeeded)
    ensures |r.assignedStaff| == |d.assignedStaff|
    ensures forall k :: 0 <= k < |d.assignedStaff| ==> r.assignedStaff[k] == d.assignedStaff[k].id
  {
    FormDay(d.date, NeededOrOne(d.staffNeeded),
      seq(|d.assignedStaff|, k requires 0 <= k < |d.assignedStaff| => StaffIdOf(d.assignedStaff[k])))
  }

  /** The booking as the form's data: references become ids, and notes and status get their defaults. */
  function BookingToForm(b: BookingModel.Booking): (f: BookingFormData)
    ensures f.show == ShowIdOf(b) && f.client == ClientIdOf(b)
    ensures f.startDate == b.startDate && f.endDate == b.endDate
    ensures |f.dailyStaffing| == |b.dailyStaffing|
    ensures forall i :: 0 <= i < |b.dailyStaffing| ==> f.dailyStaffing[i] == DayToForm(b.dailyStaffing[i])
    ensures f.notes == b.notes.GetOr("")
    ensures b.status.Some? && b.status.value != "" ==> f.status == b.status.value
    ensures b.status.None? || b.status.value == "" ==> f.status == "Pending"
  {
    BookingFormData(
      ShowIdOf(b), ClientIdOf(b), b.startDate, b.endDate,
      seq(|b.dailyStaffing|, i requires 0 <= i < |b.dailyStaffing| => DayToForm(b.dailyStaffing[i])),
      b.notes.GetOr(""),
      if b.status.Some? && b.status.value != "" then b.status.value else "Pending")
  }

  /** The effect keyed on `isOpen` and `booking`. */
  function OnOpenChanged(form: BookingFormData, isOpen: bool, booking: Option<BookingModel.Booking>): (r: BookingFormData)
    ensures !isOpen ==> r == form
    ensures isOpen && booking.None? ==> r == EmptyForm
    ensures isOpen && booking.Some? ==> r == BookingToForm(booking.value)
  {
    if !isOpen then form
    else if booking.None? then EmptyForm
    else BookingToForm(booking.value)
  }

  /** Every day of the opened form needs a staff count other than zero, so no day starts at zero slots. */
  lemma OpenedFormHasNoZeroCounts(b: BookingModel.Booking)
    ensures forall d :: d in BookingToForm(b).dailyStaffing ==> d.staffNeeded != 0
  {
  }
  /**
   * Opening the modal on a booking whose show is in the list, from a form holding another show,
   * loses the booking's dates and its staffing: the form's show effect clears them, and when the
   * dates changed too the date effect then puts back only fresh one-person days.
   */
  lemma OpenedEditLosesSchedule(prev: BookingFormData, selected: Option<ShowModel.Show>, days: seq<FormDay>,
                                b: BookingModel.Booking, shows: seq<ShowModel.Show>)
    requires ShowIdOf(b) != "" && ShowIdOf(b) != prev.show
    requires exists i :: 0 <= i < |shows| && shows[i].id == ShowIdOf(b)
    ensures var filled := OnOpenChanged(prev, true, Some(b));
      var r := EffectsAfterChange(prev, FormState(filled, selected, days), shows);
      && r.formData.startDate.None? && r.formData.endDate.None?
      && r.formData.dailyStaffing ==
           (if b.startDate.Some? && b.endDate.Some? && (b.startDate != prev.startDate || b.endDate != prev.endDate)
            then DayRange(b.startDate.value, b.endDate.value) else [])
      && (b.startDate.Some? ==> r.formData != filled)
  {
    var filled := OnOpenChanged(prev, true, Some(b));
    assert filled.show == ShowIdOf(b) && filled.startDate == b.startDate && filled.endDate == b.endDate;
  }

  /**
   * Opening the modal on a booking of the form's own show, with other dates, runs only the date
   * effect: the dates are kept but the booking's staffing becomes fresh one-person days.
   */
  lemma OpenedEditSameShowResetsStaffing(prev: BookingFormData, selected: Option<ShowModel.Show>, days: seq<FormDay>,
                                         b: BookingModel.Booking, shows: seq<ShowModel.Show>)
    requires ShowIdOf(b) == prev.show
    requires b.startDate.Some? && b.endDate.Some? && (b.startDate != prev.startDate || b.endDate != prev.endDate)
    ensures var filled := OnOpenChanged(prev, true, Some(b));
      var r := EffectsAfterChange(prev, FormState(filled, selected, days), shows);
      && r.formData.startDate == b.startDate && r.formData.endDate == b.endDate
      && r.formData.dailyStaffing == DayRange(b.startDate.value, b.endDate.value)
      && r.dailyStaffing == DayRange(b.startDate.value, b.endDate.value)
  {
    var filled := OnOpenChanged(prev, true, Some(b));
    assert filled.show == ShowIdOf(b) && filled.startDate == b.startDate && filled.endDate == b.endDate;
  }

  /** With the effects answering only the user's edits, the opened form keeps the booking as it was loaded. */
  lemma OpenedEditKeepsSchedule(prev: BookingFormData, selected: Option<ShowModel.Show>, days: seq<FormDay>,
                                b: BookingModel.Booking, shows: seq<ShowModel.Show>)
    ensures EffectsAfterUserChange(prev, FormState(OnOpenChanged(prev, true, Some(b)), selected, days), shows, false).formData
         == BookingToForm(b)
  {
  }
}

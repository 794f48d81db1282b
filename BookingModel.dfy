/** The Booking schema (models/Booking.js) and the shape in which the API returns bookings. */
module BookingModel {
  import opened Wrappers
  import ShowModel
  import ClientModel

  const Statuses: seq<string> := ["Pending", "Confirmed", "Completed", "Cancelled"]

  const NotesMaxLength: nat := 1000

  /** A reference as a booking carries it: absent, a bare id, or the populated document. */
  datatype Ref<T> = Missing | ById(id: string) | Populated(doc: T)

  /** One assigned-staff entry: a bare id, or a populated staff document ("" when it has no name). */
  datatype StaffRef = StaffId(id: string) | StaffDoc(id: string, name: string)

  /** One daily staffing entry (StaffAssignmentSchema). */
  datatype Day = Day(date: Option<int>, staffNeeded: int, assignedStaff: seq<StaffRef>)

  datatype Booking = Booking(
    id: string,
    show: Ref<ShowModel.Show>,
    client: Ref<ClientModel.Client>,
    startDate: Option<int>,
    endDate: Option<int>,
    dailyStaffing: seq<Day>,
    notes: Option<string>,
    status: Option<string>)

  datatype BookingField =
    | ShowRequired | ClientRequired | StartDateRequired | EndDateRequired
    | NotesTooLong | StatusNotAllowed | InvalidDay(index: nat)

  /** A daily entry needs a date and at least one staff member; nothing constrains its assignees. */
  predicate DayValid(d: Day)
  {
    d.date.Some? && d.staffNeeded >= 1
  }

  /** One `InvalidDay(i)` for each invalid entry, numbering the entries from `from`. */
  function DayErrors(days: seq<Day>, from: nat): (errs: seq<BookingField>)
    ensures forall e :: e in errs ==> e.InvalidDay?
    ensures forall i: nat :: InvalidDay(i) in errs <==> from <= i < from + |days| && !DayValid(days[i - from])
  {
    if days == [] then []
    else (if DayValid(days[0]) then [] else [InvalidDay(from)]) + DayErrors(days[1..], from + 1)
  }

  /** The record-level rules: required references and dates, the notes cap, the status enum. */
  function FieldErrors(b: Booking): (errs: seq<BookingField>)
    ensures ShowRequired in errs <==> b.show.Missing?
    ensures ClientRequired in errs <==> b.client.Missing?
    ensures StartDateRequired in errs <==> b.startDate.None?
    ensures EndDateRequired in errs <==> b.endDate.None?
    ensures NotesTooLong in errs <==> b.notes.Some? && |b.notes.value| > NotesMaxLength
    ensures StatusNotAllowed in errs <==> b.status.Some? && b.status.value !in Statuses
    ensures forall e :: e in errs ==> !e.InvalidDay?
  {
    ReferenceErrors(b) + ContentErrors(b)
  }

  /** The required show, client and start date. */
  function ReferenceErrors(b: Booking): (errs: seq<BookingField>)
    ensures ShowRequired in errs <==> b.show.Missing?
    ensures ClientRequired in errs <==> b.client.Missing?
    ensures StartDateRequired in errs <==> b.startDate.None?
    ensures EndDateRequired !in errs && NotesTooLong !in errs && StatusNotAllowed !in errs
    ensures forall e :: e in errs ==> !e.InvalidDay?
  {
    Flag(b.show.Missing?, ShowRequired)
      + Flag(b.client.Missing?, ClientRequired)
      + Flag(b.startDate.None?, StartDateRequired)
  }

  /** The required end date, the notes cap and the status enum. */
  function ContentErrors(b: Booking): (errs: seq<BookingField>)
    ensures EndDateRequired in errs <==> b.endDate.None?
    ensures NotesTooLong in errs <==> b.notes.Some? && |b.notes.value| > NotesMaxLength
    ensures StatusNotAllowed in errs <==> b.status.Some? && b.status.value !in Statuses
    ensures ShowRequired !in errs && ClientRequired !in errs && StartDateRequired !in errs
    ensures forall e :: e in errs ==> !e.InvalidDay?
  {
    Flag(b.endDate.None?, EndDateRequired)
      + Flag(b.notes.Some? && |b.notes.value| > NotesMaxLength, NotesTooLong)
      + Flag(b.status.Some? && b.status.value !in Statuses, StatusNotAllowed)
  }

  /** The error `e` when its rule `broken` is broken, and nothing otherwise. */
  function Flag(broken: bool, e: BookingField): (errs: seq<BookingField>)
    ensures e in errs <==> broken
    ensures forall x :: x != e ==> x !in errs
  {
    if broken then [e] else []
  }

  /** The fields a save would report in its ValidationError. */
  function BookingErrors(b: Booking): (errs: seq<BookingField>)
    ensures ShowRequired in errs <==> b.show.Missing?
    ensures ClientRequired in errs <==> b.client.Missing?
    ensures StartDateRequired in errs <==> b.startDate.None?
    ensures EndDateRequired in errs <==> b.endDate.None?
    ensures NotesTooLong in errs <==> b.notes.Some? && |b.notes.value| > NotesMaxLength
    ensures StatusNotAllowed in errs <==> b.status.Some? && b.status.value !in Statuses
    ensures forall i: nat :: InvalidDay(i) in errs <==> i < |b.dailyStaffing| && !DayValid(b.dailyStaffing[i])
  {
    FieldErrors(b) + DayErrors(b.dailyStaffing, 0)
  }

  /** The schema default: a booking saved without a status is Pending. */
  function WithDefaults(b: Booking): (r: Booking)
    ensures r.status == Some(b.status.GetOr("Pending"))
    ensures StatusNotAllowed !in BookingErrors(r) <==> StatusNotAllowed !in BookingErrors(b)
    ensures r.(status := b.status) == b
  {
    b.(status := Some(b.status.GetOr("Pending")))
  }

  /** More assignees than needed passes validation: no rule ties the two. */
  lemma OverstaffedDayAccepted(d: Day)
    requires d.date.Some? && d.staffNeeded == 1
    ensures DayValid(d.(assignedStaff := [StaffId("a"), StaffId("b")]))
  {
  }

  /** `booking.show?.location`, `?.type`, `?.season`: present only on a populated show. */
  function ShowLocation(b: Booking): (r: Option<string>)
    ensures r.Some? <==> b.show.Populated?
    ensures r.Some? ==> r.value == b.show.doc.location
  {
    if b.show.Populated? then Some(b.show.doc.location) else None
  }

  function ShowType(b: Booking): (r: Option<string>)
    ensures r.Some? <==> b.show.Populated?
    ensures r.Some? ==> r.value == b.show.doc.showType
  {
    if b.show.Populated? then Some(b.show.doc.showType) else None
  }

  function ShowSeason(b: Booking): (r: Option<string>)
    ensures r.Some? <==> b.show.Populated?
    ensures r.Some? ==> r.value == b.show.doc.season
  {
    if b.show.Populated? then Some(b.show.doc.season) else None
  }

  /** `booking.client?.companyName || ''` */
  function ClientName(b: Booking): (r: string)
    ensures b.client.Populated? ==> r == b.client.doc.companyName
    ensures !b.client.Populated? ==> r == ""
  {
    if b.client.Populated? then b.client.doc.companyName else ""
  }

  /** `staff?.name || ''`: a bare id carries no name. */
  function StaffName(s: StaffRef): (r: string)
    ensures s.StaffDoc? ==> r == s.name
    ensures s.StaffId? ==> r == ""
  {
    if s.StaffDoc? then s.name else ""
  }
}

/**
 * The bookings page (pages/bookings/index.js): the booking list it holds as state, the
 * normalisation of loaded bookings, its four show and status filters, and the list updates
 * made by create, status change, delete and edit. Each request's outcome is a parameter:
 * `None` stands for a failed request.
 */
module BookingsPage {
  import opened Wrappers
  import Lists
  import ShowModel
  import ClientModel
  import opened BookingModel
  import BookingForm
  import BookingModal
  import BookingCard

  datatype PageState = PageState(
    bookings: seq<Booking>,
    formData: BookingForm.BookingFormData,
    error: string,
    success: string,
    showForm: bool)

  datatype PageFilters = PageFilters(showType: string, season: string, location: string, status: string)

  function Id(b: Booking): string
  {
    b.id
  }

  /** The page's filter: all four conditions, each switched off by 'all'; status is compared as stored. */
  predicate PagePasses(b: Booking, f: PageFilters)
  {
    && (f.showType == "all" || ShowType(b) == Some(f.showType))
    && (f.season == "all" || ShowSeason(b) == Some(f.season))
    && (f.location == "all" || ShowLocation(b) == Some(f.location))
    && (f.status == "all" || b.status == Some(f.status))
  }

  /** filteredBookings */
  function FilteredBookings(bookings: seq<Booking>, f: PageFilters): (r: seq<Booking>)
    ensures Lists.Subsequence(r, bookings)
    ensures forall b :: b in r ==> b in bookings && PagePasses(b, f)
    ensures forall b :: b in bookings && PagePasses(b, f) ==> b in r
    ensures f == PageFilters("all", "all", "all", "all") ==> r == bookings
  {
    Lists.Filter(bookings, b => PagePasses(b, f))
  }

  /** getBookingsByStatus: the filtered bookings with exactly that status, in order. */
  function BookingsByStatus(bookings: seq<Booking>, f: PageFilters, status: string): (r: seq<Booking>)
    ensures Lists.Subsequence(r, FilteredBookings(bookings, f))
    ensures forall b :: b in r <==> b in bookings && PagePasses(b, f) && b.status == Some(status)
  {
    Lists.Filter(FilteredBookings(bookings, f), (b: Booking) => b.status == Some(status))
  }

  /** A status column shows nothing the status filter would hide: picking one status leaves the other columns empty. */
  lemma OtherColumnsEmpty(bookings: seq<Booking>, f: PageFilters, status: string)
    requires f.status != "all" && status != f.status
    ensures BookingsByStatus(bookings, f, status) == []
  {
  }

  /** The show a reference normalises to: a bare id becomes a document holding only that id. */
  function NormaliseShow(r: Ref<ShowModel.Show>): (n: Ref<ShowModel.Show>)
    ensures n.Populated?
    ensures r.Populated? ==> n == r
    ensures r.ById? ==> n.doc.id == r.id
    ensures r.Missing? ==> n.doc.id == ""
  {
    match r
    case Populated(doc) => r
    case ById(id) => Populated(ShowModel.Show(id, "", None, None, "", ""))
    case Missing => Populated(ShowModel.Show("", "", None, None, "", ""))
  }

  function NormaliseClient(r: Ref<ClientModel.Client>): (n: Ref<ClientModel.Client>)
    ensures n.Populated?
    ensures r.Populated? ==> n == r
    ensures r.ById? ==> n.doc.id == r.id
    ensures r.Missing? ==> n.doc.id == ""
  {
    match r
    case Populated(doc) => r
    case ById(id) => Populated(ClientModel.Client(id, "", None, None, "", [], None))
    case Missing => Populated(ClientModel.Client("", "", None, None, "", [], None))
  }

  /** An assigned entry as the page holds it: always a document, named 'Unnamed Staff' when it has no name. */
  function NormaliseStaff(s: StaffRef): (n: StaffRef)
    ensures n.StaffDoc? && n.id == s.id
    ensures n.name == BookingCard.DisplayName(s)
  {
    StaffDoc(s.id, BookingCard.DisplayName(s))
  }

  function NormaliseDay(d: Day): (n: Day)
    ensures n.date == d.date && n.staffNeeded == d.staffNeeded
    ensures |n.assignedStaff| == |d.assignedStaff|
    ensures forall k :: 0 <= k < |d.assignedStaff| ==> n.assignedStaff[k] == NormaliseStaff(d.assignedStaff[k])
  {
    d.(assignedStaff := seq(|d.assignedStaff|, k requires 0 <= k < |d.assignedStaff| => NormaliseStaff(d.assignedStaff[k])))
  }

  /** The fetched booking as the page stores it; everything except the references is kept. */
  function NormaliseBooking(b: Booking): (n: Booking)
    ensures n.id == b.id && n.startDate == b.startDate && n.endDate == b.endDate
    ensures n.notes == b.notes && n.status == b.status
    ensures n.show == NormaliseShow(b.show) && n.client == NormaliseClient(b.client)
    ensures |n.dailyStaffing| == |b.dailyStaffing|
    ensures forall i :: 0 <= i < |b.dailyStaffing| ==> n.dailyStaffing[i] == NormaliseDay(b.dailyStaffing[i])
  {
    b.(show := NormaliseShow(b.show), client := NormaliseClient(b.client),
       dailyStaffing := seq(|b.dailyStaffing|, i requires 0 <= i < |b.dailyStaffing| => NormaliseDay(b.dailyStaffing[i])))
  }

  /** After normalisation every assigned entry has a non-empty name, and a named entry keeps its name. */
  lemma NormalisedNamesPresent(b: Booking, i: nat, k: nat)
    requires i < |b.dailyStaffing| && k < |b.dailyStaffing[i].assignedStaff|
    ensures var s := NormaliseBooking(b).dailyStaffing[i].assignedStaff[k];
      && s.StaffDoc? && s.name != ""
      && s.id == b.dailyStaffing[i].assignedStaff[k].id
      && (StaffName(b.dailyStaffing[i].assignedStaff[k]) != "" ==> s.name == StaffName(b.dailyStaffing[i].assignedStaff[k]))
  {
  }

  /** Normalising twice changes nothing more. */
  lemma NormaliseIdempotent(b: Booking)
    ensures NormaliseBooking(NormaliseBooking(b)) == NormaliseBooking(b)
  {
    var n := NormaliseBooking(b);
    forall i | 0 <= i < |n.dailyStaffing| ensures NormaliseDay(n.dailyStaffing[i]) == n.dailyStaffing[i] {
      var d := n.dailyStaffing[i];
      assert NormaliseDay(d).assignedStaff == d.assignedStaff;
    }
    assert NormaliseBooking(n).dailyStaffing == n.dailyStaffing;
  }

  /** The schema's view of a stored form: ids for the references and the entries. */
  function StoredBooking(id: string, f: BookingForm.BookingFormData): (b: Booking)
    ensures b.id == id && b.show == ById(f.show) && b.client == ById(f.client)
    ensures b.startDate == f.startDate && b.endDate == f.endDate
    ensures b.notes == Some(f.notes) && b.status == Some(f.status)
    ensures |b.dailyStaffing| == |f.dailyStaffing|
    ensures forall i :: 0 <= i < |f.dailyStaffing| ==>
      && b.dailyStaffing[i].date == f.dailyStaffing[i].date
      && b.dailyStaffing[i].staffNeeded == f.dailyStaffing[i].staffNeeded
      && |b.dailyStaffing[i].assignedStaff| == |f.dailyStaffing[i].assignedStaff|
      && forall k :: 0 <= k < |f.dailyStaffing[i].assignedStaff| ==>
           b.dailyStaffing[i].assignedStaff[k] == StaffId(f.dailyStaffing[i].assignedStaff[k])
  {
    Booking(id, ById(f.show), ById(f.client), f.startDate, f.endDate,
      seq(|f.dailyStaffing|, i requires 0 <= i < |f.dailyStaffing| =>
        var d := f.dailyStaffing[i];
        Day(d.date, d.staffNeeded, seq(|d.assignedStaff|, k requires 0 <= k < |d.assignedStaff| => StaffId(d.assignedStaff[k])))),
      Some(f.notes), Some(f.status))
  }

  /**
   * A saved form, loaded back by the page and opened in the edit modal, is the same form:
   * provided it has a status and no day with a zero count, which the modal would replace.
   */
  lemma ReopenRestoresForm(id: string, f: BookingForm.BookingFormData)
    requires f.status != ""
    requires forall d :: d in f.dailyStaffing ==> d.staffNeeded != 0
    ensures BookingModal.BookingToForm(NormaliseBooking(StoredBooking(id, f))) == f
  {
    var b := NormaliseBooking(StoredBooking(id, f));
    var g := BookingModal.BookingToForm(b);
    forall i | 0 <= i < |f.dailyStaffing| ensures g.dailyStaffing[i] == f.dailyStaffing[i] {
      assert f.dailyStaffing[i] in f.dailyStaffing;
      assert g.dailyStaffing[i].assignedStaff == f.dailyStaffing[i].assignedStaff;
    }
    assert g.dailyStaffing == f.dailyStaffing;
  }

  /**
   * What the POST of the form ends in: the created booking, a reply that is not ok (the
   * handler then throws its own "Failed to create booking"), or an error thrown by the
   * request itself or by reading the reply, with that error's message.
   */
  datatype CreateReply = Created(booking: Booking) | NotOk | Threw(message: string)

  /**
   * handleSubmit: on success the created booking goes first, the success message is set and the
   * form is reset; on failure only the error is set, to the message of the error caught.
   */
  function HandleSubmit(st: PageState, reply: CreateReply): (r: PageState)
    ensures reply.Created? ==>
      && r.bookings == [reply.booking] + st.bookings && r.formData == BookingForm.EmptyForm && !r.showForm
      && r.error == "" && r.success == "Booking created successfully!"
    ensures reply.NotOk? ==> r == st.(error := "Failed to create booking")
    ensures reply.Threw? ==> r == st.(error := reply.message)
  {
    match reply
    case Created(b) =>
      st.(bookings := [b] + st.bookings, error := "", success := "Booking created successfully!",
          formData := BookingForm.EmptyForm, showForm := false)
    case NotOk => st.(error := "Failed to create booking")
    case Threw(message) => st.(error := message)
  }

  /**
   * handleStatusUpdate: a booking not in the list sends no request and changes nothing; otherwise
   * the server's reply replaces every booking with that id.
   */
  function HandleStatusUpdate(st: PageState, bookingId: string, reply: Option<Booking>): (r: PageState)
    ensures (forall i :: 0 <= i < |st.bookings| ==> st.bookings[i].id != bookingId) ==> r == st
    ensures reply.None? ==> r == st
    ensures r.(bookings := st.bookings) == st
    ensures |r.bookings| == |st.bookings|
    ensures forall i :: 0 <= i < |st.bookings| && st.bookings[i].id != bookingId ==> r.bookings[i] == st.bookings[i]
    ensures reply.Some? ==> forall i :: 0 <= i < |st.bookings| && st.bookings[i].id == bookingId ==> r.bookings[i] == reply.value
  {
    match Lists.FindKey(st.bookings, Id, bookingId)
    case None => st
    case Some(_) =>
      match reply
      case None => st
      case Some(data) => st.(bookings := Lists.ReplaceKey(st.bookings, Id, bookingId, data))
  }

  /** The body of the status request: the held booking with only its status changed. */
  function StatusRequest(st: PageState, bookingId: string, newStatus: string): (r: Option<Booking>)
    ensures r.Some? <==> exists i :: 0 <= i < |st.bookings| && st.bookings[i].id == bookingId
    ensures r.Some? ==> r.value.status == Some(newStatus) && r.value.id == bookingId
    ensures r.Some? ==> exists i :: 0 <= i < |st.bookings| && r.value == st.bookings[i].(status := Some(newStatus))
  {
    match Lists.FindKey(st.bookings, Id, bookingId)
    case None => None
    case Some(b) => Some(b.(status := Some(newStatus)))
  }

  /** handleDelete: after confirmation and a successful request, exactly the bookings with that id are gone. */
  function HandleDelete(st: PageState, bookingId: string, confirmed: bool, ok: bool): (r: PageState)
    ensures !(confirmed && ok) ==> r == st
    ensures r.(bookings := st.bookings) == st
    ensures Lists.Subsequence(r.bookings, st.bookings)
    ensures confirmed && ok ==> forall b :: b in r.bookings <==> b in st.bookings && b.id != bookingId
  {
    if confirmed && ok then st.(bookings := Lists.RemoveKey(st.bookings, Id, bookingId))
    else
      Lists.SubsequenceOfSelf(st.bookings);
      st
  }

  /**
   * handleSaveEdit: the server's reply replaces the bookings with the reply's id; a failed
   * request leaves the list alone and the error goes back to the caller.
   */
  function HandleSaveEdit(st: PageState, reply: Option<Booking>): (r: Result<PageState, string>)
    ensures reply.None? ==> r == Err("Failed to update booking")
    ensures reply.Some? ==> r.Ok? && r.value.(bookings := st.bookings) == st
    ensures reply.Some? ==> |r.value.bookings| == |st.bookings|
    ensures reply.Some? ==> forall i :: 0 <= i < |st.bookings| ==>
      r.value.bookings[i] == if st.bookings[i].id == reply.value.id then reply.value else st.bookings[i]
  {
    match reply
    case None => Err("Failed to update booking")
    case Some(updated) => Ok(st.(bookings := Lists.ReplaceKey(st.bookings, Id, updated.id, updated)))
  }

  /** `${editedData._id}`: the id part of the PUT's path; a missing id is printed as "undefined". */
  function PutTarget(id: Option<string>): (t: string)
    ensures id.Some? ==> t == id.value
    ensures id.None? ==> t == "undefined"
  {
    id.GetOr("undefined")
  }

  predicate IsHexDigit(c: char)
  {
    '0' <= c <= '9' || 'a' <= c <= 'f' || 'A' <= c <= 'F'
  }

  /** The string form of a MongoDB ObjectId: 24 hexadecimal digits. */
  predicate IsObjectId(s: string)
  {
    |s| == 24 && forall i :: 0 <= i < |s| ==> IsHexDigit(s[i])
  }

  /**
   * The status PUT /api/bookings/[id] answers with: an id that is not an ObjectId, or a body
   * that does not cast to the schema, makes `findByIdAndUpdate` throw, which is a 500; an id
   * no booking has is a 404; otherwise the update is a 200.
   */
  function PutStatus(storedIds: seq<string>, target: string, bodyCasts: bool): (status: int)
    ensures status == 200 <==> IsObjectId(target) && bodyCasts && target in storedIds
    ensures !IsObjectId(target) ==> status == 500
    ensures status in {200, 404, 500}
  {
    if !IsObjectId(target) || !bodyCasts then 500
    else if target !in storedIds then 404
    else 200
  }

  /** A save through the edit handler to `target`: only a 200 brings the updated booking back. */
  function SaveTo(st: PageState, target: string, storedIds: seq<string>, bodyCasts: bool, updated: Booking): (r: Result<PageState, string>)
    ensures PutStatus(storedIds, target, bodyCasts) != 200 ==> r == Err("Failed to update booking")
    ensures PutStatus(storedIds, target, bodyCasts) == 200 ==> r == HandleSaveEdit(st, Some(updated))
  {
    HandleSaveEdit(st, if PutStatus(storedIds, target, bodyCasts) == 200 then Some(updated) else None)
  }

  /**
   * The edit modal's save as written: `onSave(formData)` with the modal's form data, which has
   * no `_id` field, so the PUT is addressed by that missing id.
   */
  function SaveFromModal(st: PageState, f: BookingForm.BookingFormData, storedIds: seq<string>, bodyCasts: bool, updated: Booking): (r: Result<PageState, string>)
    ensures r == SaveTo(st, PutTarget(None), storedIds, bodyCasts, updated)
  {
    SaveTo(st, PutTarget(None), storedIds, bodyCasts, updated)
  }

  /** No edit saved from the modal succeeds: the PUT goes to /api/bookings/undefined and is a 500. */
  lemma ModalSaveAlwaysFails(st: PageState, f: BookingForm.BookingFormData, storedIds: seq<string>, bodyCasts: bool, updated: Booking)
    ensures PutStatus(storedIds, PutTarget(None), bodyCasts) == 500
    ensures SaveFromModal(st, f, storedIds, bodyCasts, updated) == Err("Failed to update booking")
  {
  }

  /** The save as evidently intended: addressed by the id of the booking being edited. */
  function SaveEditingBooking(st: PageState, editing: Booking, f: BookingForm.BookingFormData, storedIds: seq<string>, bodyCasts: bool, updated: Booking): (r: Result<PageState, string>)
    ensures r == SaveTo(st, PutTarget(Some(editing.id)), storedIds, bodyCasts, updated)
  {
    SaveTo(st, PutTarget(Some(editing.id)), storedIds, bodyCasts, updated)
  }

  /** Saving under the edited booking's own stored id replaces that booking in the list by the server's copy. */
  lemma EditingBookingSaved(st: PageState, editing: Booking, f: BookingForm.BookingFormData, storedIds: seq<string>, updated: Booking)
    requires IsObjectId(editing.id) && editing.id in storedIds && updated.id == editing.id
    ensures var r := SaveEditingBooking(st, editing, f, storedIds, true, updated);
      && r.Ok? && |r.value.bookings| == |st.bookings|
      && forall i :: 0 <= i < |st.bookings| ==>
           r.value.bookings[i] == if st.bookings[i].id == editing.id then updated else st.bookings[i]
  {
  }

  /** Deleting a booking right after saving an edit of it is the same as deleting it straight away. */
  lemma DeleteAfterSave(st: PageState, updated: Booking)
    ensures HandleDelete(HandleSaveEdit(st, Some(updated)).value, updated.id, true, true)
         == HandleDelete(st, updated.id, true, true)
  {
    Lists.RemoveAfterReplace(st.bookings, Id, updated);
  }

  /** Creating a booking makes it the first entry of every view without filters. */
  lemma CreatedBookingShownFirst(st: PageState, b: Booking)
    ensures FilteredBookings(HandleSubmit(st, Created(b)).bookings, PageFilters("all", "all", "all", "all"))[0] == b
  {
  }
}

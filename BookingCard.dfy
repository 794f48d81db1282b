/**
 * The booking card (components/Bookings/BookingCard.js): coverage totals, the
 * unfilled-positions notice, the staff name shown for each entry, and the status styles.
 */
module BookingCard {
  import opened Wrappers
  import Lists
  import opened BookingModel

  function Needed(d: Day): int
  {
    d.staffNeeded
  }

  function Assigned(d: Day): int
  {
    |d.assignedStaff|
  }

  /** totalStaffNeeded */
  function TotalNeeded(days: seq<Day>): int
  {
    Lists.Sum(days, Needed)
  }

  /** totalStaffAssigned */
  function TotalAssigned(days: seq<Day>): int
  {
    Lists.Sum(days, Assigned)
  }

  /** Both totals add up over a split of the days, and nobody is counted twice. */
  lemma TotalsAdditive(a: seq<Day>, b: seq<Day>)
    ensures TotalNeeded(a + b) == TotalNeeded(a) + TotalNeeded(b)
    ensures TotalAssigned(a + b) == TotalAssigned(a) + TotalAssigned(b)
  {
    Lists.SumConcat(a, b, Needed);
    Lists.SumConcat(a, b, Assigned);
  }

  /** The assigned total is the number of entries across all days, so it is never negative. */
  lemma {:induction false} TotalAssignedNonNegative(days: seq<Day>)
    ensures TotalAssigned(days) >= 0
  {
    if days != [] {
      TotalAssignedNonNegative(days[1..]);
    }
  }

  /** When every day meets its need, the card's assigned total is at least the needed total. */
  lemma {:induction false} FullyStaffedTotals(days: seq<Day>)
    requires forall d :: d in days ==> |d.assignedStaff| >= d.staffNeeded
    ensures TotalAssigned(days) >= TotalNeeded(days)
  {
    if days != [] {
      assert days[0] in days;
      FullyStaffedTotals(days[1..]);
    }
  }

  /** The "positions unfilled" notice: shown exactly when fewer are assigned than needed, with the positive shortfall. */
  function UnfilledPositions(d: Day): (r: Option<int>)
    ensures r.Some? <==> |d.assignedStaff| < d.staffNeeded
    ensures r.Some? ==> r.value > 0 && r.value + |d.assignedStaff| == d.staffNeeded
  {
    if |d.assignedStaff| < d.staffNeeded then Some(d.staffNeeded - |d.assignedStaff|) else None
  }

  const UnnamedStaff: string := "Unnamed Staff"

  /** `staff?.name || 'Unnamed Staff'` */
  function DisplayName(s: StaffRef): (r: string)
    ensures r != ""
    ensures StaffName(s) != "" ==> r == StaffName(s)
    ensures StaffName(s) == "" ==> r == UnnamedStaff
  {
    if StaffName(s) != "" then StaffName(s) else UnnamedStaff
  }

  /** The switch on `booking.status`: the position of one of the four statuses, or 4 for the default case. */
  function StatusCase(status: Option<string>): (n: nat)
    ensures n <= 4
    ensures n < 4 <==> status.Some? && status.value in Statuses
    ensures n < 4 ==> Statuses[n] == status.value
  {
    match status
    case Some("Pending") => 0
    case Some("Confirmed") => 1
    case Some("Completed") => 2
    case Some("Cancelled") => 3
    case _ => 4
  }

  /** getStatusColor's classes, by case: Pending, Confirmed, Completed, Cancelled, default. */
  const Colors: seq<string> := ["text-yellow-400", "text-emerald-400", "text-purple-400", "text-red-400", "text-gray-400"]

  const Backgrounds: seq<string> := [
    "bg-yellow-500/10 border-yellow-300/20", "bg-emerald-500/10 border-emerald-300/20",
    "bg-purple-500/10 border-purple-300/20", "bg-red-500/10 border-red-300/20",
    "bg-gray-500/10 border-gray-300/20"]

  datatype Icon = CheckCircle | Clock | XCircle | AlertCircle
  datatype IconStyle = IconStyle(icon: Icon, color: string)

  const Icons: seq<IconStyle> := [
    IconStyle(Clock, "text-yellow-400"), IconStyle(CheckCircle, "text-emerald-400"),
    IconStyle(CheckCircle, "text-purple-400"), IconStyle(XCircle, "text-red-400"),
    IconStyle(AlertCircle, "text-gray-400")]

  function StatusColor(status: Option<string>): (r: string)
    ensures r in Colors
    ensures r == Colors[4] <==> !(status.Some? && status.value in Statuses)
  {
    Colors[StatusCase(status)]
  }

  function StatusBackground(status: Option<string>): (r: string)
    ensures r in Backgrounds
    ensures r == Backgrounds[4] <==> !(status.Some? && status.value in Statuses)
  {
    Backgrounds[StatusCase(status)]
  }

  function StatusIcon(status: Option<string>): (r: IconStyle)
    ensures r in Icons
    ensures r.color == StatusColor(status)
    ensures r == Icons[4] <==> !(status.Some? && status.value in Statuses)
  {
    Icons[StatusCase(status)]
  }

  /** Each of the four statuses gets a style of its own: different statuses never share a colour or background. */
  lemma StylesTellStatusesApart(s: Option<string>, t: Option<string>)
    requires s != t
    requires s.Some? && s.value in Statuses
    ensures StatusColor(s) != StatusColor(t)
    ensures StatusBackground(s) != StatusBackground(t)
  {
    var i := StatusCase(s);
    var j := StatusCase(t);
    if j < 4 {
      assert Statuses[i] != Statuses[j];
    }
  }
}

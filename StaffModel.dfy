/** The Staff schema (models/Staff.js): its field rules, its defaults and its location validator. */
module StaffModel {
  import opened Wrappers

  /** The four agency locations accepted by the location validator. */
  const LocationCodes: seq<string> := ["ATL", "NYC", "LA", "DAL"]

  const StatusValues: seq<string> := ["active", "inactive", "on_leave"]

  const NameMaxLength: nat := 60

  /**
   * A staff record. Required strings use "" for "absent" (Mongoose's `required` rejects
   * both); the two fields with schema defaults are optional so that the default can apply.
   * `role` and `department` are not schema fields; the staff search reads them anyway.
   */
  datatype Staff = Staff(
    id: string,
    name: string,
    email: string,
    phone: string,
    location: seq<string>,
    birthday: Option<int>,
    college: string,
    shoeSize: string,
    dressSize: string,
    photoUrl: string,
    resumeUrl: string,
    status: Option<string>,
    daysWorked: Option<int>,
    notes: string,
    role: Option<string>,
    department: Option<string>)

  /** The location validator: at least one entry, and every entry one of the four codes. */
  predicate ValidLocations(locs: seq<string>)
  {
    |locs| > 0 && forall i :: 0 <= i < |locs| ==> locs[i] in LocationCodes
  }

  /** The fields a ValidationError can name. */
  datatype StaffField = Name | Email | Location | Birthday | DaysWorked | Status

  /** `[]` when the rule holds, else the field. */
  function Check(ok: bool, field: StaffField): (errs: seq<StaffField>)
    ensures field in errs <==> !ok
    ensures forall f :: f != field ==> f !in errs
  {
    if ok then [] else [field]
  }

  /** The fields a save would report in its ValidationError, in schema order. */
  function StaffErrors(s: Staff): (errs: seq<StaffField>)
    ensures Name in errs <==> s.name == "" || |s.name| > NameMaxLength
    ensures Email in errs <==> s.email == ""
    ensures Location in errs <==> !ValidLocations(s.location)
    ensures Birthday in errs <==> s.birthday.None?
    ensures DaysWorked in errs <==> s.daysWorked.Some? && s.daysWorked.value < 0
    ensures Status in errs <==> s.status.Some? && s.status.value !in StatusValues
  {
    IdentityErrors(s) + RecordErrors(s)
  }

  /** The name, email and location rules. */
  function IdentityErrors(s: Staff): (errs: seq<StaffField>)
    ensures Name in errs <==> s.name == "" || |s.name| > NameMaxLength
    ensures Email in errs <==> s.email == ""
    ensures Location in errs <==> !ValidLocations(s.location)
    ensures Birthday !in errs && DaysWorked !in errs && Status !in errs
  {
    Check(s.name != "" && |s.name| <= NameMaxLength, Name)
    + Check(s.email != "", Email)
    + Check(ValidLocations(s.location), Location)
  }

  /** The birthday, days-worked and status rules. */
  function RecordErrors(s: Staff): (errs: seq<StaffField>)
    ensures Birthday in errs <==> s.birthday.None?
    ensures DaysWorked in errs <==> s.daysWorked.Some? && s.daysWorked.value < 0
    ensures Status in errs <==> s.status.Some? && s.status.value !in StatusValues
    ensures Name !in errs && Email !in errs && Location !in errs
  {
    Check(s.birthday.Some?, Birthday)
    + Check(s.daysWorked.None? || s.daysWorked.value >= 0, DaysWorked)
    + Check(s.status.None? || s.status.value in StatusValues, Status)
  }

  /** The unique index on email: no other stored record has the same address. */
  predicate EmailAvailable(s: Staff, store: seq<Staff>)
  {
    forall i :: 0 <= i < |store| && store[i].id != s.id ==> store[i].email != s.email
  }

  /** The schema defaults, applied to the fields a payload leaves out. */
  function WithDefaults(s: Staff): (r: Staff)
    ensures r.status == Some(s.status.GetOr("active"))
    ensures r.daysWorked == Some(s.daysWorked.GetOr(0))
    ensures r.(status := s.status, daysWorked := s.daysWorked) == s
  {
    s.(status := Some(s.status.GetOr("active")), daysWorked := Some(s.daysWorked.GetOr(0)))
  }

  /** A record that leaves status and days worked out passes both rules once the defaults apply. */
  lemma DefaultsAreValid(s: Staff)
    requires s.status.None? && s.daysWorked.None?
    ensures Status !in StaffErrors(WithDefaults(s)) && DaysWorked !in StaffErrors(WithDefaults(s))
    ensures StaffErrors(WithDefaults(s)) == StaffErrors(s)
  {
  }
}

/**
 * The staff form (components/Staff/StaffForm.js): its initial data, the location toggle,
 * the size option lists, the days-worked input, the empty-location warning and the rule
 * for deleting a replaced photo.
 */
module StaffForm {
  import opened Wrappers
  import Lists
  import Text
  import StaffModel

  datatype StaffFormData = StaffFormData(
    name: string, email: string, phone: string, location: seq<string>,
    birthday: Option<int>, college: string, shoeSize: string, dressSize: string,
    photoUrl: string, resumeUrl: string, status: string, daysWorked: int, notes: string)

  const InitialForm: StaffFormData :=
    StaffFormData("", "", "", [], None, "", "", "", "", "", "active", 0, "")

  /** The location buttons offer the four agency codes. */
  const LocationButtons: seq<string> := ["ATL", "NYC", "LA", "DAL"]

  /** handleLocationChange: a selected location is removed (every copy of it), any other is appended. */
  function ToggleLocation(locs: seq<string>, loc: string): (r: seq<string>)
    ensures loc in locs ==> loc !in r && Lists.Subsequence(r, locs)
    ensures loc in locs ==> forall x :: x != loc ==> (x in r <==> x in locs)
    ensures loc in locs ==> forall x :: x in locs && x != loc ==> multiset(r)[x] == multiset(locs)[x]
    ensures loc !in locs ==> r == locs + [loc]
  {
    if loc in locs then
      Lists.FilterMultiplicities(locs, (l: string) => l != loc);
      Lists.Filter(locs, (l: string) => l != loc)
    else locs + [loc]
  }

  /** Toggling twice restores whether the location is selected, and leaves the other locations as they were. */
  lemma ToggleTwice(locs: seq<string>, loc: string)
    ensures loc in ToggleLocation(ToggleLocation(locs, loc), loc) <==> loc in locs
    ensures forall x :: x != loc ==> (x in ToggleLocation(ToggleLocation(locs, loc), loc) <==> x in locs)
    ensures loc !in locs ==> ToggleLocation(ToggleLocation(locs, loc), loc) == locs
  {
    if loc !in locs {
      var once := locs + [loc];
      assert loc in once;
      var twice := ToggleLocation(once, loc);
      assert Lists.Filter(once, (l: string) => l != loc) == Lists.Filter(locs, (l: string) => l != loc) + [] by {
        Lists.FilterConcat(locs, [loc], (l: string) => l != loc);
        assert [loc][1..] == [];
      }
    }
  }

  /** Toggling buttons keeps the list within the codes the location validator accepts. */
  lemma ToggleKeepsCodes(locs: seq<string>, loc: string)
    requires forall x :: x in locs ==> x in StaffModel.LocationCodes
    requires loc in LocationButtons
    ensures forall x :: x in ToggleLocation(locs, loc) ==> x in StaffModel.LocationCodes
  {
  }

  /** The "select at least one location" warning. */
  predicate LocationWarning(f: StaffFormData)
  {
    |f.location| == 0
  }

  /** For a list built with the buttons, the warning is shown exactly when the schema's location validator would fail. */
  lemma WarningMatchesValidator(f: StaffFormData)
    requires forall x :: x in f.location ==> x in StaffModel.LocationCodes
    ensures LocationWarning(f) <==> !StaffModel.ValidLocations(f.location)
  {
  }

  /** `Array.from({ length: 17 }, (_, i) => (i + offset).toString())` */
  function SizeOptions(offset: nat): (r: seq<string>)
    ensures |r| == 17
    ensures forall i :: 0 <= i < 17 ==> r[i] == Text.NatToString(i + offset)
  {
    seq(17, i requires 0 <= i < 17 => Text.NatToString(i + offset))
  }

  const ShoeSizes: seq<string> := SizeOptions(5)
  const DressSizes: seq<string> := SizeOptions(0)

  /** The options are exactly the printed numbers from `offset` to `offset + 16`, each once. */
  lemma SizeOptionsExact(offset: nat, s: string)
    ensures s in SizeOptions(offset) <==> exists n :: offset <= n <= offset + 16 && s == Text.NatToString(n)
  {
    var r := SizeOptions(offset);
    if exists n :: offset <= n <= offset + 16 && s == Text.NatToString(n) {
      var n :| offset <= n <= offset + 16 && s == Text.NatToString(n);
      assert r[n - offset] == s;
    }
    if s in r {
      var i :| 0 <= i < 17 && r[i] == s;
      assert offset <= i + offset <= offset + 16 && s == Text.NatToString(i + offset);
    }
  }

  /** No option is repeated. */
  lemma SizeOptionsDistinct(offset: nat)
    ensures Lists.NoDup(SizeOptions(offset))
  {
    var r := SizeOptions(offset);
    forall i, j | 0 <= i < j < 17 ensures r[i] != r[j] {
      if r[i] == r[j] {
        Text.NatToStringInjective(i + offset, j + offset);
      }
    }
  }

  /** Shoe sizes run from "5" to "21" and dress sizes from "0" to "16". */
  lemma SizeBounds()
    ensures ShoeSizes[0] == "5" && ShoeSizes[16] == "21"
    ensures DressSizes[0] == "0" && DressSizes[16] == "16"
  {
    assert Text.NatToString(21) == Text.NatToString(2) + [Text.DigitChar(1)];
    assert Text.NatToString(16) == Text.NatToString(1) + [Text.DigitChar(6)];
  }

  /** The location as the schema may have stored it: a list, or a single code. */
  datatype LocationInput = Many(locs: seq<string>) | One(loc: string)

  /** `Array.isArray(l) ? l : [l]` */
  function WrapLocation(l: LocationInput): (r: seq<string>)
    ensures l.Many? ==> r == l.locs
    ensures l.One? ==> r == [l.loc]
  {
    match l
    case Many(locs) => locs
    case One(loc) => [loc]
  }

  /** The form filled from `initialData`: present fields are copied, absent ones take the form's defaults. */
  function FromInitialData(d: StaffModel.Staff, location: LocationInput): (f: StaffFormData)
    ensures f.location == WrapLocation(location)
    ensures f.name == d.name && f.email == d.email && f.photoUrl == d.photoUrl && f.birthday == d.birthday
    ensures f.phone == d.phone && f.college == d.college && f.resumeUrl == d.resumeUrl && f.notes == d.notes
    ensures f.shoeSize == d.shoeSize && f.dressSize == d.dressSize
    ensures d.status.Some? && d.status.value != "" ==> f.status == d.status.value
    ensures d.status.None? || d.status.value == "" ==> f.status == "active"
    ensures d.daysWorked.Some? && d.daysWorked.value != 0 ==> f.daysWorked == d.daysWorked.value
    ensures d.daysWorked.None? || d.daysWorked.value == 0 ==> f.daysWorked == 0
  {
    StaffFormData(d.name, d.email, d.phone, WrapLocation(location), d.birthday, d.college,
      d.shoeSize, d.dressSize, d.photoUrl, d.resumeUrl,
      if d.status.Some? && d.status.value != "" then d.status.value else "active",
      if d.daysWorked.Some? then d.daysWorked.value else 0,
      d.notes)
  }

  /** A record holding its location as a single agency code opens with that code selected, and no warning. */
  lemma LoneLocationSelected(d: StaffModel.Staff, code: string)
    requires code in StaffModel.LocationCodes
    ensures var f := FromInitialData(d, One(code));
      f.location == [code] && !LocationWarning(f) && StaffModel.ValidLocations(f.location)
  {
  }

  /** A record saved with the schema defaults opens with the same status and count as the defaults give. */
  lemma InitialDataAgreesWithDefaults(d: StaffModel.Staff)
    requires d.status.None? && d.daysWorked.None?
    ensures var f := FromInitialData(d, Many(d.location));
      Some(f.status) == StaffModel.WithDefaults(d).status && Some(f.daysWorked) == StaffModel.WithDefaults(d).daysWorked
  {
  }

  /** The days-worked input: `parseInt(value) || 0`. */
  function ParseDaysWorked(text: string): int
  {
    Text.ParseIntOrZero(text)
  }

  /** A count typed as digits is read back as that count. */
  lemma DaysWorkedRoundTrip(n: nat)
    ensures ParseDaysWorked(Text.NatToString(n)) == n
  {
    Text.ParseNatToString(n);
  }

  /** Input without a single digit becomes 0. */
  lemma NonNumericDaysWorked(text: string)
    requires forall i :: 0 <= i < |text| ==> !Text.IsDigit(text[i])
    ensures ParseDaysWorked(text) == 0
  {
    var t := Text.DropLeadingSpaces(text);
    var body := if t != [] && (t[0] == '-' || t[0] == '+') then t[1..] else t;
    if body != [] {
      assert body[0] in text;
    }
  }

  /** On an edit, the photo the record had is deleted only when there was one and it has been replaced or removed. */
  predicate DeletesOldPhoto(isEditing: bool, initialPhotoUrl: string, current: StaffFormData)
  {
    isEditing && initialPhotoUrl != "" && initialPhotoUrl != current.photoUrl
  }

  /** Keeping the photo, having had none, or creating a new record never deletes anything. */
  lemma NoDeleteWhenPhotoKept(isEditing: bool, initialPhotoUrl: string, current: StaffFormData)
    requires !isEditing || initialPhotoUrl == "" || current.photoUrl == initialPhotoUrl
    ensures !DeletesOldPhoto(isEditing, initialPhotoUrl, current)
  {
  }
}

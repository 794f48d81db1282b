/** The staff-list hook (hooks/useStaffData.js): its three list updaters. */
module StaffData {
  import Lists
  import StaffModel

  type Staff = StaffModel.Staff

  function Id(s: Staff): string
  {
    s.id
  }

  /** updateStaff: every member with the updated id is replaced; the rest and the length stay. */
  function UpdateStaff(staff: seq<Staff>, updated: Staff): (r: seq<Staff>)
    ensures |r| == |staff|
    ensures forall i :: 0 <= i < |staff| ==> r[i] == if staff[i].id == updated.id then updated else staff[i]
  {
    Lists.ReplaceKey(staff, Id, updated.id, updated)
  }

  /** addStaff: the new member goes at the end. */
  function AddStaff(staff: seq<Staff>, added: Staff): (r: seq<Staff>)
    ensures |r| == |staff| + 1 && r[..|staff|] == staff && r[|staff|] == added
  {
    staff + [added]
  }

  /** deleteStaff: exactly the members with the id are gone, the rest keep their order. */
  function DeleteStaff(staff: seq<Staff>, id: string): (r: seq<Staff>)
    ensures Lists.Subsequence(r, staff)
    ensures forall m :: m in r <==> m in staff && m.id != id
  {
    Lists.RemoveKey(staff, Id, id)
  }

  /** An update for an id nobody has changes nothing. */
  lemma UpdateUnknownId(staff: seq<Staff>, updated: Staff)
    requires forall m :: m in staff ==> m.id != updated.id
    ensures UpdateStaff(staff, updated) == staff
  {
    Lists.ReplaceUnknownKey(staff, Id, updated.id, updated);
  }

  /** Deleting right after updating the same id is the same as deleting alone. */
  lemma UpdateThenDelete(staff: seq<Staff>, updated: Staff)
    ensures DeleteStaff(UpdateStaff(staff, updated), updated.id) == DeleteStaff(staff, updated.id)
  {
    Lists.RemoveAfterReplace(staff, Id, updated);
  }

  /** Adding a member with a new id and then deleting that id gives back the list. */
  lemma AddThenDelete(staff: seq<Staff>, added: Staff)
    requires forall m :: m in staff ==> m.id != added.id
    ensures DeleteStaff(AddStaff(staff, added), added.id) == staff
  {
    Lists.RemoveKeySnoc(staff, Id, added.id, added);
    Lists.RemoveUnknownKey(staff, Id, added.id);
  }
}

/** The dashboard's figures (pages/index.js): the staff count per location and the totals. */
module Dashboard {
  import Lists
  import StaffModel
  import ClientModel

  type Staff = StaffModel.Staff

  /** Every staff member's location list, one after the other. */
  function AllLocations(staff: seq<Staff>): seq<string>
  {
    if staff == [] then [] else AllLocations(staff[..|staff| - 1]) + staff[|staff| - 1].location
  }

  function LocationListLength(s: Staff): int
  {
    |s.location|
  }

  /** There are as many location entries as the location lists' lengths add up to. */
  lemma {:induction false} AllLocationsLength(staff: seq<Staff>)
    ensures |AllLocations(staff)| == Lists.Sum(staff, LocationListLength)
  {
    if staff != [] {
      var init := staff[..|staff| - 1];
      AllLocationsLength(init);
      assert staff == init + [staff[|staff| - 1]];
      Lists.SumConcat(init, [staff[|staff| - 1]], LocationListLength);
      assert [staff[|staff| - 1]][1..] == [];
    }
  }

  /** `counts` holds, for each location in `seen`, how often it occurs there, and no other key. */
  ghost predicate CountsOf(counts: map<string, nat>, seen: seq<string>)
  {
    forall loc :: (loc in counts <==> loc in multiset(seen)) && (loc in counts ==> counts[loc] == multiset(seen)[loc])
  }

  lemma CountStep(counts: map<string, nat>, seen: seq<string>, loc: string)
    requires CountsOf(counts, seen)
    ensures CountsOf(counts[loc := (if loc in counts then counts[loc] else 0) + 1], seen + [loc])
  {
    assert multiset(seen + [loc]) == multiset(seen) + multiset{loc};
  }

  datatype DashboardStats = DashboardStats(
    totalStaff: nat, totalClients: nat, totalBookings: nat, staffByLocation: map<string, nat>)

  /** The inner `forEach`: one more for each of the member's locations. */
  method CountLocations(acc: map<string, nat>, ghost seen: seq<string>, locs: seq<string>) returns (r: map<string, nat>)
    requires CountsOf(acc, seen)
    ensures CountsOf(r, seen + locs)
  {
    r := acc;
    var j := 0;
    while j < |locs|
      invariant 0 <= j <= |locs|
      invariant CountsOf(r, seen + locs[..j])
    {
      var loc := locs[j];
      CountStep(r, seen + locs[..j], loc);
      r := r[loc := (if loc in r then r[loc] else 0) + 1];
      assert seen + locs[..j + 1] == seen + locs[..j] + [loc];
      j := j + 1;
    }
    assert locs[..j] == locs;
  }

  lemma AllLocationsPrefix(staff: seq<Staff>, i: nat)
    requires i < |staff|
    ensures AllLocations(staff[..i + 1]) == AllLocations(staff[..i]) + staff[i].location
  {
    assert staff[..i + 1][..i] == staff[..i];
  }

  /**
   * The stats computed after loading: staffByLocation counts each location over all
   * location lists (the reduce and its inner forEach), and totalBookings is always 0.
   */
  method ComputeStats(staff: seq<Staff>, clients: seq<ClientModel.Client>) returns (stats: DashboardStats)
    ensures stats.totalStaff == |staff| && stats.totalClients == |clients| && stats.totalBookings == 0
    ensures CountsOf(stats.staffByLocation, AllLocations(staff))
  {
    var acc: map<string, nat> := map[];
    var i := 0;
    while i < |staff|
      invariant 0 <= i <= |staff|
      invariant CountsOf(acc, AllLocations(staff[..i]))
    {
      acc := CountLocations(acc, AllLocations(staff[..i]), staff[i].location);
      AllLocationsPrefix(staff, i);
      i := i + 1;
    }
    assert staff[..i] == staff;
    stats := DashboardStats(|staff|, |clients|, 0, acc);
  }

  /** A location count is positive for every location that occurs, and no count exceeds the number of entries. */
  lemma CountsBounded(counts: map<string, nat>, staff: seq<Staff>, loc: string)
    requires CountsOf(counts, AllLocations(staff))
    requires loc in counts
    ensures 0 < counts[loc] <= Lists.Sum(staff, LocationListLength)
  {
    AllLocationsLength(staff);
    var all := AllLocations(staff);
    assert multiset(all)[loc] <= |multiset(all)|;
  }

  /**
   * The counts add up to the total length of the location lists: summing the count of each
   * distinct location once gives every entry exactly once.
   */
  lemma CountsSumToLocations(counts: map<string, nat>, staff: seq<Staff>)
    requires CountsOf(counts, AllLocations(staff))
    ensures var keys := Lists.Distinct(AllLocations(staff));
      (forall k :: k in keys <==> k in counts)
      && Lists.SumMultiplicities(keys, multiset(AllLocations(staff))) == Lists.Sum(staff, LocationListLength)
  {
    var all := AllLocations(staff);
    var keys := Lists.Distinct(all);
    Lists.MultiplicitiesPartition(all, keys);
    AllLocationsLength(staff);
  }
}

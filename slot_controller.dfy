/** Slot administration and the dashboard: slot listing by type, the status
    counts, the per-type breakdowns of slots and vehicles, and the latest
    completed sessions. The maintenance and availability overwrites are
    `Store.UpdateSlotStatus`, performed in place by `ParkingLot`. */
module SlotController {
  import opened Models
  import opened Seqs
  import opened Store
  import opened SessionController

  function OfType(t: SlotType): Slot -> bool {
    (s: Slot) => s.slotType == t
  }

  function WithStatus(st: SlotStatus): Slot -> bool {
    (s: Slot) => s.status == st
  }

  function OfTypeWithStatus(t: SlotType, st: SlotStatus): Slot -> bool {
    (s: Slot) => s.slotType == t && s.status == st
  }

  function NamedType(name: string): Slot -> bool {
    (s: Slot) => SlotTypeName(s.slotType) == name
  }

  /** `getSlots`: every slot, or when the request names a type, the slots
      whose stored type string is that name, in stored order. */
  function GetSlots(slots: seq<Slot>, typeFilter: string): (r: seq<Slot>)
    ensures typeFilter == "" ==> r == slots
    ensures typeFilter != "" ==> forall s :: s in r <==> s in slots && SlotTypeName(s.slotType) == typeFilter
    ensures typeFilter != "" && (forall t :: SlotTypeName(t) != typeFilter) ==> r == []
    ensures |r| <= |slots| && multiset(r) <= multiset(slots)
  {
    if typeFilter == "" then slots
    else
      var r := Filter(slots, NamedType(typeFilter));
      assert r != [] ==> r[0] in r;
      r
  }

  /** `slots.filter(slot => slot.status === st).length`. */
  function CountStatus(slots: seq<Slot>, st: SlotStatus): nat {
    |Filter(slots, WithStatus(st))|
  }

  /** Every slot has exactly one of the three statuses. */
  lemma {:induction false} StatusCountsAddUp(slots: seq<Slot>)
    ensures CountStatus(slots, Available) + CountStatus(slots, Occupied)
            + CountStatus(slots, Maintenance) == |slots|
  {
    if slots != [] {
      StatusCountsAddUp(slots[1..]);
    }
  }

  /** Overwriting one slot's status moves it from its old count to its new one. */
  lemma CountStatusAfterUpdate(slots: seq<Slot>, k: nat, st: SlotStatus, q: SlotStatus)
    requires k < |slots|
    ensures CountStatus(slots[k := slots[k].(status := st)], q) + (if slots[k].status == q then 1 else 0)
            == CountStatus(slots, q) + (if st == q then 1 else 0)
  {
    var y := slots[k].(status := st);
    FilterUpdate(slots, k, y, WithStatus(q));
    var after, before := Filter(slots[k := y], WithStatus(q)), Filter(slots, WithStatus(q));
    var gone: multiset<Slot> := if slots[k].status == q then multiset{slots[k]} else multiset{};
    var added: multiset<Slot> := if st == q then multiset{y} else multiset{};
    assert |multiset(after) + gone| == |multiset(before) + added|;
    assert |multiset(after)| == |after| && |multiset(before)| == |before|;
  }

  datatype TypeCounts = TypeCounts(total: nat, available: nat, occupied: nat, maintenance: nat)

  /** `acc[slot.type].total++; acc[slot.type][slot.status.toLowerCase()]++`. */
  function Bump(c: TypeCounts, st: SlotStatus): TypeCounts {
    match st
    case Available => c.(total := c.total + 1, available := c.available + 1)
    case Occupied => c.(total := c.total + 1, occupied := c.occupied + 1)
    case Maintenance => c.(total := c.total + 1, maintenance := c.maintenance + 1)
  }

  /** The counts of a type, zero when the type has no entry yet. */
  function CountsOf(m: map<SlotType, TypeCounts>, t: SlotType): TypeCounts {
    if t in m then m[t] else TypeCounts(0, 0, 0, 0)
  }

  function Tally(acc: map<SlotType, TypeCounts>, s: Slot): map<SlotType, TypeCounts> {
    acc[s.slotType := Bump(CountsOf(acc, s.slotType), s.status)]
  }

  /** The `slots.reduce(..., {})` of the dashboard: a left fold of `Tally`. */
  function SlotsByType(slots: seq<Slot>): map<SlotType, TypeCounts>
    decreases |slots|
  {
    if slots == [] then map[] else Tally(SlotsByType(slots[..|slots| - 1]), slots[|slots| - 1])
  }

  /** Tallying one slot bumps its own type's counts by its status and leaves
      every other type as it was. */
  lemma TallyEffect(m: map<SlotType, TypeCounts>, s: Slot, t: SlotType)
    ensures var c, c0 := CountsOf(Tally(m, s), t), CountsOf(m, t);
      && (t in Tally(m, s) <==> t in m || s.slotType == t)
      && c.total == c0.total + (if OfType(t)(s) then 1 else 0)
      && c.available == c0.available + (if OfTypeWithStatus(t, Available)(s) then 1 else 0)
      && c.occupied == c0.occupied + (if OfTypeWithStatus(t, Occupied)(s) then 1 else 0)
      && c.maintenance == c0.maintenance + (if OfTypeWithStatus(t, Maintenance)(s) then 1 else 0)
  {
  }

  /** A type has an entry exactly when some slot has that type. */
  lemma {:induction false} SlotsByTypeKeys(slots: seq<Slot>, t: SlotType)
    ensures t in SlotsByType(slots) <==> exists i :: 0 <= i < |slots| && slots[i].slotType == t
    decreases |slots|
  {
    if slots != [] {
      var init, last := slots[..|slots| - 1], slots[|slots| - 1];
      SlotsByTypeKeys(init, t);
      TallyEffect(SlotsByType(init), last, t);
      assert (exists i :: 0 <= i < |slots| && slots[i].slotType == t) <==>
             (exists i :: 0 <= i < |init| && init[i].slotType == t) || last.slotType == t by {
        assert forall i :: 0 <= i < |init| ==> init[i] == slots[i];
      }
    }
  }

  /** A type has an entry exactly when some slot has that type, and its
      counts are the numbers of slots of that type overall and per status. */
  lemma {:induction false} SlotsByTypeCounts(slots: seq<Slot>, t: SlotType)
    ensures var m := SlotsByType(slots);
      && (t in m <==> exists i :: 0 <= i < |slots| && slots[i].slotType == t)
      && CountsOf(m, t).total == |Filter(slots, OfType(t))|
      && CountsOf(m, t).available == |Filter(slots, OfTypeWithStatus(t, Available))|
      && CountsOf(m, t).occupied == |Filter(slots, OfTypeWithStatus(t, Occupied))|
      && CountsOf(m, t).maintenance == |Filter(slots, OfTypeWithStatus(t, Maintenance))|
    decreases |slots|
  {
    SlotsByTypeKeys(slots, t);
    if slots != [] {
      var init, last := slots[..|slots| - 1], slots[|slots| - 1];
      assert slots == init + [last];
      SlotsByTypeCounts(init, t);
      TallyEffect(SlotsByType(init), last, t);
      FilterSnocLength(init, last, OfType(t));
      FilterSnocLength(init, last, OfTypeWithStatus(t, Available));
      FilterSnocLength(init, last, OfTypeWithStatus(t, Occupied));
      FilterSnocLength(init, last, OfTypeWithStatus(t, Maintenance));
    }
  }

  /** Each type's total is the sum of its three status counts. */
  predicate Balanced(m: map<SlotType, TypeCounts>) {
    forall t :: t in m ==> m[t].total == m[t].available + m[t].occupied + m[t].maintenance
  }

  lemma {:induction false} SlotsByTypeBalanced(slots: seq<Slot>)
    ensures Balanced(SlotsByType(slots))
    decreases |slots|
  {
    if slots != [] {
      var init, last := slots[..|slots| - 1], slots[|slots| - 1];
      SlotsByTypeBalanced(init);
      var m0 := SlotsByType(init);
      var k := last.slotType;
      var c := Bump(CountsOf(m0, k), last.status);
      assert c.total == c.available + c.occupied + c.maintenance;
      assert SlotsByType(slots) == m0[k := c];
    }
  }

  function SumTotals(m: map<SlotType, TypeCounts>): nat {
    CountsOf(m, Regular).total + CountsOf(m, Compact).total + CountsOf(m, BikeSlot).total
    + CountsOf(m, EVSlot).total + CountsOf(m, HandicapSlot).total
  }

  /** The per-type totals add up to the number of slots: each slot is
      counted under exactly one type. */
  lemma {:induction false} SlotsByTypeTotals(slots: seq<Slot>)
    ensures SumTotals(SlotsByType(slots)) == |slots|
    decreases |slots|
  {
    if slots != [] {
      var init, last := slots[..|slots| - 1], slots[|slots| - 1];
      SlotsByTypeTotals(init);
      var m0 := SlotsByType(init);
      TallyEffect(m0, last, Regular);
      TallyEffect(m0, last, Compact);
      TallyEffect(m0, last, BikeSlot);
      TallyEffect(m0, last, EVSlot);
      TallyEffect(m0, last, HandicapSlot);
    }
  }

  function VehicleOfType(t: VehicleType): Vehicle -> bool {
    (v: Vehicle) => v.vehicleType == t
  }

  function VehicleCount(m: map<VehicleType, nat>, t: VehicleType): nat {
    if t in m then m[t] else 0
  }

  /** The `allVehicles.reduce(..., {})` of the dashboard. */
  function VehiclesByType(vehicles: seq<Vehicle>): map<VehicleType, nat>
    decreases |vehicles|
  {
    if vehicles == [] then map[]
    else
      var acc := VehiclesByType(vehicles[..|vehicles| - 1]);
      var t := vehicles[|vehicles| - 1].vehicleType;
      acc[t := VehicleCount(acc, t) + 1]
  }

  /** A type has an entry exactly when some vehicle has that type. */
  lemma {:induction false} VehiclesByTypeKeys(vehicles: seq<Vehicle>, t: VehicleType)
    ensures t in VehiclesByType(vehicles) <==> exists i :: 0 <= i < |vehicles| && vehicles[i].vehicleType == t
    decreases |vehicles|
  {
    if vehicles != [] {
      var init, last := vehicles[..|vehicles| - 1], vehicles[|vehicles| - 1];
      VehiclesByTypeKeys(init, t);
      assert (exists i :: 0 <= i < |vehicles| && vehicles[i].vehicleType == t) <==>
             (exists i :: 0 <= i < |init| && init[i].vehicleType == t) || last.vehicleType == t by {
        assert forall i :: 0 <= i < |init| ==> init[i] == vehicles[i];
      }
    }
  }

  /** Each type's count is the number of vehicles of that type. */
  lemma {:induction false} VehiclesByTypeCounts(vehicles: seq<Vehicle>, t: VehicleType)
    ensures VehicleCount(VehiclesByType(vehicles), t) == |Filter(vehicles, VehicleOfType(t))|
    ensures t in VehiclesByType(vehicles) <==> exists i :: 0 <= i < |vehicles| && vehicles[i].vehicleType == t
    decreases |vehicles|
  {
    VehiclesByTypeKeys(vehicles, t);
    if vehicles != [] {
      var init, last := vehicles[..|vehicles| - 1], vehicles[|vehicles| - 1];
      assert vehicles == init + [last];
      VehiclesByTypeCounts(init, t);
      FilterSnocLength(init, last, VehicleOfType(t));
    }
  }

  function SumVehicleCounts(m: map<VehicleType, nat>): nat {
    VehicleCount(m, Car) + VehicleCount(m, Bike) + VehicleCount(m, EV) + VehicleCount(m, HandicapAccessible)
  }

  /** The per-type vehicle counts add up to the number of vehicles. */
  lemma {:induction false} VehiclesByTypeTotals(vehicles: seq<Vehicle>)
    ensures SumVehicleCounts(VehiclesByType(vehicles)) == |vehicles|
    decreases |vehicles|
  {
    if vehicles != [] {
      var init, last := vehicles[..|vehicles| - 1], vehicles[|vehicles| - 1];
      VehiclesByTypeTotals(init);
      var m0, m := VehiclesByType(init), VehiclesByType(vehicles);
      assert VehicleCount(m, last.vehicleType) == VehicleCount(m0, last.vehicleType) + 1;
      assert forall t :: t != last.vehicleType ==> VehicleCount(m, t) == VehicleCount(m0, t);
      match last.vehicleType
      case Car =>
      case Bike =>
      case EV =>
      case HandicapAccessible =>
    }
  }

  predicate IsCompleted(s: Session) {
    s.status == Completed
  }

  /** Sort key of `sort({ exit_time: -1 })`; completed sessions always carry
      an exit time in consistent tables. */
  function ExitTimeKey(s: Session): int {
    match s.exitTime
    case Some(t) => t
    case None => 0
  }

  /** The 10 latest completed sessions, latest exit first; a completed
      session left out exits no later than every one listed. */
  function RecentSessions(sessions: seq<Session>): (r: seq<Session>)
    ensures |r| <= 10
    ensures forall s :: s in r ==> s in sessions && s.status == Completed
    ensures SortedDesc(r, ExitTimeKey)
    ensures forall s :: s in sessions && s.status == Completed && s !in r ==>
              |r| == 10 && forall j :: 0 <= j < 10 ==> ExitTimeKey(r[j]) >= ExitTimeKey(s)
    ensures multiset(r) <= multiset(Filter(sessions, IsCompleted))
    ensures |r| == if |Filter(sessions, IsCompleted)| < 10 then |Filter(sessions, IsCompleted)| else 10
  {
    Top(sessions, IsCompleted, ExitTimeKey, 10)
  }

  datatype Overview = Overview(totalSlots: nat, availableSlots: nat, occupiedSlots: nat,
                               maintenanceSlots: nat, activeSessions: nat, totalVehicles: nat)

  datatype DashboardStats = DashboardStats(overview: Overview,
                                           slotsByType: map<SlotType, TypeCounts>,
                                           vehiclesByType: map<VehicleType, nat>,
                                           slots: seq<Slot>, vehicles: seq<Vehicle>,
                                           activeSessionsDetails: seq<Session>,
                                           recentSessions: seq<Session>)

  /** `getDashboardStats`: slot figures over the slots of the requested type
      (all slots when none is named); session and vehicle figures over
      everything stored. */
  function Dashboard(t: Tables, typeFilter: string): (r: DashboardStats)
    ensures r.slots == GetSlots(t.slots, typeFilter)
    ensures r.overview.totalSlots == |r.slots|
    ensures r.overview.totalSlots == r.overview.availableSlots + r.overview.occupiedSlots
                                     + r.overview.maintenanceSlots
    ensures r.overview.availableSlots == CountStatus(r.slots, Available)
    ensures r.overview.occupiedSlots == CountStatus(r.slots, Occupied)
    ensures r.overview.maintenanceSlots == CountStatus(r.slots, Maintenance)
    ensures r.slotsByType == SlotsByType(r.slots)
    ensures r.overview.totalSlots == SumTotals(r.slotsByType) && Balanced(r.slotsByType)
    ensures r.vehiclesByType == VehiclesByType(t.vehicles)
    ensures r.vehicles == t.vehicles && r.overview.totalVehicles == |t.vehicles|
    ensures r.overview.totalVehicles == SumVehicleCounts(r.vehiclesByType)
    ensures r.overview.activeSessions == |r.activeSessionsDetails|
    ensures forall s :: s in r.activeSessionsDetails <==> s in t.sessions && s.status == Active
    ensures r.overview.activeSessions == |ActiveSessions(t.sessions)|
    ensures r.recentSessions == RecentSessions(t.sessions)
  {
    var slots := GetSlots(t.slots, typeFilter);
    StatusCountsAddUp(slots);
    SlotsByTypeTotals(slots);
    SlotsByTypeBalanced(slots);
    VehiclesByTypeTotals(t.vehicles);
    var active := Filter(t.sessions, IsActive);
    DashboardStats(
      Overview(|slots|, CountStatus(slots, Available), CountStatus(slots, Occupied),
               CountStatus(slots, Maintenance), |active|, |t.vehicles|),
      SlotsByType(slots), VehiclesByType(t.vehicles), slots, t.vehicles, active,
      RecentSessions(t.sessions))
  }
}

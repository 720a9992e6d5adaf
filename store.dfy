/** The three collections the controllers read and write (slots, vehicles,
    parking sessions), the database lookups they use, and the consistency
    every stored state keeps: unique ids below the next fresh id, sessions
    that reference stored slots and vehicles, and exit data present exactly
    on completed sessions. */
module Store {
  import opened Models
  import opened Seqs

  datatype Tables = Tables(slots: seq<Slot>, vehicles: seq<Vehicle>,
                           sessions: seq<Session>, nextId: nat)

  /** `ParkingSlot.findById(id)`: index of the slot with that id. */
  function FindSlotById(slots: seq<Slot>, id: nat): (r: Option<nat>)
    ensures r.Some? ==> r.value < |slots| && slots[r.value].id == id
    ensures r.None? <==> forall j :: 0 <= j < |slots| ==> slots[j].id != id
  {
    FindFirst(slots, (s: Slot) => s.id == id)
  }

  /** `Vehicle.findOne({ number_plate })`: index of the first vehicle with that plate. */
  function FindVehicleByPlate(vehicles: seq<Vehicle>, plate: string): (r: Option<nat>)
    ensures r.Some? ==> r.value < |vehicles| && vehicles[r.value].numberPlate == plate
    ensures r.Some? ==> forall j :: 0 <= j < r.value ==> vehicles[j].numberPlate != plate
    ensures r.None? <==> forall j :: 0 <= j < |vehicles| ==> vehicles[j].numberPlate != plate
  {
    FindFirst(vehicles, (v: Vehicle) => v.numberPlate == plate)
  }

  /** `ParkingSession.findOne({ vehicle_id, status: 'Active' })`. */
  function FindActiveSession(sessions: seq<Session>, vehicleId: nat): (r: Option<nat>)
    ensures r.Some? ==> r.value < |sessions| && sessions[r.value].vehicleId == vehicleId
                        && sessions[r.value].status == Active
    ensures r.Some? ==> forall j :: 0 <= j < r.value ==>
                          !(sessions[j].vehicleId == vehicleId && sessions[j].status == Active)
    ensures r.None? <==> forall j :: 0 <= j < |sessions| ==>
                           !(sessions[j].vehicleId == vehicleId && sessions[j].status == Active)
  {
    FindFirst(sessions, (s: Session) => s.vehicleId == vehicleId && s.status == Active)
  }

  /** `ParkingSlot.findByIdAndUpdate(id, { status })`: the slots with the one
      carrying `id` overwritten, or None when no slot has that id. */
  function UpdateSlotStatus(slots: seq<Slot>, id: nat, status: SlotStatus): (r: Option<seq<Slot>>)
    ensures r.Some? <==> exists k :: 0 <= k < |slots| && slots[k].id == id
  {
    match FindSlotById(slots, id)
    case None => None
    case Some(k) => Some(slots[k := slots[k].(status := status)])
  }

  predicate SlotIdsUnique(slots: seq<Slot>) {
    forall i, j :: 0 <= i < j < |slots| ==> slots[i].id != slots[j].id
  }

  predicate SlotExists(slots: seq<Slot>, id: nat) {
    exists k :: 0 <= k < |slots| && slots[k].id == id
  }

  predicate VehicleExists(vehicles: seq<Vehicle>, id: nat) {
    exists k :: 0 <= k < |vehicles| && vehicles[k].id == id
  }

  /** Exit data is present exactly when the session is completed. */
  predicate SessionWellFormed(s: Session) {
    match s.status
    case Active => s.exitTime.None? && s.billingAmount.None?
    case Completed => s.exitTime.Some? && s.billingAmount.Some?
  }

  predicate Consistent(t: Tables) {
    && SlotIdsUnique(t.slots)
    && (forall i :: 0 <= i < |t.slots| ==> t.slots[i].id < t.nextId)
    && (forall i, j :: 0 <= i < j < |t.vehicles| ==> t.vehicles[i].id != t.vehicles[j].id)
    && (forall i :: 0 <= i < |t.vehicles| ==> t.vehicles[i].id < t.nextId)
    && (forall i, j :: 0 <= i < j < |t.sessions| ==> t.sessions[i].id != t.sessions[j].id)
    && (forall i :: 0 <= i < |t.sessions| ==> t.sessions[i].id < t.nextId)
    && (forall i :: 0 <= i < |t.sessions| ==>
          && SessionWellFormed(t.sessions[i])
          && SlotExists(t.slots, t.sessions[i].slotId)
          && VehicleExists(t.vehicles, t.sessions[i].vehicleId))
  }

  /** No two stored vehicles share a plate. */
  predicate PlatesUnique(vehicles: seq<Vehicle>) {
    forall i, j :: 0 <= i < j < |vehicles| ==> vehicles[i].numberPlate != vehicles[j].numberPlate
  }

  /** With unique ids, the overwrite touches exactly the slot carrying `id`. */
  lemma UpdateSlotStatusEffect(slots: seq<Slot>, id: nat, status: SlotStatus)
    requires SlotIdsUnique(slots)
    requires SlotExists(slots, id)
    ensures var r := UpdateSlotStatus(slots, id, status);
      && r.Some? && |r.value| == |slots|
      && forall j :: 0 <= j < |slots| ==>
           r.value[j] == if slots[j].id == id then slots[j].(status := status) else slots[j]
  {
  }

  /** Overwriting a status keeps every id where it was, so later lookups agree. */
  lemma {:induction false} UpdateSlotStatusKeepsIds(slots: seq<Slot>, id: nat, status: SlotStatus, other: nat)
    requires UpdateSlotStatus(slots, id, status).Some?
    ensures var r := UpdateSlotStatus(slots, id, status).value;
      |r| == |slots| && FindSlotById(r, other) == FindSlotById(slots, other)
      && (forall j :: 0 <= j < |r| ==> r[j].id == slots[j].id && r[j].slotType == slots[j].slotType
                                        && r[j].slotNumber == slots[j].slotNumber)
  {
    var r := UpdateSlotStatus(slots, id, status).value;
    FindFirstAgree(r, (s: Slot) => s.id == other, slots, (s: Slot) => s.id == other);
  }

  /** Writing the same status twice is the same as writing it once. */
  lemma UpdateSlotStatusIdempotent(slots: seq<Slot>, id: nat, status: SlotStatus)
    requires UpdateSlotStatus(slots, id, status).Some?
    ensures UpdateSlotStatus(UpdateSlotStatus(slots, id, status).value, id, status)
            == UpdateSlotStatus(slots, id, status)
  {
    UpdateSlotStatusKeepsIds(slots, id, status, id);
    var k := FindSlotById(slots, id).value;
    var r := UpdateSlotStatus(slots, id, status).value;
    assert r[k := r[k].(status := status)] == r;
  }

  /** A status overwrite keeps every table consistent: only a status changes. */
  lemma UpdateSlotStatusPreservesConsistent(t: Tables, id: nat, status: SlotStatus)
    requires Consistent(t)
    requires UpdateSlotStatus(t.slots, id, status).Some?
    ensures Consistent(t.(slots := UpdateSlotStatus(t.slots, id, status).value))
  {
    var r := UpdateSlotStatus(t.slots, id, status).value;
    UpdateSlotStatusKeepsIds(t.slots, id, status, id);
    forall i | 0 <= i < |t.sessions| ensures SlotExists(r, t.sessions[i].slotId) {
      var k :| 0 <= k < |t.slots| && t.slots[k].id == t.sessions[i].slotId;
      assert r[k].id == t.sessions[i].slotId;
    }
  }

  /** An id larger than every id in the initial slots. */
  function FreshIdAbove(slots: seq<Slot>): (n: nat)
    ensures forall i :: 0 <= i < |slots| ==> slots[i].id < n
  {
    if slots == [] then 0
    else
      var rest := FreshIdAbove(slots[1..]);
      assert forall i :: 1 <= i < |slots| ==> slots[i] == slots[1..][i - 1];
      if slots[0].id + 1 > rest then slots[0].id + 1 else rest
  }
}

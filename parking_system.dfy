/** The parking lot as the server keeps it: the slot, vehicle and session
    collections updated in place by entry, exit and the slot status
    overwrites, each proved to match its table function; and the facts
    that connect the controllers (exit and billing, entry and exit and the
    dashboard figures). */
module ParkingSystem {
  import opened Models
  import opened Seqs
  import opened Store
  import opened VehicleController
  import opened BillingController
  import opened SessionController
  import opened SlotController
  import opened Clock

  class ParkingLot {
    var slots: seq<Slot>
    var vehicles: seq<Vehicle>
    var sessions: seq<Session>
    var nextId: nat

    function Snapshot(): Tables
      reads this
    {
      Tables(slots, vehicles, sessions, nextId)
    }

    ghost predicate Valid()
      reads this
    {
      Consistent(Snapshot())
    }

    /** A lot with the given slots and no vehicles or sessions yet. */
    constructor(initialSlots: seq<Slot>)
      requires SlotIdsUnique(initialSlots)
      ensures Valid()
      ensures slots == initialSlots && vehicles == [] && sessions == []
    {
      slots := initialSlots;
      vehicles := [];
      sessions := [];
      nextId := FreshIdAbove(initialSlots);
    }

    /** `Vehicle.findOne({ number_plate })`, then `Vehicle.create` when absent. */
    method FindOrCreateVehicle(plate: string, vehicleType: string) returns (r: Result<nat, EntryError>)
      modifies this
      ensures var res := ResolveVehicle(old(Snapshot()), plate, vehicleType);
        && (res.Err? ==> r == Err(res.error) && Snapshot() == old(Snapshot()))
        && (res.Ok? ==> r == Ok(res.value.vehicleId) && Snapshot() == res.value.tables)
    {
      var found := FindVehicleByPlate(vehicles, plate);
      if found.Some? {
        return Ok(vehicles[found.value].id);
      }
      var parsed := ParseVehicleType(vehicleType);
      if parsed.None? || plate == "" {
        return Err(InvalidVehicle);
      }
      r := Ok(nextId);
      vehicles := vehicles + [Vehicle(nextId, plate, parsed.value)];
      nextId := nextId + 1;
    }

    /** The preferred slot checks, or the first fitting slot; reads only. */
    method PickSlot(allowed: set<SlotType>, preferred: Option<nat>) returns (r: Result<nat, EntryError>)
      ensures r == ChooseSlot(slots, allowed, preferred)
    {
      if preferred.Some? {
        var index := FindSlotById(slots, preferred.value);
        if index.None? {
          return Err(PreferredSlotNotFound);
        }
        var k := index.value;
        if slots[k].slotType !in allowed {
          return Err(PreferredSlotTypeNotAllowed);
        }
        if slots[k].status != Available {
          return Err(PreferredSlotNotAvailable);
        }
        return Ok(k);
      }
      var index := FirstAvailable(slots, allowed);
      if index.None? {
        return Err(NoAvailableSlot);
      }
      return Ok(index.value);
    }

    /** `vehicleEntry` on a consistent lot, which it keeps consistent. */
    method VehicleEntry(plate: string, vehicleType: string, billingType: string,
                        preferred: Option<nat>, now: Time)
      returns (result: Result<EntryReceipt, EntryError>)
      requires Valid()
      modifies this
      ensures Valid()
      ensures Snapshot() == Entry(old(Snapshot()), plate, vehicleType, billingType, preferred, now).tables
      ensures result == Entry(old(Snapshot()), plate, vehicleType, billingType, preferred, now).result
    {
      EntryPreservesConsistent(Snapshot(), plate, vehicleType, billingType, preferred, now);
      result := EnterSteps(plate, vehicleType, billingType, preferred, now);
    }

    /** The steps of `vehicleEntry` on the stored collections, each saved as
        it is taken. */
    method EnterSteps(plate: string, vehicleType: string, billingType: string,
                      preferred: Option<nat>, now: Time)
      returns (result: Result<EntryReceipt, EntryError>)
      modifies this
      ensures Snapshot() == Entry(old(Snapshot()), plate, vehicleType, billingType, preferred, now).tables
      ensures result == Entry(old(Snapshot()), plate, vehicleType, billingType, preferred, now).result
    {
      var vehicle := FindOrCreateVehicle(plate, vehicleType);
      if vehicle.Err? {
        return Err(vehicle.error);
      }
      var choice := PickSlot(AllowedSlotTypes(vehicleType), preferred);
      if choice.Err? {
        return Err(choice.error);
      }
      var k := choice.value;
      slots := slots[k := slots[k].(status := Occupied)];

      var billing := ParseBillingType(billingType);
      if billing.None? {
        return Err(InvalidBillingType);
      }
      var sessionId := nextId;
      sessions := sessions + [Session(sessionId, vehicle.value, slots[k].id, now, None, Active, billing.value, None)];
      nextId := nextId + 1;
      result := Ok(EntryReceipt(slots[k].slotNumber, sessionId));
    }

    /** `vehicleExit` on a consistent lot, which it keeps consistent. */
    method VehicleExit(plate: string, now: Time) returns (result: Result<int, ExitError>)
      requires Valid()
      modifies this
      ensures Valid()
      ensures Snapshot() == Exit(old(Snapshot()), plate, now).tables
      ensures result == Exit(old(Snapshot()), plate, now).result
    {
      ExitPreservesConsistent(Snapshot(), plate, now);
      result := ExitSteps(plate, now);
    }

    /** The steps of `vehicleExit` on the stored collections, each saved as
        it is taken. */
    method ExitSteps(plate: string, now: Time) returns (result: Result<int, ExitError>)
      modifies this
      ensures Snapshot() == Exit(old(Snapshot()), plate, now).tables
      ensures result == Exit(old(Snapshot()), plate, now).result
    {
      var stored, parked, places := vehicles, sessions, slots;
      var v := FindVehicleByPlate(stored, plate);
      if v.None? {
        return Err(VehicleNotFound);
      }
      var i := FindActiveSession(parked, stored[v.value].id);
      if i.None? {
        return Err(NoActiveSession);
      }
      var s := parked[i.value];
      var amount := Fare(BillingTypeName(s.billingType), now - s.entryTime);
      sessions := parked[i.value := s.(exitTime := Some(now), status := Completed, billingAmount := Some(amount))];

      var slotIndex := FindSlotById(places, s.slotId);
      if slotIndex.None? {
        return Err(SlotMissing);
      }
      slots := places[slotIndex.value := places[slotIndex.value].(status := Available)];
      result := Ok(amount);
    }

    /** `searchVehicle`: reads the collections and changes nothing. */
    method SearchVehicle(plate: string) returns (result: Result<Option<Session>, ExitError>)
      ensures result == Search(Snapshot(), plate)
      ensures result.Err? <==> forall j :: 0 <= j < |vehicles| ==> vehicles[j].numberPlate != plate
    {
      var v := FindVehicleByPlate(vehicles, plate);
      if v.None? {
        return Err(VehicleNotFound);
      }
      var i := FindActiveSession(sessions, vehicles[v.value].id);
      if i.None? {
        return Ok(None);
      }
      return Ok(Some(sessions[i.value]));
    }

    /** `setSlotMaintenance` and `setSlotAvailable`: overwrite the status of
        the slot with that id; `false` (404) when there is none. */
    method SetSlotStatus(id: nat, status: SlotStatus) returns (found: bool)
      requires Valid()
      modifies this
      ensures Valid()
      ensures found <==> SlotExists(old(slots), id)
      ensures found ==> slots == UpdateSlotStatus(old(slots), id, status).value
      ensures !found ==> slots == old(slots)
      ensures vehicles == old(vehicles) && sessions == old(sessions) && nextId == old(nextId)
    {
      var index := FindSlotById(slots, id);
      if index.None? {
        return false;
      }
      UpdateSlotStatusPreservesConsistent(Snapshot(), id, status);
      slots := slots[index.value := slots[index.value].(status := status)];
      found := true;
    }

    method SetSlotMaintenance(id: nat) returns (found: bool)
      requires Valid()
      modifies this
      ensures Valid()
      ensures found <==> SlotExists(old(slots), id)
      ensures found ==> slots == UpdateSlotStatus(old(slots), id, Maintenance).value
      ensures !found ==> slots == old(slots)
      ensures vehicles == old(vehicles) && sessions == old(sessions) && nextId == old(nextId)
    {
      found := SetSlotStatus(id, Maintenance);
    }

    method SetSlotAvailable(id: nat) returns (found: bool)
      requires Valid()
      modifies this
      ensures Valid()
      ensures found <==> SlotExists(old(slots), id)
      ensures found ==> slots == UpdateSlotStatus(old(slots), id, Available).value
      ensures !found ==> slots == old(slots)
      ensures vehicles == old(vehicles) && sessions == old(sessions) && nextId == old(nextId)
    {
      found := SetSlotStatus(id, Available);
    }
  }

  /** The session an exit completes, populated with the stored vehicle that
      has the plate and the stored slot it occupied, makes a valid billing
      record: the plate and slot number come from them, the exit time is the
      exit instant and the amount is the fare exit returned. */
  lemma ExitSessionBillsTheFare(t: Tables, plate: string, now: Time, createdAt: Time)
    ensures var o := Exit(t, plate, now);
      o.result.Ok? ==>
        exists i, w, k :: 0 <= i < |t.sessions| && i < |o.tables.sessions|
          && 0 <= w < |o.tables.vehicles| && 0 <= k < |o.tables.slots| && k < |t.slots|
          && t.sessions[i].status == Active && o.tables.sessions[i].status == Completed
          && o.tables.sessions[i].billingAmount == Some(o.result.value)
          && o.tables.vehicles[w].numberPlate == plate
          && o.tables.vehicles[w].id == o.tables.sessions[i].vehicleId
          && o.tables.slots[k].id == o.tables.sessions[i].slotId
          && var s := o.tables.sessions[i];
             var r := MakeRecord(s, o.tables.vehicles[w], o.tables.slots[k], o.result.value, createdAt);
             && r.Ok? && r.value.sessionId == t.sessions[i].id
             && r.value.vehicleNumber == plate && r.value.slotNumber == t.slots[k].slotNumber
             && r.value.exitTime == now && r.value.entryTime == t.sessions[i].entryTime
             && r.value.totalAmount == o.result.value
  {
    var o := Exit(t, plate, now);
    if o.result.Ok? {
      var w := FindVehicleByPlate(t.vehicles, plate).value;
      var i := FindActiveSession(t.sessions, t.vehicles[w].id).value;
      var k := FindSlotById(t.slots, t.sessions[i].slotId).value;
      assert o.tables.vehicles[w] == t.vehicles[w];
      assert o.tables.sessions[i].vehicleId == t.sessions[i].vehicleId;
      assert o.tables.slots[k] == t.slots[k].(status := Available);
    }
  }

  /** A successful entry adds exactly its new session to the active list. */
  lemma EntryListsNewSession(t: Tables, plate: string, vehicleType: string, billingType: string,
                             preferred: Option<nat>, now: Time)
    ensures var o := Entry(t, plate, vehicleType, billingType, preferred, now);
      o.result.Ok? ==>
        && |o.tables.sessions| == |t.sessions| + 1
        && multiset(ActiveSessions(o.tables.sessions))
           == multiset(ActiveSessions(t.sessions)) + multiset{o.tables.sessions[|t.sessions|]}
  {
    var o := Entry(t, plate, vehicleType, billingType, preferred, now);
    if o.result.Ok? {
      EntrySuccess(t, plate, vehicleType, billingType, preferred, now);
      var s := o.tables.sessions[|t.sessions|];
      assert o.tables.sessions == t.sessions + [s];
      ActiveSessionsAfterAppend(t.sessions, s);
    }
  }

  /** A successful exit takes exactly the completed session off the active list. */
  lemma ExitUnlistsSession(t: Tables, plate: string, now: Time)
    requires Consistent(t)
    ensures var o := Exit(t, plate, now);
      o.result.Ok? ==>
        exists i :: 0 <= i < |t.sessions| && t.sessions[i].status == Active
          && multiset(ActiveSessions(o.tables.sessions)) + multiset{t.sessions[i]}
             == multiset(ActiveSessions(t.sessions))
  {
    var o := Exit(t, plate, now);
    if o.result.Ok? {
      var v := FindVehicleByPlate(t.vehicles, plate).value;
      var i := FindActiveSession(t.sessions, t.vehicles[v].id).value;
      var closed := o.tables.sessions[i];
      assert o.tables.sessions == t.sessions[i := closed] && !IsActive(closed);
      FilterUpdate(t.sessions, i, closed, IsActive);
      assert multiset(ActiveSessions(o.tables.sessions)) + multiset{t.sessions[i]}
             == multiset(ActiveSessions(t.sessions));
    }
  }

  /** A successful entry turns exactly one Available slot Occupied in the
      dashboard counts. */
  lemma EntryMovesOneSlotToOccupied(t: Tables, plate: string, vehicleType: string, billingType: string,
                                    preferred: Option<nat>, now: Time)
    ensures var o := Entry(t, plate, vehicleType, billingType, preferred, now);
      o.result.Ok? ==>
        && CountStatus(o.tables.slots, Available) + 1 == CountStatus(t.slots, Available)
        && CountStatus(o.tables.slots, Occupied) == CountStatus(t.slots, Occupied) + 1
        && CountStatus(o.tables.slots, Maintenance) == CountStatus(t.slots, Maintenance)
  {
    var o := Entry(t, plate, vehicleType, billingType, preferred, now);
    if o.result.Ok? {
      var t1 := ResolveVehicle(t, plate, vehicleType).value.tables;
      var k := ChooseSlot(t1.slots, AllowedSlotTypes(vehicleType), preferred).value;
      assert o.tables.slots == t.slots[k := t.slots[k].(status := Occupied)] && t.slots[k].status == Available;
      CountStatusAfterUpdate(t.slots, k, Occupied, Available);
      CountStatusAfterUpdate(t.slots, k, Occupied, Occupied);
      CountStatusAfterUpdate(t.slots, k, Occupied, Maintenance);
    }
  }

  /** A successful exit leaves its slot Available whatever status it had
      (Occupied, or Maintenance when set while the vehicle was parked). */
  lemma ExitFreesTheSlot(t: Tables, plate: string, now: Time)
    ensures var o := Exit(t, plate, now);
      o.result.Ok? ==>
        exists k :: 0 <= k < |t.slots|
          && o.tables.slots == t.slots[k := t.slots[k].(status := Available)]
          && CountStatus(o.tables.slots, Available)
             == CountStatus(t.slots, Available) + (if t.slots[k].status == Available then 0 else 1)
  {
    var o := Exit(t, plate, now);
    if o.result.Ok? {
      var v := FindVehicleByPlate(t.vehicles, plate).value;
      var i := FindActiveSession(t.sessions, t.vehicles[v].id).value;
      var k := FindSlotById(t.slots, t.sessions[i].slotId).value;
      assert o.tables.slots == t.slots[k := t.slots[k].(status := Available)];
      CountStatusAfterUpdate(t.slots, k, Available, Available);
    }
  }

  /** No vehicle with this plate has an Active session. */
  predicate NotParked(t: Tables, plate: string) {
    forall i, v ::
      0 <= i < |t.sessions| && 0 <= v < |t.vehicles| && t.vehicles[v].numberPlate == plate && t.sessions[i].status == Active
      ==> t.sessions[i].vehicleId != t.vehicles[v].id
  }

  /** After find-or-create, looking the plate up again finds the resolved vehicle. */
  lemma ResolvedVehicleFoundAgain(t: Tables, plate: string, vehicleType: string)
    requires ResolveVehicle(t, plate, vehicleType).Ok?
    ensures var r := ResolveVehicle(t, plate, vehicleType).value;
      && FindVehicleByPlate(r.tables.vehicles, plate).Some?
      && r.tables.vehicles[FindVehicleByPlate(r.tables.vehicles, plate).value].id == r.vehicleId
  {
    var r := ResolveVehicle(t, plate, vehicleType).value;
    if FindVehicleByPlate(t.vehicles, plate).None? {
      var w := FindVehicleByPlate(r.tables.vehicles, plate);
      assert r.tables.vehicles[|t.vehicles|].numberPlate == plate;
      assert w.Some? && w.value == |t.vehicles|;
    }
  }

  /** The vehicle an entry resolves has no Active session before the entry. */
  lemma ResolvedVehicleNotParked(t: Tables, plate: string, vehicleType: string)
    requires Consistent(t) && NotParked(t, plate)
    requires ResolveVehicle(t, plate, vehicleType).Ok?
    ensures var vehicleId := ResolveVehicle(t, plate, vehicleType).value.vehicleId;
      forall i :: 0 <= i < |t.sessions| ==> !(t.sessions[i].vehicleId == vehicleId && t.sessions[i].status == Active)
  {
    var vehicleId := ResolveVehicle(t, plate, vehicleType).value.vehicleId;
    if FindVehicleByPlate(t.vehicles, plate).None? {
      forall i | 0 <= i < |t.sessions| ensures t.sessions[i].vehicleId != vehicleId {
        var w :| 0 <= w < |t.vehicles| && t.vehicles[w].id == t.sessions[i].vehicleId;
      }
    }
  }

  /** Exit once its three lookups are known: the fare of the session found,
      and its slot set Available. */
  lemma ExitOfFoundSession(u: Tables, plate: string, later: Time, w: nat, i: nat, k: nat)
    requires FindVehicleByPlate(u.vehicles, plate) == Some(w)
    requires FindActiveSession(u.sessions, u.vehicles[w].id) == Some(i)
    requires FindSlotById(u.slots, u.sessions[i].slotId) == Some(k)
    ensures Exit(u, plate, later).result == Ok(Fare(BillingTypeName(u.sessions[i].billingType), later - u.sessions[i].entryTime))
    ensures Exit(u, plate, later).tables.slots == u.slots[k := u.slots[k].(status := Available)]
  {
  }

  /** A vehicle that is not parked and enters, then exits, pays the fare of
      its stay under the requested billing type, and every slot is back to
      the state it had before the entry. */
  lemma EntryThenExitRestoresSlots(t: Tables, plate: string, vehicleType: string,
                                   billingType: string, preferred: Option<nat>,
                                   now: Time, later: Time)
    requires Consistent(t) && NotParked(t, plate)
    requires Entry(t, plate, vehicleType, billingType, preferred, now).result.Ok?
    ensures var o := Entry(t, plate, vehicleType, billingType, preferred, now);
      var x := Exit(o.tables, plate, later);
      && x.result == Ok(Fare(billingType, later - now))
      && x.tables.slots == t.slots
  {
    ResolvedVehicleNotParked(t, plate, vehicleType);
    EntryThenExitOfUnparkedVehicle(t, plate, vehicleType, billingType, preferred, now, later);
  }

  /** The tables after a successful entry, spelled out: the chosen slot
      Occupied, the resolved vehicles, and one new Active session. */
  lemma EntryOkTables(t: Tables, plate: string, vehicleType: string, billingType: string,
                      preferred: Option<nat>, now: Time)
    requires Entry(t, plate, vehicleType, billingType, preferred, now).result.Ok?
    ensures var r := ResolveVehicle(t, plate, vehicleType);
      && r.Ok? && ParseBillingType(billingType).Some?
      && ChooseSlot(t.slots, AllowedSlotTypes(vehicleType), preferred).Ok?
      && var k := ChooseSlot(t.slots, AllowedSlotTypes(vehicleType), preferred).value;
         var b := ParseBillingType(billingType).value;
         Entry(t, plate, vehicleType, billingType, preferred, now).tables
         == Tables(t.slots[k := t.slots[k].(status := Occupied)], r.value.tables.vehicles,
                   t.sessions + [Session(r.value.tables.nextId, r.value.vehicleId, t.slots[k].id, now, None, Active, b, None)],
                   r.value.tables.nextId + 1)
  {
  }

  /** A session appended for a vehicle with no Active session is the one found for it. */
  lemma AppendedSessionFound(sessions: seq<Session>, s: Session, vehicleId: nat)
    requires forall i :: 0 <= i < |sessions| ==> !(sessions[i].vehicleId == vehicleId && sessions[i].status == Active)
    requires s.vehicleId == vehicleId && s.status == Active
    ensures FindActiveSession(sessions + [s], vehicleId) == Some(|sessions|)
  {
    var all := sessions + [s];
    assert all[|sessions|] == s;
    assert forall i :: 0 <= i < |sessions| ==> all[i] == sessions[i];
    var r := FindActiveSession(all, vehicleId);
    assert r.Some?;
    assert r.value >= |sessions|;
  }

  /** With unique ids, the slot just occupied is still found under its id. */
  lemma OccupiedSlotFound(slots: seq<Slot>, k: nat)
    requires SlotIdsUnique(slots) && k < |slots|
    ensures FindSlotById(slots[k := slots[k].(status := Occupied)], slots[k].id) == Some(k)
  {
    var u := slots[k := slots[k].(status := Occupied)];
    assert forall j :: 0 <= j < |slots| ==> u[j].id == slots[j].id;
    var r := FindSlotById(u, slots[k].id);
    assert u[k].id == slots[k].id;
    assert r.Some? && slots[r.value].id == slots[k].id;
  }

  /** The round trip for any vehicle entry resolves to one with no Active session. */
  lemma {:induction false} EntryThenExitOfUnparkedVehicle(t: Tables, plate: string, vehicleType: string,
                                                          billingType: string, preferred: Option<nat>,
                                                          now: Time, later: Time)
    requires SlotIdsUnique(t.slots)
    requires Entry(t, plate, vehicleType, billingType, preferred, now).result.Ok?
    requires ResolveVehicle(t, plate, vehicleType).Ok?
    requires var vehicleId := ResolveVehicle(t, plate, vehicleType).value.vehicleId;
      forall i :: 0 <= i < |t.sessions| ==> !(t.sessions[i].vehicleId == vehicleId && t.sessions[i].status == Active)
    ensures var o := Entry(t, plate, vehicleType, billingType, preferred, now);
      var x := Exit(o.tables, plate, later);
      && x.result == Ok(Fare(billingType, later - now))
      && x.tables.slots == t.slots
  {
    EntryOkTables(t, plate, vehicleType, billingType, preferred, now);
    ResolvedVehicleFoundAgain(t, plate, vehicleType);
    var u := Entry(t, plate, vehicleType, billingType, preferred, now).tables;
    var vehicleId := ResolveVehicle(t, plate, vehicleType).value.vehicleId;
    var k := ChooseSlot(t.slots, AllowedSlotTypes(vehicleType), preferred).value;
    var w := FindVehicleByPlate(u.vehicles, plate).value;
    assert u.vehicles[w].id == vehicleId;

    AppendedSessionFound(t.sessions, u.sessions[|t.sessions|], vehicleId);
    OccupiedSlotFound(t.slots, k);
    ExitOfFoundSession(u, plate, later, w, |t.sessions|, k);
    assert t.slots[k := t.slots[k].(status := Occupied)][k := t.slots[k]] == t.slots;
  }

  /** One free Regular slot: a car parks on the hourly scheme and leaves two
      and a half hours later; it pays 100 and the slot is Available again. */
  lemma CarParksForTwoAndAHalfHours()
    ensures
      var slot := Slot(0, "A1", Regular, Available, None);
      var t0 := Tables([slot], [], [], 1);
      var entry := Entry(t0, "KA01AB1234", "Car", "hourly", None, 0);
      var exit := Exit(entry.tables, "KA01AB1234", 5 * HourMs / 2);
      && entry.result == Ok(EntryReceipt("A1", 2))
      && exit.result == Ok(100)
      && exit.tables.slots == [slot]
  {
    var slot := Slot(0, "A1", Regular, Available, None);
    var t0 := Tables([slot], [], [], 1);
    var entry := Entry(t0, "KA01AB1234", "Car", "hourly", None, 0);
    assert FirstAvailable(t0.slots, AllowedSlotTypes("Car")) == Some(0);
    EntryThenExitRestoresSlots(t0, "KA01AB1234", "Car", "hourly", None, 0, 5 * HourMs / 2);
    TwoAndAHalfHoursCost100();
  }
}

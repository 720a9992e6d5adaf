/** Vehicle entry and exit: which slot types a vehicle may use, how a slot is
    chosen, the fare, and the effect of entry, exit and search on the tables.
    Each operation is a function from the tables before the request to the
    tables after it and the response; the ParkingLot class performs the same
    steps in place. */
module VehicleController {
  import opened Models
  import opened Seqs
  import opened Clock
  import opened Store

  /** Slot types offered to a requested vehicle type. */
  function AllowedSlotTypes(vehicleType: string): (r: set<SlotType>)
    ensures BikeSlot in r <==> vehicleType == "Bike"
    ensures EVSlot in r <==> vehicleType == "EV"
    ensures HandicapSlot in r <==> vehicleType == "Handicap Accessible"
    ensures Regular in r <==> Compact in r
    ensures Regular in r ==> r == {Regular, Compact}
    ensures r != {}
  {
    if vehicleType == "Bike" then {BikeSlot}
    else if vehicleType == "EV" then {EVSlot}
    else if vehicleType == "Handicap Accessible" then {HandicapSlot}
    else {Regular, Compact}
  }

  /** Slab price for a number of started hours. */
  function HourlyFare(hours: int): (amount: int)
    ensures amount in {50, 100, 150, 200}
  {
    if hours <= 1 then 50
    else if hours <= 3 then 100
    else if hours <= 6 then 150
    else 200
  }

  /** Amount charged at exit for a session of the given billing type. */
  function Fare(billingType: string, durationMs: int): (amount: int)
    ensures billingType == "hourly" ==> amount in {50, 100, 150, 200}
    ensures billingType == "daypass" ==> amount == 150
    ensures billingType != "hourly" && billingType != "daypass" ==> amount == 0
  {
    if billingType == "hourly" then HourlyFare(HoursCeil(durationMs))
    else if billingType == "daypass" then 150
    else 0
  }

  /** The hourly fare by duration: up to 1 hour, up to 3, up to 6, beyond. */
  lemma HourlyFareByDuration(durationMs: int)
    ensures durationMs <= HourMs ==> Fare("hourly", durationMs) == 50
    ensures HourMs < durationMs <= 3 * HourMs ==> Fare("hourly", durationMs) == 100
    ensures 3 * HourMs < durationMs <= 6 * HourMs ==> Fare("hourly", durationMs) == 150
    ensures 6 * HourMs < durationMs ==> Fare("hourly", durationMs) == 200
  {
  }

  /** A longer hourly stay never costs less. */
  lemma FareMonotone(a: int, b: int)
    requires a <= b
    ensures Fare("hourly", a) <= Fare("hourly", b)
  {
    HoursCeilMonotone(a, b);
  }

  /** Two and a half hours on the hourly scheme cost 100. */
  lemma TwoAndAHalfHoursCost100()
    ensures Fare("hourly", 5 * HourMs / 2) == 100
  {
    HourlyFareByDuration(5 * HourMs / 2);
  }

  /** A slot a vehicle may take: an allowed type, and Available. */
  predicate Fits(s: Slot, allowed: set<SlotType>) {
    s.slotType in allowed && s.status == Available
  }

  function FitsIn(allowed: set<SlotType>): Slot -> bool {
    (s: Slot) => Fits(s, allowed)
  }

  /** `ParkingSlot.findOne({ type: { $in: allowed }, status: 'Available' })`. */
  function FirstAvailable(slots: seq<Slot>, allowed: set<SlotType>): (r: Option<nat>)
    ensures r.Some? ==> r.value < |slots| && Fits(slots[r.value], allowed)
    ensures r.Some? ==> forall j :: 0 <= j < r.value ==> !Fits(slots[j], allowed)
    ensures r.None? <==> forall j :: 0 <= j < |slots| ==> !Fits(slots[j], allowed)
  {
    FindFirst(slots, FitsIn(allowed))
  }

  datatype EntryError =
    | InvalidVehicle               // vehicle creation fails schema validation
    | PreferredSlotNotFound
    | PreferredSlotTypeNotAllowed
    | PreferredSlotNotAvailable
    | NoAvailableSlot
    | InvalidBillingType           // session creation fails schema validation

  datatype EntryReceipt = EntryReceipt(slotNumber: string, sessionId: nat)

  datatype EntryOutcome = EntryOutcome(tables: Tables, result: Result<EntryReceipt, EntryError>)

  /** The preferred slot when it is given and acceptable, otherwise the first
      fitting slot; the index of the chosen slot. */
  function ChooseSlot(slots: seq<Slot>, allowed: set<SlotType>, preferred: Option<nat>): (r: Result<nat, EntryError>)
    ensures r.Ok? ==> r.value < |slots| && Fits(slots[r.value], allowed)
    ensures r.Ok? && preferred.Some? ==> slots[r.value].id == preferred.value
    ensures preferred.None? ==> (r.Err? <==> forall j :: 0 <= j < |slots| ==> !Fits(slots[j], allowed))
    ensures r.Ok? && preferred.None? ==> forall j :: 0 <= j < r.value ==> !Fits(slots[j], allowed)
    ensures r.Err? ==> (r.error == NoAvailableSlot <==> preferred.None?)
    ensures r.Err? ==> r.error in {PreferredSlotNotFound, PreferredSlotTypeNotAllowed,
                                   PreferredSlotNotAvailable, NoAvailableSlot}
    ensures preferred.Some? ==> (r == Err(PreferredSlotNotFound) <==> !SlotExists(slots, preferred.value))
    ensures preferred.Some? && FindSlotById(slots, preferred.value).Some? ==>
      var k := FindSlotById(slots, preferred.value).value;
      && (r == Err(PreferredSlotTypeNotAllowed) <==> slots[k].slotType !in allowed)
      && (r == Err(PreferredSlotNotAvailable) <==> slots[k].slotType in allowed && slots[k].status != Available)
      && (r.Ok? <==> Fits(slots[k], allowed))
  {
    match preferred
    case Some(id) =>
      (match FindSlotById(slots, id)
       case None => Err(PreferredSlotNotFound)
       case Some(k) =>
         if slots[k].slotType !in allowed then Err(PreferredSlotTypeNotAllowed)
         else if slots[k].status != Available then Err(PreferredSlotNotAvailable)
         else Ok(k))
    case None =>
      match FirstAvailable(slots, allowed)
      case None => Err(NoAvailableSlot)
      case Some(k) => Ok(k)
  }

  /** With unique slot ids, a preferred slot is refused exactly when it is
      missing, of a type not allowed, or not Available. */
  lemma PreferredSlotRefusal(slots: seq<Slot>, allowed: set<SlotType>, id: nat)
    requires SlotIdsUnique(slots)
    ensures ChooseSlot(slots, allowed, Some(id)).Err? <==>
            (!SlotExists(slots, id) ||
             exists k :: 0 <= k < |slots| && slots[k].id == id && !Fits(slots[k], allowed))
  {
  }

  /** The tables after find-or-create of the vehicle, and the vehicle's id. */
  datatype Resolved = Resolved(tables: Tables, vehicleId: nat)

  /** `Vehicle.findOne({ number_plate })`, then `Vehicle.create` when absent;
      creation fails schema validation for an empty plate or an unknown type. */
  function ResolveVehicle(t: Tables, plate: string, vehicleType: string): (r: Result<Resolved, EntryError>)
    ensures r.Err? ==> r.error == InvalidVehicle
    ensures r.Ok? ==> r.value.tables.slots == t.slots && r.value.tables.sessions == t.sessions
    ensures FindVehicleByPlate(t.vehicles, plate).Some? ==>
              r == Ok(Resolved(t, t.vehicles[FindVehicleByPlate(t.vehicles, plate).value].id))
    ensures FindVehicleByPlate(t.vehicles, plate).None? ==>
              if plate != "" && ParseVehicleType(vehicleType).Some?
              then r == Ok(Resolved(t.(vehicles := t.vehicles + [Vehicle(t.nextId, plate, ParseVehicleType(vehicleType).value)],
                                       nextId := t.nextId + 1), t.nextId))
              else r.Err?
  {
    match FindVehicleByPlate(t.vehicles, plate)
    case Some(v) => Ok(Resolved(t, t.vehicles[v].id))
    case None =>
      match ParseVehicleType(vehicleType)
      case None => Err(InvalidVehicle)
      case Some(vt) =>
        if plate == "" then Err(InvalidVehicle)
        else Ok(Resolved(t.(vehicles := t.vehicles + [Vehicle(t.nextId, plate, vt)], nextId := t.nextId + 1), t.nextId))
  }

  /** The resolved vehicle is stored and carries the requested plate. */
  lemma ResolvedVehicleHasPlate(t: Tables, plate: string, vehicleType: string)
    requires ResolveVehicle(t, plate, vehicleType).Ok?
    ensures var r := ResolveVehicle(t, plate, vehicleType).value;
      exists v :: 0 <= v < |r.tables.vehicles| && r.tables.vehicles[v].id == r.vehicleId
                  && r.tables.vehicles[v].numberPlate == plate
  {
    var r := ResolveVehicle(t, plate, vehicleType).value;
    var found := FindVehicleByPlate(t.vehicles, plate);
    var v := if found.Some? then found.value else |t.vehicles|;
    assert r.tables.vehicles[v].id == r.vehicleId;
  }

  /** `slot.status = 'Occupied'; slot.save()` on the slot at index `k`. */
  function Occupy(t: Tables, k: nat): (r: Tables)
    requires k < |t.slots|
    ensures r.slots == t.slots[k := t.slots[k].(status := Occupied)]
    ensures r.vehicles == t.vehicles && r.sessions == t.sessions && r.nextId == t.nextId
  {
    t.(slots := t.slots[k := t.slots[k].(status := Occupied)])
  }

  /** `ParkingSession.create(...)`: a new Active session under the next fresh id. */
  function OpenSession(t: Tables, vehicleId: nat, slotId: nat, billing: BillingType, now: Time): (r: Tables)
    ensures r.sessions == t.sessions + [Session(t.nextId, vehicleId, slotId, now, None, Active, billing, None)]
    ensures r.slots == t.slots && r.vehicles == t.vehicles && r.nextId == t.nextId + 1
  {
    t.(sessions := t.sessions + [Session(t.nextId, vehicleId, slotId, now, None, Active, billing, None)],
       nextId := t.nextId + 1)
  }

  /** `POST /vehicles/entry`. The vehicle is found or created, a slot is
      chosen, the slot is saved as Occupied, an Active session is created.
      Nothing is rolled back when a later step fails. */
  function Entry(t: Tables, plate: string, vehicleType: string, billingType: string,
                 preferred: Option<nat>, now: Time): EntryOutcome
  {
    match ResolveVehicle(t, plate, vehicleType)
    case Err(e) => EntryOutcome(t, Err(e))
    case Ok(Resolved(t1, vehicleId)) =>
      match ChooseSlot(t1.slots, AllowedSlotTypes(vehicleType), preferred)
      case Err(e) => EntryOutcome(t1, Err(e))
      case Ok(k) =>
        var t2 := Occupy(t1, k);
        match ParseBillingType(billingType)
        case None => EntryOutcome(t2, Err(InvalidBillingType))
        case Some(b) =>
          EntryOutcome(OpenSession(t2, vehicleId, t1.slots[k].id, b, now),
                       Ok(EntryReceipt(t1.slots[k].slotNumber, t2.nextId)))
  }

  /** A vehicle record is added only when no vehicle has the plate, and then
      with the requested plate and type; an existing record is reused as is. */
  lemma EntryVehicleRegistry(t: Tables, plate: string, vehicleType: string, billingType: string,
                             preferred: Option<nat>, now: Time)
    ensures var o := Entry(t, plate, vehicleType, billingType, preferred, now);
      && (FindVehicleByPlate(t.vehicles, plate).Some? ==> o.tables.vehicles == t.vehicles)
      && (FindVehicleByPlate(t.vehicles, plate).None? ==>
            if plate != "" && ParseVehicleType(vehicleType).Some?
            then o.tables.vehicles == t.vehicles + [Vehicle(t.nextId, plate, ParseVehicleType(vehicleType).value)]
            else o == EntryOutcome(t, Err(InvalidVehicle)))
  {
  }

  /** Entry never creates a second vehicle for a plate. */
  lemma EntryKeepsPlatesUnique(t: Tables, plate: string, vehicleType: string, billingType: string,
                               preferred: Option<nat>, now: Time)
    requires PlatesUnique(t.vehicles)
    ensures PlatesUnique(Entry(t, plate, vehicleType, billingType, preferred, now).tables.vehicles)
  {
  }

  /** A refused preferred slot fails the entry with no slot or session changed. */
  lemma EntryRefusedPreferredSlot(t: Tables, plate: string, vehicleType: string, billingType: string,
                                  id: nat, now: Time)
    requires SlotIdsUnique(t.slots)
    requires !SlotExists(t.slots, id) ||
             exists k :: 0 <= k < |t.slots| && t.slots[k].id == id && !Fits(t.slots[k], AllowedSlotTypes(vehicleType))
    ensures var o := Entry(t, plate, vehicleType, billingType, Some(id), now);
      o.result.Err? && o.tables.slots == t.slots && o.tables.sessions == t.sessions
  {
    PreferredSlotRefusal(t.slots, AllowedSlotTypes(vehicleType), id);
  }

  /** Without a preferred slot and with no fitting slot, entry fails with no
      slot or session changed. */
  lemma EntryWithoutFreeSlot(t: Tables, plate: string, vehicleType: string, billingType: string, now: Time)
    requires forall j :: 0 <= j < |t.slots| ==> !Fits(t.slots[j], AllowedSlotTypes(vehicleType))
    ensures var o := Entry(t, plate, vehicleType, billingType, None, now);
      o.result.Err? && o.result.error in {InvalidVehicle, NoAvailableSlot}
      && o.tables.slots == t.slots && o.tables.sessions == t.sessions
  {
  }

  /** A successful entry occupies exactly one fitting slot (the preferred one,
      or else the first fitting one) and appends exactly one Active session
      for a vehicle with the plate, that slot and the requested billing type. */
  lemma EntrySuccess(t: Tables, plate: string, vehicleType: string, billingType: string,
                     preferred: Option<nat>, now: Time)
    ensures var o := Entry(t, plate, vehicleType, billingType, preferred, now);
      var allowed := AllowedSlotTypes(vehicleType);
      o.result.Ok? ==>
        exists k :: 0 <= k < |t.slots| && Fits(t.slots[k], allowed)
          && (preferred.Some? ==> t.slots[k].id == preferred.value)
          && (preferred.None? ==> forall j :: 0 <= j < k ==> !Fits(t.slots[j], allowed))
          && o.tables.slots == t.slots[k := t.slots[k].(status := Occupied)]
          && o.result.value.slotNumber == t.slots[k].slotNumber
          && |o.tables.sessions| == |t.sessions| + 1
          && o.tables.sessions[..|t.sessions|] == t.sessions
          && var s := o.tables.sessions[|t.sessions|];
             && ParseBillingType(billingType).Some?
             && s == Session(o.result.value.sessionId, s.vehicleId, t.slots[k].id, now,
                             None, Active, ParseBillingType(billingType).value, None)
             && exists v :: 0 <= v < |o.tables.vehicles| && o.tables.vehicles[v].id == s.vehicleId
                            && o.tables.vehicles[v].numberPlate == plate
  {
    var o := Entry(t, plate, vehicleType, billingType, preferred, now);
    if o.result.Ok? {
      ResolvedVehicleHasPlate(t, plate, vehicleType);
      var r := ResolveVehicle(t, plate, vehicleType).value;
      var k := ChooseSlot(r.tables.slots, AllowedSlotTypes(vehicleType), preferred).value;
      assert o.tables.sessions[..|t.sessions|] == t.sessions;
      assert o.tables.vehicles == r.tables.vehicles;
      assert o.tables.slots == t.slots[k := t.slots[k].(status := Occupied)];
    }
  }

  /** An unknown billing type fails the entry only after the chosen slot was
      saved as Occupied: the slot stays Occupied and no session is created. */
  lemma EntryInvalidBillingTypeLeavesSlotOccupied(t: Tables, plate: string, vehicleType: string,
                                                  billingType: string, preferred: Option<nat>, now: Time)
    requires ParseBillingType(billingType).None?
    ensures var o := Entry(t, plate, vehicleType, billingType, preferred, now);
      && o.result.Err?
      && o.tables.sessions == t.sessions
      && (o.result.error == InvalidBillingType ==>
            exists k :: 0 <= k < |t.slots| && t.slots[k].status == Available
                        && o.tables.slots == t.slots[k := t.slots[k].(status := Occupied)])
  {
  }

  /** Find-or-create of the vehicle keeps the tables consistent and yields a stored vehicle. */
  lemma ResolvePreservesConsistent(t: Tables, plate: string, vehicleType: string)
    requires Consistent(t)
    requires ResolveVehicle(t, plate, vehicleType).Ok?
    ensures var r := ResolveVehicle(t, plate, vehicleType).value;
      Consistent(r.tables) && VehicleExists(r.tables.vehicles, r.vehicleId)
  {
    ResolvedVehicleHasPlate(t, plate, vehicleType);
    var r := ResolveVehicle(t, plate, vehicleType).value;
    if r.tables != t {
      forall i | 0 <= i < |t.sessions| ensures VehicleExists(r.tables.vehicles, t.sessions[i].vehicleId) {
        var w :| 0 <= w < |t.vehicles| && t.vehicles[w].id == t.sessions[i].vehicleId;
        assert r.tables.vehicles[w].id == t.sessions[i].vehicleId;
      }
    }
  }

  /** Occupying a slot keeps the tables consistent. */
  lemma OccupyPreservesConsistent(t: Tables, k: nat)
    requires Consistent(t) && k < |t.slots|
    ensures Consistent(Occupy(t, k))
    ensures forall id :: SlotExists(t.slots, id) ==> SlotExists(Occupy(t, k).slots, id)
  {
    var t' := Occupy(t, k);
    forall id | SlotExists(t.slots, id) ensures SlotExists(t'.slots, id) {
      var m :| 0 <= m < |t.slots| && t.slots[m].id == id;
      assert t'.slots[m].id == id;
    }
  }

  /** Opening a session on a stored slot for a stored vehicle keeps the tables consistent. */
  lemma OpenSessionPreservesConsistent(t: Tables, vehicleId: nat, slotId: nat, billing: BillingType, now: Time)
    requires Consistent(t)
    requires SlotExists(t.slots, slotId) && VehicleExists(t.vehicles, vehicleId)
    ensures Consistent(OpenSession(t, vehicleId, slotId, billing, now))
  {
  }

  /** Entry keeps the tables consistent. */
  lemma EntryPreservesConsistent(t: Tables, plate: string, vehicleType: string, billingType: string,
                                 preferred: Option<nat>, now: Time)
    requires Consistent(t)
    ensures Consistent(Entry(t, plate, vehicleType, billingType, preferred, now).tables)
  {
    var resolved := ResolveVehicle(t, plate, vehicleType);
    if resolved.Ok? {
      ResolvePreservesConsistent(t, plate, vehicleType);
      var t1, vehicleId := resolved.value.tables, resolved.value.vehicleId;
      var choice := ChooseSlot(t1.slots, AllowedSlotTypes(vehicleType), preferred);
      if choice.Ok? {
        var k := choice.value;
        OccupyPreservesConsistent(t1, k);
        assert SlotExists(t1.slots, t1.slots[k].id);
        var billing := ParseBillingType(billingType);
        if billing.Some? {
          OpenSessionPreservesConsistent(Occupy(t1, k), vehicleId, t1.slots[k].id, billing.value, now);
        }
      }
    }
  }

  datatype ExitError = VehicleNotFound | NoActiveSession | SlotMissing

  datatype ExitOutcome = ExitOutcome(tables: Tables, result: Result<int, ExitError>)

  /** `POST /vehicles/exit`: the first vehicle with the plate, its first
      Active session; the session is completed with exit time and fare, then
      its slot is set Available. The response carries the fare. */
  function Exit(t: Tables, plate: string, now: Time): ExitOutcome {
    match FindVehicleByPlate(t.vehicles, plate)
    case None => ExitOutcome(t, Err(VehicleNotFound))
    case Some(v) =>
      match FindActiveSession(t.sessions, t.vehicles[v].id)
      case None => ExitOutcome(t, Err(NoActiveSession))
      case Some(i) =>
        var s := t.sessions[i];
        var amount := Fare(BillingTypeName(s.billingType), now - s.entryTime);
        var closed := s.(exitTime := Some(now), status := Completed, billingAmount := Some(amount));
        var sessions := t.sessions[i := closed];
        match UpdateSlotStatus(t.slots, s.slotId, Available)
        case None => ExitOutcome(t.(sessions := sessions), Err(SlotMissing))
        case Some(slots) => ExitOutcome(t.(sessions := sessions, slots := slots), Ok(amount))
  }

  /** On consistent tables exit fails exactly when the plate is unknown or
      its vehicle has no Active session, and then changes nothing. */
  lemma ExitFailure(t: Tables, plate: string, now: Time)
    requires Consistent(t)
    ensures var o := Exit(t, plate, now);
      && (o.result.Err? <==>
            (FindVehicleByPlate(t.vehicles, plate).None? ||
             FindActiveSession(t.sessions, t.vehicles[FindVehicleByPlate(t.vehicles, plate).value].id).None?))
      && (o.result.Err? ==> o.tables == t)
  {
    var o := Exit(t, plate, now);
    var v := FindVehicleByPlate(t.vehicles, plate);
    if v.Some? {
      var i := FindActiveSession(t.sessions, t.vehicles[v.value].id);
      if i.Some? {
        assert SlotExists(t.slots, t.sessions[i.value].slotId);
      }
    }
  }

  /** A successful exit completes that vehicle's Active session with the
      exit time and the fare, sets its slot Available, and changes nothing else. */
  lemma ExitSuccess(t: Tables, plate: string, now: Time)
    requires Consistent(t)
    ensures var o := Exit(t, plate, now);
      o.result.Ok? ==>
        exists i :: 0 <= i < |t.sessions| && t.sessions[i].status == Active
          && (exists v :: 0 <= v < |t.vehicles| && t.vehicles[v].numberPlate == plate
                          && t.vehicles[v].id == t.sessions[i].vehicleId)
          && var s := t.sessions[i];
             && o.result.value == Fare(BillingTypeName(s.billingType), now - s.entryTime)
             && o.tables.sessions == t.sessions[i := s.(exitTime := Some(now), status := Completed,
                                                         billingAmount := Some(o.result.value))]
             && |o.tables.slots| == |t.slots|
             && (forall j :: 0 <= j < |t.slots| ==>
                   o.tables.slots[j] == if t.slots[j].id == s.slotId
                                        then t.slots[j].(status := Available) else t.slots[j])
             && o.tables.vehicles == t.vehicles && o.tables.nextId == t.nextId
  {
    var o := Exit(t, plate, now);
    if o.result.Ok? {
      var v := FindVehicleByPlate(t.vehicles, plate).value;
      var i := FindActiveSession(t.sessions, t.vehicles[v].id).value;
      UpdateSlotStatusEffect(t.slots, t.sessions[i].slotId, Available);
    }
  }

  /** The fare returned by exit is one of the listed prices. */
  lemma ExitFareRange(t: Tables, plate: string, now: Time)
    ensures var o := Exit(t, plate, now);
      o.result.Ok? ==> o.result.value in {50, 100, 150, 200}
  {
    var o := Exit(t, plate, now);
    if o.result.Ok? {
      var v := FindVehicleByPlate(t.vehicles, plate).value;
      var i := FindActiveSession(t.sessions, t.vehicles[v].id).value;
      match t.sessions[i].billingType
      case Hourly =>
      case Daypass =>
    }
  }

  /** Completing a session with an exit time and an amount keeps the tables consistent. */
  lemma CompletingPreservesConsistent(t: Tables, i: nat, now: Time, amount: int)
    requires Consistent(t) && i < |t.sessions|
    ensures Consistent(t.(sessions := t.sessions[i := t.sessions[i].(exitTime := Some(now), status := Completed,
                                                                      billingAmount := Some(amount))]))
  {
    var s := t.sessions[i];
    var ss := t.sessions[i := s.(exitTime := Some(now), status := Completed, billingAmount := Some(amount))];
    assert forall j :: 0 <= j < |ss| ==> ss[j].id == t.sessions[j].id && ss[j].slotId == t.sessions[j].slotId
                                         && ss[j].vehicleId == t.sessions[j].vehicleId;
    assert forall j :: 0 <= j < |ss| ==> SessionWellFormed(ss[j]);
  }

  /** Exit keeps the tables consistent. */
  lemma ExitPreservesConsistent(t: Tables, plate: string, now: Time)
    requires Consistent(t)
    ensures Consistent(Exit(t, plate, now).tables)
  {
    var o := Exit(t, plate, now);
    var v := FindVehicleByPlate(t.vehicles, plate);
    if v.Some? {
      var i := FindActiveSession(t.sessions, t.vehicles[v.value].id);
      if i.Some? {
        var s := t.sessions[i.value];
        var amount := Fare(BillingTypeName(s.billingType), now - s.entryTime);
        CompletingPreservesConsistent(t, i.value, now, amount);
        var middle := t.(sessions := t.sessions[i.value := s.(exitTime := Some(now), status := Completed,
                                                               billingAmount := Some(amount))]);
        var freed := UpdateSlotStatus(t.slots, s.slotId, Available);
        if freed.Some? {
          assert o.tables == middle.(slots := freed.value);
          UpdateSlotStatusPreservesConsistent(middle, s.slotId, Available);
        } else {
          assert false;
        }
      } else {
        assert o.tables == t;
      }
    } else {
      assert o.tables == t;
    }
  }

  /** `POST /vehicles/search`: the first stored Active session of the first
      vehicle with the plate, if any; an error when no vehicle has the plate. */
  function Search(t: Tables, plate: string): (r: Result<Option<Session>, ExitError>)
    ensures r.Err? <==> forall j :: 0 <= j < |t.vehicles| ==> t.vehicles[j].numberPlate != plate
    ensures r.Ok? && r.value.Some? ==>
      r.value.value in t.sessions && r.value.value.status == Active
      && exists v :: 0 <= v < |t.vehicles| && t.vehicles[v].numberPlate == plate
                     && t.vehicles[v].id == r.value.value.vehicleId
    ensures r.Ok? && r.value.Some? ==>
      var v := FindVehicleByPlate(t.vehicles, plate).value;
      && r.value.value.vehicleId == t.vehicles[v].id
      && exists i :: 0 <= i < |t.sessions| && t.sessions[i] == r.value.value
                     && forall j :: 0 <= j < i ==>
                          !(t.sessions[j].vehicleId == t.vehicles[v].id && t.sessions[j].status == Active)
    ensures r.Ok? && r.value.None? ==>
      var v := FindVehicleByPlate(t.vehicles, plate).value;
      forall i :: 0 <= i < |t.sessions| ==>
        !(t.sessions[i].vehicleId == t.vehicles[v].id && t.sessions[i].status == Active)
  {
    match FindVehicleByPlate(t.vehicles, plate)
    case None => Err(VehicleNotFound)
    case Some(v) =>
      match FindActiveSession(t.sessions, t.vehicles[v].id)
      case None => Ok(None)
      case Some(i) => Ok(Some(t.sessions[i]))
  }

  /** Nothing stops a parked vehicle from entering again: the same vehicle
      then holds two Active sessions on two slots. */
  lemma ReentryGivesSecondActiveSession()
    ensures
      var slot1 := Slot(0, "R-01", Regular, Available, None);
      var slot2 := Slot(1, "R-02", Regular, Available, None);
      var t0 := Tables([slot1, slot2], [], [], 2);
      var first := Entry(t0, "MH12AB1234", "Car", "hourly", None, 0);
      var second := Entry(first.tables, "MH12AB1234", "Car", "hourly", None, HourMs);
      && second.result.Ok?
      && |second.tables.sessions| == 2
      && second.tables.sessions[0].status == Active && second.tables.sessions[1].status == Active
      && second.tables.sessions[0].vehicleId == second.tables.sessions[1].vehicleId
      && second.tables.sessions[0].slotId != second.tables.sessions[1].slotId
  {
    var slot1 := Slot(0, "R-01", Regular, Available, None);
    var slot2 := Slot(1, "R-02", Regular, Available, None);
    var t0 := Tables([slot1, slot2], [], [], 2);
    var allowed := AllowedSlotTypes("Car");
    assert FindVehicleByPlate(t0.vehicles, "MH12AB1234") == None;
    assert FirstAvailable(t0.slots, allowed) == Some(0);
    var first := Entry(t0, "MH12AB1234", "Car", "hourly", None, 0);
    var car := Vehicle(2, "MH12AB1234", Car);
    assert first.tables.vehicles == [car];
    assert first.tables.slots == [slot1.(status := Occupied), slot2];
    assert first.tables.sessions == [Session(3, 2, 0, 0, None, Active, Hourly, None)];
    assert FindVehicleByPlate(first.tables.vehicles, "MH12AB1234") == Some(0);
    assert !Fits(first.tables.slots[0], allowed) && Fits(first.tables.slots[1], allowed);
    assert FirstAvailable(first.tables.slots, allowed) == Some(1);
  }
}

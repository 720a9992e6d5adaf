/** The records of the parking system: slot, vehicle, parking session and
    billing record, with the enumerations their schemas allow. Times are
    integer milliseconds since the epoch; identifiers are naturals standing
    for database object ids. */
module Models {

  datatype Option<+T> = None | Some(value: T)

  datatype Result<+T, +E> = Ok(value: T) | Err(error: E)

  /** Slot types allowed by the slot schema. */
  datatype SlotType = Regular | Compact | BikeSlot | EVSlot | HandicapSlot

  datatype SlotStatus = Available | Occupied | Maintenance

  /** Vehicle types allowed by the vehicle schema. */
  datatype VehicleType = Car | Bike | EV | HandicapAccessible

  datatype SessionStatus = Active | Completed

  datatype BillingType = Hourly | Daypass

  type Time = int

  datatype Slot = Slot(id: nat, slotNumber: string, slotType: SlotType,
                       status: SlotStatus, location: Option<string>)

  datatype Vehicle = Vehicle(id: nat, numberPlate: string, vehicleType: VehicleType)

  datatype Session = Session(id: nat, vehicleId: nat, slotId: nat,
                             entryTime: Time, exitTime: Option<Time>,
                             status: SessionStatus, billingType: BillingType,
                             billingAmount: Option<int>)

  /** Snapshot of a finished session; `durationHundredths` is the duration
      in hundredths of an hour (the schema's two-decimal `duration_hours`). */
  datatype BillingRecord = BillingRecord(sessionId: nat, vehicleNumber: string,
                                         vehicleType: VehicleType, slotNumber: string,
                                         entryTime: Time, exitTime: Time,
                                         billingType: BillingType, totalAmount: int,
                                         durationHundredths: int, isLate: bool,
                                         createdAt: Time)

  /** The strings the schemas store for each enumeration value. */
  function SlotTypeName(t: SlotType): string {
    match t
    case Regular => "Regular"
    case Compact => "Compact"
    case BikeSlot => "Bike"
    case EVSlot => "EV"
    case HandicapSlot => "Handicap Accessible"
  }

  function VehicleTypeName(t: VehicleType): string {
    match t
    case Car => "Car"
    case Bike => "Bike"
    case EV => "EV"
    case HandicapAccessible => "Handicap Accessible"
  }

  function BillingTypeName(b: BillingType): string {
    match b
    case Hourly => "hourly"
    case Daypass => "daypass"
  }

  /** Mongoose enum validation of a vehicle type string. */
  function ParseVehicleType(s: string): (r: Option<VehicleType>)
    ensures r.Some? ==> VehicleTypeName(r.value) == s
  {
    if s == "Car" then Some(Car)
    else if s == "Bike" then Some(Bike)
    else if s == "EV" then Some(EV)
    else if s == "Handicap Accessible" then Some(HandicapAccessible)
    else None
  }

  /** Mongoose enum validation of a billing type string. */
  function ParseBillingType(s: string): (r: Option<BillingType>)
    ensures r.Some? ==> BillingTypeName(r.value) == s
  {
    if s == "hourly" then Some(Hourly)
    else if s == "daypass" then Some(Daypass)
    else None
  }

  lemma {:induction false} ParseBillingTypeRoundTrip(b: BillingType)
    ensures ParseBillingType(BillingTypeName(b)) == Some(b)
  {
    match b
    case Hourly =>
    case Daypass =>
  }

  lemma {:induction false} ParseVehicleTypeRoundTrip(t: VehicleType)
    ensures ParseVehicleType(VehicleTypeName(t)) == Some(t)
  {
    match t
    case Car =>
    case Bike =>
    case EV =>
    case HandicapAccessible =>
  }
}

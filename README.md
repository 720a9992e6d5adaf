# Mall parking: a Dafny model of the parking controllers

The system runs a mall's car park. Parking slots have a type (Regular,
Compact, Bike, EV, Handicap Accessible) and a status (Available, Occupied,
Maintenance). Vehicles are registered by number plate. A parking session
records a vehicle's stay in a slot, billed hourly or as a day pass. Billing
records are kept for the revenue report and the list of day-pass vehicles
that left after the mall closed at 22:00.

The model covers the server's controllers and two pieces of the React front
end:

- Vehicle entry, exit and search (`backend/controllers/vehicleController.js`).
  These operate on three stored collections: slots, vehicles and sessions.
  - Each request is a function from the tables before it to the tables after
    it, together with the response (`VehicleController.Entry`, `Exit`,
    `Search`).
  - The class `ParkingSystem.ParkingLot` keeps the same collections as fields.
    It performs the same steps in place and is proved to end in exactly the
    state those functions give.
- The billing ledger (`backend/controllers/billingController.js`):
  - how a billing record is built, including the duration in hundredths of an
    hour and the late flag;
  - the paginated listing;
  - the revenue total;
  - the 20 latest late day-pass exits.
- Slot administration and the dashboard figures
  (`backend/controllers/parkingSlotController.js`), and the list of parked
  vehicles (`backend/controllers/parkingSessionController.js`).
- The vehicle entry page (`frontend/src/pages/VehicleEntry.jsx`):
  - the slots it offers;
  - how it resolves a typed slot number;
  - when it refuses to submit.
- The dashboard pager (`frontend/src/components/dashboard/Pagination.jsx`).

Conventions:

- Time is an integer count of milliseconds. A day is `86400000` ms and starts
  at a multiple of it, so 22:00 of the entry day is
  `DayStart(entry) + 22 * 3600000`.
- Money is an integer number of rupees.
- Database ids are natural numbers, handed out from one counter (`nextId`).
- A Mongo query's "first match" is the first element of a sequence in
  insertion order.

## Behaviour worth knowing

- **Exit does not write a billing record.** The exit handler never calls
  `createBillingRecord` (vehicleController.js:71-118). It returns only the
  amount, with no late alert.
  - `ParkingSystem.ExitSessionBillsTheFare` states what a separate
    `createBillingRecord` call would produce on the completed session.
- **A preferred slot must be Available.** A preferred slot is refused unless
  it is Available (vehicleController.js:41-43).
- **Nothing keeps a slot's status in step with its sessions.**
  - A parked vehicle can enter again. `VehicleController.ReentryGivesSecondActiveSession`
    shows the same vehicle holding two Active sessions on two slots.
  - An unknown billing type fails only after the slot was saved Occupied, and
    no session is created (`VehicleController.EntryInvalidBillingTypeLeavesSlotOccupied`).
  - The admin overwrites change a slot's status whatever its sessions are.
  - Exit frees the slot whatever status it has by then
    (`ParkingSystem.ExitFreesTheSlot`).
- **No rollback.** Steps are saved one at a time:
  - a failed entry may already have created the vehicle record;
  - an exit whose slot is missing still leaves the session Completed.

  The "nothing changes on failure" lemmas therefore speak about slots and
  sessions only.
- **Plates are not unique in the schema** (Vehicle.js:4). Entry reuses the
  first vehicle with the plate and never adds a second one
  (`VehicleController.EntryKeepsPlatesUnique`).

## Model

| member | source | states |
|---|---|---|
| Models.ParseVehicleType | backend/models/Vehicle.js:5 | a vehicle type string is accepted only if it is one of the schema's names, and then it maps back to that name |
| Models.ParseVehicleTypeRoundTrip | backend/models/Vehicle.js:5 | every vehicle type's stored name validates back to that type |
| Models.ParseBillingType | backend/models/ParkingSession.js:9 | a billing type string is accepted only as "hourly" or "daypass", and the result maps back to it |
| Models.ParseBillingTypeRoundTrip | backend/models/ParkingSession.js:9 | every billing type's stored name validates back to that type |
| Clock.HoursCeil | backend/controllers/vehicleController.js:88-89 | the result is the number of started hours of a duration: the duration is above `h-1` hours and at most `h` hours |
| Clock.HoursCeilMonotone | backend/controllers/vehicleController.js:89 | a longer duration never has fewer started hours |
| Clock.DayStart | backend/controllers/billingController.js:16-17 | the start of day lies at or before the instant, less than one day earlier, on a day boundary |
| Clock.ClosingTime | backend/controllers/billingController.js:16-17 | closing time is 22:00 of the instant's own day |
| Clock.DayStartOf | backend/controllers/billingController.js:16-17 | every instant of day `k` has day `k`'s start |
| Store.FindSlotById | backend/controllers/vehicleController.js:32 | finds a slot carrying the id, and finds nothing exactly when no slot carries it |
| Store.FindVehicleByPlate | backend/controllers/vehicleController.js:9 | finds the first vehicle with the plate, and finds nothing exactly when no vehicle has it |
| Store.FindActiveSession | backend/controllers/vehicleController.js:78 | finds the first Active session of the vehicle, and finds nothing exactly when it has none |
| Store.UpdateSlotStatus | backend/controllers/parkingSlotController.js:7 | the update succeeds exactly when some slot carries the id |
| Store.UpdateSlotStatusEffect | backend/controllers/parkingSlotController.js:7 | with unique ids, only the slot with that id gets the new status; all other slots are unchanged |
| Store.UpdateSlotStatusKeepsIds | backend/controllers/parkingSlotController.js:7 | the overwrite keeps every slot's id where it was, so every later lookup by id agrees |
| Store.UpdateSlotStatusIdempotent | backend/controllers/parkingSlotController.js:18 | writing the same status twice equals writing it once |
| Store.UpdateSlotStatusPreservesConsistent | backend/controllers/parkingSlotController.js:4-24 | a status overwrite keeps the tables consistent: ids unique, sessions refer to stored slots and vehicles, exit data present exactly on Completed sessions |
| VehicleController.AllowedSlotTypes | backend/controllers/vehicleController.js:14-27 | Bike, EV and Handicap Accessible vehicles get only their own slot type; any other requested type gets Regular and Compact |
| VehicleController.HourlyFare | backend/controllers/vehicleController.js:92-100 | the slab price is one of 50, 100, 150 and 200 |
| VehicleController.Fare | backend/controllers/vehicleController.js:84-103 | an hourly fare is a slab price, a day pass costs 150, and any other billing type costs 0 |
| VehicleController.HourlyFareByDuration | backend/controllers/vehicleController.js:86-100 | hourly prices: up to 1 hour 50, up to 3 hours 100, up to 6 hours 150, beyond that 200 |
| VehicleController.FareMonotone | backend/controllers/vehicleController.js:88-100 | a longer hourly stay never costs less |
| VehicleController.TwoAndAHalfHoursCost100 | backend/controllers/vehicleController.js:88-100 | two and a half hours on the hourly scheme cost 100 |
| VehicleController.FirstAvailable | backend/controllers/vehicleController.js:45 | returns the first Available slot of an allowed type, and nothing exactly when there is none |
| VehicleController.ChooseSlot | backend/controllers/vehicleController.js:29-49 | the chosen slot is Available and of an allowed type; it is the preferred one when a preference is given, else the first such slot; a preference is refused as not found exactly when no slot has the id, as of the wrong type exactly when the slot found has a type not allowed, as not available exactly when its type is allowed but it is not Available; only an automatic choice can fail for lack of a free slot |
| VehicleController.PreferredSlotRefusal | backend/controllers/vehicleController.js:31-43 | a preferred slot is refused exactly when it is missing, of a type not allowed, or not Available |
| VehicleController.ResolveVehicle | backend/controllers/vehicleController.js:9-12 | an existing vehicle with the plate is reused unchanged; otherwise one is created under a fresh id, or the request fails schema validation for an empty plate or an unknown type |
| VehicleController.ResolvedVehicleHasPlate | backend/controllers/vehicleController.js:9-12 | the vehicle entry resolves is stored and carries the requested plate |
| VehicleController.Occupy | backend/controllers/vehicleController.js:51-52 | only the chosen slot becomes Occupied |
| VehicleController.OpenSession | backend/controllers/vehicleController.js:54-58 | exactly one Active session is appended, with no exit data, under a fresh id |
| VehicleController.Entry | backend/controllers/vehicleController.js:5-68 | the entry operation on the tables; what it does is stated by EntrySuccess, EntryOkTables, EntryVehicleRegistry, EntryRefusedPreferredSlot, EntryWithoutFreeSlot, EntryInvalidBillingTypeLeavesSlotOccupied and EntryPreservesConsistent |
| VehicleController.EntryVehicleRegistry | backend/controllers/vehicleController.js:9-12 | entry adds a vehicle exactly when none has the plate and the request is valid, and reuses an existing record as it is |
| VehicleController.EntryKeepsPlatesUnique | backend/controllers/vehicleController.js:9-12 | if plates were unique before, they stay unique after any entry |
| VehicleController.EntryRefusedPreferredSlot | backend/controllers/vehicleController.js:31-43 | a refused preferred slot fails the entry and changes no slot and no session |
| VehicleController.EntryWithoutFreeSlot | backend/controllers/vehicleController.js:44-49 | with no fitting slot, an automatic entry fails and changes no slot and no session |
| VehicleController.EntrySuccess | backend/controllers/vehicleController.js:5-64 | a successful entry occupies exactly one fitting slot (the preferred one, or the first fitting one) and appends one Active session for a vehicle with the plate; it reports that slot's number and the session id |
| VehicleController.EntryInvalidBillingTypeLeavesSlotOccupied | backend/controllers/vehicleController.js:51-58 | with an unknown billing type the entry fails with no new session, yet the slot it chose stays Occupied |
| VehicleController.ResolvePreservesConsistent | backend/controllers/vehicleController.js:9-12 | find-or-create keeps the tables consistent and yields a stored vehicle |
| VehicleController.OccupyPreservesConsistent | backend/controllers/vehicleController.js:51-52 | occupying a slot keeps the tables consistent and loses no slot |
| VehicleController.OpenSessionPreservesConsistent | backend/controllers/vehicleController.js:54-58 | a session on a stored slot for a stored vehicle keeps the tables consistent |
| VehicleController.EntryPreservesConsistent | backend/controllers/vehicleController.js:5-68 | every entry, whether it succeeds or fails, leaves consistent tables consistent |
| VehicleController.Exit | backend/controllers/vehicleController.js:71-118 | the exit operation on the tables; what it does is stated by ExitFailure, ExitSuccess, ExitFareRange and ExitPreservesConsistent |
| VehicleController.ExitFailure | backend/controllers/vehicleController.js:75-79 | exit fails exactly when the plate is unknown or its vehicle has no Active session, and then changes nothing |
| VehicleController.ExitSuccess | backend/controllers/vehicleController.js:71-114 | a successful exit completes that vehicle's Active session with the exit time and the fare for its billing type and duration, frees its slot, and changes nothing else |
| VehicleController.ExitFareRange | backend/controllers/vehicleController.js:84-106 | the amount exit returns is one of 50, 100, 150 and 200 |
| VehicleController.CompletingPreservesConsistent | backend/controllers/vehicleController.js:81-106 | closing one session (exit time, status Completed, billed amount) leaves consistent tables consistent |
| VehicleController.ExitPreservesConsistent | backend/controllers/vehicleController.js:71-110 | exit leaves consistent tables consistent |
| VehicleController.Search | backend/controllers/vehicleController.js:121-132 | fails exactly when no vehicle has the plate; any session it returns is the first stored Active session of the first vehicle with the plate; it returns none only when that vehicle has no Active session |
| VehicleController.ReentryGivesSecondActiveSession | backend/controllers/vehicleController.js:5-64 | a parked car entering again succeeds, leaving one vehicle with two Active sessions on two slots |
| BillingController.DurationHundredths | backend/controllers/billingController.js:8-9 | the recorded duration is the stay in hours rounded to the nearest hundredth, creeping no more than half a hundredth either way |
| BillingController.DurationOfWholeHours | backend/controllers/billingController.js:8-9 | a stay of `n` whole hours is recorded as exactly `n` hours |
| BillingController.DurationMonotone | backend/controllers/billingController.js:8-9 | a longer stay never records a shorter duration |
| BillingController.IsLate | backend/controllers/billingController.js:11-20 | the late rule, stated by LateWhenExitOnLaterDay (a day pass leaving on a later day is late, an hourly stay never is) and NotLateBeforeClosing (a same-day exit by 22:00 is not late) |
| BillingController.LateHours | backend/controllers/billingController.js:21 | a late exit is at least one started hour late, and the count is the started hours past 22:00 |
| BillingController.LateWhenExitOnLaterDay | backend/controllers/billingController.js:11-20 | on a day pass, leaving on a later day is late; an hourly session is never late |
| BillingController.NotLateBeforeClosing | backend/controllers/billingController.js:11-20 | leaving on the entry day no later than 22:00 is never late |
| BillingController.LateByTwoHours | backend/controllers/billingController.js:11-21 | on a day pass, entering at 20:00 and leaving at 23:30 is late by two started hours |
| BillingController.MakeRecord | backend/controllers/billingController.js:4-37 | given the session's own vehicle and slot, a record is refused exactly when the session has no exit time; otherwise it copies the session's id, times and billing type, the vehicle's plate and type, the slot's number and the amount, records the stay rounded to the hundredth of an hour, and sets the late flag exactly when the day-pass late rule holds |
| BillingController.LateRecordIsDaypass | backend/controllers/billingController.js:11-24 | only day-pass records are flagged late, at least one started hour after closing |
| BillingController.Ledger.CreateBillingRecord | backend/controllers/billingController.js:4-46 | the method builds the record step by step and returns what `MakeRecord` gives; it appends a valid record to the ledger, raising revenue by its amount, and saves nothing on error |
| BillingController.LimitCount | backend/controllers/billingController.js:55 | a limit of 0 lets every record through; any other limit lets through its absolute value |
| BillingController.SkipCount | backend/controllers/billingController.js:50-51 | the records a page skips, `(page - 1) * limit` with defaults 1 and 10; ListRecords fails exactly when it is negative and RecordOnItsPage shows each record lies on the page it selects |
| BillingController.ListRecords | backend/controllers/billingController.js:48-71 | a negative skip is an error; otherwise the page is the `limit` records that follow `skip` in the order of latest exit first, with `total` counting every record |
| BillingController.RecordOnItsPage | backend/controllers/billingController.js:50-56 | with a positive page size, the `i`-th record of the sorted listing appears on page `i / limit + 1` at position `i % limit` |
| BillingController.TotalRevenue | backend/controllers/billingController.js:73-94 | the sum of all record amounts, 0 for none; RevenueAfterRecord and RevenueNonNegative state how it moves and that it is never negative |
| BillingController.RevenueAfterRecord | backend/controllers/billingController.js:73-86 | saving a record raises the revenue total by exactly its amount |
| BillingController.RevenueNonNegative | backend/controllers/billingController.js:73-86 | revenue over amounts that are never negative is never negative (0 with no records) |
| BillingController.LateVehicles | backend/controllers/billingController.js:96-103 | the first min(20, n) of the n late day-pass records, latest exit first, each listed no more often than it is stored; any late record left out exits no later than every record listed |
| SessionController.ActiveSessions | backend/controllers/parkingSessionController.js:3-13 | exactly the Active sessions, each as often as stored, latest entry first |
| SessionController.ActiveSessionsAfterAppend | backend/controllers/parkingSessionController.js:5-8 | a new Active session joins the list; any other new session leaves it unchanged |
| SlotController.GetSlots | backend/controllers/parkingSlotController.js:26-37 | all slots when no type is asked for; otherwise exactly the slots of the named type, none listed more often than it is stored, and none for an unknown name |
| SlotController.CountStatus | backend/controllers/parkingSlotController.js:48-50 | the number of slots with a status; StatusCountsAddUp and CountStatusAfterUpdate state that the three counts cover every slot and how an overwrite moves one |
| SlotController.StatusCountsAddUp | backend/controllers/parkingSlotController.js:47-50 | the Available, Occupied and Maintenance counts add up to the total |
| SlotController.CountStatusAfterUpdate | backend/controllers/parkingSlotController.js:48-50 | overwriting one slot's status moves it from its old status count to its new one |
| SlotController.SlotsByType | backend/controllers/parkingSlotController.js:66-73 | the per-type slot breakdown; SlotsByTypeCounts, SlotsByTypeBalanced and SlotsByTypeTotals state its entries and counts |
| SlotController.SlotsByTypeCounts | backend/controllers/parkingSlotController.js:66-73 | a type has an entry exactly when some slot has that type; its total and per-status counts equal the numbers of such slots |
| SlotController.SlotsByTypeBalanced | backend/controllers/parkingSlotController.js:66-73 | each type's total is the sum of its three status counts |
| SlotController.SlotsByTypeTotals | backend/controllers/parkingSlotController.js:66-73 | the per-type totals add up to the number of slots |
| SlotController.VehiclesByType | backend/controllers/parkingSlotController.js:56-64 | the per-type vehicle breakdown; VehiclesByTypeCounts and VehiclesByTypeTotals state its entries and counts |
| SlotController.VehiclesByTypeCounts | backend/controllers/parkingSlotController.js:56-64 | a type has an entry exactly when some vehicle has it, and its count is the number of such vehicles |
| SlotController.VehiclesByTypeTotals | backend/controllers/parkingSlotController.js:56-64 | the per-type vehicle counts add up to the number of vehicles |
| SlotController.RecentSessions | backend/controllers/parkingSlotController.js:75-79 | min(10, n) of the n Completed sessions, latest exit first, each listed no more often than it is stored; any Completed session left out exited no later than every one listed |
| SlotController.Dashboard | backend/controllers/parkingSlotController.js:38-100 | slot figures cover the requested type: the three status figures are the numbers of such slots with that status and the by-type breakdown is the fold over them (so `SlotsByTypeCounts` applies); the vehicle breakdown is the fold over all vehicles (so `VehiclesByTypeCounts` applies); the active details hold exactly the Active sessions; the recent list is the 10 latest completed |
| VehicleEntryPage.PageAllowedTypes | frontend/src/pages/VehicleEntry.jsx:32-36 | the slot types the page offers for a vehicle type; PageMappingMatchesServer shows they are the server's |
| VehicleEntryPage.PageMappingMatchesServer | frontend/src/pages/VehicleEntry.jsx:31-37 | the page's slot types per vehicle type are the server's |
| VehicleEntryPage.GetAvailableSlots | frontend/src/pages/VehicleEntry.jsx:31-41 | the page offers exactly the Available slots of an allowed type |
| VehicleEntryPage.AvailableSlotsInOrder | frontend/src/pages/VehicleEntry.jsx:38-40 | the offered slots keep the order of the slot list |
| VehicleEntryPage.AvailableSlotsMatchServerChoice | frontend/src/pages/VehicleEntry.jsx:31-41 | the page offers a slot exactly when the server's automatic choice finds one, and lists the server's pick first |
| VehicleEntryPage.LowerChar | frontend/src/pages/VehicleEntry.jsx:27 | upper-case ASCII letters map to lower case and every other character is unchanged |
| VehicleEntryPage.Lower | frontend/src/pages/VehicleEntry.jsx:27 | lower-casing preserves length and works character by character |
| VehicleEntryPage.LowerIdempotent | frontend/src/pages/VehicleEntry.jsx:27 | lower-casing twice is lower-casing once |
| VehicleEntryPage.GetPreferredSlotId | frontend/src/pages/VehicleEntry.jsx:25-29 | no preference when nothing is typed; otherwise the id of the first slot whose number matches ignoring case, or none when no number matches |
| VehicleEntryPage.SubmitAborted | frontend/src/pages/VehicleEntry.jsx:46-52 | the page's refusal to send; SubmitAbortedExactly states when it happens |
| VehicleEntryPage.SubmitAbortedExactly | frontend/src/pages/VehicleEntry.jsx:46-52 | the page aborts exactly when a typed number matches no slot, and a request it sends carries a preference exactly when one was typed |
| VehicleEntryPage.SubmitDisabled | frontend/src/pages/VehicleEntry.jsx:206 | the submit button's disabled state; SubmitDisabledOnlyWhenEntryMustFail states that it blocks only entries that must fail |
| VehicleEntryPage.SubmitDisabledOnlyWhenEntryMustFail | frontend/src/pages/VehicleEntry.jsx:206 | if the page's slots are the stored ones, the idle button is disabled only when every entry of that vehicle type would fail and change no slot |
| VehicleEntryPage.AutoEntryTakesFirstListedSlot | frontend/src/pages/VehicleEntry.jsx:55-60 | an automatic entry from the page parks in the first slot the page listed |
| VehicleEntryPage.PreferredEntryTargetsTypedSlot | frontend/src/pages/VehicleEntry.jsx:46-60 | an entry with the page's preferred slot is never refused as missing, and succeeds only on the slot whose number was typed |
| Pagination.CeilDiv | frontend/src/components/dashboard/SlotsOverview.jsx:11 | the page count is the smallest number of pages that holds every item |
| Pagination.Render | frontend/src/components/dashboard/Pagination.jsx:3-56 | no pager for one page or fewer; the shown range starts at the first item of the current page and ends at the page's end or at the last item; Previous is disabled exactly on page 1 and Next exactly on the last page; there is one button per page and only the current one is highlighted |
| Pagination.RangeWithinItems | frontend/src/components/dashboard/Pagination.jsx:6-7 | on any page the shown range is non-empty, lies within 1..totalItems and is at most one page long |
| Pagination.PagesTile | frontend/src/components/dashboard/Pagination.jsx:6-7 | each page starts right after the previous one ends, and the last page ends at the last item |
| ParkingSystem.ParkingLot.FindOrCreateVehicle | backend/controllers/vehicleController.js:9-12 | the stored vehicles change as find-or-create prescribes; the method returns that vehicle's id or the validation error |
| ParkingSystem.ParkingLot.PickSlot | backend/controllers/vehicleController.js:29-49 | runs the preferred-slot checks in the source's order (exists, allowed type, Available), or else the automatic search, on the stored slots, and returns exactly the choice the entry rule prescribes; it changes nothing |
| ParkingSystem.ParkingLot.VehicleEntry | backend/controllers/vehicleController.js:5-68 | the stored collections and the response end up exactly as entry prescribes, and the tables stay consistent |
| ParkingSystem.ParkingLot.VehicleExit | backend/controllers/vehicleController.js:71-118 | the stored collections and the response end up exactly as exit prescribes, and the tables stay consistent |
| ParkingSystem.ParkingLot.EnterSteps | backend/controllers/vehicleController.js:9-64 | finds or creates the vehicle, picks the slot, marks it Occupied and appends the new session in the source's order, so that the stored collections and the response are exactly what entry prescribes |
| ParkingSystem.ParkingLot.ExitSteps | backend/controllers/vehicleController.js:73-114 | looks up the vehicle and its Active session, closes the session with the fare, then frees the slot, so that the stored collections and the response are exactly what exit prescribes |
| ParkingSystem.ParkingLot.SearchVehicle | backend/controllers/vehicleController.js:121-132 | returns the search result and changes nothing; it fails exactly when no stored vehicle has the plate |
| ParkingSystem.ParkingLot.SetSlotStatus | backend/controllers/parkingSlotController.js:4-24 | reports found exactly when some slot has the id; then only that slot's status changes; nothing changes otherwise |
| ParkingSystem.ParkingLot.SetSlotMaintenance | backend/controllers/parkingSlotController.js:4-13 | the slot with the id becomes Maintenance, whether or not it is occupied; it reports not found when no slot has the id |
| ParkingSystem.ParkingLot.SetSlotAvailable | backend/controllers/parkingSlotController.js:15-24 | the slot with the id becomes Available, whether or not it is occupied; it reports not found when no slot has the id |
| ParkingSystem.ExitSessionBillsTheFare | backend/controllers/billingController.js:4-37 | the session a successful exit completes, populated with the stored vehicle that has the plate and the stored slot it occupied, yields a valid billing record carrying that plate, that slot's number, the session's id and entry time, the exit instant as exit time and the fare exit returned as amount |
| ParkingSystem.EntryListsNewSession | backend/controllers/parkingSessionController.js:5-8 | a successful entry adds exactly its new session to the list of parked vehicles |
| ParkingSystem.ExitUnlistsSession | backend/controllers/parkingSessionController.js:5-8 | a successful exit removes exactly the completed session from the list of parked vehicles |
| ParkingSystem.EntryMovesOneSlotToOccupied | backend/controllers/parkingSlotController.js:47-50 | after a successful entry the dashboard shows one Available slot fewer, one Occupied slot more, and the same Maintenance count |
| ParkingSystem.ExitFreesTheSlot | backend/controllers/vehicleController.js:108-109 | a successful exit makes its slot Available whatever status it had, so the Available count rises by one unless the slot was already Available |
| ParkingSystem.EntryThenExitRestoresSlots | backend/controllers/vehicleController.js:5-118 | a vehicle that was not parked enters and then exits: it pays the fare of its stay under the requested billing type, and every slot is back as it was before the entry |
| ParkingSystem.EntryOkTables | backend/controllers/vehicleController.js:9-58 | a successful entry resolved the vehicle, parsed the billing type and chose a slot; its tables are then the resolved vehicles, that slot Occupied, and one new Active session appended |
| ParkingSystem.ExitOfFoundSession | backend/controllers/vehicleController.js:75-114 | when the plate, its Active session and that session's slot are all found, exit returns the session's fare and sets exactly that slot to Available |
| ParkingSystem.EntryThenExitOfUnparkedVehicle | backend/controllers/vehicleController.js:5-118 | with unique slot ids, a vehicle with no Active session that enters and then exits pays the fare of its stay, and every slot is back as it was |
| ParkingSystem.CarParksForTwoAndAHalfHours | backend/controllers/vehicleController.js:5-118 | with one free Regular slot, a car on the hourly scheme parks there, leaves 2.5 hours later, pays 100, and the slot is Available again |

## Left out

- HTTP transport: Express routing, status codes, JSON shapes and message texts. Errors are named values and responses carry only their data fields.
- The `catch` branches that answer 500 on a database failure. Database calls are modelled as always succeeding, except for the schema validations the code relies on.
- Persistence: MongoDB, Mongoose's `populate`, ObjectIds and indexes.
  - Ids are natural numbers from one counter.
  - A populated reference is the record with that id.
  - The unique index on `slot_number` is not modelled; the model requires unique slot ids, not unique slot numbers.
- Concurrency: requests run one at a time, atomically at each step, as the functions describe.
- Time zones and daylight saving: days are fixed 24-hour blocks of integer milliseconds. The clock is a parameter (`now`).
- Floating point:
  - `toFixed(2)` is modelled as integer hundredths of an hour;
  - `Math.ceil` as integer ceiling division;
  - sums of amounts as integer sums.
- The `console.log` admin alert. `BillingController.LateHours` gives the hours it would print.
- Request parameters of the wrong JavaScript type, such as NaN, strings for `page` and `limit`, or a malformed `preferred_slot_id` that a cast rejects. `page` and `limit` are optional integers.
- Timestamps:
  - the Billing schema's `updatedAt` is not modelled;
  - `createdAt` is taken as a parameter;
  - the slot `location` is carried but never read.
- `toLowerCase` only folds the ASCII letters A to Z.
- The order of ties in the sorts: MongoDB does not fix it. The model sorts stably and states only that the result is sorted and holds the right records.
- SlotController.RecentSessions: sorts a Completed session without an exit time as exit time 0. Consistent tables contain no such session.
- SlotController.SlotsByTypeCounts: the dashboard's per-type map is keyed by slot type, not by the type's string name.
- Front-end state and effects: React state, toasts, fetching, the 30-second refresh, the loading flag's lifecycle and the 12-slot preview. The page's slot list is a parameter, assumed equal to the stored slots where a lemma says so.
- `frontend/src/components/Pagination.jsx`: a second pager with the same page arithmetic, not part of this model.

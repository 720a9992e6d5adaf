/** The vehicle entry page: the slots it offers for the selected vehicle
    type, the preferred slot it resolves from a typed slot number, and the
    guards that keep a request from being sent. The page's `slots` are the
    stored slots as last fetched. */
module VehicleEntryPage {
  import opened Models
  import opened Seqs
  import opened Store
  import opened VehicleController

  /** The page's own `allowedTypes` array for the selected vehicle type. */
  function PageAllowedTypes(vehicleType: string): seq<SlotType> {
    if vehicleType == "Bike" then [BikeSlot]
    else if vehicleType == "EV" then [EVSlot]
    else if vehicleType == "Handicap Accessible" then [HandicapSlot]
    else [Regular, Compact]
  }

  /** The page repeats the server's mapping from vehicle type to slot types. */
  lemma PageMappingMatchesServer(vehicleType: string)
    ensures forall t :: t in PageAllowedTypes(vehicleType) <==> t in AllowedSlotTypes(vehicleType)
  {
  }

  function Offered(vehicleType: string): Slot -> bool {
    (s: Slot) => s.slotType in PageAllowedTypes(vehicleType) && s.status == Available
  }

  /** `getAvailableSlots`: the Available slots of an allowed type, in the
      order the page holds them. */
  function GetAvailableSlots(slots: seq<Slot>, vehicleType: string): (r: seq<Slot>)
    ensures forall s :: s in r <==> s in slots && Fits(s, AllowedSlotTypes(vehicleType))
    ensures |r| <= |slots|
  {
    PageMappingMatchesServer(vehicleType);
    Filter(slots, Offered(vehicleType))
  }

  /** The offered slots of two lists joined are those of each list, in order. */
  lemma AvailableSlotsInOrder(a: seq<Slot>, b: seq<Slot>, vehicleType: string)
    ensures GetAvailableSlots(a + b, vehicleType) == GetAvailableSlots(a, vehicleType) + GetAvailableSlots(b, vehicleType)
  {
    FilterAppend(a, b, Offered(vehicleType));
  }

  /** The page offers a slot exactly when the server's automatic choice
      finds one, and the first slot offered is the one the server picks. */
  lemma AvailableSlotsMatchServerChoice(slots: seq<Slot>, vehicleType: string)
    ensures var allowed := AllowedSlotTypes(vehicleType);
      && (GetAvailableSlots(slots, vehicleType) != [] <==> FirstAvailable(slots, allowed).Some?)
      && (GetAvailableSlots(slots, vehicleType) != [] ==>
            GetAvailableSlots(slots, vehicleType)[0] == slots[FirstAvailable(slots, allowed).value])
  {
    PageMappingMatchesServer(vehicleType);
    FilterHeadIsFindFirst(slots, Offered(vehicleType));
    FindFirstAgree(slots, Offered(vehicleType), slots, FitsIn(AllowedSlotTypes(vehicleType)));
  }

  /** `toLowerCase` on one character, for the letters A to Z. */
  function LowerChar(c: char): (d: char)
    ensures 'A' <= c <= 'Z' ==> 'a' <= d <= 'z' && d as int == c as int + 32
    ensures !('A' <= c <= 'Z') ==> d == c
  {
    if 'A' <= c <= 'Z' then (c as int + 32) as char else c
  }

  function Lower(s: string): (r: string)
    ensures |r| == |s|
    ensures forall i :: 0 <= i < |s| ==> r[i] == LowerChar(s[i])
  {
    if s == [] then [] else [LowerChar(s[0])] + Lower(s[1..])
  }

  /** Lower-casing twice is lower-casing once. */
  lemma LowerIdempotent(s: string)
    ensures Lower(Lower(s)) == Lower(s)
  {
  }

  function MatchesNumber(overrideSlot: string): Slot -> bool {
    (s: Slot) => Lower(s.slotNumber) == Lower(overrideSlot)
  }

  /** `getPreferredSlotId`: no preference for an empty entry, otherwise the
      id of the first slot whose number matches ignoring case, or none. The
      slot's type and status are not looked at. */
  function GetPreferredSlotId(slots: seq<Slot>, overrideSlot: string): (r: Option<nat>)
    ensures overrideSlot == "" ==> r.None?
    ensures r.Some? ==>
      exists k :: 0 <= k < |slots| && slots[k].id == r.value
                  && Lower(slots[k].slotNumber) == Lower(overrideSlot)
                  && forall j :: 0 <= j < k ==> Lower(slots[j].slotNumber) != Lower(overrideSlot)
    ensures overrideSlot != "" && r.None? ==>
      forall k :: 0 <= k < |slots| ==> Lower(slots[k].slotNumber) != Lower(overrideSlot)
  {
    if overrideSlot == "" then None
    else match FindFirst(slots, MatchesNumber(overrideSlot))
      case None => None
      case Some(k) => Some(slots[k].id)
  }

  /** `overrideSlot && !preferred_slot_id`: the page refuses to send the entry. */
  predicate SubmitAborted(slots: seq<Slot>, overrideSlot: string) {
    overrideSlot != "" && GetPreferredSlotId(slots, overrideSlot).None?
  }

  /** The page aborts exactly when a typed slot number matches no slot, and a
      request it sends carries a preference exactly when one was typed. */
  lemma SubmitAbortedExactly(slots: seq<Slot>, overrideSlot: string)
    ensures SubmitAborted(slots, overrideSlot) <==>
            overrideSlot != "" && forall k :: 0 <= k < |slots| ==> Lower(slots[k].slotNumber) != Lower(overrideSlot)
    ensures !SubmitAborted(slots, overrideSlot) ==>
            (GetPreferredSlotId(slots, overrideSlot).Some? <==> overrideSlot != "")
  {
    if overrideSlot != "" {
      match FindFirst(slots, MatchesNumber(overrideSlot))
      case None =>
      case Some(k) =>
    }
  }

  /** The submit button's `disabled`. */
  predicate SubmitDisabled(loading: bool, slots: seq<Slot>, vehicleType: string) {
    loading || |GetAvailableSlots(slots, vehicleType)| == 0
  }

  /** When the page's slots are the stored ones, the button is disabled (while
      idle) only when every entry of that vehicle type would be refused:
      automatic choice finds nothing and any preferred slot is refused. */
  lemma SubmitDisabledOnlyWhenEntryMustFail(t: Tables, vehicleType: string, plate: string,
                                            billingType: string, preferred: Option<nat>, now: Time)
    requires SlotIdsUnique(t.slots)
    requires SubmitDisabled(false, t.slots, vehicleType)
    ensures Entry(t, plate, vehicleType, billingType, preferred, now).result.Err?
    ensures Entry(t, plate, vehicleType, billingType, preferred, now).tables.slots == t.slots
  {
    var allowed := AllowedSlotTypes(vehicleType);
    AvailableSlotsMatchServerChoice(t.slots, vehicleType);
    if preferred.Some? {
      PreferredSlotRefusal(t.slots, allowed, preferred.value);
      var found := FindSlotById(t.slots, preferred.value);
      if found.Some? {
        assert !Fits(t.slots[found.value], allowed);
      }
    }
  }

  /** An automatic entry sent from the page parks the vehicle in the first
      slot the page listed. */
  lemma AutoEntryTakesFirstListedSlot(t: Tables, vehicleType: string, plate: string,
                                      billingType: string, now: Time)
    ensures var o := Entry(t, plate, vehicleType, billingType, None, now);
      o.result.Ok? ==> GetAvailableSlots(t.slots, vehicleType) != []
                       && o.result.value.slotNumber == GetAvailableSlots(t.slots, vehicleType)[0].slotNumber
  {
    AvailableSlotsMatchServerChoice(t.slots, vehicleType);
    EntrySuccess(t, plate, vehicleType, billingType, None, now);
  }

  /** With unique slot ids, an entry sent with the page's preferred slot is
      never refused as missing, and succeeds only on the slot whose number
      was typed. */
  lemma PreferredEntryTargetsTypedSlot(t: Tables, vehicleType: string, plate: string,
                                       billingType: string, overrideSlot: string, now: Time)
    requires SlotIdsUnique(t.slots)
    requires GetPreferredSlotId(t.slots, overrideSlot).Some?
    ensures var o := Entry(t, plate, vehicleType, billingType, GetPreferredSlotId(t.slots, overrideSlot), now);
      && (o.result.Err? ==> o.result.error != PreferredSlotNotFound)
      && (o.result.Ok? ==> Lower(o.result.value.slotNumber) == Lower(overrideSlot))
  {
    var id := GetPreferredSlotId(t.slots, overrideSlot).value;
    var o := Entry(t, plate, vehicleType, billingType, Some(id), now);
    var m :| 0 <= m < |t.slots| && t.slots[m].id == id && Lower(t.slots[m].slotNumber) == Lower(overrideSlot);
    assert FindSlotById(t.slots, id).Some?;
    EntrySuccess(t, plate, vehicleType, billingType, Some(id), now);
  }
}

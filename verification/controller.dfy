/** The DirectInput controller provider: the slot table `s_Controllers`,
    registration of attached devices, capability negotiation, the per-frame
    poll and diff, and the property queries.

    Every DirectInput, COM and window-system call is an input: the HRESULTs
    and data those calls hand back are parameters of the methods. The
    provider column of the shared controller table, which
    `Controller_SetProvider` writes, is an array of this class. */
module DirectInputController {
  import opened Wrappers
  import opened ControllerTypes
  import opened Dpad
  import opened Frame
  import XInputMatch
  import Native

  /** An open `IDirectInputDevice8`, named by the handle `CreateDevice` returned. */
  datatype Device = Device(handle: nat)

  /** One `DirectInputController` record of `s_Controllers`. */
  datatype Slot = Slot(guid: Guid, device: Option<Device>, axesMask: bv32, buttonsMask: bv32, maxButtons: Int32, state: JoyState)

  /** A zeroed record: what `ZeroMemory` leaves, and what a static slot starts as. */
  const EmptySlot: Slot := Slot(NullGuid, None, 0, 0, 0, ZeroState)

  /** `ControllerProvider_None`, `ControllerProvider_DirectInput`, and any
      other provider of the shared table. */
  datatype Provider = ProviderNone | ProviderDirectInput | ProviderOther

  /** How a slot and its provider entry agree between calls: a slot has a
      device exactly when DirectInput owns its index, a slot without a device
      is zeroed, and a registered slot never holds the null GUID. */
  predicate SlotAgrees(s: Slot, p: Provider)
  {
    (s.device.Some? <==> p == ProviderDirectInput) &&
    (s.device.None? ==> s == EmptySlot) &&
    (s.device.Some? ==> s.guid != NullGuid)
  }

  /** The slot table and the provider column agree index by index, and no
      device is registered twice. */
  predicate Consistent(slots: seq<Slot>, providers: seq<Provider>)
  {
    |slots| == |providers| &&
    (forall i :: 0 <= i < |slots| ==> SlotAgrees(slots[i], providers[i])) &&
    (forall i, j :: 0 <= i < j < |slots| && slots[i].device.Some? && slots[j].device.Some? ==>
      slots[i].guid != slots[j].guid)
  }

  // ---------------------------------------------------------------------
  // Capability negotiation

  /** One object `EnumObjects` reports to `AddControllerObject`: its axis
      type, its HID usage page and usage, and the HRESULT that
      `SetProperty(DIPROP_RANGE)` returns for it. */
  datatype DeviceObject = DeviceObject(guidType: Guid, usagePage: Word, usage: Word, setRange: HResult)

  /** The axis bit one object adds: its canonical axis, when it has one and
      its range could be set. */
  function ObjectAxes(o: DeviceObject): bv32
  {
    var axis := PreferredAxis(o.guidType);
    if axis != 0 && CheckError(o.setRange) then axis else 0
  }

  /** The button bit one object adds: `Button1 << wUsage` for an object of
      the button usage page that is not a recognised axis. */
  function ObjectButtons(o: DeviceObject): bv32
  {
    if PreferredAxis(o.guidType) == 0 && o.usagePage == 9 then ButtonBit(o.usage) else 0
  }

  /** The mask negotiated from a sequence of objects, each adding the bits
      `contribution` gives it. */
  function MaskOf(objects: seq<DeviceObject>, contribution: DeviceObject -> bv32): bv32
  {
    if objects == [] then 0 else MaskOf(objects[..|objects| - 1], contribution) | contribution(objects[|objects| - 1])
  }

  function AxesMask(objects: seq<DeviceObject>): bv32
  {
    MaskOf(objects, ObjectAxes)
  }

  function ButtonsMask(objects: seq<DeviceObject>): bv32
  {
    MaskOf(objects, ObjectButtons)
  }

  predicate HasBit(x: bv32, bit: bv32)
  {
    x & bit != 0
  }

  lemma OrBitRaw(x: bv32, y: bv32, bit: bv32)
    ensures (x | y) & bit != 0 <==> x & bit != 0 || y & bit != 0
  {
  }

  lemma OrBit(x: bv32, y: bv32, bit: bv32)
    ensures HasBit(x | y, bit) <==> HasBit(x, bit) || HasBit(y, bit)
  {
    OrBitRaw(x, y, bit);
  }

  /** A negotiated mask holds a bit exactly when some object contributed it. */
  lemma MaskOfBits(objects: seq<DeviceObject>, contribution: DeviceObject -> bv32, bit: bv32)
    ensures HasBit(MaskOf(objects, contribution), bit) <==>
      exists k :: 0 <= k < |objects| && HasBit(contribution(objects[k]), bit)
  {
    assert objects[..|objects|] == objects;
    PrefixMaskBits(objects, contribution, bit, |objects|);
  }

  lemma PrefixMaskBits(objects: seq<DeviceObject>, contribution: DeviceObject -> bv32, bit: bv32, n: nat)
    requires n <= |objects|
    ensures HasBit(MaskOf(objects[..n], contribution), bit) <==>
      exists k :: 0 <= k < n && HasBit(contribution(objects[k]), bit)
  {
    if HasBit(MaskOf(objects[..n], contribution), bit) {
      var k := ContributorOf(objects, contribution, bit, n);
    } else {
      forall k | 0 <= k < n
        ensures !HasBit(contribution(objects[k]), bit)
      {
        if HasBit(contribution(objects[k]), bit) {
          ContributionInMask(objects, contribution, bit, n, k);
        }
      }
    }
  }

  /** The index of an object that contributed a bit of a prefix mask. */
  lemma {:induction false} ContributorOf(objects: seq<DeviceObject>, contribution: DeviceObject -> bv32, bit: bv32, n: nat)
    returns (k: nat)
    requires n <= |objects| && HasBit(MaskOf(objects[..n], contribution), bit)
    ensures k < n && HasBit(contribution(objects[k]), bit)
  {
    var before := MaskOf(objects[..n - 1], contribution);
    MaskOfSnoc(objects, contribution, n - 1);
    OrBit(before, contribution(objects[n - 1]), bit);
    if HasBit(contribution(objects[n - 1]), bit) {
      k := n - 1;
    } else {
      k := ContributorOf(objects, contribution, bit, n - 1);
    }
  }

  /** Every contribution of an object of a prefix is in the prefix mask. */
  lemma {:induction false} ContributionInMask(objects: seq<DeviceObject>, contribution: DeviceObject -> bv32, bit: bv32, n: nat, k: nat)
    requires k < n <= |objects| && HasBit(contribution(objects[k]), bit)
    ensures HasBit(MaskOf(objects[..n], contribution), bit)
  {
    var before := MaskOf(objects[..n - 1], contribution);
    var last := contribution(objects[n - 1]);
    MaskOfSnoc(objects, contribution, n - 1);
    if k < n - 1 {
      ContributionInMask(objects, contribution, bit, n - 1, k);
      OrKeepsBit(before, last, bit);
    } else {
      OrKeepsBit(last, before, bit);
      OrCommutes(last, before);
    }
  }

  lemma OverwriteTwice(slots: seq<Slot>, c: nat, first: Slot, second: Slot)
    requires c < |slots|
    ensures slots[c := first][c := second] == slots[c := second]
  {
  }

  lemma OrKeepsBit(x: bv32, y: bv32, bit: bv32)
    requires HasBit(x, bit)
    ensures HasBit(x | y, bit)
  {
    OrBitRaw(x, y, bit);
  }

  lemma OrCommutes(x: bv32, y: bv32)
    ensures x | y == y | x
  {
  }

  /** The axes mask holds exactly the axis bits of objects whose range was set. */
  lemma AxesMaskBits(objects: seq<DeviceObject>, bit: bv32)
    ensures HasBit(AxesMask(objects), bit) <==> exists k :: 0 <= k < |objects| && HasBit(ObjectAxes(objects[k]), bit)
  {
    MaskOfBits(objects, ObjectAxes, bit);
  }

  /** The buttons mask holds exactly the button bits of the button objects. */
  lemma ButtonsMaskBits(objects: seq<DeviceObject>, bit: bv32)
    ensures HasBit(ButtonsMask(objects), bit) <==> exists k :: 0 <= k < |objects| && HasBit(ObjectButtons(objects[k]), bit)
  {
    MaskOfBits(objects, ObjectButtons, bit);
  }

  /** The bits `s_PreferredAxisMap` can produce. */
  const AxisBits: bv32 := AxisLeftThumbX | AxisLeftThumbY | AxisRightThumbX | AxisRightThumbY | AxisAxis1

  lemma PreferredAxisInAxisBits(guid: Guid)
    ensures PreferredAxis(guid) & !AxisBits == 0
  {
    var axis := PreferredAxis(guid);
    PreferredAxisFirst(guid);
    if axis != 0 {
      var j :| 0 <= j < |PreferredAxisMap| && PreferredAxisMap[j] == (guid, axis);
      assert axis == AxisLeftThumbX || axis == AxisLeftThumbY || axis == AxisRightThumbX ||
             axis == AxisRightThumbY || axis == AxisAxis1;
    }
  }

  /** Only the canonical axes ever appear in the axes mask. */
  lemma {:induction false} AxesMaskWithinAxisBits(objects: seq<DeviceObject>)
    ensures AxesMask(objects) & !AxisBits == 0
  {
    if objects != [] {
      var init := objects[..|objects| - 1];
      var last := objects[|objects| - 1];
      AxesMaskWithinAxisBits(init);
      ObjectAxesWithinAxisBits(last);
      OrWithin(AxesMask(init), ObjectAxes(last), AxisBits);
    }
  }

  lemma ObjectAxesWithinAxisBits(o: DeviceObject)
    ensures ObjectAxes(o) & !AxisBits == 0
  {
    PreferredAxisInAxisBits(o.guidType);
  }

  lemma OrWithin(x: bv32, y: bv32, z: bv32)
    requires x & !z == 0 && y & !z == 0
    ensures (x | y) & !z == 0
  {
  }

  /** Negotiation only adds bits: the mask of a prefix of the objects is
      contained in the mask of all of them. */
  lemma {:induction false} MasksOnlyGrow(objects: seq<DeviceObject>, contribution: DeviceObject -> bv32, n: nat)
    requires n <= |objects|
    ensures MaskOf(objects[..n], contribution) & !MaskOf(objects, contribution) == 0
    decreases |objects| - n
  {
    var full := MaskOf(objects, contribution);
    if n < |objects| {
      MasksOnlyGrow(objects, contribution, n + 1);
      MaskOfSnoc(objects, contribution, n);
      OrSubset(MaskOf(objects[..n], contribution), contribution(objects[n]), full);
    } else {
      assert objects[..n] == objects;
      SubsetRefl(full);
    }
  }

  /** The body of `AddControllerObject` on the record it is given: a
      recognised axis whose range could be set adds its canonical axis, an
      unrecognised object of the button usage page adds `Button1 << wUsage`,
      and anything else adds nothing. */
  method AddObject(slot: Slot, o: DeviceObject) returns (r: Slot)
    ensures r == slot.(axesMask := slot.axesMask | ObjectAxes(o), buttonsMask := slot.buttonsMask | ObjectButtons(o))
  {
    r := slot;
    var axis := PreferredAxis(o.guidType);
    if axis != 0 {
      if CheckError(o.setRange) {
        r := r.(axesMask := r.axesMask | axis);
        AxisObjectMasks(o, slot);
      } else {
        IgnoredObjectMasks(o, slot);
      }
    } else if o.usagePage == 9 {
      r := r.(buttonsMask := r.buttonsMask | ButtonBit(o.usage));
      ButtonObjectMasks(o, slot);
    } else {
      IgnoredObjectMasks(o, slot);
    }
  }

  // The record `AddControllerObject` leaves on each of its branches is the
  // record with the object's contributions ORed into its masks.

  lemma AxisObjectMasks(o: DeviceObject, slot: Slot)
    requires PreferredAxis(o.guidType) != 0 && CheckError(o.setRange)
    ensures slot.(axesMask := slot.axesMask | PreferredAxis(o.guidType)) ==
            slot.(axesMask := slot.axesMask | ObjectAxes(o), buttonsMask := slot.buttonsMask | ObjectButtons(o))
  {
    OrZero(slot.buttonsMask);
  }

  lemma ButtonObjectMasks(o: DeviceObject, slot: Slot)
    requires PreferredAxis(o.guidType) == 0 && o.usagePage == 9
    ensures slot.(buttonsMask := slot.buttonsMask | ButtonBit(o.usage)) ==
            slot.(axesMask := slot.axesMask | ObjectAxes(o), buttonsMask := slot.buttonsMask | ObjectButtons(o))
  {
    OrZero(slot.axesMask);
  }

  lemma IgnoredObjectMasks(o: DeviceObject, slot: Slot)
    requires ObjectAxes(o) == 0 && ObjectButtons(o) == 0
    ensures slot == slot.(axesMask := slot.axesMask | ObjectAxes(o), buttonsMask := slot.buttonsMask | ObjectButtons(o))
  {
    OrZero(slot.axesMask);
    OrZero(slot.buttonsMask);
  }

  lemma OrZero(x: bv32)
    ensures x | 0 == x
  {
  }

  lemma MaskOfSnoc(objects: seq<DeviceObject>, contribution: DeviceObject -> bv32, n: nat)
    requires n < |objects|
    ensures MaskOf(objects[..n + 1], contribution) == MaskOf(objects[..n], contribution) | contribution(objects[n])
  {
    assert objects[..n + 1][..n] == objects[..n];
  }

  /** One `AddControllerObject` call takes the masks of a prefix of the
      objects to the masks of the prefix one longer. */
  lemma NegotiateStep(base: Slot, objects: seq<DeviceObject>, k: nat)
    requires k < |objects|
    ensures var before := base.(axesMask := AxesMask(objects[..k]), buttonsMask := ButtonsMask(objects[..k]));
      before.(axesMask := before.axesMask | ObjectAxes(objects[k]), buttonsMask := before.buttonsMask | ObjectButtons(objects[k])) ==
      base.(axesMask := AxesMask(objects[..k + 1]), buttonsMask := ButtonsMask(objects[..k + 1]))
  {
    MaskOfSnoc(objects, ObjectAxes, k);
    MaskOfSnoc(objects, ObjectButtons, k);
  }

  lemma SubsetRefl(x: bv32)
    ensures x & !x == 0
  {
  }

  lemma OrSubset(x: bv32, y: bv32, z: bv32)
    requires (x | y) & !z == 0
    ensures x & !z == 0
  {
  }

  // ---------------------------------------------------------------------
  // Registration

  /** What `DIDEVICEINSTANCE` supplies: the instance and product GUIDs. */
  datatype DeviceInstance = DeviceInstance(guidInstance: Guid, guidProduct: Guid)

  /** What the DirectInput calls of one registration hand back: `CreateDevice`
      and the device it opened, `GetCapabilities` and `dwButtons`,
      `SetDataFormat`, `SetCooperativeLevel`, the objects `EnumObjects`
      reports, and `EnumObjects` itself. */
  datatype DeviceSetup = DeviceSetup(
    create: HResult, device: Device,
    capabilities: HResult, buttonCount: DWord,
    dataFormat: HResult, cooperativeLevel: HResult,
    objects: seq<DeviceObject>, enumObjects: HResult)

  predicate SetupSucceeds(s: DeviceSetup)
  {
    CheckError(s.create) && CheckError(s.capabilities) && CheckError(s.dataFormat) &&
    CheckError(s.cooperativeLevel) && CheckError(s.enumObjects)
  }

  /** The record a successful registration stores. */
  function Registered(guid: Guid, s: DeviceSetup): Slot
  {
    Slot(guid, Some(s.device), AxesMask(s.objects), ButtonsMask(s.objects), DWordAsInt32(s.buttonCount),
         ZeroState.(pov := 0xFFFF_FFFF))
  }

  /** Some inventory entry claims the product for XInput. */
  predicate Claimed(inventory: seq<Option<string>>, product: Guid)
  {
    exists i :: 0 <= i < |inventory| && XInputMatch.ClaimsProduct(inventory[i], product)
  }

  /** Some slot, used or not, holds `guid`. */
  predicate Known(slots: seq<Slot>, guid: Guid)
  {
    exists i :: 0 <= i < |slots| && slots[i].guid == guid
  }

  /** A registered slot holds `guid`. */
  predicate Present(slots: seq<Slot>, guid: Guid)
  {
    exists i :: 0 <= i < |slots| && slots[i].device.Some? && slots[i].guid == guid
  }

  /** A device that XInput does not claim, that configures cleanly and whose
      GUID is not the null GUID a zeroed slot holds. */
  predicate Admissible(instance: DeviceInstance, inventory: seq<Option<string>>, setup: DeviceSetup)
  {
    !Claimed(inventory, instance.guidProduct) && SetupSucceeds(setup) && instance.guidInstance != NullGuid
  }

  /** The lowest index whose provider is `ProviderNone`, or -1. */
  function FirstFree(providers: seq<Provider>): (r: int)
    ensures -1 <= r < |providers|
    ensures r == -1 <==> forall i :: 0 <= i < |providers| ==> providers[i] != ProviderNone
    ensures r >= 0 ==> providers[r] == ProviderNone && forall i :: 0 <= i < r ==> providers[i] != ProviderNone
  {
    if providers == [] then -1
    else if providers[|providers| - 1] != ProviderNone || FirstFree(providers[..|providers| - 1]) >= 0 then
      FirstFree(providers[..|providers| - 1])
    else |providers| - 1
  }

  /** The slot table and the provider column, as one value. */
  datatype Registry = Registry(slots: seq<Slot>, providers: seq<Provider>)

  /** The table one `OnControllerConnected` call leaves, and its answer. */
  datatype Connection = Connection(after: Registry, continueEnum: bool)

  /** `OnControllerConnected` on values: a claimed product or a GUID some slot
      holds changes nothing and continues; with no free index the enumeration
      stops; otherwise the lowest free index is configured, and kept only when
      every step succeeds. */
  function Connect(r: Registry, instance: DeviceInstance, inventory: seq<Option<string>>, setup: DeviceSetup): (c: Connection)
    requires |r.slots| == |r.providers|
    ensures |c.after.slots| == |r.slots| && |c.after.providers| == |r.providers|
  {
    if Claimed(inventory, instance.guidProduct) || Known(r.slots, instance.guidInstance) then Connection(r, true)
    else if FirstFree(r.providers) == -1 then Connection(r, false)
    else if !SetupSucceeds(setup) then Connection(r, true)
    else
      var k := FirstFree(r.providers);
      Connection(Registry(r.slots[k := Registered(instance.guidInstance, setup)], r.providers[k := ProviderDirectInput]), true)
  }

  /** `DirectInputController_EnumDevices` on values: the devices from index
      `k` on are offered in order until one connection asks to stop. */
  function EnumFrom(r: Registry, attached: seq<DeviceInstance>, inventory: seq<Option<string>>, setups: seq<DeviceSetup>, k: nat): (u: Registry)
    requires |r.slots| == |r.providers| && |setups| == |attached| && k <= |attached|
    ensures |u.slots| == |r.slots| && |u.providers| == |r.providers|
    decreases |attached| - k
  {
    if k == |attached| then r
    else
      var c := Connect(r, attached[k], inventory, setups[k]);
      if c.continueEnum then EnumFrom(c.after, attached, inventory, setups, k + 1) else c.after
  }

  /** Offering this device again cannot change the table: it is not
      admissible, it is registered already, or no index is free. */
  predicate Settled(r: Registry, instance: DeviceInstance, inventory: seq<Option<string>>, setup: DeviceSetup)
  {
    !Admissible(instance, inventory, setup) || Present(r.slots, instance.guidInstance) || FirstFree(r.providers) == -1
  }

  // ---------------------------------------------------------------------
  // Per-frame poll

  /** What the DirectInput calls of one poll hand back: `Poll`, `Acquire`,
      `GetDeviceStatus` and the state `GetDeviceState` fills in. */
  datatype PollReport = PollReport(poll: HResult, acquire: HResult, status: HResult, snapshot: JoyState)

  datatype PollOutcome = Skip | Disconnect | Read

  /** A poll that fails is retried through `Acquire`: lost input or another
      application's priority skips the frame, and any answer but `S_FALSE`
      asks the device status, whose failure means the device is gone. */
  function Outcome(r: PollReport): PollOutcome
  {
    if r.poll == Ok then Read
    else if r.acquire == InputLost || r.acquire == OtherAppHasPriority then Skip
    else if r.acquire != False && r.status != Ok then Disconnect
    else Read
  }

  /** A slot after one iteration of the `Update` loop. */
  function SlotAfterPoll(slot: Slot, r: PollReport): Slot
  {
    if slot.device.None? then slot
    else match Outcome(r)
      case Skip => slot
      case Disconnect => EmptySlot
      case Read => slot.(state := StateAfterFrame(slot.state, r.snapshot, slot.maxButtons))
  }

  function ProviderAfterPoll(slot: Slot, p: Provider, r: PollReport): Provider
  {
    if slot.device.Some? && Outcome(r) == Disconnect then ProviderNone else p
  }

  /** The events one iteration of the `Update` loop emits. */
  function SlotEvents(c: nat, slot: Slot, r: PollReport, sinks: Sinks): seq<Event>
  {
    if slot.device.Some? && Outcome(r) == Read then FrameEvents(c, slot.state, r.snapshot, slot.maxButtons, sinks) else []
  }

  /** The events each slot's iteration of the `Update` loop emits, by index. */
  function PollEvents(slots: seq<Slot>, reports: seq<PollReport>, sinks: Sinks): (parts: seq<seq<Event>>)
    requires |slots| == |reports|
    ensures |parts| == |slots|
  {
    seq(|slots|, k requires 0 <= k < |slots| => SlotEvents(k, slots[k], reports[k], sinks))
  }

  /** The parts one after the other. */
  function Flatten(parts: seq<seq<Event>>): seq<Event>
  {
    if parts == [] then [] else Flatten(parts[..|parts| - 1]) + parts[|parts| - 1]
  }

  /** An event is in the flattened sequence exactly when it is in one of the parts. */
  lemma {:induction false} FlattenMembers(parts: seq<seq<Event>>, e: Event)
    ensures e in Flatten(parts) <==> exists k :: 0 <= k < |parts| && e in parts[k]
  {
    if parts != [] {
      var init := parts[..|parts| - 1];
      FlattenMembers(init, e);
      if e in Flatten(init) {
        var k :| 0 <= k < |init| && e in init[k];
        assert parts[k] == init[k];
      }
      if exists k :: 0 <= k < |parts| && e in parts[k] {
        var k :| 0 <= k < |parts| && e in parts[k];
        if k < |init| {
          assert parts[k] == init[k];
        }
      }
    }
  }

  lemma FlattenSnoc(parts: seq<seq<Event>>, n: nat)
    requires n < |parts|
    ensures Flatten(parts[..n + 1]) == Flatten(parts[..n]) + parts[n]
  {
    assert parts[..n + 1][..n] == parts[..n];
  }

  /** The events of one more button, sent from the merged buttons, extend
      those of the buttons before it. */
  lemma ButtonEventsStep(log: seq<Event>, before: seq<Event>, after: seq<Event>,
                          c: nat, stored: Buttons, snap: Buttons, b: nat, was: Byte, sinks: Sinks)
    requires b < ButtonSlots
    requires before == log + ButtonEvents(c, stored, snap, b, sinks)
    requires was == MergeButtons(stored, snap, b)[b]
    requires after == before + ButtonStep(c, b, was, snap[b], sinks)
    ensures after == log + ButtonEvents(c, stored, snap, b + 1, sinks)
  {
    assert was == stored[b];
    AppendAssoc(log, ButtonEvents(c, stored, snap, b, sinks), ButtonStep(c, b, stored[b], snap[b], sinks));
  }

  lemma MergeStep(stored: Buttons, snap: Buttons, b: nat)
    requires b < ButtonSlots
    ensures MergeButtons(stored, snap, b)[b := snap[b]] == MergeButtons(stored, snap, b + 1)
  {
  }

  /** `Update` emits events only for slots with a device whose poll was read,
      and each event names its slot. */
  lemma UpdateEventsFromRegistered(slots: seq<Slot>, reports: seq<PollReport>, sinks: Sinks, e: Event)
    requires |slots| == |reports|
    requires e in Flatten(PollEvents(slots, reports, sinks))
    ensures e.controller < |slots| && slots[e.controller].device.Some? && Outcome(reports[e.controller]) == Read
  {
    var parts := PollEvents(slots, reports, sinks);
    FlattenMembers(parts, e);
    var k :| 0 <= k < |parts| && e in parts[k];
    SlotEventsFromRead(k, slots[k], reports[k], sinks);
  }

  /** The events of one slot name it, and come only from a read of a slot
      with a device. */
  lemma SlotEventsFromRead(c: nat, slot: Slot, r: PollReport, sinks: Sinks)
    ensures forall e :: e in SlotEvents(c, slot, r, sinks) ==> e.controller == c && slot.device.Some? && Outcome(r) == Read
  {
    if slot.device.Some? && Outcome(r) == Read {
      FrameEventsController(c, slot.state, r.snapshot, slot.maxButtons, sinks);
    }
  }

  /** What the provider holds between calls: its slots, the shared provider
      table, and the events sent so far. */
  datatype Tables = Tables(slots: seq<Slot>, providers: seq<Provider>, events: seq<Event>)

  /** One iteration of the `Update` loop, for slot `c`. */
  function PollStep(t: Tables, c: nat, r: PollReport, sinks: Sinks): (u: Tables)
    requires c < |t.slots| == |t.providers|
    ensures |u.slots| == |t.slots| && |u.providers| == |t.providers|
  {
    Tables(t.slots[c := SlotAfterPoll(t.slots[c], r)],
           t.providers[c := ProviderAfterPoll(t.slots[c], t.providers[c], r)],
           t.events + SlotEvents(c, t.slots[c], r, sinks))
  }

  /** The first `n` iterations of the `Update` loop. */
  function PollLoop(t: Tables, reports: seq<PollReport>, n: nat, sinks: Sinks): (u: Tables)
    requires n <= |t.slots| == |t.providers| == |reports|
    ensures |u.slots| == |t.slots| && |u.providers| == |t.providers|
  {
    if n == 0 then t else PollStep(PollLoop(t, reports, n - 1, sinks), n - 1, reports[n - 1], sinks)
  }

  /** After `n` iterations the slots below `n` have been polled once each,
      with their own report, and the others are as they were. */
  lemma {:induction false} PollLoopSlots(t: Tables, reports: seq<PollReport>, n: nat, sinks: Sinks)
    requires n <= |t.slots| == |t.providers| == |reports|
    ensures forall i :: 0 <= i < |t.slots| ==>
      PollLoop(t, reports, n, sinks).slots[i] == (if i < n then SlotAfterPoll(t.slots[i], reports[i]) else t.slots[i]) &&
      PollLoop(t, reports, n, sinks).providers[i] ==
        (if i < n then ProviderAfterPoll(t.slots[i], t.providers[i], reports[i]) else t.providers[i])
  {
    if n > 0 {
      PollLoopSlots(t, reports, n - 1, sinks);
    }
  }

  /** After `n` iterations the events are those of the slots below `n`, in
      index order, each computed from the slot as it was before the call. */
  lemma {:induction false} PollLoopEvents(t: Tables, reports: seq<PollReport>, n: nat, sinks: Sinks)
    requires n <= |t.slots| == |t.providers| == |reports|
    ensures PollLoop(t, reports, n, sinks).events == t.events + Flatten(PollEvents(t.slots, reports, sinks)[..n])
  {
    if n == 0 {
      assert PollEvents(t.slots, reports, sinks)[..0] == [];
    } else {
      PollLoopEvents(t, reports, n - 1, sinks);
      PollLoopEventsStep(t, reports, n, sinks);
    }
  }

  /** The step of `PollLoopEvents`: one more iteration appends one more part. */
  lemma PollLoopEventsStep(t: Tables, reports: seq<PollReport>, n: nat, sinks: Sinks)
    requires 0 < n <= |t.slots| == |t.providers| == |reports|
    requires PollLoop(t, reports, n - 1, sinks).events == t.events + Flatten(PollEvents(t.slots, reports, sinks)[..n - 1])
    ensures PollLoop(t, reports, n, sinks).events == t.events + Flatten(PollEvents(t.slots, reports, sinks)[..n])
  {
    var parts := PollEvents(t.slots, reports, sinks);
    PollLoopLast(t, reports, n, sinks);
    assert parts[n - 1] == SlotEvents(n - 1, t.slots[n - 1], reports[n - 1], sinks);
    FlattenSnoc(parts, n - 1);
    AppendChain(PollLoop(t, reports, n, sinks).events, PollLoop(t, reports, n - 1, sinks).events,
      t.events, Flatten(parts[..n - 1]), parts[n - 1], Flatten(parts[..n]));
  }

  /** The last of `n` iterations appends the events of slot `n - 1` as it was
      before the loop. */
  lemma PollLoopLast(t: Tables, reports: seq<PollReport>, n: nat, sinks: Sinks)
    requires 0 < n <= |t.slots| == |t.providers| == |reports|
    ensures PollLoop(t, reports, n, sinks).events ==
      PollLoop(t, reports, n - 1, sinks).events + SlotEvents(n - 1, t.slots[n - 1], reports[n - 1], sinks)
  {
    PollLoopSlots(t, reports, n - 1, sinks);
    assert PollLoop(t, reports, n - 1, sinks).slots[n - 1] == t.slots[n - 1];
  }

  /** A log that extends a log by a part, where that log extends a base by a
      prefix, extends the base by the prefix followed by the part. */
  lemma AppendChain(log: seq<Event>, prev: seq<Event>, base: seq<Event>, prefix: seq<Event>, part: seq<Event>, whole: seq<Event>)
    requires log == prev + part && prev == base + prefix && whole == prefix + part
    ensures log == base + whole
  {
    AppendAssoc(base, prefix, part);
  }

  lemma AppendAssoc(a: seq<Event>, b: seq<Event>, c: seq<Event>)
    ensures a + b + c == a + (b + c)
  {
  }

  /** A poll of one slot keeps the table consistent. */
  lemma PollKeepsConsistent(slots: seq<Slot>, providers: seq<Provider>, c: nat, r: PollReport)
    requires Consistent(slots, providers) && c < |slots|
    ensures Consistent(slots[c := SlotAfterPoll(slots[c], r)], providers[c := ProviderAfterPoll(slots[c], providers[c], r)])
  {
    var after := slots[c := SlotAfterPoll(slots[c], r)];
    forall i, j | 0 <= i < j < |after| && after[i].device.Some? && after[j].device.Some?
      ensures after[i].guid != after[j].guid
    {
      assert after[i].guid == slots[i].guid && after[j].guid == slots[j].guid;
    }
  }

  /** Lost input and lost priority skip a frame without a trace; a confirmed
      disconnection frees the slot; a read stores the polled fields. */
  lemma PollOutcomes(c: nat, slot: Slot, p: Provider, r: PollReport, sinks: Sinks)
    requires slot.device.Some?
    ensures r.poll != Ok && (r.acquire == InputLost || r.acquire == OtherAppHasPriority) ==>
      SlotAfterPoll(slot, r) == slot && ProviderAfterPoll(slot, p, r) == p && SlotEvents(c, slot, r, sinks) == []
    ensures Outcome(r) == Disconnect ==>
      SlotAfterPoll(slot, r) == EmptySlot && ProviderAfterPoll(slot, p, r) == ProviderNone && SlotEvents(c, slot, r, sinks) == []
    ensures Outcome(r) == Read ==>
      AgreesOnPolled(SlotAfterPoll(slot, r).state, r.snapshot, PolledButtonCount(slot.maxButtons)) &&
      SlotAfterPoll(slot, r).(state := slot.state) == slot
  {
    FrameStoresSnapshot(slot.state, r.snapshot, slot.maxButtons);
  }

  // ---------------------------------------------------------------------
  // Property queries

  /** `Bacon_Error_None`, `Bacon_Error_InvalidHandle`,
      `Bacon_Error_InvalidArgument` and `Bacon_Error_Unknown`. */
  datatype BaconError = ErrorNone | InvalidHandle | InvalidArgument | ErrorUnknown

  /** A non-zero `int`: the provider treats any non-zero code as an error. */
  type ErrorValue = x: Int32 | x != 0 witness 1

  /** The numbers behind the error codes `GetControllerPropertyInt` returns
      as a bare `int`. `Bacon_Error_None` is 0; the others are whatever
      non-zero values the public header gives them. */
  datatype ErrorCodes = ErrorCodes(invalidHandle: ErrorValue, invalidArgument: ErrorValue, unknown: ErrorValue)

  /** The `int` an error code is returned as. */
  function Code(codes: ErrorCodes, e: BaconError): (r: Int32)
    ensures r == 0 <==> e == ErrorNone
  {
    match e
    case ErrorNone => 0
    case InvalidHandle => codes.invalidHandle
    case InvalidArgument => codes.invalidArgument
    case ErrorUnknown => codes.unknown
  }

  // ---------------------------------------------------------------------
  // The provider

  class DirectInputProvider {
    /** `s_Controllers` */
    const controllers: array<Slot>
    /** The provider of each controller index, as `Controller_SetProvider` records it. */
    const providers: array<Provider>
    /** Whether the axis and button handlers are installed. */
    const sinks: Sinks
    /** Every handler call so far, oldest first. */
    var events: seq<Event>

    predicate Valid()
      reads this, controllers, providers
    {
      Consistent(controllers[..], providers[..])
    }

    /** `DirectInputController_Init` over a controller table in which no index
        belongs to DirectInput yet. */
    constructor (table: seq<Provider>, sinks: Sinks)
      requires forall i :: 0 <= i < |table| ==> table[i] != ProviderDirectInput
      ensures Valid() && fresh(controllers) && fresh(providers)
      ensures controllers[..] == seq(|table|, i => EmptySlot) && providers[..] == table
      ensures this.sinks == sinks && events == []
    {
      controllers := new Slot[|table|](i => EmptySlot);
      providers := new Provider[|table|](i requires 0 <= i < |table| => table[i]);
      this.sinks := sinks;
      events := [];
    }

    /** `ReleaseController`: a slot with a device is zeroed and handed back
        to no provider; a slot without one is left alone. */
    method ReleaseController(c: nat)
      requires c < controllers.Length == providers.Length
      modifies controllers, providers
      ensures old(controllers[c]).device.None? ==>
        controllers[..] == old(controllers[..]) && providers[..] == old(providers[..])
      ensures old(controllers[c]).device.Some? ==>
        controllers[..] == old(controllers[..])[c := EmptySlot] && providers[..] == old(providers[..])[c := ProviderNone]
    {
      if controllers[c].device.Some? {
        controllers[c] := EmptySlot;
        providers[c] := ProviderNone;
      }
    }

    /** `AddControllerObject`: ORs the object's axis or button bit into the
        slot's masks and always continues the enumeration. */
    method AddControllerObject(c: nat, o: DeviceObject) returns (continueEnum: bool)
      requires c < controllers.Length
      modifies controllers
      ensures continueEnum
      ensures controllers[..] == old(controllers[..])[c := old(controllers[c]).(
        axesMask := old(controllers[c].axesMask) | ObjectAxes(o),
        buttonsMask := old(controllers[c].buttonsMask) | ObjectButtons(o))]
    {
      var slot := AddObject(controllers[c], o);
      controllers[c] := slot;
      return true;
    }

    /** `EnumObjects(AddControllerObject, ...)` over the objects the device
        reports, in order, starting from a record with empty masks: the
        record ends with the masks negotiated from all of them. */
    method EnumObjects(c: nat, objects: seq<DeviceObject>)
      requires c < controllers.Length
      requires controllers[c].axesMask == 0 && controllers[c].buttonsMask == 0
      modifies controllers
      ensures controllers[..] == old(controllers[..])[c := old(controllers[c]).(
        axesMask := AxesMask(objects), buttonsMask := ButtonsMask(objects))]
    {
      var base := controllers[c];
      assert base.(axesMask := AxesMask(objects[..0]), buttonsMask := ButtonsMask(objects[..0])) == base;
      for k := 0 to |objects|
        invariant controllers[..] == old(controllers[..])[c := base.(
          axesMask := AxesMask(objects[..k]), buttonsMask := ButtonsMask(objects[..k]))]
      {
        NegotiateStep(base, objects, k);
        var _ := AddControllerObject(c, objects[k]);
      }
      assert objects[..|objects|] == objects;
    }

    /** `Controller_GetAvailableIndex(0)`, which lives with the shared
        controller table: the lowest index no provider owns, or -1. */
    method GetAvailableIndex() returns (index: int)
      ensures index == FirstFree(providers[..])
    {
      index := -1;
      var i := providers.Length;
      while i > 0
        invariant 0 <= i <= providers.Length
        invariant index == -1 || (i <= index < providers.Length && providers[index] == ProviderNone)
        invariant index >= 0 ==> forall j :: i <= j < index ==> providers[j] != ProviderNone
        invariant index == -1 ==> forall j :: i <= j < providers.Length ==> providers[j] != ProviderNone
      {
        i := i - 1;
        if providers[i] == ProviderNone {
          index := i;
        }
      }
      FirstFreeUnique(providers[..], index);
    }

    /** The second half of `OnControllerConnected`, on a free index: open
        the device, record it, ask its capabilities, set its data format and
        cooperative level, and negotiate its objects. Any failure releases
        the slot, which leaves it as it was; success hands the index to
        DirectInput. */
    method ConfigureDevice(index: nat, guid: Guid, setup: DeviceSetup)
      requires index < controllers.Length == providers.Length
      requires controllers[index] == EmptySlot && providers[index] == ProviderNone
      modifies controllers, providers
      ensures SetupSucceeds(setup) ==>
        controllers[..] == old(controllers[..])[index := Registered(guid, setup)] &&
        providers[..] == old(providers[..])[index := ProviderDirectInput]
      ensures !SetupSucceeds(setup) ==> controllers[..] == old(controllers[..]) && providers[..] == old(providers[..])
    {
      if !CheckError(setup.create) {
        ReleaseController(index);
        return;
      }
      controllers[index] := EmptySlot.(guid := guid, device := Some(setup.device), state := ZeroState.(pov := 0xFFFF_FFFF));
      if !CheckError(setup.capabilities) {
        ReleaseController(index);
        return;
      }
      controllers[index] := controllers[index].(maxButtons := DWordAsInt32(setup.buttonCount));
      if !CheckError(setup.dataFormat) || !CheckError(setup.cooperativeLevel) {
        ReleaseController(index);
        return;
      }
      EnumObjects(index, setup.objects);
      if !CheckError(setup.enumObjects) {
        ReleaseController(index);
        return;
      }
      providers[index] := ProviderDirectInput;
    }

    /** `OnControllerConnected`, called for one attached device. It returns
        false (`DIENUM_STOP`) only when a new device finds no free index. A
        device XInput claims, or whose GUID some slot holds, changes nothing;
        so does any failed configuration step, since the slot it used is
        released; otherwise the lowest free slot holds the new record and
        DirectInput owns its index. */
    method OnControllerConnected(instance: DeviceInstance, inventory: seq<Option<string>>, setup: DeviceSetup)
      returns (continueEnum: bool)
      requires Valid()
      modifies controllers, providers
      ensures Valid()
      ensures !continueEnum <==>
        !Claimed(inventory, instance.guidProduct) && !Known(old(controllers[..]), instance.guidInstance) &&
        FirstFree(old(providers[..])) == -1
      ensures var admitted := !Claimed(inventory, instance.guidProduct) && !Known(old(controllers[..]), instance.guidInstance) &&
          FirstFree(old(providers[..])) >= 0 && SetupSucceeds(setup);
        (!admitted ==> controllers[..] == old(controllers[..]) && providers[..] == old(providers[..])) &&
        (admitted ==>
          var k := FirstFree(old(providers[..]));
          controllers[..] == old(controllers[..])[k := Registered(instance.guidInstance, setup)] &&
          providers[..] == old(providers[..])[k := ProviderDirectInput])
      ensures Connection(Registry(controllers[..], providers[..]), continueEnum) ==
        Connect(Registry(old(controllers[..]), old(providers[..])), instance, inventory, setup)
    {
      var claimed := XInputMatch.IsXInputDevice(inventory, instance.guidProduct);
      if claimed {
        return true;
      }
      for i := 0 to controllers.Length
        invariant forall j :: 0 <= j < i ==> controllers[j].guid != instance.guidInstance
      {
        if controllers[i].guid == instance.guidInstance {
          return true;
        }
      }
      assert !Known(controllers[..], instance.guidInstance);
      var index := GetAvailableIndex();
      if index == -1 {
        return false;
      }
      assert controllers[index] == EmptySlot;
      ConfigureDevice(index, instance.guidInstance, setup);
      return true;
    }

    /** `DirectInputController_EnumDevices`: offers the attached devices to
        `OnControllerConnected` in order until it asks to stop. Slots already
        registered are untouched; a slot changes only by taking an offered
        device that XInput does not claim and that configures cleanly, on an
        index no provider owned; afterwards every such device is registered,
        unless the table has no free index left. */
    method EnumDevices(attached: seq<DeviceInstance>, inventory: seq<Option<string>>, setups: seq<DeviceSetup>)
      requires Valid() && |setups| == |attached|
      modifies controllers, providers
      ensures Valid()
      ensures Registry(controllers[..], providers[..]) ==
        EnumFrom(Registry(old(controllers[..]), old(providers[..])), attached, inventory, setups, 0)
      ensures forall i :: 0 <= i < controllers.Length && old(controllers[i]).device.Some? ==> controllers[i] == old(controllers[i])
      ensures forall i :: 0 <= i < controllers.Length && (controllers[i] != old(controllers[i]) || providers[i] != old(providers[i])) ==>
        old(providers[i]) == ProviderNone && providers[i] == ProviderDirectInput &&
        exists j :: 0 <= j < |attached| && Admissible(attached[j], inventory, setups[j]) &&
          controllers[i] == Registered(attached[j].guidInstance, setups[j])
      ensures forall k :: 0 <= k < |attached| && Admissible(attached[k], inventory, setups[k]) ==>
        Present(controllers[..], attached[k].guidInstance) || FirstFree(providers[..]) == -1
    {
      ghost var start := Registry(controllers[..], providers[..]);
      var k := 0;
      var continueEnum := true;
      while k < |attached| && continueEnum
        invariant 0 <= k <= |attached|
        invariant Valid()
        invariant continueEnum ==>
          EnumFrom(Registry(controllers[..], providers[..]), attached, inventory, setups, k) == EnumFrom(start, attached, inventory, setups, 0)
        invariant !continueEnum ==> Registry(controllers[..], providers[..]) == EnumFrom(start, attached, inventory, setups, 0)
      {
        continueEnum := OnControllerConnected(attached[k], inventory, setups[k]);
        k := k + 1;
      }
      EnumChanges(start, attached, inventory, setups, 0);
      EnumSettles(start, attached, inventory, setups, 0);
    }

    /** `DirectInputController_Shutdown`: every slot is released; indices of
        other providers keep their owner. */
    method Shutdown()
      requires Valid()
      modifies controllers, providers
      ensures Valid()
      ensures forall i :: 0 <= i < controllers.Length ==> controllers[i] == EmptySlot
      ensures forall i :: 0 <= i < providers.Length ==>
        providers[i] == if old(providers[i]) == ProviderDirectInput then ProviderNone else old(providers[i])
    {
      for i := 0 to controllers.Length
        invariant Valid()
        invariant forall j :: 0 <= j < i ==> controllers[j] == EmptySlot
        invariant forall j :: 0 <= j < i ==>
          providers[j] == if old(providers[j]) == ProviderDirectInput then ProviderNone else old(providers[j])
        invariant forall j :: i <= j < controllers.Length ==> controllers[j] == old(controllers[j]) && providers[j] == old(providers[j])
      {
        ReleaseController(i);
      }
    }

    /** `SendAxisEvent`: the stored member takes the snapshot's value; the
        axis handler hears of it when it changed. */
    method SendAxisEvent(c: nat, f: AxisField, snap: JoyState)
      requires c < controllers.Length
      modifies controllers, this`events
      ensures controllers[..] == old(controllers[..])[c := old(controllers[c]).(state := WithAxis(old(controllers[c].state), f, AxisOf(snap, f)))]
      ensures events == old(events) + AxisEvents(c, f, old(controllers[c].state), snap, sinks)
    {
      if AxisOf(controllers[c].state, f) != AxisOf(snap, f) {
        controllers[c] := controllers[c].(state := WithAxis(controllers[c].state, f, AxisOf(snap, f)));
        if sinks.axis {
          events := events + [AxisEvent(c, AxisBit(f), AxisOf(snap, f))];
        }
      } else {
        WithAxisSame(controllers[c].state, f);
      }
    }

    /** `SendButtonEvent`: the stored byte takes the snapshot's value; the
        button handler hears `Button1 << button` with the new byte when it
        changed. */
    method SendButtonEvent(c: nat, b: nat, snap: JoyState)
      requires c < controllers.Length && b < ButtonSlots
      modifies controllers, this`events
      ensures controllers[..] == old(controllers[..])[c := old(controllers[c]).(state := old(controllers[c].state).(
        buttons := old(controllers[c].state.buttons)[b := snap.buttons[b]]))]
      ensures events == old(events) + ButtonStep(c, b, old(controllers[c].state.buttons[b]), snap.buttons[b], sinks)
    {
      if controllers[c].state.buttons[b] != snap.buttons[b] {
        controllers[c] := controllers[c].(state := controllers[c].state.(buttons := controllers[c].state.buttons[b := snap.buttons[b]]));
        if sinks.button {
          events := events + [ButtonEvent(c, ButtonBit(b), snap.buttons[b])];
        }
      } else {
        assert controllers[c].state.buttons[b := snap.buttons[b]] == controllers[c].state.buttons;
      }
    }

    /** The inner `SendDpadEvent`: reports `bit` when it changed. */
    method SendDpadButton(c: nat, bit: bv32, changed: bv32, now: bv32)
      modifies this`events
      ensures events == old(events) + DpadStep(c, bit, changed, now, sinks)
    {
      if changed & bit != 0 && sinks.button {
        events := events + [ButtonEvent(c, bit, if now & bit != 0 then 1 else 0)];
      }
    }

    /** The four inner `SendDpadEvent` calls, given the changed bits and
        the new mask. */
    method SendDpadButtons(c: nat, was: bv32, now: bv32)
      modifies this`events
      ensures events == old(events) + HatEvents(c, was, now, sinks)
    {
      var changed := was ^ now;
      SendDpadButton(c, DpadUp, changed, now);
      SendDpadButton(c, DpadDown, changed, now);
      SendDpadButton(c, DpadLeft, changed, now);
      SendDpadButton(c, DpadRight, changed, now);
    }

    /** The outer `SendDpadEvent`: the stored hat takes the snapshot's value;
        when it changed, each D-pad bit that differs between the old and new
        masks is reported. */
    method SendDpadEvent(c: nat, snap: JoyState)
      requires c < controllers.Length
      modifies controllers, this`events
      ensures controllers[..] == old(controllers[..])[c := old(controllers[c]).(state := old(controllers[c].state).(pov := snap.pov))]
      ensures events == old(events) + DpadEvents(c, old(controllers[c].state.pov), snap.pov, sinks)
    {
      if controllers[c].state.pov != snap.pov {
        var oldButtons := DpadMask(controllers[c].state.pov);
        controllers[c] := controllers[c].(state := controllers[c].state.(pov := snap.pov));
        var buttons := DpadMask(snap.pov);
        SendDpadButtons(c, oldButtons, buttons);
      } else {
        assert controllers[c].state.(pov := snap.pov) == controllers[c].state;
      }
    }

    /** The button loop of `DirectInputController_Update` over the first `n`
        indices of `rgbButtons`. */
    method SendButtons(c: nat, snap: JoyState, n: nat)
      requires c < controllers.Length && n <= ButtonSlots
      modifies controllers, this`events
      ensures controllers[..] == old(controllers[..])[c := old(controllers[c]).(state := old(controllers[c].state).(
        buttons := MergeButtons(old(controllers[c].state.buttons), snap.buttons, n)))]
      ensures events == old(events) + ButtonEvents(c, old(controllers[c].state.buttons), snap.buttons, n, sinks)
    {
      ghost var slot := controllers[c];
      ghost var stored := slot.state.buttons;
      assert MergeButtons(stored, snap.buttons, 0) == stored;
      for b := 0 to n
        invariant controllers[..] == old(controllers[..])[c := slot.(state := slot.state.(
          buttons := MergeButtons(stored, snap.buttons, b)))]
        invariant events == old(events) + ButtonEvents(c, stored, snap.buttons, b, sinks)
      {
        MergeStep(stored, snap.buttons, b);
        OverwriteTwice(old(controllers[..]), c,
          slot.(state := slot.state.(buttons := MergeButtons(stored, snap.buttons, b))),
          slot.(state := slot.state.(buttons := MergeButtons(stored, snap.buttons, b + 1))));
        ghost var sent := events;
        ghost var was := controllers[c].state.buttons[b];
        SendButtonEvent(c, b, snap);
        ButtonEventsStep(old(events), sent, events, c, stored, snap.buttons, b, was, sinks);
      }
    }

    /** The four `SendAxisEvent` calls of `DirectInputController_Update`. */
    method SendAxes(c: nat, snap: JoyState)
      requires c < controllers.Length
      modifies controllers, this`events
      ensures controllers[..] == old(controllers[..])[c := old(controllers[c]).(
        state := old(controllers[c].state).(lX := snap.lX, lY := snap.lY, lZ := snap.lZ, lRz := snap.lRz))]
      ensures events == old(events) +
        AxisEvents(c, LX, old(controllers[c].state), snap, sinks) + AxisEvents(c, LY, old(controllers[c].state), snap, sinks) +
        AxisEvents(c, LZ, old(controllers[c].state), snap, sinks) + AxisEvents(c, LRz, old(controllers[c].state), snap, sinks)
    {
      SendAxisEvent(c, LX, snap);
      SendAxisEvent(c, LY, snap);
      SendAxisEvent(c, LZ, snap);
      SendAxisEvent(c, LRz, snap);
    }

    /** What `DirectInputController_Update` does with a snapshot it read:
        the four axes, the polled buttons, then the hat. */
    method SendFrame(c: nat, snap: JoyState)
      requires c < controllers.Length
      modifies controllers, this`events
      ensures controllers[..] == old(controllers[..])[c := old(controllers[c]).(
        state := StateAfterFrame(old(controllers[c].state), snap, old(controllers[c].maxButtons)))]
      ensures events == old(events) +
        AxisEvents(c, LX, old(controllers[c].state), snap, sinks) + AxisEvents(c, LY, old(controllers[c].state), snap, sinks) +
        AxisEvents(c, LZ, old(controllers[c].state), snap, sinks) + AxisEvents(c, LRz, old(controllers[c].state), snap, sinks) +
        ButtonEvents(c, old(controllers[c].state.buttons), snap.buttons, PolledButtonCount(old(controllers[c].maxButtons)), sinks) +
        DpadEvents(c, old(controllers[c].state.pov), snap.pov, sinks)
    {
      SendAxes(c, snap);
      SendButtons(c, snap, PolledButtonCount(controllers[c].maxButtons));
      SendDpadEvent(c, snap);
    }

    /** One iteration of the `DirectInputController_Update` loop. */
    method UpdateController(c: nat, r: PollReport)
      requires Valid() && c < controllers.Length
      modifies controllers, providers, this`events
      ensures Valid()
      ensures Tables(controllers[..], providers[..], events) ==
        PollStep(Tables(old(controllers[..]), old(providers[..]), old(events)), c, r, sinks)
    {
      PollKeepsConsistent(controllers[..], providers[..], c, r);
      if controllers[c].device.None? {
        return;
      }
      match Outcome(r)
      case Skip =>
      case Disconnect =>
        ReleaseController(c);
      case Read =>
        FrameEventsAfter(events, c, controllers[c].state, r.snapshot, controllers[c].maxButtons, sinks);
        SendFrame(c, r.snapshot);
    }

    /** `DirectInputController_Update`: each slot in index order, with the
        poll answers `reports[c]` of its device. */
    method Update(reports: seq<PollReport>)
      requires Valid() && |reports| == controllers.Length
      modifies controllers, providers, this`events
      ensures Valid()
      ensures Tables(controllers[..], providers[..], events) ==
        PollLoop(Tables(old(controllers[..]), old(providers[..]), old(events)), reports, controllers.Length, sinks)
    {
      ghost var t0 := Tables(controllers[..], providers[..], events);
      for c := 0 to controllers.Length
        invariant Valid()
        invariant Tables(controllers[..], providers[..], events) == PollLoop(t0, reports, c, sinks)
      {
        UpdateController(c, reports[c]);
      }
    }

    /** `DirectInputController_GetControllerPropertyInt`, given what
        `GetProperty(DIPROP_VIDPID)` yields (`None` when it fails). The masks
        and the profile come back as the return value, in the same `int` as
        the error codes, and leave `*outValue` alone: the generic profile and
        an empty mask are 0, which is `Bacon_Error_None`, and a mask can equal
        any error code. The vendor and product IDs are the low and high words
        of the combined property and come back through `*outValue`. */
    method GetControllerPropertyInt(codes: ErrorCodes, controller: int, property: int, vidPid: Option<DWord>)
      returns (ret: Int32, outValue: Option<Word>)
      ensures !(0 <= controller < controllers.Length && controllers[controller].device.Some?) ==>
        ret == Code(codes, InvalidHandle) && outValue == None
      ensures 0 <= controller < controllers.Length && controllers[controller].device.Some? ==>
        var slot := controllers[controller];
        (property == Native.PropertySupportedAxesMask ==> ret % 0x1_0000_0000 == slot.axesMask as int && outValue == None) &&
        (property == Native.PropertySupportedButtonsMask ==> ret % 0x1_0000_0000 == slot.buttonsMask as int && outValue == None) &&
        (property == Native.PropertyProfile ==> ret == Native.ProfileGeneric == Code(codes, ErrorNone) && outValue == None) &&
        (property == Native.PropertyVendorId || property == Native.PropertyProductId ==>
          (vidPid.None? ==> ret == Code(codes, ErrorUnknown) && outValue == None) &&
          (vidPid.Some? ==>
            ret == Code(codes, ErrorNone) && outValue.Some? &&
            (property == Native.PropertyVendorId ==> MakeLong(outValue.value, HiWord(vidPid.value)) == vidPid.value) &&
            (property == Native.PropertyProductId ==> MakeLong(LoWord(vidPid.value), outValue.value) == vidPid.value))) &&
        (property !in {Native.PropertySupportedAxesMask, Native.PropertySupportedButtonsMask, Native.PropertyVendorId,
                       Native.PropertyProductId, Native.PropertyProfile} ==>
          ret == Code(codes, InvalidArgument) && outValue == None)
    {
      if controller < 0 || controller >= controllers.Length {
        return codes.invalidHandle, None;
      }
      if controllers[controller].device.None? {
        return codes.invalidHandle, None;
      }
      var slot := controllers[controller];
      if property == Native.PropertySupportedAxesMask {
        return DWordAsInt32(slot.axesMask as int), None;
      } else if property == Native.PropertySupportedButtonsMask {
        return DWordAsInt32(slot.buttonsMask as int), None;
      } else if property == Native.PropertyVendorId || property == Native.PropertyProductId {
        var error := if vidPid.None? then codes.unknown else 0;
        if error != 0 {
          return error, None;
        }
        WordsRoundTrip(LoWord(vidPid.value), HiWord(vidPid.value), vidPid.value);
        if property == Native.PropertyVendorId {
          outValue := Some(LoWord(vidPid.value));
        } else {
          outValue := Some(HiWord(vidPid.value));
        }
        return 0, outValue;
      } else if property == Native.PropertyProfile {
        return Native.ProfileGeneric, None;
      }
      return codes.invalidArgument, None;
    }

    /** `DirectInputController_GetControllerPropertyString`, given the HRESULT
        of `GetProperty(DIPROP_INSTANCENAME)` and the count
        `WideCharToMultiByte` returns. Only the name is supported; its size
        is written back whenever the property was read, and a conversion of
        nothing is an error. */
    method GetControllerPropertyString(controller: int, property: int, nameQuery: HResult, converted: int)
      returns (ret: BaconError, bufferSize: Option<int>)
      ensures !(0 <= controller < controllers.Length && controllers[controller].device.Some?) ==>
        ret == InvalidHandle && bufferSize == None
      ensures 0 <= controller < controllers.Length && controllers[controller].device.Some? ==>
        (property != Native.PropertyName ==> ret == InvalidArgument && bufferSize == None) &&
        (property == Native.PropertyName && !CheckError(nameQuery) ==> ret == ErrorUnknown && bufferSize == None) &&
        (property == Native.PropertyName && CheckError(nameQuery) ==>
          bufferSize == Some(converted) && (ret == ErrorNone <==> converted != 0) && ret in {ErrorNone, ErrorUnknown})
    {
      if controller < 0 || controller >= controllers.Length {
        return InvalidHandle, None;
      }
      if controllers[controller].device.None? {
        return InvalidHandle, None;
      }
      if property == Native.PropertyName {
        if !CheckError(nameQuery) {
          return ErrorUnknown, None;
        }
        bufferSize := Some(converted);
        if converted == 0 {
          return ErrorUnknown, bufferSize;
        }
        return ErrorNone, bufferSize;
      }
      return InvalidArgument, None;
    }
  }

  /** Writing a member's own value back changes nothing. */
  lemma WithAxisSame(s: JoyState, f: AxisField)
    ensures WithAxis(s, f, AxisOf(s, f)) == s
  {
  }

  /** `FirstFree` has one answer: the index the search loop settles on. */
  lemma FirstFreeUnique(providers: seq<Provider>, index: int)
    requires -1 <= index < |providers|
    requires index == -1 ==> forall i :: 0 <= i < |providers| ==> providers[i] != ProviderNone
    requires index >= 0 ==> providers[index] == ProviderNone && forall i :: 0 <= i < index ==> providers[i] != ProviderNone
    ensures index == FirstFree(providers)
  {
  }

  /** Under a consistent table, a non-null GUID that some slot holds is registered. */
  lemma KnownIsPresent(r: Registry, guid: Guid)
    requires Consistent(r.slots, r.providers) && guid != NullGuid && Known(r.slots, guid)
    ensures Present(r.slots, guid)
  {
    var i :| 0 <= i < |r.slots| && r.slots[i].guid == guid;
    assert SlotAgrees(r.slots[i], r.providers[i]);
  }

  /** One connection keeps the table consistent, and changes an index only
      by registering this admissible device on it, where no provider was. */
  lemma ConnectChanges(r: Registry, instance: DeviceInstance, inventory: seq<Option<string>>, setup: DeviceSetup)
    requires Consistent(r.slots, r.providers)
    ensures var a := Connect(r, instance, inventory, setup).after;
      Consistent(a.slots, a.providers) &&
      forall i :: 0 <= i < |r.slots| ==>
        (a.slots[i] == r.slots[i] && a.providers[i] == r.providers[i]) ||
        (r.providers[i] == ProviderNone && a.providers[i] == ProviderDirectInput &&
         Admissible(instance, inventory, setup) && a.slots[i] == Registered(instance.guidInstance, setup))
  {
    var guid := instance.guidInstance;
    if !Claimed(inventory, instance.guidProduct) && !Known(r.slots, guid) && FirstFree(r.providers) >= 0 && SetupSucceeds(setup) {
      var k := FirstFree(r.providers);
      assert SlotAgrees(r.slots[k], r.providers[k]);
      assert r.slots[k].guid == NullGuid;
    }
  }

  /** After one connection the device offered is settled, and a connection
      that stops leaves a full table. */
  lemma ConnectSettles(r: Registry, instance: DeviceInstance, inventory: seq<Option<string>>, setup: DeviceSetup)
    requires Consistent(r.slots, r.providers)
    ensures Settled(Connect(r, instance, inventory, setup).after, instance, inventory, setup)
    ensures !Connect(r, instance, inventory, setup).continueEnum ==> FirstFree(Connect(r, instance, inventory, setup).after.providers) == -1
  {
    var guid := instance.guidInstance;
    if Admissible(instance, inventory, setup) {
      if Known(r.slots, guid) {
        KnownIsPresent(r, guid);
      } else if FirstFree(r.providers) >= 0 {
        var a := Connect(r, instance, inventory, setup).after;
        var k := FirstFree(r.providers);
        assert a.slots[k].device.Some? && a.slots[k].guid == guid;
      }
    }
  }

  /** A table that changes only on indices no provider owned keeps every
      settled device settled. */
  lemma SettledKept(r: Registry, u: Registry, instance: DeviceInstance, inventory: seq<Option<string>>, setup: DeviceSetup)
    requires Consistent(r.slots, r.providers) && |u.slots| == |r.slots| && |u.providers| == |r.providers|
    requires forall i :: 0 <= i < |r.slots| && r.providers[i] != ProviderNone ==> u.slots[i] == r.slots[i] && u.providers[i] == r.providers[i]
    requires Settled(r, instance, inventory, setup)
    ensures Settled(u, instance, inventory, setup)
  {
    if Present(r.slots, instance.guidInstance) {
      var i :| 0 <= i < |r.slots| && r.slots[i].device.Some? && r.slots[i].guid == instance.guidInstance;
      assert SlotAgrees(r.slots[i], r.providers[i]);
      assert u.slots[i] == r.slots[i];
    } else if FirstFree(r.providers) == -1 {
      assert u.providers == r.providers;
    }
  }

  /** An enumeration keeps the table consistent, and changes an index only by
      registering on it, where no provider was, a device offered from `k` on
      that XInput does not claim and that configures cleanly. */
  lemma {:induction false} EnumChanges(r: Registry, attached: seq<DeviceInstance>, inventory: seq<Option<string>>,
                                       setups: seq<DeviceSetup>, k: nat)
    requires Consistent(r.slots, r.providers) && |setups| == |attached| && k <= |attached|
    ensures var u := EnumFrom(r, attached, inventory, setups, k);
      Consistent(u.slots, u.providers) &&
      forall i :: 0 <= i < |r.slots| ==>
        (u.slots[i] == r.slots[i] && u.providers[i] == r.providers[i]) ||
        (r.providers[i] == ProviderNone && u.providers[i] == ProviderDirectInput &&
         exists j :: k <= j < |attached| && Admissible(attached[j], inventory, setups[j]) &&
           u.slots[i] == Registered(attached[j].guidInstance, setups[j]))
    decreases |attached| - k
  {
    if k < |attached| {
      var c := Connect(r, attached[k], inventory, setups[k]);
      ConnectChanges(r, attached[k], inventory, setups[k]);
      if c.continueEnum {
        var a := c.after;
        var u := EnumFrom(a, attached, inventory, setups, k + 1);
        EnumChanges(a, attached, inventory, setups, k + 1);
        forall i | 0 <= i < |r.slots|
          ensures (u.slots[i] == r.slots[i] && u.providers[i] == r.providers[i]) ||
            (r.providers[i] == ProviderNone && u.providers[i] == ProviderDirectInput &&
             exists j :: k <= j < |attached| && Admissible(attached[j], inventory, setups[j]) &&
               u.slots[i] == Registered(attached[j].guidInstance, setups[j]))
        {
          if !(a.slots[i] == r.slots[i] && a.providers[i] == r.providers[i]) {
            assert u.slots[i] == a.slots[i] && u.providers[i] == a.providers[i];
            assert Admissible(attached[k], inventory, setups[k]) && u.slots[i] == Registered(attached[k].guidInstance, setups[k]);
          } else if !(u.slots[i] == a.slots[i] && u.providers[i] == a.providers[i]) {
            var j :| k + 1 <= j < |attached| && Admissible(attached[j], inventory, setups[j]) &&
              u.slots[i] == Registered(attached[j].guidInstance, setups[j]);
          }
        }
      } else {
        var a := c.after;
        forall i | 0 <= i < |r.slots|
          ensures a.slots[i] == r.slots[i] && a.providers[i] == r.providers[i]
        {
        }
      }
    }
  }

  /** After an enumeration every device offered from `k` on is settled. */
  lemma {:induction false} EnumSettles(r: Registry, attached: seq<DeviceInstance>, inventory: seq<Option<string>>,
                                       setups: seq<DeviceSetup>, k: nat)
    requires Consistent(r.slots, r.providers) && |setups| == |attached| && k <= |attached|
    ensures forall j :: k <= j < |attached| ==>
      Settled(EnumFrom(r, attached, inventory, setups, k), attached[j], inventory, setups[j])
    decreases |attached| - k
  {
    if k < |attached| {
      var c := Connect(r, attached[k], inventory, setups[k]);
      var u := EnumFrom(r, attached, inventory, setups, k);
      ConnectChanges(r, attached[k], inventory, setups[k]);
      ConnectSettles(r, attached[k], inventory, setups[k]);
      if c.continueEnum {
        assert u == EnumFrom(c.after, attached, inventory, setups, k + 1);
        EnumSettles(c.after, attached, inventory, setups, k + 1);
        EnumChanges(c.after, attached, inventory, setups, k + 1);
        SettlesStep(c.after, u, attached, inventory, setups, k);
      } else {
        assert u == c.after && FirstFree(u.providers) == -1;
      }
    }
  }

  /** The step of `EnumSettles`: the device offered at `k`, settled before
      the rest of the enumeration, stays settled through it. */
  lemma SettlesStep(a: Registry, u: Registry, attached: seq<DeviceInstance>, inventory: seq<Option<string>>,
                    setups: seq<DeviceSetup>, k: nat)
    requires Consistent(a.slots, a.providers) && |u.slots| == |a.slots| && |u.providers| == |a.providers|
    requires |setups| == |attached| && k < |attached|
    requires forall i :: 0 <= i < |a.slots| ==>
      (u.slots[i] == a.slots[i] && u.providers[i] == a.providers[i]) || a.providers[i] == ProviderNone
    requires Settled(a, attached[k], inventory, setups[k])
    requires forall j :: k + 1 <= j < |attached| ==> Settled(u, attached[j], inventory, setups[j])
    ensures forall j :: k <= j < |attached| ==> Settled(u, attached[j], inventory, setups[j])
  {
    SettledKept(a, u, attached[k], inventory, setups[k]);
  }

  /** Offering only settled devices changes nothing. */
  lemma {:induction false} EnumFixed(r: Registry, attached: seq<DeviceInstance>, inventory: seq<Option<string>>,
                                     setups: seq<DeviceSetup>, k: nat)
    requires Consistent(r.slots, r.providers) && |setups| == |attached| && k <= |attached|
    requires forall j :: k <= j < |attached| ==> Settled(r, attached[j], inventory, setups[j])
    ensures EnumFrom(r, attached, inventory, setups, k) == r
    decreases |attached| - k
  {
    if k < |attached| {
      var guid := attached[k].guidInstance;
      if guid == NullGuid && FirstFree(r.providers) >= 0 {
        assert SlotAgrees(r.slots[FirstFree(r.providers)], r.providers[FirstFree(r.providers)]);
        assert Known(r.slots, guid);
      } else if Present(r.slots, guid) {
        assert Known(r.slots, guid);
      }
      assert Connect(r, attached[k], inventory, setups[k]).after == r;
      EnumFixed(r, attached, inventory, setups, k + 1);
    }
  }

  /** Enumerating the same devices twice leaves the table as the first
      enumeration left it. */
  lemma EnumIdempotent(r: Registry, attached: seq<DeviceInstance>, inventory: seq<Option<string>>, setups: seq<DeviceSetup>)
    requires Consistent(r.slots, r.providers) && |setups| == |attached|
    ensures var u := EnumFrom(r, attached, inventory, setups, 0);
      EnumFrom(u, attached, inventory, setups, 0) == u
  {
    EnumChanges(r, attached, inventory, setups, 0);
    EnumSettles(r, attached, inventory, setups, 0);
    EnumFixed(EnumFrom(r, attached, inventory, setups, 0), attached, inventory, setups, 0);
  }
}

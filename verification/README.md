# DirectInput controller provider of Bacon, in Dafny

This project models the Windows DirectInput game-controller provider of the
Bacon game engine. It also models the `enum` and `flags` decorators of
Bacon's Python binding, together with the controller constants that binding
declares.

## The provider (`controller.dfy`, module `DirectInputController`)

The class `DirectInputProvider` holds the following state:
- `controllers`, the fixed-capacity slot table `s_Controllers`, with one `Slot` record per controller index;
- `providers`, the provider column of the engine's shared controller table, which `Controller_SetProvider` writes;
- `events`, the log of every call made to the axis and button handlers.

Its invariant `Valid` relates the slot table and the provider column:
- a slot has a device exactly when DirectInput owns its index;
- an empty slot is zeroed;
- no device GUID is registered twice.

Every DirectInput, COM and window-system call is replaced by the answer it
returns. These answers are method parameters:
- a `DeviceSetup` for one registration;
- a `PollReport` per slot for one poll;
- the VID/PID dword or the name-query result for a property query.

The operations modelled are:
- **Registration.** `OnControllerConnected` skips a device that XInput claims. It also skips a device whose instance GUID some slot already holds. It stops the enumeration when no index is free. Otherwise it configures the device in the lowest free slot and releases that slot if any step fails. The function `Connect` states one such call on values, and `EnumFrom` states `EnumDevices`, which offers the attached devices in order until a call asks to stop. The methods are proved equal to them; lemmas then prove that an enumeration changes a slot only by registering an offered, admissible device on a free index, and that a second enumeration of the same devices changes nothing.
- **Capability negotiation.** `AddControllerObject`, `GetPreferredAxisIndex` and the `EnumObjects` loop OR axis and button bits into the slot's masks. The method `EnumObjects` is proved to produce `AxesMask`/`ButtonsMask` of the reported objects.
- **The per-frame poll.** `Update` walks the slots in index order:
  - a slot without a device is skipped;
  - a failed poll is retried through `Acquire`;
  - lost input or lost priority skips the slot for this frame;
  - a confirmed disconnection releases the slot;
  - otherwise `SendAxisEvent` (four axes), `SendButtonEvent` and `SendDpadEvent` (the first hat) diff the snapshot against the stored state. They store the new values and log one event per change.

  The source runs `SendButtonEvent` over the first `m_MaxButtons` indices, which is the device's button count. The model clamps that count to the 32 entries of `rgbButtons` (`Frame.PolledButtonCount`); see "Findings" for the loop as written.

  `Update` is proved equal to `PollLoop`, a step-by-step specification. Lemmas then say what `PollLoop` does.
- **Property queries.** These are `GetControllerPropertyInt` and `GetControllerPropertyString`.
  - `GetControllerPropertyInt` returns one `int` for both errors and values. The masks and the profile come back as that `int`, and the vendor and product IDs come back through `outValue`. A caller cannot tell the cases apart: the generic profile and an empty mask are 0, the value of `Bacon_Error_None`, and a mask can equal any error code. The model keeps this collision: the return is an `Int32`, and the error codes are numbers given by an `ErrorCodes` parameter.
  - `GetControllerPropertyString` returns only error codes, modelled as `BaconError`.

## Supporting modules

- `Frame` (`frame.dfy`) is the value-level specification of one poll. It defines:
  - the events of a frame, in the order the source emits them;
  - the stored state after the frame.

  It also proves these properties:
  - exactly one event per changed field;
  - silence on an unchanged snapshot;
  - idempotence of polling the same snapshot twice;
  - a D-pad listener that applies the events reaches the new mask.
- `Dpad` (`dpad.dfy`) is `GetDpadButtonMaskForPov`. It keeps the strict, asymmetric comparisons and the centred sentinel test.
- `XInputMatch` (`xinput_match.dfy`) is the decision inside `IsXInputDevice`:
  - find `IG_`;
  - read the hexadecimal IDs after `VID_` and `PID_`;
  - compare `MAKELONG(vid, pid)` with `Data1` of the product GUID;
  - loop over the inventory.
- `ControllerTypes` (`controller_types.dfy`) holds the Windows integer widths, GUIDs, `CheckError`, the axis and button bits, and `s_PreferredAxisMap` with its search.
- `Native` (`native.dfy`) holds the `enum` and `flags` decorators, the `tostring` methods they attach, and the `ControllerButtons`/`ControllerAxes` constants.
- `Wrappers` (`wrappers.dfy`) holds `Option` and `Result`.

Axis and button bits are `bv32`, the width of the C `int` that carries them.
`Button1 << n` is computed as the x86 `shl` instruction computes it.
`rgdwPOV[0]` is a DWORD and reaches `GetDpadButtonMaskForPov` as a
two's-complement `int`.

## Details of the code the model keeps

- **POV sequence.** `Frame.PovSequence`: because the Left test is `pov > south`, a hat value of 18001 presses Down and Left, and centring then releases both.
- **Button bits in the mask.** `DirectInputController.AddObject`: a button object adds `Button1 << wUsage`, so its bit comes from its HID usage (`ControllerTypes.ButtonBit(o.usage)`), not from the order in which `EnumObjects` reports it.

## Model

| member | source | states |
|---|---|---|
| ControllerTypes.WordsRoundTrip | native/Source/Bacon/windows/DirectInputController.cpp:447-450 | `LOWORD` and `HIWORD` invert `MAKELONG` and together lose nothing of a dword |
| ControllerTypes.DWordAsInt32 | native/Source/Bacon/windows/DirectInputController.cpp:245 | a DWORD stored in a C `int` (`m_MaxButtons = caps.dwButtons` here, and `rgdwPOV[0]` passed to `GetDpadButtonMaskForPov` at lines 346 and 348) keeps its 32 bits, and is negative exactly when its top bit is set |
| ControllerTypes.BitsMatchBinding | bacon/native.py:87-139 | the axis, D-pad and button1 bits the C++ side uses are the values the Python binding declares |
| ControllerTypes.ButtonBitsDistinct | native/Source/Bacon/windows/DirectInputController.cpp:308 | `Button1 << n` gives pairwise distinct non-zero bits for n < 17, none of them a D-pad bit |
| ControllerTypes.PreferredAxisFromFirst | native/Source/Bacon/windows/DirectInputController.cpp:45-53 | the search from entry i finds an axis iff some later entry lists the GUID, and then it is the first such entry's axis |
| ControllerTypes.PreferredAxisFirst | native/Source/Bacon/windows/DirectInputController.cpp:45-53 | `GetPreferredAxisIndex` returns the axis of the first matching table entry, and 0 exactly for GUIDs the table does not list |
| ControllerTypes.PreferredAxisSticks | native/Source/Bacon/windows/DirectInputController.cpp:36-43 | X, Y, Z and Rz map to left-X, left-Y, right-X and right-Y |
| ControllerTypes.PreferredAxisRxRy | native/Source/Bacon/windows/DirectInputController.cpp:40-41 | Rx and Ry both map to Axis1 |
| Dpad.GetDpadButtonMaskForPov | native/Source/Bacon/windows/DirectInputController.cpp:312-334 | only D-pad bits are ever set, and a value whose low 16 bits are all ones gives 0 |
| Dpad.DpadBitsExactly | native/Source/Bacon/windows/DirectInputController.cpp:323-331 | for a non-centred value: Up iff pov > 27000 or pov < 9000, Right iff 0 < pov < 18000, Down iff 9000 < pov < 27000, Left iff pov > 18000 |
| Dpad.SentinelIsCentered | native/Source/Bacon/windows/DirectInputController.cpp:238 | the stored `rgdwPOV[0] = -1` is the centred value and maps to no direction |
| Dpad.DpadSectors | native/Source/Bacon/windows/DirectInputController.cpp:317-331 | on the circle, a direction is pressed iff the hat is strictly within 90 degrees of it |
| Dpad.DpadNeverOpposite | native/Source/Bacon/windows/DirectInputController.cpp:323-331 | Up with Down, and Left with Right, are never pressed together |
| Dpad.DpadCompassPoints | native/Source/Bacon/windows/DirectInputController.cpp:318-331 | each cardinal point presses one direction; the NE and NW diagonals press two |
| Dpad.DpadBeyondCircle | native/Source/Bacon/windows/DirectInputController.cpp:324-331 | any non-centred value of 36000 or more presses Up and Left |
| XInputMatch.FindFrom | native/Source/Bacon/windows/DirectInputController.cpp:169 | `wcsstr` finds the first occurrence of the pattern, or reports that there is none |
| XInputMatch.HexRun | native/Source/Bacon/windows/DirectInputController.cpp:174 | the field `%4X` reads is the longest run of at most four leading hex digits |
| XInputMatch.ScanHex4 | native/Source/Bacon/windows/DirectInputController.cpp:174-178 | the scan yields a value iff the text starts with a hex digit |
| XInputMatch.IsXInputDevice | native/Source/Bacon/windows/DirectInputController.cpp:161-186 | the device loop claims the product iff some readable inventory entry contains `IG_` and its `MAKELONG(vid, pid)` equals `Data1` |
| XInputMatch.ScanHex4RoundTrip | native/Source/Bacon/windows/DirectInputController.cpp:174 | reading four written hex digits gives back the WORD, whatever follows |
| XInputMatch.IdAfterFirst | native/Source/Bacon/windows/DirectInputController.cpp:173-178 | the ID is read after the first occurrence of its marker |
| XInputMatch.UsualVendor | native/Source/Bacon/windows/DirectInputController.cpp:173-175 | the vendor read from `VID_xxxx&PID_yyyy&IG_...` is xxxx |
| XInputMatch.UsualProduct | native/Source/Bacon/windows/DirectInputController.cpp:176-178 | the product read from `VID_xxxx&PID_yyyy&IG_...` is yyyy |
| XInputMatch.UsualIsXInput | native/Source/Bacon/windows/DirectInputController.cpp:169 | such an ID is recognised as an XInput device |
| XInputMatch.DeviceIdRoundTrip | native/Source/Bacon/windows/DirectInputController.cpp:169-182 | such an ID matches a product GUID iff its `Data1` is `MAKELONG(vid, pid)` |
| Frame.WithAxis | native/Source/Bacon/windows/DirectInputController.cpp:296 | writing one axis member sets it and leaves the other members alone |
| Frame.PolledButtonCount | native/Source/Bacon/windows/DirectInputController.cpp:386 | the number of buttons polled stays within `rgbButtons` and never exceeds `m_MaxButtons` |
| Frame.FrameEventsController | native/Source/Bacon/windows/DirectInputController.cpp:382-388 | every event of a frame names the controller being polled |
| Frame.FrameStoresSnapshot | native/Source/Bacon/windows/DirectInputController.cpp:294-306 | after a frame the stored state equals the snapshot on every polled field and keeps the unpolled buttons |
| Frame.ButtonEventsQuiet | native/Source/Bacon/windows/DirectInputController.cpp:304 | buttons that did not change emit nothing |
| Frame.QuietFrame | native/Source/Bacon/windows/DirectInputController.cpp:382-388 | a snapshot equal to the stored state on the polled fields emits nothing and changes nothing |
| Frame.FrameIdempotent | native/Source/Bacon/windows/DirectInputController.cpp:382-388 | polling the same snapshot a second time emits nothing and changes nothing |
| Frame.ButtonEventsExactly | native/Source/Bacon/windows/DirectInputController.cpp:302-310 | the button events are the set of `(c, Button1 << b, new byte)` for the polled buttons b whose byte changed, and there are none without a handler |
| Frame.ChangedButtonsAscending | native/Source/Bacon/windows/DirectInputController.cpp:386-387 | the changed polled indices are listed in strictly ascending order, each one changed, and every changed index is listed |
| Frame.ButtonEventsInOrder | native/Source/Bacon/windows/DirectInputController.cpp:302-310 | with a handler, there is exactly one event per changed polled button, and the i-th event is `(c, Button1 << b, new byte)` for the i-th changed index b; without a handler there are none |
| Frame.DpadEventsDistinct | native/Source/Bacon/windows/DirectInputController.cpp:342-355 | a hat change emits at most four events, all button events, no two naming the same D-pad bit |
| Frame.DpadEventsExactly | native/Source/Bacon/windows/DirectInputController.cpp:342-355 | a D-pad bit is reported iff it is in `old ^ new` mask, with pressed = 1 iff the new mask holds it |
| Frame.DpadListenerTracksMask | native/Source/Bacon/windows/DirectInputController.cpp:336-355 | applying the D-pad events to the old mask yields the new mask |
| Frame.PovSequence | native/Source/Bacon/windows/DirectInputController.cpp:342-355 | the hat sequence centred, 0, 9000, 18001, centred emits the listed events in order |
| Frame.ButtonLoopBound | native/Source/Bacon/windows/DirectInputController.cpp:386-387 | the corrected button count stays within `rgbButtons` and agrees with the loop bound for up to 32 buttons |
| Frame.ButtonLoopOverrun | native/Source/Bacon/windows/DirectInputController.cpp:386-387 | the loop as written visits index 32 for a device with 33 buttons |
| DirectInputController.MaskOfBits | native/Source/Bacon/windows/DirectInputController.cpp:76-97 | a negotiated mask holds a bit iff some object contributed it |
| DirectInputController.AxesMaskBits | native/Source/Bacon/windows/DirectInputController.cpp:80-92 | an axis bit is in the axes mask iff some recognised axis object whose range was set contributes it |
| DirectInputController.ButtonsMaskBits | native/Source/Bacon/windows/DirectInputController.cpp:93-94 | a bit is in the buttons mask iff some usage-page-9 object that is not a recognised axis contributes it |
| DirectInputController.AxesMaskWithinAxisBits | native/Source/Bacon/windows/DirectInputController.cpp:36-43 | only the canonical axes of `s_PreferredAxisMap` ever appear in the axes mask |
| DirectInputController.MasksOnlyGrow | native/Source/Bacon/windows/DirectInputController.cpp:91-94 | masks only gain bits: the mask of a prefix of the objects is contained in the mask of all of them |
| DirectInputController.AddObject | native/Source/Bacon/windows/DirectInputController.cpp:80-94 | an object adds its canonical axis if its range could be set, adds `Button1 << wUsage` if it is a button, and otherwise adds nothing |
| DirectInputController.FirstFree | native/Source/Bacon/windows/DirectInputController.cpp:226 | the lowest index no provider owns, or -1 exactly when every index is owned |
| DirectInputController.SlotEventsFromRead | native/Source/Bacon/windows/DirectInputController.cpp:361-388 | a slot's events name it and come only from a successful read of a slot with a device |
| DirectInputController.UpdateEventsFromRegistered | native/Source/Bacon/windows/DirectInputController.cpp:359-388 | every event of a poll comes from a slot that has a device and whose poll was read |
| DirectInputController.PollLoopSlots | native/Source/Bacon/windows/DirectInputController.cpp:359-389 | after the loop, each slot and provider entry has been polled exactly once with its own report |
| DirectInputController.PollLoopEvents | native/Source/Bacon/windows/DirectInputController.cpp:359-389 | the loop's events are each slot's frame events in index order, computed from the slots as they were before the call |
| DirectInputController.PollKeepsConsistent | native/Source/Bacon/windows/DirectInputController.cpp:361-379 | polling one slot keeps the slot table and the provider column consistent |
| DirectInputController.PollOutcomes | native/Source/Bacon/windows/DirectInputController.cpp:366-388 | lost input or priority leaves the slot untouched and silent; a confirmed disconnection frees the slot and its index; a read stores the polled fields |
| DirectInputController.Connect | native/Source/Bacon/windows/DirectInputController.cpp:212-263 | one call of `OnControllerConnected` on values keeps the sizes of the slot table and the provider column |
| DirectInputController.EnumFrom | native/Source/Bacon/windows/DirectInputController.cpp:279-282 | offering the devices in order until a call stops keeps the sizes of the slot table and the provider column |
| DirectInputController.KnownIsPresent | native/Source/Bacon/windows/DirectInputController.cpp:218-222 | in a consistent table a non-null GUID that some slot holds belongs to a registered slot |
| DirectInputController.ConnectChanges | native/Source/Bacon/windows/DirectInputController.cpp:212-263 | one call keeps the table consistent and changes an index only by registering this device on it, where no provider was, when XInput does not claim it and it configures cleanly |
| DirectInputController.ConnectSettles | native/Source/Bacon/windows/DirectInputController.cpp:212-263 | after one call the device is not admissible, is registered, or the table is full; a call that stops leaves a full table |
| DirectInputController.SettledKept | native/Source/Bacon/windows/DirectInputController.cpp:212-263 | changes on free indices only keep a settled device settled |
| DirectInputController.SettlesStep | native/Source/Bacon/windows/DirectInputController.cpp:279-282 | a device settled before the rest of the enumeration stays settled through it |
| DirectInputController.EnumChanges | native/Source/Bacon/windows/DirectInputController.cpp:279-282 | an enumeration keeps the table consistent and changes an index only by registering on it, where no provider was, an offered device that XInput does not claim and that configures cleanly |
| DirectInputController.EnumSettles | native/Source/Bacon/windows/DirectInputController.cpp:279-282 | after an enumeration every offered device is not admissible, is registered, or the table is full |
| DirectInputController.EnumFixed | native/Source/Bacon/windows/DirectInputController.cpp:279-282 | offering only settled devices leaves the table unchanged |
| DirectInputController.EnumIdempotent | native/Source/Bacon/windows/DirectInputController.cpp:279-282 | enumerating the same devices a second time leaves the table as the first enumeration left it |
| DirectInputController.DirectInputProvider.constructor | native/Source/Bacon/windows/DirectInputController.cpp:270-277 | the table starts with every slot empty and no index owned by DirectInput |
| DirectInputController.DirectInputProvider.ReleaseController | native/Source/Bacon/windows/DirectInputController.cpp:65-74 | a slot without a device is left alone; a slot with one is zeroed and its index handed back to no provider |
| DirectInputController.DirectInputProvider.AddControllerObject | native/Source/Bacon/windows/DirectInputController.cpp:76-97 | the object's bits are ORed into the slot's masks and the enumeration always continues |
| DirectInputController.DirectInputProvider.EnumObjects | native/Source/Bacon/windows/DirectInputController.cpp:253 | enumerating the objects from empty masks leaves exactly the masks negotiated from all of them |
| DirectInputController.DirectInputProvider.GetAvailableIndex | native/Source/Bacon/windows/DirectInputController.cpp:226 | the index handed out is the lowest free one, or -1 |
| DirectInputController.DirectInputProvider.ConfigureDevice | native/Source/Bacon/windows/DirectInputController.cpp:230-262 | success stores the GUID, the device, the button count, the negotiated masks and the centred hat, and gives the index to DirectInput; any failure leaves slot and index as they were |
| DirectInputController.DirectInputProvider.OnControllerConnected | native/Source/Bacon/windows/DirectInputController.cpp:212-263 | it returns stop iff the device is new and not claimed and no index is free; a claimed or known device or a failed setup changes nothing; otherwise the lowest free slot is registered; the new table and the answer are `Connect` of the old table |
| DirectInputController.DirectInputProvider.EnumDevices | native/Source/Bacon/windows/DirectInputController.cpp:279-282 | the new table is `EnumFrom` of the old one; registered slots are untouched; a changed index was free and now holds an offered device that XInput does not claim and that configures cleanly, owned by DirectInput; every such device ends up registered unless the table is full |
| DirectInputController.DirectInputProvider.Shutdown | native/Source/Bacon/windows/DirectInputController.cpp:284-290 | every slot is released; indices of other providers keep their owner |
| DirectInputController.DirectInputProvider.SendAxisEvent | native/Source/Bacon/windows/DirectInputController.cpp:292-300 | the stored member takes the snapshot's value, and one axis event is logged iff it changed and a handler is set |
| DirectInputController.DirectInputProvider.SendButtonEvent | native/Source/Bacon/windows/DirectInputController.cpp:302-310 | the stored byte takes the snapshot's value, and one button event is logged iff it changed and a handler is set |
| DirectInputController.DirectInputProvider.SendDpadButton | native/Source/Bacon/windows/DirectInputController.cpp:336-340 | a bit is reported iff it changed and a button handler is set |
| DirectInputController.DirectInputProvider.SendDpadButtons | native/Source/Bacon/windows/DirectInputController.cpp:349-353 | Up, Down, Left and Right are reported in that order |
| DirectInputController.DirectInputProvider.SendDpadEvent | native/Source/Bacon/windows/DirectInputController.cpp:342-355 | the stored hat takes the snapshot's value, and the D-pad events are those of the changed mask bits |
| DirectInputController.DirectInputProvider.SendButtons | native/Source/Bacon/windows/DirectInputController.cpp:386-387 | the button loop stores the polled bytes, keeps the others, and logs the button events of the polled indices in order |
| DirectInputController.DirectInputProvider.SendAxes | native/Source/Bacon/windows/DirectInputController.cpp:382-385 | the four axes are stored and reported in the order X, Y, Z, Rz |
| DirectInputController.DirectInputProvider.SendFrame | native/Source/Bacon/windows/DirectInputController.cpp:380-388 | a read snapshot leaves the state after the frame and logs the frame's events |
| DirectInputController.DirectInputProvider.UpdateController | native/Source/Bacon/windows/DirectInputController.cpp:359-388 | one iteration of the loop is one `PollStep` and keeps the table consistent |
| DirectInputController.DirectInputProvider.Update | native/Source/Bacon/windows/DirectInputController.cpp:357-390 | the whole poll is `PollLoop` over every slot and keeps the table consistent |
| DirectInputController.DirectInputProvider.GetControllerPropertyInt | native/Source/Bacon/windows/DirectInputController.cpp:427-458 | bad handle; the masks as the return value, bit for bit; the profile as 0, the same value as `Bacon_Error_None`; vendor/product as the low/high word through `outValue` with 0 returned, or the `Unknown` code when the query fails; the `InvalidArgument` code otherwise |
| DirectInputController.DirectInputProvider.GetControllerPropertyString | native/Source/Bacon/windows/DirectInputController.cpp:460-474 | bad handle; only the name is supported; a failed query is `Unknown`; the converted size is written back and 0 is `Unknown` |
| Native.NameTableLookup | bacon/native.py:10-14 | a value is in the table iff a public attribute holds it, and the name stored is the last such attribute's |
| Native.EnumRoundTrip | bacon/native.py:9-17 | for distinct values, looking up an attribute's value gives back its name |
| Native.SetBitsAscending | bacon/native.py:33-37 | the loop visits set bits in strictly ascending order |
| Native.SetBitsMembership | bacon/native.py:33-37 | a bit position is visited as set iff that bit of the value is set |
| Native.SetBitsSum | bacon/native.py:33-37 | the visited bits add back up to the value |
| Native.FlagItemsNameSetBits | bacon/native.py:28-38 | for a non-negative value, `tostring` succeeds iff every set bit has a name, and then lists one name per set bit, lowest first |
| Native.NegativeFlagsRaise | bacon/native.py:33-37 | a negative value is shifted towards -1 and `tostring` raises `KeyError` |
| Native.DecoratedClass.CollectNames | bacon/native.py:10-14 | the loop builds the table from value to public name |
| Native.DecoratedClass.Enum | bacon/native.py:9-19 | `enum` stores the name table and attaches the lookup |
| Native.DecoratedClass.Flags | bacon/native.py:21-40 | `flags` stores the name table and attaches the decomposition |
| Native.DecoratedClass.EnumToString | bacon/native.py:15-17 | returns a public attribute name holding the value, and `KeyError(value)` iff there is none |
| Native.DecoratedClass.FlagsToString | bacon/native.py:27-38 | returns `'0'` for 0, and otherwise the names of the set bits joined by `' | '` or the `KeyError` of the first unnamed set bit |
| Native.ButtonConstants | bacon/native.py:96-104 | the D-pad flags are the distinct single bits 7 to 10, and button1 is bit 15 |

## Left out

- The COM and WMI plumbing of `IsXInputDevice` is not modelled: initialisation, locator, service connection, paging by 20, and the release chain. The inventory is a parameter instead, one entry per device, `None` where the `DeviceID` could not be read. An unreachable inventory service is an empty inventory.
- The DirectInput calls are not modelled: `DirectInput8Create`, `EnumDevices`, `CreateDevice`, `GetCapabilities`, `SetDataFormat`, `SetCooperativeLevel`, `EnumObjects`, `SetProperty`, `Poll`, `Acquire`, `GetDeviceStatus`, `GetDeviceState`, `GetProperty` and `WideCharToMultiByte`. Each is replaced by the answer it gives. `IDirectInputDevice8::Release` has no observable effect here.
- `native/Source/Bacon/Controller.cpp` is not part of this model. `Controller_GetAvailableIndex(0)` is modelled as the lowest index whose provider is none. `Controller_SetProvider` is modelled as a write to the provider column.
- The `(float)raw / 65535.f` normalisation of axis events is left out, because it is floating point. Events carry the raw `LONG`.
- `GetDeviceState`'s result is ignored by the source. The model reads the snapshot its parameter gives.
- The numeric values of `Bacon_Error_InvalidHandle`, `Bacon_Error_InvalidArgument` and `Bacon_Error_Unknown` come from the public Bacon header, which is not part of this model. `GetControllerPropertyInt` takes them as an `ErrorCodes` parameter, with `Bacon_Error_None` as 0 and the others non-zero.
- The string conversion of `GetControllerPropertyString` and the buffer it fills are not modelled. Only the size written back and the error are.
- XInputMatch.ScanHex4: models only `%4X` on text that starts with hex digits. `swscanf_s` also skips leading white space and accepts a sign or `0x` prefix, which device IDs do not carry.
- ControllerTypes.ButtonBit: for 17 or more, `Button1 << n` overflows a C `int`, which is undefined. The model takes the x86 `shl` result: count modulo 32, high bits lost.
- Native.DecoratedClass: the class is its list of `dir(cls)` attributes. `dir` sorts names alphabetically, but the constant lists `ControllerButtons` and `ControllerAxes` are in declaration order. Their values are pairwise distinct, so both orders build the same table.
- Native: `BlendFlags`, `ImageFlags`, the sound, voice, key and other constant classes are not modelled. Only the controller constants are.
- The library loading of `native.py` (ctypes bindings, DLL discovery, the mock library) is left out, because it is foreign-call plumbing.

## Findings

| source | as written | input that shows it | evidently intended | confidence | as-written member | corrected member |
|---|---|---|---|---|---|---|
| native/Source/Bacon/windows/DirectInputController.cpp:386-387 | the button loop runs `button < m_MaxButtons`, which is the device's `dwButtons`, and indexes `rgbButtons`, which has 32 entries, in both the snapshot and the stored state | a device reporting 33 buttons: index 32 is read and written past `rgbButtons` | poll at most the 32 buttons `DIJOYSTATE` carries | high, not executed | Frame.ButtonLoopOverrun | Frame.ButtonLoopBound |

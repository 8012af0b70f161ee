/** What one poll of a registered controller does to the stored snapshot and
    which events it emits: the specification that `SendAxisEvent`,
    `SendButtonEvent`, `SendDpadEvent` and the per-slot body of
    `DirectInputController_Update` are proved against. */
module Frame {
  import opened ControllerTypes
  import opened Dpad

  /** `DIJOYSTATE::rgbButtons` has 32 entries. */
  const ButtonSlots := 32

  type Buttons = s: seq<Byte> | |s| == ButtonSlots witness seq(32, i => 0)

  /** The fields of `DIJOYSTATE` the provider reads: four axes, the first POV
      hat and the button bytes. */
  datatype JoyState = JoyState(lX: Int32, lY: Int32, lZ: Int32, lRz: Int32, pov: DWord, buttons: Buttons)

  const ZeroButtons: Buttons := [0, 0, 0, 0, 0, 0, 0, 0, 0, 0, 0, 0, 0, 0, 0, 0,
                                 0, 0, 0, 0, 0, 0, 0, 0, 0, 0, 0, 0, 0, 0, 0, 0]

  /** A zeroed `DIJOYSTATE`. */
  const ZeroState := JoyState(0, 0, 0, 0, 0, ZeroButtons)

  /** The `LONG DIJOYSTATE::*` member pointers `Update` passes to `SendAxisEvent`. */
  datatype AxisField = LX | LY | LZ | LRz

  function AxisOf(s: JoyState, f: AxisField): Int32
  {
    match f
    case LX => s.lX
    case LY => s.lY
    case LZ => s.lZ
    case LRz => s.lRz
  }

  function WithAxis(s: JoyState, f: AxisField, v: Int32): (t: JoyState)
    ensures AxisOf(t, f) == v
    ensures forall g :: g != f ==> AxisOf(t, g) == AxisOf(s, g)
    ensures t.pov == s.pov && t.buttons == s.buttons
  {
    match f
    case LX => s.(lX := v)
    case LY => s.(lY := v)
    case LZ => s.(lZ := v)
    case LRz => s.(lRz := v)
  }

  /** The canonical axis `Update` reports each member as. */
  function AxisBit(f: AxisField): bv32
  {
    match f
    case LX => AxisLeftThumbX
    case LY => AxisLeftThumbY
    case LZ => AxisRightThumbX
    case LRz => AxisRightThumbY
  }

  /** A call of the axis or button handler. Axis values are the raw `LONG`;
      the handler's division by 65535 is not modelled. */
  datatype Event =
    | AxisEvent(controller: nat, axis: bv32, raw: Int32)
    | ButtonEvent(controller: nat, button: bv32, pressed: int)

  /** Whether `g_ControllerAxisHandler` and `g_ControllerButtonHandler` are set. */
  datatype Sinks = Sinks(axis: bool, button: bool)

  /** `SendAxisEvent`: one event when the member changed and a handler is set. */
  function AxisEvents(c: nat, f: AxisField, stored: JoyState, snap: JoyState, sinks: Sinks): seq<Event>
  {
    if AxisOf(stored, f) != AxisOf(snap, f) && sinks.axis then [AxisEvent(c, AxisBit(f), AxisOf(snap, f))] else []
  }

  /** `SendButtonEvent` for one button index. */
  function ButtonStep(c: nat, b: nat, was: Byte, now: Byte, sinks: Sinks): seq<Event>
  {
    if was != now && sinks.button then [ButtonEvent(c, ButtonBit(b), now)] else []
  }

  /** `SendButtonEvent` for the indices `0 .. n-1`, in that order. */
  function ButtonEvents(c: nat, stored: Buttons, snap: Buttons, n: nat, sinks: Sinks): seq<Event>
    requires n <= ButtonSlots
  {
    if n == 0 then [] else ButtonEvents(c, stored, snap, n - 1, sinks) + ButtonStep(c, n - 1, stored[n - 1], snap[n - 1], sinks)
  }

  /** The inner `SendDpadEvent`: an event for `bit` when it is among the
      changed bits, pressed when it is in the new mask. */
  function DpadStep(c: nat, bit: bv32, changed: bv32, now: bv32, sinks: Sinks): seq<Event>
  {
    if changed & bit != 0 && sinks.button then [ButtonEvent(c, bit, if now & bit != 0 then 1 else 0)] else []
  }

  /** The outer `SendDpadEvent`: nothing unless the stored hat value differs,
      then Up, Down, Left, Right for the bits that differ between the masks. */
  function DpadEvents(c: nat, oldPov: DWord, newPov: DWord, sinks: Sinks): seq<Event>
  {
    if oldPov == newPov then [] else HatEvents(c, DpadMask(oldPov), DpadMask(newPov), sinks)
  }

  function HatEvents(c: nat, was: bv32, now: bv32, sinks: Sinks): seq<Event>
  {
    var changed := was ^ now;
    DpadStep(c, DpadUp, changed, now, sinks) + DpadStep(c, DpadDown, changed, now, sinks) +
    DpadStep(c, DpadLeft, changed, now, sinks) + DpadStep(c, DpadRight, changed, now, sinks)
  }

  /** The number of button indices `Update` polls for `m_MaxButtons`, kept
      inside `rgbButtons`. */
  function PolledButtonCount(maxButtons: Int32): (n: nat)
    ensures n <= ButtonSlots
    ensures n <= maxButtons || n == 0
  {
    if maxButtons <= 0 then 0 else if maxButtons > ButtonSlots then ButtonSlots else maxButtons
  }

  /** The number of indices the loop `button < m_MaxButtons` visits as written. */
  function ButtonIndicesAsWritten(maxButtons: Int32): nat
  {
    if maxButtons <= 0 then 0 else maxButtons
  }

  /** The events of one frame, in the order `Update` sends them. */
  function FrameEvents(c: nat, stored: JoyState, snap: JoyState, maxButtons: Int32, sinks: Sinks): seq<Event>
  {
    AxisEvents(c, LX, stored, snap, sinks) + AxisEvents(c, LY, stored, snap, sinks) +
    AxisEvents(c, LZ, stored, snap, sinks) + AxisEvents(c, LRz, stored, snap, sinks) +
    ButtonEvents(c, stored.buttons, snap.buttons, PolledButtonCount(maxButtons), sinks) +
    DpadEvents(c, stored.pov, snap.pov, sinks)
  }

  /** A frame's events appended to a log are the log followed by each part in turn. */
  lemma FrameEventsAfter(log: seq<Event>, c: nat, stored: JoyState, snap: JoyState, maxButtons: Int32, sinks: Sinks)
    ensures log + FrameEvents(c, stored, snap, maxButtons, sinks) ==
      log + AxisEvents(c, LX, stored, snap, sinks) + AxisEvents(c, LY, stored, snap, sinks) +
      AxisEvents(c, LZ, stored, snap, sinks) + AxisEvents(c, LRz, stored, snap, sinks) +
      ButtonEvents(c, stored.buttons, snap.buttons, PolledButtonCount(maxButtons), sinks) +
      DpadEvents(c, stored.pov, snap.pov, sinks)
  {
    AppendSix(log, AxisEvents(c, LX, stored, snap, sinks), AxisEvents(c, LY, stored, snap, sinks),
      AxisEvents(c, LZ, stored, snap, sinks), AxisEvents(c, LRz, stored, snap, sinks),
      ButtonEvents(c, stored.buttons, snap.buttons, PolledButtonCount(maxButtons), sinks),
      DpadEvents(c, stored.pov, snap.pov, sinks));
  }

  lemma AppendSix(log: seq<Event>, a: seq<Event>, b: seq<Event>, c: seq<Event>, d: seq<Event>, e: seq<Event>, f: seq<Event>)
    ensures log + (a + b + c + d + e + f) == log + a + b + c + d + e + f
  {
  }

  /** A D-pad step reports, if anything, on the controller it was given. */
  lemma DpadStepController(c: nat, bit: bv32, changed: bv32, now: bv32, sinks: Sinks)
    ensures forall e :: e in DpadStep(c, bit, changed, now, sinks) ==> e.controller == c
  {
  }

  lemma {:induction false} ButtonEventsController(c: nat, stored: Buttons, snap: Buttons, n: nat, sinks: Sinks)
    requires n <= ButtonSlots
    ensures forall e :: e in ButtonEvents(c, stored, snap, n, sinks) ==> e.controller == c
  {
    if n > 0 {
      ButtonEventsController(c, stored, snap, n - 1, sinks);
    }
  }

  lemma HatEventsController(c: nat, was: bv32, now: bv32, sinks: Sinks)
    ensures forall e :: e in HatEvents(c, was, now, sinks) ==> e.controller == c
  {
    var changed := was ^ now;
    DpadStepController(c, DpadUp, changed, now, sinks);
    DpadStepController(c, DpadDown, changed, now, sinks);
    DpadStepController(c, DpadLeft, changed, now, sinks);
    DpadStepController(c, DpadRight, changed, now, sinks);
  }

  lemma DpadEventsController(c: nat, oldPov: DWord, newPov: DWord, sinks: Sinks)
    ensures forall e :: e in DpadEvents(c, oldPov, newPov, sinks) ==> e.controller == c
  {
    if oldPov != newPov {
      HatEventsController(c, DpadMask(oldPov), DpadMask(newPov), sinks);
    }
  }

  /** Every event of a frame names the controller it was polled for. */
  lemma FrameEventsController(c: nat, stored: JoyState, snap: JoyState, maxButtons: Int32, sinks: Sinks)
    ensures forall e :: e in FrameEvents(c, stored, snap, maxButtons, sinks) ==> e.controller == c
  {
    ButtonEventsController(c, stored.buttons, snap.buttons, PolledButtonCount(maxButtons), sinks);
    DpadEventsController(c, stored.pov, snap.pov, sinks);
  }

  /** `snap` on the polled buttons, `stored` on the others. */
  function MergeButtons(stored: Buttons, snap: Buttons, n: nat): (r: Buttons)
    requires n <= ButtonSlots
  {
    snap[..n] + stored[n..]
  }

  /** The stored state after one frame: the polled fields take the snapshot's
      values, the other buttons keep theirs. */
  function StateAfterFrame(stored: JoyState, snap: JoyState, maxButtons: Int32): JoyState
  {
    var n := PolledButtonCount(maxButtons);
    JoyState(snap.lX, snap.lY, snap.lZ, snap.lRz, snap.pov, MergeButtons(stored.buttons, snap.buttons, n))
  }

  /** Two states agree on everything a frame polling `n` buttons reads. */
  predicate AgreesOnPolled(a: JoyState, b: JoyState, n: nat)
    requires n <= ButtonSlots
  {
    a.lX == b.lX && a.lY == b.lY && a.lZ == b.lZ && a.lRz == b.lRz && a.pov == b.pov &&
    a.buttons[..n] == b.buttons[..n]
  }

  /** After a frame the stored state agrees with the snapshot on every polled
      field and keeps the unpolled buttons. */
  lemma FrameStoresSnapshot(stored: JoyState, snap: JoyState, maxButtons: Int32)
    ensures var n := PolledButtonCount(maxButtons);
      AgreesOnPolled(StateAfterFrame(stored, snap, maxButtons), snap, n) &&
      StateAfterFrame(stored, snap, maxButtons).buttons[n..] == stored.buttons[n..]
  {
    var n := PolledButtonCount(maxButtons);
    var after := StateAfterFrame(stored, snap, maxButtons);
    assert after.buttons[..n] == snap.buttons[..n];
    assert after.buttons[n..] == stored.buttons[n..];
  }

  /** Button events fire only for changed buttons. */
  lemma {:induction false} ButtonEventsQuiet(c: nat, stored: Buttons, snap: Buttons, n: nat, sinks: Sinks)
    requires n <= ButtonSlots && stored[..n] == snap[..n]
    ensures ButtonEvents(c, stored, snap, n, sinks) == []
  {
    if n > 0 {
      assert stored[..n - 1] == snap[..n - 1] by {
        assert stored[..n - 1] == stored[..n][..n - 1];
        assert snap[..n - 1] == snap[..n][..n - 1];
      }
      ButtonEventsQuiet(c, stored, snap, n - 1, sinks);
      assert stored[n - 1] == stored[..n][n - 1];
    }
  }

  /** A frame whose snapshot matches the stored state on every polled field
      emits nothing and leaves the state as it was. */
  lemma QuietFrame(c: nat, stored: JoyState, snap: JoyState, maxButtons: Int32, sinks: Sinks)
    requires AgreesOnPolled(stored, snap, PolledButtonCount(maxButtons))
    ensures FrameEvents(c, stored, snap, maxButtons, sinks) == []
    ensures StateAfterFrame(stored, snap, maxButtons) == stored
  {
    var n := PolledButtonCount(maxButtons);
    ButtonEventsQuiet(c, stored.buttons, snap.buttons, n, sinks);
    assert MergeButtons(stored.buttons, snap.buttons, n) == stored.buttons by {
      assert stored.buttons == stored.buttons[..n] + stored.buttons[n..];
    }
  }

  /** Polling the same snapshot twice: the second frame is silent and changes
      nothing. */
  lemma FrameIdempotent(c: nat, stored: JoyState, snap: JoyState, maxButtons: Int32, sinks: Sinks)
    ensures var after := StateAfterFrame(stored, snap, maxButtons);
      FrameEvents(c, after, snap, maxButtons, sinks) == [] &&
      StateAfterFrame(after, snap, maxButtons) == after
  {
    FrameStoresSnapshot(stored, snap, maxButtons);
    QuietFrame(c, StateAfterFrame(stored, snap, maxButtons), snap, maxButtons, sinks);
  }

  /** Button events are exactly one per changed polled button, carrying the
      button's bit and its new byte, and none without a button handler. */
  lemma {:induction false} ButtonEventsExactly(c: nat, stored: Buttons, snap: Buttons, n: nat, sinks: Sinks, e: Event)
    requires n <= ButtonSlots
    ensures e in ButtonEvents(c, stored, snap, n, sinks) <==>
      sinks.button && exists b :: 0 <= b < n && stored[b] != snap[b] && e == ButtonEvent(c, ButtonBit(b), snap[b])
  {
    if n > 0 {
      ButtonEventsExactly(c, stored, snap, n - 1, sinks, e);
      var b := n - 1;
      if e == ButtonEvent(c, ButtonBit(b), snap[b]) && stored[b] != snap[b] && sinks.button {
        assert e in ButtonStep(c, b, stored[b], snap[b], sinks);
      }
    }
  }

  /** The polled button indices whose byte changed, in ascending order. */
  function ChangedButtons(stored: Buttons, snap: Buttons, n: nat): (changed: seq<nat>)
    requires n <= ButtonSlots
    ensures forall i :: 0 <= i < |changed| ==> changed[i] < n
  {
    if n == 0 then []
    else ChangedButtons(stored, snap, n - 1) + (if stored[n - 1] != snap[n - 1] then [n - 1] else [])
  }

  /** `ChangedButtons` lists every changed index below `n`, each once, in
      strictly ascending order, and nothing else. */
  lemma {:induction false} ChangedButtonsAscending(stored: Buttons, snap: Buttons, n: nat)
    requires n <= ButtonSlots
    ensures forall i :: 0 <= i < |ChangedButtons(stored, snap, n)| ==>
      ChangedButtons(stored, snap, n)[i] < n && stored[ChangedButtons(stored, snap, n)[i]] != snap[ChangedButtons(stored, snap, n)[i]]
    ensures forall i, j :: 0 <= i < j < |ChangedButtons(stored, snap, n)| ==>
      ChangedButtons(stored, snap, n)[i] < ChangedButtons(stored, snap, n)[j]
    ensures forall b :: 0 <= b < n && stored[b] != snap[b] ==> b in ChangedButtons(stored, snap, n)
  {
    if n > 0 {
      ChangedButtonsAscending(stored, snap, n - 1);
    }
  }

  /** With a button handler, the button events are one per changed polled
      button, in ascending index order, each carrying `Button1 << b` and the
      new byte; without one there are none. */
  lemma {:induction false} ButtonEventsInOrder(c: nat, stored: Buttons, snap: Buttons, n: nat, sinks: Sinks)
    requires n <= ButtonSlots
    ensures !sinks.button ==> ButtonEvents(c, stored, snap, n, sinks) == []
    ensures sinks.button ==>
      var changed := ChangedButtons(stored, snap, n);
      |ButtonEvents(c, stored, snap, n, sinks)| == |changed| &&
      forall i :: 0 <= i < |changed| ==>
        ButtonEvents(c, stored, snap, n, sinks)[i] == ButtonEvent(c, ButtonBit(changed[i]), snap[changed[i]])
  {
    if n > 0 {
      ButtonEventsInOrder(c, stored, snap, n - 1, sinks);
    }
  }

  /** The D-pad events name each of the four bits at most once. */
  lemma DpadEventsDistinct(c: nat, oldPov: DWord, newPov: DWord, sinks: Sinks)
    ensures |DpadEvents(c, oldPov, newPov, sinks)| <= 4
    ensures forall e :: e in DpadEvents(c, oldPov, newPov, sinks) ==> e.ButtonEvent?
    ensures forall i, j :: 0 <= i < j < |DpadEvents(c, oldPov, newPov, sinks)| ==>
      DpadEvents(c, oldPov, newPov, sinks)[i].button != DpadEvents(c, oldPov, newPov, sinks)[j].button
  {
    if oldPov != newPov {
      HatEventsDistinct(c, DpadMask(oldPov), DpadMask(newPov), sinks);
    }
  }

  lemma HatEventsDistinct(c: nat, was: bv32, now: bv32, sinks: Sinks)
    ensures |HatEvents(c, was, now, sinks)| <= 4
    ensures forall e :: e in HatEvents(c, was, now, sinks) ==> e.ButtonEvent?
    ensures forall i, j :: 0 <= i < j < |HatEvents(c, was, now, sinks)| ==>
      HatEvents(c, was, now, sinks)[i].button != HatEvents(c, was, now, sinks)[j].button
  {
    var changed := was ^ now;
    var up, down := DpadStep(c, DpadUp, changed, now, sinks), DpadStep(c, DpadDown, changed, now, sinks);
    var left, right := DpadStep(c, DpadLeft, changed, now, sinks), DpadStep(c, DpadRight, changed, now, sinks);
    DpadStepShape(c, DpadUp, changed, now, sinks);
    DpadStepShape(c, DpadDown, changed, now, sinks);
    DpadStepShape(c, DpadLeft, changed, now, sinks);
    DpadStepShape(c, DpadRight, changed, now, sinks);
    StepsDistinct(up, down, left, right, DpadUp, DpadDown, DpadLeft, DpadRight);
  }

  /** A D-pad step is at most one button event, about the bit it was given. */
  lemma DpadStepShape(c: nat, bit: bv32, changed: bv32, now: bv32, sinks: Sinks)
    ensures |DpadStep(c, bit, changed, now, sinks)| <= 1
    ensures forall e :: e in DpadStep(c, bit, changed, now, sinks) ==> e.ButtonEvent? && e.button == bit
  {
  }

  /** Four runs of at most one event each, about four different bits, name
      each bit at most once. */
  lemma StepsDistinct(up: seq<Event>, down: seq<Event>, left: seq<Event>, right: seq<Event>,
                      u: bv32, d: bv32, l: bv32, r: bv32)
    requires |up| <= 1 && |down| <= 1 && |left| <= 1 && |right| <= 1
    requires forall e :: e in up ==> e.ButtonEvent? && e.button == u
    requires forall e :: e in down ==> e.ButtonEvent? && e.button == d
    requires forall e :: e in left ==> e.ButtonEvent? && e.button == l
    requires forall e :: e in right ==> e.ButtonEvent? && e.button == r
    requires u != d && u != l && u != r && d != l && d != r && l != r
    ensures |up + down + left + right| <= 4
    ensures forall e :: e in up + down + left + right ==> e.ButtonEvent?
    ensures forall i, j :: 0 <= i < j < |up + down + left + right| ==>
      (up + down + left + right)[i].button != (up + down + left + right)[j].button
  {
    var s := up + down + left + right;
    forall i | 0 <= i < |s|
      ensures s[i].ButtonEvent? && s[i].button == (if i < |up| then u else if i < |up + down| then d else if i < |up + down + left| then l else r)
    {
      if i < |up| {
        assert s[i] in up;
      } else if i < |up + down| {
        assert s[i] == down[i - |up|];
      } else if i < |up + down + left| {
        assert s[i] == left[i - |up + down|];
      } else {
        assert s[i] == right[i - |up + down + left|];
      }
    }
  }

  /** A D-pad bit is reported exactly when it differs between the old and
      new masks, with `pressed` 1 when the new mask holds it and 0 otherwise. */
  lemma DpadEventsExactly(c: nat, oldPov: DWord, newPov: DWord, sinks: Sinks, bit: bv32, pressed: int)
    requires bit == DpadUp || bit == DpadDown || bit == DpadLeft || bit == DpadRight
    ensures ButtonEvent(c, bit, pressed) in DpadEvents(c, oldPov, newPov, sinks) <==>
      sinks.button && (DpadMask(oldPov) ^ DpadMask(newPov)) & bit != 0 &&
      pressed == (if DpadMask(newPov) & bit != 0 then 1 else 0)
  {
    if oldPov == newPov {
      assert DpadMask(oldPov) ^ DpadMask(newPov) == 0;
    }
  }

  /** How a listener that keeps a mask of held buttons applies one event. */
  function ApplyEvent(held: bv32, e: Event): bv32
  {
    if e.AxisEvent? then held else if e.pressed != 0 then held | e.button else held & !e.button
  }

  /** Applies button events to a mask of held buttons, in order. */
  function ApplyButtonEvents(held: bv32, events: seq<Event>): bv32
    decreases |events|
  {
    if events == [] then held else ApplyButtonEvents(ApplyEvent(held, events[0]), events[1..])
  }

  lemma {:induction false} ApplyButtonEventsAppend(held: bv32, xs: seq<Event>, ys: seq<Event>)
    ensures ApplyButtonEvents(held, xs + ys) == ApplyButtonEvents(ApplyButtonEvents(held, xs), ys)
    decreases |xs|
  {
    if xs == [] {
      assert xs + ys == ys;
    } else {
      assert (xs + ys)[0] == xs[0];
      assert (xs + ys)[1..] == xs[1..] + ys;
      ApplyButtonEventsAppend(ApplyEvent(held, xs[0]), xs[1..], ys);
    }
  }

  // `(was & !m) | (now & m)` takes `now` on the bits of `m` and `was` elsewhere;
  // a bit that did not change, was pressed or was released extends `m` by it.

  lemma MixKeep(was: bv32, now: bv32, m: bv32, bit: bv32)
    requires (was ^ now) & bit == 0
    ensures ((was & !m) | (now & m)) == ((was & !(m | bit)) | (now & (m | bit)))
  {
  }

  lemma MixSet(was: bv32, now: bv32, m: bv32, bit: bv32)
    requires now & bit == bit
    ensures ((was & !m) | (now & m)) | bit == ((was & !(m | bit)) | (now & (m | bit)))
  {
  }

  lemma MixClear(was: bv32, now: bv32, m: bv32, bit: bv32)
    requires now & bit == 0
    ensures ((was & !m) | (now & m)) & !bit == ((was & !(m | bit)) | (now & (m | bit)))
  {
  }

  /** A D-pad bit is a single bit: a mask holds all of it or none. */
  lemma DpadBitSingle(x: bv32)
    ensures x & DpadUp == 0 || x & DpadUp == DpadUp
    ensures x & DpadDown == 0 || x & DpadDown == DpadDown
    ensures x & DpadLeft == 0 || x & DpadLeft == DpadLeft
    ensures x & DpadRight == 0 || x & DpadRight == DpadRight
  {
  }

  lemma ApplyOne(held: bv32, e: Event)
    ensures ApplyButtonEvents(held, []) == held
    ensures ApplyButtonEvents(held, [e]) == ApplyEvent(held, e)
  {
    assert [e][1..] == [];
  }

  lemma DpadStepApplies(c: nat, bit: bv32, was: bv32, now: bv32, m: bv32)
    requires now & bit == 0 || now & bit == bit
    ensures ApplyButtonEvents(((was & !m) | (now & m)), DpadStep(c, bit, was ^ now, now, Sinks(true, true))) == ((was & !(m | bit)) | (now & (m | bit)))
  {
    var held := (was & !m) | (now & m);
    var e := ButtonEvent(c, bit, if now & bit != 0 then 1 else 0);
    ApplyOne(held, e);
    if (was ^ now) & bit == 0 {
      MixKeep(was, now, m, bit);
    } else if now & bit != 0 {
      MixSet(was, now, m, bit);
    } else {
      MixClear(was, now, m, bit);
    }
  }

  /** A listener that tracks the D-pad from the events reaches the new mask:
      the events are the difference between the two masks. */
  lemma DpadListenerTracksMask(c: nat, oldPov: DWord, newPov: DWord)
    ensures ApplyButtonEvents(DpadMask(oldPov), DpadEvents(c, oldPov, newPov, Sinks(true, true))) == DpadMask(newPov)
  {
    var sinks := Sinks(true, true);
    if oldPov != newPov {
      var was := DpadMask(oldPov);
      var now := DpadMask(newPov);
      var changed := was ^ now;
      var up := DpadStep(c, DpadUp, changed, now, sinks);
      var down := DpadStep(c, DpadDown, changed, now, sinks);
      var left := DpadStep(c, DpadLeft, changed, now, sinks);
      var right := DpadStep(c, DpadRight, changed, now, sinks);
      ApplyButtonEventsAppend(was, up + down + left, right);
      ApplyButtonEventsAppend(was, up + down, left);
      ApplyButtonEventsAppend(was, up, down);
      assert ((was & !0) | (now & 0)) == was;
      DpadBitSingle(now);
      DpadStepApplies(c, DpadUp, was, now, 0);
      DpadStepApplies(c, DpadDown, was, now, DpadUp);
      DpadStepApplies(c, DpadLeft, was, now, DpadUp | DpadDown);
      DpadStepApplies(c, DpadRight, was, now, DpadUp | DpadDown | DpadLeft);
      assert ((was & !DpadBits) | (now & DpadBits)) == now;
    }
  }

  /** The hat sequence centred, north, east, just past south, centred again
      produces these button events, in this order. */
  lemma PovSequence(c: nat)
    ensures DpadEvents(c, 0xFFFF_FFFF, 0, Sinks(true, true)) == [ButtonEvent(c, DpadUp, 1)]
    ensures DpadEvents(c, 0, 9000, Sinks(true, true)) == [ButtonEvent(c, DpadUp, 0), ButtonEvent(c, DpadRight, 1)]
    ensures DpadEvents(c, 9000, 18001, Sinks(true, true)) ==
      [ButtonEvent(c, DpadDown, 1), ButtonEvent(c, DpadLeft, 1), ButtonEvent(c, DpadRight, 0)]
    ensures DpadEvents(c, 18001, 0xFFFF_FFFF, Sinks(true, true)) ==
      [ButtonEvent(c, DpadDown, 0), ButtonEvent(c, DpadLeft, 0)]
  {
  }

  /** As written the button loop reads past `rgbButtons` for a device that
      reports more than 32 buttons; the polled count stays inside it and
      agrees with the loop bound otherwise. */
  lemma ButtonLoopBound(maxButtons: Int32)
    ensures PolledButtonCount(maxButtons) <= ButtonSlots
    ensures maxButtons <= ButtonSlots ==> PolledButtonCount(maxButtons) == ButtonIndicesAsWritten(maxButtons)
  {
  }

  /** A device with 33 buttons makes the loop as written read `rgbButtons[32]`. */
  lemma ButtonLoopOverrun()
    ensures ButtonIndicesAsWritten(33) > ButtonSlots
    ensures PolledButtonCount(33) == ButtonSlots
  {
  }
}

/** Values shared by the DirectInput controller provider: Windows integer
    widths, GUIDs, the HRESULTs the provider tells apart, and the axis and
    button bits it reports, taken from the constants of the Python binding. */
module ControllerTypes {
  import Native

  type Byte = x: int | 0 <= x < 0x100
  type Word = x: int | 0 <= x < 0x1_0000
  type DWord = x: int | 0 <= x < 0x1_0000_0000
  type Int32 = x: int | -0x8000_0000 <= x < 0x8000_0000

  /** `GUID::Data4`, eight bytes. */
  type GuidTail = s: seq<Byte> | |s| == 8 witness [0, 0, 0, 0, 0, 0, 0, 0]

  /** A Windows GUID, sixteen bytes in all; equality is `IsEqualGUID`. */
  datatype Guid = Guid(data1: DWord, data2: Word, data3: Word, data4: GuidTail)

  /** The all-zero GUID a zeroed slot holds. */
  const NullGuid := Guid(0, 0, 0, [0, 0, 0, 0, 0, 0, 0, 0])

  /** `MAKELONG(lo, hi)` */
  function MakeLong(lo: Word, hi: Word): DWord
  {
    lo + 0x1_0000 * hi
  }

  /** `LOWORD(d)` */
  function LoWord(d: DWord): Word
  {
    d % 0x1_0000
  }

  /** `HIWORD(d)` */
  function HiWord(d: DWord): Word
  {
    d / 0x1_0000
  }

  /** Splitting a DWORD into its words and joining them again are inverse. */
  lemma WordsRoundTrip(lo: Word, hi: Word, d: DWord)
    ensures LoWord(MakeLong(lo, hi)) == lo && HiWord(MakeLong(lo, hi)) == hi
    ensures MakeLong(LoWord(d), HiWord(d)) == d
  {
  }

  /** A DWORD read as a C `int`, two's complement: the same 32 bits. */
  function DWordAsInt32(d: DWord): (i: Int32)
    ensures i % 0x1_0000_0000 == d
    ensures i >= 0 <==> d < 0x8000_0000
  {
    if d < 0x8000_0000 then d else d - 0x1_0000_0000
  }

  /** The HRESULTs the provider distinguishes: `S_OK`, `S_FALSE`,
      `DIERR_INPUTLOST`, `DIERR_OTHERAPPHASPRIO`, and every other failure. */
  datatype HResult = Ok | False | InputLost | OtherAppHasPriority | OtherError

  /** `CheckError`: only `S_OK` counts as success; `S_FALSE` does not. */
  predicate CheckError(hr: HResult)
  {
    hr == Ok
  }

  // Bacon_Controller_Axis_* and Bacon_Controller_Button_* as 32-bit C ints;
  // BitsMatchBinding shows they are the values the Python binding declares.
  const AxisLeftThumbX: bv32 := 0x1
  const AxisLeftThumbY: bv32 := 0x2
  const AxisRightThumbX: bv32 := 0x4
  const AxisRightThumbY: bv32 := 0x8
  const AxisAxis1: bv32 := 0x100

  const DpadUp: bv32 := 0x80
  const DpadDown: bv32 := 0x100
  const DpadLeft: bv32 := 0x200
  const DpadRight: bv32 := 0x400
  const Button1: bv32 := 0x8000

  lemma BitsMatchBinding()
    ensures AxisLeftThumbX as int == Native.AxisLeftThumbX
    ensures AxisLeftThumbY as int == Native.AxisLeftThumbY
    ensures AxisRightThumbX as int == Native.AxisRightThumbX
    ensures AxisRightThumbY as int == Native.AxisRightThumbY
    ensures AxisAxis1 as int == Native.AxisAxis1
    ensures DpadUp as int == Native.ButtonDpadUp && DpadDown as int == Native.ButtonDpadDown
    ensures DpadLeft as int == Native.ButtonDpadLeft && DpadRight as int == Native.ButtonDpadRight
    ensures Button1 as int == Native.ButtonButton1
  {
  }

  /** The four D-pad bits together. */
  const DpadBits: bv32 := DpadUp | DpadDown | DpadLeft | DpadRight

  /** `Bacon_Controller_Button_Button1 << n` on a 32-bit int, computed as the
      x86 `shl` instruction does: the count is taken modulo 32 and bits
      shifted past bit 31 are lost. */
  function ButtonBit(n: nat): bv32
  {
    Button1 << ((n % 32) as bv5)
  }

  /** The first 17 button indices give pairwise distinct single bits. */
  lemma ButtonBitsDistinct(m: nat, n: nat)
    requires m < n < 17
    ensures ButtonBit(m) != ButtonBit(n) && ButtonBit(m) != 0
    ensures ButtonBit(m) & DpadBits == 0
  {
  }

  /** `s_PreferredAxisMap`: the DirectInput axis types the provider
      recognises, in table order, with the canonical axis each becomes.
      The GUIDs are those `dinput.h` declares for `GUID_XAxis` and its kin. */
  const GuidXAxis := Guid(0xA36D02E0, 0xC9F3, 0x11CF, [0xBF, 0xC7, 0x44, 0x45, 0x53, 0x54, 0x00, 0x00])
  const GuidYAxis := Guid(0xA36D02E1, 0xC9F3, 0x11CF, [0xBF, 0xC7, 0x44, 0x45, 0x53, 0x54, 0x00, 0x00])
  const GuidZAxis := Guid(0xA36D02E2, 0xC9F3, 0x11CF, [0xBF, 0xC7, 0x44, 0x45, 0x53, 0x54, 0x00, 0x00])
  const GuidRxAxis := Guid(0xA36D02F4, 0xC9F3, 0x11CF, [0xBF, 0xC7, 0x44, 0x45, 0x53, 0x54, 0x00, 0x00])
  const GuidRyAxis := Guid(0xA36D02F5, 0xC9F3, 0x11CF, [0xBF, 0xC7, 0x44, 0x45, 0x53, 0x54, 0x00, 0x00])
  const GuidRzAxis := Guid(0xA36D02E3, 0xC9F3, 0x11CF, [0xBF, 0xC7, 0x44, 0x45, 0x53, 0x54, 0x00, 0x00])

  const PreferredAxisMap: seq<(Guid, bv32)> := [
    (GuidXAxis, AxisLeftThumbX),
    (GuidYAxis, AxisLeftThumbY),
    (GuidZAxis, AxisRightThumbX),
    (GuidRxAxis, AxisAxis1),
    (GuidRyAxis, AxisAxis1),
    (GuidRzAxis, AxisRightThumbY)
  ]

  /** The axis of the first entry from `i` on whose GUID is `guid`, or 0. */
  function PreferredAxisFrom(guid: Guid, i: nat): bv32
    requires i <= |PreferredAxisMap|
    decreases |PreferredAxisMap| - i
  {
    if i == |PreferredAxisMap| then 0
    else if PreferredAxisMap[i].0 == guid then PreferredAxisMap[i].1
    else PreferredAxisFrom(guid, i + 1)
  }

  /** The search finds an axis exactly when some entry from `i` on lists
      `guid`, and then it is the axis of the first such entry; no entry maps
      to 0, so 0 means "not listed". */
  lemma {:induction false} PreferredAxisFromFirst(guid: Guid, i: nat)
    requires i <= |PreferredAxisMap|
    ensures PreferredAxisFrom(guid, i) != 0 <==> exists j :: i <= j < |PreferredAxisMap| && PreferredAxisMap[j].0 == guid
    ensures PreferredAxisFrom(guid, i) != 0 ==>
      exists j :: i <= j < |PreferredAxisMap| && PreferredAxisMap[j] == (guid, PreferredAxisFrom(guid, i)) &&
        (forall k :: i <= k < j ==> PreferredAxisMap[k].0 != guid)
    decreases |PreferredAxisMap| - i
  {
    if i < |PreferredAxisMap| && PreferredAxisMap[i].0 != guid {
      PreferredAxisFromFirst(guid, i + 1);
    }
  }

  /** What `GetPreferredAxisIndex` returns: the canonical axis for an axis
      type, 0 for a type the table does not list. */
  function PreferredAxis(guid: Guid): bv32
  {
    PreferredAxisFrom(guid, 0)
  }

  /** The stick axes map as the table lists them. */
  lemma PreferredAxisSticks()
    ensures PreferredAxis(GuidXAxis) == AxisLeftThumbX
    ensures PreferredAxis(GuidYAxis) == AxisLeftThumbY
    ensures PreferredAxis(GuidZAxis) == AxisRightThumbX
    ensures PreferredAxis(GuidRzAxis) == AxisRightThumbY
  {
    assert PreferredAxisFrom(GuidYAxis, 1) == AxisLeftThumbY;
    assert PreferredAxisFrom(GuidZAxis, 2) == AxisRightThumbX;
    assert PreferredAxisFrom(GuidRzAxis, 5) == AxisRightThumbY;
  }

  /** Rx and Ry both become Axis1. */
  lemma PreferredAxisRxRy()
    ensures PreferredAxis(GuidRxAxis) == AxisAxis1 && PreferredAxis(GuidRyAxis) == AxisAxis1
  {
    assert PreferredAxisFrom(GuidRxAxis, 3) == AxisAxis1;
    assert PreferredAxisFrom(GuidRyAxis, 4) == AxisAxis1;
  }

  /** The axis `GetPreferredAxisIndex` gives is the one the first table
      entry for `guid` lists, and 0 exactly when no entry lists `guid`. */
  lemma PreferredAxisFirst(guid: Guid)
    ensures PreferredAxis(guid) == 0 <==> forall j :: 0 <= j < |PreferredAxisMap| ==> PreferredAxisMap[j].0 != guid
    ensures PreferredAxis(guid) != 0 ==>
      exists j :: 0 <= j < |PreferredAxisMap| && PreferredAxisMap[j] == (guid, PreferredAxis(guid)) &&
        (forall k :: 0 <= k < j ==> PreferredAxisMap[k].0 != guid)
  {
    PreferredAxisFromFirst(guid, 0);
  }
}

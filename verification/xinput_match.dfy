/** The decision inside `IsXInputDevice`: whether a plug-and-play device that
    the XInput provider serves is the product DirectInput offers.

    A device ID such as `VID_045E&PID_028E&IG_00` belongs to an XInput device
    when it contains `IG_`; its vendor and product IDs are read after the first
    `VID_` and the first `PID_` as up to four hexadecimal digits, and the pair
    `MAKELONG(vid, pid)` is compared with `Data1` of the DirectInput product
    GUID. The inventory query itself is an input here: the device IDs the
    enumeration delivered, `None` where an entry had no readable string. */
module XInputMatch {
  import opened Wrappers
  import opened ControllerTypes

  predicate OccursAt(s: string, pat: string, i: int)
  {
    0 <= i && i + |pat| <= |s| && s[i..i + |pat|] == pat
  }

  /** `wcsstr` from position `from`: the first occurrence of `pat` there or later. */
  function FindFrom(s: string, pat: string, from: nat): (r: Option<nat>)
    ensures r.Some? ==> from <= r.value && OccursAt(s, pat, r.value) &&
                        (forall j :: from <= j < r.value ==> !OccursAt(s, pat, j))
    ensures r.None? ==> forall j :: from <= j ==> !OccursAt(s, pat, j)
    decreases |s| - from
  {
    if from + |pat| > |s| then None
    else if s[from..from + |pat|] == pat then Some(from)
    else FindFrom(s, pat, from + 1)
  }

  /** `wcsstr(s, pat)` */
  function Find(s: string, pat: string): Option<nat>
  {
    FindFrom(s, pat, 0)
  }

  predicate IsHexDigit(c: char)
  {
    '0' <= c <= '9' || 'a' <= c <= 'f' || 'A' <= c <= 'F'
  }

  function HexDigitValue(c: char): (v: nat)
    requires IsHexDigit(c)
    ensures v < 16
  {
    if '0' <= c <= '9' then c as int - '0' as int
    else if 'a' <= c <= 'f' then c as int - 'a' as int + 10
    else c as int - 'A' as int + 10
  }

  function Pow16(n: nat): nat
  {
    if n == 0 then 1 else 16 * Pow16(n - 1)
  }

  /** The number of leading hexadecimal digits of `s`, at most `width`. */
  function HexRun(s: string, width: nat): (n: nat)
    ensures n <= width && n <= |s|
    ensures forall i :: 0 <= i < n ==> IsHexDigit(s[i])
    ensures n < width && n < |s| ==> !IsHexDigit(s[n])
  {
    if width == 0 || |s| == 0 || !IsHexDigit(s[0]) then 0
    else 1 + HexRun(s[1..], width - 1)
  }

  /** The value of a string of hexadecimal digits, most significant first. */
  function HexValue(digits: string): (v: nat)
    requires forall i :: 0 <= i < |digits| ==> IsHexDigit(digits[i])
    ensures v < Pow16(|digits|)
  {
    if digits == [] then 0
    else HexValue(digits[..|digits| - 1]) * 16 + HexDigitValue(digits[|digits| - 1])
  }

  /** `swscanf_s(s, L"%4X", &value)`: the value of up to four hexadecimal
      digits, or `None` when `s` does not start with one (the call then
      returns 0 and the source keeps the value 0). */
  function ScanHex4(s: string): (r: Option<Word>)
    ensures r.Some? <==> |s| > 0 && IsHexDigit(s[0])
  {
    var n := HexRun(s, 4);
    if n == 0 then None
    else
      assert Pow16(n) <= Pow16(4) == 0x1_0000 by { Pow16Monotone(n, 4); }
      Some(HexValue(s[..n]))
  }

  lemma {:induction false} Pow16Monotone(m: nat, n: nat)
    requires m <= n
    ensures Pow16(m) <= Pow16(n)
    decreases n
  {
    if m < n {
      Pow16Monotone(m, n - 1);
    }
  }

  /** The ID read after the first occurrence of `marker` (`VID_` or `PID_`),
      or 0 when the marker is missing or no digit follows it. */
  function IdAfter(deviceId: string, marker: string): Word
  {
    match Find(deviceId, marker)
    case None => 0
    case Some(i) =>
      match ScanHex4(deviceId[i + |marker|..])
      case None => 0
      case Some(v) => v
  }

  function VendorOf(deviceId: string): Word
  {
    IdAfter(deviceId, "VID_")
  }

  function ProductOf(deviceId: string): Word
  {
    IdAfter(deviceId, "PID_")
  }

  /** The device ID names an XInput device whose vendor and product are the
      DirectInput product `data1`. */
  predicate DeviceIdMatches(deviceId: string, data1: DWord)
  {
    Find(deviceId, "IG_").Some? && MakeLong(VendorOf(deviceId), ProductOf(deviceId)) == data1
  }

  predicate ClaimsProduct(deviceId: Option<string>, product: Guid)
  {
    deviceId.Some? && DeviceIdMatches(deviceId.value, product.data1)
  }

  /** The device loop of `IsXInputDevice`: true at the first inventory entry
      that matches, false when none does (including an empty inventory, which
      is what an unreachable inventory service yields). */
  method IsXInputDevice(deviceIds: seq<Option<string>>, product: Guid) returns (claimed: bool)
    ensures claimed <==> exists i :: 0 <= i < |deviceIds| && ClaimsProduct(deviceIds[i], product)
  {
    for i := 0 to |deviceIds|
      invariant forall j :: 0 <= j < i ==> !ClaimsProduct(deviceIds[j], product)
    {
      if deviceIds[i].Some? && DeviceIdMatches(deviceIds[i].value, product.data1) {
        return true;
      }
    }
    return false;
  }

  /** An upper-case hexadecimal digit. */
  function HexChar(d: nat): (c: char)
    requires d < 16
    ensures IsHexDigit(c) && HexDigitValue(c) == d
  {
    if d < 10 then ('0' as int + d) as char else ('A' as int + d - 10) as char
  }

  /** A WORD as the four hexadecimal digits a device ID carries. */
  function Hex4(v: Word): (s: string)
    ensures |s| == 4 && forall i :: 0 <= i < 4 ==> IsHexDigit(s[i]) && s[i] != 'P' && s[i] != 'I'
  {
    [HexChar(v / 0x1000), HexChar(v / 0x100 % 16), HexChar(v / 0x10 % 16), HexChar(v % 16)]
  }

  /** A string starting with `width` hexadecimal digits has a run of `width`. */
  lemma {:induction false} HexRunFull(s: string, width: nat)
    requires width <= |s| && forall i :: 0 <= i < width ==> IsHexDigit(s[i])
    ensures HexRun(s, width) == width
    decreases width
  {
    if width > 0 {
      HexRunFull(s[1..], width - 1);
    }
  }

  lemma Hex4Digits(v: Word)
    ensures ((v / 0x1000 * 16 + v / 0x100 % 16) * 16 + v / 0x10 % 16) * 16 + v % 16 == v
  {
    var r1, r2, r3 := v / 0x10, v / 0x100, v / 0x1000;
    assert r2 == r1 / 16 && r3 == r2 / 16;
    assert v == r1 * 16 + v % 16;
    assert r1 == r2 * 16 + r1 % 16;
    assert r2 == r3 * 16 + r2 % 16;
  }

  /** Reading four digits back gives the WORD that was written, whatever follows. */
  lemma ScanHex4RoundTrip(v: Word, rest: string)
    ensures ScanHex4(Hex4(v) + rest) == Some(v)
  {
    var s := Hex4(v) + rest;
    HexRunFull(s, 4);
    var digits := s[..4];
    assert digits == Hex4(v);
    var a, b, c, d := v / 0x1000, v / 0x100 % 16, v / 0x10 % 16, v % 16;
    assert HexValue(digits[..1]) == a by {
      assert digits[..1][..0] == [];
    }
    assert HexValue(digits[..2]) == a * 16 + b by {
      assert digits[..2][..1] == digits[..1];
    }
    assert HexValue(digits[..3]) == (a * 16 + b) * 16 + c by {
      assert digits[..3][..2] == digits[..2];
    }
    assert HexValue(digits) == ((a * 16 + b) * 16 + c) * 16 + d by {
      assert digits[..3] == digits[..|digits| - 1];
    }
    Hex4Digits(v);
  }

  /** The ID after the first occurrence of a marker that four digits follow. */
  lemma IdAfterFirst(id: string, marker: string, i: nat, v: Word, rest: string)
    requires OccursAt(id, marker, i) && forall j :: 0 <= j < i ==> !OccursAt(id, marker, j)
    requires id[i + |marker|..] == Hex4(v) + rest
    ensures IdAfter(id, marker) == v
  {
    assert Find(id, marker) == Some(i);
    ScanHex4RoundTrip(v, rest);
  }

  /** The usual shape of an XInput device ID. */
  function UsualDeviceId(vid: Word, pid: Word, tail: string): string
  {
    "VID_" + Hex4(vid) + "&PID_" + Hex4(pid) + "&IG_" + tail
  }

  lemma UsualVendor(vid: Word, pid: Word, tail: string)
    ensures VendorOf(UsualDeviceId(vid, pid, tail)) == vid
  {
    var id := UsualDeviceId(vid, pid, tail);
    var rest := "&PID_" + Hex4(pid) + "&IG_" + tail;
    assert id == "VID_" + (Hex4(vid) + rest);
    assert id[..4] == "VID_";
    IdAfterFirst(id, "VID_", 0, vid, rest);
  }

  lemma UsualProduct(vid: Word, pid: Word, tail: string)
    ensures ProductOf(UsualDeviceId(vid, pid, tail)) == pid
  {
    var id := UsualDeviceId(vid, pid, tail);
    var rest := "&IG_" + tail;
    var head := "VID_" + Hex4(vid) + "&";
    assert |head| == 9;
    assert id == head + ("PID_" + (Hex4(pid) + rest));
    assert id[9..13] == "PID_";
    assert id[13..] == Hex4(pid) + rest;
    // Nothing before position 9 is a 'P': the digits of Hex4 never are.
    forall j | 0 <= j < 9
      ensures !OccursAt(id, "PID_", j)
    {
      assert id[j] == head[j] != 'P';
    }
    IdAfterFirst(id, "PID_", 9, pid, rest);
  }

  lemma UsualIsXInput(vid: Word, pid: Word, tail: string)
    ensures Find(UsualDeviceId(vid, pid, tail), "IG_").Some?
  {
    var id := UsualDeviceId(vid, pid, tail);
    var head := "VID_" + Hex4(vid) + "&PID_" + Hex4(pid) + "&";
    assert id == head + ("IG_" + tail);
    assert OccursAt(id, "IG_", |head|);
  }

  /** A device ID of the usual shape matches exactly the product whose
      `Data1` is `MAKELONG(vid, pid)`. */
  lemma DeviceIdRoundTrip(vid: Word, pid: Word, tail: string, data1: DWord)
    ensures DeviceIdMatches(UsualDeviceId(vid, pid, tail), data1) <==> data1 == MakeLong(vid, pid)
  {
    UsualVendor(vid, pid, tail);
    UsualProduct(vid, pid, tail);
    UsualIsXInput(vid, pid, tail);
  }
}

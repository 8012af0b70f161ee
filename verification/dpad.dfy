/** `GetDpadButtonMaskForPov`: the D-pad buttons implied by a POV hat angle.

    The angle is in hundredths of a degree clockwise from north. A value whose
    low 16 bits are all ones means the hat is centred. */
module Dpad {
  import opened ControllerTypes

  /** `DI_DEGREES` of `dinput.h`: one degree in POV units. */
  const DiDegrees := 100

  const North := 0
  const East := 90 * DiDegrees
  const South := 180 * DiDegrees
  const West := 270 * DiDegrees

  /** The centred sentinel test of the source: `(pov & 0xffff) == 0xffff`. */
  predicate IsCentered(pov: Int32)
  {
    pov % 0x1_0000 == 0xFFFF
  }

  function GetDpadButtonMaskForPov(pov: Int32): (buttons: bv32)
    ensures buttons & !DpadBits == 0
    ensures IsCentered(pov) ==> buttons == 0
  {
    if IsCentered(pov) then 0
    else
      (if pov > West || pov < East then DpadUp else 0) |
      (if pov > North && pov < South then DpadRight else 0) |
      (if pov > East && pov < West then DpadDown else 0) |
      (if pov > South then DpadLeft else 0)
  }

  /** The mask for a stored `rgdwPOV[0]`, a DWORD passed to the `int` parameter. */
  function DpadMask(pov: DWord): bv32
  {
    GetDpadButtonMaskForPov(DWordAsInt32(pov))
  }

  /** Each D-pad bit is set by its strict comparisons and by nothing else. */
  lemma DpadBitsExactly(pov: Int32)
    requires !IsCentered(pov)
    ensures GetDpadButtonMaskForPov(pov) & DpadUp != 0 <==> pov > 27000 || pov < 9000
    ensures GetDpadButtonMaskForPov(pov) & DpadRight != 0 <==> 0 < pov < 18000
    ensures GetDpadButtonMaskForPov(pov) & DpadDown != 0 <==> 9000 < pov < 27000
    ensures GetDpadButtonMaskForPov(pov) & DpadLeft != 0 <==> pov > 18000
  {
  }

  /** The all-ones DWORD the provider stores at registration reads as centred. */
  lemma SentinelIsCentered()
    ensures IsCentered(DWordAsInt32(0xFFFF_FFFF)) && DpadMask(0xFFFF_FFFF) == 0
  {
  }

  /** Angular distance between two angles of the full circle, in POV units. */
  function AngleBetween(a: int, b: int): int
    requires 0 <= a < 360 * DiDegrees && 0 <= b < 360 * DiDegrees
  {
    var d := if a >= b then a - b else b - a;
    if d <= 180 * DiDegrees then d else 360 * DiDegrees - d
  }

  /** A direction is pressed exactly when the hat points strictly within 90
      degrees of that direction's compass point. */
  lemma DpadSectors(pov: Int32)
    requires 0 <= pov < 360 * DiDegrees
    ensures GetDpadButtonMaskForPov(pov) & DpadUp != 0 <==> AngleBetween(pov, North) < 90 * DiDegrees
    ensures GetDpadButtonMaskForPov(pov) & DpadRight != 0 <==> AngleBetween(pov, East) < 90 * DiDegrees
    ensures GetDpadButtonMaskForPov(pov) & DpadDown != 0 <==> AngleBetween(pov, South) < 90 * DiDegrees
    ensures GetDpadButtonMaskForPov(pov) & DpadLeft != 0 <==> AngleBetween(pov, West) < 90 * DiDegrees
  {
  }

  /** Opposite directions are never pressed together, whatever the value. */
  lemma DpadNeverOpposite(pov: Int32)
    ensures GetDpadButtonMaskForPov(pov) & (DpadUp | DpadDown) != DpadUp | DpadDown
    ensures GetDpadButtonMaskForPov(pov) & (DpadLeft | DpadRight) != DpadLeft | DpadRight
  {
  }

  /** A compass point presses exactly one direction; the diagonals between
      them press the two neighbours. */
  lemma DpadCompassPoints()
    ensures GetDpadButtonMaskForPov(North) == DpadUp
    ensures GetDpadButtonMaskForPov(East) == DpadRight
    ensures GetDpadButtonMaskForPov(South) == DpadDown
    ensures GetDpadButtonMaskForPov(West) == DpadLeft
    ensures GetDpadButtonMaskForPov(4500) == DpadUp | DpadRight
    ensures GetDpadButtonMaskForPov(31500) == DpadUp | DpadLeft
  {
  }

  /** The comparisons are not symmetric beyond the circle: an angle of 360
      degrees or more that is not the centred value presses Up and Left. */
  lemma DpadBeyondCircle(pov: Int32)
    requires pov >= 360 * DiDegrees && !IsCentered(pov)
    ensures GetDpadButtonMaskForPov(pov) == DpadUp | DpadLeft
  {
  }
}

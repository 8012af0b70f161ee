/** The `enum` and `flags` class decorators of the Python binding and the
    controller constants it declares.

    A Python class is represented by the attributes `dir(cls)` lists, each a
    name and an integer value. Both decorators collect the public attributes
    (names not starting with `_`) into a table from value to name, store it on
    the class and attach a `tostring` class method: for `enum` a lookup, for
    `flags` a decomposition of a bitmask into the names of its set bits. */
module Native {
  import opened Wrappers

  /** An attribute name; Python identifiers are never empty. */
  type AttrName = s: string | |s| > 0 witness "a"

  type Attribute = (AttrName, int)

  /** What `cls.__names[value]` raises when the table has no entry for `value`. */
  datatype KeyError = KeyError(key: int)

  predicate IsPublic(name: AttrName)
  {
    name[0] != '_'
  }

  /** The table both decorators build: every public attribute, in `dir` order,
      writes `names[value] = key`, so a later name wins over an earlier one
      with the same value. */
  function NameTable(attrs: seq<Attribute>): map<int, string>
  {
    if attrs == [] then map[]
    else
      var last := attrs[|attrs| - 1];
      var table := NameTable(attrs[..|attrs| - 1]);
      if IsPublic(last.0) then table[last.1 := last.0] else table
  }

  /** Attribute `i` is public and holds `value`. */
  predicate Declares(attrs: seq<Attribute>, i: int, value: int)
  {
    0 <= i < |attrs| && IsPublic(attrs[i].0) && attrs[i].1 == value
  }

  /** A value is in the table exactly when some public attribute holds it, and
      the name stored for it is that of the last public attribute holding it. */
  lemma {:induction false} NameTableLookup(attrs: seq<Attribute>, value: int)
    ensures value in NameTable(attrs) <==> exists i :: Declares(attrs, i, value)
    ensures value in NameTable(attrs) ==>
      exists i :: Declares(attrs, i, value) && attrs[i].0 == NameTable(attrs)[value] &&
        forall j :: i < j ==> !Declares(attrs, j, value)
  {
    if attrs != [] {
      var n := |attrs| - 1;
      var prefix := attrs[..n];
      NameTableLookup(prefix, value);
      assert forall i :: Declares(prefix, i, value) <==> 0 <= i < n && Declares(attrs, i, value);
      if Declares(attrs, n, value) {
        assert attrs[n].0 == NameTable(attrs)[value];
        assert forall j :: n < j ==> !Declares(attrs, j, value);
      } else {
        assert NameTable(attrs) == (if IsPublic(attrs[n].0) then NameTable(prefix)[attrs[n].1 := attrs[n].0] else NameTable(prefix));
        if value in NameTable(attrs) {
          var i :| Declares(prefix, i, value) && prefix[i].0 == NameTable(prefix)[value] &&
            forall j :: i < j ==> !Declares(prefix, j, value);
          assert Declares(attrs, i, value);
          assert forall j :: i < j ==> !Declares(attrs, j, value);
        }
      }
    }
  }

  /** For a class whose public attributes have pairwise distinct values (an
      enumeration), looking up an attribute's value gives back its name. */
  lemma EnumRoundTrip(attrs: seq<Attribute>, k: nat)
    requires k < |attrs| && IsPublic(attrs[k].0)
    requires forall i, j :: 0 <= i < j < |attrs| && IsPublic(attrs[i].0) && IsPublic(attrs[j].0) ==>
      attrs[i].1 != attrs[j].1
    ensures attrs[k].1 in NameTable(attrs) && NameTable(attrs)[attrs[k].1] == attrs[k].0
  {
    NameTableLookup(attrs, attrs[k].1);
  }

  function Pow2(k: nat): (r: nat)
    ensures r >= 1
  {
    if k == 0 then 1 else 2 * Pow2(k - 1)
  }

  /** Bit `p` of a Python integer in two's complement, which is what
      `value & 1` reads after `p` shifts `value >>= 1`. */
  function Bit(value: int, p: nat): bool
    decreases p
  {
    if p == 0 then value % 2 == 1 else Bit(value / 2, p - 1)
  }

  /** The positions of the set bits of `value`, lowest first, counted from `k`. */
  function SetBitsFrom(value: nat, k: nat): seq<nat>
  {
    if value == 0 then []
    else (if value % 2 == 1 then [k] else []) + SetBitsFrom(value / 2, k + 1)
  }

  function SumPow2(ps: seq<nat>): nat
  {
    if ps == [] then 0 else Pow2(ps[0]) + SumPow2(ps[1..])
  }

  /** Shifting right never reaches 0 from a negative value, so the loop of
      `flags.tostring` is bounded by this measure together with the set of
      table keys not yet visited. */
  function ShiftMeasure(value: int): nat
  {
    if value >= 0 then value else -value - 1
  }

  function KeysFrom(names: map<int, string>, bit: int): set<int>
  {
    set key | key in names && key >= bit
  }

  /** The names `flags.tostring` appends while `value` is shifted right and
      `bit` left, or the `KeyError` of the first set bit that has no name. */
  function FlagItems(names: map<int, string>, value: int, bit: nat): Result<seq<string>, KeyError>
    requires bit >= 1
    decreases ShiftMeasure(value), KeysFrom(names, bit)
  {
    if value == 0 then Success([])
    else if value % 2 == 1 && bit !in names then Failure(KeyError(bit))
    else
      var head := if value % 2 == 1 then [names[bit]] else [];
      assert value % 2 == 1 ==> bit in KeysFrom(names, bit) - KeysFrom(names, 2 * bit);
      Prepend(head, FlagItems(names, value / 2, 2 * bit))
  }

  function Prepend(items: seq<string>, rest: Result<seq<string>, KeyError>): Result<seq<string>, KeyError>
  {
    match rest
    case Success(tail) => Success(items + tail)
    case Failure(e) => Failure(e)
  }

  lemma PrependEmpty(rest: Result<seq<string>, KeyError>)
    ensures Prepend([], rest) == rest
  {
    if rest.Success? {
      assert [] + rest.value == rest.value;
    }
  }

  lemma PrependAppend(items: seq<string>, more: seq<string>, rest: Result<seq<string>, KeyError>)
    ensures Prepend(items, Prepend(more, rest)) == Prepend(items + more, rest)
  {
    if rest.Success? {
      assert items + (more + rest.value) == (items + more) + rest.value;
    }
  }

  /** `sep.join(items)` */
  function Join(items: seq<string>, sep: string): string
  {
    if items == [] then ""
    else if |items| == 1 then items[0]
    else items[0] + sep + Join(items[1..], sep)
  }

  /** What `flags.tostring(value)` returns or raises. */
  function FlagsString(names: map<int, string>, value: int): Result<string, KeyError>
  {
    if value == 0 then Success("0")
    else
      match FlagItems(names, value, 1)
      case Success(items) => Success(Join(items, " | "))
      case Failure(e) => Failure(e)
  }

  /** The set-bit positions are strictly ascending and start at `k` or later. */
  lemma {:induction false} SetBitsAscending(value: nat, k: nat)
    ensures forall i :: 0 <= i < |SetBitsFrom(value, k)| ==> SetBitsFrom(value, k)[i] >= k
    ensures forall i, j :: 0 <= i < j < |SetBitsFrom(value, k)| ==>
      SetBitsFrom(value, k)[i] < SetBitsFrom(value, k)[j]
  {
    if value != 0 {
      SetBitsAscending(value / 2, k + 1);
    }
  }

  /** A position is listed exactly when that bit of `value` is set. */
  lemma {:induction false} SetBitsMembership(value: nat, k: nat, p: nat)
    ensures p in SetBitsFrom(value, k) <==> p >= k && Bit(value, p - k)
  {
    if value == 0 {
      if p >= k {
        BitOfZero(p - k);
      }
    } else {
      SetBitsMembership(value / 2, k + 1, p);
      SetBitsAscending(value / 2, k + 1);
      if p > k {
        assert Bit(value, p - k) == Bit(value / 2, p - (k + 1));
      }
    }
  }

  lemma {:induction false} BitOfZero(p: nat)
    ensures !Bit(0, p)
  {
    if p > 0 {
      BitOfZero(p - 1);
    }
  }

  lemma {:induction false} SumPow2Append(xs: seq<nat>, ys: seq<nat>)
    ensures SumPow2(xs + ys) == SumPow2(xs) + SumPow2(ys)
  {
    if xs != [] {
      assert (xs + ys)[0] == xs[0];
      assert (xs + ys)[1..] == xs[1..] + ys;
      SumPow2Append(xs[1..], ys);
    } else {
      assert xs + ys == ys;
    }
  }

  /** The listed bits add back up to the value: the decomposition loses nothing. */
  lemma {:induction false} SetBitsSum(value: nat, k: nat)
    ensures SumPow2(SetBitsFrom(value, k)) == value * Pow2(k)
  {
    if value != 0 {
      var head: seq<nat> := if value % 2 == 1 then [k] else [];
      SetBitsSum(value / 2, k + 1);
      SumPow2Append(head, SetBitsFrom(value / 2, k + 1));
      assert SumPow2(head) == (value % 2) * Pow2(k);
      HalvingProduct(value, Pow2(k));
    }
  }

  lemma HalvingProduct(value: nat, scale: nat)
    ensures (value % 2) * scale + (value / 2) * (2 * scale) == value * scale
  {
    var a, b := value % 2, value / 2;
    assert value == a + 2 * b;
    calc {
      a * scale + b * (2 * scale);
      a * scale + (2 * b) * scale;
      (a + 2 * b) * scale;
    }
  }

  /** For a non-negative value, `flags.tostring` succeeds exactly when every
      set bit has a name, and then lists one name per set bit, lowest bit first. */
  lemma {:induction false} FlagItemsNameSetBits(names: map<int, string>, value: nat, k: nat)
    ensures FlagItems(names, value, Pow2(k)).Success? <==>
      forall i :: 0 <= i < |SetBitsFrom(value, k)| ==> Pow2(SetBitsFrom(value, k)[i]) in names
    ensures FlagItems(names, value, Pow2(k)).Success? ==>
      var items := FlagItems(names, value, Pow2(k)).value;
      |items| == |SetBitsFrom(value, k)| &&
      forall i :: 0 <= i < |items| ==> items[i] == names[Pow2(SetBitsFrom(value, k)[i])]
    decreases value
  {
    if value != 0 {
      var bits := SetBitsFrom(value, k);
      var rest := SetBitsFrom(value / 2, k + 1);
      var r := FlagItems(names, value, Pow2(k));
      var rr := FlagItems(names, value / 2, Pow2(k + 1));
      assert Pow2(k + 1) == 2 * Pow2(k);
      FlagItemsNameSetBits(names, value / 2, k + 1);
      if value % 2 == 1 {
        assert bits == [k] + rest;
        if Pow2(k) !in names {
          assert r.Failure?;
          assert bits[0] == k;
        } else {
          assert r == Prepend([names[Pow2(k)]], rr);
          assert forall i :: 0 <= i < |rest| ==> bits[i + 1] == rest[i];
          assert forall i :: 0 < i < |bits| ==> bits[i] == rest[i - 1];
          if rr.Success? {
            assert |r.value| == |bits|;
            assert forall i :: 0 < i < |bits| ==> r.value[i] == rr.value[i - 1];
          }
        }
      } else {
        assert bits == rest;
        assert r == Prepend([], rr);
        PrependEmpty(rr);
      }
    }
  }

  /** A negative value is shifted towards -1, whose every bit is set, so
      `flags.tostring` eventually meets a bit with no name and raises. */
  lemma {:induction false} NegativeFlagsRaise(names: map<int, string>, value: int, bit: nat)
    requires value < 0 && bit >= 1
    ensures FlagItems(names, value, bit).Failure?
    decreases ShiftMeasure(value), KeysFrom(names, bit)
  {
    if !(value % 2 == 1 && bit !in names) {
      assert value % 2 == 1 ==> bit in KeysFrom(names, bit) - KeysFrom(names, 2 * bit);
      NegativeFlagsRaise(names, value / 2, 2 * bit);
    }
  }

  datatype Decorator = Undecorated | EnumDecorator | FlagsDecorator

  /** A Python class object, before and after decoration. */
  class DecoratedClass {
    const attributes: seq<Attribute>
    var names: map<int, string>     // cls.__names
    var decorator: Decorator        // which tostring is attached

    ghost predicate Valid()
      reads this
    {
      decorator != Undecorated ==> names == NameTable(attributes)
    }

    constructor (attributes: seq<Attribute>)
      ensures Valid() && this.attributes == attributes
      ensures names == map[] && decorator == Undecorated
    {
      this.attributes := attributes;
      names := map[];
      decorator := Undecorated;
    }

    /** The loop both decorators share: `names[getattr(cls, key)] = key` for each public key. */
    method CollectNames()
      modifies this`names
      ensures names == NameTable(attributes)
    {
      var table: map<int, string> := map[];
      for i := 0 to |attributes|
        invariant table == NameTable(attributes[..i])
      {
        assert attributes[..i + 1][..i] == attributes[..i];
        var (key, value) := attributes[i];
        if IsPublic(key) {
          table := table[value := key];
        }
      }
      assert attributes[..|attributes|] == attributes;
      names := table;
    }

    /** The `enum` decorator. */
    method Enum()
      modifies this
      ensures Valid() && decorator == EnumDecorator && names == NameTable(attributes)
    {
      CollectNames();
      decorator := EnumDecorator;
    }

    /** The `flags` decorator. */
    method Flags()
      modifies this
      ensures Valid() && decorator == FlagsDecorator && names == NameTable(attributes)
    {
      CollectNames();
      decorator := FlagsDecorator;
    }

    /** `enum.tostring`: the name of the public attribute holding `value`, or `KeyError`. */
    function EnumToString(value: int): (r: Result<string, KeyError>)
      reads this
      requires Valid() && decorator == EnumDecorator
      ensures r.Success? <==> exists i :: Declares(attributes, i, value)
      ensures r.Success? ==> exists i :: Declares(attributes, i, value) && attributes[i].0 == r.value
      ensures r.Failure? ==> r.error == KeyError(value)
    {
      NameTableLookup(attributes, value);
      if value in names then Success(names[value]) else Failure(KeyError(value))
    }

    /** `flags.tostring`: `'0'` for 0, otherwise the names of the set bits,
        lowest first, joined by `' | '`. */
    method FlagsToString(value: int) returns (r: Result<string, KeyError>)
      requires Valid() && decorator == FlagsDecorator
      ensures value == 0 ==> r == Success("0")
      ensures r == FlagsString(names, value)
    {
      if value == 0 {
        return Success("0");
      }
      var items: seq<string> := [];
      PrependEmpty(FlagItems(names, value, 1));
      var bit: nat := 1;
      var v := value;
      while v != 0
        invariant bit >= 1
        invariant FlagItems(names, value, 1) == Prepend(items, FlagItems(names, v, bit))
        decreases ShiftMeasure(v), KeysFrom(names, bit)
      {
        if v % 2 == 1 {
          if bit !in names {
            return Failure(KeyError(bit));
          }
          assert bit in KeysFrom(names, bit) - KeysFrom(names, 2 * bit);
          PrependAppend(items, [names[bit]], FlagItems(names, v / 2, 2 * bit));
          items := items + [names[bit]];
        } else {
          PrependEmpty(FlagItems(names, v / 2, 2 * bit));
        }
        bit := 2 * bit;
        v := v / 2;
      }
      assert items + [] == items;
      return Success(Join(items, " | "));
    }
  }

  // ControllerButtons, a @flags class.
  const ButtonStart := 0x1
  const ButtonBack := 0x2
  const ButtonSelect := 0x4
  const ButtonActionUp := 0x8
  const ButtonActionDown := 0x10
  const ButtonActionLeft := 0x20
  const ButtonActionRight := 0x40
  const ButtonDpadUp := 0x80           // 1 << 7
  const ButtonDpadDown := 0x100        // 1 << 8
  const ButtonDpadLeft := 0x200        // 1 << 9
  const ButtonDpadRight := 0x400       // 1 << 10
  const ButtonLeftShoulder := 0x800
  const ButtonRightShoulder := 0x1000
  const ButtonLeftThumb := 0x2000
  const ButtonRightThumb := 0x4000
  const ButtonButton1 := 0x8000        // 1 << 15; buttonN is 1 << (14 + N)

  /** The public attributes of ControllerButtons: the named buttons, then
      button1 to button18. */
  const ControllerButtons: seq<Attribute> := NamedButtons + NumberedButtons

  const NamedButtons: seq<Attribute> := [
    ("start", ButtonStart), ("back", ButtonBack), ("select", ButtonSelect),
    ("action_up", ButtonActionUp), ("action_down", ButtonActionDown),
    ("action_left", ButtonActionLeft), ("action_right", ButtonActionRight),
    ("dpad_up", ButtonDpadUp), ("dpad_down", ButtonDpadDown),
    ("dpad_left", ButtonDpadLeft), ("dpad_right", ButtonDpadRight),
    ("left_shoulder", ButtonLeftShoulder), ("right_shoulder", ButtonRightShoulder),
    ("left_thumb", ButtonLeftThumb), ("right_thumb", ButtonRightThumb)
  ]

  const NumberedButtons: seq<Attribute> := [
    ("button1", ButtonButton1), ("button2", 0x1_0000), ("button3", 0x2_0000),
    ("button4", 0x4_0000), ("button5", 0x8_0000), ("button6", 0x10_0000),
    ("button7", 0x20_0000), ("button8", 0x40_0000), ("button9", 0x80_0000),
    ("button10", 0x100_0000), ("button11", 0x200_0000), ("button12", 0x400_0000),
    ("button13", 0x800_0000), ("button14", 0x1000_0000), ("button15", 0x2000_0000),
    ("button16", 0x4000_0000), ("button17", 0x8000_0000), ("button18", 0x1_0000_0000)
  ]

  // ControllerAxes, a @flags class.
  const AxisLeftThumbX := 0x1
  const AxisLeftThumbY := 0x2
  const AxisRightThumbX := 0x4
  const AxisRightThumbY := 0x8
  const AxisLeftTrigger := 0x10
  const AxisRightTrigger := 0x20
  const AxisAxis1 := 0x100             // 1 << 8

  /** The public attributes of ControllerAxes. */
  const ControllerAxes: seq<Attribute> := [
    ("left_thumb_x", AxisLeftThumbX), ("left_thumb_y", AxisLeftThumbY),
    ("right_thumb_x", AxisRightThumbX), ("right_thumb_y", AxisRightThumbY),
    ("left_trigger", AxisLeftTrigger), ("right_trigger", AxisRightTrigger),
    ("axis1", AxisAxis1), ("axis2", 0x200), ("axis3", 0x400), ("axis4", 0x800),
    ("axis5", 0x1000), ("axis6", 0x2000), ("axis7", 0x4000), ("axis8", 0x8000)
  ]

  // ControllerProperties and ControllerProfiles, @enum classes.
  const PropertySupportedAxesMask := 0
  const PropertySupportedButtonsMask := 1
  const PropertyVendorId := 2
  const PropertyProductId := 3
  const PropertyName := 4
  const PropertyProfile := 5
  const ProfileGeneric := 0

  /** The D-pad flags are the single bits 7 to 10 (so pairwise distinct), and
      button1 is the single bit 15. */
  lemma ButtonConstants()
    ensures ButtonDpadUp == Pow2(7) && ButtonDpadDown == Pow2(8)
    ensures ButtonDpadLeft == Pow2(9) && ButtonDpadRight == Pow2(10)
    ensures ButtonButton1 == Pow2(15)
    ensures forall p: nat ::
      (Bit(ButtonDpadUp, p) <==> p == 7) && (Bit(ButtonDpadDown, p) <==> p == 8) &&
      (Bit(ButtonDpadLeft, p) <==> p == 9) && (Bit(ButtonDpadRight, p) <==> p == 10) &&
      (Bit(ButtonButton1, p) <==> p == 15)
  {
    assert Pow2(10) == 0x400;
    assert Pow2(15) == 0x8000;
    forall p: nat
      ensures (Bit(ButtonDpadUp, p) <==> p == 7) && (Bit(ButtonDpadDown, p) <==> p == 8) &&
        (Bit(ButtonDpadLeft, p) <==> p == 9) && (Bit(ButtonDpadRight, p) <==> p == 10) &&
        (Bit(ButtonButton1, p) <==> p == 15)
    {
      BitOfPow2(7, p);
      BitOfPow2(8, p);
      BitOfPow2(9, p);
      BitOfPow2(10, p);
      BitOfPow2(15, p);
    }
  }

  lemma {:induction false} BitOfPow2(k: nat, p: nat)
    ensures Bit(Pow2(k), p) <==> p == k
  {
    if p == 0 {
    } else if k == 0 {
      assert Pow2(0) / 2 == 0;
      BitOfZero(p - 1);
    } else {
      assert Pow2(k) / 2 == Pow2(k - 1);
      BitOfPow2(k - 1, p - 1);
    }
  }
}

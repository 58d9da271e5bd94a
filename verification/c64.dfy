/**
 The Commodore 64 platform profile: its fixed addresses, the control-register
 flags of the first I/O controller (CIA 1) and the VIC bank selector.
 */
module C64 {

  const DEFAULT_SCREEN := 0x0400
  const DEFAULT_UPPERCASE_FONT := 0x1000
  const DEFAULT_MIXEDCASE_FONT := 0x1800

  const VIC_II := 0xd000

  const SID := 0xd400

  const COLOR_RAM := 0xd800

  const CIA1 := 0xdc00
  const CIA2 := 0xdd00

  /** Number of I/O controllers the C64 maps. */
  const CIA_COUNT := 2

  /** Base address of I/O controller `i` (0 for CIA 1, 1 for CIA 2): one page apart from 0xdc00. */
  function CiaBase(i: nat): (a: int)
    requires i < CIA_COUNT
    ensures a == CIA1 + 0x100 * i
    ensures a % 0x100 == 0
  {
    if i == 0 then CIA1 else CIA2
  }

  // ---------------------------------------------------------------------------
  // CIA 1 control flags

  /** The named flags of a CIA 1 control register, lowest bit first. */
  datatype ControlFlag =
    | Start
    | Pbon
    | OutMode
    | RunMode
    | ForceLoad
    | InMode
    | SerialOutput
    | FiftyHzRtc
  {
    /** The flag's mask, as the bit set declares it. */
    function Mask(): bv8
    {
      match this
      case Start => 0x01
      case Pbon => 0x02
      case OutMode => 0x04
      case RunMode => 0x08
      case ForceLoad => 0x10
      case InMode => 0x20
      case SerialOutput => 0x40
      case FiftyHzRtc => 0x80
    }

    /** The flag's position in declaration order. */
    function Position(): (p: nat)
      ensures p < 8
    {
      match this
      case Start => 0
      case Pbon => 1
      case OutMode => 2
      case RunMode => 3
      case ForceLoad => 4
      case InMode => 5
      case SerialOutput => 6
      case FiftyHzRtc => 7
    }
  }

  /** The flags in declaration order. */
  const ALL_FLAGS: seq<ControlFlag> :=
    [Start, Pbon, OutMode, RunMode, ForceLoad, InMode, SerialOutput, FiftyHzRtc]

  /** The flag declared at position `i`. */
  function FlagAt(i: nat): (f: ControlFlag)
    requires i < 8
    ensures f.Position() == i
    ensures f.Mask() == 1 << i
  {
    ALL_FLAGS[i]
  }

  /** `v` has exactly one bit set. */
  predicate SingleBit(v: bv8)
  {
    v != 0 && v & (v - 1) == 0
  }

  /** Each mask is one bit, the bit at the flag's declared position. */
  lemma MaskIsPositionBit(f: ControlFlag)
    ensures SingleBit(f.Mask())
    ensures f.Mask() == 1 << f.Position()
    ensures FlagAt(f.Position()) == f
  {
  }

  /** Two different flags never share a bit. */
  lemma MasksDisjoint(f: ControlFlag, g: ControlFlag)
    ensures f != g ==> f.Mask() & g.Mask() == 0
  {
  }

  /** The union of the masks of `flags`. */
  function Union(flags: seq<ControlFlag>): bv8
  {
    if |flags| == 0 then 0 else flags[0].Mask() | Union(flags[1..])
  }

  /** The flags set in `v`, in declaration order. */
  function FlagsOf(v: bv8): (fs: seq<ControlFlag>)
    ensures forall f :: f in fs <==> v & f.Mask() != 0
  {
    assert forall f: ControlFlag :: f in ALL_FLAGS by {
      forall f: ControlFlag ensures f in ALL_FLAGS { assert ALL_FLAGS[f.Position()] == f; }
    }
    FlagsIn(v, ALL_FLAGS)
  }

  /** The flags of `candidates` that are set in `v`, in the order given. */
  function FlagsIn(v: bv8, candidates: seq<ControlFlag>): (fs: seq<ControlFlag>)
    ensures forall f :: f in fs <==> f in candidates && v & f.Mask() != 0
  {
    if |candidates| == 0 then []
    else
      var f := candidates[0];
      var rest := FlagsIn(v, candidates[1..]);
      if v & f.Mask() != 0 then [f] + rest else rest
  }

  /** A flag's bit is set in the union of `flags` exactly when the flag is one of them. */
  lemma {:induction false} UnionBit(flags: seq<ControlFlag>, f: ControlFlag)
    ensures Union(flags) & f.Mask() != 0 <==> f in flags
  {
    if |flags| > 0 {
      UnionBit(flags[1..], f);
      UnionBitStep(flags[0], f, Union(flags[1..]), f in flags[1..]);
      assert f in flags <==> f == flags[0] || f in flags[1..];
    }
  }

  /** One step of `UnionBit`: adding flag `g` to bits `r` sets `f`'s bit exactly when `f` is `g` or already set. */
  lemma UnionBitStep(g: ControlFlag, f: ControlFlag, r: bv8, inRest: bool)
    requires r & f.Mask() != 0 <==> inRest
    ensures (g.Mask() | r) & f.Mask() != 0 <==> f == g || inRest
  {
  }

  /** Two bytes that agree on every flag's bit are equal. */
  lemma SameFlagBits(x: bv8, y: bv8)
    requires forall f: ControlFlag :: x & f.Mask() != 0 <==> y & f.Mask() != 0
    ensures x == y
  {
    assert x & 0x01 != 0 <==> y & 0x01 != 0 by { assert Start.Mask() == 0x01; }
    assert x & 0x02 != 0 <==> y & 0x02 != 0 by { assert Pbon.Mask() == 0x02; }
    assert x & 0x04 != 0 <==> y & 0x04 != 0 by { assert OutMode.Mask() == 0x04; }
    assert x & 0x08 != 0 <==> y & 0x08 != 0 by { assert RunMode.Mask() == 0x08; }
    assert x & 0x10 != 0 <==> y & 0x10 != 0 by { assert ForceLoad.Mask() == 0x10; }
    assert x & 0x20 != 0 <==> y & 0x20 != 0 by { assert InMode.Mask() == 0x20; }
    assert x & 0x40 != 0 <==> y & 0x40 != 0 by { assert SerialOutput.Mask() == 0x40; }
    assert x & 0x80 != 0 <==> y & 0x80 != 0 by { assert FiftyHzRtc.Mask() == 0x80; }
  }

  /** Every byte is the union of the flags it contains. */
  lemma FlagsOfRoundTrip(v: bv8)
    ensures Union(FlagsOf(v)) == v
  {
    var fs := FlagsOf(v);
    forall f: ControlFlag
      ensures Union(fs) & f.Mask() != 0 <==> v & f.Mask() != 0
    {
      UnionBit(fs, f);
    }
    SameFlagBits(Union(fs), v);
  }

  /** Any list of flags, united into a byte, reads back as exactly the flags it lists. */
  lemma UnionRoundTrip(flags: seq<ControlFlag>)
    ensures forall f :: f in FlagsOf(Union(flags)) <==> f in flags
  {
    forall f: ControlFlag
      ensures f in FlagsOf(Union(flags)) <==> f in flags
    {
      UnionBit(flags, f);
    }
  }

  /** Together the eight masks cover the whole byte. */
  lemma FlagsCoverByte()
    ensures Union(ALL_FLAGS) == 0xff
  {
    var u := Union(ALL_FLAGS);
    forall f: ControlFlag
      ensures u & f.Mask() != 0 <==> 0xff & f.Mask() != 0
    {
      FlagCovered(f);
    }
    SameFlagBits(u, 0xff);
  }

  /** Every flag's bit is set both in the union of all masks and in 0xff. */
  lemma FlagCovered(f: ControlFlag)
    ensures Union(ALL_FLAGS) & f.Mask() != 0 && 0xff & f.Mask() != 0
  {
    UnionBit(ALL_FLAGS, f);
    assert ALL_FLAGS[f.Position()] == f;
  }

  // ---------------------------------------------------------------------------
  // VIC bank selector

  /** The four memory windows the video controller can be pointed at. */
  datatype VicBank = Region0000 | Region4000 | Region8000 | RegionC000 {

    /** The value the selector stores for this bank. */
    function Raw(): bv8
    {
      match this
      case Region0000 => 0x11
      case Region4000 => 0x10
      case Region8000 => 0x01
      case RegionC000 => 0x00
    }

    /** The bank number the variant is documented as. */
    function Number(): (n: nat)
      ensures n < 4
    {
      match this
      case Region0000 => 0
      case Region4000 => 1
      case Region8000 => 2
      case RegionC000 => 3
    }
  }

  /** Bank `n`, for each of the four bank numbers. */
  function BankOfNumber(n: nat): (b: VicBank)
    requires n < 4
    ensures b.Number() == n
  {
    if n == 0 then Region0000
    else if n == 1 then Region4000
    else if n == 2 then Region8000
    else RegionC000
  }

  /** Selector values of distinct banks are distinct. */
  lemma VicBankRawInjective(b: VicBank, c: VicBank)
    ensures b.Raw() == c.Raw() ==> b == c
  {
  }
}

/**
 The MEGA65 platform profile: its fixed addresses, its VIC bank selector and
 the three CPU speed helpers.

 The CPU speed is chosen by two independent control bits, both at mask 0x40:
 FAST in the register at 0xd031 and VFAST in the register at 0xd054. Each speed
 helper reads a register, forces that bit, and writes the byte back, once for
 each of the two registers.
 */
module Mega65 {
  import opened Memory

  datatype Option<T> = None | Some(value: T)

  const DEFAULT_SCREEN := 0x0800
  const DEFAULT_UPPERCASE_FONT := 0x1000
  const DEFAULT_MIXEDCASE_FONT := 0x1800

  const VIC_II := 0xd000

  const SID0 := 0xd400
  const SID1 := 0xd420
  const SID2 := 0xd440
  const SID3 := 0xd460

  const COLOR_RAM := 0xd800

  /** Number of sound devices the MEGA65 maps. */
  const SID_COUNT := 4

  /** Base address of sound device `i`: the four devices sit 0x20 apart from 0xd400. */
  function SidBase(i: nat): (a: int)
    requires i < SID_COUNT
    ensures a == SID0 + 0x20 * i
  {
    [SID0, SID1, SID2, SID3][i]
  }

  /** The four memory windows the video controller can be pointed at. */
  datatype VicBank = Region0000 | Region4000 | Region8000 | RegionC000 {

    /** The value the selector stores for this bank. */
    function Raw(): bv8
    {
      match this
      case Region0000 => 0x11
      case Region4000 => 0x10
      case Region8000 => 0x01
      case RegionC000 => 0x00
    }

    /** The bank number the variant is documented as. */
    function Number(): (n: nat)
      ensures n < 4
    {
      match this
      case Region0000 => 0
      case Region4000 => 1
      case Region8000 => 2
      case RegionC000 => 3
    }
  }

  /** The bank whose selector value is `v`, if there is one. */
  function BankOfRaw(v: bv8): (b: Option<VicBank>)
    ensures b.Some? ==> b.value.Raw() == v
    ensures b.None? ==> forall x: VicBank :: x.Raw() != v
  {
    if v == 0x11 then Some(Region0000)
    else if v == 0x10 then Some(Region4000)
    else if v == 0x01 then Some(Region8000)
    else if v == 0x00 then Some(RegionC000)
    else None
  }

  /** Distinct banks store distinct selector values, so the selector value identifies the bank. */
  lemma {:induction false} VicBankRawRoundTrip(b: VicBank)
    ensures BankOfRaw(b.Raw()) == Some(b)
    ensures forall c: VicBank :: c.Raw() == b.Raw() ==> c == b
  {
    match b
    case Region0000 =>
    case Region4000 =>
    case Region8000 =>
    case RegionC000 =>
  }

  // ---------------------------------------------------------------------------
  // CPU speed

  /** Register holding the FAST bit. */
  const FAST_REG := 0xd031
  /** Register holding the VFAST bit. */
  const VFAST_REG := 0xd054
  /** FAST and VFAST are both bit 6 of their register. */
  const SPEED_BIT: bv8 := 0x40
  /** The mask the helpers AND with to clear the speed bit. */
  const CLEAR_SPEED_BIT: bv8 := 0xbf

  /** Both speed control registers are backed. */
  predicate SpeedRegsMapped(m: Mem)
  {
    FAST_REG in m && VFAST_REG in m
  }

  /** Every bit other than bit 6 of both speed registers is the same in `m` and `m'`. */
  ghost predicate OtherSpeedBitsKept(m: Mem, m': Mem)
    requires SpeedRegsMapped(m) && SpeedRegsMapped(m')
  {
    && m'[FAST_REG] & !SPEED_BIT == m[FAST_REG] & !SPEED_BIT
    && m'[VFAST_REG] & !SPEED_BIT == m[VFAST_REG] & !SPEED_BIT
  }

  /** Whether bit 6 is set in FAST_REG and in VFAST_REG. */
  datatype SpeedBits = SpeedBits(fast: bool, vfast: bool)

  function ReadSpeedBits(m: Mem): SpeedBits
    requires SpeedRegsMapped(m)
  {
    SpeedBits(m[FAST_REG] & SPEED_BIT != 0, m[VFAST_REG] & SPEED_BIT != 0)
  }

  /** Set CPU speed to 1 MHz: clear FAST, then clear VFAST. */
  function SpeedMode1(m: Mem): (m': Mem)
    requires SpeedRegsMapped(m)
    ensures SpeedRegsMapped(m')
    ensures m'[FAST_REG] & SPEED_BIT == 0
    ensures m'[VFAST_REG] & SPEED_BIT == 0
    ensures OtherSpeedBitsKept(m, m')
    ensures ChangedAtMost(m, m', {FAST_REG, VFAST_REG})
  {
    var m1 := Poke(m, FAST_REG, Peek(m, FAST_REG) & CLEAR_SPEED_BIT);
    Poke(m1, VFAST_REG, Peek(m1, VFAST_REG) & CLEAR_SPEED_BIT)
  }

  /** Set CPU speed to 3.5 MHz: set FAST, then clear VFAST. */
  function SpeedMode3(m: Mem): (m': Mem)
    requires SpeedRegsMapped(m)
    ensures SpeedRegsMapped(m')
    ensures m'[FAST_REG] & SPEED_BIT == SPEED_BIT
    ensures m'[VFAST_REG] & SPEED_BIT == 0
    ensures OtherSpeedBitsKept(m, m')
    ensures ChangedAtMost(m, m', {FAST_REG, VFAST_REG})
  {
    var m1 := Poke(m, FAST_REG, Peek(m, FAST_REG) | SPEED_BIT);
    Poke(m1, VFAST_REG, Peek(m1, VFAST_REG) & CLEAR_SPEED_BIT)
  }

  /** Set CPU speed to 40 MHz: set FAST, then set VFAST. */
  function SpeedMode40(m: Mem): (m': Mem)
    requires SpeedRegsMapped(m)
    ensures SpeedRegsMapped(m')
    ensures m'[FAST_REG] & SPEED_BIT == SPEED_BIT
    ensures m'[VFAST_REG] & SPEED_BIT == SPEED_BIT
    ensures OtherSpeedBitsKept(m, m')
    ensures ChangedAtMost(m, m', {FAST_REG, VFAST_REG})
  {
    var m1 := Poke(m, FAST_REG, Peek(m, FAST_REG) | SPEED_BIT);
    Poke(m1, VFAST_REG, Peek(m1, VFAST_REG) | SPEED_BIT)
  }

  /** The three speeds the helpers select. */
  datatype Speed = Mhz1 | Mhz3_5 | Mhz40

  /** The (FAST, VFAST) pair each speed is documented to use. */
  function Encoding(s: Speed): SpeedBits
  {
    match s
    case Mhz1 => SpeedBits(false, false)
    case Mhz3_5 => SpeedBits(true, false)
    case Mhz40 => SpeedBits(true, true)
  }

  /** The speed whose helper leaves a (FAST, VFAST) pair; VFAST without FAST is the one pair no helper leaves. */
  function Decode(b: SpeedBits): (s: Option<Speed>)
    ensures s.Some? ==> Encoding(s.value) == b
    ensures s.None? ==> forall t :: Encoding(t) != b
  {
    if !b.fast && !b.vfast then Some(Mhz1)
    else if b.fast && !b.vfast then Some(Mhz3_5)
    else if b.fast && b.vfast then Some(Mhz40)
    else None
  }

  /** The helper for speed `s`. */
  function SetSpeed(m: Mem, s: Speed): (m': Mem)
    requires SpeedRegsMapped(m)
    ensures SpeedRegsMapped(m')
    ensures ReadSpeedBits(m') == Encoding(s)
    ensures OtherSpeedBitsKept(m, m')
    ensures ChangedAtMost(m, m', {FAST_REG, VFAST_REG})
  {
    match s
    case Mhz1 => SpeedMode1(m)
    case Mhz3_5 => SpeedMode3(m)
    case Mhz40 => SpeedMode40(m)
  }

  /** Whatever the starting state, the speed read back is the speed selected. */
  lemma SetSpeedRoundTrip(m: Mem, s: Speed)
    requires SpeedRegsMapped(m)
    ensures Decode(ReadSpeedBits(SetSpeed(m, s))) == Some(s)
  {
    match s
    case Mhz1 =>
    case Mhz3_5 =>
    case Mhz40 =>
  }

  /** The three helpers leave three different bit pairs, from any two starting states. */
  lemma SpeedsDistinguishable(m: Mem, n: Mem, s: Speed, t: Speed)
    requires SpeedRegsMapped(m) && SpeedRegsMapped(n)
    requires ReadSpeedBits(SetSpeed(m, s)) == ReadSpeedBits(SetSpeed(n, t))
    ensures s == t
  {
    SetSpeedRoundTrip(m, s);
    SetSpeedRoundTrip(n, t);
  }

  /** Two states that agree outside bit 6 of the speed registers and on those bits are equal. */
  lemma {:induction false} SameSpeedStateEqual(m: Mem, m1: Mem, m2: Mem)
    requires SpeedRegsMapped(m)
    requires SpeedRegsMapped(m1) && ChangedAtMost(m, m1, {FAST_REG, VFAST_REG}) && OtherSpeedBitsKept(m, m1)
    requires SpeedRegsMapped(m2) && ChangedAtMost(m, m2, {FAST_REG, VFAST_REG}) && OtherSpeedBitsKept(m, m2)
    requires ReadSpeedBits(m1) == ReadSpeedBits(m2)
    ensures m1 == m2
  {
    assert m1.Keys == m2.Keys;
    forall a | a in m1
      ensures m1[a] == m2[a]
    {
      if a == FAST_REG || a == VFAST_REG {
        SameByteFromParts(m1[a], m2[a]);
      }
    }
  }

  /** A byte is determined by its bit 6 and its other seven bits. */
  lemma SameByteFromParts(x: bv8, y: bv8)
    requires x & !SPEED_BIT == y & !SPEED_BIT
    requires (x & SPEED_BIT != 0) == (y & SPEED_BIT != 0)
    ensures x == y
  {
  }

  /** A later speed selection overrides an earlier one completely. */
  lemma SetSpeedOverrides(m: Mem, s: Speed, t: Speed)
    requires SpeedRegsMapped(m)
    ensures SetSpeed(SetSpeed(m, s), t) == SetSpeed(m, t)
  {
    var m1 := SetSpeed(m, s);
    SameSpeedStateEqual(m, SetSpeed(m1, t), SetSpeed(m, t));
  }

  /** Each helper is idempotent: applying it twice is applying it once. */
  lemma SpeedModesIdempotent(m: Mem)
    requires SpeedRegsMapped(m)
    ensures SpeedMode1(SpeedMode1(m)) == SpeedMode1(m)
    ensures SpeedMode3(SpeedMode3(m)) == SpeedMode3(m)
    ensures SpeedMode40(SpeedMode40(m)) == SpeedMode40(m)
  {
    SetSpeedOverrides(m, Mhz1, Mhz1);
    SetSpeedOverrides(m, Mhz3_5, Mhz3_5);
    SetSpeedOverrides(m, Mhz40, Mhz40);
  }
}

/**
 The C64 and MEGA65 platform profiles side by side: the addresses both
 declare, and their VIC bank selector tables.
 */
module Profiles {
  import C64
  import Mega65

  /** The fixed addresses a platform profile declares for the screen, fonts, video, first sound device and colour memory. */
  datatype Layout = Layout(
    screen: int,
    uppercaseFont: int,
    mixedcaseFont: int,
    vic: int,
    firstSid: int,
    colorRam: int)

  function C64Layout(): Layout
  {
    Layout(C64.DEFAULT_SCREEN, C64.DEFAULT_UPPERCASE_FONT, C64.DEFAULT_MIXEDCASE_FONT,
           C64.VIC_II, C64.SID, C64.COLOR_RAM)
  }

  function Mega65Layout(): Layout
  {
    Layout(Mega65.DEFAULT_SCREEN, Mega65.DEFAULT_UPPERCASE_FONT, Mega65.DEFAULT_MIXEDCASE_FONT,
           Mega65.VIC_II, Mega65.SidBase(0), Mega65.COLOR_RAM)
  }

  /** The two layouts differ in the default screen and nowhere else. */
  lemma LayoutsDifferOnlyInScreen()
    ensures C64Layout().screen == 0x0400 && Mega65Layout().screen == 0x0800
    ensures C64Layout().(screen := Mega65Layout().screen) == Mega65Layout()
  {
  }

  /** Within each layout, the addresses are pairwise distinct. */
  predicate DistinctEntries(l: Layout)
  {
    var a := [l.screen, l.uppercaseFont, l.mixedcaseFont, l.vic, l.firstSid, l.colorRam];
    forall i, j :: 0 <= i < j < |a| ==> a[i] != a[j]
  }

  lemma LayoutsDistinct()
    ensures DistinctEntries(C64Layout())
    ensures DistinctEntries(Mega65Layout())
  {
  }

  /** The C64 bank with the same documented bank number as a MEGA65 bank. */
  function FromMega65(b: Mega65.VicBank): (c: C64.VicBank)
    ensures c.Number() == b.Number()
    ensures c.Raw() == b.Raw()
  {
    match b
    case Region0000 => C64.Region0000
    case Region4000 => C64.Region4000
    case Region8000 => C64.Region8000
    case RegionC000 => C64.RegionC000
  }

  /** Both profiles pair bank numbers with selector values the same way: a bank of one and a bank of the other have the same number exactly when they store the same value. */
  lemma VicBankTablesIdentical(b: Mega65.VicBank, c: C64.VicBank)
    ensures b.Number() == c.Number() <==> b.Raw() == c.Raw()
  {
  }

  /** The C64's sound device is the MEGA65's first, and the MEGA65 adds three more above it. */
  lemma SidOfC64IsFirstSid(i: nat)
    requires i < Mega65.SID_COUNT
    ensures Mega65.SidBase(i) >= C64.SID
    ensures Mega65.SidBase(i) == C64.SID <==> i == 0
  {
  }
}

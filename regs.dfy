/** Register layout of the RK628 combo TX PHY: the eleven 32-bit control
    registers CON0..CON10 at 0x90000 + 4*i, their bit fields, and the
    fixed-width integer types of the driver's state. */
module TxPhyRegs {

  /** C's u8, u16 and unsigned int. A value of one of these types is
      proved to fit, so no C assignment into it truncates. */
  type u8 = x: int | 0 <= x < 0x100
  type u16 = x: int | 0 <= x < 0x1_0000
  type u32 = x: int | 0 <= x < 0x1_0000_0000

  /** Linux error numbers returned by the driver (negated). */
  const EINVAL: int := 22
  const ETIMEDOUT: int := 110

  /** Register indices: COMBTXPHY_CONi lives at 0x90000 + 4 * i. */
  const RegCount: nat := 11
  const Con0: nat := 0
  const Con5: nat := 5
  const Con7: nat := 7
  const Con9: nat := 9
  const Con10: nat := 10

  function RegAddress(i: nat): (a: nat)
    requires i < RegCount
    ensures 0x90000 <= a <= 0x90028 && (a - 0x90000) % 4 == 0
    ensures (a - 0x90000) / 4 == i
  {
    0x90000 + 4 * i
  }

  /** The register indices the model uses are the driver's COMBTXPHY_CON0,
      CON5, CON7, CON9 and CON10, the last being COMBTXPHY_MAX_REGISTER. */
  lemma ConIndicesMatchAddresses()
    ensures RegAddress(Con0) == 0x90000 && RegAddress(Con5) == 0x90014
    ensures RegAddress(Con7) == 0x9001c && RegAddress(Con9) == 0x90024
    ensures RegAddress(Con10) == 0x90028 && Con10 == RegCount - 1
  {
  }

  /** GENMASK(h, l): the bits h down to l set, all others clear. */
  function GenMask(h: nat, l: nat): (m: bv32)
    requires l <= h < 31
  {
    ((1 as bv32) << (h + 1)) - ((1 as bv32) << l)
  }

  /** UPDATE(x, h, l): x placed at bit l and cut to the field h..l. */
  function Field(x: bv32, h: nat, l: nat): (f: bv32)
    requires l <= h < 31
    ensures f & !GenMask(h, l) == 0
  {
    (x << l) & GenMask(h, l)
  }

  // CON0
  const TxIdleMask: bv32 := 0x3ff0_0000      // SW_TX_IDLE, bits 29:20
  const TxPdMask: bv32 := 0x0003_ff00        // SW_TX_PD, bits 17:8
  const BusWidthMask: bv32 := 0x60           // SW_BUS_WIDTH, bits 6:5
  const BusWidth7Bit: bv32 := 0x60
  const BusWidth8Bit: bv32 := 0x40
  const BusWidth9Bit: bv32 := 0x20
  const BusWidth10Bit: bv32 := 0x00
  const PdPll: bv32 := 0x10                  // SW_PD_PLL, bit 4
  const GviLvdsEn: bv32 := 0x08              // SW_GVI_LVDS_EN, bit 3
  const MipiDsiEn: bv32 := 0x04              // SW_MIPI_DSI_EN, bit 2
  const ModuleBEn: bv32 := 0x02              // SW_MODULEB_EN, bit 1
  const ModuleAEn: bv32 := 0x01              // SW_MODULEA_EN, bit 0

  // CON5: the PLL dividers
  const RateMask: bv32 := 0x0700_0000        // SW_RATE, bits 26:24
  const RefDivMask: bv32 := 0x001f_0000      // SW_REF_DIV, bits 20:16
  const FbDivMask: bv32 := 0x0000_7c00       // SW_PLL_FB_DIV, bits 14:10
  const FracDivMask: bv32 := 0x0000_03ff     // SW_PLL_FRAC_DIV, bits 9:0

  // CON7
  const TxModeMask: bv32 := 0x0003_0000      // SW_TX_MODE, bits 17:16

  // CON9
  const DsiFsetEn: bv32 := 0x2000_0000       // SW_DSI_FSET_EN, bit 29
  const DsiRcalEn: bv32 := 0x1000_0000       // SW_DSI_RCAL_EN, bit 28

  // CON10: lane clock-driver enables
  const Tx7CkdrvEn: bv32 := 0x80
  const Tx2CkdrvEn: bv32 := 0x04

  /** Module enable flags carried in the low byte of the bus width.
      Their header (linux/mfd/rk628.h) is not part of this model; the
      values are taken to be two distinct single bits, and no property
      below depends on which. */
  const FlagModuleA: bv32 := 0x01
  const FlagModuleB: bv32 := 0x02

  /** The literal masks above are the driver's GENMASK/UPDATE forms. */
  lemma MasksMatchMacros()
    ensures TxIdleMask == GenMask(29, 20) && TxPdMask == GenMask(17, 8)
    ensures Field(0x3ff, 29, 20) == TxIdleMask && Field(0x3ff, 17, 8) == TxPdMask
    ensures BusWidthMask == GenMask(6, 5)
    ensures BusWidth7Bit == Field(3, 6, 5) && BusWidth8Bit == Field(2, 6, 5)
    ensures BusWidth9Bit == Field(1, 6, 5) && BusWidth10Bit == Field(0, 6, 5)
    ensures RateMask == GenMask(26, 24) && RefDivMask == GenMask(20, 16)
    ensures FbDivMask == GenMask(14, 10) && FracDivMask == GenMask(9, 0)
    ensures TxModeMask == GenMask(17, 16) && Field(3, 17, 16) == TxModeMask
  {
  }

  /** The CON5 word the three power-on routines write:
      SW_REF_DIV(ref_div - 1) | SW_PLL_FB_DIV(fb_div) |
      SW_PLL_FRAC_DIV(frac_div) | SW_RATE(rate_div / 2).
      ref_div - 1 is C int arithmetic: 0 gives -1, all ones. */
  function Con5Word(refDiv: u8, fbDiv: u8, fracDiv: u16, rateDiv: u8): (w: bv32)
  {
    var refField: bv32 := if refDiv == 0 then 0xffff_ffff else (refDiv - 1) as bv32;
    Con5Value(refField, fbDiv as bv32, fracDiv as bv32, (rateDiv / 2) as bv32)
  }

  function Con5Value(refField: bv32, fb: bv32, frac: bv32, rate: bv32): (w: bv32)
  {
    Field(refField, 20, 16) | Field(fb, 14, 10) | Field(frac, 9, 0) | Field(rate, 26, 24)
  }

  /** Values that fit their fields come back out of CON5 unchanged, and
      nothing outside the four fields is set. */
  lemma Con5ValueFields(refField: bv32, fb: bv32, frac: bv32, rate: bv32)
    requires refField < 32 && fb < 32 && frac < 1024 && rate < 8
    ensures var w := Con5Value(refField, fb, frac, rate);
      (w & RefDivMask) >> 16 == refField && (w & FbDivMask) >> 10 == fb
      && w & FracDivMask == frac && (w & RateMask) >> 24 == rate
      && w & !(RateMask | RefDivMask | FbDivMask | FracDivMask) == 0
      && (refField == 0 ==> w & RefDivMask == 0)
  {
    MasksMatchMacros();
  }
}

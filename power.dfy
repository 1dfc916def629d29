/** The power sequencer of the combo TX PHY as functions on the register
    image CON0..CON10 (the register-map cache): the baseline written by
    rk628_combtxphy_power_on, the three mode routines, the reference-clock
    selection and rk628_combtxphy_power_off; and the PLL lock poll. */
module TxPhyPower {
  import opened TxPhyRegs
  import opened TxPhyDividers

  /** A register image: the cached values of CON0..CON10. */
  type Image = s: seq<bv32> | |s| == RegCount witness seq(RegCount, _ => 0)

  /** The register image after a sequence and the routine's return value. */
  datatype Outcome = Outcome(regs: Image, ret: int)

  /** The value regmap_update_bits writes: the bits under the mask take
      the new value, the others keep the current one. */
  function MergeBits(cur: bv32, mask: bv32, val: bv32): (v: bv32)
    ensures v & mask == val & mask && v & !mask == cur & !mask
  {
    (cur & !mask) | (val & mask)
  }

  /** regmap_update_bits on the image: one register merged, all other
      registers unchanged. */
  function UpdateBits(s: Image, r: nat, mask: bv32, val: bv32): (t: Image)
    requires r < RegCount
    ensures t[r] == MergeBits(s[r], mask, val)
    ensures forall i :: 0 <= i < RegCount && i != r ==> t[i] == s[i]
  {
    s[r := MergeBits(s[r], mask, val)]
  }

  /** regmap_write: the whole register takes the value. */
  function WriteReg(s: Image, r: nat, val: bv32): (t: Image)
    requires r < RegCount
    ensures t[r] == val
    ensures forall i :: 0 <= i < RegCount && i != r ==> t[i] == s[i]
  {
    s[r := val]
  }

  function ModuleA(flags: u32): (on: bool) { (flags as bv32) & FlagModuleA != 0 }
  function ModuleB(flags: u32): (on: bool) { (flags as bv32) & FlagModuleB != 0 }

  /** The module enables that the flags ask for, one update each. */
  function EnableModules(s: Image, flags: u32): (t: Image)
  {
    var s1 := if ModuleA(flags) then UpdateBits(s, Con0, ModuleAEn, ModuleAEn) else s;
    if ModuleB(flags) then UpdateBits(s1, Con0, ModuleBEn, ModuleBEn) else s1
  }

  const TxIdleAll: bv32 := TxIdleMask     // SW_TX_IDLE(0x3ff)
  const TxPdAll: bv32 := TxPdMask         // SW_TX_PD(0x3ff)
  const TxMode3: bv32 := TxModeMask       // SW_TX_MODE(3)

  /** The baseline of power_on: every lane idle and powered down, PLL off. */
  function Baseline(s: Image): (t: Image)
  {
    UpdateBits(s, Con0, TxIdleMask | TxPdMask | PdPll, TxIdleAll | TxPdAll | PdPll)
  }

  /** rk628_combtxphy_dsi_power_on, given whether the lock poll succeeds. */
  function DsiImage(s: Image, flags: u32, con5: bv32, locked: bool): (o: Outcome)
  {
    var s1 := UpdateBits(s, Con0, BusWidthMask | GviLvdsEn | MipiDsiEn, BusWidth8Bit | MipiDsiEn);
    var s2 := EnableModules(s1, flags);
    var s3 := WriteReg(s2, Con5, con5);
    var s4 := UpdateBits(s3, Con0, PdPll, 0);
    if !locked then Outcome(s4, -ETIMEDOUT)
    else Outcome(UpdateBits(s4, Con9, DsiFsetEn | DsiRcalEn, DsiFsetEn | DsiRcalEn), 0)
  }

  /** rk628_combtxphy_lvds_power_on, given whether the lock poll succeeds. */
  function LvdsImage(s: Image, flags: u32, con5: bv32, locked: bool): (o: Outcome)
  {
    var s1 := UpdateBits(s, Con7, TxModeMask, TxMode3);
    var s2 := WriteReg(s1, Con10, Tx7CkdrvEn | Tx2CkdrvEn);
    var s3 := UpdateBits(s2, Con0, BusWidthMask | GviLvdsEn | MipiDsiEn, BusWidth7Bit | GviLvdsEn);
    var s4 := EnableModules(s3, flags);
    var s5 := WriteReg(s4, Con5, con5);
    var s6 := UpdateBits(s5, Con0, PdPll | TxPdMask, 0);
    if !locked then Outcome(s6, -ETIMEDOUT)
    else Outcome(UpdateBits(s6, Con0, TxIdleMask, 0), 0)
  }

  /** rk628_combtxphy_gvi_power_on: both modules, no lock poll. */
  function GviImage(s: Image, con5: bv32): (o: Outcome)
  {
    var s1 := WriteReg(s, Con5, con5);
    var s2 := UpdateBits(s1, Con0,
      BusWidthMask | GviLvdsEn | MipiDsiEn | ModuleBEn | ModuleAEn,
      BusWidth10Bit | GviLvdsEn | ModuleBEn | ModuleAEn);
    var s3 := UpdateBits(s2, Con0, PdPll | TxPdMask, 0);
    Outcome(UpdateBits(s3, Con0, TxIdleMask, 0), 0)
  }

  /** The TXPHY reference-clock select written to the GRF, if any. */
  function RefclkFor(mode: PhyMode): (sel: Option<nat>)
  {
    match mode
    case VideoMipi => Some(0)
    case VideoLvds => Some(1)
    case Gvi => Some(0)
    case _ => None
  }

  /** The register effect of rk628_combtxphy_power_on after the reset pulse. */
  function PowerOnImage(s: Image, mode: PhyMode, flags: u32, con5: bv32, locked: bool): (o: Outcome)
  {
    var b := Baseline(s);
    match mode
    case VideoMipi => DsiImage(b, flags, con5, locked)
    case VideoLvds => LvdsImage(b, flags, con5, locked)
    case Gvi => GviImage(b, con5)
    case _ => Outcome(b, -EINVAL)
  }

  /** The CON0 bits rk628_combtxphy_power_off updates. */
  const PowerOffMask: bv32 := TxIdleMask | TxPdMask | PdPll | ModuleBEn | ModuleAEn

  /** The register effect of rk628_combtxphy_power_off. */
  function PowerOffImage(s: Image): (t: Image)
  {
    UpdateBits(s, Con0, PowerOffMask, TxIdleAll | TxPdAll | PdPll)
  }

  // ---------------------------------------------------------------------
  // The lock poll

  /** Whether some read of the lock status, within the timeout, saw lock. */
  predicate Locked(samples: seq<bool>)
  {
    exists i :: 0 <= i < |samples| && samples[i]
  }

  /** regmap_read_poll_timeout on GRF_DPHY0_STATUS until DPHY_PHYLOCK:
      samples[i] says whether the i-th read saw the lock bit; the tries
      stop at the first that does. Returns 0 on lock, -ETIMEDOUT when
      every read within the timeout missed it. The poll always reads at
      least once, so there is at least one sample. */
  method PollLock(samples: seq<bool>) returns (ret: int, tries: nat)
    requires |samples| > 0
    ensures ret == 0 || ret == -ETIMEDOUT
    ensures ret == 0 <==> Locked(samples)
    ensures 0 < tries <= |samples|
    ensures ret == 0 ==> samples[tries - 1]
    ensures forall j :: 0 <= j < tries - 1 ==> !samples[j]
    ensures ret != 0 ==> tries == |samples|
  {
    tries := 0;
    while tries < |samples|
      invariant tries <= |samples|
      invariant forall j :: 0 <= j < tries ==> !samples[j]
    {
      var seen := samples[tries];
      tries := tries + 1;
      if seen {
        ret := 0;
        return;
      }
    }
    ret := -ETIMEDOUT;
  }

  // ---------------------------------------------------------------------
  // Properties of the sequences

  /** For every configuration set_mode accepts, the CON5 word is built
      from SW_REF_DIV 0, fb_div, frac_div and SW_RATE rate_div / 2 in
      {0, 1, 2}, each within its field, so Con5ValueFields reads each of
      them back unchanged. */
  lemma Con5Fields(p: Pll)
    requires AcceptedDividers(p)
    ensures Con5Word(p.refDiv, p.fbDiv, p.fracDiv, p.rateDiv)
      == Con5Value(0, p.fbDiv as bv32, p.fracDiv as bv32, (p.rateDiv / 2) as bv32)
    ensures p.rateDiv / 2 <= 2
    ensures (p.fbDiv as bv32) < 32 && (p.fracDiv as bv32) < 1024 && ((p.rateDiv / 2) as bv32) < 8
  {
  }

  /** power_on always applies the baseline first; for an unset or unknown
      mode it stops there with -EINVAL and selects no reference clock. */
  lemma PowerOnUnknownMode(s: Image, mode: PhyMode, flags: u32, con5: bv32, locked: bool)
    requires mode != VideoMipi && mode != VideoLvds && mode != Gvi
    ensures PowerOnImage(s, mode, flags, con5, locked) == Outcome(Baseline(s), -EINVAL)
    ensures RefclkFor(mode) == None
    ensures Baseline(s)[Con0] & TxIdleMask == TxIdleAll
    ensures Baseline(s)[Con0] & TxPdMask == TxPdAll
    ensures Baseline(s)[Con0] & PdPll == PdPll
    ensures forall i :: 0 < i < RegCount ==> Baseline(s)[i] == s[i]
  {
  }

  /** MIPI and GVI select reference clock 0, LVDS selects 1. */
  lemma RefclkSelection(mode: PhyMode)
    ensures RefclkFor(mode).Some? <==> mode == VideoMipi || mode == VideoLvds || mode == Gvi
    ensures RefclkFor(mode) == Some(1) <==> mode == VideoLvds
    ensures RefclkFor(mode) == Some(0) <==> mode == VideoMipi || mode == Gvi
  {
  }

  /** The DSI sequence never releases the lanes: after power_on in MIPI
      mode TX_IDLE and TX_PD are still all ones, and on a lock timeout
      CON9 is untouched and the poll's error is returned. */
  lemma DsiKeepsLanesIdle(s: Image, flags: u32, con5: bv32, locked: bool)
    ensures var o := PowerOnImage(s, VideoMipi, flags, con5, locked);
      o.regs[Con0] & TxIdleMask == TxIdleAll && o.regs[Con0] & TxPdMask == TxPdAll
      && o.regs[Con0] & PdPll == 0
      && o.regs[Con5] == con5
      && (o.ret == 0 <==> locked)
      && (!locked ==> o.ret == -ETIMEDOUT && o.regs[Con9] == s[Con9])
      && (locked ==> o.regs[Con9] & (DsiFsetEn | DsiRcalEn) == DsiFsetEn | DsiRcalEn)
  {
  }

  /** The LVDS sequence: CON10 is exactly TX7 | TX2, TX_MODE is 3, and the
      lanes leave idle only after lock; on a timeout TX_IDLE stays 0x3ff. */
  lemma LvdsSequence(s: Image, flags: u32, con5: bv32, locked: bool)
    ensures var o := PowerOnImage(s, VideoLvds, flags, con5, locked);
      o.regs[Con10] == Tx7CkdrvEn | Tx2CkdrvEn
      && o.regs[Con7] & TxModeMask == TxMode3
      && o.regs[Con5] == con5
      && o.regs[Con0] & (TxPdMask | PdPll) == 0
      && (o.ret == 0 <==> locked)
      && (!locked ==> o.ret == -ETIMEDOUT && o.regs[Con0] & TxIdleMask == TxIdleAll)
      && (locked ==> o.regs[Con0] & TxIdleMask == 0)
  {
  }

  /** The GVI sequence enables both modules whatever the flags, never polls,
      always returns 0 and releases every lane. */
  lemma GviSequence(s: Image, flags: u32, con5: bv32, locked: bool)
    ensures var o := PowerOnImage(s, Gvi, flags, con5, locked);
      o == PowerOnImage(s, Gvi, 0, con5, false)
      && o.ret == 0
      && o.regs[Con0] & (ModuleAEn | ModuleBEn) == ModuleAEn | ModuleBEn
      && o.regs[Con0] & (TxIdleMask | TxPdMask | PdPll) == 0
      && o.regs[Con0] & BusWidthMask == BusWidth10Bit
      && o.regs[Con5] == con5
  {
  }

  /** The module enables in MIPI and LVDS follow the flags. */
  lemma ModulesFollowFlags(s: Image, mode: PhyMode, flags: u32, con5: bv32, locked: bool)
    requires mode == VideoMipi || mode == VideoLvds
    ensures var o := PowerOnImage(s, mode, flags, con5, locked);
      (ModuleA(flags) ==> o.regs[Con0] & ModuleAEn == ModuleAEn)
      && (!ModuleA(flags) ==> o.regs[Con0] & ModuleAEn == s[Con0] & ModuleAEn)
      && (ModuleB(flags) ==> o.regs[Con0] & ModuleBEn == ModuleBEn)
      && (!ModuleB(flags) ==> o.regs[Con0] & ModuleBEn == s[Con0] & ModuleBEn)
  {
  }

  /** power_off only raises TX_IDLE, TX_PD and PD_PLL and clears both
      module enables; every other bit of CON0 and every other register
      keep their values, and applying it twice gives the same registers
      as once. */
  lemma PowerOffEffect(s: Image)
    ensures var t := PowerOffImage(s);
      t[Con0] & TxIdleMask == TxIdleAll && t[Con0] & TxPdMask == TxPdAll
      && t[Con0] & PdPll == PdPll && t[Con0] & (ModuleAEn | ModuleBEn) == 0
      && t[Con0] & !PowerOffMask == s[Con0] & !PowerOffMask
      && (forall i :: 0 < i < RegCount ==> t[i] == s[i])
      && PowerOffImage(t) == t
  {
  }
}

/** struct rk628_combtxphy and its three phy operations: set_mode stores
    the dividers field by field, power_on and power_off drive the register
    cache of CON0..CON10 and the GRF reference-clock select. */
module CombTxPhyDriver {
  import opened TxPhyRegs
  import opened TxPhyDividers
  import opened TxPhyPower

  class CombTxPhy {
    /** The register-map cache of CON0..CON10. */
    var regs: array<bv32>
    /** SW_TXPHY_REFCLK_SEL in GRF_POST_PROC_CON. */
    var refclkSel: nat

    var mode: PhyMode
    var flags: u32
    var refDiv: u8
    var fbDiv: u8
    var fracDiv: u16
    var rateDiv: u8

    /** Whether pclk is enabled, and how many reset pulses were given. */
    ghost var clockOn: bool
    ghost var resetPulses: nat

    /** The mode is unset or one set_mode accepted, and then the dividers
        fit their CON5 fields. */
    ghost predicate Valid()
      reads this
    {
      regs.Length == RegCount
      && (mode == Invalid || mode == VideoMipi || mode == VideoLvds || mode == Gvi)
      && (mode != Invalid ==> AcceptedDividers(Dividers()))
    }

    function Dividers(): (p: Pll)
      reads this
    {
      Pll(refDiv, fbDiv, fracDiv, rateDiv)
    }

    function Con5Now(): (w: bv32)
      reads this
    {
      Con5Word(refDiv, fbDiv, fracDiv, rateDiv)
    }

    /** The zeroed struct of probe, over a register cache holding `cache`. */
    constructor (cache: Image, grfRefclkSel: nat)
      ensures Valid() && fresh(regs) && regs[..] == cache
      ensures refclkSel == grfRefclkSel && mode == Invalid && flags == 0
      ensures Dividers() == Pll(0, 0, 0, 0) && !clockOn && resetPulses == 0
    {
      regs := new bv32[RegCount](i requires 0 <= i < RegCount => cache[i]);
      refclkSel := grfRefclkSel;
      mode := Invalid;
      flags := 0;
      refDiv, fbDiv, fracDiv, rateDiv := 0, 0, 0, 0;
      clockOn := false;
      resetPulses := 0;
    }

    /** regmap_update_bits on one of CON0..CON10. */
    method RegmapUpdateBits(r: nat, mask: bv32, val: bv32)
      requires regs.Length == RegCount && r < RegCount
      modifies regs
      ensures regs[..] == UpdateBits(old(regs[..]), r, mask, val)
    {
      regs[r] := MergeBits(regs[r], mask, val);
    }

    /** regmap_write on one of CON0..CON10. */
    method RegmapWrite(r: nat, val: bv32)
      requires regs.Length == RegCount && r < RegCount
      modifies regs
      ensures regs[..] == WriteReg(old(regs[..]), r, val)
    {
      regs[r] := val;
    }

    method DsiPowerOn(samples: seq<bool>) returns (ret: int)
      requires Valid() && |samples| > 0
      modifies regs
      ensures var o := DsiImage(old(regs[..]), flags, Con5Now(), Locked(samples));
        regs[..] == o.regs && ret == o.ret
    {
      RegmapUpdateBits(Con0, BusWidthMask | GviLvdsEn | MipiDsiEn, BusWidth8Bit | MipiDsiEn);
      if ModuleA(flags) {
        RegmapUpdateBits(Con0, ModuleAEn, ModuleAEn);
      }
      if ModuleB(flags) {
        RegmapUpdateBits(Con0, ModuleBEn, ModuleBEn);
      }
      RegmapWrite(Con5, Con5Now());
      RegmapUpdateBits(Con0, PdPll, 0);
      var poll, _ := PollLock(samples);
      if poll < 0 {
        return poll;
      }
      RegmapUpdateBits(Con9, DsiFsetEn | DsiRcalEn, DsiFsetEn | DsiRcalEn);
      ret := 0;
    }

    method LvdsPowerOn(samples: seq<bool>) returns (ret: int)
      requires Valid() && |samples| > 0
      modifies regs
      ensures var o := LvdsImage(old(regs[..]), flags, Con5Now(), Locked(samples));
        regs[..] == o.regs && ret == o.ret
    {
      RegmapUpdateBits(Con7, TxModeMask, TxMode3);
      RegmapWrite(Con10, Tx7CkdrvEn | Tx2CkdrvEn);
      RegmapUpdateBits(Con0, BusWidthMask | GviLvdsEn | MipiDsiEn, BusWidth7Bit | GviLvdsEn);
      if ModuleA(flags) {
        RegmapUpdateBits(Con0, ModuleAEn, ModuleAEn);
      }
      if ModuleB(flags) {
        RegmapUpdateBits(Con0, ModuleBEn, ModuleBEn);
      }
      RegmapWrite(Con5, Con5Now());
      RegmapUpdateBits(Con0, PdPll | TxPdMask, 0);
      var poll, _ := PollLock(samples);
      if poll < 0 {
        return poll;
      }
      RegmapUpdateBits(Con0, TxIdleMask, 0);
      ret := 0;
    }

    method GviPowerOn() returns (ret: int)
      requires Valid()
      modifies regs
      ensures var o := GviImage(old(regs[..]), Con5Now());
        regs[..] == o.regs && ret == o.ret
    {
      RegmapWrite(Con5, Con5Now());
      RegmapUpdateBits(Con0,
        BusWidthMask | GviLvdsEn | MipiDsiEn | ModuleBEn | ModuleAEn,
        BusWidth10Bit | GviLvdsEn | ModuleBEn | ModuleAEn);
      RegmapUpdateBits(Con0, PdPll | TxPdMask, 0);
      RegmapUpdateBits(Con0, TxIdleMask, 0);
      ret := 0;
    }

    /** rk628_combtxphy_power_on: enable pclk, pulse the reset (the cache
        keeps its contents), apply the lane baseline, select the reference
        clock and run the mode routine. samples (never empty) are the lock-status reads
        the poll would see. */
    method PowerOn(samples: seq<bool>) returns (ret: int)
      requires Valid() && |samples| > 0
      modifies this`clockOn, this`resetPulses, this`refclkSel, regs
      ensures Valid() && clockOn && resetPulses == old(resetPulses) + 1
      ensures var o := PowerOnImage(old(regs[..]), mode, flags, Con5Now(), Locked(samples));
        regs[..] == o.regs && ret == o.ret
      ensures refclkSel == match RefclkFor(mode) case Some(v) => v case None => old(refclkSel)
    {
      clockOn := true;
      resetPulses := resetPulses + 1;
      RegmapUpdateBits(Con0, TxIdleMask | TxPdMask | PdPll, TxIdleAll | TxPdAll | PdPll);
      ghost var base := regs[..];
      assert base == Baseline(old(regs[..]));
      match mode
      case VideoMipi =>
        refclkSel := 0;
        ret := DsiPowerOn(samples);
      case VideoLvds =>
        refclkSel := 1;
        ret := LvdsPowerOn(samples);
      case Gvi =>
        refclkSel := 0;
        ret := GviPowerOn();
      case _ =>
        ret := -EINVAL;
    }

    /** rk628_combtxphy_power_off: lanes idle and down, PLL down, both
        modules off, then pclk disabled. The struct is left as it was. */
    method PowerOff() returns (ret: int)
      requires Valid()
      modifies this`clockOn, regs
      ensures Valid() && !clockOn
      ensures regs[..] == PowerOffImage(old(regs[..])) && ret == 0
    {
      RegmapUpdateBits(Con0, TxIdleMask | TxPdMask | PdPll | ModuleBEn | ModuleAEn,
        TxIdleAll | TxPdAll | PdPll);
      clockOn := false;
      ret := 0;
    }

    /** rk628_combtxphy_set_mode for a bus width read from the phy; the
        value written back to the bus width is returned in `reported`.
        Each mode's block of the switch is one method below; a rejected
        request returns before any field or the mode is written. */
    method SetMode(m: PhyMode, busWidth: nat) returns (ret: int, reported: Option<nat>)
      requires Valid() && busWidth < 0x8000_0000
      modifies this`mode, this`flags, this`refDiv, this`fbDiv, this`fracDiv, this`rateDiv
      ensures Valid()
      ensures SetModePlan(m, busWidth).Rejected? ==>
        ret == -EINVAL && reported == None
        && mode == old(mode) && flags == old(flags) && Dividers() == old(Dividers())
      ensures SetModePlan(m, busWidth).Configured? ==>
        var plan := SetModePlan(m, busWidth);
        ret == 0 && mode == m && Dividers() == plan.pll && reported == plan.reported
        && flags == match plan.flags case Some(f) => f case None => old(flags)
    {
      match m {
        case VideoMipi =>
          ret, reported := MipiDividers(busWidth);
        case VideoLvds =>
          LvdsDividers(busWidth);
          ret, reported := 0, None;
        case Gvi =>
          ret, reported := GviDividers(busWidth);
        case _ =>
          return -EINVAL, None;
      }
      if ret < 0 {
        return;
      }
      ConfiguredShape(m, busWidth);
      mode := m;
    }

    /** The PHY_MODE_VIDEO_MIPI block of set_mode. The reference clock
        fin = 24 MHz is written as the literal 24. */
    method MipiDividers(busWidth: nat) returns (ret: int, reported: Option<nat>)
      requires busWidth < 0x8000_0000
      modifies this`flags, this`refDiv, this`fbDiv, this`fracDiv, this`rateDiv
      ensures MipiPlan(busWidth).Rejected? ==>
        ret == -EINVAL && reported == None && flags == old(flags) && Dividers() == old(Dividers())
      ensures MipiPlan(busWidth).Configured? ==>
        var plan := MipiPlan(busWidth);
        ret == 0 && Dividers() == plan.pll && plan.flags == Some(flags as nat)
        && reported == plan.reported
    {
      var fhsc: u32 := busWidth / 256;              // bus_width >> 8
      var fl: u32 := busWidth % 256;                // bus_width & 0xff
      fhsc := 24 * (fhsc / 24);
      if fhsc < 80 || fhsc > 1500 {
        return -EINVAL, None;
      } else if fhsc < 375 {
        rateDiv := 4;
      } else if fhsc < 750 {
        rateDiv := 2;
      } else {
        rateDiv := 1;
      }
      flags := fl;
      assert fhsc == MipiRate(busWidth) && rateDiv == MipiRateDiv(fhsc);
      fhsc := MipiPll(fhsc);
      reported := Some(fhsc);
      ret := 0;
    }

    /** The divider arithmetic of the MIPI block once rate_div is chosen:
        fvco = fhsc * 2 * rate_div, the dividers for it, and the rate the
        rounded-up recomputation gives back. */
    method MipiPll(fhsc: u32) returns (rate: u32)
      requires 80 <= fhsc <= 1500 && fhsc % 24 == 0 && rateDiv == MipiRateDiv(fhsc)
      modifies this`refDiv, this`fbDiv, this`fracDiv
      ensures rateDiv == old(rateDiv)
      ensures Dividers() == PllFor(fhsc * 2 * rateDiv, rateDiv)
      ensures rate == VcoUp(Dividers()) / 2 / rateDiv
    {
      MipiAt(fhsc / 24, rateDiv);
      var fvco: u32 := fhsc * 2 * rateDiv;
      StoreDividers(fvco);
      fvco := 24 * (1024 * fbDiv + fracDiv);
      fvco := fvco * 8;
      fvco := DivRoundUp(fvco, 1024 * refDiv);
      rate := fvco / 2 / rateDiv;
    }

    /** The PHY_MODE_VIDEO_LVDS block of set_mode: it cannot fail and
        reports nothing. */
    method LvdsDividers(busWidth: nat)
      requires busWidth < 0x8000_0000
      modifies this`flags, this`refDiv, this`fbDiv, this`fracDiv, this`rateDiv
      ensures var plan := LvdsPlan(busWidth);
        Dividers() == plan.pll && plan.flags == Some(flags as nat)
    {
      var fl: u32 := busWidth % 256;                // bus_width & 0xff
      var rate: u32 := (busWidth / 256) * 7;        // (bus_width >> 8) * 7
      flags := fl;
      refDiv := 1;
      fbDiv := 14;
      fracDiv := 0;
      if rate < 500 {
        rateDiv := 4;
      } else if rate < 1000 {
        rateDiv := 2;
      } else {
        rateDiv := 1;
      }
    }

    /** The PHY_MODE_GVI block of set_mode: the flags are not touched. */
    method GviDividers(busWidth: nat) returns (ret: int, reported: Option<nat>)
      requires busWidth < 0x8000_0000
      modifies this`refDiv, this`fbDiv, this`fracDiv, this`rateDiv
      ensures GviPlan(busWidth).Rejected? ==>
        ret == -EINVAL && reported == None && Dividers() == old(Dividers())
      ensures GviPlan(busWidth).Configured? ==>
        var plan := GviPlan(busWidth);
        ret == 0 && Dividers() == plan.pll && reported == plan.reported
    {
      var fhsc: u32 := busWidth % 4096;             // bus_width & 0xfff
      if fhsc < 500 || fhsc > 4000 {
        return -EINVAL, None;
      } else if fhsc < 1000 {
        rateDiv := 4;
      } else if fhsc < 2000 {
        rateDiv := 2;
      } else {
        rateDiv := 1;
      }
      assert fhsc == GviRate(busWidth) && rateDiv == GviRateDiv(fhsc);
      fhsc := GviPll(fhsc);
      reported := Some(fhsc);
      ret := 0;
    }

    /** The divider arithmetic of the GVI block once rate_div is chosen:
        fvco = fhsc * rate_div, the dividers for it, and the rate the
        rounded-down recomputation gives back. */
    method GviPll(fhsc: u32) returns (rate: u32)
      requires 500 <= fhsc <= 4000 && rateDiv == GviRateDiv(fhsc)
      modifies this`refDiv, this`fbDiv, this`fracDiv
      ensures rateDiv == old(rateDiv)
      ensures Dividers() == PllFor(fhsc * rateDiv, rateDiv)
      ensures rate == VcoDown(Dividers()) / rateDiv
    {
      GviRange(fhsc);
      var fvco: u32 := fhsc * rateDiv;
      StoreDividers(fvco);
      fvco := 24 * (1024 * fbDiv + fracDiv);
      fvco := fvco * 8;
      fvco := fvco / (1024 * refDiv);
      rate := fvco / rateDiv;
    }

    /** The divider computation the MIPI and GVI blocks share: ref_div = 1,
        fb_div = fvco / 8 / fin, and the residue in 1/1024 steps. */
    method StoreDividers(fvco: u32)
      requires 768 <= fvco <= 4000
      modifies this`refDiv, this`fbDiv, this`fracDiv
      ensures Dividers() == PllFor(fvco, rateDiv)
      ensures rateDiv == old(rateDiv)
    {
      refDiv := 1;
      fbDiv := fvco / 8 / 24;
      var fracRate: u32 := fvco - 24 * 8 * fbDiv;
      assert fracRate == FracRate(fvco);
      if fracRate != 0 {
        fracRate := fracRate * 1024;                // frac_rate <<= 10
        fracRate := fracRate / (24 * 8);
        fracDiv := fracRate;
      } else {
        fracDiv := 0;
      }
    }
  }
}

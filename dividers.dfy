/** The divider calculator of rk628_combtxphy_set_mode: from the requested
    mode and the composite bus-width value to the PLL dividers and the
    rate reported back to the caller, against the 24 MHz reference clock.
    Everything here is natural-number arithmetic; the bounds lemmas show
    that every intermediate fits the C types the driver uses. */
module TxPhyDividers {
  import opened TxPhyRegs

  // The PLL reference clock fin is 24 MHz; it is written as the literal
  // 24 below, and 8 * fin as 192.

  /** The phy_mode values the driver distinguishes; Invalid is the zeroed
      value before any set_mode, OtherMode any mode the driver rejects. */
  datatype PhyMode = Invalid | VideoMipi | VideoLvds | Gvi | OtherMode

  datatype Option<T> = None | Some(value: T)

  datatype Pll = Pll(refDiv: nat, fbDiv: nat, fracDiv: nat, rateDiv: nat)

  /** The effect of one set_mode call: rejected, or the dividers stored,
      the flags stored (GVI stores none) and the rate written back to the
      bus width (LVDS writes none). */
  datatype Plan = Rejected | Configured(pll: Pll, flags: Option<nat>, reported: Option<nat>)

  /** The unsigned `/=` of the GVI recomputation and the kernel's
      DIV_ROUND_UP of the MIPI one, side by side. */
  function DivFloor(n: nat, d: nat): (q: nat)
    requires d > 0
  {
    n / d
  }

  function DivRoundUp(n: nat, d: nat): (q: nat)
    requires d > 0
  {
    (n + d - 1) / d
  }

  /** bus_width >> 8 and bus_width & 0xff / 0xfff on a non-negative int. */
  function RateField(busWidth: nat): (rate: nat) { busWidth / 256 }
  function FlagsField(busWidth: nat): (fl: nat) { busWidth % 256 }
  function GviRate(busWidth: nat): (fhsc: nat) { busWidth % 4096 }

  /** MIPI takes the requested rate rounded down to a multiple of 24. */
  function MipiRate(busWidth: nat): (fhsc: nat) { 24 * (RateField(busWidth) / 24) }

  /** LVDS thresholds apply to seven times the requested rate. */
  function LvdsRate(busWidth: nat): (rate: nat) { RateField(busWidth) * 7 }

  function MipiRateDiv(fhsc: nat): (rd: nat) { if fhsc < 375 then 4 else if fhsc < 750 then 2 else 1 }
  function LvdsRateDiv(rate: nat): (rd: nat) { if rate < 500 then 4 else if rate < 1000 then 2 else 1 }
  function GviRateDiv(fhsc: nat): (rd: nat) { if fhsc < 1000 then 4 else if fhsc < 2000 then 2 else 1 }

  /** fvco / 8 / fin: the integer part of fvco over the 192 step. */
  function FbDiv(fvco: nat): (fb: nat) { fvco / 8 / 24 }

  /** fvco - fin * 8 * fb_div: what the integer part leaves over. */
  function FracRate(fvco: nat): (fr: nat)
    ensures fvco == 192 * FbDiv(fvco) + fr && fr < 192
  {
    fvco - 192 * FbDiv(fvco)
  }

  /** (frac_rate << 10) / (fin * 8) when frac_rate is nonzero, else 0:
      the residue in units of 1/1024 of a step, rounded down. */
  function FracDiv(fvco: nat): (fd: nat)
    ensures fd < 1024
    ensures fd * 192 <= FracRate(fvco) * 1024 < (fd + 1) * 192
  {
    var fr := FracRate(fvco);
    if fr != 0 then (fr * 1024) / 192 else 0
  }

  /** The VCO rate the programmed dividers reach, before the rate divider:
      fin * (1024 * fb_div + frac_div) * 8 over 1024 * ref_div, rounded up
      by MIPI and down by GVI. */
  function VcoUp(p: Pll): (fvco: nat)
    requires p.refDiv > 0
  {
    DivRoundUp(24 * (1024 * p.fbDiv + p.fracDiv) * 8, 1024 * p.refDiv)
  }

  function VcoDown(p: Pll): (fvco: nat)
    requires p.refDiv > 0
  {
    DivFloor(24 * (1024 * p.fbDiv + p.fracDiv) * 8, 1024 * p.refDiv)
  }

  /** The dividers for a VCO target: ref_div fixed at 1. */
  function PllFor(fvco: nat, rateDiv: nat): (p: Pll)
  {
    Pll(1, FbDiv(fvco), FracDiv(fvco), rateDiv)
  }

  /** MIPI from the rounded rate fhsc and the flags byte. */
  function MipiPlanAt(fhsc: nat, flags: nat): (plan: Plan)
  {
    if fhsc < 80 || fhsc > 1500 then Rejected
    else
      var rd := MipiRateDiv(fhsc);
      var p := PllFor(fhsc * 2 * rd, rd);
      Configured(p, Some(flags), Some(VcoUp(p) / 2 / rd))
  }

  function MipiPlan(busWidth: nat): (plan: Plan)
  {
    MipiPlanAt(MipiRate(busWidth), FlagsField(busWidth))
  }

  function LvdsPlan(busWidth: nat): (plan: Plan)
  {
    Configured(Pll(1, 14, 0, LvdsRateDiv(LvdsRate(busWidth))), Some(FlagsField(busWidth)), None)
  }

  function GviPlan(busWidth: nat): (plan: Plan)
  {
    var fhsc := GviRate(busWidth);
    if fhsc < 500 || fhsc > 4000 then Rejected
    else
      var rd := GviRateDiv(fhsc);
      var p := PllFor(fhsc * rd, rd);
      Configured(p, None, Some(VcoDown(p) / rd))
  }

  /** What rk628_combtxphy_set_mode computes for a mode and bus width. */
  function SetModePlan(mode: PhyMode, busWidth: nat): (plan: Plan)
  {
    match mode
    case VideoMipi => MipiPlan(busWidth)
    case VideoLvds => LvdsPlan(busWidth)
    case Gvi => GviPlan(busWidth)
    case _ => Rejected
  }

  // ---------------------------------------------------------------------
  // Rejection and the shape of every accepted configuration

  /** set_mode fails exactly for an out-of-range MIPI or GVI rate and for
      a mode other than the three. */
  lemma RejectedExactly(mode: PhyMode, busWidth: nat)
    ensures SetModePlan(mode, busWidth).Rejected? <==>
      (mode == VideoMipi && (MipiRate(busWidth) < 80 || MipiRate(busWidth) > 1500))
      || (mode == Gvi && (GviRate(busWidth) < 500 || GviRate(busWidth) > 4000))
      || (mode != VideoMipi && mode != VideoLvds && mode != Gvi)
  {
  }

  /** Measured on the requested rate (before the rounding to a multiple
      of 24), MIPI accepts exactly [96, 1511]: 80..95 round to 72 and are
      rejected, 1500..1511 round to 1488 and are accepted. */
  lemma MipiAcceptsRequest(busWidth: nat)
    ensures MipiPlan(busWidth).Configured? <==> 96 <= RateField(busWidth) <= 1511
  {
  }

  /** The rate divider each mode picks by its thresholds. */
  ghost predicate RateDivByThreshold(mode: PhyMode, busWidth: nat, rd: nat)
  {
    match mode
    case VideoMipi => rd == MipiRateDiv(MipiRate(busWidth))
    case VideoLvds => rd == LvdsRateDiv(LvdsRate(busWidth))
    case Gvi => rd == GviRateDiv(GviRate(busWidth))
    case _ => false
  }

  /** The dividers an accepted set_mode stores: ref_div 1, rate_div 1, 2
      or 4, and fb_div and frac_div within their 5- and 10-bit CON5 fields. */
  ghost predicate AcceptedDividers(p: Pll)
  {
    p.refDiv == 1 && (p.rateDiv == 1 || p.rateDiv == 2 || p.rateDiv == 4)
    && p.fbDiv < 32 && p.fracDiv < 1024
  }

  /** Every accepted configuration has ref_div 1, the threshold rate
      divider and dividers that fit CON5, and the flags of the low byte
      (MIPI, LVDS) or none (GVI). */
  lemma ConfiguredShape(mode: PhyMode, busWidth: nat)
    requires SetModePlan(mode, busWidth).Configured?
    ensures var c := SetModePlan(mode, busWidth);
      AcceptedDividers(c.pll) && RateDivByThreshold(mode, busWidth, c.pll.rateDiv)
      && c.flags == (if mode == Gvi then None else Some(FlagsField(busWidth)))
      && (c.reported.None? <==> mode == VideoLvds)
  {
    match mode
    case VideoMipi => MipiBounds(busWidth);
    case VideoLvds =>
    case Gvi => GviBounds(busWidth);
  }

  /** LVDS never fails and fixes fb_div = 14, frac_div = 0. */
  lemma LvdsNeverRejects(busWidth: nat)
    ensures SetModePlan(VideoLvds, busWidth).Configured?
    ensures var p := SetModePlan(VideoLvds, busWidth).pll;
      p.refDiv == 1 && p.fbDiv == 14 && p.fracDiv == 0
      && p.rateDiv == LvdsRateDiv(RateField(busWidth) * 7)
  {
  }

  // ---------------------------------------------------------------------
  // MIPI: the 24-rounding makes the recomputation exact

  /** For a VCO target that is a multiple of 48 MHz the residue is a whole
      quarter step, so frac_div is a multiple of 256 and rounding the
      recomputation up gives the target back. */
  lemma MultipleOf48(m: nat)
    ensures FbDiv(48 * m) == m / 4
    ensures FracRate(48 * m) == 48 * (m % 4)
    ensures FracDiv(48 * m) == 256 * (m % 4)
    ensures VcoUp(PllFor(48 * m, 1)) == 48 * m
  {
    var q, r := m / 4, m % 4;
    assert m == 4 * q + r;
    assert 48 * m == 192 * q + 48 * r;
    assert (48 * m) / 8 == 24 * q + 6 * r;
    assert FbDiv(48 * m) == q;
    assert FracRate(48 * m) == 48 * r;
    assert 48 * r * 1024 == 256 * r * 192;
    assert FracDiv(48 * m) == 256 * r;
    var n := 24 * (1024 * q + 256 * r) * 8;
    assert n == 1024 * (192 * q + 48 * r);
    assert (n + 1023) / 1024 == 192 * q + 48 * r;
  }

  /** The MIPI dividers for the rate 24 * k, k in [4, 62]: the VCO target
      24 * k * 2 * rd lies in [768, 3000], fb_div in [4, 15], frac_div is
      a multiple of 256, and the rounded-up recomputation gives back the
      VCO target and the rate 24 * k. */
  lemma MipiAt(k: nat, rd: nat)
    requires 80 <= 24 * k <= 1500 && rd == MipiRateDiv(24 * k)
    ensures var fvco := 24 * k * 2 * rd; var p := PllFor(fvco, rd);
      768 <= fvco <= 3000
      && 4 <= p.fbDiv <= 15 && FracRate(fvco) < 192
      && p.fracDiv in {0, 256, 512, 768}
      && VcoUp(p) == fvco && VcoUp(p) / 2 / rd == 24 * k
  {
    var m: nat;
    if rd == 4 {
      m := 4 * k;
      assert 24 * k * 2 * rd == 48 * m;
    } else if rd == 2 {
      m := 2 * k;
      assert 24 * k * 2 * rd == 48 * m;
    } else {
      m := k;
      assert 24 * k * 2 * rd == 48 * m;
    }
    assert 16 <= m <= 62;
    MultipleOf48(m);
    var p := PllFor(48 * m, rd);
    assert VcoUp(p) == VcoUp(PllFor(48 * m, 1));
    assert VcoUp(p) / 2 == 24 * m;
    if rd == 4 {
      assert 24 * m == 4 * (24 * k);
    } else if rd == 2 {
      assert 24 * m == 2 * (24 * k);
    }
  }

  /** Every accepted MIPI request: fb_div in [4, 15], frac_div a multiple
      of 256, the rounded-up recomputation reproduces fvco exactly and the
      reported rate is the request rounded down to a multiple of 24. */
  lemma MipiBounds(busWidth: nat)
    requires 80 <= MipiRate(busWidth) <= 1500
    ensures var c := MipiPlan(busWidth); var p := c.pll; var fhsc := MipiRate(busWidth);
      var fvco := fhsc * 2 * p.rateDiv;
      768 <= fvco <= 3000
      && 4 <= p.fbDiv <= 15 && FracRate(fvco) < 192
      && p.fracDiv in {0, 256, 512, 768}
      && VcoUp(p) == fvco
      && c.reported == Some(fhsc)
  {
    var k := RateField(busWidth) / 24;
    assert MipiRate(busWidth) == 24 * k;
    MipiAt(k, MipiRateDiv(24 * k));
  }

  /** The rate an accepted MIPI request reports is its rounded rate. */
  lemma MipiReportsRate(busWidth: nat)
    requires 80 <= MipiRate(busWidth) <= 1500
    ensures MipiPlan(busWidth).reported == Some(MipiRate(busWidth))
  {
    MipiBounds(busWidth);
  }

  /** Rounding down to a multiple of 24 loses less than one step. */
  lemma RoundDown24(x: nat)
    ensures var r := 24 * (x / 24); r <= x < r + 24 && r % 24 == 0
  {
  }

  /** The reported MIPI rate is within one 24 MHz step below the request. */
  lemma MipiWithinOneStep(busWidth: nat)
    requires 80 <= MipiRate(busWidth) <= 1500
    ensures var r := MipiPlan(busWidth).reported.value;
      r <= RateField(busWidth) < r + 24 && r % 24 == 0
  {
    MipiReportsRate(busWidth);
    RoundDown24(RateField(busWidth));
  }

  /** The flags byte has no say in the MIPI dividers or the reported rate. */
  lemma MipiFlagsIndependent(fhsc: nat, f1: nat, f2: nat)
    ensures MipiPlanAt(fhsc, f1).Rejected? == MipiPlanAt(fhsc, f2).Rejected?
    ensures MipiPlanAt(fhsc, f1).Configured? ==>
      MipiPlanAt(fhsc, f1) == Configured(MipiPlanAt(fhsc, f2).pll, Some(f1), MipiPlanAt(fhsc, f2).reported)
  {
  }

  /** Feeding the reported MIPI rate back (shifted into the rate field,
      with any flags) reproduces the same dividers and the same rate. */
  lemma MipiFixedPoint(busWidth: nat, flags: nat)
    requires 80 <= MipiRate(busWidth) <= 1500 && flags < 256
    ensures var c := MipiPlan(busWidth); var r := c.reported.value;
      MipiPlan(r * 256 + flags) == Configured(c.pll, Some(flags), Some(r))
  {
    MipiReportsRate(busWidth);
    var r := MipiRate(busWidth);
    var w := r * 256 + flags;
    SplitBusWidth(r, flags);
    RoundDown24(RateField(busWidth));
    assert r % 24 == 0;
    assert MipiRate(w) == r;
    MipiFlagsIndependent(r, flags, FlagsField(busWidth));
  }

  /** A rate shifted into bits 8 and up over a flags byte splits back. */
  lemma SplitBusWidth(r: nat, flags: nat)
    requires flags < 256
    ensures (r * 256 + flags) / 256 == r && (r * 256 + flags) % 256 == flags
  {
  }

  /** The driver writes the MIPI rate back unshifted (the bus width's rate
      field is bits 8 and up): read back as a bus width, it is rejected. */
  lemma MipiReportIsUnshifted(busWidth: nat)
    requires 80 <= MipiRate(busWidth) <= 1500
    ensures MipiPlan(MipiPlan(busWidth).reported.value).Rejected?
  {
    MipiBounds(busWidth);
  }

  // ---------------------------------------------------------------------
  // GVI: the rounded-down recomputation loses at most 1 MHz

  /** For an accepted GVI rate fhsc the VCO target fhsc * rate_div lies
      in [2000, 4000] and fb_div in [10, 20]. */
  lemma GviRange(fhsc: nat)
    requires 500 <= fhsc <= 4000
    ensures var fvco := fhsc * GviRateDiv(fhsc);
      2000 <= fvco <= 4000 && 10 <= FbDiv(fvco) <= 20
  {
    var rd := GviRateDiv(fhsc);
    if rd == 4 { assert fhsc * rd == 4 * fhsc; }
    else if rd == 2 { assert fhsc * rd == 2 * fhsc; }
    else { assert fhsc * rd == fhsc; }
  }

  /** For every accepted GVI request: fvco in [2000, 4000], fb_div in
      [10, 20], frac_rate < 192 and frac_div < 1024. */
  lemma GviBounds(busWidth: nat)
    requires GviPlan(busWidth).Configured?
    ensures var p := GviPlan(busWidth).pll; var fvco := GviRate(busWidth) * p.rateDiv;
      2000 <= fvco <= 4000 && 10 <= p.fbDiv <= 20
      && FracRate(fvco) < 192 && p.fracDiv < 1024
  {
    GviRange(GviRate(busWidth));
  }

  /** The recomputed VCO rate is the target or 1 MHz below it, and it is
      the target when there is no residue. */
  lemma VcoDownWithinOne(fvco: nat, rd: nat)
    ensures var v := VcoDown(PllFor(fvco, rd));
      fvco - 1 <= v <= fvco && (FracRate(fvco) == 0 ==> v == fvco)
  {
    var q, fr, fd := FbDiv(fvco), FracRate(fvco), FracDiv(fvco);
    var n := 24 * (1024 * q + fd) * 8;
    assert n == 1024 * (192 * q) + 192 * fd;
    assert 192 * fd <= 1024 * fr < 192 * fd + 192;
    var t := (192 * fd) / 1024;
    assert n / 1024 == 192 * q + t;
    assert fr <= t + 1 && t <= fr;
  }

  /** The reported GVI rate lies in [fhsc - 1, fhsc]: never above the
      request, and equal to it when frac_rate is 0. */
  lemma GviAccuracy(busWidth: nat)
    requires GviPlan(busWidth).Configured?
    ensures var c := GviPlan(busWidth); var fhsc := GviRate(busWidth);
      var r := c.reported.value;
      fhsc - 1 <= r <= fhsc
      && (FracRate(fhsc * c.pll.rateDiv) == 0 ==> r == fhsc)
  {
    var fhsc := GviRate(busWidth);
    var rd := GviRateDiv(fhsc);
    var fvco := fhsc * rd;
    VcoDownWithinOne(fvco, rd);
    var v := VcoDown(PllFor(fvco, rd));
    if rd == 4 {
      assert fvco == 4 * fhsc;
    } else if rd == 2 {
      assert fvco == 2 * fhsc;
    } else {
      assert fvco == fhsc;
    }
  }

  /** At the lower edge the reported GVI rate falls out of the accepted
      range: 500 reports 499, which set_mode would reject. */
  lemma GviLowerEdge()
    ensures GviPlan(500).reported == Some(499)
    ensures GviPlan(499).Rejected?
  {
    assert GviRate(500) == 500 && GviRateDiv(500) == 4;
    assert FbDiv(2000) == 10;
    assert FracRate(2000) == 80;
    assert FracDiv(2000) == 426;
    assert VcoDown(Pll(1, 10, 426, 4)) == 1999;
    assert GviRate(499) == 499;
  }
}

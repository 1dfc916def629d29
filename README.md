# RK628 combo TX PHY: divider calculator and power sequencer

The RK628 bridge chip has a combined transmit PHY that drives MIPI DSI,
LVDS or GVI lanes. Its Linux driver does three things:

- `set_mode` reads a composite "bus width" from the PHY. It turns the
  requested lane rate into PLL dividers: fixed `ref_div`, feedback
  `fb_div`, fractional `frac_div` and output `rate_div`, which go into
  `struct rk628_combtxphy`. MIPI and LVDS also store the flags byte; GVI
  leaves the stored flags alone. MIPI and GVI write back the rate the
  dividers actually reach; LVDS writes nothing back.
- `power_on` resets the PHY and parks every lane idle and powered down.
  When no mode has been set it stops there with -EINVAL, selecting no
  reference clock. Otherwise it selects the GRF reference clock (1 for
  LVDS, 0 for MIPI and GVI), then runs the mode's sequence on registers
  CON0..CON10, including the CON5 divider word:
  - MIPI DSI polls for PLL lock and then enables FSET/RCAL. It never
    releases the lanes from idle or power-down.
  - LVDS powers up the lanes, polls for lock and then clears TX_IDLE.
  - GVI has no poll: it releases the lanes straight away.
- `power_off` parks the lanes, powers down the PLL, clears both module
  enables and stops the clock.

The model has four modules:

- `TxPhyRegs` (`regs.dfy`): the register map, the `GENMASK`/`UPDATE`
  macros on `bv32` and the CON5 word.
- `TxPhyDividers` (`dividers.dfy`): the divider arithmetic as pure
  functions over `nat`. `SetModePlan` says what `set_mode` does for any
  mode and bus width.
- `TxPhyPower` (`power.dfy`): each power sequence as a function from a
  register image (`seq<bv32>` of length 11) to the image it leaves. The
  lock poll is a method with a loop.
- `CombTxPhyDriver` (`combtxphy.dfy`): the driver struct as the class
  `CombTxPhy`. Its fields are the register-map cache (`array<bv32>`), the
  GRF reference-clock select, the mode, the flags and the four dividers.
  Its methods perform the driver's sequence of updates. Each method is
  proved equal to the functions above, and the lemmas there state the
  properties.

The fields are `u8`/`u16`/`u32` subset types. Verification therefore
shows that no assignment in `set_mode` truncates.

## Model

| member | source | states |
|---|---|---|
| TxPhyRegs.RegAddress | drivers/gpu/drm/rockchip/rk628/rk628_combtxphy.c:19-77 | COMBTXPHY_CONi sits at 0x90000 + 4i, and the eleven registers end at COMBTXPHY_MAX_REGISTER 0x90028 |
| TxPhyRegs.ConIndicesMatchAddresses | drivers/gpu/drm/rockchip/rk628/rk628_combtxphy.c:21-77 | the indices Con0, Con5, Con7, Con9 and Con10 of the register cache are COMBTXPHY_CON0 (0x90000), CON5 (0x90014), CON7 (0x9001c), CON9 (0x90024) and CON10 (0x90028), the last register |
| TxPhyRegs.Field | drivers/gpu/drm/rockchip/rk628/rk628_combtxphy.c:23-25 | UPDATE(x, h, l) sets no bit outside GENMASK(h, l) |
| TxPhyRegs.GenMask | drivers/gpu/drm/rockchip/rk628/rk628_combtxphy.c:22-26 | defines GENMASK(h, l) as the bits h down to l |
| TxPhyRegs.MasksMatchMacros | drivers/gpu/drm/rockchip/rk628/rk628_combtxphy.c:21-55 | the literal masks equal the driver's GENMASK/UPDATE forms for TX_IDLE, TX_PD, BUS_WIDTH 7/8/9/10-bit, RATE, REF_DIV, FB_DIV, FRAC_DIV and TX_MODE |
| TxPhyRegs.Con5Word | drivers/gpu/drm/rockchip/rk628/rk628_combtxphy.c:112-116 | defines the CON5 word the three power-on routines write: SW_REF_DIV(ref_div − 1) with C's wrap of 0 − 1 to all ones, SW_PLL_FB_DIV(fb_div), SW_PLL_FRAC_DIV(frac_div), SW_RATE(rate_div / 2) |
| TxPhyRegs.Con5Value | drivers/gpu/drm/rockchip/rk628/rk628_combtxphy.c:45-49 | defines the OR of the four UPDATE fields of CON5 |
| TxPhyRegs.Con5ValueFields | drivers/gpu/drm/rockchip/rk628/rk628_combtxphy.c:45-49 | a CON5 word built from values that fit their fields reads back each field unchanged, and nothing outside RATE/REF_DIV/FB_DIV/FRAC_DIV is set |
| TxPhyDividers.DivRoundUp | drivers/gpu/drm/rockchip/rk628/rk628_combtxphy.c:294 | defines DIV_ROUND_UP(n, d) as (n + d − 1) / d |
| TxPhyDividers.DivFloor | drivers/gpu/drm/rockchip/rk628/rk628_combtxphy.c:346 | defines the unsigned division fvco /= 1024 * ref_div |
| TxPhyDividers.RateField | drivers/gpu/drm/rockchip/rk628/rk628_combtxphy.c:263 | defines bus_width >> 8 on a non-negative bus width |
| TxPhyDividers.FlagsField | drivers/gpu/drm/rockchip/rk628/rk628_combtxphy.c:264 | defines bus_width & 0xff |
| TxPhyDividers.GviRate | drivers/gpu/drm/rockchip/rk628/rk628_combtxphy.c:320 | defines the GVI rate bus_width & 0xfff |
| TxPhyDividers.MipiRate | drivers/gpu/drm/rockchip/rk628/rk628_combtxphy.c:263-266 | defines the MIPI rate: bus_width >> 8 rounded down to a multiple of fin = 24 |
| TxPhyDividers.LvdsRate | drivers/gpu/drm/rockchip/rk628/rk628_combtxphy.c:303 | defines the LVDS threshold input (bus_width >> 8) * 7 |
| TxPhyDividers.MipiRateDiv | drivers/gpu/drm/rockchip/rk628/rk628_combtxphy.c:270-275 | defines the MIPI rate_div: 4 below 375, 2 below 750, else 1 |
| TxPhyDividers.LvdsRateDiv | drivers/gpu/drm/rockchip/rk628/rk628_combtxphy.c:310-315 | defines the LVDS rate_div: 4 below 500, 2 below 1000, else 1 |
| TxPhyDividers.GviRateDiv | drivers/gpu/drm/rockchip/rk628/rk628_combtxphy.c:324-329 | defines the GVI rate_div: 4 below 1000, 2 below 2000, else 1 |
| TxPhyDividers.FbDiv | drivers/gpu/drm/rockchip/rk628/rk628_combtxphy.c:281 | defines fb_div = fvco / 8 / fin |
| TxPhyDividers.VcoUp | drivers/gpu/drm/rockchip/rk628/rk628_combtxphy.c:292-294 | defines the MIPI recomputation fin·(1024·fb_div + frac_div)·8 over 1024·ref_div, rounded up |
| TxPhyDividers.VcoDown | drivers/gpu/drm/rockchip/rk628/rk628_combtxphy.c:344-346 | defines the GVI recomputation, the same quotient rounded down |
| TxPhyDividers.PllFor | drivers/gpu/drm/rockchip/rk628/rk628_combtxphy.c:279-290 | defines the dividers stored for a VCO target: ref_div 1, fb_div, frac_div and the chosen rate_div |
| TxPhyDividers.MipiPlanAt | drivers/gpu/drm/rockchip/rk628/rk628_combtxphy.c:266-296 | defines the MIPI case from the rounded rate: -EINVAL outside [80, 1500], else the dividers for fhsc·2·rate_div, the flags and the written-back rate VcoUp / 2 / rate_div |
| TxPhyDividers.MipiPlan | drivers/gpu/drm/rockchip/rk628/rk628_combtxphy.c:260-297 | defines the MIPI case of set_mode from the bus width |
| TxPhyDividers.LvdsPlan | drivers/gpu/drm/rockchip/rk628/rk628_combtxphy.c:299-317 | defines the LVDS case: flags, dividers 1/14/0 and the threshold rate_div, no write-back |
| TxPhyDividers.GviPlan | drivers/gpu/drm/rockchip/rk628/rk628_combtxphy.c:318-351 | defines the GVI case: -EINVAL outside [500, 4000], else the dividers for fhsc·rate_div, no flags, and the written-back rate VcoDown / rate_div |
| TxPhyDividers.SetModePlan | drivers/gpu/drm/rockchip/rk628/rk628_combtxphy.c:259-356 | defines set_mode's dispatch on the mode, -EINVAL for any other mode |
| TxPhyDividers.FracRate | drivers/gpu/drm/rockchip/rk628/rk628_combtxphy.c:281-282 | fvco = 192·fb_div + frac_rate with frac_rate < 192 |
| TxPhyDividers.FracDiv | drivers/gpu/drm/rockchip/rk628/rk628_combtxphy.c:284-290 | frac_div < 1024 is frac_rate·1024/192 rounded down (0 when frac_rate is 0) |
| TxPhyDividers.RejectedExactly | drivers/gpu/drm/rockchip/rk628/rk628_combtxphy.c:259-356 | set_mode fails exactly when the 24-rounded MIPI rate is outside [80, 1500], the GVI rate is outside [500, 4000], or the mode is none of the three |
| TxPhyDividers.MipiAcceptsRequest | drivers/gpu/drm/rockchip/rk628/rk628_combtxphy.c:263-269 | measured on the requested rate bus_width >> 8, MIPI accepts exactly [96, 1511], because the range check runs after the rounding down to a multiple of 24 |
| TxPhyDividers.ConfiguredShape | drivers/gpu/drm/rockchip/rk628/rk628_combtxphy.c:268-351 | every accepted configuration has ref_div 1, the threshold rate_div of its mode, fb_div < 32 and frac_div < 1024. MIPI and LVDS store the low-byte flags and GVI stores none. Only LVDS reports no rate |
| TxPhyDividers.LvdsNeverRejects | drivers/gpu/drm/rockchip/rk628/rk628_combtxphy.c:299-316 | LVDS always succeeds with ref_div 1, fb_div 14, frac_div 0 and rate_div chosen by the 500/1000 thresholds on 7·rate |
| TxPhyDividers.MultipleOf48 | drivers/gpu/drm/rockchip/rk628/rk628_combtxphy.c:279-294 | for a VCO target 48m: fb_div = m/4, frac_rate = 48(m mod 4), frac_div = 256(m mod 4), and the rounded-up recomputation gives 48m back |
| TxPhyDividers.MipiAt | drivers/gpu/drm/rockchip/rk628/rk628_combtxphy.c:268-295 | for a MIPI rate 24k in range: fvco ∈ [768, 3000], fb_div ∈ [4, 15], frac_div ∈ {0, 256, 512, 768}, the recomputed fvco is exact and the reported rate is 24k |
| TxPhyDividers.MipiBounds | drivers/gpu/drm/rockchip/rk628/rk628_combtxphy.c:262-296 | the same bounds for every accepted MIPI bus width, and the reported rate equals the request rounded down to a multiple of 24 |
| TxPhyDividers.MipiReportsRate | drivers/gpu/drm/rockchip/rk628/rk628_combtxphy.c:266-296 | the rate an accepted MIPI request writes back is its 24-rounded rate |
| TxPhyDividers.MipiWithinOneStep | drivers/gpu/drm/rockchip/rk628/rk628_combtxphy.c:263-296 | the reported MIPI rate r is a multiple of 24 with r ≤ requested < r + 24 |
| TxPhyDividers.MipiFlagsIndependent | drivers/gpu/drm/rockchip/rk628/rk628_combtxphy.c:264-277 | the flags byte changes neither acceptance nor the MIPI dividers nor the reported rate |
| TxPhyDividers.MipiFixedPoint | drivers/gpu/drm/rockchip/rk628/rk628_combtxphy.c:262-296 | a request built from the reported rate (shifted over any flags byte) gives the same dividers and reports the same rate |
| TxPhyDividers.MipiReportIsUnshifted | drivers/gpu/drm/rockchip/rk628/rk628_combtxphy.c:296 | the rate is written back without the << 8, so it is rejected if read back as a MIPI bus width |
| TxPhyDividers.GviRange | drivers/gpu/drm/rockchip/rk628/rk628_combtxphy.c:322-333 | for a GVI rate in [500, 4000], fvco = fhsc·rate_div ∈ [2000, 4000] and fb_div ∈ [10, 20] |
| TxPhyDividers.GviBounds | drivers/gpu/drm/rockchip/rk628/rk628_combtxphy.c:320-342 | every accepted GVI request has fvco ∈ [2000, 4000], fb_div ∈ [10, 20], frac_rate < 192 and frac_div < 1024 |
| TxPhyDividers.VcoDownWithinOne | drivers/gpu/drm/rockchip/rk628/rk628_combtxphy.c:332-346 | the rounded-down recomputation of a VCO target is the target or one below it, and exactly the target when frac_rate is 0 |
| TxPhyDividers.GviAccuracy | drivers/gpu/drm/rockchip/rk628/rk628_combtxphy.c:320-348 | the reported GVI rate lies in [fhsc − 1, fhsc], and equals fhsc when frac_rate is 0 |
| TxPhyDividers.GviLowerEdge | drivers/gpu/drm/rockchip/rk628/rk628_combtxphy.c:320-348 | GVI 500 reports 499, and 499 is a rate set_mode rejects |
| TxPhyPower.MergeBits | drivers/gpu/drm/rockchip/rk628/rk628_combtxphy.c:100-103 | regmap_update_bits' new value equals val inside the mask and the old value outside it |
| TxPhyPower.UpdateBits | drivers/gpu/drm/rockchip/rk628/rk628_combtxphy.c:100-103 | an update of one register merges its bits and leaves every other register unchanged |
| TxPhyPower.WriteReg | drivers/gpu/drm/rockchip/rk628/rk628_combtxphy.c:112-116 | regmap_write: the register takes the value and every other register is kept |
| TxPhyPower.ModuleA | drivers/gpu/drm/rockchip/rk628/rk628_combtxphy.c:105-107 | defines the test flags & COMBTXPHY_MODULEA_EN |
| TxPhyPower.ModuleB | drivers/gpu/drm/rockchip/rk628/rk628_combtxphy.c:108-110 | defines the test flags & COMBTXPHY_MODULEB_EN |
| TxPhyPower.EnableModules | drivers/gpu/drm/rockchip/rk628/rk628_combtxphy.c:105-110 | defines the two conditional module-enable updates of CON0 |
| TxPhyPower.Baseline | drivers/gpu/drm/rockchip/rk628/rk628_combtxphy.c:213-215 | defines power_on's first update: TX_IDLE and TX_PD all ones and PD_PLL set in CON0 |
| TxPhyPower.DsiImage | drivers/gpu/drm/rockchip/rk628/rk628_combtxphy.c:95-135 | defines the DSI register sequence and return value, given whether the poll saw lock |
| TxPhyPower.LvdsImage | drivers/gpu/drm/rockchip/rk628/rk628_combtxphy.c:137-178 | defines the LVDS register sequence and return value, given whether the poll saw lock |
| TxPhyPower.GviImage | drivers/gpu/drm/rockchip/rk628/rk628_combtxphy.c:180-201 | defines the GVI register sequence, which returns 0 |
| TxPhyPower.RefclkFor | drivers/gpu/drm/rockchip/rk628/rk628_combtxphy.c:217-235 | defines the GRF reference-clock select each mode writes: 0, 1, 0, or none |
| TxPhyPower.PowerOnImage | drivers/gpu/drm/rockchip/rk628/rk628_combtxphy.c:203-238 | defines power_on's register effect: the baseline, then the mode's sequence, or -EINVAL |
| TxPhyPower.PowerOffImage | drivers/gpu/drm/rockchip/rk628/rk628_combtxphy.c:240-252 | defines power_off's single CON0 update |
| TxPhyPower.Locked | drivers/gpu/drm/rockchip/rk628/rk628_combtxphy.c:121-122 | defines the poll's success: some read within the timeout saw DPHY_PHYLOCK |
| TxPhyPower.PollLock | drivers/gpu/drm/rockchip/rk628/rk628_combtxphy.c:121-126 | the poll reads at least once. It returns 0 exactly when some read saw lock, otherwise -ETIMEDOUT after every read. It stops at the first read that saw lock, and every read before that missed it |
| TxPhyPower.Con5Fields | drivers/gpu/drm/rockchip/rk628/rk628_combtxphy.c:112-116 | for accepted dividers, the CON5 word has SW_REF_DIV 0 and SW_RATE rate_div/2 ∈ {0, 1, 2}, and every value fits its field |
| TxPhyPower.PowerOnUnknownMode | drivers/gpu/drm/rockchip/rk628/rk628_combtxphy.c:213-235 | power_on always applies the baseline (TX_IDLE and TX_PD all ones, PD_PLL set, other registers kept). For another mode it stops there with -EINVAL and selects no reference clock |
| TxPhyPower.RefclkSelection | drivers/gpu/drm/rockchip/rk628/rk628_combtxphy.c:217-232 | reference clock 1 for LVDS, 0 for MIPI and GVI, and none selected for any other mode |
| TxPhyPower.DsiKeepsLanesIdle | drivers/gpu/drm/rockchip/rk628/rk628_combtxphy.c:95-135 | after MIPI power_on, TX_IDLE and TX_PD are still all ones, PD_PLL is 0 and CON5 holds the divider word. It returns 0 iff lock was seen; on timeout CON9 is untouched, and on lock FSET/RCAL are set |
| TxPhyPower.LvdsSequence | drivers/gpu/drm/rockchip/rk628/rk628_combtxphy.c:137-178 | after LVDS power_on, CON10 = TX7 \| TX2, TX_MODE = 3, CON5 holds the divider word, TX_PD and PD_PLL are 0, and it returns 0 iff locked. TX_IDLE is cleared only after lock and stays 0x3ff on timeout |
| TxPhyPower.GviSequence | drivers/gpu/drm/rockchip/rk628/rk628_combtxphy.c:180-201 | GVI power_on ignores the flags and the lock state and returns 0. It enables both modules, sets the 10-bit bus width, clears TX_IDLE, TX_PD and PD_PLL, and writes CON5 |
| TxPhyPower.ModulesFollowFlags | drivers/gpu/drm/rockchip/rk628/rk628_combtxphy.c:105-156 | in MIPI and LVDS each module enable is set when its flag is set, and left as it was otherwise |
| TxPhyPower.PowerOffEffect | drivers/gpu/drm/rockchip/rk628/rk628_combtxphy.c:240-252 | power_off sets TX_IDLE, TX_PD and PD_PLL, clears both module enables, keeps every other bit of CON0 and every other register, and applying it twice equals applying it once |
| CombTxPhyDriver.CombTxPhy.constructor | drivers/gpu/drm/rockchip/rk628/rk628_combtxphy.c:79-93 | the zeroed struct over a given register cache, with mode unset |
| CombTxPhyDriver.CombTxPhy.RegmapUpdateBits | drivers/gpu/drm/rockchip/rk628/rk628_combtxphy.c:100-103 | the in-place cache update equals UpdateBits on the old contents |
| CombTxPhyDriver.CombTxPhy.RegmapWrite | drivers/gpu/drm/rockchip/rk628/rk628_combtxphy.c:112-116 | the in-place write replaces exactly one register |
| CombTxPhyDriver.CombTxPhy.DsiPowerOn | drivers/gpu/drm/rockchip/rk628/rk628_combtxphy.c:95-135 | the registers and return value equal DsiImage for the stored flags and dividers and the poll's outcome |
| CombTxPhyDriver.CombTxPhy.LvdsPowerOn | drivers/gpu/drm/rockchip/rk628/rk628_combtxphy.c:137-178 | the registers and return value equal LvdsImage |
| CombTxPhyDriver.CombTxPhy.GviPowerOn | drivers/gpu/drm/rockchip/rk628/rk628_combtxphy.c:180-201 | the registers and return value equal GviImage |
| CombTxPhyDriver.CombTxPhy.PowerOn | drivers/gpu/drm/rockchip/rk628/rk628_combtxphy.c:203-238 | clock enabled, one reset pulse, registers and return value equal PowerOnImage, and the reference clock is selected per RefclkFor (unchanged for other modes) |
| CombTxPhyDriver.CombTxPhy.PowerOff | drivers/gpu/drm/rockchip/rk628/rk628_combtxphy.c:240-252 | the registers equal PowerOffImage, the clock is off and the return value is 0 |
| CombTxPhyDriver.CombTxPhy.SetMode | drivers/gpu/drm/rockchip/rk628/rk628_combtxphy.c:254-359 | on rejection, -EINVAL with mode, flags and dividers unchanged. Otherwise 0, the mode stored, the dividers and reported rate those of SetModePlan, and the flags stored for MIPI/LVDS but kept for GVI |
| CombTxPhyDriver.CombTxPhy.MipiDividers | drivers/gpu/drm/rockchip/rk628/rk628_combtxphy.c:260-297 | the MIPI case: rejection leaves flags and dividers unchanged; acceptance stores MipiPlan's dividers and flags and returns its reported rate |
| CombTxPhyDriver.CombTxPhy.MipiPll | drivers/gpu/drm/rockchip/rk628/rk628_combtxphy.c:279-295 | the dividers are those for fvco = fhsc·2·rate_div, and the result is the rounded-up recomputation over 2·rate_div |
| CombTxPhyDriver.CombTxPhy.LvdsDividers | drivers/gpu/drm/rockchip/rk628/rk628_combtxphy.c:299-317 | the LVDS case stores LvdsPlan's dividers and flags |
| CombTxPhyDriver.CombTxPhy.GviDividers | drivers/gpu/drm/rockchip/rk628/rk628_combtxphy.c:318-351 | the GVI case: rejection leaves the dividers unchanged; acceptance stores GviPlan's dividers and returns its reported rate |
| CombTxPhyDriver.CombTxPhy.GviPll | drivers/gpu/drm/rockchip/rk628/rk628_combtxphy.c:330-347 | the dividers are those for fvco = fhsc·rate_div, and the result is the rounded-down recomputation over rate_div |
| CombTxPhyDriver.CombTxPhy.StoreDividers | drivers/gpu/drm/rockchip/rk628/rk628_combtxphy.c:280-290 | ref_div 1, fb_div and frac_div as PllFor gives them for the VCO target. rate_div is kept |

## Left out

- Clock and reset: `clk_prepare_enable`, `clk_disable_unprepare` and the reset pulse are ghost state (`clockOn`, `resetPulses`). The reset is taken not to clear the register-map cache the model holds.
- Delays (`udelay`, `usleep_range`) carry no state and are dropped.
- The lock poll's 1000 µs timeout becomes a sequence of lock-bit samples, one per read within the timeout; there is always at least one read. A failing GRF read (a regmap error instead of a timeout) is not modelled.
- `dev_err`/`dev_info` logging is dropped.
- Probe, the regmap configuration, the OF match table and the module macros are outside the three phy operations and are not modelled. `include/dt-bindings/reset/rk628-rgu.h` only names reset lines, so it is not modelled either.
- `linux/mfd/rk628.h` is not part of this model. `COMBTXPHY_MODULEA_EN`/`COMBTXPHY_MODULEB_EN` are taken to be two distinct single bits, and no lemma depends on which bits. `GRF_POST_PROC_CON` becomes the `refclkSel` field, and `GRF_DPHY0_STATUS` becomes the lock samples.
- The bus width is a `set_mode` input (`phy_get_bus_width`); `phy_set_bus_width` is the returned `reported` value. It is taken to be a non-negative `int` below 2^31, so `>> 8` is `/ 256` and `& 0xff`/`& 0xfff` are remainders. A negative bus width is not modelled.
- CombTxPhyDriver.CombTxPhy.RegmapUpdateBits: every update is written to the cache. regmap skipping a write whose value is unchanged is not visible in the model.
- The GVI case of `set_mode` does not store the flags; the model follows the code's behaviour here.
- The residue `frac_div` is rounded down by the code (integer division), and the model does likewise.
- The GVI recomputation rounds down, so a request of 500 reports 499. The model keeps this as written (`GviLowerEdge`).
- The MIPI write-back is unshifted (`MipiReportIsUnshifted`), and the GVI sequence has no lock poll. Both are modelled as written.

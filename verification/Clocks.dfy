/** Clock settings and the SDRAM refresh rate computed from them (system.c). */
module Clocks {
  import opened Bits

  const CLKIN_HZ := 12_000_000
  const VCO_MAX_HZ := 400_000_000
  const VCO_MIN_HZ := 50_000_000
  const CCLK_MAX_HZ := VCO_MAX_HZ
  const SCLK_MAX_HZ := 80_000_000
  const T_REF := 64
  const NRA := 4096
  const T_RAS := 6
  const T_RP := 3

  /** The fields of PLL_CTL and PLL_DIV. */
  function Msel(ctl: u16): nat { ctl / 512 % 64 }

  function Bypass(ctl: u16): bool { ctl / 256 % 2 == 1 }

  function Df(ctl: u16): nat { ctl % 2 }

  function Ssel(div: u16): nat { div % 16 }

  /** MSEL of 0 stands for 64. */
  function VcoHz(ctl: u16): u32 {
    var msel := if Msel(ctl) == 0 then 64 else Msel(ctl);
    var hz := msel * CLKIN_HZ % 0x1_0000_0000;
    if Df(ctl) == 1 then hz / 2 else hz
  }

  /** Division by an SSEL of 0 is a trap. */
  function SclkHz(ctl: u16, div: u16): u32
    requires Bypass(ctl) || Ssel(div) != 0
  {
    if Bypass(ctl) then CLKIN_HZ else VcoHz(ctl) / Ssel(div)
  }

  const PLL_CTL_VAL: u16 := 12 * 512
  const PLL_DIV_VAL: u16 := 4

  /** True for NO_ERR. With no MSEL and SSEL given, the configured values are checked; the CSEL
      field is then taken from PLL_CTL. */
  predicate VerifyClocks(usMsel: byte, usCsel: byte, usSsel: byte) {
    var given := usMsel != 0 || usSsel != 0;
    var msel := if given then usMsel as int else Msel(PLL_CTL_VAL);
    var csel := if given then usCsel as int else PLL_CTL_VAL / 16 % 4;
    var ssel := if given then usSsel as int else Ssel(PLL_DIV_VAL);
    && msel != 0 && ssel != 0 && csel <= 4 && ssel <= 64
    && (var vco := CLKIN_HZ * msel;
        && VCO_MIN_HZ <= vco <= VCO_MAX_HZ
        && Shr(vco, csel) <= CCLK_MAX_HZ
        && vco / ssel <= SCLK_MAX_HZ)
  }

  /** The refresh divider, truncated to 16 bits. */
  function Rdiv(sclk: u32): u16 {
    (sclk / 1000 * T_REF % 0x1_0000_0000 / NRA - (T_RAS + T_RP)) % 0x1_0000
  }

  /** A refresh interval of RDIV+tRAS+tRP clocks is the longest that still refreshes all rows
      within tREF. */
  predicate RefreshTight(sclk: u32, rdiv: int) {
    (rdiv + T_RAS + T_RP) * NRA <= sclk / 1000 * T_REF < (rdiv + T_RAS + T_RP + 1) * NRA
  }

  /** What verify_clocks accepts, in closed form for CLKIN of 12 MHz. */
  lemma AcceptedExactly(msel: byte, csel: byte, ssel: byte)
    ensures VerifyClocks(msel, csel, ssel) <==>
            (msel == 0 && ssel == 0) || (5 <= msel <= 33 && csel <= 4 && 1 <= ssel <= 64 && 3 * msel <= 20 * ssel)
  {
    BootClocksAccepted();
    ShrIsDiv(CLKIN_HZ * msel as int, csel as int);
    QuotientAtMost(CLKIN_HZ * msel as int, Pow2(csel as int));
    if ssel > 0 {
      BusLimit(msel as int, ssel as int);
    }
  }

  lemma BusLimit(m: nat, s: nat)
    requires 0 < s < 0x100
    ensures CLKIN_HZ * m / s <= SCLK_MAX_HZ <==> CLKIN_HZ * m < (SCLK_MAX_HZ + 1) * s
    ensures s <= 64 ==> (CLKIN_HZ * m / s <= SCLK_MAX_HZ <==> 3 * m <= 20 * s)
  {
    var q := CLKIN_HZ * m / s;
    Quotient(CLKIN_HZ * m, s, q);
    if q <= SCLK_MAX_HZ {
      MulGap(q + 1, SCLK_MAX_HZ + 1, s);
    } else {
      MulGap(SCLK_MAX_HZ + 1, q, s);
    }
    assert CLKIN_HZ * m == 4_000_000 * (3 * m);
  }

  /** The system clock by the fields of the registers: MSEL of 0 means 64, DF halves, and bypass
      passes CLKIN through. */
  lemma SclkFields(m: nat, bypass: bool, df: bool, ssel: nat)
    requires m < 64 && 0 < ssel < 16
    ensures var ctl := 512 * m + (if bypass then 256 else 0) + if df then 1 else 0;
            SclkHz(ctl, ssel) ==
            if bypass then 12_000_000
            else (12_000_000 * (if m == 0 then 64 else m) / if df then 2 else 1) / ssel
  {
    FieldsOf(m, if bypass then 1 else 0, if df then 1 else 0);
    SclkOf(512 * m + (if bypass then 256 else 0) + if df then 1 else 0, m, bypass, df, ssel);
  }

  lemma SclkOf(ctl: u16, m: nat, bypass: bool, df: bool, ssel: nat)
    requires Msel(ctl) == m && Bypass(ctl) == bypass && Df(ctl) == (if df then 1 else 0) && 0 < ssel < 16
    ensures SclkHz(ctl, ssel) ==
            if bypass then 12_000_000
            else (12_000_000 * (if m == 0 then 64 else m) / if df then 2 else 1) / ssel
  {
    ModSmall(ssel, 16);
    ModSmall(CLKIN_HZ * (if m == 0 then 64 else m), 0x1_0000_0000);
  }

  lemma FieldsOf(m: nat, b: nat, f: nat)
    requires m < 64 && b <= 1 && f <= 1
    ensures var ctl := 512 * m + 256 * b + f;
            ctl / 512 % 64 == m && ctl / 256 % 2 == b && ctl % 2 == f
  {
    var ctl := 512 * m + 256 * b + f;
    assert ctl / 512 == m && ctl / 256 == 2 * m + b;
  }

  /** The computed divider is right exactly for the clocks on which it neither goes below 0 nor
      beyond 16 bits. */
  lemma RdivExact(sclk: u32)
    ensures RefreshTight(sclk, Rdiv(sclk)) <==> 576_000 <= sclk < 4_194_880_000
    ensures 576_000 <= sclk < 4_194_880_000 <==>
            (Rdiv(sclk) + 9) * 4096 <= sclk / 1000 * 64 < (Rdiv(sclk) + 10) * 4096
  {
    assert sclk / 1000 * T_REF < 0x1_0000_0000;
  }

  /** What verify_clocks accepts, once it is in the registers, gives a sound refresh rate. */
  lemma AcceptedClocksRefresh(msel: byte, csel: byte, ssel: byte, ctl: u16, div: u16)
    requires msel != 0 && ssel != 0 && VerifyClocks(msel, csel, ssel)
    requires Msel(ctl) == msel && Ssel(div) == ssel && Df(ctl) == 0 && !Bypass(ctl)
    ensures SclkHz(ctl, div) == CLKIN_HZ * msel / ssel
    ensures RefreshTight(SclkHz(ctl, div), Rdiv(SclkHz(ctl, div)))
    ensures SclkHz(ctl, div) <= SCLK_MAX_HZ
  {
    var vco := CLKIN_HZ * msel as int;
    AcceptedVco(msel, csel, ssel);
    assert SclkHz(ctl, div) == vco / ssel as int;
    DivAtLeast(vco, ssel as int, 576_000);
    RdivExact(SclkHz(ctl, div));
  }

  lemma AcceptedVco(msel: byte, csel: byte, ssel: byte)
    requires msel != 0 && ssel != 0 && VerifyClocks(msel, csel, ssel)
    ensures VCO_MIN_HZ <= CLKIN_HZ * msel <= VCO_MAX_HZ && ssel <= 64
    ensures CLKIN_HZ * msel / ssel <= SCLK_MAX_HZ
    ensures CLKIN_HZ * msel % 0x1_0000_0000 == CLKIN_HZ * msel
  {
  }

  lemma DivAtLeast(x: nat, y: nat, k: nat)
    requires 0 < y <= 64 && x >= 64 * k
    ensures x / y >= k
  {
    MulGap(y, 64, k);
    Quotient(x, y, x / y);
  }

  /** The two settings used at boot are accepted. */
  lemma BootClocksAccepted()
    ensures VerifyClocks(0, 0, 0)
    ensures SclkHz(PLL_CTL_VAL, PLL_DIV_VAL) == 36_000_000
  {
  }

  function Csel(div: u16): nat { div / 16 % 4 }

  /** The fields of PLL_DIV hold what was checked exactly if SSEL is below 16 and CSEL below 4;
      verify_clocks lets them go up to 64 and 4. */
  lemma DividersHeld(csel: byte, ssel: byte)
    ensures (exists div: u16 :: Ssel(div) == ssel && Csel(div) == csel) <==> ssel < 16 && csel < 4
    ensures VerifyClocks(12, 0, 16) && VerifyClocks(12, 4, 4)
  {
    if ssel < 16 && csel < 4 {
      var div: u16 := 16 * csel as int + ssel as int;
      assert div / 16 == csel;
      assert Ssel(div) == ssel && Csel(div) == csel;
    }
    assert Shr(144_000_000, 0) == 144_000_000;
    ShrIsDiv(144_000_000, 4);
    assert Pow2(4) == 16;
  }
}

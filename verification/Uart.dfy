/** Keeping the UART bit rate over a clock change (UART.c, ADSP-BF51x version). */
module Uart {
  import opened Bits
  import Clocks

  const DLAB := 7 // bit number in LCR

  /** The bit rate UartGetBitrate computes in 32-bit arithmetic. */
  function Rate(sclk: u32, divisor: nat): u32
    requires divisor > 0
  {
    (sclk / divisor + 8) % 0x1_0000_0000 / 16
  }

  /** The divisor UartSetBitrate computes in a 16-bit variable. */
  function Divisor(sclk: u32, rate: u32): u16
    requires rate > 0
  {
    (sclk / rate % 0x1_0000 + 8) % 0x1_0000 / 16
  }

  /** The divisor latches share their addresses with the data and interrupt registers; DLAB
      chooses. A register is the set of its bits that are 1. */
  class Port {
    var lcr: set<nat>
    var dll: byte
    var dlh: byte
    var rbr: byte
    var ier: byte
    ghost var sent: seq<byte>

    function Latched(): nat
      reads this
    {
      dlh as int * 0x100 + dll as int
    }

    method ReadLow() returns (b: byte)
      ensures b == if 7 in lcr then dll else rbr
    {
      b := if 7 in lcr then dll else rbr;
    }

    method ReadHigh() returns (b: byte)
      ensures b == if 7 in lcr then dlh else ier
    {
      b := if 7 in lcr then dlh else ier;
    }

    method WriteLow(b: byte)
      modifies this
      ensures lcr == old(lcr) && dlh == old(dlh) && ier == old(ier) && rbr == old(rbr)
      ensures dll == (if 7 in lcr then b else old(dll)) && sent == if 7 in lcr then old(sent) else old(sent) + [b]
    {
      if 7 in lcr {
        dll := b;
      } else {
        sent := sent + [b];
      }
    }

    method WriteHigh(b: byte)
      modifies this
      ensures lcr == old(lcr) && dll == old(dll) && sent == old(sent) && rbr == old(rbr)
      ensures dlh == (if 7 in lcr then b else old(dlh)) && ier == if 7 in lcr then old(ier) else b
    {
      if 7 in lcr {
        dlh := b;
      } else {
        ier := b;
      }
    }
  }

  /** The exclusive or that takes DLAB off again. */
  function Toggled(lcr: set<nat>): set<nat> { if DLAB in lcr then lcr - {DLAB} else lcr + {DLAB} }

  method UartGetBitrate(p: Port, sclk: u32) returns (rate: u32)
    requires p.Latched() > 0
    modifies p
    ensures rate == Rate(sclk, old(p.Latched()))
    ensures p.Latched() == old(p.Latched()) && p.lcr == old(p.lcr) - {7}
    ensures p.sent == old(p.sent) && p.ier == old(p.ier)
  {
    p.lcr := p.lcr + {DLAB};
    var high := p.ReadHigh();
    var low := p.ReadLow();
    var divisor: nat := high as int * 0x100 + low as int;
    QuotientAtMost(sclk, divisor);
    rate := sclk / divisor;
    p.lcr := Toggled(p.lcr);
    rate := (rate + 8) % 0x1_0000_0000;
    rate := rate / 16;
  }

  /** Writes the latches under DLAB and then reports to the host. */
  method UartSetBitrate(p: Port, sclk: u32, rate: u32)
    requires rate > 0
    modifies p
    ensures p.Latched() == Divisor(sclk, rate)
    ensures p.lcr == old(p.lcr) - {7} && p.ier == old(p.ier)
    ensures p.sent == old(p.sent) + [0xBF, p.dll, p.dlh, 0]
  {
    var divisor: u16 := sclk / rate % 0x1_0000;
    divisor := (divisor + 8) % 0x1_0000;
    divisor := divisor / 16;
    var dll: byte := divisor % 0x100;
    var dlh: byte := divisor / 0x100;
    p.lcr := p.lcr + {DLAB};
    p.WriteLow(dll);
    p.WriteHigh(dlh);
    p.lcr := Toggled(p.lcr);
    p.WriteLow(0xBF);
    p.WriteLow(dll);
    p.WriteLow(dlh);
    p.WriteLow(0);
  }

  /* ---- the arithmetic ---- */

  /** The whole number nearest to sclk / (16 * rate), with a half rounded up. */
  function Nearest(sclk: u32, rate: u32): nat
    requires rate > 0
  {
    (sclk / rate + 8) / 16
  }

  lemma NearestExact(sclk: u32, rate: u32, n: nat)
    requires rate > 0
    ensures Nearest(sclk, rate) == n <==> (16 * n - 8) * rate <= sclk < (16 * n + 8) * rate
  {
    var q := sclk / rate;
    Quotient(sclk, rate, q);
    if 16 * n - 8 <= q <= 16 * n + 7 {
      NearBelow(n, q, rate);
      MulGap(q + 1, 16 * n + 8, rate);
    } else if (16 * n - 8) * rate <= sclk < (16 * n + 8) * rate {
      NearBelow(n, 0, rate);
      QuotientBetween(sclk, rate, if n > 0 then 16 * n - 8 else 0, 16 * n + 8);
    }
  }

  /** The 16-bit arithmetic keeps the low twelve bits of it, for every clock and bit rate. */
  lemma DivisorOfQuotient(q: nat)
    ensures (q % 0x1_0000 + 8) % 0x1_0000 / 16 == (q + 8) / 16 % 0x1000
  {
    var high, low := q / 0x1_0000, q % 0x1_0000;
    assert (q + 8) / 16 == 0x1000 * high + (low + 8) / 16;
    assert (q + 8) / 16 % 0x1000 == (low + 8) / 16 % 0x1000;
  }

  /** So the divisor set is the right one exactly if the quotient leaves room for the rounding
      in 16 bits. */
  lemma DivisorExact(sclk: u32, rate: u32)
    requires rate > 0
    ensures Divisor(sclk, rate) == Nearest(sclk, rate) % 0x1000
    ensures var d := Divisor(sclk, rate);
            (16 * d - 8) * rate <= sclk < (16 * d + 8) * rate <==> sclk / rate + 8 < 0x1_0000
  {
    DivisorOfQuotient(sclk / rate);
    NearestExact(sclk, rate, Divisor(sclk, rate));
  }

  lemma NearBelow(d: nat, q: nat, rate: nat)
    ensures 16 * d - 8 <= q ==> (16 * d - 8) * rate <= q * rate
    ensures d == 0 ==> (16 * d - 8) * rate <= 0
  {
    if d > 0 && 16 * d - 8 <= q {
      MulGap(16 * d - 8, q, rate);
    } else if d == 0 {
      assert -8 * rate <= 0 <= q * rate;
    }
  }

  /** With an unchanged clock, when the divisor survives the two roundings and the truncation to
      16 bits: exactly if it has twelve bits and, divided into the clock, gives back a bit rate
      that is within half a divisor step. */
  lemma RoundTripExact(sclk: u32, d: nat)
    requires d >= 1 && Rate(sclk, d) >= 1
    ensures var r := Rate(sclk, d);
            Divisor(sclk, r) == d <==> d <= 4095 && (16 * d - 8) * r <= sclk < (16 * d + 8) * r
  {
    var r := Rate(sclk, d);
    QuotientBounded(sclk, d);
    DivisorOfQuotient(sclk / r);
    NearestExact(sclk, r, d);
    NoWrap(sclk / r, d);
  }

  /** Rounding a rate down to 1 at worst makes the quotient half as big again. */
  lemma AtMostTriple(sclk: u32, d: nat, r: nat)
    requires r >= 1 && sclk < (16 * r + 8) * d
    ensures sclk / r <= 24 * d
  {
    assert (16 * r + 8) * d <= 24 * d * r by {
      MulGap(8, 8 * r, d);
      assert (16 * r + 8) * d == 16 * r * d + 8 * d;
      assert 8 * r * d == 8 * (d * r) && 16 * r * d == 16 * (d * r);
    }
    Quotient(sclk, r, sclk / r);
    if sclk / r > 24 * d {
      MulGap(24 * d, sclk / r, r);
    }
  }

  lemma QuotientBounded(sclk: u32, d: nat)
    requires d >= 1 && Rate(sclk, d) >= 1
    ensures sclk / Rate(sclk, d) <= 24 * d
  {
    RateBrackets(sclk, d);
    AtMostTriple(sclk, d, Rate(sclk, d));
  }

  lemma NoWrap(q: nat, d: nat)
    requires q <= 24 * d
    ensures (q + 8) / 16 % 0x1000 == d <==> d <= 4095 && (q + 8) / 16 == d
  {
  }

  /** In particular it survives when the bit rate is at least the divisor. */
  lemma DivisorRoundTrip(sclk: u32, d: nat)
    requires 1 <= d <= 4095 && Rate(sclk, d) >= d
    ensures Divisor(sclk, Rate(sclk, d)) == d
  {
    RateBrackets(sclk, d);
    RoundTripBounds(sclk, d, Rate(sclk, d));
    RoundTripExact(sclk, d);
  }

  /** The bit rate read, for every clock and divisor but the one case in which the rounding overflows 32
      bits: the one and only r with (16r-8)*d <= SCLK < (16r+8)*d. */
  lemma RateExact(sclk: u32, d: nat, r: nat)
    requires d >= 1 && sclk / d + 8 < 0x1_0000_0000
    ensures Rate(sclk, d) == r <==> (16 * r - 8) * d <= sclk < (16 * r + 8) * d
  {
    SumInRange(sclk / d);
    if d <= 0xFFFF_FFFF {
      NearestExact(sclk, d, r);
    } else {
      Quotient(sclk, d, 0);
      LargeDivisor(sclk, d, r);
    }
  }

  lemma SumInRange(q: nat)
    requires q + 8 < 0x1_0000_0000
    ensures (q + 8) % 0x1_0000_0000 / 16 == (q + 8) / 16
  {
  }

  lemma LargeDivisor(sclk: u32, d: nat, r: nat)
    requires d > 0xFFFF_FFFF
    ensures r == 0 <==> (16 * r - 8) * d <= sclk < (16 * r + 8) * d
  {
    if r > 0 {
      MulGap(8, 16 * r - 8, d);
    } else {
      assert -8 * d <= 0;
    }
  }

  lemma RateBrackets(sclk: u32, d: nat)
    requires d >= 1 && Rate(sclk, d) >= 1
    ensures (16 * Rate(sclk, d) - 8) * d <= sclk < (16 * Rate(sclk, d) + 8) * d
  {
    var r, q := Rate(sclk, d), sclk / d;
    Quotient(sclk, d, q);
    RateOfQuotient(q, r);
    MulGap(16 * r - 8, q, d);
    MulGap(q + 1, 16 * r + 8, d);
  }

  /** A quotient big enough to wrap would give a rate of 0. */
  lemma RateOfQuotient(q: u32, r: nat)
    requires r == (q + 8) % 0x1_0000_0000 / 16 && r >= 1
    ensures 16 * r - 8 <= q <= 16 * r + 7
  {
  }

  lemma RoundTripBounds(sclk: nat, d: nat, r: nat)
    requires d <= r && (16 * r - 8) * d <= sclk < (16 * r + 8) * d
    ensures (16 * d - 8) * r <= sclk < (16 * d + 8) * r
  {
    assert (16 * d - 8) * r == 16 * (d * r) - 8 * r && (16 * r - 8) * d == 16 * (d * r) - 8 * d;
    assert (16 * d + 8) * r == 16 * (d * r) + 8 * r && (16 * r + 8) * d == 16 * (d * r) + 8 * d;
  }

  /** Reading the bit rate and setting it again on the registers. */
  method SetAgain(p: Port, sclk: u32) returns (rate: u32)
    requires p.Latched() > 0 && Rate(sclk, p.Latched()) > 0
    modifies p
    ensures rate == Rate(sclk, old(p.Latched()))
    ensures p.Latched() == old(p.Latched()) <==>
            (16 * old(p.Latched()) - 8) * rate <= sclk < (16 * old(p.Latched()) + 8) * rate && old(p.Latched()) <= 4095
  {
    RoundTripExact(sclk, p.Latched());
    rate := UartGetBitrate(p, sclk);
    UartSetBitrate(p, sclk, rate);
  }

  /** Below that bound it need not: at the boot clock a divisor of 4000 comes back as 3996, and
      one of 4095 as 2, since its quotient of 65573 leaves no room for the rounding. */
  lemma LowRateLosesDivisor()
    ensures Clocks.SclkHz(Clocks.PLL_CTL_VAL, Clocks.PLL_DIV_VAL) == 36_000_000
    ensures Rate(36_000_000, 4095) == 549 && Divisor(36_000_000, 549) == 2
    ensures Rate(36_000_000, 4000) == 563 && Divisor(36_000_000, 563) == 3996
  {
    Clocks.BootClocksAccepted();
    assert 36_000_000 / 4095 == 8791 && 36_000_000 / 549 == 65573;
    assert 36_000_000 / 4000 == 9000 && 36_000_000 / 563 == 63943;
  }
}

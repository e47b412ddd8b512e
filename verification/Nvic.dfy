/** Interrupt priorities: the CMSIS codec (core_cm3.h) for any number of priority bits, and the
    encoder inside NVIC_Init (misc.c). Section B1.5.4 of the ARMv7-M Architecture Reference
    Manual describes the field both write. */
module Nvic {
  import opened Bits

  /* ---- shifts and masks ---- */

  function Or(x: nat, y: nat): nat
    decreases x + y
  {
    if x == 0 then y else if y == 0 then x
    else (if x % 2 == 1 || y % 2 == 1 then 1 else 0) + 2 * Or(x / 2, y / 2)
  }

  function Shl(x: nat, n: nat): nat { x * Pow2(n) }

  /** (1 << n) - 1 */
  function Mask(n: nat): nat { Pow2(n) - 1 }

  lemma {:induction false} OrApart(x: nat, y: nat, n: nat)
    requires y < Pow2(n)
    ensures Or(Shl(x, n), y) == x * Pow2(n) + y
  {
    if n > 0 && x > 0 && y > 0 {
      Halves(x, n);
      OrApart(x, y / 2, n - 1);
    } else if n == 0 {
      assert x * Pow2(0) == x;
    }
  }

  lemma Halves(x: nat, n: nat)
    requires n > 0
    ensures x * Pow2(n) / 2 == x * Pow2(n - 1) && x * Pow2(n) % 2 == 0
    ensures x * Pow2(n) == 2 * (x * Pow2(n - 1))
  {
    assert x * (2 * Pow2(n - 1)) == 2 * (x * Pow2(n - 1));
  }

  lemma {:induction false} MaskIsMod(x: nat, n: nat)
    ensures And(x, Mask(n)) == x % Pow2(n)
  {
    if n > 0 {
      MaskIsMod(x / 2, n - 1);
      MaskStep(x, n);
      ModHalf(x, Pow2(n - 1));
    }
  }

  lemma MaskStep(x: nat, n: nat)
    requires n > 0
    ensures And(x, Mask(n)) == x % 2 + 2 * And(x / 2, Mask(n - 1))
  {
    assert Mask(n) / 2 == Mask(n - 1) && Mask(n) % 2 == 1;
  }

  lemma ModHalf(x: nat, p: nat)
    requires p > 0
    ensures x % (2 * p) == x % 2 + 2 * (x / 2 % p)
  {
    var q, r := x / 2 / p, x / 2 % p;
    assert x / 2 == q * p + r;
    assert q * (2 * p) == 2 * (q * p);
    DivModUnique(x, 2 * p, q, 2 * r + x % 2);
  }

  lemma {:induction false} Pow2Sum(a: nat, b: nat)
    ensures Pow2(a + b) == Pow2(a) * Pow2(b)
  {
    if a > 0 {
      Pow2Sum(a - 1, b);
      TwiceProduct(Pow2(a - 1), Pow2(b));
      assert a + b - 1 == a - 1 + b;
    }
  }

  lemma TwiceProduct(x: nat, y: nat)
    ensures 2 * x * y == 2 * (x * y)
  {
  }

  /* ---- the codec, for n priority bits ---- */

  type Group = g: nat | g <= 7

  function PreemptBits(n: nat, g: Group): nat { if 7 - g > n then n else 7 - g }

  function SubBits(n: nat, g: Group): nat { if g + n < 7 then 0 else g - 7 + n }

  function Encode(n: nat, g: Group, preempt: nat, sub: nat): nat {
    Or(Shl(And(preempt, Mask(PreemptBits(n, g))), SubBits(n, g)), And(sub, Mask(SubBits(n, g))))
  }

  function Decode(n: nat, g: Group, priority: nat): (nat, nat) {
    (And(Shr(priority, SubBits(n, g)), Mask(PreemptBits(n, g))), And(priority, Mask(SubBits(n, g))))
  }

  lemma WidthsSum(n: nat, g: Group)
    ensures PreemptBits(n, g) + SubBits(n, g) == n
    ensures Pow2(PreemptBits(n, g)) * Pow2(SubBits(n, g)) == Pow2(n)
  {
    Pow2Sum(PreemptBits(n, g), SubBits(n, g));
  }

  /** Encoding in arithmetic. */
  lemma EncodeValue(n: nat, g: Group, preempt: nat, sub: nat)
    ensures Encode(n, g, preempt, sub) ==
            preempt % Pow2(PreemptBits(n, g)) * Pow2(SubBits(n, g)) + sub % Pow2(SubBits(n, g))
  {
    MaskIsMod(preempt, PreemptBits(n, g));
    MaskIsMod(sub, SubBits(n, g));
    OrApart(preempt % Pow2(PreemptBits(n, g)), sub % Pow2(SubBits(n, g)), SubBits(n, g));
  }

  /** Two parts side by side stay below the product of their ranges. */
  lemma SideBySide(x: nat, y: nat, p: nat, s: nat)
    requires x < p && y < s
    ensures x * s + y < p * s
  {
    MulGap(x + 1, p, s);
    assert (x + 1) * s == x * s + s;
  }

  /** An encoded priority has n bits, so the 32-bit shifts lose nothing. */
  lemma EncodeFits(n: nat, g: Group, preempt: nat, sub: nat)
    ensures Encode(n, g, preempt, sub) < Pow2(n)
  {
    EncodeValue(n, g, preempt, sub);
    WidthsSum(n, g);
    SideBySide(preempt % Pow2(PreemptBits(n, g)), sub % Pow2(SubBits(n, g)),
               Pow2(PreemptBits(n, g)), Pow2(SubBits(n, g)));
  }

  /** Decoding in arithmetic. */
  lemma DecodeValue(n: nat, g: Group, priority: nat)
    ensures Decode(n, g, priority) ==
            (priority / Pow2(SubBits(n, g)) % Pow2(PreemptBits(n, g)), priority % Pow2(SubBits(n, g)))
  {
    ShrIsDiv(priority, SubBits(n, g));
    MaskIsMod(Shr(priority, SubBits(n, g)), PreemptBits(n, g));
    MaskIsMod(priority, SubBits(n, g));
  }

  /** Decoding what was encoded gives each part modulo its width. */
  lemma DecodeEncode(n: nat, g: Group, preempt: nat, sub: nat)
    ensures Decode(n, g, Encode(n, g, preempt, sub)) ==
            (preempt % Pow2(PreemptBits(n, g)), sub % Pow2(SubBits(n, g)))
  {
    EncodeValue(n, g, preempt, sub);
    DecodeValue(n, g, Encode(n, g, preempt, sub));
    TakeApart(preempt % Pow2(PreemptBits(n, g)), sub % Pow2(SubBits(n, g)),
              Pow2(PreemptBits(n, g)), Pow2(SubBits(n, g)));
  }

  lemma TakeApart(x: nat, y: nat, p: nat, s: nat)
    requires x < p && y < s
    ensures (x * s + y) / s % p == x && (x * s + y) % s == y
  {
    DivModUnique(x * s + y, s, x, y);
    ModSmall(x, p);
  }

  /** Encoding what was decoded gives back any priority of n bits. */
  lemma EncodeDecode(n: nat, g: Group, priority: nat)
    requires priority < Pow2(n)
    ensures var parts := Decode(n, g, priority);
            Encode(n, g, parts.0, parts.1) == priority
  {
    var parts := Decode(n, g, priority);
    WidthsSum(n, g);
    DecodeValue(n, g, priority);
    EncodeValue(n, g, parts.0, parts.1);
    PutTogether(priority, Pow2(PreemptBits(n, g)), Pow2(SubBits(n, g)));
  }

  lemma PutTogether(x: nat, p: nat, s: nat)
    requires p > 0 && s > 0 && x < p * s
    ensures x / s % p % p * s + x % s % s == x
  {
    QuotientBetween(x, s, 0, p);
    ModSmall(x / s, p);
    ModSmall(x % s, s);
    Quotient(x, s, x / s);
  }

  /** Among parts that fit their widths, encoded order is by preemption first and then by
      subpriority. */
  lemma EncodeOrder(n: nat, g: Group, p1: nat, s1: nat, p2: nat, s2: nat)
    requires p1 < Pow2(PreemptBits(n, g)) && p2 < Pow2(PreemptBits(n, g))
    requires s1 < Pow2(SubBits(n, g)) && s2 < Pow2(SubBits(n, g))
    ensures Encode(n, g, p1, s1) < Encode(n, g, p2, s2) <==> p1 < p2 || (p1 == p2 && s1 < s2)
  {
    EncodeValue(n, g, p1, s1);
    EncodeValue(n, g, p2, s2);
    ModSmall(p1, Pow2(PreemptBits(n, g)));
    ModSmall(p2, Pow2(PreemptBits(n, g)));
    ModSmall(s1, Pow2(SubBits(n, g)));
    ModSmall(s2, Pow2(SubBits(n, g)));
    Lexicographic(p1, s1, p2, s2, Pow2(SubBits(n, g)));
  }

  lemma Lexicographic(p1: nat, s1: nat, p2: nat, s2: nat, s: nat)
    requires s1 < s && s2 < s
    ensures p1 * s + s1 < p2 * s + s2 <==> p1 < p2 || (p1 == p2 && s1 < s2)
  {
    if p1 < p2 {
      MulGap(p1 + 1, p2, s);
      assert (p1 + 1) * s == p1 * s + s;
    } else if p2 < p1 {
      MulGap(p2 + 1, p1, s);
      assert (p2 + 1) * s == p2 * s + s;
    }
  }

  /* ---- the byte in the IP register ---- */

  /** NVIC_SetPriority stores the priority in the upper n bits of the byte. */
  function SetByte(n: nat, priority: nat): byte
    requires n <= 8
  {
    Shl(priority, 8 - n) % 0x100
  }

  function GetByte(n: nat, ip: byte): nat
    requires n <= 8
  {
    Shr(ip, 8 - n)
  }

  /** Bit g of the byte separates the two parts, for every number of priority bits: what lies above is
      the preemption priority, at the top of the byte, and what lies at or below it the subpriority. */
  lemma SplitAtGroup(n: nat, g: Group, preempt: nat, sub: nat)
    requires n <= 8
    ensures var ip, w := SetByte(n, Encode(n, g, preempt, sub)), if n < 7 - g then n else 7 - g;
            && ip / Pow2(g + 1) == preempt % Pow2(w) * Pow2(7 - g - w)
            && ip % Pow2(g + 1) == sub % Pow2(n - w) * Pow2(8 - n)
  {
    if n < 7 - g {
      SplitAbove(n, g, preempt, sub);
    } else {
      SplitWithin(n, g, preempt, sub);
    }
  }

  lemma SplitAbove(n: nat, g: Group, preempt: nat, sub: nat)
    requires n <= 8 && n < 7 - g
    ensures var ip := SetByte(n, Encode(n, g, preempt, sub));
            ip / Pow2(g + 1) == preempt % Pow2(n) * Pow2(7 - g - n) && ip % Pow2(g + 1) == sub % 1 * Pow2(8 - n)
  {
    ByteValue(n, g, preempt, sub);
    Pow2Sum(7 - g - n, g + 1);
    SplitNarrow(preempt % Pow2(n), sub % 1, Pow2(7 - g - n), Pow2(g + 1), Pow2(8 - n));
  }

  lemma SplitWithin(n: nat, g: Group, preempt: nat, sub: nat)
    requires n <= 8 && n >= 7 - g
    ensures var ip := SetByte(n, Encode(n, g, preempt, sub));
            && ip / Pow2(g + 1) == preempt % Pow2(7 - g) * 1
            && ip % Pow2(g + 1) == sub % Pow2(n + g - 7) * Pow2(8 - n)
  {
    ByteValue(n, g, preempt, sub);
    Pow2Sum(n + g - 7, 8 - n);
    SplitWide(preempt % Pow2(7 - g), sub % Pow2(n + g - 7), Pow2(n + g - 7), Pow2(8 - n), Pow2(g + 1));
  }

  lemma ByteValue(n: nat, g: Group, preempt: nat, sub: nat)
    requires n <= 8
    ensures SetByte(n, Encode(n, g, preempt, sub)) ==
            (preempt % Pow2(PreemptBits(n, g)) * Pow2(SubBits(n, g)) + sub % Pow2(SubBits(n, g))) * Pow2(8 - n)
  {
    EncodeValue(n, g, preempt, sub);
    EncodeFits(n, g, preempt, sub);
    Pow2Sum(n, 8 - n);
    assert Pow2(8) == 0x100;
    ShlFits(Encode(n, g, preempt, sub), Pow2(n), Pow2(8 - n));
  }

  lemma ShlFits(x: nat, m: nat, w: nat)
    requires m * w == 0x100 && x < m
    ensures x * w % 0x100 == x * w
  {
    if w > 0 {
      SideBySide(x, 0, m, w);
    }
  }

  /** All priority bits above bit g: there is no subpriority. */
  lemma SplitNarrow(p: nat, s: nat, a: nat, b: nat, c: nat)
    requires a * b == c && b > 0 && s < 1
    ensures (p * 1 + s) * c / b == p * a && (p * 1 + s) * c % b == s * c
  {
    assert p * c == p * a * b;
    DivModUnique(p * c, b, p * a, 0);
  }

  lemma SplitWide(p: nat, s: nat, a: nat, b: nat, c: nat)
    requires a * b == c && b > 0 && s < a
    ensures (p * a + s) * b / c == p * 1 && (p * a + s) * b % c == s * b
  {
    SideBySide(s, 0, a, b);
    assert (p * a + s) * b == p * c + s * b by {
      assert (p * a + s) * b == p * a * b + s * b;
      assert p * a * b == p * (a * b);
    }
    DivModUnique((p * a + s) * b, c, p, s * b);
  }

  const PRIO_BITS := 4

  /** NVIC_Init's own encoder, for the groups in which its shift counts are not negative. The
      preemption priority is not masked; the store into the byte cuts it off. */
  function InitByte(g: Group, preempt: byte, sub: byte): byte
    requires g >= 3
  {
    var tmppre := 4 - (7 - g);
    var tmpsub := Shr(0xF, 7 - g);
    Shl(Or(Shl(preempt, tmppre), And(sub, tmpsub)), 4) % 0x100
  }

  lemma Powers()
    ensures Pow2(0) == 1 && Pow2(1) == 2 && Pow2(2) == 4 && Pow2(3) == 8 && Pow2(4) == 16
  {
  }

  lemma InitByteValue(g: Group, preempt: byte, sub: byte)
    requires g >= 3
    ensures InitByte(g, preempt, sub) == (preempt * Pow2(g - 3) + sub % Pow2(g - 3)) * 16 % 0x100
  {
    Powers();
    assert Shr(15, 0) == 15 && Shr(15, 1) == 7 && Shr(15, 2) == 3 && Shr(15, 3) == 1 && Shr(15, 4) == 0;
    assert Shr(0xF, 7 - g) == Mask(g - 3);
    MaskIsMod(sub, g - 3);
    OrApart(preempt, sub % Pow2(g - 3), g - 3);
  }

  /** The two encoders store the same byte. */
  lemma EncodersAgree(g: Group, preempt: byte, sub: byte)
    requires g >= 3
    ensures InitByte(g, preempt, sub) == SetByte(PRIO_BITS, Encode(PRIO_BITS, g, preempt, sub))
  {
    Powers();
    InitByteValue(g, preempt, sub);
    EncodeValue(PRIO_BITS, g, preempt, sub);
    CutOff(g - 3, preempt, sub % Pow2(g - 3));
  }

  /** What the byte cuts off is what the mask would have. */
  lemma CutOff(a: nat, x: nat, s: nat)
    requires a <= 4 && s < Pow2(a)
    ensures (x * Pow2(a) + s) * 16 % 0x100 == (x % Pow2(4 - a) * Pow2(a) + s) * 16 % 0x100
  {
    Powers();
    Pow2Sum(4 - a, a);
    CutOffValue(x, s, Pow2(4 - a), Pow2(a));
  }

  lemma CutOffValue(x: nat, s: nat, m: nat, w: nat)
    requires m * w == 16 && s < w && m > 0
    ensures (x * w + s) * 16 % 0x100 == (x % m * w + s) * 16 % 0x100
  {
    var q, r := x / m, x % m;
    SideBySide(r, s, m, w);
    assert x * w == q * m * w + r * w by {
      assert x == q * m + r;
    }
    assert q * m * w == q * (m * w);
    DivModUnique((x * w + s) * 16, 0x100, q, (r * w + s) * 16);
    ModSmall((r * w + s) * 16, 0x100);
  }

  /** So the parts given to NVIC_Init come back, modulo their widths, from NVIC_GetPriority and
      NVIC_DecodePriority. */
  lemma InitDecodes(g: Group, preempt: byte, sub: byte)
    requires g >= 3
    ensures Decode(PRIO_BITS, g, GetByte(PRIO_BITS, InitByte(g, preempt, sub))) ==
            (preempt % Pow2(7 - g), sub % Pow2(g - 3))
  {
    Powers();
    EncodersAgree(g, preempt, sub);
    EncodeFits(PRIO_BITS, g, preempt, sub);
    GetSet(PRIO_BITS, Encode(PRIO_BITS, g, preempt, sub));
    DecodeEncode(PRIO_BITS, g, preempt, sub);
  }

  /** NVIC_GetPriority undoes NVIC_SetPriority on priorities of n bits. */
  lemma GetSet(n: nat, priority: nat)
    requires n <= 8 && priority < Pow2(n)
    ensures GetByte(n, SetByte(n, priority)) == priority
  {
    Pow2Sum(n, 8 - n);
    assert Pow2(8) == 0x100;
    ShrIsDiv(SetByte(n, priority), 8 - n);
    GetSetValue(priority, Pow2(n), Pow2(8 - n));
  }

  lemma GetSetValue(x: nat, m: nat, w: nat)
    requires m * w == 0x100 && x < m && w > 0
    ensures x * w % 0x100 / w == x
  {
    SideBySide(x, 0, m, w);
    ModSmall(x * w, 0x100);
    DivModUnique(x * w, w, x, 0);
  }

  /** The registers NVIC_Init and the CMSIS functions share. */
  class Controller {
    var prigroup: Group      // the field of AIRCR
    const ip: array<byte>
    const shp: array<byte>
    var enabled: set<nat>    // through the write-one-to-set and write-one-to-clear registers

    constructor ()
      ensures fresh(ip) && fresh(shp) && ip.Length == 240 && shp.Length == 12 && ip != shp
    {
      ip := new byte[240](_ => 0);
      shp := new byte[12](_ => 0);
      prigroup, enabled := 0, {};
    }

    /** The argument is 0x700 - 0x100 * k for k preemption bits. */
    method NVIC_PriorityGroupConfig(group: nat)
      requires group % 0x100 == 0 && group <= 0x700
      modifies this`prigroup
      ensures prigroup == group / 0x100
    {
      prigroup := group / 0x100;
    }

    /** For the groups below 3 the shift count in the source is negative, and C leaves open what
        the priority byte becomes. */
    method NVIC_Init(channel: nat, preempt: byte, sub: byte, enable: bool)
      requires channel < ip.Length && ip != shp
      modifies this`enabled, ip
      ensures ip[..] == if enable then old(ip[..])[channel := ip[channel]] else old(ip[..])
      ensures enable && prigroup >= 3 ==> ip[channel] == InitByte(prigroup, preempt, sub)
      ensures enabled == if enable then old(enabled) + {channel} else old(enabled) - {channel}
    {
      if enable {
        var tmppriority := 7 - prigroup;
        var tmppre := 4 - tmppriority;
        var tmpsub := Shr(0xF, tmppriority);
        if tmppre >= 0 {
          tmppriority := Shl(preempt, tmppre);
        } else {
          tmppriority :| tmppriority >= 0;
        }
        tmppriority := Or(tmppriority, And(sub, tmpsub));
        tmppriority := Shl(tmppriority, 4);
        ip[channel] := tmppriority % 0x100;
        enabled := enabled + {32 * (channel / 32) + channel % 32};
      } else {
        enabled := enabled - {32 * (channel / 32) + channel % 32};
      }
    }

    /** Negative numbers are core interrupts, which have their own registers. */
    method NVIC_SetPriority(irq: int, priority: nat)
      requires -12 <= irq < ip.Length && shp.Length == 12 && ip != shp
      modifies ip, shp
      ensures ip[..] == if irq < 0 then old(ip[..]) else old(ip[..])[irq := SetByte(PRIO_BITS, priority)]
      ensures shp[..] == if irq < 0 then old(shp[..])[irq + 12 := SetByte(PRIO_BITS, priority)] else old(shp[..])
    {
      if irq < 0 {
        shp[(irq + 0x1_0000_0000) % 16 - 4] := Shl(priority, 8 - PRIO_BITS) % 0x100;
      } else {
        ip[irq] := Shl(priority, 8 - PRIO_BITS) % 0x100;
      }
    }

    method NVIC_GetPriority(irq: int) returns (priority: nat)
      requires -12 <= irq < ip.Length && shp.Length == 12
      ensures priority == GetByte(PRIO_BITS, if irq < 0 then shp[irq + 12] else ip[irq])
    {
      if irq < 0 {
        priority := Shr(shp[(irq + 0x1_0000_0000) % 16 - 4], 8 - PRIO_BITS);
      } else {
        priority := Shr(ip[irq], 8 - PRIO_BITS);
      }
    }

    /** Configure a channel with one library and read it back with the other. */
    method InitThenDecode(group: nat, channel: nat, preempt: byte, sub: byte) returns (p: nat, s: nat)
      requires group % 0x100 == 0 && 0x300 <= group <= 0x700
      requires channel < ip.Length && ip != shp && shp.Length == 12
      modifies this, ip
      ensures (p, s) == (preempt % Pow2(7 - group / 0x100), sub % Pow2(group / 0x100 - 3))
    {
      NVIC_PriorityGroupConfig(group);
      NVIC_Init(channel, preempt, sub, true);
      var priority := NVIC_GetPriority(channel);
      InitDecodes(prigroup, preempt, sub);
      var parts := Decode(PRIO_BITS, prigroup, priority);
      p, s := parts.0, parts.1;
    }
  }
}

/** The SRAM self-test (Memory_Test in system_stm32f10x.c) on memory with faulty cells. */
module MemoryTest {
  import opened Bits

  const PATTERN: byte := 0xAA

  /** What each cell holds after a byte was written to it. A working cell holds that byte; a cell
      with bits stuck at 0 or 1 holds some other one. */
  type Cells = (nat, byte) -> byte

  predicate Works(hold: Cells, a: nat, n: nat) {
    forall x: nat, v: byte :: a <= x < n ==> hold(x, v) == v
  }

  predicate Bad(hold: Cells, a: nat) { hold(a, PATTERN) != PATTERN }

  /** The number of cells from lo below hi that do not hold the pattern. */
  function BadCells(hold: Cells, lo: nat, hi: nat): nat
    requires lo <= hi
  {
    if lo == hi then 0 else BadCells(hold, lo, hi - 1) + if Bad(hold, hi - 1) then 1 else 0
  }

  lemma {:induction false} BadCellsAppend(hold: Cells, lo: nat, mid: nat, hi: nat)
    requires lo <= mid <= hi
    ensures BadCells(hold, lo, hi) == BadCells(hold, lo, mid) + BadCells(hold, mid, hi)
  {
    if mid < hi {
      BadCellsAppend(hold, lo, mid, hi - 1);
    }
  }

  /** The 16-bit count carries over from one range to the next. */
  lemma CountsAppend(hold: Cells, mid: nat, hi: nat)
    requires mid <= hi
    ensures (BadCells(hold, 0, mid) % 0x1_0000 + BadCells(hold, mid, hi)) % 0x1_0000 == BadCells(hold, 0, hi) % 0x1_0000
  {
    BadCellsAppend(hold, 0, mid, hi);
    WrapSum(BadCells(hold, 0, mid), BadCells(hold, mid, hi));
  }

  lemma WrapSum(a: nat, b: nat)
    ensures (a % 0x1_0000 + b) % 0x1_0000 == (a + b) % 0x1_0000
  {
  }

  /** It is at most the number of cells, and 0 exactly if there is no bad one. */
  lemma {:induction false} BadCellsCounts(hold: Cells, lo: nat, hi: nat)
    requires lo <= hi
    ensures BadCells(hold, lo, hi) <= hi - lo
    ensures BadCells(hold, lo, hi) == 0 <==> forall a :: lo <= a < hi ==> !Bad(hold, a)
  {
    if lo < hi {
      BadCellsCounts(hold, lo, hi - 1);
    }
  }

  /** What the cells from `base` on hold after these bytes were written to them. */
  function Held(hold: Cells, base: nat, s: seq<byte>): seq<byte> {
    seq(|s|, i requires 0 <= i < |s| => hold(base + i, s[i]))
  }

  function HeldAll(hold: Cells, base: nat, n: nat, v: byte): seq<byte> {
    seq(n, i requires 0 <= i < n => hold(base + i, v))
  }

  lemma HeldAt(hold: Cells, s: seq<byte>, lo: nat, hi: nat, a: nat)
    requires lo <= a < hi <= |s| && s[lo..hi] == HeldAll(hold, lo, hi - lo, PATTERN)
    ensures s[a] == hold(a, PATTERN)
  {
    assert s[a] == s[lo..hi][a - lo];
  }

  /** s is like s0 except from lo on, where it has t. */
  predicate Replaced(s0: seq<byte>, s: seq<byte>, lo: nat, t: seq<byte>)
    requires lo + |t| <= |s0|
  {
    |s| == |s0| && s[..lo] == s0[..lo] && s[lo..lo + |t|] == t && s[lo + |t|..] == s0[lo + |t|..]
  }

  lemma ReplacedStep(s0: seq<byte>, s: seq<byte>, lo: nat, t: seq<byte>, b: byte)
    requires lo + |t| < |s0| && Replaced(s0, s, lo, t)
    ensures Replaced(s0, s[lo + |t| := b], lo, t + [b])
  {
    var s' := s[lo + |t| := b];
    assert s'[lo + |t| + 1..] == s[lo + |t|..][1..];
    assert s'[lo..lo + |t|] == s[lo..lo + |t|];
  }

  lemma HeldAllStep(hold: Cells, base: nat, n: nat, v: byte)
    ensures HeldAll(hold, base, n + 1, v) == HeldAll(hold, base, n, v) + [hold(base + n, v)]
  {
  }

  lemma HeldStep(hold: Cells, base: nat, s: seq<byte>, n: nat)
    requires n < |s|
    ensures Held(hold, base, s[..n + 1]) == Held(hold, base, s[..n]) + [hold(base + n, s[n])]
  {
  }

  /** The save, the first test and the restore. */
  lemma SavedAndRestored(hold: Cells, s0: seq<byte>, s1: seq<byte>, s2: seq<byte>, s3: seq<byte>, half: nat)
    requires half + half <= |s0|
    requires Replaced(s0, s1, half, Held(hold, half, s0[..half]))
    requires Replaced(s1, s2, 0, HeldAll(hold, 0, half, PATTERN))
    requires Replaced(s2, s3, 0, Held(hold, 0, s2[half..half + half]))
    ensures |s3| == |s0|
    ensures s3[..half] == Held(hold, 0, Held(hold, half, s0[..half]))
    ensures s3[half + half..] == s0[half + half..]
  {
    assert s2[half..half + half] == s2[half..][..half] == s1[half..][..half] == s1[half..half + half];
    assert s3[half + half..] == s3[half..][half..] == s2[half..][half..] == s1[half..][half..] == s1[half + half..];
  }

  /** The second test and the clearing. */
  lemma TestedAndCleared(hold: Cells, s3: seq<byte>, s4: seq<byte>, s5: seq<byte>, half: nat, len: nat)
    requires half + half <= len < |s3|
    requires Replaced(s3, s4, half, HeldAll(hold, half, len + 1 - half, PATTERN))
    requires Replaced(s4, s5, half, HeldAll(hold, half, half, 0))
    ensures Cleared(hold, s3, s5, half, len)
  {
    var k := len + 1 - (half + half);
    assert s5[half + half..len + 1] == s5[half + half..][..k] == s4[half + half..][..k] == s4[half + half..len + 1];
    assert s4[half + half..len + 1] == s4[half..len + 1][half..];
    assert s5[len + 1..] == s5[half + half..][k..] == s4[half + half..][k..] == s4[len + 1..];
  }

  lemma TailKept(s: seq<byte>, t: seq<byte>, lo: nat, hi: nat)
    requires |s| == |t| && lo <= hi <= |s| && s[lo..] == t[lo..]
    ensures s[hi..] == t[hi..]
  {
    assert s[hi..] == s[lo..][hi - lo..];
    assert t[hi..] == t[lo..][hi - lo..];
  }

  /** What the whole test leaves: the first half as its two trips left it, zeros in the second
      half, the pattern in what is left up to len, and the rest as it was. */
  predicate Result(hold: Cells, s0: seq<byte>, s: seq<byte>, half: nat, len: nat)
    requires half + half <= len < |s0|
  {
    && |s| == |s0|
    && s[..half] == Held(hold, 0, Held(hold, half, s0[..half]))
    && s[half..half + half] == HeldAll(hold, half, half, 0)
    && s[half + half..len + 1] == HeldAll(hold, half + half, len + 1 - (half + half), PATTERN)
    && s[len + 1..] == s0[len + 1..]
  }

  /** The first half after save, test and restore, with the memory beyond both halves as before. */
  predicate Halfway(hold: Cells, s0: seq<byte>, s: seq<byte>, half: nat)
    requires half + half <= |s0|
  {
    |s| == |s0| && s[..half] == Held(hold, 0, Held(hold, half, s0[..half])) && s[half + half..] == s0[half + half..]
  }

  /** The second half cleared, the pattern from there up to len, and the rest as before. */
  predicate Cleared(hold: Cells, s0: seq<byte>, s: seq<byte>, half: nat, len: nat)
    requires half + half <= len < |s0|
  {
    && |s| == |s0| && s[..half] == s0[..half]
    && s[half..half + half] == HeldAll(hold, half, half, 0)
    && s[half + half..len + 1] == HeldAll(hold, half + half, len + 1 - (half + half), PATTERN)
    && s[len + 1..] == s0[len + 1..]
  }

  lemma WholeTest(hold: Cells, s0: seq<byte>, s1: seq<byte>, s2: seq<byte>, half: nat, len: nat)
    requires half + half <= len < |s0|
    requires Halfway(hold, s0, s1, half) && Cleared(hold, s1, s2, half, len)
    ensures Result(hold, s0, s2, half, len)
  {
    TailKept(s0, s1, half + half, len + 1);
  }

  class Sram {
    const hold: Cells
    const cells: array<byte>
    var dr2: u16 // backup register

    constructor (hold: Cells, size: nat)
      ensures this.hold == hold && cells.Length == size && fresh(cells)
    {
      this.hold := hold;
      cells := new byte[size](_ => 0);
      dr2 := 0;
    }

    method Write(a: nat, v: byte)
      requires a < cells.Length
      modifies cells
      ensures cells[..] == old(cells[..])[a := hold(a, v)]
    {
      cells[a] := hold(a, v);
    }

    /** memcpy between ranges that do not overlap. */
    method MemCpy(dst: nat, src: nat, n: nat)
      requires dst + n <= cells.Length && src + n <= cells.Length
      requires src + n <= dst || dst + n <= src
      modifies cells
      ensures Replaced(old(cells[..]), cells[..], dst, Held(hold, dst, old(cells[..])[src..src + n]))
    {
      ghost var from := cells[..][src..src + n];
      for i := 0 to n
        invariant cells[..][src..src + n] == from
        invariant Replaced(old(cells[..]), cells[..], dst, Held(hold, dst, from[..i]))
      {
        assert from[i] == cells[..][src..src + n][i] == cells[src + i];
        HeldStep(hold, dst, from, i);
        ReplacedStep(old(cells[..]), cells[..], dst, Held(hold, dst, from[..i]), hold(dst + i, from[i]));
        Write(dst + i, cells[src + i]);
      }
      assert from[..n] == from;
    }

    method MemSet(dst: nat, v: byte, n: nat)
      requires dst + n <= cells.Length
      modifies cells
      ensures Replaced(old(cells[..]), cells[..], dst, HeldAll(hold, dst, n, v))
    {
      for i := 0 to n
        invariant Replaced(old(cells[..]), cells[..], dst, HeldAll(hold, dst, i, v))
      {
        HeldAllStep(hold, dst, i, v);
        ReplacedStep(old(cells[..]), cells[..], dst, HeldAll(hold, dst, i, v), hold(dst + i, v));
        Write(dst + i, v);
      }
    }

    /** Writes the pattern to the cells from lo below hi and adds the ones that do not hold it to
        a 16-bit count. */
    method TestRange(lo: nat, hi: nat, count: u16) returns (errors: u16)
      requires lo <= hi <= cells.Length
      modifies cells
      ensures Replaced(old(cells[..]), cells[..], lo, HeldAll(hold, lo, hi - lo, PATTERN))
      ensures errors == (count + BadCells(hold, lo, hi)) % 0x1_0000
    {
      var addr := lo;
      while addr < hi
        invariant lo <= addr <= hi
        invariant Replaced(old(cells[..]), cells[..], lo, HeldAll(hold, lo, addr - lo, PATTERN))
      {
        HeldAllStep(hold, lo, addr - lo, PATTERN);
        ReplacedStep(old(cells[..]), cells[..], lo, HeldAll(hold, lo, addr - lo, PATTERN), hold(addr, PATTERN));
        Write(addr, PATTERN);
        addr := addr + 1;
      }
      ghost var s := cells[..];
      addr, errors := lo, count;
      while addr < hi
        invariant lo <= addr <= hi
        invariant cells[..] == s
        invariant errors == (count + BadCells(hold, lo, addr)) % 0x1_0000
      {
        HeldAt(hold, s, lo, hi, addr);
        if cells[addr] != PATTERN {
          errors := (errors + 1) % 0x1_0000;
        }
        addr := addr + 1;
      }
    }

    /** Save the first half to the second, test it, restore it. */
    method TestFirstHalf(half: nat) returns (errors: u16)
      requires half + half <= cells.Length
      modifies cells
      ensures errors == BadCells(hold, 0, half) % 0x1_0000
      ensures Halfway(hold, old(cells[..]), cells[..], half)
    {
      ghost var s0 := cells[..];
      MemCpy(half, 0, half);
      ghost var s1 := cells[..];
      errors := TestRange(0, half, 0);
      ghost var s2 := cells[..];
      MemCpy(0, half, half);
      assert s0[0..half] == s0[..half];
      SavedAndRestored(hold, s0, s1, s2, cells[..], half);
    }

    /** Test the rest, up to and including the byte at len, and clear the second half. */
    method TestSecondHalf(half: nat, len: nat, count: u16) returns (errors: u16)
      requires half + half <= len < cells.Length
      modifies cells
      ensures errors == (count + BadCells(hold, half, len + 1)) % 0x1_0000
      ensures Cleared(hold, old(cells[..]), cells[..], half, len)
    {
      errors := TestRange(half, len + 1, count);
      ghost var s := cells[..];
      MemSet(half, 0, half);
      TestedAndCleared(hold, old(cells[..]), s, cells[..], half, len);
    }

    method Memory_Test(len: nat)
      requires len < cells.Length
      modifies cells, this`dr2
      ensures dr2 == BadCells(hold, 0, len + 1) % 0x1_0000
      ensures Result(hold, old(cells[..]), cells[..], len / 2, len)
    {
      var errors := TestFirstHalf(len / 2);
      ghost var s := cells[..];
      errors := TestSecondHalf(len / 2, len, errors);
      dr2 := errors;
      CountsAppend(hold, len / 2, len + 1);
      WholeTest(hold, old(cells[..]), s, cells[..], len / 2, len);
    }
  }

  /** On working cells nothing is reported, the first half is as it was and the second half is
      zero; the byte at len, and one more if len is odd, keep the pattern. */
  lemma GoodMemory(hold: Cells, s0: seq<byte>, s: seq<byte>, len: nat)
    requires len < |s0| && Works(hold, 0, len + 1)
    requires Result(hold, s0, s, len / 2, len)
    ensures BadCells(hold, 0, len + 1) % 0x1_0000 == 0
    ensures s[..len / 2] == s0[..len / 2]
    ensures s[len / 2..len / 2 + len / 2] == seq(len / 2, _ => 0)
    ensures s[len / 2 + len / 2..len + 1] == if len % 2 == 0 then [PATTERN] else [PATTERN, PATTERN]
  {
    BadCellsCounts(hold, 0, len + 1);
  }

  /** With at most 65535 cells tested, the reported count is the true one, so that it is 0 exactly
      if every tested cell holds the pattern. */
  lemma ReportIsTrue(hold: Cells, len: nat)
    requires len + 1 <= 0xFFFF
    ensures BadCells(hold, 0, len + 1) % 0x1_0000 == BadCells(hold, 0, len + 1)
    ensures BadCells(hold, 0, len + 1) % 0x1_0000 == 0 <==> forall a :: 0 <= a <= len ==> !Bad(hold, a)
  {
    BadCellsCounts(hold, 0, len + 1);
  }

  /** Bit j of a cell is stuck at b; its other bits work. */
  ghost predicate StuckAt(hold: Cells, a: nat, j: nat, b: bool) {
    forall v: byte, i: nat :: i < 8 ==> (TestBit(hold(a, v), i) <==> if i == j then b else TestBit(v, i))
  }

  /** A stuck bit is found exactly if it is an even one stuck at 1 or an odd one stuck at 0. */
  lemma StuckBitFound(hold: Cells, a: nat, j: nat, b: bool)
    requires j < 8 && StuckAt(hold, a, j, b)
    ensures Bad(hold, a) <==> b != (j % 2 == 1)
  {
    Alternating();
    var held := hold(a, PATTERN);
    assert TestBit(held, j) <==> b;
    if b == (j % 2 == 1) {
      assert Pow2(8) == 0x100;
      assert forall i: nat :: i < 8 ==> (TestBit(held, i) <==> TestBit(PATTERN, i));
      SameBits(held, PATTERN, 8);
    }
  }

  lemma Alternating()
    ensures forall i: nat :: i < 8 ==> (TestBit(PATTERN, i) <==> i % 2 == 1)
  {
    assert !TestBit(0xAA, 0) && TestBit(0x55, 0) && !TestBit(0x2A, 0) && TestBit(0x15, 0);
    assert !TestBit(0x0A, 0) && TestBit(0x05, 0) && !TestBit(0x02, 0) && TestBit(0x01, 0);
    forall i: nat | i < 8
      ensures TestBit(PATTERN, i) <==> i % 2 == 1
    {
      match i
      case 0 =>
      case 1 => assert TestBit(0xAA, 1) == TestBit(0x55, 0);
      case 2 => assert TestBit(0xAA, 2) == TestBit(0x55, 1) == TestBit(0x2A, 0);
      case 3 => assert TestBit(0xAA, 3) == TestBit(0x55, 2) == TestBit(0x2A, 1) == TestBit(0x15, 0);
      case 4 => assert TestBit(0xAA, 4) == TestBit(0x55, 3) == TestBit(0x2A, 2) == TestBit(0x15, 1) == TestBit(0x0A, 0);
      case 5 =>
        assert TestBit(0xAA, 5) == TestBit(0x55, 4) == TestBit(0x2A, 3) == TestBit(0x15, 2);
        assert TestBit(0x15, 2) == TestBit(0x0A, 1) == TestBit(0x05, 0);
      case 6 =>
        assert TestBit(0xAA, 6) == TestBit(0x55, 5) == TestBit(0x2A, 4) == TestBit(0x15, 3);
        assert TestBit(0x15, 3) == TestBit(0x0A, 2) == TestBit(0x05, 1) == TestBit(0x02, 0);
      case 7 =>
        assert TestBit(0xAA, 7) == TestBit(0x55, 6) == TestBit(0x2A, 5) == TestBit(0x15, 4);
        assert TestBit(0x15, 4) == TestBit(0x0A, 3) == TestBit(0x05, 2) == TestBit(0x02, 1) == TestBit(0x01, 0);
    }
  }

  /** The pattern does not find every fault: a bit stuck at the value the pattern writes anyway
      goes unreported, and the content is not restored. */
  lemma MissedFault()
    ensures exists hold: Cells :: !Bad(hold, 0) && hold(0, 0x55) != 0x55
  {
    var topBitStuck: Cells := (a, v) => if v < 0x80 then v + 0x80 else v;
    assert !Bad(topBitStuck, 0) && topBitStuck(0, 0x55) != 0x55;
  }
}

/** What a WriteData or FillData call sets out to program, and what programming it does to memory. */
module Plan {
  import opened Bits
  import opened Chip
  import opened Driver

  const FLASH_START_ADDR := 0x2000_0000
  const BUFFER_SIZE := 0x3000

  /** The address after k strides; unsigned long arithmetic wraps. */
  function Walk(base: u32, stride: int, k: nat): u32 {
    if k == 0 then base else (Walk(base, stride, k - 1) + stride) % 0x1_0000_0000
  }

  function Base(start: u32): u32 { (FLASH_START_ADDR + start) % 0x1_0000_0000 }

  /** Words and leftover of a count; C division truncates, so a negative count has neither. */
  function Words(count: int): nat {
    if count < 4 then 0 else if count / 4 < BUFFER_SIZE then count / 4 else BUFFER_SIZE
  }

  function Leftover(count: int): nat { if count > 0 && count % 4 != 0 then 1 else 0 }

  /** Arithmetic shift right by whole bytes. */
  function Asr(w: int, shift: nat): int {
    if shift == 0 then w
    else if shift == 8 then w / 0x100
    else if shift == 16 then w / 0x1_0000
    else w / 0x100_0000
  }

  function ByteOf(w: int, j: nat): byte { Low(Asr(w, 8 * j)) }

  function PlanLen(count: int): nat { 4 * Words(count) + Leftover(count) }

  /** Byte j of a word in arithmetic. */
  lemma ByteOfValue(w: int, j: nat)
    requires j < 4
    ensures ByteOf(w, j) == w / Pow2(8 * j) % 0x100
  {
    EightBits(j);
  }

  lemma EightBits(j: nat)
    requires j < 4
    ensures Pow2(8 * j) == [0x1, 0x100, 0x1_0000, 0x100_0000][j]
  {
    assert Pow2(8) == 0x100;
    if j >= 2 {
      assert Pow2(16) == 0x1_0000 by {
        Pow2Eight(8);
      }
    }
    if j == 3 {
      Pow2Eight(16);
    }
  }

  lemma Pow2Eight(n: nat)
    ensures Pow2(n + 8) == 0x100 * Pow2(n)
  {
    assert Pow2(n + 8) == 2 * Pow2(n + 7) && Pow2(n + 7) == 2 * Pow2(n + 6);
    assert Pow2(n + 6) == 2 * Pow2(n + 5) && Pow2(n + 5) == 2 * Pow2(n + 4);
    assert Pow2(n + 4) == 2 * Pow2(n + 3) && Pow2(n + 3) == 2 * Pow2(n + 2);
    assert Pow2(n + 2) == 2 * Pow2(n + 1) && Pow2(n + 1) == 2 * Pow2(n);
  }

  /** The byte that belongs at place k, low byte of each word first. */
  function ByteWanted(words: seq<int>, k: nat): byte
    requires k / 4 < |words|
  {
    words[k / 4] / Pow2(8 * (k % 4)) % 0x100
  }

  /** How many bytes a count stands for: all of them in full words, one for a leftover, and never
      more than 0xC000 in full words. */
  lemma BytesPlanned(count: int)
    ensures count <= 0 ==> PlanLen(count) == 0
    ensures 0 <= count <= 0xC003 ==> 4 * Words(count) + count % 4 == count
    ensures count >= 0xC000 ==> 4 * Words(count) == 0xC000
    ensures count > 0 ==> PlanLen(count) == 4 * Words(count) + if count % 4 == 0 then 0 else 1
    ensures 0 <= count <= 0xC000 && count % 4 == 0 ==> PlanLen(count) == count
  {
  }

  /** Four bytes of every word, low byte first, and the low byte of the leftover word. */
  function WritePlan(start: u32, count: int, stride: int, words: seq<int>): (plan: seq<Item>)
    requires |words| >= Words(count) + Leftover(count)
    ensures |plan| == PlanLen(count)
  {
    seq(PlanLen(count), k requires 0 <= k < PlanLen(count) =>
      Item(Walk(Base(start), stride, k), ByteOf(words[k / 4], k % 4)))
  }

  /** The walk stays inside the chip and does not wrap. */
  predicate InRange(start: u32, n: nat, stride: int) {
    stride >= 1 && (n > 0 ==> start + (n - 1) * stride < SIZE)
  }

  lemma StrideStep(k: nat, stride: int)
    ensures (k + 1) * stride == k * stride + stride
  {
  }

  lemma {:induction false} StrideGap(i: nat, j: nat, stride: int)
    requires i <= j && stride >= 1
    ensures i * stride + (j - i) <= j * stride
  {
    if i < j {
      StrideGap(i, j - 1, stride);
      StrideStep(j - 1, stride);
    }
  }

  lemma WrapAdd(x: int, stride: int)
    requires stride >= 1 && 0 <= x && x + stride < SIZE
    ensures (FLASH_START_ADDR + x + stride) % 0x1_0000_0000 == FLASH_START_ADDR + x + stride
  {
  }

  lemma OffsetInFlash(x: int)
    requires 0 <= x < SIZE
    ensures Base(x) == FLASH_START_ADDR + x
    ensures ValidAddr(FLASH_START_ADDR + x) && Cell(FLASH_START_ADDR + x) == x
  {
  }

  lemma {:induction false} WalkFrom(x: nat, stride: int, k: nat)
    requires stride >= 1 && x + k * stride < SIZE
    ensures x < SIZE
    ensures Walk(FLASH_START_ADDR + x, stride, k) == FLASH_START_ADDR + x + k * stride
  {
    StrideGap(0, k, stride);
    if k > 0 {
      StrideStep(k - 1, stride);
      WalkFrom(x, stride, k - 1);
      StrideGap(0, k - 1, stride);
      WrapAdd(x + (k - 1) * stride, stride);
    }
  }

  lemma WalkInRange(start: u32, n: nat, stride: int, k: nat)
    requires InRange(start, n, stride) && k < n
    ensures start + k * stride < SIZE
    ensures Walk(Base(start), stride, k) == 0x2000_0000 + start + k * stride
    ensures Cell(Walk(Base(start), stride, k)) == start + k * stride
    ensures ValidAddr(Walk(Base(start), stride, k))
  {
    StrideGap(k, n - 1, stride);
    StrideGap(0, k, stride);
    WalkFrom(start, stride, k);
    OffsetInFlash(start);
    OffsetInFlash(start + k * stride);
  }

  ghost predicate DistinctCells(items: seq<Item>) {
    forall i, j :: 0 <= i < j < |items| ==> Cell(items[i].addr) != Cell(items[j].addr)
  }

  lemma PlanInRange(start: u32, count: int, stride: int, words: seq<int>)
    requires |words| >= Words(count) + Leftover(count) && InRange(start, PlanLen(count), stride)
    ensures var plan := WritePlan(start, count, stride, words);
            && DistinctCells(plan)
            && forall k :: 0 <= k < |plan| ==> ValidAddr(plan[k].addr) && Cell(plan[k].addr) == start + k * stride
  {
    var plan := WritePlan(start, count, stride, words);
    forall k | 0 <= k < |plan|
      ensures ValidAddr(plan[k].addr) && Cell(plan[k].addr) == start + k * stride
    {
      WalkInRange(start, PlanLen(count), stride, k);
    }
    forall i, j | 0 <= i < j < |plan|
      ensures Cell(plan[i].addr) != Cell(plan[j].addr)
    {
      StrideGap(i, j, stride);
    }
  }

  /** x is a cell of one of the items. */
  ghost predicate Hit(items: seq<Item>, x: nat) {
    exists k :: 0 <= k < |items| && Cell(items[k].addr) == x
  }

  /** Nothing off the items' cells changes and no bit goes from 0 to 1. */
  ghost predicate OnlyClears(m0: Memory, m: Memory, items: seq<Item>) {
    forall x :: 0 <= x < SIZE ==> Within(m[x], m0[x]) && (Hit(items, x) || m[x] == m0[x])
  }

  lemma {:induction false} ProgramOnlyClears(m: Memory, items: seq<Item>)
    ensures OnlyClears(m, Program(m, items), items)
  {
    if items == [] {
      forall x | 0 <= x < SIZE
        ensures Within(m[x], m[x])
      {
        AndSelf(m[x]);
      }
    } else {
      var init, it := items[..|items| - 1], items[|items| - 1];
      ProgramOnlyClears(m, init);
      var p := Program(m, init);
      forall x | 0 <= x < SIZE
        ensures Within(Program(m, items)[x], m[x]) && (Hit(items, x) || Program(m, items)[x] == m[x])
      {
        if x == Cell(it.addr) {
          AndWithin(p[x], it.data);
          WithinTrans(And(p[x], it.data), p[x], m[x]);
          assert Cell(items[|items| - 1].addr) == x;
        } else if Hit(init, x) {
          var k :| 0 <= k < |init| && Cell(init[k].addr) == x;
          assert Cell(items[k].addr) == x;
        }
      }
    }
  }

  /** Over distinct cells every item is ANDed into the byte that was there. */
  lemma {:induction false} ProgramAt(m: Memory, items: seq<Item>, k: nat)
    requires DistinctCells(items) && k < |items|
    ensures Program(m, items)[Cell(items[k].addr)] == And(m[Cell(items[k].addr)], items[k].data)
  {
    var init := items[..|items| - 1];
    if k < |init| {
      ProgramAt(m, init, k);
      assert Cell(items[k].addr) != Cell(items[|items| - 1].addr);
    } else {
      ProgramOnlyClears(m, init);
      assert !Hit(init, Cell(items[k].addr));
    }
  }
}

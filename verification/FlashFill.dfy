/** FillData with verification off, and why a fill that starts off a word boundary does the
    same as one on it only for some fill words. */
module FlashFill {
  import opened Bits
  import opened Chip
  import opened Protocol
  import opened Driver
  import opened Plan
  import opened Programmer
  import FlashData

  function FillPlan(base: u32, stride: int, n: nat, b: byte): (plan: seq<Item>)
    ensures |plan| == n
  {
    seq(n, k requires 0 <= k < n => Item(Walk(base, stride, k), b))
  }

  function Positive(x: int): nat { if x > 0 then x else 0 }

  /** The fill loop, entered with the error of the writes before it. */
  method FillLoop(c: M25P16, err: ErrorCode, addr0: u32, count: int, stride: int, value: int, ghost plan: seq<Item>)
    returns (res: ErrorCode, ghost n: nat, ghost lost: nat)
    requires !c.selected && |plan| == Positive(count)
    requires forall k :: 0 <= k < |plan| ==> plan[k] == Item(Walk(addr0, stride, k), Low(value))
    modifies c
    ensures Wrote(old(c.log), old(c.core), c, plan, n, lost)
    ensures if err == NoErr then Outcome(res, old(c.core).job.Idle? && c.alert, plan, n) else res == err && n == 0
  {
    res, n, lost := err, 0, 0;
    assert plan[..0] == [] && plan[0..0] == [];
    var addr, sector := addr0, 0;
    var i := 0;
    while i < count && res == NoErr
      invariant 0 <= i && n <= i && (err == NoErr ==> i <= |plan|)
      invariant err != NoErr ==> res == err && n == 0
      invariant Wrote(old(c.log), old(c.core), c, plan, n, lost)
      invariant res == NoErr ==> n == i && addr == Walk(addr0, stride, i)
      invariant err == NoErr && res != NoErr ==> Stopped(res, old(c.core).job.Idle? && c.alert, plan, n)
    {
      assert plan[i] == Item(addr, Low(value));
      res, sector, lost := CheckedWrite(c, value, addr, sector, old(c.log), old(c.core), plan, n, lost);
      if res == InvalidSector {
        return;
      }
      n := if res == NoErr then n + 1 else n;
      i, addr := i + 1, (addr + stride) % 0x1_0000_0000;
    }
  }

  /** What a fill that starts at a multiple of four programs. */
  function AlignedItems(start: u32, count: int, stride: int, v: int): seq<Item> {
    FillPlan(Base(start), stride, Positive(count), Low(v))
  }

  /** The byte before the start, programmed with itself, and the last byte. */
  function Ends(m: Memory, first: u32, last: u32, b: byte): seq<Item> {
    [Item(first, m[Cell(first)]), Item(last, b)]
  }

  /** What any other fill programs first: its two ends. The byte used is the second one of the
      fill word. */
  function MisalignedEnds(m: Memory, start: u32, count: int, stride: int, v: int): seq<Item>
    requires Base(start) % 4 != 0
  {
    Ends(m, Base(start) - 1, (Base(start) - 1 + count * stride) % 0x1_0000_0000, Low(v / 0x100))
  }

  /** And then all the other bytes. */
  function MisalignedRest(start: u32, count: int, stride: int, v: int): seq<Item>
    requires Base(start) % 4 != 0
  {
    FillPlan((Base(start) - 1 + stride) % 0x1_0000_0000, stride, Positive(count - 1), Low(v / 0x100))
  }

  /** The fill word with its low two bytes swapped, as the misaligned path leaves it. */
  function Swapped(v: int): int {
    var low := Low(v) as int;
    Low(v / 0x100) + (if low < 0x80 then low else low - 0x100) * 0x100
  }

  lemma SwappedLow(v: int)
    ensures Low(Swapped(v)) == Low(v / 0x100)
  {
  }

  /** The fill word becomes a signed 16-bit number, its two bytes swapped. */
  lemma SwappedExact(v: int)
    ensures -0x8000 <= Swapped(v) < 0x8000
    ensures Swapped(v) % 0x100 == v / 0x100 % 0x100
    ensures Swapped(v) / 0x100 % 0x100 == v % 0x100
  {
    var low := Low(v) as int;
    assert Swapped(v) / 0x100 == if low < 0x80 then low else low - 0x100;
  }

  lemma ProgramTwo(m: Memory, a: Item, b: Item)
    ensures Program(m, [a, b]) == Program(Program(m, [a]), [b])
  {
    ProgramConcat(m, [a], [b]);
    assert [a] + [b] == [a, b];
  }

  lemma LowOfSum(b: byte, h: byte)
    ensures Low(b as int + h as int * 0x100) == b
    ensures Low(b) == b
  {
  }

  /** Programming a cell with what it holds changes nothing. */
  lemma SelfProgram(m: Memory, addr: u32)
    ensures Program(m, [Item(addr, m[Cell(addr)])]) == m
  {
    AndSelf(m[Cell(addr)]);
    assert [Item(addr, m[Cell(addr)])][..0] == [];
  }

  /** A write of one byte to an idle device. */
  method WriteIdle(c: M25P16, value: int, addr: u32) returns (res: ErrorCode)
    requires !c.selected
    modifies c
    ensures !c.selected && (res == NoErr || res == PollTimeout)
    ensures !Scan(old(c.log)).Broken? ==> !Scan(c.log).Broken?
    ensures old(c.core).job.Idle? ==>
              && c.core.job.Idle?
              && c.core.mem == Program(old(c.core).mem, if res == NoErr then [Item(addr, Low(value))] else [])
    ensures old(c.core).job.Idle? && c.alert ==> res == NoErr
  {
    ghost var lost;
    res, lost := Write1(c, value, addr);
  }

  /** The two writes around a misaligned fill. The error of the first one is lost, which does no
      harm: it writes what is there. */
  method FillEnds(c: M25P16, first: u32, last: u32, v: int) returns (res: ErrorCode)
    requires !c.selected
    modifies c
    ensures !c.selected && (res == NoErr || res == PollTimeout)
    ensures !Scan(old(c.log)).Broken? ==> !Scan(c.log).Broken?
    ensures old(c.core).job.Idle? ==>
              && c.core.job.Idle?
              && c.core.mem == Program(old(c.core).mem,
                                       if res == NoErr then Ends(old(c.core).mem, first, last, Low(v / 0x100)) else [])
    ensures old(c.core).job.Idle? && c.alert ==> res == NoErr
  {
    ghost var m := c.core.mem;
    SelfProgram(m, first);
    ProgramTwo(m, Item(first, m[Cell(first)]), Item(last, Low(v / 0x100)));
    var b := Read1(c, first);
    var compare := b as int + Low(v) as int * 0x100;
    LowOfSum(b, Low(v));
    res := WriteIdle(c, compare, first);
    b := Read1(c, last);
    compare := Low(v / 0x100);
    LowOfSum(Low(v / 0x100), 0);
    res := WriteIdle(c, compare, last);
  }

  lemma {:induction false} ProgramConcat(m: Memory, a: seq<Item>, b: seq<Item>)
    ensures Program(m, a + b) == Program(Program(m, a), b)
  {
    if b == [] {
      assert a + b == a;
    } else {
      assert (a + b)[..|a + b| - 1] == a + b[..|b| - 1];
      ProgramConcat(m, a, b[..|b| - 1]);
    }
  }

  /** How a misaligned fill of an idle device ends: both ends and the first n of the rest are
      programmed, or nothing is because the write of the last byte timed out. */
  ghost predicate MisalignedOutcome(res: ErrorCode, alert: bool, m0: Memory, m: Memory, ends: seq<Item>,
                                    rest: seq<Item>, n: nat, begun: bool) {
    && n <= |rest|
    && m == Program(m0, if begun then ends + rest[..n] else [])
    && (begun ==> Outcome(res, alert, rest, n))
    && (!begun ==> res == PollTimeout && !alert && n == 0)
  }

  /** The path of a fill that does not start at a multiple of four. */
  method FillMisaligned(c: M25P16, first: u32, last: u32, addr: u32, count: int, stride: int, v: int)
    returns (res: ErrorCode, ghost n: nat, ghost begun: bool)
    requires !c.selected
    modifies c
    ensures !c.selected && (!Scan(old(c.log)).Broken? ==> !Scan(c.log).Broken?)
    ensures old(c.core).job.Idle? ==>
              && c.core.job.Idle?
              && MisalignedOutcome(res, c.alert, old(c.core).mem, c.core.mem,
                                   Ends(old(c.core).mem, first, last, Low(v / 0x100)),
                                   FillPlan(addr, stride, Positive(count - 1), Low(v / 0x100)), n, begun)
  {
    ghost var plan, m, lost := FillPlan(addr, stride, Positive(count - 1), Low(v / 0x100)), c.core.mem, 0;
    res := FillEnds(c, first, last, v);
    begun := res == NoErr;
    ghost var m1 := c.core.mem;
    SwappedLow(v);
    res, n, lost := FillLoop(c, res, addr, count - 1, stride, Swapped(v), plan);
    if begun {
      ProgramConcat(m, Ends(m, first, last, Low(v / 0x100)), plan[..n]);
    } else {
      assert plan[0..0] == [];
    }
  }

  /** What either path has programmed: of any device an aligned fill, of an idle one a misaligned fill. */
  ghost predicate FillWritten(log0: seq<Frame>, core0: Core, c: M25P16, start: u32, count: int, stride: int, v: int,
                              res: ErrorCode, n: nat, lost: nat, begun: bool)
    reads c
  {
    if Base(start) % 4 == 0
    then
      && Wrote(log0, core0, c, AlignedItems(start, count, stride, v), n, lost)
      && Outcome(res, core0.job.Idle? && c.alert, AlignedItems(start, count, stride, v), n)
    else
      core0.job.Idle? ==>
        MisalignedOutcome(res, c.alert, core0.mem, c.core.mem, MisalignedEnds(core0.mem, start, count, stride, v),
                          MisalignedRest(start, count, stride, v), n, begun)
  }

  /** FillData with verification off, for the fill word v. */
  method FillUnverified(c: M25P16, start: u32, count: int, stride: int, v: int)
    returns (res: ErrorCode, ghost n: nat, ghost lost: nat, ghost begun: bool)
    requires !c.selected
    modifies c
    ensures !c.selected && (!Scan(old(c.log)).Broken? ==> !Scan(c.log).Broken?)
    ensures old(c.core).job.Idle? ==> c.core.job.Idle?
    ensures FillWritten(old(c.log), old(c.core), c, start, count, stride, v, res, n, lost, begun)
  {
    lost, begun := 0, false;
    if Base(start) % 4 != 0 {
      var first: u32 := Base(start) - 1;
      res, n, begun := FillMisaligned(c, first, (first + count * stride) % 0x1_0000_0000,
                                      (first + stride) % 0x1_0000_0000, count, stride, v);
    } else {
      res, n, lost := FillLoop(c, NoErr, Base(start), count, stride, v, AlignedItems(start, count, stride, v));
    }
  }

  /* ---- stride 1 ---- */

  /** b ANDed into n bytes. */
  function AndRange(m: Memory, lo: nat, n: nat, b: byte): (r: Memory)
    ensures forall x :: 0 <= x < SIZE ==> r[x] == if lo <= x < lo + n then And(m[x], b) else m[x]
  {
    seq(SIZE, x requires 0 <= x < SIZE => if lo <= x < lo + n then And(m[x], b) else m[x])
  }

  lemma {:induction false} FillRange(m: Memory, start: nat, n: nat, b: byte)
    requires start + n <= SIZE && (n > 0 ==> start < SIZE)
    ensures Program(m, FillPlan(FLASH_START_ADDR + start, 1, n, b)) == AndRange(m, start, n, b)
  {
    var plan := FillPlan(FLASH_START_ADDR + start, 1, n, b);
    if n == 0 {
      assert plan == [];
    } else {
      var init := FillPlan(FLASH_START_ADDR + start, 1, n - 1, b);
      assert plan[..n - 1] == init;
      FillRange(m, start, n - 1, b);
      WalkFrom(start, 1, n - 1);
      OffsetInFlash(start + n - 1);
    }
  }

  lemma FillValid(start: nat, n: nat, b: byte)
    requires start + n <= SIZE && (n > 0 ==> start < SIZE)
    ensures FlashData.AllValid(FillPlan(FLASH_START_ADDR + start, 1, n, b))
  {
    var plan := FillPlan(FLASH_START_ADDR + start, 1, n, b);
    forall k | 0 <= k < n
      ensures ValidAddr(plan[k].addr)
    {
      WalkFrom(start, 1, k);
      OffsetInFlash(start + k);
    }
  }

  /** An aligned fill inside the chip ANDs the low byte of the fill word into its range, unless a
      poll times out. */
  lemma AlignedFill(m: Memory, start: u32, count: nat, v: int, res: ErrorCode, alert: bool, n: nat)
    requires count >= 1 && InRange(start, count, 1)
    requires n <= count && Outcome(res, alert, AlignedItems(start, count, 1, v), n)
    ensures res == PollTimeout || res == NoErr
    ensures alert ==> res == NoErr
    ensures res == NoErr ==> Program(m, AlignedItems(start, count, 1, v)[..n]) == AndRange(m, start, count, Low(v))
  {
    OffsetInFlash(start);
    FillValid(start, count, Low(v));
    FillRange(m, start, count, Low(v));
    assert AlignedItems(start, count, 1, v)[..count] == AlignedItems(start, count, 1, v);
  }

  /** Where a misaligned fill with stride 1 goes. */
  lemma MisalignedPlace(m: Memory, start: u32, count: nat, v: int)
    requires count >= 1 && InRange(start, count, 1) && Base(start) % 4 != 0
    ensures start > 0
    ensures MisalignedRest(start, count, 1, v) == FillPlan(FLASH_START_ADDR + start, 1, count - 1, Low(v / 0x100))
    ensures MisalignedEnds(m, start, count, 1, v)
            == Ends(m, FLASH_START_ADDR + start - 1, FLASH_START_ADDR + start - 1 + count, Low(v / 0x100))
  {
    OffsetInFlash(start);
  }

  lemma EndsAndRest(m: Memory, start: u32, count: nat, b: byte)
    requires count >= 1 && InRange(start, count, 1) && start > 0
    ensures Program(m, Ends(m, FLASH_START_ADDR + start - 1, FLASH_START_ADDR + start - 1 + count, b)
                       + FillPlan(FLASH_START_ADDR + start, 1, count - 1, b)) == AndRange(m, start, count, b)
  {
    var ends := Ends(m, FLASH_START_ADDR + start - 1, FLASH_START_ADDR + start - 1 + count, b);
    ProgramConcat(m, ends, FillPlan(FLASH_START_ADDR + start, 1, count - 1, b));
    EndsOnly(m, start, count, b);
    FillRange(Program(m, ends), start, count - 1, b);
  }

  /** A misaligned fill does the same with the second byte, whatever is in the flash: its write
      to the byte before the range changes nothing. */
  lemma MisalignedFill(m0: Memory, m: Memory, start: u32, count: nat, v: int, res: ErrorCode, alert: bool, n: nat,
                       begun: bool)
    requires count >= 1 && InRange(start, count, 1) && Base(start) % 4 != 0
    requires MisalignedOutcome(res, alert, m0, m, MisalignedEnds(m0, start, count, 1, v),
                               MisalignedRest(start, count, 1, v), n, begun)
    ensures res == PollTimeout || res == NoErr
    ensures alert ==> res == NoErr
    ensures res == NoErr ==> m == AndRange(m0, start, count, Low(v / 0x100))
  {
    MisalignedPlace(m0, start, count, v);
    FillValid(start, count - 1, Low(v / 0x100));
    EndsAndRest(m0, start, count, Low(v / 0x100));
    var rest := MisalignedRest(start, count, 1, v);
    assert rest[..|rest|] == rest;
  }

  /** The byte a fill with stride 1 uses. */
  function FillByte(start: u32, v: int): byte {
    if Base(start) % 4 == 0 then Low(v) else Low(v / 0x100)
  }

  /** FillData with stride 1 and verification off, on an idle device and a range inside the chip. */
  method FillBytes(c: M25P16, start: u32, count: nat, v: int) returns (res: ErrorCode)
    requires !c.selected && c.core.job.Idle?
    requires count >= 1 && InRange(start, count, 1)
    modifies c
    ensures !c.selected && c.core.job.Idle?
    ensures res == PollTimeout || res == NoErr
    ensures c.alert ==> res == NoErr
    ensures res == NoErr ==> c.core.mem == AndRange(old(c.core).mem, start, count, FillByte(start, v))
  {
    ghost var m0 := c.core.mem;
    ghost var n, lost, begun;
    res, n, lost, begun := FillUnverified(c, start, count, 1, v);
    if Base(start) % 4 == 0 {
      AlignedFill(m0, start, count, v, res, c.alert, n);
    } else {
      MisalignedFill(m0, c.core.mem, start, count, v, res, c.alert, n, begun);
    }
  }

  lemma EndsOnly(m: Memory, start: u32, count: nat, b: byte)
    requires count >= 1 && InRange(start, count, 1) && start > 0
    ensures Program(m, Ends(m, FLASH_START_ADDR + start - 1, FLASH_START_ADDR + start - 1 + count, b))
            == m[start + count - 1 := And(m[start + count - 1], b)]
  {
    OffsetInFlash(start - 1);
    OffsetInFlash(start + count - 1);
    var ends := Ends(m, FLASH_START_ADDR + start - 1, FLASH_START_ADDR + start - 1 + count, b);
    AndSelf(m[start - 1]);
    ProgramTwo(m, ends[0], ends[1]);
    assert [ends[0]][..0] == [] && [ends[1]][..0] == [];
  }

  /** So the two agree on every memory exactly if the low two bytes of the fill word are equal. */
  lemma FillsAgree(start: u32, count: nat, v: int)
    requires count >= 1 && InRange(start, count, 1)
    ensures (forall m: Memory :: AndRange(m, start, count, Low(v)) == AndRange(m, start, count, Low(v / 0x100)))
            <==> Low(v) == Low(v / 0x100)
  {
    var blank: Memory := seq(SIZE, _ => 0xFF);
    AndOnes(Low(v));
    AndOnes(Low(v / 0x100));
    assert AndRange(blank, start, count, Low(v))[start] == Low(v);
    assert AndRange(blank, start, count, Low(v / 0x100))[start] == Low(v / 0x100);
  }

  /* ---- any stride ---- */

  lemma {:induction false} WalkShift(base: u32, stride: int, k: nat)
    ensures Walk((base + stride) % 0x1_0000_0000, stride, k) == Walk(base, stride, k + 1)
  {
    if k > 0 {
      WalkShift(base, stride, k - 1);
    }
  }

  /** A misaligned fill writes the bytes one stride apart from the one before its start on, so that
      only with stride 1 they are the ones one stride apart from its start on. */
  lemma MisalignedCells(m: Memory, start: u32, count: nat, stride: int, v: int)
    requires start >= 1 && count >= 1 && InRange(start - 1, count + 1, stride) && Base(start) % 4 != 0
    ensures var ends := MisalignedEnds(m, start, count, stride, v);
            Cell(ends[0].addr) == start - 1 && Cell(ends[1].addr) == start - 1 + count * stride
    ensures forall k :: 0 <= k < count - 1 ==>
              Cell(MisalignedRest(start, count, stride, v)[k].addr) == start - 1 + (k + 1) * stride
  {
    var rest := MisalignedRest(start, count, stride, v);
    WalkInRange(start - 1, count + 1, stride, 0);
    WalkInRange(start - 1, count + 1, stride, count);
    OffsetInFlash(start - 1);
    StrideGap(0, count, stride);
    OffsetInFlash(start - 1 + count * stride);
    assert Base(start) - 1 == Base(start - 1);
    forall k | 0 <= k < count - 1
      ensures Cell(rest[k].addr) == start - 1 + (k + 1) * stride
    {
      WalkShift(Base(start - 1), stride, k);
      WalkInRange(start - 1, count + 1, stride, k + 1);
    }
  }

  /** So from stride 2 on no byte of the fill is the start. */
  lemma MisalignedMisses(m: Memory, start: u32, count: nat, stride: int, v: int)
    requires start >= 1 && count >= 1 && InRange(start - 1, count + 1, stride) && Base(start) % 4 != 0 && stride >= 2
    ensures !Hit(MisalignedEnds(m, start, count, stride, v) + MisalignedRest(start, count, stride, v), start)
  {
    var ends: seq<Item> := MisalignedEnds(m, start, count, stride, v);
    var rest: seq<Item> := MisalignedRest(start, count, stride, v);
    MisalignedCells(m, start, count, stride, v);
    StrideGap(1, count, stride);
    assert 1 * stride == stride;
    forall k | 0 <= k < |ends + rest|
      ensures Cell((ends + rest)[k].addr) != start as int
    {
      if k >= 2 {
        StrideGap(1, k - 1, stride);
        assert (ends + rest)[k] == rest[k - 2];
      }
    }
  }
}

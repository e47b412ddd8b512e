/** FillData as a whole. With verification on, it compares each byte read with sixteen bits of the
    fill word, and the first mismatch ends it. */
module FillVerify {
  import opened Bits
  import opened Chip
  import opened Protocol
  import opened Driver
  import opened Plan
  import opened Programmer
  import opened Verified
  import opened FlashFill
  import FlashData

  /** The low sixteen bits of a fill word are no byte, so that no byte read compares equal. */
  predicate Wide(value: int) { value % 0x1_0000 != value % 0x100 }

  lemma WideExact(value: int)
    ensures Wide(value) <==> Low(value / 0x100) != 0
    ensures Wide(Swapped(value)) <==> Low(value) != 0
  {
    LowTwo(value);
    LowTwo(Swapped(value));
    SwappedHigh(value);
  }

  lemma LowTwo(value: int)
    ensures value % 0x1_0000 == Low(value) + 0x100 * Low(value / 0x100)
  {
  }

  lemma SwappedHigh(value: int)
    ensures Low(Swapped(value) / 0x100) == Low(value)
  {
    var low := Low(value) as int;
    assert Swapped(value) / 0x100 == if low < 0x80 then low else low - 0x100;
  }

  /** How a verified loop ends. When a byte can compare equal at all, as a run over one word as long as
      the fill; when it cannot, after at most one byte. */
  ghost predicate Compared(t: Trial, core: Core, res: ErrorCode, wide: bool, done: seq<Item>, p: nat) {
    if wide then
      && OffWalkKept(t.core0, core, t.base, t.stride, done, |t.plan|) && |done| <= 1
      && (res == NoErr || res == VerifyWrite || res == InvalidSector)
      && (res == NoErr <==> t.plan == [])
      && (res == InvalidSector <==> t.plan != [] && !ValidAddr(t.base))
      && (t.core0.job.Idle? && t.alert ==>
            core.mem == if res == VerifyWrite then ProgramOne(t.core0.mem, Item(t.base, t.plan[0].data))
                        else t.core0.mem)
    else
      Refused(t, core, res, done, p) || Finished(t, core, res, done, p)
  }

  /** The verified fill loop, entered with the error of the writes before it. */
  method VerifiedLoop(c: M25P16, err: ErrorCode, addr0: u32, count: int, stride: int, value: int, ghost plan: seq<Item>)
    returns (res: ErrorCode, ghost done: seq<Item>, ghost p: nat)
    requires !c.selected && plan == FillPlan(addr0, stride, Positive(count), Low(value))
    modifies c
    ensures !c.selected && (!Scan(old(c.log)).Broken? ==> !Scan(c.log).Broken?)
    ensures err != NoErr ==> res == err && done == [] && c.core == old(c.core)
    ensures err == NoErr ==>
              Compared(Trial(old(c.core), c.alert, plan, addr0, stride, true), c.core, res, Wide(value), done, p)
  {
    ghost var t := Trial(c.core, c.alert, plan, addr0, stride, true);
    ghost var progress: Progress := (core: Core, done: seq<Item>, k: nat, p: nat, bad: bool) =>
      Going(t, core, done, k, p, bad);
    res, done, p := VerifiedFill(c, err, addr0, count, stride, value, t, progress);
  }

  method VerifiedFill(c: M25P16, err: ErrorCode, addr0: u32, count: int, stride: int, value: int, ghost t: Trial,
                      ghost progress: Progress)
    returns (res: ErrorCode, ghost done: seq<Item>, ghost p: nat)
    requires !c.selected && t.plan == FillPlan(addr0, stride, Positive(count), Low(value))
    requires Tells(progress, t) && t == Trial(c.core, c.alert, t.plan, addr0, stride, true)
    modifies c
    ensures !c.selected && (!Scan(old(c.log)).Broken? ==> !Scan(c.log).Broken?)
    ensures err != NoErr ==> res == err && done == [] && c.core == old(c.core)
    ensures err == NoErr ==> Compared(t, c.core, res, Wide(value), done, p)
  {
    res, done, p := err, [], 0;
    var addr, sector := addr0, 0;
    var i := 0;
    AtStart(t);
    while i < count && res == NoErr
      invariant 0 <= i <= |t.plan| && p == i && res == err && addr == Walk(addr0, stride, i)
      invariant !c.selected && (!Scan(old(c.log)).Broken? ==> !Scan(c.log).Broken?)
      invariant progress(c.core, done, i, i, false)
      invariant Wide(value) || err != NoErr ==> i == 0 && done == [] && c.core == old(c.core)
    {
      var same;
      res, sector, same, done := CheckedByte(c, value, addr, sector, t, progress, done, i, i, false, |t.plan|);
      if res != NoErr {
        return;
      }
      if !same || Wide(value) {
        if same {
          assert Going(t, c.core, done, i + 1, i + 1, false);
        } else {
          assert Going(t, c.core, done, |t.plan|, i, true);
          AtEnd(t, c.core, done, |t.plan|, i, true);
        }
        return VerifyWrite, done, p;
      }
      i, addr, p := i + 1, (addr + stride) % 0x1_0000_0000, p + 1;
    }
    if err == NoErr {
      assert Going(t, c.core, done, i, i, false);
      AtEnd(t, c.core, done, i, i, false);
    }
  }

  /** How a verified misaligned fill of an idle device ends: both ends are programmed and the loop
      has run on what that left, or nothing was done because the write of the last byte timed out. */
  ghost predicate MisalignedCompared(res: ErrorCode, m0: Memory, core: Core, alert: bool, ends: seq<Item>,
                                     rest: seq<Item>, base: u32, stride: int, wide: bool, done: seq<Item>, p: nat,
                                     begun: bool) {
    if begun then
      exists core1: Core :: core1.job.Idle? && core1.mem == Program(m0, ends)
                            && Compared(Trial(core1, alert, rest, base, stride, true), core, res, wide, done, p)
    else
      core.mem == m0 && res == PollTimeout && !alert && done == []
  }

  method FillMisalignedVerified(c: M25P16, first: u32, last: u32, addr: u32, count: int, stride: int, v: int)
    returns (res: ErrorCode, ghost done: seq<Item>, ghost p: nat, ghost begun: bool)
    requires !c.selected
    modifies c
    ensures !c.selected && (!Scan(old(c.log)).Broken? ==> !Scan(c.log).Broken?)
    ensures old(c.core).job.Idle? ==>
              && c.core.job.Idle?
              && MisalignedCompared(res, old(c.core).mem, c.core, c.alert,
                                    Ends(old(c.core).mem, first, last, Low(v / 0x100)),
                                    FillPlan(addr, stride, Positive(count - 1), Low(v / 0x100)), addr, stride,
                                    Wide(Swapped(v)), done, p, begun)
  {
    res := FillEnds(c, first, last, v);
    begun := res == NoErr;
    SwappedLow(v);
    res, done, p := VerifiedLoop(c, res, addr, count - 1, stride, Swapped(v),
                                 FillPlan(addr, stride, Positive(count - 1), Low(v / 0x100)));
  }

  /** What either path has programmed and compared. */
  ghost predicate FillCompared(core0: Core, c: M25P16, start: u32, count: int, stride: int, v: int, res: ErrorCode,
                               done: seq<Item>, p: nat, begun: bool)
    reads c
  {
    if Base(start) % 4 == 0
    then
      Compared(Trial(core0, c.alert, AlignedItems(start, count, stride, v), Base(start), stride, true), c.core, res,
               Wide(v), done, p)
    else
      core0.job.Idle? ==>
        MisalignedCompared(res, core0.mem, c.core, c.alert, MisalignedEnds(core0.mem, start, count, stride, v),
                           MisalignedRest(start, count, stride, v), (Base(start) - 1 + stride) % 0x1_0000_0000, stride,
                           Wide(Swapped(v)), done, p, begun)
  }

  /** FillData with verification on, for the fill word v. */
  method FillVerified(c: M25P16, start: u32, count: int, stride: int, v: int)
    returns (res: ErrorCode, ghost done: seq<Item>, ghost p: nat, ghost begun: bool)
    requires !c.selected
    modifies c
    ensures !c.selected && (!Scan(old(c.log)).Broken? ==> !Scan(c.log).Broken?)
    ensures old(c.core).job.Idle? ==> c.core.job.Idle?
    ensures FillCompared(old(c.core), c, start, count, stride, v, res, done, p, begun)
  {
    begun := false;
    if Base(start) % 4 != 0 {
      var first: u32 := Base(start) - 1;
      res, done, p, begun := FillMisalignedVerified(c, first, (first + count * stride) % 0x1_0000_0000,
                                                    (first + stride) % 0x1_0000_0000, count, stride, v);
    } else {
      res, done, p := VerifiedLoop(c, NoErr, Base(start), count, stride, v, AlignedItems(start, count, stride, v));
    }
  }

  /** A misaligned fill leaves the fill word with its bytes swapped. */
  method FillData(c: M25P16, verify: bool, start: u32, count: int, stride: int, data: array<int>)
    returns (res: ErrorCode, ghost n: nat, ghost lost: nat, ghost begun: bool, ghost done: seq<Item>, ghost p: nat)
    requires !c.selected && data.Length > 0
    modifies c, data
    ensures !c.selected && (!Scan(old(c.log)).Broken? ==> !Scan(c.log).Broken?)
    ensures old(c.core).job.Idle? ==> c.core.job.Idle?
    ensures data[..] == old(data[..])[0 := if Base(start) % 4 != 0 then Swapped(old(data[0])) else old(data[0])]
    ensures !verify ==> FillWritten(old(c.log), old(c.core), c, start, count, stride, old(data[0]), res, n, lost, begun)
    ensures verify ==> FillCompared(old(c.core), c, start, count, stride, old(data[0]), res, done, p, begun)
  {
    var v := data[0];
    n, lost, done, p := 0, 0, [], 0;
    if verify {
      res, done, p, begun := FillVerified(c, start, count, stride, v);
    } else {
      res, n, lost, begun := FillUnverified(c, start, count, stride, v);
    }
    if Base(start) % 4 != 0 {
      data[0] := Swapped(v);
    }
  }

  /** What a verified aligned fill comes to: no error only if there is nothing to fill, or the second
      byte of the fill word is 0 and all bytes to be written fit. */
  ghost predicate FillOutcome(res: ErrorCode, m0: Memory, m: Memory, plan: seq<Item>, wide: bool, alert: bool) {
    && (res == NoErr || res == VerifyWrite)
    && OnlyClears(m0, m, plan)
    && (res == NoErr ==>
          (plan == [] || !wide) && FlashData.AllFit(m0, plan) && m == Program(m0, plan) && FlashData.InFlash(m, plan))
    && (alert && (plan == [] || !wide) && FlashData.AllFit(m0, plan) ==> res == NoErr)
  }

  /** A fill in range goes to distinct cells. */
  lemma FillDistinct(start: u32, n: nat, stride: int, b: byte)
    requires InRange(start, n, stride)
    ensures var plan := FillPlan(Base(start), stride, n, b);
            DistinctCells(plan) && FlashData.AllValid(plan) && FlashData.Follows(plan, Base(start), stride)
  {
    var plan := FillPlan(Base(start), stride, n, b);
    forall k | 0 <= k < n
      ensures ValidAddr(plan[k].addr) && Cell(plan[k].addr) == start + k * stride
    {
      WalkInRange(start, n, stride, k);
    }
    forall i, j | 0 <= i < j < n
      ensures Cell(plan[i].addr) != Cell(plan[j].addr)
    {
      StrideGap(i, j, stride);
    }
  }

  lemma AlignedExact(core0: Core, core: Core, start: u32, count: int, stride: int, v: int, res: ErrorCode, alert: bool,
                     done: seq<Item>, p: nat)
    requires core0.job.Idle? && core.job.Idle? && InRange(start, Positive(count), stride)
    requires Compared(Trial(core0, alert, AlignedItems(start, count, stride, v), Base(start), stride, true), core, res,
                      Wide(v), done, p)
    ensures FillOutcome(res, core0.mem, core.mem, AlignedItems(start, count, stride, v), Wide(v), alert)
    ensures alert && !Wide(v) ==>
              FlashData.AsForetold(core0.mem, core.mem, AlignedItems(start, count, stride, v), Base(start), stride,
                                   true, res)
    ensures alert && Wide(v) && count > 0 ==>
              res == VerifyWrite && start < SIZE && core.mem == core0.mem[start := And(core0.mem[start], Low(v))]
  {
    FillDistinct(start, Positive(count), stride, Low(v));
    if Wide(v) {
      WideFill(core0, core, start, count, stride, v, res, alert, done, p);
    } else {
      NarrowExact(core0, core, start, count, stride, v, res, alert, done, p);
    }
  }

  lemma NarrowExact(core0: Core, core: Core, start: u32, count: int, stride: int, v: int, res: ErrorCode, alert: bool,
                    done: seq<Item>, p: nat)
    requires core0.job.Idle? && core.job.Idle? && InRange(start, Positive(count), stride) && !Wide(v)
    requires Compared(Trial(core0, alert, AlignedItems(start, count, stride, v), Base(start), stride, true), core, res,
                      false, done, p)
    ensures FlashData.VerifiedOutcome(res, core0.mem, core.mem, AlignedItems(start, count, stride, v), alert)
    ensures alert ==>
              FlashData.AsForetold(core0.mem, core.mem, AlignedItems(start, count, stride, v), Base(start), stride,
                                   true, res)
  {
    var plan := AlignedItems(start, count, stride, v);
    FillDistinct(start, Positive(count), stride, Low(v));
    if p < |plan| {
      assert ValidAddr(plan[p].addr) && plan[p].addr == Walk(Base(start), stride, p);
    }
    FlashData.RunOutcome(res, core0.mem, core.mem, plan, Base(start), stride, done, p, alert);
  }

  lemma WideFill(core0: Core, core: Core, start: u32, count: int, stride: int, v: int, res: ErrorCode, alert: bool,
                   done: seq<Item>, p: nat)
    requires core0.job.Idle? && core.job.Idle? && InRange(start, Positive(count), stride) && Wide(v)
    requires Compared(Trial(core0, alert, AlignedItems(start, count, stride, v), Base(start), stride, true), core, res,
                      true, done, p)
    ensures OnlyClears(core0.mem, core.mem, AlignedItems(start, count, stride, v))
    ensures res == if count > 0 then VerifyWrite else NoErr
    ensures count <= 0 ==> core.mem == core0.mem
    ensures alert && count > 0 ==> start < SIZE && core.mem == core0.mem[start := And(core0.mem[start], Low(v))]
  {
    var plan := AlignedItems(start, count, stride, v);
    FillDistinct(start, Positive(count), stride, Low(v));
    FlashData.WalkOnlyClears(core0.mem, done, plan, Base(start), stride);
    if count > 0 {
      assert ValidAddr(plan[0].addr);
      WalkInRange(start, Positive(count), stride, 0);
    } else {
      assert done == [];
    }
  }

  /** FillData with verification on, aligned and in range, on an idle device. */
  method FillAndVerify(c: M25P16, start: u32, count: int, stride: int, data: array<int>) returns (res: ErrorCode)
    requires !c.selected && c.core.job.Idle? && data.Length > 0
    requires Base(start) % 4 == 0 && InRange(start, Positive(count), stride)
    modifies c, data
    ensures !c.selected && c.core.job.Idle?
    ensures FillOutcome(res, old(c.core).mem, c.core.mem, AlignedItems(start, count, stride, old(data[0])),
                        Wide(old(data[0])), c.alert)
  {
    ghost var core0, v := c.core, data[0];
    ghost var n, lost, begun, done, p;
    res, n, lost, begun, done, p := FillData(c, true, start, count, stride, data);
    AlignedExact(core0, c.core, start, count, stride, v, res, c.alert, done, p);
  }
}

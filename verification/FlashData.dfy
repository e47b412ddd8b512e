/** WriteData and ReadData as a whole: exactness of verification, round trip and frame. */
module FlashData {
  import opened Bits
  import opened Chip
  import opened Protocol
  import opened Driver
  import opened Plan
  import opened Programmer
  import opened Verified

  /* ---- writing ---- */

  /** Every byte to be written only needs bits that are still set. */
  ghost predicate AllFit(m: Memory, items: seq<Item>) {
    forall k :: 0 <= k < |items| ==> Within(items[k].data, m[Cell(items[k].addr)])
  }

  ghost predicate InFlash(m: Memory, items: seq<Item>) {
    forall k :: 0 <= k < |items| ==> m[Cell(items[k].addr)] == items[k].data
  }

  /** Over distinct cells, fitting one by one is fitting the memory as it was at the start. */
  lemma {:induction false} FitsExact(m: Memory, plan: seq<Item>, k: nat)
    requires k <= |plan| && DistinctCells(plan)
    ensures Fits(m, plan, k) <==> AllFit(m, plan[..k])
  {
    if k > 0 {
      FitsExact(m, plan, k - 1);
      var x := Cell(plan[k - 1].addr);
      ProgramOnlyClears(m, plan[..k - 1]);
      assert !Hit(plan[..k - 1], x);
      assert plan[..k][k - 1] == plan[k - 1];
      assert forall q :: 0 <= q < k - 1 ==> plan[..k][q] == plan[..k - 1][q];
    }
  }

  /** What fits ends up in flash. */
  lemma FitLands(m: Memory, plan: seq<Item>)
    requires DistinctCells(plan) && AllFit(m, plan)
    ensures InFlash(Program(m, plan), plan)
  {
    forall k | 0 <= k < |plan|
      ensures Program(m, plan)[Cell(plan[k].addr)] == plan[k].data
    {
      ProgramAt(m, plan, k);
      AndCommutes(m[Cell(plan[k].addr)], plan[k].data);
    }
  }

  ghost predicate Follows(plan: seq<Item>, base: u32, stride: int) {
    forall q :: 0 <= q < |plan| ==> plan[q].addr == Walk(base, stride, q)
  }

  lemma WalkHit(a: u32, plan: seq<Item>, base: u32, stride: int)
    requires Follows(plan, base, stride) && OnWalk(a, base, stride, |plan|)
    ensures Hit(plan, Cell(a))
  {
    var q: nat :| q < |plan| && Walk(base, stride, q) == a;
    assert Cell(plan[q].addr) == Cell(a);
  }

  lemma {:induction false} WalkHits(done: seq<Item>, plan: seq<Item>, base: u32, stride: int, x: nat)
    requires Follows(plan, base, stride) && AllOnWalk(done, base, stride, |plan|)
    ensures Hit(done, x) ==> Hit(plan, x)
  {
    if Hit(done, x) {
      var k :| 0 <= k < |done| && Cell(done[k].addr) == x;
      var init := done[..|done| - 1];
      if k < |init| {
        assert Cell(init[k].addr) == x;
        WalkHits(init, plan, base, stride, x);
      } else {
        WalkHit(done[k].addr, plan, base, stride);
      }
    }
  }

  lemma WalkOnlyClears(m: Memory, done: seq<Item>, plan: seq<Item>, base: u32, stride: int)
    requires Follows(plan, base, stride) && AllOnWalk(done, base, stride, |plan|)
    ensures OnlyClears(m, Program(m, done), plan)
  {
    ProgramOnlyClears(m, done);
    forall x | 0 <= x < SIZE
      ensures Hit(plan, x) || Program(m, done)[x] == m[x]
    {
      WalkHits(done, plan, base, stride, x);
    }
  }

  /** What a verified write of a range inside the chip to an idle device comes to. */
  ghost predicate VerifiedOutcome(res: ErrorCode, m0: Memory, m: Memory, plan: seq<Item>, alert: bool) {
    && (res == NoErr || res == VerifyWrite)
    && OnlyClears(m0, m, plan)
    && (res == NoErr ==> AllFit(m0, plan) && m == Program(m0, plan) && InFlash(m, plan))
    && (alert && AllFit(m0, plan) ==> res == NoErr)
  }

  lemma RunOutcome(res: ErrorCode, m0: Memory, m: Memory, plan: seq<Item>, base: u32, stride: int,
                   done: seq<Item>, p: nat, alert: bool)
    requires DistinctCells(plan) && Follows(plan, base, stride)
    requires res == NoErr || res == VerifyWrite
    requires Run(m0, m, plan, base, stride, done, |plan|, p, res == VerifyWrite, alert)
    ensures VerifiedOutcome(res, m0, m, plan, alert)
  {
    assert plan[..|plan|] == plan;
    FitsExact(m0, plan, |plan|);
    WalkOnlyClears(m0, done, plan, base, stride);
    if res == NoErr {
      FitLands(m0, plan);
    }
  }

  /** On any device, only cells of the plan change and no bit is set, besides the end of an erase
      that was running; one that is busy still is as it was. */
  ghost predicate OnlyPlanned(core0: Core, core: Core, plan: seq<Item>) {
    if core.job.Idle? then OnlyClears(Finish(core0).mem, core.mem, plan) else core == core0
  }

  /** The very result and contents that trying byte after byte comes to. */
  ghost predicate AsForetold(m0: Memory, m: Memory, plan: seq<Item>, base: u32, stride: int, whole: bool,
                             res: ErrorCode) {
    var v := Ahead(m0, plan, base, stride, whole, 0, 0, false);
    m == v.mem && res == v.res
  }

  /** A verified write: for any range only cells of the walk change, and what the result says
      about a range inside the chip. */
  method WriteRange(c: M25P16, start: u32, count: int, stride: int, data: array<int>, ghost plan: seq<Item>)
    returns (res: ErrorCode)
    requires !c.selected && Planned(plan, Base(start), count, stride, data[..]) && Follows(plan, Base(start), stride)
    modifies c
    ensures !c.selected && (!Scan(old(c.log)).Broken? ==> !Scan(c.log).Broken?)
    ensures OnlyPlanned(old(c.core), c.core, plan)
    ensures old(c.core).job.Idle? && DistinctCells(plan) && AllValid(plan) ==>
              VerifiedOutcome(res, old(c.core).mem, c.core.mem, plan, c.alert)
    ensures old(c.core).job.Idle? && c.alert ==>
              AsForetold(old(c.core).mem, c.core.mem, plan, Base(start), stride, false, res)
  {
    ghost var core0 := c.core;
    ghost var done, p;
    res, done, p := WriteVerified(c, start, count, stride, data, plan);
    WalkOnlyClears(Finish(core0).mem, done, plan, Base(start), stride);
    if core0.job.Idle? && DistinctCells(plan) && AllValid(plan) {
      assert forall q :: 0 <= q < |plan| ==> ValidAddr(Walk(Base(start), stride, q));
      RunOutcome(res, core0.mem, c.core.mem, plan, Base(start), stride, done, p, c.alert);
    }
  }

  ghost predicate AllValid(plan: seq<Item>) {
    forall q :: 0 <= q < |plan| ==> ValidAddr(plan[q].addr)
  }

  lemma PlanFollows(start: u32, count: int, stride: int, words: seq<int>)
    requires |words| >= Words(count) + Leftover(count)
    ensures Planned(WritePlan(start, count, stride, words), Base(start), count, stride, words)
    ensures Follows(WritePlan(start, count, stride, words), Base(start), stride)
    ensures InRange(start, PlanLen(count), stride) ==>
              DistinctCells(WritePlan(start, count, stride, words)) && AllValid(WritePlan(start, count, stride, words))
  {
    WritePlanPlanned(start, count, stride, words);
    if InRange(start, PlanLen(count), stride) {
      PlanInRange(start, count, stride, words);
    }
  }

  lemma PrefixOnlyClears(m: Memory, plan: seq<Item>, lost: nat, n: nat)
    requires lost <= n <= |plan|
    ensures OnlyClears(m, Program(m, plan[lost..n]), plan)
  {
    ProgramOnlyClears(m, plan[lost..n]);
    forall x | 0 <= x < SIZE
      ensures Hit(plan[lost..n], x) ==> Hit(plan, x)
    {
      if Hit(plan[lost..n], x) {
        var k :| 0 <= k < n - lost && Cell(plan[lost..n][k].addr) == x;
        assert Cell(plan[lost + k].addr) == x;
      }
    }
  }

  method WriteData(c: M25P16, verify: bool, start: u32, count: int, stride: int, data: array<int>)
    returns (res: ErrorCode, ghost n: nat, ghost lost: nat)
    requires !c.selected && data.Length >= Words(count) + Leftover(count)
    modifies c
    ensures !c.selected && (!Scan(old(c.log)).Broken? ==> !Scan(c.log).Broken?)
    ensures OnlyPlanned(old(c.core), c.core, WritePlan(start, count, stride, data[..]))
    ensures !verify ==> Wrote(old(c.log), old(c.core), c, WritePlan(start, count, stride, data[..]), n, lost)
    ensures !verify ==> Outcome(res, old(c.core).job.Idle? && c.alert, WritePlan(start, count, stride, data[..]), n)
    ensures verify && old(c.core).job.Idle? && InRange(start, PlanLen(count), stride) ==>
              VerifiedOutcome(res, old(c.core).mem, c.core.mem, WritePlan(start, count, stride, data[..]), c.alert)
    ensures verify && old(c.core).job.Idle? && c.alert ==>
              AsForetold(old(c.core).mem, c.core.mem, WritePlan(start, count, stride, data[..]), Base(start), stride,
                         false, res)
  {
    ghost var plan, core0 := WritePlan(start, count, stride, data[..]), c.core;
    PlanFollows(start, count, stride, data[..]);
    n, lost := 0, 0;
    if verify {
      res := WriteRange(c, start, count, stride, data, plan);
    } else {
      res, n, lost := WriteUnverified(c, start, count, stride, data, plan);
      PrefixOnlyClears(Finish(core0).mem, plan, lost, n);
    }
  }

  /** Byte k of a write of whole words, before and after: its cell has the byte, or has it ANDed in. */
  predicate HasByte(m0: Memory, m: Memory, start: nat, stride: nat, words: seq<int>, k: nat, exact: bool) {
    k / 4 < |words|
    && var x, b := start + k * stride, ByteWanted(words, k);
      x < SIZE && m[x] == if exact then b else And(m0[x], b)
  }

  /** Whether it only needs bits that are still set. */
  predicate FitsAt(m0: Memory, start: nat, stride: nat, words: seq<int>, k: nat) {
    k / 4 < |words|
    && var x, b := start + k * stride, ByteWanted(words, k);
      x < SIZE && Within(b, m0[x])
  }

  ghost predicate AllBytes(m0: Memory, m: Memory, start: nat, count: nat, stride: nat, words: seq<int>, exact: bool) {
    forall k: nat :: k < count ==> HasByte(m0, m, start, stride, words, k, exact)
  }

  ghost predicate AllFitAt(m0: Memory, start: nat, count: nat, stride: nat, words: seq<int>) {
    forall k: nat :: k < count ==> FitsAt(m0, start, stride, words, k)
  }

  /** Item k of the plan, in terms of places and bytes. */
  ghost predicate Planted(start: nat, stride: nat, words: seq<int>, k: nat, it: Item) {
    k / 4 < |words| && Cell(it.addr) == start + k * stride && it.data == ByteWanted(words, k)
  }

  lemma PlanPlanted(start: u32, count: nat, stride: int, words: seq<int>)
    requires count <= 0xC000 && count % 4 == 0 && InRange(start, count, stride)
    requires |words| >= Words(count) + Leftover(count)
    ensures var plan := WritePlan(start, count, stride, words);
            && |plan| == count && DistinctCells(plan) && AllValid(plan)
            && forall k: nat :: k < count ==> Planted(start, stride, words, k, plan[k])
  {
    BytesPlanned(count);
    PlanInRange(start, count, stride, words);
    forall k: nat | k < count
      ensures Planted(start, stride, words, k, WritePlan(start, count, stride, words)[k])
    {
      ByteOfValue(words[k / 4], k % 4);
    }
  }

  /** What programming such a plan comes to, place by place. */
  lemma PlantedLands(m0: Memory, m: Memory, plan: seq<Item>, start: nat, stride: nat, words: seq<int>, exact: bool)
    requires forall k: nat :: k < |plan| ==> Planted(start, stride, words, k, plan[k])
    requires DistinctCells(plan) && m == Program(m0, plan) && (exact ==> InFlash(m, plan))
    ensures AllBytes(m0, m, start, |plan|, stride, words, exact)
  {
    forall k: nat | k < |plan|
      ensures HasByte(m0, m, start, stride, words, k, exact)
    {
      assert Planted(start, stride, words, k, plan[k]);
      ProgramAt(m0, plan, k);
    }
  }

  lemma PlantedFits(m0: Memory, plan: seq<Item>, start: nat, stride: nat, words: seq<int>)
    requires forall k: nat :: k < |plan| ==> Planted(start, stride, words, k, plan[k])
    ensures AllFit(m0, plan) <==> AllFitAt(m0, start, |plan|, stride, words)
  {
    forall k: nat | k < |plan|
      ensures FitsAt(m0, start, stride, words, k) <==> Within(plan[k].data, m0[Cell(plan[k].addr)])
    {
      assert Planted(start, stride, words, k, plan[k]);
    }
    if AllFitAt(m0, start, |plan|, stride, words) {
      forall k | 0 <= k < |plan|
        ensures Within(plan[k].data, m0[Cell(plan[k].addr)])
      {
        assert FitsAt(m0, start, stride, words, k);
      }
    }
  }

  lemma WholeOutcome(m0: Memory, m: Memory, start: u32, count: nat, stride: int, words: seq<int>, n: nat,
                     res: ErrorCode, verify: bool, alert: bool)
    requires count <= 0xC000 && count % 4 == 0 && InRange(start, count, stride)
    requires |words| >= Words(count) + Leftover(count)
    requires var plan := WritePlan(start, count, stride, words);
             if verify then VerifiedOutcome(res, m0, m, plan, alert)
             else n <= |plan| && Outcome(res, alert, plan, n) && m == Program(m0, plan[..n])
    ensures res == NoErr ==> AllBytes(m0, m, start, count, stride, words, verify)
    ensures alert && verify ==> (res == NoErr <==> AllFitAt(m0, start, count, stride, words))
    ensures alert && !verify ==> res == NoErr
  {
    var plan := WritePlan(start, count, stride, words);
    PlanPlanted(start, count, stride, words);
    PlantedFits(m0, plan, start, stride, words);
    if res == NoErr {
      assert plan[..|plan|] == plan;
      PlantedLands(m0, m, plan, start, stride, words, verify);
    }
  }

  /** WriteData of whole words, up to as many as BUFFER_SIZE, inside the chip and to an idle device:
      with no error, every one of the count bytes is where it belongs. */
  method WriteWhole(c: M25P16, verify: bool, start: u32, count: nat, stride: int, data: array<int>)
    returns (res: ErrorCode)
    requires !c.selected && c.core.job.Idle? && InRange(start, count, stride)
    requires count <= 0xC000 && count % 4 == 0 && data.Length >= Words(count) + Leftover(count)
    modifies c
    ensures !c.selected && c.core.job.Idle?
    ensures res == NoErr ==> AllBytes(old(c.core).mem, c.core.mem, start, count, stride, data[..], verify)
    ensures c.alert && verify ==> (res == NoErr <==> AllFitAt(old(c.core).mem, start, count, stride, data[..]))
    ensures c.alert && !verify ==> res == NoErr
  {
    ghost var m0 := c.core.mem;
    BytesPlanned(count);
    ghost var n, lost;
    res, n, lost := WriteData(c, verify, start, count, stride, data);
    WholeOutcome(m0, c.core.mem, start, count, stride, data[..], n, res, verify, c.alert);
  }

  /* ---- reading ---- */

  /** Four bytes put together as a 32-bit int. */
  function Merge(b0: byte, b1: byte, b2: byte, b3: byte): int {
    var v := b3 as int * 0x100_0000 + b2 as int * 0x1_0000 + b1 as int * 0x100 + b0 as int;
    if v >= 0x8000_0000 then v - 0x1_0000_0000 else v
  }

  function At(m: Memory, base: u32, stride: int, k: nat): byte { m[Cell(Walk(base, stride, k))] }

  function WordAt(m: Memory, base: u32, stride: int, k: nat): int {
    Merge(At(m, base, stride, k), At(m, base, stride, k + 1), At(m, base, stride, k + 2), At(m, base, stride, k + 3))
  }

  /** A 16-bit store into the low half of an int. */
  function StoreLow(old_: int, v: byte): int { old_ - old_ % 0x1_0000 + v }

  /** It stores the byte and clears the one above, and keeps the high half. */
  lemma StoreLowExact(old_: int, v: byte)
    ensures StoreLow(old_, v) % 0x1_0000 == v
    ensures StoreLow(old_, v) / 0x1_0000 == old_ / 0x1_0000
  {
    var q := old_ / 0x1_0000;
    assert StoreLow(old_, v) == q * 0x1_0000 + v;
  }

  /** The leftover word: the byte in the low half, and the high half as it was. */
  predicate LeftIn(old_: int, w: int, v: byte) { w % 0x1_0000 == v && w / 0x1_0000 == old_ / 0x1_0000 }

  /** The part of the buffer a read has filled in. */
  ghost predicate Filled(buf0: seq<int>, buf: seq<int>, m: Memory, base: u32, stride: int, full: nat, left: bool) {
    && |buf| == |buf0| && full + (if left then 1 else 0) <= |buf|
    && (forall i :: 0 <= i < full ==> buf[i] == WordAt(m, base, stride, 4 * i))
    && (left ==> LeftIn(buf0[full], buf[full], At(m, base, stride, 4 * full)))
    && (forall i :: full + (if left then 1 else 0) <= i < |buf| ==> buf[i] == buf0[i])
  }

  lemma FilledWord(buf0: seq<int>, buf: seq<int>, m: Memory, base: u32, stride: int, i: nat)
    requires Filled(buf0, buf, m, base, stride, i, false) && i < |buf|
    ensures Filled(buf0, buf[i := WordAt(m, base, stride, 4 * i)], m, base, stride, i + 1, false)
  {
  }

  lemma FilledLeft(buf0: seq<int>, buf: seq<int>, m: Memory, base: u32, stride: int, i: nat)
    requires Filled(buf0, buf, m, base, stride, i, false) && i < |buf|
    ensures Filled(buf0, buf[i := StoreLow(buf[i], At(m, base, stride, 4 * i))], m, base, stride, i, true)
  {
    StoreLowExact(buf[i], At(m, base, stride, 4 * i));
  }

  /** Four reads, one stride apart: the inner block of ReadData. */
  method ReadWord(c: M25P16, addr0: u32, stride: int, ghost base: u32, ghost k: nat) returns (w: int, addr: u32)
    requires !c.selected && addr0 == Walk(base, stride, k)
    modifies c
    ensures !c.selected && (!Scan(old(c.log)).Broken? ==> !Scan(c.log).Broken?)
    ensures Programs(c.log) == Programs(old(c.log))
    ensures addr == Walk(base, stride, k + 4)
    ensures InOrPast(c.core, old(c.core))
    ensures old(c.core).job.Idle? ==> c.core == old(c.core) && w == WordAt(c.core.mem, base, stride, k)
  {
    addr := addr0;
    var b0 := Read1(c, addr);
    addr := (addr + stride) % 0x1_0000_0000;
    assert addr == Walk(base, stride, k + 1);
    var b1 := Read1(c, addr);
    addr := (addr + stride) % 0x1_0000_0000;
    assert addr == Walk(base, stride, k + 2);
    var b2 := Read1(c, addr);
    addr := (addr + stride) % 0x1_0000_0000;
    assert addr == Walk(base, stride, k + 3);
    var b3 := Read1(c, addr);
    addr := (addr + stride) % 0x1_0000_0000;
    assert addr == Walk(base, stride, k + 4);
    w := Merge(b0, b1, b2, b3);
  }

  /** Only the first address of each word is checked against the sectors. */
  method ReadData(c: M25P16, start: u32, count: int, stride: int, data: array<int>)
    returns (res: ErrorCode, ghost full: nat)
    requires !c.selected && data.Length >= Words(count) + Leftover(count)
    modifies c, data
    ensures !c.selected && (!Scan(old(c.log)).Broken? ==> !Scan(c.log).Broken?)
    ensures Programs(c.log) == Programs(old(c.log)) && InOrPast(c.core, old(c.core))
    ensures full <= Words(count) && forall i :: 0 <= i < full ==> ValidAddr(Walk(Base(start), stride, 4 * i))
    ensures res == NoErr || (res == InvalidSector && !ValidAddr(Walk(Base(start), stride, 4 * full)))
    ensures res == InvalidSector ==> full < Words(count) || Leftover(count) == 1
    ensures res == NoErr ==> full == Words(count)
    ensures res == NoErr && Leftover(count) == 1 ==> ValidAddr(Walk(Base(start), stride, 4 * full))
    ensures old(c.core).job.Idle? ==>
              && c.core == old(c.core)
              && Filled(old(data[..]), data[..], c.core.mem, Base(start), stride, full,
                        res == NoErr && Leftover(count) == 1)
  {
    var addr, sector := Base(start), 0;
    ghost var base, buf0, core0 := Base(start), data[..], c.core;
    res, full := NoErr, 0;
    var i := 0;
    WordBound(count);
    while i < CDiv4(count) && i < BUFFER_SIZE
      invariant 0 <= i <= Words(count) && full == i && res == NoErr
      invariant !c.selected && (!Scan(old(c.log)).Broken? ==> !Scan(c.log).Broken?)
      invariant Programs(c.log) == Programs(old(c.log)) && InOrPast(c.core, core0)
      invariant addr == Walk(base, stride, 4 * i)
      invariant forall k :: 0 <= k < i ==> ValidAddr(Walk(base, stride, 4 * k))
      invariant core0.job.Idle? ==> c.core == core0 && Filled(buf0, data[..], core0.mem, base, stride, i, false)
    {
      res, sector := GetSectorNumber(addr, sector);
      if res != NoErr {
        return;
      }
      var w;
      w, addr := ReadWord(c, addr, stride, base, 4 * i);
      if core0.job.Idle? {
        FilledWord(buf0, data[..], core0.mem, base, stride, i);
      }
      data[i] := w;
      i, full := i + 1, full + 1;
    }
    if CMod4(count) > 0 {
      res, sector := GetSectorNumber(addr, sector);
      if res != NoErr {
        return;
      }
      var value := Read1(c, addr);
      if core0.job.Idle? {
        FilledLeft(buf0, data[..], core0.mem, base, stride, i);
      }
      data[i] := StoreLow(data[i], value);
    }
  }

  /* ---- round trip ---- */

  predicate Int32(w: int) { -0x8000_0000 <= w < 0x8000_0000 }

  lemma FourBytes(w: int)
    ensures Low(w) + 0x100 * Low(w / 0x100) + 0x1_0000 * Low(w / 0x1_0000) + 0x100_0000 * Low(w / 0x100_0000)
            == w - 0x1_0000_0000 * (w / 0x1_0000_0000)
  {
    DivDiv(w);
  }

  lemma MergeSplit(w: int)
    requires Int32(w)
    ensures Merge(ByteOf(w, 0), ByteOf(w, 1), ByteOf(w, 2), ByteOf(w, 3)) == w
  {
    FourBytes(w);
    assert w / 0x1_0000_0000 == if w < 0 then -1 else 0;
  }

  /** A memory that holds a plan reads back as the words the plan came from. */
  lemma ReadBack(m: Memory, start: u32, count: int, stride: int, words: seq<int>)
    requires |words| >= Words(count) + Leftover(count)
    requires InFlash(m, WritePlan(start, count, stride, words))
    ensures forall i :: 0 <= i < Words(count) && Int32(words[i]) ==>
              WordAt(m, Base(start), stride, 4 * i) == words[i]
    ensures Leftover(count) == 1 ==> At(m, Base(start), stride, 4 * Words(count)) == Low(words[Words(count)])
  {
    var plan, base := WritePlan(start, count, stride, words), Base(start);
    WritePlanPlanned(start, count, stride, words);
    forall i | 0 <= i < Words(count) && Int32(words[i])
      ensures WordAt(m, base, stride, 4 * i) == words[i]
    {
      WordReadBack(m, plan, base, stride, 4 * i, words[i]);
    }
  }

  lemma WordReadBack(m: Memory, plan: seq<Item>, base: u32, stride: int, k: nat, w: int)
    requires InFlash(m, plan) && WordPlanned(plan, base, stride, k, w) && Int32(w)
    ensures WordAt(m, base, stride, k) == w
  {
    assert plan[k + 0] == Item(Walk(base, stride, k), ByteOf(w, 0));
    assert plan[k + 1] == Item(Walk(base, stride, k + 1), ByteOf(w, 1));
    assert plan[k + 2] == Item(Walk(base, stride, k + 2), ByteOf(w, 2));
    assert plan[k + 3] == Item(Walk(base, stride, k + 3), ByteOf(w, 3));
    MergeSplit(w);
  }
}

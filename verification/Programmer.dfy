/** The flash programmer (BF512FlashDriverM25P16.c): writing, reading and filling with a stride. */
module Programmer {
  import opened Bits
  import opened Chip
  import opened Protocol
  import opened Driver
  import opened Plan

  /** m25p16_Write with a count of 1. */
  method Write1(c: M25P16, value: int, addr: u32) returns (res: ErrorCode, ghost one: bool)
    requires !c.selected
    modifies c
    ensures !c.selected && (res == NoErr || res == PollTimeout)
    ensures !Scan(old(c.log)).Broken? ==> !Scan(c.log).Broken?
    ensures Programs(c.log) == Programs(old(c.log)) + FramesOf(if res == NoErr then [Item(addr, Low(value))] else [])
    ensures OneWritten(old(c.core), c.core, Item(addr, Low(value)), res, one)
    ensures Lates(c.log) == Lates(old(c.log)) + if one then 1 else 0
    ensures old(c.core).job.Idle? && c.alert ==> res == NoErr
  {
    ghost var n, lost;
    res, n, lost := m25p16_Write(c, [value], addr);
    ghost var it := Item(addr, Low(value));
    one := lost == 1;
    assert Items([value], addr) == [it];
    assert [it][..n] == if res == NoErr then [it] else [];
    assert [it][lost..n] == if res == NoErr && !one then [it] else [];
  }

  method Read1(c: M25P16, addr: u32) returns (value: byte)
    requires !c.selected
    modifies c
    ensures !c.selected
    ensures Programs(c.log) == Programs(old(c.log))
    ensures Scan(c.log).Broken? <==> Scan(old(c.log)).Broken?
    ensures c.core == old(c.core) || c.core == Finish(old(c.core))
    ensures old(c.core).job.Idle? ==> value == c.core.mem[Cell(addr)]
  {
    var data := m25p16_Read(c, addr, 1);
    value := data[0];
  }

  /** The state between two writes of an unverified run: the first n items were sent, and all but
      the first `lost` of them, which came while the device was busy, are programmed. */
  ghost predicate Wrote(log0: seq<Frame>, core0: Core, c: M25P16, plan: seq<Item>, n: nat, lost: nat)
    reads c
  {
    && Writing(log0, core0, c, plan, n, lost, NoErr)
    && (forall k :: 0 <= k < n ==> ValidAddr(plan[k].addr))
  }

  /** How an unverified run ends: n is the whole plan exactly when there is no error, and the
      error is that of item n. */
  ghost predicate Outcome(res: ErrorCode, idleAlert: bool, plan: seq<Item>, n: nat)
    requires n <= |plan|
  {
    && (res == NoErr <==> n == |plan|)
    && (res == NoErr || res == InvalidSector || res == PollTimeout)
    && (res == InvalidSector ==> !ValidAddr(plan[n].addr))
    && (res == PollTimeout ==> ValidAddr(plan[n].addr) && !idleAlert)
  }

  /** The sector check and the write of one location. */
  method CheckedWrite(c: M25P16, value: int, addr: u32, sector0: int, ghost log0: seq<Frame>, ghost core0: Core,
                      ghost plan: seq<Item>, ghost n: nat, ghost lost0: nat)
    returns (res: ErrorCode, sector: int, ghost lost: nat)
    requires n < |plan| && plan[n] == Item(addr, Low(value)) && Wrote(log0, core0, c, plan, n, lost0)
    modifies c
    ensures Wrote(log0, core0, c, plan, if res == NoErr then n + 1 else n, lost)
    ensures res != NoErr ==> Outcome(res, core0.job.Idle? && c.alert, plan, n)
  {
    lost := lost0;
    res, sector := GetSectorNumber(addr, sector0);
    if res == NoErr {
      ghost var core1 := c.core;
      ghost var one;
      res, one := Write1(c, value, addr);
      WrittenStep(core0, core1, c.core, plan, n, lost0, res, one);
      lost := if one then n + 1 else lost0;
      OneFrame(plan, n);
    }
  }

  lemma OneFrame(plan: seq<Item>, n: nat)
    requires n < |plan|
    ensures FramesOf(plan[..n + 1]) == FramesOf(plan[..n]) + FramesOf([plan[n]])
  {
    assert plan[..n + 1][..n] == plan[..n];
    assert [plan[n]][..0] == [];
  }

  /** What is left of a plan after an error is not touched. */
  ghost predicate Stopped(res: ErrorCode, idleAlert: bool, plan: seq<Item>, n: nat) {
    res != NoErr && n < |plan| && Outcome(res, idleAlert, plan, n)
  }

  /** Items k to k+3 of a plan are the bytes of one word. */
  ghost predicate WordPlanned(plan: seq<Item>, base: u32, stride: int, k: nat, w: int) {
    && k + 4 <= |plan|
    && forall j :: 0 <= j < 4 ==> plan[k + j] == Item(Walk(base, stride, k + j), ByteOf(w, j))
  }

  /** The four bytes of one word: the inner loop of the unverified branch. */
  method WriteWord(c: M25P16, w: int, addr0: u32, stride: int, sector0: int, ghost log0: seq<Frame>, ghost core0: Core,
                   ghost plan: seq<Item>, ghost base: u32, ghost n0: nat, ghost lost0: nat)
    returns (res: ErrorCode, addr: u32, sector: int, ghost n: nat, ghost lost: nat)
    requires Wrote(log0, core0, c, plan, n0, lost0)
    requires WordPlanned(plan, base, stride, n0, w) && addr0 == Walk(base, stride, n0)
    modifies c
    ensures Wrote(log0, core0, c, plan, n, lost)
    ensures res == NoErr ==> n == n0 + 4 && addr == Walk(base, stride, n)
    ensures res != NoErr ==> Stopped(res, core0.job.Idle? && c.alert, plan, n)
  {
    res, addr, sector, n, lost := NoErr, addr0, sector0, n0, lost0;
    var shift, j := 0, 0;
    while j < 4 && res == NoErr
      invariant 0 <= j <= 4 && shift == 8 * j
      invariant Wrote(log0, core0, c, plan, n, lost)
      invariant res == NoErr ==> n == n0 + j && addr == Walk(base, stride, n)
      invariant res != NoErr ==> Stopped(res, core0.job.Idle? && c.alert, plan, n)
    {
      assert plan[n0 + j] == Item(Walk(base, stride, n0 + j), ByteOf(w, j));
      res, sector, lost := CheckedWrite(c, Asr(w, shift), addr, sector, log0, core0, plan, n, lost);
      if res == InvalidSector {
        return;
      }
      n := if res == NoErr then n + 1 else n;
      shift, j, addr := shift + 8, j + 1, (addr + stride) % 0x1_0000_0000;
    }
  }

  /** A plan word by word. */
  ghost predicate Planned(plan: seq<Item>, base: u32, count: int, stride: int, words: seq<int>) {
    && |plan| == PlanLen(count) && |words| >= Words(count) + Leftover(count)
    && (forall i :: 0 <= i < Words(count) ==> WordPlanned(plan, base, stride, 4 * i, words[i]))
    && (Leftover(count) == 1 ==>
          plan[4 * Words(count)] == Item(Walk(base, stride, 4 * Words(count)), Low(words[Words(count)])))
  }

  /** WriteData with verification off. */
  method WriteUnverified(c: M25P16, start: u32, count: int, stride: int, data: array<int>, ghost plan: seq<Item>)
    returns (res: ErrorCode, ghost n: nat, ghost lost: nat)
    requires !c.selected && Planned(plan, Base(start), count, stride, data[..])
    modifies c
    ensures Wrote(old(c.log), old(c.core), c, plan, n, lost)
    ensures Outcome(res, old(c.core).job.Idle? && c.alert, plan, n)
  {
    ghost var log0, core0 := c.log, c.core;
    var addr, sector := Base(start), 0;
    res, n, lost := NoErr, 0, 0;
    assert plan[..0] == [] && plan[0..0] == [];
    var i := 0;
    WordBound(count);
    while i < CDiv4(count) && i < BUFFER_SIZE
      invariant 0 <= i <= Words(count)
      invariant Wrote(log0, core0, c, plan, n, lost)
      invariant res == NoErr ==> n == 4 * i && addr == Walk(Base(start), stride, n)
      invariant res != NoErr ==> Stopped(res, core0.job.Idle? && c.alert, plan, n)
    {
      if res == NoErr {
        assert WordPlanned(plan, Base(start), stride, 4 * i, data[..][i]);
        res, addr, sector, n, lost := WriteWord(c, data[i], addr, stride, sector, log0, core0, plan, Base(start), n,
                                                lost);
      }
      i := i + 1;
    }
    if CMod4(count) > 0 && res == NoErr {
      res, sector, lost := CheckedWrite(c, data[i], addr, sector, log0, core0, plan, n, lost);
      n := if res == NoErr then n + 1 else n;
    }
  }

  lemma WordBound(count: int)
    ensures Words(count) == if CDiv4(count) <= 0 then 0
                            else if CDiv4(count) < BUFFER_SIZE then CDiv4(count)
                            else BUFFER_SIZE
    ensures Leftover(count) == 1 <==> CMod4(count) > 0
  {
  }

  lemma DivMod4(i: nat, j: nat)
    requires j < 4
    ensures (4 * i + j) / 4 == i && (4 * i + j) % 4 == j
  {
  }

  lemma PlanItem(start: u32, count: int, stride: int, words: seq<int>, i: nat, j: nat)
    requires |words| >= Words(count) + Leftover(count) && j < 4 && 4 * i + j < PlanLen(count)
    ensures i < |words|
    ensures WritePlan(start, count, stride, words)[4 * i + j] ==
            Item(Walk(Base(start), stride, 4 * i + j), ByteOf(words[i], j))
  {
    DivMod4(i, j);
  }

  lemma PlanWord(start: u32, count: int, stride: int, words: seq<int>, i: nat)
    requires |words| >= Words(count) + Leftover(count) && i < Words(count)
    ensures WordPlanned(WritePlan(start, count, stride, words), Base(start), stride, 4 * i, words[i])
  {
    forall j: nat | j < 4 {
      PlanItem(start, count, stride, words, i, j);
    }
  }

  lemma WritePlanPlanned(start: u32, count: int, stride: int, words: seq<int>)
    requires |words| >= Words(count) + Leftover(count)
    ensures Planned(WritePlan(start, count, stride, words), Base(start), count, stride, words)
  {
    forall i: nat | i < Words(count) {
      PlanWord(start, count, stride, words, i);
    }
    if Leftover(count) == 1 {
      PlanItem(start, count, stride, words, Words(count), 0);
    }
  }

  /** count / 4 as C computes it. */
  function CDiv4(count: int): int { if count >= 0 then count / 4 else -(-count / 4) }

  function CMod4(count: int): int { if count >= 0 then count % 4 else -(-count % 4) }
}

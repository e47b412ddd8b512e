/** WriteData with verification on: every byte is read back, and a mismatch breaks out of the
    current word only. */
module Verified {
  import opened Bits
  import opened Chip
  import opened Protocol
  import opened Driver
  import opened Plan
  import opened Programmer

  /** Programming the first k items one by one, each finds all the bits it needs still set. */
  predicate Fits(m: Memory, plan: seq<Item>, k: nat)
    requires k <= |plan|
  {
    k == 0
    || (Fits(m, plan, k - 1) && Within(plan[k - 1].data, Program(m, plan[..k - 1])[Cell(plan[k - 1].addr)]))
  }

  /** The address is one of the first n of the walk. */
  ghost predicate OnWalk(a: u32, base: u32, stride: int, n: nat) {
    exists q: nat :: q < n && Walk(base, stride, q) == a
  }

  ghost predicate AllOnWalk(done: seq<Item>, base: u32, stride: int, n: nat) {
    done == []
    || (AllOnWalk(done[..|done| - 1], base, stride, n) && OnWalk(done[|done| - 1].addr, base, stride, n))
  }

  /** The run after k attempts, p of which read back right and moved the address on. The items
      that were in fact programmed are `done`. */
  ghost predicate Run(m0: Memory, m: Memory, plan: seq<Item>, base: u32, stride: int, done: seq<Item>,
                      k: nat, p: nat, bad: bool, alert: bool) {
    && p <= k <= |plan|
    && m == Program(m0, done) && AllOnWalk(done, base, stride, |plan|)
    && (!bad ==> p == k && m == Program(m0, plan[..k]) && Fits(m0, plan, k))
    && (bad && alert ==> !Fits(m0, plan, k))
  }

  lemma {:induction false} FitsShrinks(m: Memory, plan: seq<Item>, k: nat, n: nat)
    requires k <= n <= |plan| && Fits(m, plan, n)
    ensures Fits(m, plan, k)
  {
    if k < n {
      FitsShrinks(m, plan, k, n - 1);
    }
  }

  lemma RunLater(m0: Memory, m: Memory, plan: seq<Item>, base: u32, stride: int, done: seq<Item>,
                 k: nat, p: nat, alert: bool, n: nat)
    requires k <= n <= |plan| && Run(m0, m, plan, base, stride, done, k, p, true, alert)
    ensures Run(m0, m, plan, base, stride, done, n, p, true, alert)
  {
    if Fits(m0, plan, n) {
      FitsShrinks(m0, plan, k, n);
    }
  }

  function ProgramOne(m: Memory, it: Item): Memory {
    m[Cell(it.addr) := And(m[Cell(it.addr)], it.data)]
  }

  lemma ProgramMore(m: Memory, items: seq<Item>, it: Item)
    ensures Program(m, items + [it]) == ProgramOne(Program(m, items), it)
  {
    assert (items + [it])[..|items|] == items;
  }

  /** Item k reads back right exactly if it fits, or happens to be there already. */
  lemma NextFits(m0: Memory, m: Memory, m': Memory, plan: seq<Item>, k: nat, programmed: bool)
    requires k < |plan| && m == Program(m0, plan[..k]) && Fits(m0, plan, k)
    requires m' == if programmed then ProgramOne(m, plan[k]) else m
    ensures m'[Cell(plan[k].addr)] == plan[k].data ==> m' == Program(m0, plan[..k + 1]) && Fits(m0, plan, k + 1)
    ensures m'[Cell(plan[k].addr)] != plan[k].data && programmed ==> !Fits(m0, plan, k + 1)
  {
    assert plan[..k + 1][..k] == plan[..k];
    AndCommutes(m[Cell(plan[k].addr)], plan[k].data);
    AndSelf(plan[k].data);
  }

  /** One attempt: it is programmed, or WREN was refused and nothing happens. */
  lemma RunStep(m0: Memory, m: Memory, m': Memory, plan: seq<Item>, base: u32, stride: int, done: seq<Item>,
                k: nat, p: nat, bad: bool, alert: bool, it: Item, programmed: bool)
    requires Run(m0, m, plan, base, stride, done, k, p, bad, alert) && k < |plan|
    requires it.addr == Walk(base, stride, p) && it.data == plan[k].data && (p == k ==> it == plan[k])
    requires m' == if programmed then ProgramOne(m, it) else m
    requires alert ==> programmed
    ensures var done' := if programmed then done + [it] else done;
            && (m'[Cell(it.addr)] == it.data ==> Run(m0, m', plan, base, stride, done', k + 1, p + 1, bad, alert))
            && (m'[Cell(it.addr)] != it.data ==> Run(m0, m', plan, base, stride, done', k + 1, p, true, alert))
  {
    var x := Cell(it.addr);
    var done' := if programmed then done + [it] else done;
    ProgramMore(m0, done, it);
    assert OnWalk(it.addr, base, stride, |plan|);
    if programmed {
      assert done'[..|done|] == done;
    }
    if bad {
      if Fits(m0, plan, k + 1) {
        FitsShrinks(m0, plan, k, k + 1);
      }
    } else {
      NextFits(m0, m, m', plan, k, programmed);
    }
  }

  /** What one attempt leaves of a device, busy at the call or not. */
  ghost predicate OneCompared(core0: Core, core: Core, it: Item, programmed: bool) {
    if core.job.Idle?
    then core.mem == if programmed then ProgramOne(Finish(core0).mem, it) else Finish(core0).mem
    else core == core0 && !programmed
  }

  /** Program, read back, compare. The error of the write is overwritten by that of the read. */
  method WriteAndCompare(c: M25P16, value: int, addr: u32) returns (same: bool, ghost programmed: bool)
    requires !c.selected
    modifies c
    ensures !c.selected
    ensures !Scan(old(c.log)).Broken? ==> !Scan(c.log).Broken?
    ensures OneCompared(old(c.core), c.core, Item(addr, Low(value)), programmed)
    ensures old(c.core).job.Idle? ==> same == (c.core.mem[Cell(addr)] == Low(value))
    ensures old(c.core).job.Idle? && c.alert ==> programmed
  {
    ghost var lost;
    var err;
    err, lost := Write1(c, value, addr);
    programmed := err == NoErr && !lost;
    ghost var it := Item(addr, Low(value));
    ProgramMore(Finish(old(c.core)).mem, [], it);
    assert [] + [it] == [it];
    var compare := Read1(c, addr);
    same := compare == value % 0x100;
  }

  /** All that was programmed lies on the walk, whatever ended the run; a device that has been busy
      all along is as it was. */
  ghost predicate OffWalkKept(core0: Core, core: Core, base: u32, stride: int, done: seq<Item>, n: nat) {
    && AllOnWalk(done, base, stride, n)
    && if core.job.Idle? then core.mem == Program(Finish(core0).mem, done) else core == core0 && done == []
  }

  lemma KeptStep(core0: Core, core1: Core, core: Core, base: u32, stride: int, done: seq<Item>, n: nat, p: nat,
                 it: Item, programmed: bool)
    requires OffWalkKept(core0, core1, base, stride, done, n) && OneCompared(core1, core, it, programmed)
    requires p < n && it.addr == Walk(base, stride, p)
    ensures OffWalkKept(core0, core, base, stride, if programmed then done + [it] else done, n)
  {
    if programmed {
      assert OnWalk(it.addr, base, stride, n);
      assert (done + [it])[..|done|] == done;
      ProgramMore(Finish(core0).mem, done, it);
    }
  }

  /** How a verified run over a plan ends on a device that takes every write. */
  datatype Verdict = Verdict(mem: Memory, p: nat, res: ErrorCode)

  /** Where a mismatch at byte k goes on: at the next word, or at the end of a fill. */
  function NextTry(len: nat, whole: bool, k: nat): nat {
    if whole then len else 4 * (k / 4) + 4
  }

  /** The rest of such a run from byte k on, with p bytes read back right so far. A mismatch skips the
      rest of its word and leaves the address where it is; a leftover byte is only tried if there
      was none. */
  function Ahead(m: Memory, plan: seq<Item>, base: u32, stride: int, whole: bool, k: nat, p: nat, bad: bool): Verdict
    decreases |plan| - k
  {
    if k >= |plan| || (bad && k % 4 == 0 && k + 1 == |plan|) then
      Verdict(m, p, if bad then VerifyWrite else NoErr)
    else if !ValidAddr(Walk(base, stride, p)) then
      Verdict(m, p, InvalidSector)
    else
      var it := Item(Walk(base, stride, p), plan[k].data);
      var m' := ProgramOne(m, it);
      if m'[Cell(it.addr)] == it.data then Ahead(m', plan, base, stride, whole, k + 1, p + 1, bad)
      else Ahead(m', plan, base, stride, whole, NextTry(|plan|, whole, k), p, true)
  }

  /** One step of such a run. */
  lemma AheadHit(m: Memory, plan: seq<Item>, base: u32, stride: int, whole: bool, k: nat, p: nat, bad: bool, it: Item)
    requires k < |plan| && !(bad && k % 4 == 0 && k + 1 == |plan|)
    requires it == Item(Walk(base, stride, p), plan[k].data) && ValidAddr(it.addr)
    requires ProgramOne(m, it)[Cell(it.addr)] == it.data
    ensures Ahead(m, plan, base, stride, whole, k, p, bad) ==
            Ahead(ProgramOne(m, it), plan, base, stride, whole, k + 1, p + 1, bad)
  {
  }

  lemma AheadMiss(m: Memory, plan: seq<Item>, base: u32, stride: int, whole: bool, k: nat, p: nat, bad: bool, it: Item)
    requires k < |plan| && !(bad && k % 4 == 0 && k + 1 == |plan|)
    requires it == Item(Walk(base, stride, p), plan[k].data) && ValidAddr(it.addr)
    requires ProgramOne(m, it)[Cell(it.addr)] != it.data
    ensures Ahead(m, plan, base, stride, whole, k, p, bad) ==
            Ahead(ProgramOne(m, it), plan, base, stride, whole, NextTry(|plan|, whole, k), p, true)
  {
  }

  /** An item reads back right exactly if it only needs bits that are still set. */
  lemma HitIfWithin(m: Memory, it: Item)
    ensures ProgramOne(m, it)[Cell(it.addr)] == it.data <==> Within(it.data, m[Cell(it.addr)])
  {
    AndCommutes(m[Cell(it.addr)], it.data);
  }

  /* ---- what a mismatch does to the rest ---- */

  /** The bytes of a plan from k on, at the addresses from p on. */
  function Shifted(plan: seq<Item>, base: u32, stride: int, k: nat, p: nat): seq<Item>
    decreases |plan| - k
  {
    if k >= |plan| then [] else [Item(Walk(base, stride, p), plan[k].data)] + Shifted(plan, base, stride, k + 1, p + 1)
  }

  /** Programmed one after the other, they pass the sector check and read back right. */
  predicate Lands(m: Memory, items: seq<Item>)
    decreases |items|
  {
    items == []
    || (ValidAddr(items[0].addr) && ProgramOne(m, items[0])[Cell(items[0].addr)] == items[0].data
        && Lands(ProgramOne(m, items[0]), items[1..]))
  }

  lemma {:induction false} ProgramFirst(m: Memory, it: Item, items: seq<Item>)
    ensures Program(m, [it] + items) == Program(ProgramOne(m, it), items)
  {
    if items == [] {
      ProgramMore(m, [], it);
      assert [] + [it] == [it] + items;
    } else {
      var init, last := items[..|items| - 1], items[|items| - 1];
      ProgramFirst(m, it, init);
      assert [it] + items == ([it] + init) + [last] && items == init + [last];
      ProgramMore(m, [it] + init, last);
      ProgramMore(ProgramOne(m, it), init, last);
    }
  }

  lemma {:induction false} AllLand(m: Memory, plan: seq<Item>, base: u32, stride: int, k: nat, p: nat, bad: bool)
    requires k <= |plan| && |plan| % 4 == 0 && Lands(m, Shifted(plan, base, stride, k, p))
    ensures Ahead(m, plan, base, stride, false, k, p, bad) ==
            Verdict(Program(m, Shifted(plan, base, stride, k, p)), p + |plan| - k, if bad then VerifyWrite else NoErr)
    decreases |plan| - k
  {
    if k < |plan| {
      var it := Item(Walk(base, stride, p), plan[k].data);
      var rest := Shifted(plan, base, stride, k + 1, p + 1);
      assert ([it] + rest)[1..] == rest;
      AllLand(ProgramOne(m, it), plan, base, stride, k + 1, p + 1, bad);
      ProgramFirst(m, it, rest);
    }
  }

  /** The first k bytes of a plan are where the walk puts them, inside the chip. */
  predicate Regular(plan: seq<Item>, base: u32, stride: int, k: nat)
    requires k <= |plan|
  {
    k == 0
    || (Regular(plan, base, stride, k - 1)
        && plan[k - 1].addr == Walk(base, stride, k - 1) && ValidAddr(plan[k - 1].addr))
  }

  lemma ProgramNext(m: Memory, plan: seq<Item>, k: nat)
    requires k < |plan|
    ensures Program(m, plan[..k + 1]) == ProgramOne(Program(m, plan[..k]), plan[k])
  {
    assert plan[..k] + [plan[k]] == plan[..k + 1];
    ProgramMore(m, plan[..k], plan[k]);
  }

  /** What fits goes by without a mismatch. */
  lemma {:induction false} AheadOf(m: Memory, plan: seq<Item>, base: u32, stride: int, whole: bool, k: nat)
    requires k <= |plan| && Fits(m, plan, k) && Regular(plan, base, stride, k)
    ensures Ahead(m, plan, base, stride, whole, 0, 0, false) ==
            Ahead(Program(m, plan[..k]), plan, base, stride, whole, k, k, false)
  {
    if k > 0 {
      AheadOf(m, plan, base, stride, whole, k - 1);
      ProgramNext(m, plan, k - 1);
      HitIfWithin(Program(m, plan[..k - 1]), plan[k - 1]);
      AheadHit(Program(m, plan[..k - 1]), plan, base, stride, whole, k - 1, k - 1, false, plan[k - 1]);
    } else {
      assert plan[..0] == [];
    }
  }

  lemma FirstMismatch(m: Memory, plan: seq<Item>, base: u32, stride: int, whole: bool, k: nat)
    requires k < |plan| && Fits(m, plan, k) && !Fits(m, plan, k + 1) && Regular(plan, base, stride, k + 1)
    ensures Ahead(m, plan, base, stride, whole, 0, 0, false) ==
            Ahead(Program(m, plan[..k + 1]), plan, base, stride, whole, NextTry(|plan|, whole, k), k, true)
  {
    AheadOf(m, plan, base, stride, whole, k);
    ProgramNext(m, plan, k);
    HitIfWithin(Program(m, plan[..k]), plan[k]);
    AheadMiss(Program(m, plan[..k]), plan, base, stride, whole, k, k, false, plan[k]);
  }

  lemma NextWord(k: nat, len: nat, next: nat)
    requires k < len && len % 4 == 0 && k < next <= k + 4 && next % 4 == 0
    ensures NextTry(len, false, k) == next <= len
  {
    assert next / 4 == k / 4 + 1;
  }

  /** After the first mismatch, at byte k of whole words, the rest of its word is left out, but all the
      words after it are written and compared, from the place of byte k on instead of their own. */
  lemma MismatchShifts(m: Memory, plan: seq<Item>, base: u32, stride: int, k: nat, next: nat)
    requires k < |plan| && |plan| % 4 == 0 && Regular(plan, base, stride, k + 1)
    requires Fits(m, plan, k) && !Fits(m, plan, k + 1)
    requires k < next <= k + 4 && next % 4 == 0
    requires Lands(Program(m, plan[..k + 1]), Shifted(plan, base, stride, next, k))
    ensures Ahead(m, plan, base, stride, false, 0, 0, false) ==
            Verdict(Program(Program(m, plan[..k + 1]), Shifted(plan, base, stride, next, k)), k + |plan| - next,
                    VerifyWrite)
  {
    NextWord(k, |plan|, next);
    FirstMismatch(m, plan, base, stride, false, k);
    AllLand(Program(m, plan[..k + 1]), plan, base, stride, next, k, true);
  }

  /** What is being verified, from which state of the device. */
  datatype Trial = Trial(core0: Core, alert: bool, plan: seq<Item>, base: u32, stride: int, whole: bool)

  function Foretold(t: Trial): Verdict {
    Ahead(t.core0.mem, t.plan, t.base, t.stride, t.whole, 0, 0, false)
  }

  /** What holds between attempts: of any device, what was changed; of one that was idle at the start,
      how the run is going; and of one that takes every write as well, that what is still to come from
      here gives the verdict of the whole. */
  ghost predicate Going(t: Trial, core: Core, done: seq<Item>, k: nat, p: nat, bad: bool) {
    && p <= k <= |t.plan|
    && OffWalkKept(t.core0, core, t.base, t.stride, done, |t.plan|)
    && (t.core0.job.Idle? ==> Run(t.core0.mem, core.mem, t.plan, t.base, t.stride, done, k, p, bad, t.alert))
    && (t.core0.job.Idle? && t.alert ==>
          Ahead(core.mem, t.plan, t.base, t.stride, t.whole, k, p, bad) == Foretold(t))
  }

  /** How it ends after a sector error. */
  ghost predicate Refused(t: Trial, core: Core, res: ErrorCode, done: seq<Item>, p: nat) {
    && res == InvalidSector && p < |t.plan| && !ValidAddr(Walk(t.base, t.stride, p))
    && OffWalkKept(t.core0, core, t.base, t.stride, done, |t.plan|)
    && (t.core0.job.Idle? && t.alert ==> Foretold(t) == Verdict(core.mem, p, res))
  }

  /** And otherwise. */
  ghost predicate Finished(t: Trial, core: Core, res: ErrorCode, done: seq<Item>, p: nat) {
    && (res == NoErr || res == VerifyWrite)
    && OffWalkKept(t.core0, core, t.base, t.stride, done, |t.plan|)
    && (t.core0.job.Idle? ==>
          Run(t.core0.mem, core.mem, t.plan, t.base, t.stride, done, |t.plan|, p, res == VerifyWrite, t.alert))
    && (t.core0.job.Idle? && t.alert ==> Foretold(t) == Verdict(core.mem, p, res))
  }

  /** The same invariant as a value, which loops pass on without looking inside. */
  type Progress = (Core, seq<Item>, nat, nat, bool) -> bool

  ghost predicate Tells(progress: Progress, t: Trial) {
    forall core: Core, done: seq<Item>, k: nat, p: nat, bad: bool {:trigger Going(t, core, done, k, p, bad)} ::
      progress(core, done, k, p, bad) == Going(t, core, done, k, p, bad)
  }

  /** One attempt at byte k, which goes on at byte `end` after a mismatch. */
  ghost predicate MayTry(t: Trial, k: nat, bad: bool, end: nat) {
    && k < end <= |t.plan| && (NextTry(|t.plan|, t.whole, k) == end || k + 1 == end == |t.plan|)
    && (bad ==> k % 4 != 0 || k + 1 < |t.plan|)
  }

  lemma InWord(t: Trial, k: nat, i: nat, bad: bool)
    requires !t.whole && k % 4 == 0 && i < 4 && k + 4 <= |t.plan|
    ensures MayTry(t, k + i, bad, k + 4)
  {
  }

  lemma TryStep(t: Trial, core1: Core, core: Core, done: seq<Item>, k: nat, p: nat, bad: bool, end: nat,
                it: Item, programmed: bool, same: bool)
    requires Going(t, core1, done, k, p, bad) && MayTry(t, k, bad, end)
    requires it == Item(Walk(t.base, t.stride, p), t.plan[k].data) && t.plan[k].addr == Walk(t.base, t.stride, k)
    requires ValidAddr(it.addr) && OneCompared(core1, core, it, programmed)
    requires core1.job.Idle? ==> same == (core.mem[Cell(it.addr)] == it.data) && (t.alert ==> programmed)
    ensures var done' := if programmed then done + [it] else done;
            if same then Going(t, core, done', k + 1, p + 1, bad) else Going(t, core, done', end, p, true)
  {
    var done' := if programmed then done + [it] else done;
    KeptStep(t.core0, core1, core, t.base, t.stride, done, |t.plan|, p, it, programmed);
    if t.core0.job.Idle? {
      RunStep(t.core0.mem, core1.mem, core.mem, t.plan, t.base, t.stride, done, k, p, bad, t.alert, it, programmed);
      if !same {
        RunLater(t.core0.mem, core.mem, t.plan, t.base, t.stride, done', k + 1, p, t.alert, end);
      }
      if t.alert {
        AheadStep(t, core1.mem, k, p, bad, end, it);
      }
    }
  }

  lemma AheadStep(t: Trial, m: Memory, k: nat, p: nat, bad: bool, end: nat, it: Item)
    requires MayTry(t, k, bad, end) && it == Item(Walk(t.base, t.stride, p), t.plan[k].data) && ValidAddr(it.addr)
    ensures var m' := ProgramOne(m, it);
            Ahead(m, t.plan, t.base, t.stride, t.whole, k, p, bad) ==
            if m'[Cell(it.addr)] == it.data then Ahead(m', t.plan, t.base, t.stride, t.whole, k + 1, p + 1, bad)
            else Ahead(m', t.plan, t.base, t.stride, t.whole, end, p, true)
  {
    if ProgramOne(m, it)[Cell(it.addr)] == it.data {
      AheadHit(m, t.plan, t.base, t.stride, t.whole, k, p, bad, it);
    } else {
      AheadMiss(m, t.plan, t.base, t.stride, t.whole, k, p, bad, it);
      if end == |t.plan| {
        assert Ahead(ProgramOne(m, it), t.plan, t.base, t.stride, t.whole, end, p, true)
            == Verdict(ProgramOne(m, it), p, VerifyWrite);
      }
    }
  }

  lemma TryRefused(t: Trial, core: Core, done: seq<Item>, k: nat, p: nat, bad: bool, end: nat)
    requires Going(t, core, done, k, p, bad) && MayTry(t, k, bad, end) && !ValidAddr(Walk(t.base, t.stride, p))
    ensures Refused(t, core, InvalidSector, done, p)
  {
  }

  /** At the end of the plan, or before a leftover that is not tried. */
  lemma AtEnd(t: Trial, core: Core, done: seq<Item>, k: nat, p: nat, bad: bool)
    requires Going(t, core, done, k, p, bad)
    requires k == |t.plan| || (bad && k % 4 == 0 && k + 1 == |t.plan|)
    ensures Finished(t, core, if bad then VerifyWrite else NoErr, done, p)
  {
    if bad && t.core0.job.Idle? {
      RunLater(t.core0.mem, core.mem, t.plan, t.base, t.stride, done, k, p, t.alert, |t.plan|);
    }
  }

  lemma AtStart(t: Trial)
    ensures Going(t, t.core0, [], 0, 0, false)
  {
    assert t.plan[..0] == [];
  }

  /** Sector check, program, read back, compare. */
  method TryByte(c: M25P16, value: int, addr: u32, sector0: int)
    returns (res: ErrorCode, sector: int, same: bool, ghost programmed: bool)
    requires !c.selected
    modifies c
    ensures !c.selected && (!Scan(old(c.log)).Broken? ==> !Scan(c.log).Broken?)
    ensures res == if ValidAddr(addr) then NoErr else InvalidSector
    ensures res != NoErr ==> c.core == old(c.core) && !programmed
    ensures res == NoErr ==> OneCompared(old(c.core), c.core, Item(addr, Low(value)), programmed)
    ensures res == NoErr && old(c.core).job.Idle? ==>
              same == (c.core.mem[Cell(addr)] == Low(value)) && (c.alert ==> programmed)
  {
    same, programmed := false, false;
    res, sector := GetSectorNumber(addr, sector0);
    if res == NoErr {
      same, programmed := WriteAndCompare(c, value, addr);
    }
  }

  /** The same as a step of a run: the block both loops share. */
  method CheckedByte(c: M25P16, value: int, addr: u32, sector0: int, ghost t: Trial, ghost progress: Progress,
                     ghost done0: seq<Item>, ghost k: nat, ghost p: nat, ghost bad: bool, ghost end: nat)
    returns (res: ErrorCode, sector: int, same: bool, ghost done: seq<Item>)
    requires !c.selected && Tells(progress, t) && t.alert == c.alert && MayTry(t, k, bad, end)
    requires progress(c.core, done0, k, p, bad) && addr == Walk(t.base, t.stride, p)
    requires t.plan[k] == Item(Walk(t.base, t.stride, k), Low(value))
    modifies c
    ensures !c.selected && (!Scan(old(c.log)).Broken? ==> !Scan(c.log).Broken?)
    ensures res == if ValidAddr(addr) then NoErr else InvalidSector
    ensures res != NoErr ==> Refused(t, c.core, res, done, p)
    ensures res == NoErr && same ==> progress(c.core, done, k + 1, p + 1, bad)
    ensures res == NoErr && !same ==> progress(c.core, done, end, p, true)
    ensures |done| <= |done0| + 1
    ensures res != NoErr ==> c.core == old(c.core) && done == done0
    ensures res == NoErr && old(c.core).job.Idle? && c.alert ==>
              c.core.mem == ProgramOne(old(c.core).mem, Item(addr, Low(value)))
  {
    ghost var core1 := c.core;
    assert Going(t, core1, done0, k, p, bad);
    ghost var programmed;
    res, sector, same, programmed := TryByte(c, value, addr, sector0);
    done := if programmed then done0 + [Item(addr, Low(value))] else done0;
    if res == NoErr {
      TryStep(t, core1, c.core, done0, k, p, bad, end, Item(addr, Low(value)), programmed, same);
    } else {
      TryRefused(t, core1, done0, k, p, bad, end);
    }
  }

  /** Byte i of a word: the body of the inner loop. */
  method VerifyByte(c: M25P16, w: int, i: nat, addr0: u32, stride: int, sector0: int, bad0: bool, ghost t: Trial,
                    ghost progress: Progress, ghost done0: seq<Item>, ghost k: nat, ghost p0: nat)
    returns (res: ErrorCode, addr: u32, sector: int, bad: bool, same: bool, ghost done: seq<Item>, ghost p: nat)
    requires !c.selected && Tells(progress, t) && t.alert == c.alert && t.stride == stride && !t.whole
    requires i < 4 && k % 4 == 0 && progress(c.core, done0, k + i, p0, bad0)
    requires WordPlanned(t.plan, t.base, stride, k, w) && addr0 == Walk(t.base, stride, p0)
    modifies c
    ensures !c.selected && (!Scan(old(c.log)).Broken? ==> !Scan(c.log).Broken?)
    ensures addr == Walk(t.base, stride, p)
    ensures res == NoErr ==> progress(c.core, done, k + if same then i + 1 else 4, p, bad)
    ensures res == NoErr && same ==> bad == bad0
    ensures res != NoErr ==> Refused(t, c.core, res, done, p)
  {
    assert t.plan[k + i] == Item(Walk(t.base, stride, k + i), ByteOf(w, i));
    InWord(t, k, i, bad0);
    res, sector, same, done := CheckedByte(c, Asr(w, 8 * i), addr0, sector0, t, progress, done0, k + i, p0, bad0,
                                           k + 4);
    if res != NoErr || !same {
      return res, addr0, sector, true, false, done, p0;
    }
    bad, addr, p := bad0, (addr0 + stride) % 0x1_0000_0000, p0 + 1;
  }

  /** The inner loop of the verified branch: four bytes of one word. */
  method VerifyWord(c: M25P16, w: int, addr0: u32, stride: int, sector0: int, bad0: bool, ghost t: Trial,
                    ghost progress: Progress, ghost done0: seq<Item>, ghost k: nat, ghost p0: nat)
    returns (res: ErrorCode, addr: u32, sector: int, bad: bool, ghost done: seq<Item>, ghost p: nat)
    requires !c.selected && Tells(progress, t) && t.alert == c.alert && t.stride == stride && !t.whole
    requires k % 4 == 0 && progress(c.core, done0, k, p0, bad0)
    requires WordPlanned(t.plan, t.base, stride, k, w) && addr0 == Walk(t.base, stride, p0)
    modifies c
    ensures !c.selected && (!Scan(old(c.log)).Broken? ==> !Scan(c.log).Broken?)
    ensures addr == Walk(t.base, stride, p)
    ensures res == NoErr ==> progress(c.core, done, k + 4, p, bad)
    ensures res != NoErr ==> Refused(t, c.core, res, done, p)
  {
    res, addr, sector, bad, done, p := NoErr, addr0, sector0, bad0, done0, p0;
    var i := 0;
    while i < 4 && res == NoErr
      invariant 0 <= i <= 4 && res == NoErr && !c.selected
      invariant !Scan(old(c.log)).Broken? ==> !Scan(c.log).Broken?
      invariant addr == Walk(t.base, stride, p)
      invariant progress(c.core, done, k + i, p, bad)
    {
      var same;
      res, addr, sector, bad, same, done, p := VerifyByte(c, w, i, addr, stride, sector, bad, t, progress, done, k, p);
      if res != NoErr || !same {
        return;
      }
      i := i + 1;
    }
  }

  /** The outer loop of the verified branch. */
  method VerifyWords(c: M25P16, base: u32, count: int, stride: int, data: array<int>, ghost t: Trial,
                     ghost progress: Progress)
    returns (res: ErrorCode, addr: u32, sector: int, bad: bool, ghost done: seq<Item>, ghost p: nat)
    requires !c.selected && Planned(t.plan, base, count, stride, data[..])
    requires Tells(progress, t) && t == Trial(c.core, c.alert, t.plan, base, stride, false)
    modifies c
    ensures !c.selected && (!Scan(old(c.log)).Broken? ==> !Scan(c.log).Broken?)
    ensures addr == Walk(base, stride, p)
    ensures res == NoErr ==> progress(c.core, done, 4 * Words(count), p, bad)
    ensures res != NoErr ==> Refused(t, c.core, res, done, p)
  {
    addr, sector, bad := base, 0, false;
    done, p := [], 0;
    res := NoErr;
    var i := 0;
    WordBound(count);
    AtStart(t);
    while i < CDiv4(count) && i < BUFFER_SIZE
      invariant 0 <= i <= Words(count) && res == NoErr && !c.selected
      invariant !Scan(old(c.log)).Broken? ==> !Scan(c.log).Broken?
      invariant addr == Walk(base, stride, p)
      invariant progress(c.core, done, 4 * i, p, bad)
    {
      assert WordPlanned(t.plan, base, stride, 4 * i, data[..][i]);
      res, addr, sector, bad, done, p := VerifyWord(c, data[i], addr, stride, sector, bad, t, progress, done, 4 * i, p);
      if res != NoErr {
        return;
      }
      i := i + 1;
    }
  }

  /** The leftover, which is not tried after a mismatch; and the result. */
  method VerifyAll(c: M25P16, base: u32, count: int, stride: int, data: array<int>, ghost t: Trial,
                   ghost progress: Progress)
    returns (res: ErrorCode, ghost done: seq<Item>, ghost p: nat)
    requires !c.selected && Planned(t.plan, base, count, stride, data[..])
    requires Tells(progress, t) && t == Trial(c.core, c.alert, t.plan, base, stride, false)
    modifies c
    ensures !c.selected && (!Scan(old(c.log)).Broken? ==> !Scan(c.log).Broken?)
    ensures Refused(t, c.core, res, done, p) || Finished(t, c.core, res, done, p)
  {
    var addr, sector, bad;
    WordBound(count);
    res, addr, sector, bad, done, p := VerifyWords(c, base, count, stride, data, t, progress);
    if res != NoErr {
      return;
    }
    ghost var k := 4 * Words(count);
    if CMod4(count) > 0 && !bad {
      assert Leftover(count) == 1 && data[..][Words(count)] == data[Words(count)];
      var same;
      res, sector, same, done := CheckedByte(c, data[Words(count)], addr, sector, t, progress, done, k, p, false,
                                             k + 1);
      if res != NoErr {
        return;
      }
      bad := !same;
      p := if same then p + 1 else p;
      k := k + 1;
    }
    assert Going(t, c.core, done, k, p, bad);
    AtEnd(t, c.core, done, k, p, bad);
    res := if bad then VerifyWrite else NoErr;
  }

  /** WriteData with verification on. */
  method WriteVerified(c: M25P16, start: u32, count: int, stride: int, data: array<int>, ghost plan: seq<Item>)
    returns (res: ErrorCode, ghost done: seq<Item>, ghost p: nat)
    requires !c.selected && Planned(plan, Base(start), count, stride, data[..])
    modifies c
    ensures !c.selected && (!Scan(old(c.log)).Broken? ==> !Scan(c.log).Broken?)
    ensures var t := Trial(old(c.core), c.alert, plan, Base(start), stride, false);
            Refused(t, c.core, res, done, p) || Finished(t, c.core, res, done, p)
  {
    ghost var t := Trial(c.core, c.alert, plan, Base(start), stride, false);
    ghost var progress: Progress := (core: Core, done: seq<Item>, k: nat, p: nat, bad: bool) =>
      Going(t, core, done, k, p, bad);
    res, done, p := VerifyAll(c, Base(start), count, stride, data, t, progress);
  }
}

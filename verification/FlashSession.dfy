/** Whole sessions of the flash programmer: sector map, erasing, round trip, and every run of
    commands. */
module FlashSession {
  import opened Bits
  import opened Chip
  import opened Protocol
  import opened Driver
  import opened Plan
  import opened Programmer
  import opened FlashData
  import FlashFill
  import FillVerify

  /* ---- the sector map ---- */

  datatype SectorLocation = SectorLocation(start: u32, end: u32)

  /** Fills in the location of each of the first n sectors; past the last sector of the device
      an entry keeps its value and the error is the one returned. */
  method GetSectorMap(n: nat, info: array<SectorLocation>) returns (res: ErrorCode)
    requires n <= info.Length
    modifies info
    ensures res == if n > NUM_SECTORS then InvalidSector else NoErr
    ensures forall i :: 0 <= i < info.Length ==>
              info[i] == if i < n && i < NUM_SECTORS
                         then SectorLocation(i * SECTOR, i * SECTOR + SECTOR - 1)
                         else old(info[i])
  {
    res := NoErr;
    var i := 0;
    while i < n
      invariant 0 <= i <= n
      invariant res == if i > NUM_SECTORS then InvalidSector else NoErr
      invariant forall k :: 0 <= k < info.Length ==>
                  info[k] == if k < i && k < NUM_SECTORS
                             then SectorLocation(k * SECTOR, k * SECTOR + SECTOR - 1)
                             else old(info[k])
    {
      var start: u32, end: u32;
      res, start, end := GetSectorStartEnd(i, info[i].start, info[i].end);
      info[i] := SectorLocation(start, end);
      i := i + 1;
    }
  }

  /** The sectors partition the device, and the sector a cell is in is the one of the map. */
  lemma SectorsPartition(info: seq<SectorLocation>, x: nat)
    requires |info| == NUM_SECTORS && x < SIZE
    requires forall i :: 0 <= i < NUM_SECTORS ==> info[i] == SectorLocation(i * SECTOR, i * SECTOR + SECTOR - 1)
    ensures forall i :: 0 <= i < NUM_SECTORS ==> (info[i].start <= x <= info[i].end <==> i == x / SECTOR)
    ensures forall m: Memory, i :: 0 <= i < NUM_SECTORS ==>
              SectorErased(m, i)[x] == if info[i].start <= x <= info[i].end then 0xFF else m[x]
  {
    forall i | 0 <= i < NUM_SECTORS
      ensures info[i].start <= x <= info[i].end <==> i == x / SECTOR
    {
      assert i * SECTOR <= x <= i * SECTOR + SECTOR - 1 <==> i == x / SECTOR;
    }
  }

  /* ---- erasing one sector ---- */

  /** The sector EraseBlock goes for: sector 0 if nBlock is not a sector number. */
  function Target(nBlock: int): nat { if ValidSector(nBlock) then nBlock else 0 }

  /** EraseBlock on any device, still erasing after an earlier time-out or not: with no error, that
      sector is erased and all else is as the running erase left it exactly if WREN was latched or
      WEL of an idle device was set; otherwise only the running erase, if any, has ended, and still
      no error is reported. */
  lemma EraseBlockExact(c0: Core, c: Core, nBlock: int, latched: bool)
    requires InOrPast(c, EraseGoal(c0, latched, EraseAddr(nBlock, FLASH_START_ADDR)))
    requires c.job.Idle?
    ensures c.mem == if latched || (c0.job.Idle? && c0.wel)
                     then SectorErased(Finish(c0).mem, Target(nBlock))
                     else Finish(c0).mem
  {
    EraseAddrIsSector(nBlock);
  }

  /** A time-out leaves that erase running and the contents as they were; or, on a device that was
      busy, the old one. WEL is still set. */
  lemma EraseBlockTimeout(c0: Core, c: Core, nBlock: int, latched: bool)
    requires InOrPast(c, EraseGoal(c0, latched, EraseAddr(nBlock, FLASH_START_ADDR)))
    requires !c.job.Idle?
    ensures if latched || c0.job.Idle?
            then (latched || c0.wel) && c == Core(Finish(c0).mem, true, EraseSector(Target(nBlock)))
            else c == c0
  {
    EraseAddrIsSector(nBlock);
  }

  /** A second try while the first erase is still running: WREN comes too early, and the end of the
      first erase is taken for success. */
  method EraseTwice(c: M25P16, n1: int, n2: int) returns (first: ErrorCode, second: ErrorCode, ghost latched: bool)
    requires !c.selected && c.core.job.Idle? && c.alert && ValidSector(n1) && ValidSector(n2)
    modifies c
    ensures !c.selected
    ensures first == NoErr && second == NoErr ==> c.core.mem == SectorErased(SectorErased(old(c.core).mem, n1), n2)
    ensures first != NoErr && second == NoErr ==>
              c.core.mem == if latched then SectorErased(SectorErased(old(c.core).mem, n1), n2)
                            else SectorErased(old(c.core).mem, n1)
  {
    ghost var polls, c0 := [], c.core;
    first, latched, polls := EraseBlock(c, n1, FLASH_START_ADDR);
    ghost var c1 := c.core;
    if first == NoErr {
      EraseBlockExact(c0, c1, n1, latched);
    } else {
      EraseBlockTimeout(c0, c1, n1, latched);
    }
    second, latched, polls := EraseBlock(c, n2, FLASH_START_ADDR);
    if second == NoErr {
      EraseBlockExact(c1, c.core, n2, latched);
    }
  }

  /** A write after an erase that timed out: if the device stays busy, every poll for WEL passes on
      the latch of the erase, all page programs are dropped, and no error is reported. */
  method StaleLatch(c: M25P16, nBlock: int, values: seq<int>, start: u32) returns (erased: ErrorCode, wrote: ErrorCode)
    requires !c.selected && c.core.job.Idle? && c.alert
    modifies c
    ensures !c.selected
    ensures erased != NoErr && !c.core.job.Idle? ==>
              wrote == NoErr && c.core == Core(old(c.core).mem, true, EraseSector(Target(nBlock)))
  {
    ghost var latched, polls, n, lost, c0 := false, [], 0, 0, c.core;
    erased, latched, polls := EraseBlock(c, nBlock, FLASH_START_ADDR);
    if erased != NoErr {
      EraseBlockTimeout(c0, c.core, nBlock, latched);
    }
    wrote, n, lost := m25p16_Write(c, values, start);
  }

  /** A bulk erase after an erase that timed out: with no error, everything is erased exactly if it
      was not late, that is, if the last poll for WEL showed the first erase over; if it was late,
      only that first erase has been done. */
  method StaleBulkErase(c: M25P16, nBlock: int) returns (erased: ErrorCode, all: ErrorCode, ghost lost: bool)
    requires !c.selected && c.core.job.Idle? && c.alert
    modifies c
    ensures !c.selected
    ensures Lates(c.log) == Lates(old(c.log)) + if lost then 1 else 0
    ensures lost ==> erased != NoErr
    ensures erased != NoErr && all == NoErr ==>
              c.core.mem == if lost then SectorErased(old(c.core).mem, Target(nBlock))
                            else Erased(old(c.core).mem, 0, SIZE)
  {
    ghost var latched, polls, c0 := false, [], c.core;
    erased, latched, polls := EraseBlock(c, nBlock, FLASH_START_ADDR);
    ghost var c1 := c.core;
    if erased != NoErr {
      EraseBlockTimeout(c0, c1, nBlock, latched);
      assert Erased(Finish(c1).mem, 0, SIZE) == Erased(c0.mem, 0, SIZE);
    }
    all, lost, polls := EraseFlash(c);
  }

  /* ---- round trip ---- */

  ghost predicate Blank(m: Memory, items: seq<Item>) {
    forall k :: 0 <= k < |items| ==> m[Cell(items[k].addr)] == 0xFF
  }

  lemma BlankFits(m: Memory, items: seq<Item>)
    requires Blank(m, items)
    ensures AllFit(m, items)
  {
    forall k | 0 <= k < |items|
      ensures Within(items[k].data, m[Cell(items[k].addr)])
    {
      AndOnes(items[k].data);
      AndCommutes(0xFF, items[k].data);
    }
  }

  /** WriteData over erased cells. */
  method WriteBlank(c: M25P16, verify: bool, start: u32, count: int, stride: int, data: array<int>)
    returns (res: ErrorCode)
    requires !c.selected && c.core.job.Idle? && data.Length >= Words(count) + Leftover(count)
    requires InRange(start, PlanLen(count), stride)
    requires Blank(c.core.mem, WritePlan(start, count, stride, data[..]))
    modifies c
    ensures !c.selected && c.core.job.Idle?
    ensures OnlyClears(old(c.core).mem, c.core.mem, WritePlan(start, count, stride, data[..]))
    ensures c.alert ==> res == NoErr
    ensures res == NoErr ==> InFlash(c.core.mem, WritePlan(start, count, stride, data[..]))
  {
    ghost var plan, m0 := WritePlan(start, count, stride, data[..]), c.core.mem;
    PlanFollows(start, count, stride, data[..]);
    BlankFits(m0, plan);
    ghost var n, lost;
    res, n, lost := WriteData(c, verify, start, count, stride, data);
    WriteOutcome(m0, c.core.mem, plan, n, res, verify, c.alert);
  }

  /** ReadData over a range that holds a plan. */
  method ReadPlan(c: M25P16, start: u32, count: int, stride: int, back: array<int>, ghost words: seq<int>)
    returns (res: ErrorCode)
    requires !c.selected && c.core.job.Idle? && back.Length >= Words(count) + Leftover(count)
    requires |words| >= Words(count) + Leftover(count) && forall i :: 0 <= i < |words| ==> Int32(words[i])
    requires InRange(start, PlanLen(count), stride)
    requires InFlash(c.core.mem, WritePlan(start, count, stride, words))
    modifies c, back
    ensures !c.selected && c.core == old(c.core) && res == NoErr
    ensures back[..Words(count)] == words[..Words(count)]
    ensures Leftover(count) == 1 ==>
              LeftIn(old(back[Words(count)]), back[Words(count)], words[Words(count)] % 0x100)
    ensures forall i :: Words(count) + Leftover(count) <= i < back.Length ==> back[i] == old(back[i])
  {
    ghost var back0 := back[..];
    ghost var full;
    PlanFollows(start, count, stride, words);
    res, full := ReadData(c, start, count, stride, back);
    ReadValid(WritePlan(start, count, stride, words), start, count, stride, full);
    Restored(words, back0, back[..], c.core.mem, start, count, stride);
  }

  /** WriteData and then ReadData with the same start, count and stride. */
  method WriteThenRead(c: M25P16, verify: bool, start: u32, count: int, stride: int, data: array<int>, back: array<int>)
    returns (wrote: ErrorCode, read: ErrorCode)
    requires !c.selected && c.core.job.Idle? && data != back
    requires data.Length >= Words(count) + Leftover(count) && back.Length >= Words(count) + Leftover(count)
    requires InRange(start, PlanLen(count), stride)
    requires forall i :: 0 <= i < data.Length ==> Int32(data[i])
    requires Blank(c.core.mem, WritePlan(start, count, stride, data[..]))
    modifies c, back
    ensures OnlyClears(old(c.core).mem, c.core.mem, WritePlan(start, count, stride, data[..]))
    ensures c.alert ==> wrote == NoErr
    ensures wrote == NoErr ==> read == NoErr
    ensures wrote == NoErr ==> back[..Words(count)] == data[..Words(count)]
    ensures wrote == NoErr && Leftover(count) == 1 ==>
              LeftIn(old(back[Words(count)]), back[Words(count)], data[Words(count)] % 0x100)
  {
    wrote := WriteBlank(c, verify, start, count, stride, data);
    read := NoErr;
    if wrote == NoErr {
      read := ReadPlan(c, start, count, stride, back, data[..]);
    }
  }

  /** What either kind of write has done by the time it returns. */
  lemma WriteOutcome(m0: Memory, m: Memory, plan: seq<Item>, n: nat, res: ErrorCode, verify: bool, alert: bool)
    requires DistinctCells(plan) && AllValid(plan) && AllFit(m0, plan)
    requires if verify then VerifiedOutcome(res, m0, m, plan, alert)
             else n <= |plan| && Outcome(res, alert, plan, n) && m == Program(m0, plan[..n])
    ensures OnlyClears(m0, m, plan) && (alert ==> res == NoErr)
    ensures res == NoErr ==> InFlash(m, plan)
  {
    if !verify {
      PrefixOnlyClears(m0, plan, 0, n);
      if res == NoErr {
        assert plan[..n] == plan;
        FitLands(m0, plan);
      }
    }
  }

  /** No read address of a valid plan is refused. */
  lemma ReadValid(plan: seq<Item>, start: u32, count: int, stride: int, full: nat)
    requires |plan| == PlanLen(count) && AllValid(plan) && Follows(plan, Base(start), stride)
    requires full <= Words(count)
    ensures full < Words(count) || Leftover(count) == 1 ==> ValidAddr(Walk(Base(start), stride, 4 * full))
  {
    if full < Words(count) || Leftover(count) == 1 {
      assert plan[4 * full].addr == Walk(Base(start), stride, 4 * full);
    }
  }

  lemma Restored(words: seq<int>, back0: seq<int>, back: seq<int>, m: Memory, start: u32, count: int, stride: int)
    requires |words| >= Words(count) + Leftover(count)
    requires forall i :: 0 <= i < |words| ==> Int32(words[i])
    requires InFlash(m, WritePlan(start, count, stride, words))
    requires Filled(back0, back, m, Base(start), stride, Words(count), Leftover(count) == 1)
    ensures back[..Words(count)] == words[..Words(count)]
    ensures Leftover(count) == 1 ==>
              LeftIn(back0[Words(count)], back[Words(count)], words[Words(count)] % 0x100)
  {
    ReadBack(m, start, count, stride, words);
  }

  /* ---- erase, write, read ---- */

  /** The whole walk of a write lies in one sector. */
  predicate InSector(n: int, start: u32, len: nat, stride: int) {
    && ValidSector(n) && stride >= 1
    && (len > 0 ==> n * SECTOR <= start && start + (len - 1) * stride < n * SECTOR + SECTOR)
  }

  lemma SectorHits(n: int, start: u32, count: int, stride: int, words: seq<int>)
    requires |words| >= Words(count) + Leftover(count) && InSector(n, start, PlanLen(count), stride)
    ensures InRange(start, PlanLen(count), stride)
    ensures forall k :: 0 <= k < PlanLen(count) ==>
              n * SECTOR <= Cell(WritePlan(start, count, stride, words)[k].addr) < n * SECTOR + SECTOR
  {
    var plan := WritePlan(start, count, stride, words);
    PlanInRange(start, count, stride, words);
    forall k | 0 <= k < PlanLen(count)
      ensures n * SECTOR <= Cell(plan[k].addr) < n * SECTOR + SECTOR
    {
      StrideGap(0, k, stride);
      StrideGap(k, PlanLen(count) - 1, stride);
    }
  }

  /** Clearing bits of the plan only, from an erased sector on, stays in that sector. */
  lemma StaysInSector(m0: Memory, m: Memory, n: int, plan: seq<Item>)
    requires ValidSector(n) && OnlyClears(SectorErased(m0, n), m, plan)
    requires forall k :: 0 <= k < |plan| ==> n * SECTOR <= Cell(plan[k].addr) < n * SECTOR + SECTOR
    ensures forall x :: 0 <= x < SIZE && x / SECTOR != n ==> m[x] == m0[x]
  {
    forall x | 0 <= x < SIZE && x / SECTOR != n
      ensures m[x] == m0[x]
    {
      assert !(n * SECTOR <= x < n * SECTOR + SECTOR);
      assert !Hit(plan, x);
    }
  }

  /** EraseBlock, WriteData and ReadData on one sector of any contents: unless the erase times out,
      the data come back, and no other sector has changed. */
  method EraseWriteRead(c: M25P16, verify: bool, n: int, start: u32, count: int, stride: int,
                        data: array<int>, back: array<int>)
    returns (erased: ErrorCode, wrote: ErrorCode, read: ErrorCode)
    requires !c.selected && c.core.job.Idle? && c.alert && data != back
    requires data.Length >= Words(count) + Leftover(count) && back.Length >= Words(count) + Leftover(count)
    requires forall i :: 0 <= i < data.Length ==> Int32(data[i])
    requires InSector(n, start, PlanLen(count), stride)
    modifies c, back
    ensures forall x :: 0 <= x < SIZE && x / SECTOR != n ==> c.core.mem[x] == old(c.core).mem[x]
    ensures erased == NoErr ==> wrote == read == NoErr && back[..Words(count)] == data[..Words(count)]
    ensures erased == NoErr && Leftover(count) == 1 ==>
              LeftIn(old(back[Words(count)]), back[Words(count)], data[Words(count)] % 0x100)
    ensures erased != NoErr ==> c.core.mem == old(c.core).mem && c.core.job == EraseSector(n)
  {
    ghost var c0 := c.core;
    ghost var latched, polls;
    erased, latched, polls := EraseBlock(c, n, FLASH_START_ADDR);
    wrote, read := erased, erased;
    if erased != NoErr {
      EraseBlockTimeout(c0, c.core, n, latched);
    } else {
      EraseBlockExact(c0, c.core, n, latched);
      SectorHits(n, start, count, stride, data[..]);
      ghost var plan := WritePlan(start, count, stride, data[..]);
      wrote, read := WriteThenRead(c, verify, start, count, stride, data, back);
      StaysInSector(c0.mem, c.core.mem, n, plan);
    }
  }

  /* ---- every run ---- */

  /** A command, with the buffer it works on. */
  datatype Request =
    | WriteReq(verify: bool, start: u32, count: int, stride: int, words: seq<int>)
    | FillReq(verify: bool, start: u32, count: int, stride: int, word: int)
    | ReadReq(start: u32, count: int, stride: int, words: seq<int>)
    | EraseAllReq
    | EraseSectorReq(n: int)
    | CodesReq
    | ResetReq

  /** The buffer of a write or read has room for what the count asks for. */
  predicate Served(r: Request) {
    r.WriteReq? || r.ReadReq? ==> |r.words| >= Words(r.count) + Leftover(r.count)
  }

  /** How far a command got: the bytes reached, lost, programmed and read back right, whether a fill had
      begun or a bulk erase was lost, and whether WREN was latched. */
  datatype Report = Report(n: nat, lost: nat, done: seq<Item>, p: nat, begun: bool, latched: bool)

  /** What each command does to the device, from any state, and its result. */
  ghost predicate Effect(r: Request, log0: seq<Frame>, core0: Core, c: M25P16, res: ErrorCode, data: seq<int>,
                         at: Report)
    reads c
  {
    match r
    case WriteReq(verify, start, count, stride, words) =>
      Served(r) && WriteEffect(verify, start, count, stride, words, log0, core0, c, res, at)
    case FillReq(verify, start, count, stride, word) =>
      if verify then FillVerify.FillCompared(core0, c, start, count, stride, word, res, at.done, at.p, at.begun)
      else FlashFill.FillWritten(log0, core0, c, start, count, stride, word, res, at.n, at.lost, at.begun)
    case ReadReq(start, count, stride, words) =>
      && InOrPast(c.core, core0) && Programs(c.log) == Programs(log0)
      && (res == NoErr || res == InvalidSector) && (res == NoErr ==> at.n == Words(count))
      && (core0.job.Idle? ==>
            Filled(words, data, c.core.mem, Base(start), stride, at.n, res == NoErr && Leftover(count) == 1))
    case EraseAllReq =>
      && Programs(c.log) == Programs(log0) && (at.begun ==> !core0.job.Idle?)
      && Lates(c.log) == Lates(log0) + (if at.begun then 1 else 0)
      && (res == NoErr ==>
            && c.core.job.Idle?
            && c.core.mem == if at.begun then Finish(core0).mem else Erased(Finish(core0).mem, 0, SIZE))
    case EraseSectorReq(n) =>
      && Programs(c.log) == Programs(log0) && (res == NoErr <==> c.core.job.Idle?)
      && (c.alert && core0.job.Idle? ==> at.latched)
      && InOrPast(c.core, EraseGoal(core0, at.latched, EraseAddr(n, FLASH_START_ADDR)))
    case CodesReq =>
      res == NoErr && c.log == log0 + [Ident] && InOrPast(c.core, core0)
    case ResetReq =>
      res == PollTimeout && (c.core == core0 || c.core == Finish(core0).(wel := false))
  }

  ghost predicate WriteEffect(verify: bool, start: u32, count: int, stride: int, words: seq<int>, log0: seq<Frame>,
                              core0: Core, c: M25P16, res: ErrorCode, at: Report)
    requires |words| >= Words(count) + Leftover(count)
    reads c
  {
    var plan := WritePlan(start, count, stride, words);
    && OnlyPlanned(core0, c.core, plan)
    && (!verify ==>
          Wrote(log0, core0, c, plan, at.n, at.lost) && Outcome(res, core0.job.Idle? && c.alert, plan, at.n))
    && (verify && core0.job.Idle? && InRange(start, PlanLen(count), stride) ==>
          VerifiedOutcome(res, core0.mem, c.core.mem, plan, c.alert))
    && (verify && core0.job.Idle? && c.alert ==>
          AsForetold(core0.mem, c.core.mem, plan, Base(start), stride, false, res))
  }

  /** BUFFER_SIZE bytes are allocated for a buffer of ints. */
  const BUFFER_INTS := BUFFER_SIZE / 4

  /** The words a count asks for fit that buffer exactly up to a count of BUFFER_SIZE; the bound in
      the loops would only stop at four times as much. */
  lemma BufferHolds(count: int)
    ensures Words(count) + Leftover(count) <= 0xC00 <==> count <= 0x3000
    ensures Words(count) == 0x3000 <==> count >= 0xC000
    ensures BUFFER_INTS == 0xC00
  {
  }

  function Nothing(): Report { Report(0, 0, [], 0, false, false) }

  /** The commands that take a buffer. */
  method ProcessData(c: M25P16, r: Request) returns (res: ErrorCode, data: seq<int>, ghost at: Report)
    requires !c.selected && Served(r) && (r.WriteReq? || r.FillReq? || r.ReadReq?)
    modifies c
    ensures !c.selected && (!Scan(old(c.log)).Broken? ==> !Scan(c.log).Broken?)
    ensures Effect(r, old(c.log), old(c.core), c, res, data, at)
  {
    at := Nothing();
    data := [];
    match r {
      case WriteReq(verify, start, count, stride, words) =>
        var buffer := new int[|words|](i requires 0 <= i < |words| => words[i]);
        assert buffer[..] == words;
        ghost var n, lost;
        res, n, lost := WriteData(c, verify, start, count, stride, buffer);
        at := at.(n := n, lost := lost);
      case FillReq(verify, start, count, stride, word) =>
        var buffer := new int[1](_ => word);
        ghost var n, lost, begun, done, p;
        res, n, lost, begun, done, p := FillVerify.FillData(c, verify, start, count, stride, buffer);
        at := at.(n := n, lost := lost, begun := begun, done := done, p := p);
      case ReadReq(start, count, stride, words) =>
        var buffer := new int[|words|](i requires 0 <= i < |words| => words[i]);
        assert buffer[..] == words;
        ghost var n;
        res, n := ReadData(c, start, count, stride, buffer);
        data, at := buffer[..], at.(n := n);
    }
  }

  /** Every command keeps the log safe and has its effect. */
  method ProcessCommand(c: M25P16, r: Request) returns (res: ErrorCode, data: seq<int>, ghost at: Report)
    requires !c.selected && Served(r) && Safe(c.log)
    modifies c
    ensures !c.selected && Safe(c.log)
    ensures Effect(r, old(c.log), old(c.core), c, res, data, at)
  {
    MonitorExact(c.log);
    data, at := [], Nothing();
    match r {
      case EraseAllReq =>
        ghost var lost, polls;
        res, lost, polls := EraseFlash(c);
        at := at.(begun := lost);
      case EraseSectorReq(n) =>
        ghost var latched, polls;
        res, latched, polls := EraseBlock(c, n, FLASH_START_ADDR);
        at := at.(latched := latched);
      case CodesReq =>
        var man, dev := GetCodes(c);
        ScanPush(old(c.log), Ident);
        res := NoErr;
      case ResetReq =>
        res := ResetFlash(c);
      case _ =>
        res, data, at := ProcessData(c, r);
    }
    MonitorExact(c.log);
  }

  /** From power up, any sequence of commands, with any memory contents, any refusals of WREN
      and any erase times, leaves a log in which every program and erase frame is enabled. */
  method Session(m: Memory, alert: bool, requests: seq<Request>) returns (c: M25P16)
    requires forall i :: 0 <= i < |requests| ==> Served(requests[i])
    ensures fresh(c) && !c.selected && Safe(c.log)
  {
    c := new M25P16(m, alert);
    for i := 0 to |requests|
      invariant fresh(c) && !c.selected && Safe(c.log)
    {
      var res, data;
      ghost var at;
      res, data, at := ProcessCommand(c, requests[i]);
    }
  }
}

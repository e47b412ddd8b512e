/** The flash driver (m25p16.c): frames on the bus, bounded polls, and the operations on top. */
module Driver {
  import opened Bits
  import opened Chip
  import opened Protocol

  datatype ErrorCode = NoErr | PollTimeout | InvalidSector | VerifyWrite

  const WREN: byte := 0x06
  const WRDI: byte := 0x04
  const RDID: byte := 0x9F
  const RDSR: byte := 0x05
  const READ: byte := 0x03
  const PP: byte := 0x02
  const SE: byte := 0xD8
  const BE: byte := 0xC7

  const NUM_SECTORS := 32
  const WEL_POLLS := 35
  const STATUS_POLLS := 35000 * 64

  /** One byte to be programmed. */
  datatype Item = Item(addr: u32, data: byte)

  /** The low byte of a value. */
  function Low(value: int): byte { value % 0x100 }

  lemma DivDiv(w: int)
    ensures w / 0x1_0000 == w / 0x100 / 0x100
    ensures w / 0x100_0000 == w / 0x1_0000 / 0x100
    ensures w / 0x1_0000_0000 == w / 0x100_0000 / 0x100
  {
  }

  lemma LowOfShort(x: int)
    ensures x % 0x1_0000 % 0x100 == x % 0x100
  {
  }

  lemma CellWrap(a: nat)
    ensures Cell(a % 0x1_0000_0000) == Cell(a)
    ensures Cell(a % 0x100_0000) == Cell(a)
  {
  }

  function Next(a: u32): u32 { (a + 1) % 0x1_0000_0000 }

  lemma NextAfter(start: u32, i: nat)
    ensures Next((start + i) % 0x1_0000_0000) == (start + i + 1) % 0x1_0000_0000
  {
  }

  /** The frame that programs an item: only 24 address bits reach the chip. */
  function FrameOf(it: Item): Frame { Pp(it.addr % 0x100_0000, it.data) }

  function FramesOf(items: seq<Item>): seq<Frame> {
    if items == [] then [] else FramesOf(items[..|items| - 1]) + [FrameOf(items[|items| - 1])]
  }

  /** The page-program frames of a log, in order. */
  function Programs(log: seq<Frame>): seq<Frame> {
    if log == [] then []
    else
      var f := log[|log| - 1];
      Programs(log[..|log| - 1]) + if f.Pp? then [f] else []
  }

  lemma ProgramsPush(log: seq<Frame>, f: Frame)
    ensures Programs(log + [f]) == Programs(log) + if f.Pp? then [f] else []
  {
    assert (log + [f])[..|log|] == log;
  }

  /** A page program or bulk erase right after a status read that showed WIP. */
  predicate Late(log: seq<Frame>, f: Frame) {
    (f.Pp? || f.Be?) && log != [] && log[|log| - 1].Rdsr? && log[|log| - 1].wip
  }

  /** How many frames of a log are late. */
  function Lates(log: seq<Frame>): nat {
    if log == [] then 0
    else
      var init := log[..|log| - 1];
      Lates(init) + if Late(init, log[|log| - 1]) then 1 else 0
  }

  lemma LogPush(log: seq<Frame>, f: Frame)
    ensures Scan(log + [f]) == Step(Scan(log), f)
    ensures Programs(log + [f]) == Programs(log) + if f.Pp? then [f] else []
    ensures Lates(log + [f]) == Lates(log) + if Late(log, f) then 1 else 0
  {
    ScanPush(log, f);
    ProgramsPush(log, f);
    assert (log + [f])[..|log|] == log;
  }

  /** Programming items one after the other: a program cycle can only clear bits. */
  function Program(m: Memory, items: seq<Item>): Memory {
    if items == [] then m
    else
      var it := items[|items| - 1];
      var before := Program(m, items[..|items| - 1]);
      before[Cell(it.addr) := And(before[Cell(it.addr)], it.data)]
  }

  /* ---- the SPI primitives ---- */

  predicate WrenOpen(c: M25P16)
    reads c
  {
    c.selected && c.rx == [WREN]
  }

  /** Raises chip select, which closes a frame left open, and lowers it again. */
  method SetupSPI(c: M25P16)
    requires !WrenOpen(c)
    modifies c
    ensures c.selected && c.rx == []
    ensures c.log == old(c.ClosedLog())
    ensures c.core == old(c.Closed()) || c.core == Finish(old(c.Closed()))
  {
    ghost var _ := c.Deselect();
    c.Select();
  }

  /** The 16-bit value goes to an 8-bit SPI, so its low byte is sent. */
  method WriteFlash(c: M25P16, value: int)
    requires c.selected
    modifies c
    ensures c.selected && c.core == old(c.core) && c.log == old(c.log)
    ensures c.rx == old(c.rx) + [Low(value)]
  {
    var usValue := value % 0x1_0000;
    LowOfShort(value);
    var _ := c.Shift(Low(usValue));
  }

  method ReadFlash(c: M25P16) returns (value: byte)
    requires c.selected
    modifies c
    ensures c.selected && c.core == old(c.core) && c.log == old(c.log)
    ensures c.rx == old(c.rx) + [0]
    ensures |old(c.rx)| == 1 && old(c.rx)[0] == RDSR ==> value == Status(c.core)
    ensures |old(c.rx)| == 4 && old(c.rx)[0] == READ && c.core.job.Idle? ==>
              value == c.core.mem[Cell(Address(old(c.rx)))]
  {
    value := c.Shift(0);
  }

  lemma AddressBytes(a: u32, rx: seq<byte>)
    requires |rx| >= 4
    requires rx[1] == Low(a / 0x1_0000) && rx[2] == Low(a / 0x100) && rx[3] == Low(a)
    ensures Address(rx) == a % 0x100_0000
    ensures Cell(Address(rx)) == Cell(a)
  {
    ThreeBytes(a);
    CellWrap(a);
  }

  lemma ThreeBytes(a: u32)
    ensures (a / 0x1_0000) % 0x100 * 0x1_0000 + (a / 0x100) % 0x100 * 0x100 + a % 0x100 == a % 0x100_0000
  {
    DivDiv(a);
  }

  /** An instruction byte and a three-byte address in a new frame. */
  method StartFrame(c: M25P16, instruction: byte, a: u32)
    requires !WrenOpen(c)
    modifies c
    ensures c.selected && |c.rx| == 4 && c.rx[0] == instruction
    ensures Address(c.rx) == a % 0x100_0000 && Cell(Address(c.rx)) == Cell(a)
    ensures c.log == old(c.ClosedLog())
    ensures c.core == old(c.Closed()) || c.core == Finish(old(c.Closed()))
  {
    SetupSPI(c);
    WriteFlash(c, instruction);
    WriteFlash(c, a / 0x1_0000);
    WriteFlash(c, a / 0x100);
    WriteFlash(c, a);
    AddressBytes(a, c.rx);
  }

  /** A frame of one instruction byte. Only a device that is idle by the end of the frame can
      latch WREN. */
  method SendSingleCommand(c: M25P16, instruction: byte) returns (ghost latched: bool)
    requires !c.selected
    requires instruction == WREN || instruction == BE || instruction == WRDI
    modifies c
    ensures !c.selected
    ensures var f := if instruction == WREN then Wren(latched) else if instruction == BE then Be else Wrdi;
            && c.log == old(c.log) + [f]
            && (c.core == Apply(old(c.core), f) || c.core == Apply(Finish(old(c.core)), f))
    ensures instruction == WREN && latched ==> c.core == Finish(old(c.core)).(wel := true)
    ensures c.alert && old(c.core).job.Idle? ==> latched
  {
    SetupSPI(c);
    WriteFlash(c, instruction);
    assert c.rx == [instruction];
    latched := c.Deselect();
  }

  method ReadStatusRegister(c: M25P16) returns (status: byte)
    requires !WrenOpen(c)
    modifies c
    ensures !c.selected
    ensures c.core == old(c.Closed()) || c.core == Finish(old(c.Closed()))
    ensures c.log == old(c.ClosedLog()) + [Rdsr(!c.core.job.Idle?, c.core.wel)]
    ensures status == Status(c.core)
  {
    SetupSPI(c);
    WriteFlash(c, RDSR);
    status := ReadFlash(c);
    ghost var _ := c.Deselect();
  }

  ghost predicate Polls(s: seq<Frame>) {
    forall i :: 0 <= i < |s| ==> s[i].Rdsr?
  }

  const WIP := 1
  const WEL := 2

  lemma StatusBits(c: Core)
    ensures And(Status(c), WIP) != 0 <==> !c.job.Idle?
    ensures And(Status(c), WEL) != 0 <==> c.wel
  {
    assert And(1, 1) == 1 && And(2, 1) == 0 && And(3, 1) == 1;
    assert And(1, 2) == 0 && And(2, 2) == 2 && And(3, 2) == 2;
  }

  /** At most 35 polls for the write enable latch. */
  method WaitForWel(c: M25P16) returns (res: ErrorCode, ghost polls: seq<Frame>)
    requires !c.selected
    modifies c
    ensures !c.selected
    ensures c.core == old(c.core) || c.core == Finish(old(c.core))
    ensures c.log == old(c.log) + polls && Polls(polls) && 0 < |polls| <= 35
    ensures res == NoErr || res == PollTimeout
    ensures res == NoErr <==> polls[|polls| - 1].wel
    ensures res == NoErr ==> c.core.wel
    ensures polls[|polls| - 1] == Rdsr(!c.core.job.Idle?, c.core.wel)
    ensures res == PollTimeout <==> |polls| == 35 && forall i :: 0 <= i < |polls| ==> !polls[i].wel
    ensures old(c.core).wel && c.core == old(c.core) ==> res == NoErr
  {
    res, polls := NoErr, [];
    var i := 0;
    while i < WEL_POLLS
      invariant 0 <= i <= WEL_POLLS && !c.selected
      invariant c.core == old(c.core) || c.core == Finish(old(c.core))
      invariant c.log == old(c.log) + polls && Polls(polls) && |polls| == i
      invariant forall k :: 0 <= k < i ==> !polls[k].wel
      invariant i > 0 ==> res == PollTimeout && polls[i - 1] == Rdsr(!c.core.job.Idle?, c.core.wel)
      invariant old(c.core).wel && c.core == old(c.core) ==> i == 0
    {
      var status := ReadStatusRegister(c);
      polls := polls + [Rdsr(!c.core.job.Idle?, c.core.wel)];
      StatusBits(c.core);
      if And(status, WEL) != 0 {
        res := NoErr;
        break;
      }
      res := PollTimeout;
      i := i + 1;
    }
  }

  /** At most 35000*64 polls until the device is no longer busy. The first poll closes
      a frame that is still open. */
  method WaitForStatus(c: M25P16) returns (res: ErrorCode, ghost polls: seq<Frame>)
    requires !WrenOpen(c)
    modifies c
    ensures !c.selected
    ensures c.core == old(c.Closed()) || c.core == Finish(old(c.Closed()))
    ensures c.log == old(c.ClosedLog()) + polls && Polls(polls) && 0 < |polls| <= 2_240_000
    ensures res == NoErr || res == PollTimeout
    ensures res == PollTimeout <==> |polls| == 2_240_000 && forall i :: 0 <= i < |polls| ==> polls[i].wip
    ensures res == NoErr <==> c.core.job.Idle?
  {
    res, polls := NoErr, [];
    var i := 0;
    while i < STATUS_POLLS
      invariant 0 <= i <= STATUS_POLLS
      invariant i == 0 ==> c.selected == old(c.selected) && c.rx == old(c.rx)
      invariant i == 0 ==> c.core == old(c.core) && c.log == old(c.log)
      invariant i > 0 ==> !c.selected && c.core == old(c.Closed()) && !c.core.job.Idle? && res == PollTimeout
      invariant i > 0 ==> c.log == old(c.ClosedLog()) + polls
      invariant Polls(polls) && |polls| == i && forall k :: 0 <= k < i ==> polls[k].wip
    {
      var status := ReadStatusRegister(c);
      polls := polls + [Rdsr(!c.core.job.Idle?, c.core.wel)];
      StatusBits(c.core);
      if And(status, WIP) == 0 {
        res := NoErr;
        assert !polls[i].wip;
        break;
      }
      res := PollTimeout;
      i := i + 1;
    }
  }

  /** Polls leave the monitor armed and add no program frame. */
  lemma {:induction false} AfterPolls(log: seq<Frame>, polls: seq<Frame>)
    requires Polls(polls)
    ensures Programs(log + polls) == Programs(log) && Lates(log + polls) == Lates(log)
    ensures Scan(log).Broken? <==> Scan(log + polls).Broken?
    ensures Scan(log).Armed? <==> Scan(log + polls).Armed?
    ensures |polls| > 0 && Scan(log).Armed? ==> Scan(log + polls) == Armed(polls[|polls| - 1].wel)
  {
    if polls == [] {
      assert log + polls == log;
    } else {
      var init, f := polls[..|polls| - 1], polls[|polls| - 1];
      AfterPolls(log, init);
      assert log + polls == (log + init) + [f];
      LogPush(log + init, f);
    }
  }

  /* ---- reading ---- */

  /** One READ frame for one location. */
  method ReadOne(c: M25P16, addr: u32) returns (value: byte)
    requires !c.selected
    modifies c
    ensures !c.selected
    ensures Programs(c.log) == Programs(old(c.log))
    ensures Scan(c.log).Broken? <==> Scan(old(c.log)).Broken?
    ensures c.core == old(c.core) || c.core == Finish(old(c.core))
    ensures old(c.core).job.Idle? ==> value == c.core.mem[Cell(addr)]
  {
    ghost var log := c.log;
    StartFrame(c, READ, addr);
    value := ReadFlash(c);
    ghost var f := Parse(c.core, c.rx, false);
    ghost var _ := c.Deselect();
    LogPush(log, f);
  }

  /** Reads `count` consecutive locations, one frame each. */
  method m25p16_Read(c: M25P16, start: u32, count: nat) returns (data: seq<byte>)
    requires !c.selected
    modifies c
    ensures !c.selected && |data| == count
    ensures Programs(c.log) == Programs(old(c.log))
    ensures Scan(c.log).Broken? <==> Scan(old(c.log)).Broken?
    ensures c.core == old(c.core) || c.core == Finish(old(c.core))
    ensures old(c.core).job.Idle? ==>
              forall k :: 0 <= k < count ==> data[k] == c.core.mem[Cell(start + k)]
  {
    data := [];
    var addr := start;
    for i := 0 to count
      invariant !c.selected && |data| == i && addr == (start + i) % 0x1_0000_0000
      invariant Programs(c.log) == Programs(old(c.log))
      invariant Scan(c.log).Broken? <==> Scan(old(c.log)).Broken?
      invariant c.core == old(c.core) || c.core == Finish(old(c.core))
      invariant old(c.core).job.Idle? ==>
                  forall k :: 0 <= k < i ==> data[k] == c.core.mem[Cell(start + k)]
    {
      CellWrap(start + i);
      var value := ReadOne(c, addr);
      data := data + [value];
      NextAfter(start, i);
      addr := Next(addr);
    }
  }

  /* ---- programming ---- */

  function Items(values: seq<int>, start: u32): seq<Item> {
    seq(|values|, k requires 0 <= k < |values| =>
      Item((start + k) % 0x1_0000_0000, Low(values[k])))
  }

  /** The WREN frame and the poll for WEL that page program and bulk erase start with. A device
      that stays busy ignores the one and passes the other on the latch of its erase. */
  method EnableWrite(c: M25P16) returns (res: ErrorCode)
    requires !c.selected
    modifies c
    ensures !c.selected && (res == NoErr || res == PollTimeout)
    ensures Programs(c.log) == Programs(old(c.log)) && Lates(c.log) == Lates(old(c.log))
    ensures c.log != [] && c.log[|c.log| - 1] == Rdsr(!c.core.job.Idle?, c.core.wel)
    ensures !Scan(old(c.log)).Broken? ==> !Scan(c.log).Broken? && (res == NoErr ==> Scan(c.log) == Armed(true))
    ensures c.core.job.Idle? ==> c.core == Finish(old(c.core)).(wel := c.core.wel)
    ensures !c.core.job.Idle? ==> c.core == old(c.core) && (old(c.core).wel ==> res == NoErr)
    ensures res == NoErr ==> c.core.wel
    ensures c.alert && old(c.core).job.Idle? ==> res == NoErr
  {
    ghost var log := c.log;
    ghost var latched := SendSingleCommand(c, WREN);
    LogPush(log, Wren(latched));
    ghost var log1 := c.log;
    ghost var polls;
    res, polls := WaitForWel(c);
    AfterPolls(log1, polls);
    assert c.log[|c.log| - 1] == polls[|polls| - 1];
  }

  /** What a write of one item leaves of a device, busy at the call or not: `lost` if the page
      program came right after a status read that showed the device busy. */
  ghost predicate OneWritten(core0: Core, core: Core, it: Item, res: ErrorCode, lost: bool) {
    && (lost ==> res == NoErr && !core0.job.Idle?)
    && (core.job.Idle? ==> core.mem == Program(Finish(core0).mem, if res == NoErr && !lost then [it] else []))
    && (!core.job.Idle? ==> core == core0 && (core0.wel ==> res == NoErr) && (res == NoErr ==> lost))
  }

  /** WREN, poll for WEL, then the page-program frame. */
  method WriteOne(c: M25P16, addr: u32, value: int) returns (res: ErrorCode, ghost lost: bool)
    requires !c.selected
    modifies c
    ensures !c.selected && (res == NoErr || res == PollTimeout)
    ensures !Scan(old(c.log)).Broken? ==> !Scan(c.log).Broken?
    ensures Programs(c.log) == Programs(old(c.log)) + if res == NoErr then [FrameOf(Item(addr, Low(value)))] else []
    ensures OneWritten(old(c.core), c.core, Item(addr, Low(value)), res, lost)
    ensures Lates(c.log) == Lates(old(c.log)) + if lost then 1 else 0
    ensures res == NoErr ==>
              c.log != [] && c.log[|c.log| - 1].Pp? && lost == Late(c.log[..|c.log| - 1], c.log[|c.log| - 1])
    ensures old(c.core).job.Idle? && c.alert ==> res == NoErr
  {
    res := EnableWrite(c);
    lost := res == NoErr && !c.core.job.Idle?;
    if res == NoErr {
      ghost var log := c.log;
      PageProgram(c, addr, value);
      assert c.log[..|log|] == log;
    }
  }

  /** The page-program frame. */
  method PageProgram(c: M25P16, addr: u32, value: int)
    requires !c.selected && c.core.wel
    modifies c
    ensures !c.selected
    ensures c.log == old(c.log) + [FrameOf(Item(addr, Low(value)))]
    ensures !Scan(old(c.log)).Broken? && Scan(old(c.log)) == Armed(true) ==> !Scan(c.log).Broken?
    ensures Programs(c.log) == Programs(old(c.log)) + [FrameOf(Item(addr, Low(value)))]
    ensures Lates(c.log) == Lates(old(c.log)) + if Late(old(c.log), FrameOf(Item(addr, Low(value)))) then 1 else 0
    ensures old(c.core).job.Idle? ==>
              c.core.job.Idle? && c.core.mem == Program(old(c.core).mem, [Item(addr, Low(value))])
    ensures !old(c.core).job.Idle? ==> c.core == old(c.core) || c.core == Finish(old(c.core))
  {
    StartFrame(c, PP, addr);
    WriteFlash(c, value);
    ghost var f := Parse(c.core, c.rx, false);
    assert f == FrameOf(Item(addr, Low(value)));
    ghost var _ := c.Deselect();
    LogPush(old(c.log), f);
    assert [Item(addr, Low(value))][..0] == [];
  }

  /** What a run of writes leaves of a device, busy at the call or not: of the n items sent, the
      first `lost` came while it was busy and were dropped; the others are programmed after the
      end of its erase. */
  ghost predicate AllWritten(core0: Core, core: Core, items: seq<Item>, n: nat, lost: nat, res: ErrorCode) {
    && lost <= n <= |items|
    && (core0.job.Idle? ==> lost == 0)
    && (core.job.Idle? ==> core.mem == Program(Finish(core0).mem, items[lost..n]))
    && (!core.job.Idle? ==> core == core0 && lost == n && (core0.wel ==> res == NoErr))
  }

  lemma WrittenStep(core0: Core, core1: Core, core: Core, items: seq<Item>, n: nat, lost: nat, res: ErrorCode,
                    one: bool)
    requires n < |items| && AllWritten(core0, core1, items, n, lost, NoErr)
    requires OneWritten(core1, core, items[n], res, one)
    ensures AllWritten(core0, core, items, if res == NoErr then n + 1 else n, if one then n + 1 else lost, res)
  {
    if core.job.Idle? {
      if one {
        assert items[n + 1..n + 1] == [] && items[lost..n] == [];
      } else if res == NoErr {
        ProgramSlice(Finish(core0).mem, items, lost, n);
      } else if !core1.job.Idle? {
        assert items[lost..n] == [];
      }
    }
  }

  lemma ProgramSlice(m: Memory, items: seq<Item>, lost: nat, n: nat)
    requires lost <= n < |items|
    ensures Program(m, items[lost..n + 1]) == Program(Program(m, items[lost..n]), [items[n]])
    ensures lost == n ==> items[lost..n] == []
  {
    assert items[lost..n + 1][..n - lost] == items[lost..n];
    assert [items[n]][..0] == [];
  }

  /** The state between two writes of a run, or after the one that timed out. The lost items are
      as many as there are late frames. */
  ghost predicate Writing(log0: seq<Frame>, core0: Core, c: M25P16, items: seq<Item>, n: nat, lost: nat, res: ErrorCode)
    reads c
  {
    && !c.selected && n <= |items|
    && (!Scan(log0).Broken? ==> !Scan(c.log).Broken?)
    && Programs(c.log) == Programs(log0) + FramesOf(items[..n])
    && Lates(c.log) == Lates(log0) + lost
    && AllWritten(core0, c.core, items, n, lost, res)
  }

  method WriteNext(c: M25P16, addr: u32, value: int, ghost log0: seq<Frame>, ghost core0: Core, ghost items: seq<Item>,
                   ghost n: nat, ghost lost0: nat)
    returns (res: ErrorCode, ghost lost: nat)
    requires n < |items| && items[n] == Item(addr, Low(value)) && Writing(log0, core0, c, items, n, lost0, NoErr)
    modifies c
    ensures res == NoErr || res == PollTimeout
    ensures Writing(log0, core0, c, items, if res == NoErr then n + 1 else n, lost, res)
    ensures core0.job.Idle? && c.alert ==> res == NoErr
  {
    ghost var core1 := c.core;
    ghost var one;
    res, one := WriteOne(c, addr, value);
    WrittenStep(core0, core1, c.core, items, n, lost0, res, one);
    lost := if one then n + 1 else lost0;
    assert items[..n + 1][..n] == items[..n];
  }

  /** Programs consecutive locations until a WEL poll times out; n locations were reached. */
  method m25p16_Write(c: M25P16, values: seq<int>, start: u32) returns (res: ErrorCode, ghost n: nat, ghost lost: nat)
    requires !c.selected
    modifies c
    ensures res == NoErr || res == PollTimeout
    ensures n <= |values| && (res == NoErr <==> n == |values|)
    ensures Writing(old(c.log), old(c.core), c, Items(values, start), n, lost, res)
    ensures old(c.core).job.Idle? && c.alert ==> res == NoErr
  {
    res, n, lost := NoErr, 0, 0;
    var addr := start;
    ghost var items := Items(values, start);
    assert items[..0] == [] && items[0..0] == [];
    for i := 0 to |values|
      invariant addr == (start + i) % 0x1_0000_0000
      invariant n == i && res == NoErr
      invariant Writing(old(c.log), old(c.core), c, items, n, lost, NoErr)
    {
      res, lost := WriteNext(c, addr, values[i], old(c.log), old(c.core), items, n, lost);
      if res == PollTimeout {
        return;
      }
      n := n + 1;
      NextAfter(start, i);
      addr := Next(addr);
    }
  }

  /* ---- sectors ---- */

  predicate ValidSector(n: int) { 0 <= n < NUM_SECTORS }

  /** Outside the sector range the two results keep the values they had. */
  method GetSectorStartEnd(nSector: int, start0: u32, end0: u32) returns (res: ErrorCode, start: u32, end: u32)
    ensures res == if 0 <= nSector < 32 then NoErr else InvalidSector
    ensures res == NoErr ==> forall x: int :: start <= x <= end <==> 0 <= x && x / 0x1_0000 == nSector
    ensures res == NoErr ==> start == nSector * SECTOR && end == start + SECTOR - 1 < SIZE
    ensures res != NoErr ==> start == start0 && end == end0
  {
    start, end := start0, end0;
    if nSector >= 0 && nSector < NUM_SECTORS {
      start := nSector * SECTOR;
      end := start + SECTOR - 1;
    } else {
      return InvalidSector, start, end;
    }
    res := NoErr;
  }

  /** The offset a sector check looks at. */
  function Offset(addr: u32): nat { addr % 0x800_0000 }

  predicate ValidAddr(addr: u32) { Offset(addr) < SIZE }

  /** A linear search through the sectors; `sector` keeps its value when there is none. */
  method GetSectorNumber(addr: u32, sector0: int) returns (res: ErrorCode, sector: int)
    ensures res == if ValidAddr(addr) then NoErr else InvalidSector
    ensures sector == if ValidAddr(addr) then Cell(addr) / SECTOR else sector0
    ensures ValidAddr(addr) <==> addr / 0x20_0000 % 64 == 0
    ensures res == NoErr ==> sector == addr / 0x1_0000 % 32
  {
    var found, n := false, 0;
    var start: u32, end: u32 := 0, 0;
    var offset := Offset(addr);
    var i := 0;
    while i < NUM_SECTORS
      invariant 0 <= i <= NUM_SECTORS
      invariant !found && offset >= i * SECTOR
    {
      var r;
      r, start, end := GetSectorStartEnd(i, start, end);
      if offset >= start && offset <= end {
        found, n := true, i;
        break;
      }
      i := i + 1;
    }
    OffsetIsCell(addr);
    SectorBits(addr);
    if !found {
      return InvalidSector, sector0;
    }
    return NoErr, n;
  }

  lemma OffsetIsCell(addr: u32)
    ensures ValidAddr(addr) ==> Offset(addr) == Cell(addr)
  {
  }

  /** The sector check looks at address bits 21 to 26, and the sector is in bits 16 to 20. */
  lemma SectorBits(addr: u32)
    ensures ValidAddr(addr) <==> addr / 0x20_0000 % 64 == 0
    ensures Cell(addr) / SECTOR == addr / 0x1_0000 % 32
  {
    BitsAbove(addr);
    BitsBelow(addr);
  }

  lemma BitsAbove(x: nat)
    ensures x % 0x800_0000 < 0x20_0000 <==> x / 0x20_0000 % 64 == 0
  {
    var q, r := x / 0x20_0000, x % 0x20_0000;
    assert x % 0x800_0000 == q % 64 * 0x20_0000 + r;
  }

  lemma BitsBelow(x: nat)
    ensures x % 0x20_0000 / 0x1_0000 == x / 0x1_0000 % 32
  {
    var q, r := x / 0x1_0000, x % 0x1_0000;
    assert x % 0x20_0000 == q % 32 * 0x1_0000 + r;
  }

  /* ---- erasing ---- */

  /** The device is in this state or past the end of the cycle it is in. */
  ghost predicate InOrPast(c: Core, state: Core) { c == state || c == Finish(state) }

  /** The bulk-erase frame and the polls after it. */
  method BulkErase(c: M25P16) returns (res: ErrorCode, ghost polls: seq<Frame>)
    requires !c.selected && c.core.wel
    modifies c
    ensures !c.selected && c.log == old(c.log) + [Be] + polls && Polls(polls) && polls != []
    ensures res == PollTimeout <==> |polls| == 2_240_000 && forall i :: 0 <= i < |polls| ==> polls[i].wip
    ensures res == NoErr || res == PollTimeout
    ensures res == NoErr <==> c.core.job.Idle?
    ensures InOrPast(c.core, if old(c.core).job.Idle? then old(c.core).(job := EraseAll) else old(c.core))
  {
    ghost var _ := SendSingleCommand(c, BE);
    res, polls := WaitForStatus(c);
  }

  /** What the bulk-erase frame and its polls add to a log. */
  lemma BulkLogged(log: seq<Frame>, polls: seq<Frame>)
    requires Polls(polls)
    ensures var log' := log + [Be] + polls;
            && Programs(log') == Programs(log)
            && Lates(log') == Lates(log) + (if Late(log, Be) then 1 else 0)
            && (Scan(log) == Armed(true) ==> !Scan(log').Broken?)
            && log'[|log|] == Be && log'[..|log|] == log
  {
    LogPush(log, Be);
    AfterPolls(log + [Be], polls);
  }

  /** WREN, poll for WEL, bulk erase, poll until it is over. The bulk erase is lost on a device that
      was still busy at the last poll for WEL, which is when it is late. */
  method EraseFlash(c: M25P16) returns (res: ErrorCode, ghost lost: bool, ghost polls: seq<Frame>)
    requires !c.selected
    modifies c
    ensures !c.selected && (res == NoErr || res == PollTimeout)
    ensures !Scan(old(c.log)).Broken? ==> !Scan(c.log).Broken?
    ensures Programs(c.log) == Programs(old(c.log))
    ensures Lates(c.log) == Lates(old(c.log)) + if lost then 1 else 0
    ensures lost ==> !old(c.core).job.Idle? && polls != []
    ensures polls != [] ==>
              && |c.log| >= |polls| + 2 && c.log[|c.log| - |polls| - 1] == Be
              && Late(c.log[..|c.log| - |polls| - 1], Be) == lost
    ensures res == NoErr ==>
              && c.core.job.Idle?
              && c.core.mem == if lost then Finish(old(c.core)).mem else Erased(Finish(old(c.core)).mem, 0, SIZE)
    ensures res == PollTimeout ==>
              || c.core == old(c.core)
              || (c.core.mem == Finish(old(c.core)).mem && (c.core.job.Idle? || c.core.job.EraseAll?))
    ensures c.alert && old(c.core).job.Idle? ==>
              && (res == PollTimeout <==>
                    |polls| == 2_240_000 && forall i :: 0 <= i < |polls| ==> polls[i].Rdsr? && polls[i].wip)
              && (res == PollTimeout ==> c.core.job.EraseAll?)
  {
    polls, lost := [], false;
    res := EnableWrite(c);
    if res == NoErr {
      lost := !c.core.job.Idle?;
      ghost var log := c.log;
      res, polls := BulkErase(c);
      BulkLogged(log, polls);
    }
  }

  /** The address an EraseBlock call erases at. The result of GetSectorStartEnd is not looked at,
      so an invalid sector number leaves the sector start at 0. */
  function EraseAddr(nBlock: int, ulAddr: u32): u32 {
    (ulAddr + if ValidSector(nBlock) then nBlock * SECTOR else 0) % 0x1_0000_0000
  }

  /** A device after a sector-erase frame; a busy one ignores it. */
  function EraseStarted(c: Core, addr: u32): Core {
    if c.job.Idle? && c.wel then Core(c.mem, true, EraseSector(SectorOf(addr))) else c
  }

  function SectorOf(addr: nat): nat { Cell(addr) / SECTOR }

  /** The sector-erase frame, which the first of the status polls closes. */
  method EraseAt(c: M25P16, addr: u32) returns (res: ErrorCode, ghost polls: seq<Frame>)
    requires !c.selected
    modifies c
    ensures !c.selected && (res == NoErr || res == PollTimeout)
    ensures c.log == old(c.log) + [Se(addr % 0x100_0000)] + polls && Polls(polls)
    ensures res == PollTimeout <==> |polls| == 2_240_000 && forall i :: 0 <= i < |polls| ==> polls[i].wip
    ensures res == NoErr <==> c.core.job.Idle?
    ensures InOrPast(c.core, EraseStarted(old(c.core), addr))
  {
    StartFrame(c, SE, addr);
    CellWrap(addr);
    res, polls := WaitForStatus(c);
    ghost var _ := c.Deselect();
  }

  /** Where WREN and a sector-erase frame take a device. One that is busy at the call latches WREN
      only after the end of its cycle; if it does not, it ignores the erase as well. */
  function EraseGoal(c: Core, latched: bool, addr: u32): Core {
    if latched then EraseStarted(Finish(c).(wel := true), addr) else EraseStarted(c, addr)
  }

  lemma GoalReached(c0: Core, c1: Core, c: Core, latched: bool, addr: u32)
    requires if latched then c1 == Finish(c0).(wel := true) else InOrPast(c1, c0)
    requires InOrPast(c, EraseStarted(c1, addr))
    ensures InOrPast(c, EraseGoal(c0, latched, addr))
    ensures c.job.Idle? ==>
              c.mem == if latched || (c0.job.Idle? && c0.wel)
                       then SectorErased(Finish(c0).mem, SectorOf(addr))
                       else Finish(c0).mem
  {
  }

  /** WREN, sector erase, poll until it is over; WEL is not looked at. */
  method EraseBlock(c: M25P16, nBlock: int, ulAddr: u32)
    returns (res: ErrorCode, ghost latched: bool, ghost polls: seq<Frame>)
    requires !c.selected
    modifies c
    ensures !c.selected && (res == NoErr || res == PollTimeout)
    ensures !Scan(old(c.log)).Broken? ==> !Scan(c.log).Broken?
    ensures Programs(c.log) == Programs(old(c.log))
    ensures c.log == old(c.log) + [Wren(latched)] + [Se(EraseAddr(nBlock, ulAddr) % 0x100_0000)] + polls
    ensures Lates(c.log) == Lates(old(c.log))
    ensures Polls(polls)
    ensures res == PollTimeout <==> |polls| == 2_240_000 && forall i :: 0 <= i < |polls| ==> polls[i].wip
    ensures res == NoErr <==> c.core.job.Idle?
    ensures c.alert && old(c.core).job.Idle? ==> latched
    ensures InOrPast(c.core, EraseGoal(old(c.core), latched, EraseAddr(nBlock, ulAddr)))
    ensures res == NoErr ==>
              c.core.mem == if latched || (old(c.core).job.Idle? && old(c.core).wel)
                            then SectorErased(Finish(old(c.core)).mem, SectorOf(EraseAddr(nBlock, ulAddr)))
                            else Finish(old(c.core)).mem
  {
    var sectStart: u32, sectEnd: u32 := 0, 0;
    var _, s, e := GetSectorStartEnd(nBlock, sectStart, sectEnd);
    sectStart := s;
    var addr: u32 := (ulAddr + sectStart) % 0x1_0000_0000;
    assert addr == EraseAddr(nBlock, ulAddr);
    ghost var log := c.log;
    latched := SendSingleCommand(c, WREN);
    LogPush(log, Wren(latched));
    ghost var log1, core1 := c.log, c.core;
    ghost var f := Se(addr % 0x100_0000);
    LogPush(log1, f);
    res, polls := EraseAt(c, addr);
    AfterPolls(log1 + [f], polls);
    GoalReached(old(c.core), core1, c.core, latched, addr);
  }

  /** The flash programmer passes FLASH_START_ADDR, which the chip does not see. */
  lemma EraseAddrIsSector(nBlock: int)
    ensures SectorOf(EraseAddr(nBlock, 0x2000_0000)) == if ValidSector(nBlock) then nBlock else 0
  {
  }

  /* ---- reset and identification ---- */

  /** Clears the latch; the 500 polls after it report a time-out whatever they see. */
  method ResetFlash(c: M25P16) returns (res: ErrorCode)
    requires !c.selected
    modifies c
    ensures !c.selected && res == PollTimeout
    ensures !Scan(old(c.log)).Broken? ==> !Scan(c.log).Broken?
    ensures Programs(c.log) == Programs(old(c.log))
    ensures c.core == old(c.core) || c.core == Finish(old(c.core)).(wel := false)
    ensures c.core.job.Idle? ==> !c.core.wel
  {
    ghost var log := c.log;
    ghost var _ := SendSingleCommand(c, WRDI);
    LogPush(log, Wrdi);
    res := PollToggleBit(c);
  }

  /** One status read, and what it does not change. */
  method PollOnce(c: M25P16) returns (status: byte)
    requires !c.selected
    modifies c
    ensures !c.selected
    ensures Scan(old(c.log)).Broken? <==> Scan(c.log).Broken?
    ensures Programs(c.log) == Programs(old(c.log))
    ensures c.core == old(c.core) || c.core == Finish(old(c.core))
  {
    status := ReadStatusRegister(c);
    LogPush(old(c.log), Rdsr(!c.core.job.Idle?, c.core.wel));
  }

  /** Polls 500 times; the last assignment of the loop body makes every poll a time-out. */
  method PollToggleBit(c: M25P16) returns (res: ErrorCode)
    requires !c.selected
    modifies c
    ensures !c.selected && res == PollTimeout
    ensures Scan(old(c.log)).Broken? <==> Scan(c.log).Broken?
    ensures Programs(c.log) == Programs(old(c.log))
    ensures c.core == old(c.core) || c.core == Finish(old(c.core))
  {
    res := NoErr;
    for i := 0 to 500
      invariant !c.selected && (i > 0 ==> res == PollTimeout)
      invariant Scan(old(c.log)).Broken? <==> Scan(c.log).Broken?
      invariant Programs(c.log) == Programs(old(c.log))
      invariant c.core == old(c.core) || c.core == Finish(old(c.core))
    {
      var status := PollOnce(c);
      if And(status, WEL) != 0 {
        res := NoErr;
      }
      res := PollTimeout;
    }
  }

  /** One frame with two identification reads. */
  method GetCodes(c: M25P16) returns (man: byte, dev: byte)
    requires !c.selected
    modifies c
    ensures !c.selected && c.log == old(c.log) + [Ident]
    ensures c.core == old(c.core) || c.core == Finish(old(c.core))
  {
    SetupSPI(c);
    WriteFlash(c, RDID);
    man := ReadFlash(c);
    WriteFlash(c, RDID);
    dev := ReadFlash(c);
    ghost var _ := c.Deselect();
  }
}

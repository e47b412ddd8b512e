/** The M25P16 serial flash as the programmer sees it through the SPI pins. */
module Chip {
  import opened Bits

  const SIZE := 0x20_0000     // 32 sectors
  const SECTOR := 0x1_0000    // of 64 KiB each

  type Memory = m: seq<byte> | |m| == SIZE ghost witness seq(SIZE, _ => 0xFF)

  /** The self-timed cycle that is running; WIP reads 1 unless it is Idle. */
  datatype Job = Idle | EraseSector(n: nat) | EraseAll

  datatype Core = Core(mem: Memory, wel: bool, job: Job)

  /** One chip-select-low period, as it appears in the log once it is closed.
      `latched` and the two status bits record what the device did or answered. */
  datatype Frame =
    | Wren(latched: bool)
    | Rdsr(wip: bool, wel: bool)
    | Read(addr: nat)
    | Pp(addr: nat, data: byte)
    | Se(addr: nat)
    | Be
    | Wrdi
    | Ident
    | Other

  /** The memory cell an address selects: the address bits above A20 are ignored. */
  function Cell(addr: nat): (x: nat)
    ensures x < SIZE
  {
    addr % SIZE
  }

  function Erased(m: Memory, lo: nat, hi: nat): (r: Memory)
    ensures forall x :: 0 <= x < SIZE ==> r[x] == if lo <= x < hi then 0xFF else m[x]
  {
    seq(SIZE, x requires 0 <= x < SIZE => if lo <= x < hi then 0xFF else m[x])
  }

  function SectorErased(m: Memory, n: nat): Memory {
    Erased(m, n * SECTOR, n * SECTOR + SECTOR)
  }

  /** The end of the running cycle. */
  function Finish(c: Core): Core {
    match c.job
    case Idle => c
    case EraseSector(n) => Core(SectorErased(c.mem, n), false, Idle)
    case EraseAll => Core(Erased(c.mem, 0, SIZE), false, Idle)
  }

  /** What a closed frame does. A page program is over before the next frame starts;
      erases only start here and end in Finish. */
  function Apply(c: Core, f: Frame): Core {
    match f
    case Wren(latched) => if latched then c.(wel := true) else c
    case Pp(a, d) =>
      if c.job.Idle? && c.wel then Core(c.mem[Cell(a) := And(c.mem[Cell(a)], d)], false, Idle) else c
    case Se(a) => if c.job.Idle? && c.wel then c.(job := EraseSector(Cell(a) / SECTOR)) else c
    case Be => if c.job.Idle? && c.wel then c.(job := EraseAll) else c
    case Wrdi => if c.job.Idle? then c.(wel := false) else c
    case _ => c
  }

  function Address(rx: seq<byte>): nat
    requires |rx| >= 4
  {
    (rx[1] as int) * 0x1_0000 + (rx[2] as int) * 0x100 + rx[3] as int
  }

  /** The instruction codes of the device. */
  function Parse(c: Core, rx: seq<byte>, latched: bool): Frame {
    if rx == [0x06] then Wren(latched)
    else if |rx| == 2 && rx[0] == 0x05 then Rdsr(!c.job.Idle?, c.wel)
    else if |rx| >= 4 && rx[0] == 0x03 then Read(Address(rx))
    else if |rx| == 5 && rx[0] == 0x02 then Pp(Address(rx), rx[4])
    else if |rx| == 4 && rx[0] == 0xD8 then Se(Address(rx))
    else if rx == [0xC7] then Be
    else if rx == [0x04] then Wrdi
    else if |rx| > 0 && rx[0] == 0x9F then Ident
    else Other
  }

  function Status(c: Core): byte {
    (if c.job.Idle? then 0 else 1) + (if c.wel then 2 else 0)
  }

  class M25P16 {
    var core: Core
    var selected: bool
    var rx: seq<byte>          // bytes shifted in since chip select fell
    const alert: bool         // an alert device latches WREN whenever it is idle
    ghost var log: seq<Frame> // frames closed by a chip-select rise

    constructor (m: Memory, alert: bool)
      ensures core == Core(m, false, Idle) && !selected && log == [] && this.alert == alert
    {
      core, selected, rx, log := Core(m, false, Idle), false, [], [];
      this.alert := alert;
    }

    /** The state once a frame that is still open is closed. */
    ghost function Closed(): Core
      reads this
    {
      if selected then Apply(core, Parse(core, rx, false)) else core
    }

    ghost function ClosedLog(): seq<Frame>
      reads this
    {
      if selected then log + [Parse(core, rx, false)] else log
    }

    /** Chip select falls; a running cycle may have come to its end by now. */
    method Select()
      requires !selected
      modifies this
      ensures selected && rx == [] && log == old(log)
      ensures core == old(core) || core == Finish(old(core))
    {
      var over: bool := *;
      if over {
        core := Finish(core);
      }
      selected, rx := true, [];
    }

    /** Chip select rises, which closes and executes the open frame, if any. */
    method Deselect() returns (ghost latched: bool)
      modifies this
      ensures !selected && rx == []
      ensures !old(selected) ==> core == old(core) && log == old(log)
      ensures old(selected) ==> log == old(log) + [Parse(old(core), old(rx), latched)]
      ensures old(selected) ==> core == Apply(old(core), Parse(old(core), old(rx), latched))
      ensures (latched ==> old(core).job.Idle?) && (alert && old(core).job.Idle? ==> latched)
    {
      var willing: bool := *;
      var take := core.job.Idle? && (alert || willing);
      if selected {
        var frame := Parse(core, rx, take);
        core, log := Apply(core, frame), log + [frame];
      }
      selected, rx := false, [];
      latched := take;
    }

    /** One byte each way. */
    method Shift(b: byte) returns (r: byte)
      requires selected
      modifies this
      ensures selected && core == old(core) && log == old(log)
      ensures rx == old(rx) + [b]
      ensures |old(rx)| == 1 && old(rx)[0] == 0x05 ==> r == Status(core)
      ensures |old(rx)| >= 4 && old(rx)[0] == 0x03 && core.job.Idle? ==>
                r == core.mem[Cell(Address(old(rx)) + |old(rx)| - 4)]
    {
      if |rx| == 1 && rx[0] == 0x05 {
        r := Status(core);
      } else if |rx| >= 4 && rx[0] == 0x03 && core.job.Idle? {
        r := core.mem[Cell(Address(rx) + |rx| - 4)];
      } else {
        r := *;
      }
      rx := rx + [b];
    }
  }
}

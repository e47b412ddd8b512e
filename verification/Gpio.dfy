/** Pin multiplexing and pin interrupts of one GPIO port (cvteBF51x_GPP.c). A 16-bit register is
    the set of its bits that are 1, so that |= with a mask adds bits and &= with the complement
    of a mask removes them. */
module Gpio {
  datatype PortName = F | G | H
  datatype Function = FunctionGPIO | FunctionFirst | FunctionSecond | FunctionThird | FunctionFourth
  datatype Direction = ModeIn | ModeOut
  datatype Sense = High | RisingEdge | Low | FallingEdge | AnyEdge

  /** The registers of a port, one bit for each pin, and its mux register, two for each group. */
  datatype Regs = Regs(fer: Reg, mux: Reg, dir: Reg, inen: Reg, edge: Reg, polar: Reg, both: Reg,
                       maskA: Reg, maskB: Reg, level: Reg)

  type Reg = set<nat>
  type PinNo = n: nat | n < 16

  /** Where the mux field of a pin is. On port H the pins above 7 fall in the first field. */
  function Offset(port: PortName, n: PinNo): (o: nat)
    ensures o < 15 && o % 2 == 0
  {
    match port
    case F =>
      if n == 0 then 0 else if n <= 6 then 2 else if n == 7 then 4 else if n <= 10 then 6 else if n <= 14 then 8 else 10
    case G =>
      if n <= 2 then 0 else if n == 3 then 2 else if n == 4 then 4 else if n <= 7 then 6 else if n == 8 then 8
      else if n <= 10 then 10 else if n == 11 then 12 else 14
    case H =>
      if n <= 3 then 0 else if n <= 5 then 2 else if n == 6 then 4 else if n == 7 then 6 else 0
  }

  /** The mux value of a peripheral function. */
  function Code(f: Function): nat
    requires !f.FunctionGPIO?
  {
    match f
    case FunctionFirst => 0
    case FunctionSecond => 1
    case FunctionThird => 2
    case FunctionFourth => 3
  }

  /** What a pin is connected to. */
  datatype Route = Gpio | Peripheral(code: nat)

  function RouteOf(port: PortName, r: Regs, n: PinNo): Route {
    if n !in r.fer then Gpio else Peripheral(FieldAt(r.mux, Offset(port, n)))
  }

  /** The two-bit field at an offset. */
  function FieldAt(mux: Reg, o: nat): nat {
    (if o in mux then 1 else 0) + if o + 1 in mux then 2 else 0
  }

  /* ---- the register writes of gpio_init ---- */

  function Connect(port: PortName, r: Regs, n: PinNo, f: Function): Regs {
    var o := Offset(port, n);
    match f
    case FunctionGPIO => r.(fer := r.fer - {n})
    case FunctionFirst => r.(fer := r.fer + {n}, mux := r.mux - {o, o + 1})
    case FunctionSecond => r.(fer := r.fer + {n}, mux := r.mux - {o, o + 1} + {o})
    case FunctionThird => r.(fer := r.fer + {n}, mux := r.mux - {o, o + 1} + {o + 1})
    case FunctionFourth => r.(fer := r.fer + {n}, mux := r.mux + {o, o + 1})
  }

  function Direct(r: Regs, n: PinNo, d: Direction): Regs {
    match d
    case ModeIn =>
      r.(dir := r.dir - {n}, inen := r.inen + {n}, edge := r.edge - {n}, polar := r.polar - {n},
         maskA := r.maskA - {n}, maskB := r.maskB - {n})
    case ModeOut =>
      r.(dir := r.dir + {n}, inen := r.inen - {n}, level := r.level - {n})
  }

  function Configure(r: Regs, n: PinNo, s: Sense): Regs {
    match s
    case High => r.(polar := r.polar - {n}, edge := r.edge - {n})
    case RisingEdge => r.(polar := r.polar - {n}, edge := r.edge + {n}, both := r.both - {n})
    case Low => r.(polar := r.polar + {n}, edge := r.edge - {n})
    case FallingEdge => r.(polar := r.polar + {n}, edge := r.edge + {n}, both := r.both - {n})
    case AnyEdge => r.(edge := r.edge + {n}, both := r.both + {n})
  }

  /** What a call does to the registers of its port. */
  datatype Call =
    | Init(n: PinNo, f: Function, d: Direction)
    | InterruptA(n: PinNo, s: Sense)
    | InterruptB(n: PinNo, s: Sense)
    | SetA(n: PinNo, on: bool)
    | SetB(n: PinNo, on: bool)

  function Apply(port: PortName, r: Regs, call: Call): Regs {
    match call
    case Init(n, f, d) => Direct(Connect(port, r, n, f), n, d)
    case InterruptA(n, s) => var q := Configure(r, n, s); q.(maskA := q.maskA + {n}, maskB := q.maskB - {n})
    case InterruptB(n, s) => var q := Configure(r, n, s); q.(maskB := q.maskB + {n}, maskA := q.maskA - {n})
    case SetA(n, on) => r.(maskA := if on then r.maskA + {n} else r.maskA - {n})
    case SetB(n, on) => r.(maskB := if on then r.maskB + {n} else r.maskB - {n})
  }

  /** The port itself, with write-one-to-set and write-one-to-clear registers for the masks and
      the levels. */
  class GpioPort {
    const name: PortName
    var fer: Reg
    var mux: Reg
    var dir: Reg
    var inen: Reg
    var edge: Reg
    var polar: Reg
    var both: Reg
    var maskA: Reg
    var maskB: Reg
    var level: Reg

    function View(): Regs
      reads this
    {
      Regs(fer, mux, dir, inen, edge, polar, both, maskA, maskB, level)
    }

    constructor (name: PortName)
      ensures this.name == name && View() == Regs({}, {}, {}, {}, {}, {}, {}, {}, {}, {})
    {
      this.name := name;
      fer, mux, dir, inen, edge, polar, both, maskA, maskB, level := {}, {}, {}, {}, {}, {}, {}, {}, {}, {};
    }

    method gpio_init(n: PinNo, f: Function, d: Direction)
      modifies this
      ensures View() == Apply(name, old(View()), Init(n, f, d))
    {
      ConnectPin(n, f);
      DirectPin(n, d);
    }

    /** The first half of gpio_init: the function of the pin. */
    method ConnectPin(n: PinNo, f: Function)
      modifies this
      ensures View() == Connect(name, old(View()), n, f)
    {
      var offset := Offset(name, n);
      if f == FunctionGPIO {
        fer := fer - {n};
      } else if f == FunctionFirst {
        fer := fer + {n};
        mux := mux - {offset, offset + 1};
      } else if f == FunctionSecond {
        fer := fer + {n};
        mux := mux - {offset, offset + 1};
        mux := mux + {offset};
      } else if f == FunctionThird {
        fer := fer + {n};
        mux := mux - {offset, offset + 1};
        mux := mux + {offset + 1};
      } else {
        fer := fer + {n};
        mux := mux + {offset, offset + 1};
      }
    }

    /** The second half: its direction. */
    method DirectPin(n: PinNo, d: Direction)
      modifies this
      ensures View() == Direct(old(View()), n, d)
    {
      if d == ModeIn {
        dir := dir - {n};
        inen := inen + {n};
        edge := edge - {n};
        polar := polar - {n};
        maskA := maskA - {n};
        maskB := maskB - {n};
      } else {
        dir := dir + {n};
        inen := inen - {n};
        level := level - {n};
      }
    }

    method gpio_set(n: PinNo)
      modifies this
      ensures View() == old(View()).(level := old(level) + {n})
    {
      level := level + {n};
    }

    method gpio_clear(n: PinNo)
      modifies this
      ensures View() == old(View()).(level := old(level) - {n})
    {
      level := level - {n};
    }

    method gpio_cfg_interrupt(n: PinNo, s: Sense)
      modifies this
      ensures View() == Configure(old(View()), n, s)
    {
      match s {
        case High =>
          polar := polar - {n};
          edge := edge - {n};
        case RisingEdge =>
          polar := polar - {n};
          edge := edge + {n};
          both := both - {n};
        case Low =>
          polar := polar + {n};
          edge := edge - {n};
        case FallingEdge =>
          polar := polar + {n};
          edge := edge + {n};
          both := both - {n};
        case AnyEdge =>
          edge := edge + {n};
          both := both + {n};
      }
    }

    method gpio_interruptA(n: PinNo, s: Sense)
      modifies this
      ensures View() == Apply(name, old(View()), InterruptA(n, s))
    {
      gpio_cfg_interrupt(n, s);
      maskA := maskA + {n};
      maskB := maskB - {n};
    }

    method gpio_interruptB(n: PinNo, s: Sense)
      modifies this
      ensures View() == Apply(name, old(View()), InterruptB(n, s))
    {
      gpio_cfg_interrupt(n, s);
      maskB := maskB + {n};
      maskA := maskA - {n};
    }

    method gpio_set_interruptA(n: PinNo, on: bool)
      modifies this
      ensures View() == Apply(name, old(View()), SetA(n, on))
    {
      if on {
        maskA := maskA + {n};
      } else {
        maskA := maskA - {n};
      }
    }

    method gpio_set_interruptB(n: PinNo, on: bool)
      modifies this
      ensures View() == Apply(name, old(View()), SetB(n, on))
    {
      if on {
        maskB := maskB + {n};
      } else {
        maskB := maskB - {n};
      }
    }
  }

  /* ---- routing ---- */

  /** gpio_init routes its own pin as asked. It reroutes another pin only if that one is on a
      peripheral and shares the mux field, and only for a peripheral function. */
  lemma InitRoutes(port: PortName, r: Regs, n: PinNo, f: Function, d: Direction, q: PinNo)
    ensures RouteOf(port, Apply(port, r, Init(n, f, d)), q) ==
            if q == n then (if f.FunctionGPIO? then Gpio else Peripheral(Code(f)))
            else if !f.FunctionGPIO? && q in r.fer && Offset(port, q) == Offset(port, n) then Peripheral(Code(f))
            else RouteOf(port, r, q)
  {
    var o, p := Offset(port, n), Offset(port, q);
    assert p != o ==> p != o + 1 && p + 1 != o;
  }

  /** Every other bit of the two registers stays as it was. */
  lemma InitKeepsBits(port: PortName, r: Regs, n: PinNo, f: Function, d: Direction, b: nat)
    ensures b != n ==> (b in Apply(port, r, Init(n, f, d)).fer <==> b in r.fer)
    ensures f.FunctionGPIO? || (b != Offset(port, n) && b != Offset(port, n) + 1) ==>
              (b in Apply(port, r, Init(n, f, d)).mux <==> b in r.mux)
  {
  }

  /** The pins of a port are in groups of consecutive pins that share a mux field; here are the pins
      from which the second and later groups of a port start. */
  function GroupStarts(port: PortName): seq<nat> {
    match port
    case F => [1, 7, 8, 11, 15]
    case G => [3, 4, 5, 8, 9, 11, 12]
    case H => [4, 6, 7]
  }

  /** How many of the first k starts lie at or below a pin; of all of them, the number of its group. */
  function StartsBelow(starts: seq<nat>, n: nat, k: nat): nat
    requires k <= |starts|
  {
    if k == 0 then 0 else StartsBelow(starts, n, k - 1) + if starts[k - 1] <= n then 1 else 0
  }

  function GroupOf(port: PortName, n: nat): nat {
    StartsBelow(GroupStarts(port), n, |GroupStarts(port)|)
  }

  lemma OffsetExact(port: PortName, n: PinNo)
    ensures Offset(port, n) == if port == H && n > 7 then 0 else 2 * GroupOf(port, n)
  {
    var s := GroupStarts(port);
    assert StartsBelow(s, n, 3)
        == (if s[0] <= n then 1 else 0) + (if s[1] <= n then 1 else 0) + if s[2] <= n then 1 else 0
    by {
      assert StartsBelow(s, n, 1) == if s[0] <= n then 1 else 0;
    }
    if |s| >= 5 {
      assert StartsBelow(s, n, 4) == StartsBelow(s, n, 3) + if s[3] <= n then 1 else 0;
      assert StartsBelow(s, n, 5) == StartsBelow(s, n, 4) + if s[4] <= n then 1 else 0;
    }
    if |s| == 7 {
      assert StartsBelow(s, n, 6) == StartsBelow(s, n, 5) + if s[5] <= n then 1 else 0;
    }
  }

  /** The bits of the mux register after an init: the two of the pin's group hold the function, low bit
      for the second and fourth, high bit for the third and fourth; all others are as they were. */
  lemma MuxAfterInit(port: PortName, r: Regs, n: PinNo, f: Function, d: Direction, b: nat)
    ensures var low := if port == H && n > 7 then 0 else 2 * GroupOf(port, n);
            b in Apply(port, r, Init(n, f, d)).mux <==>
            if f.FunctionGPIO? || (b != low && b != low + 1) then b in r.mux
            else if b == low then f.FunctionSecond? || f.FunctionFourth?
            else f.FunctionThird? || f.FunctionFourth?
  {
    OffsetExact(port, n);
  }

  /** An input is enabled, not driven, senses a high level and interrupts on no line; an output is
      driven low and not enabled as input. All other pins are as they were, and so is BOTH. */
  lemma DirectionAfterInit(port: PortName, r: Regs, n: PinNo, f: Function, d: Direction, q: PinNo)
    ensures var r' := Apply(port, r, Init(n, f, d));
            && (q in r'.dir <==> if q == n then d.ModeOut? else q in r.dir)
            && (q in r'.inen <==> if q == n then d.ModeIn? else q in r.inen)
            && (q in r'.level <==> q in r.level && (q != n || d.ModeIn?))
            && (q in r'.edge <==> q in r.edge && (q != n || d.ModeOut?))
            && (q in r'.polar <==> q in r.polar && (q != n || d.ModeOut?))
            && (q in r'.maskA <==> q in r.maskA && (q != n || d.ModeOut?))
            && (q in r'.maskB <==> q in r.maskB && (q != n || d.ModeOut?))
            && r'.both == r.both
  {
  }

  /** So a pin of port H above 7 takes the first four pins with it. */
  lemma HighPinsOfH(r: Regs, n: PinNo, q: PinNo, d: Direction)
    requires n > 7 && q <= 3 && RouteOf(H, r, q) == Peripheral(1)
    ensures RouteOf(H, Apply(H, r, Init(n, FunctionFirst, d)), q) == Peripheral(0)
  {
    InitRoutes(H, r, n, FunctionFirst, d, q);
  }

  /* ---- interrupts ---- */

  /** The sense the three registers stand for. */
  function Decode(r: Regs, n: PinNo): Sense {
    if n !in r.edge then (if n !in r.polar then High else Low)
    else if n in r.both then AnyEdge
    else if n !in r.polar then RisingEdge
    else FallingEdge
  }

  /** The lines a pin interrupt goes to. */
  function Lines(r: Regs, n: PinNo): (bool, bool) { (n in r.maskA, n in r.maskB) }

  /** The sense and lines that the calls so far ask for, the last one counting. */
  datatype Wish = Wish(sense: Sense, lines: (bool, bool))

  function Wanted(w: Wish, call: Call, n: PinNo): Wish {
    if call.n != n then w else
    match call
    case InterruptA(_, s) => Wish(s, (true, false))
    case InterruptB(_, s) => Wish(s, (false, true))
    case Init(_, _, d) => if d == ModeIn then Wish(High, (false, false)) else w
    case SetA(_, on) => w.(lines := (on, w.lines.1))
    case SetB(_, on) => w.(lines := (w.lines.0, on))
  }

  function WantedAfter(w: Wish, calls: seq<Call>, n: PinNo): Wish {
    if calls == [] then w else Wanted(WantedAfter(w, calls[..|calls| - 1], n), calls[|calls| - 1], n)
  }

  function Run(port: PortName, r: Regs, calls: seq<Call>): Regs {
    if calls == [] then r else Apply(port, Run(port, r, calls[..|calls| - 1]), calls[|calls| - 1])
  }

  lemma OneCall(port: PortName, r: Regs, call: Call, n: PinNo)
    ensures var r' := Apply(port, r, call);
            Wish(Decode(r', n), Lines(r', n)) == Wanted(Wish(Decode(r, n), Lines(r, n)), call, n)
  {
  }

  /** Over every run, each pin has the sense and the lines last asked for, whatever was in BOTH. */
  lemma {:induction false} RunAsWanted(port: PortName, r: Regs, calls: seq<Call>, n: PinNo)
    ensures var r' := Run(port, r, calls);
            Wish(Decode(r', n), Lines(r', n)) == WantedAfter(Wish(Decode(r, n), Lines(r, n)), calls, n)
  {
    if calls != [] {
      RunAsWanted(port, r, calls[..|calls| - 1], n);
      OneCall(port, Run(port, r, calls[..|calls| - 1]), calls[|calls| - 1], n);
    }
  }

  /** Switching a pin on for one line while it is on the other. */
  predicate Crosses(r: Regs, call: Call) {
    (call.SetA? && call.on && call.n in r.maskB) || (call.SetB? && call.on && call.n in r.maskA)
  }

  /** No pin is on both lines at the start or after any call of a run. */
  predicate Apart(port: PortName, r: Regs, calls: seq<Call>) {
    if calls == [] then r.maskA !! r.maskB
    else Apart(port, r, calls[..|calls| - 1]) && Run(port, r, calls).maskA !! Run(port, r, calls).maskB
  }

  predicate AnyCrosses(port: PortName, r: Regs, calls: seq<Call>) {
    calls != []
    && var before := calls[..|calls| - 1];
      AnyCrosses(port, r, before) || Crosses(Run(port, r, before), calls[|calls| - 1])
  }

  lemma CrossingExact(port: PortName, r: Regs, call: Call)
    requires r.maskA !! r.maskB
    ensures Apply(port, r, call).maskA !! Apply(port, r, call).maskB <==> !Crosses(r, call)
  {
    if Crosses(r, call) {
      assert call.n in Apply(port, r, call).maskA && call.n in Apply(port, r, call).maskB;
    }
  }

  /** No call of a run leaves a pin on both lines exactly if none switches on a line while the pin is
      on the other. */
  lemma {:induction false} NeverBothLines(port: PortName, r: Regs, calls: seq<Call>)
    requires r.maskA !! r.maskB
    ensures Apart(port, r, calls) <==> !AnyCrosses(port, r, calls)
    ensures Apart(port, r, calls) ==> Run(port, r, calls).maskA !! Run(port, r, calls).maskB
  {
    if calls != [] {
      NeverBothLines(port, r, calls[..|calls| - 1]);
      if Apart(port, r, calls[..|calls| - 1]) {
        CrossingExact(port, Run(port, r, calls[..|calls| - 1]), calls[|calls| - 1]);
      }
    }
  }

  /** In particular, whatever gpio_init, gpio_interruptA and gpio_interruptB are called for, no pin is
      ever on both. */
  lemma {:induction false} InterruptsApart(port: PortName, r: Regs, calls: seq<Call>)
    requires r.maskA !! r.maskB && forall k :: 0 <= k < |calls| ==> !calls[k].SetA? && !calls[k].SetB?
    ensures !AnyCrosses(port, r, calls) && Apart(port, r, calls)
  {
    if calls != [] {
      InterruptsApart(port, r, calls[..|calls| - 1]);
    }
    NeverBothLines(port, r, calls);
  }
}

/** The pins SPI_Init sets up and the selects drive (cvteBF51x_SPI.c), on mux registers that all
    users share. */
module SpiPins {
  import opened Gpio

  datatype Spi = Spi0 | Spi1
  datatype Nss = Soft | Hard
  datatype Device = Device(spi: Spi, ssel: nat, nss: Nss)

  /** The registers of the three ports. */
  datatype Pins = Pins(f: Regs, g: Regs, h: Regs)

  function PortOf(v: Pins, p: PortName): Regs {
    match p
    case F => v.f
    case G => v.g
    case H => v.h
  }

  datatype PinInit = PinInit(port: PortName, n: PinNo, function_: Function)

  /** gpio_init for output on one of the ports. */
  function ApplyInit(v: Pins, i: PinInit): Pins {
    match i.port
    case F => v.(f := Apply(F, v.f, Init(i.n, i.function_, ModeOut)))
    case G => v.(g := Apply(G, v.g, Init(i.n, i.function_, ModeOut)))
    case H => v.(h := Apply(H, v.h, Init(i.n, i.function_, ModeOut)))
  }

  function ApplyInits(v: Pins, inits: seq<PinInit>): Pins {
    if inits == [] then v else ApplyInit(ApplyInits(v, inits[..|inits| - 1]), inits[|inits| - 1])
  }

  /** The select pin of a device and its function: GPIO when software drives it. */
  function SelectInit(d: Device): seq<PinInit> {
    match d.spi
    case Spi0 =>
      if d.ssel == 1 then [PinInit(F, 7, if d.nss.Soft? then FunctionGPIO else FunctionFirst)]
      else if d.ssel == 2 then [PinInit(G, 15, if d.nss.Soft? then FunctionGPIO else FunctionFirst)]
      else if d.ssel == 3 then [PinInit(H, 4, if d.nss.Soft? then FunctionGPIO else FunctionThird)]
      else if d.ssel == 5 then [PinInit(G, 3, if d.nss.Soft? then FunctionGPIO else FunctionThird)]
      else []
    case Spi1 =>
      if d.ssel == 1 then [PinInit(H, 6, if d.nss.Soft? then FunctionGPIO else FunctionThird)]
      else if d.ssel == 2 then [PinInit(F, 0, if d.nss.Soft? then FunctionGPIO else FunctionThird)]
      else if d.ssel == 3 then [PinInit(G, 0, if d.nss.Soft? then FunctionGPIO else FunctionThird)]
      else if d.ssel == 4 then [PinInit(F, 8, if d.nss.Soft? then FunctionGPIO else FunctionThird)]
      else if d.ssel == 5 then [PinInit(G, 11, if d.nss.Soft? then FunctionGPIO else FunctionThird)]
      else []
  }

  function DataInit(spi: Spi): seq<PinInit> {
    match spi
    case Spi0 =>
      [PinInit(G, 12, FunctionFirst), PinInit(G, 13, FunctionFirst), PinInit(G, 14, FunctionFirst),
       PinInit(G, 15, FunctionFirst)]
    case Spi1 =>
      [PinInit(H, 0, FunctionSecond), PinInit(H, 1, FunctionSecond), PinInit(H, 2, FunctionSecond),
       PinInit(H, 3, FunctionSecond)]
  }

  function AfterInit(v: Pins, d: Device): Pins { ApplyInits(ApplyInits(v, DataInit(d.spi)), SelectInit(d)) }

  /** A pin driven high or low. */
  function Drive(v: Pins, p: PortName, n: PinNo, high: bool): Pins {
    var change := (r: Regs) => if high then r.(level := r.level + {n}) else r.(level := r.level - {n});
    match p
    case F => v.(f := change(v.f))
    case G => v.(g := change(v.g))
    case H => v.(h := change(v.h))
  }

  /** The select pin of a device, the one its set-up configures, driven high or low. A device
      selected by the hardware, or by a number without a pin, is left alone. */
  function Select(v: Pins, d: Device, high: bool): Pins {
    if d.nss.Hard? || SelectInit(d) == [] then v else Drive(v, SelectInit(d)[0].port, SelectInit(d)[0].n, high)
  }

  class Board {
    const f: GpioPort
    const g: GpioPort
    const h: GpioPort

    constructor ()
      ensures Valid() && fresh(f) && fresh(g) && fresh(h)
    {
      f := new GpioPort(F);
      g := new GpioPort(G);
      h := new GpioPort(H);
    }

    ghost predicate Valid() { f.name == F && g.name == G && h.name == H }

    function View(): Pins
      reads f, g, h
    {
      Pins(f.View(), g.View(), h.View())
    }

    method InitPin(p: PortName, n: PinNo, function_: Function)
      requires Valid()
      modifies f, g, h
      ensures View() == ApplyInit(old(View()), PinInit(p, n, function_))
    {
      match p {
        case F => f.gpio_init(n, function_, ModeOut);
        case G => g.gpio_init(n, function_, ModeOut);
        case H => h.gpio_init(n, function_, ModeOut);
      }
    }

    method SPI_IO_Init(spi: Spi)
      requires Valid()
      modifies f, g, h
      ensures View() == ApplyInits(old(View()), DataInit(spi))
    {
      ghost var v := View();
      if spi == Spi0 {
        InitPin(G, 12, FunctionFirst);
        InitPin(G, 13, FunctionFirst);
        InitPin(G, 14, FunctionFirst);
        InitPin(G, 15, FunctionFirst);
      } else {
        InitPin(H, 0, FunctionSecond);
        InitPin(H, 1, FunctionSecond);
        InitPin(H, 2, FunctionSecond);
        InitPin(H, 3, FunctionSecond);
      }
      FourInits(v, DataInit(spi));
    }

    method SPI_SSEL_SW_Init(spi: Spi, ssel: nat)
      requires Valid()
      modifies f, g, h
      ensures View() == ApplyInits(old(View()), SelectInit(Device(spi, ssel, Soft)))
    {
      OneInit(View(), SelectInit(Device(spi, ssel, Soft)));
      if spi == Spi0 {
        match ssel {
          case 1 => InitPin(F, 7, FunctionGPIO);
          case 2 => InitPin(G, 15, FunctionGPIO);
          case 3 => InitPin(H, 4, FunctionGPIO);
          case 4 =>
          case 5 => InitPin(G, 3, FunctionGPIO);
          case _ =>
        }
      } else {
        match ssel {
          case 1 => InitPin(H, 6, FunctionGPIO);
          case 2 => InitPin(F, 0, FunctionGPIO);
          case 3 => InitPin(G, 0, FunctionGPIO);
          case 4 => InitPin(F, 8, FunctionGPIO);
          case 5 => InitPin(G, 11, FunctionGPIO);
          case _ =>
        }
      }
    }

    method SPI_SSEL_HW_Init(spi: Spi, ssel: nat)
      requires Valid()
      modifies f, g, h
      ensures View() == ApplyInits(old(View()), SelectInit(Device(spi, ssel, Hard)))
    {
      OneInit(View(), SelectInit(Device(spi, ssel, Hard)));
      if spi == Spi0 {
        match ssel {
          case 1 => InitPin(F, 7, FunctionFirst);
          case 2 => InitPin(G, 15, FunctionFirst);
          case 3 => InitPin(H, 4, FunctionThird);
          case 4 =>
          case 5 => InitPin(G, 3, FunctionThird);
          case _ =>
        }
      } else {
        match ssel {
          case 1 => InitPin(H, 6, FunctionThird);
          case 2 => InitPin(F, 0, FunctionThird);
          case 3 => InitPin(G, 0, FunctionThird);
          case 4 => InitPin(F, 8, FunctionThird);
          case 5 => InitPin(G, 11, FunctionThird);
          case _ =>
        }
      }
    }

    method SPI_Init(d: Device)
      requires Valid()
      modifies f, g, h
      ensures View() == AfterInit(old(View()), d)
    {
      SPI_IO_Init(d.spi);
      if d.nss == Soft {
        SPI_SSEL_SW_Init(d.spi, d.ssel);
      } else {
        SPI_SSEL_HW_Init(d.spi, d.ssel);
      }
    }

    method SPI_SSEL_HIGH(d: Device)
      requires Valid()
      modifies f, g, h
      ensures View() == Select(old(View()), d, true)
    {
      if d.nss == Hard {
        return;
      }
      if d.spi == Spi0 {
        match d.ssel {
          case 1 => f.gpio_set(7);
          case 2 => g.gpio_set(15);
          case 3 => h.gpio_set(4);
          case 4 =>
          case 5 => g.gpio_set(3);
          case _ =>
        }
      } else {
        match d.ssel {
          case 1 => h.gpio_set(6);
          case 2 => f.gpio_set(0);
          case 3 => g.gpio_set(0);
          case 4 => f.gpio_set(8);
          case 5 => g.gpio_set(11);
          case _ =>
        }
      }
    }

    method SPI_SSEL_LOW(d: Device)
      requires Valid()
      modifies f, g, h
      ensures View() == Select(old(View()), d, false)
    {
      if d.nss == Hard {
        return;
      }
      if d.spi == Spi0 {
        match d.ssel {
          case 1 => f.gpio_clear(7);
          case 2 => g.gpio_clear(15);
          case 3 => h.gpio_clear(4);
          case 4 =>
          case 5 => g.gpio_clear(3);
          case _ =>
        }
      } else {
        match d.ssel {
          case 1 => h.gpio_clear(6);
          case 2 => f.gpio_clear(0);
          case 3 => g.gpio_clear(0);
          case 4 => f.gpio_clear(8);
          case 5 => g.gpio_clear(11);
          case _ =>
        }
      }
    }

    /** A run of set-ups and of transfers, of which only the selects touch the pins. */
    method UseAll(uses: seq<Use>)
      requires Valid()
      modifies f, g, h
      ensures View() == AfterUses(old(View()), uses)
    {
      for k := 0 to |uses|
        invariant View() == AfterUses(old(View()), uses[..k])
      {
        assert uses[..k + 1][..k] == uses[..k];
        match uses[k] {
          case SetUp(d) =>
            SPI_Init(d);
          case Transfer(d) =>
            SPI_SSEL_LOW(d);
            SPI_SSEL_HIGH(d);
        }
      }
      assert uses[..|uses|] == uses;
    }

    /** Any interleaving of set-ups leaves the data pins of every port set up so far routed. */
    method SetUpAll(ds: seq<Device>)
      requires Valid()
      modifies f, g, h
      ensures forall i :: 0 <= i < |ds| ==> Routed(View(), ds[i].spi)
    {
      for k := 0 to |ds|
        invariant forall i :: 0 <= i < k ==> Routed(View(), ds[i].spi)
      {
        ghost var v := View();
        SPI_Init(ds[k]);
        OwnPins(v, ds[k]);
        OthersKept(v, ds[k], Spi0);
        OthersKept(v, ds[k], Spi1);
      }
    }
  }

  lemma OneInit(v: Pins, inits: seq<PinInit>)
    requires |inits| <= 1
    ensures ApplyInits(v, inits) == if inits == [] then v else ApplyInit(v, inits[0])
  {
    if inits != [] {
      assert inits[..0] == [];
    }
  }

  lemma FourInits(v: Pins, inits: seq<PinInit>)
    requires |inits| == 4
    ensures ApplyInits(v, inits)
            == ApplyInit(ApplyInit(ApplyInit(ApplyInit(v, inits[0]), inits[1]), inits[2]), inits[3])
  {
    OneMoreInit(v, inits, 0);
    OneMoreInit(v, inits, 1);
    OneMoreInit(v, inits, 2);
    OneMoreInit(v, inits, 3);
    assert inits[..4] == inits;
  }

  lemma OneMoreInit(v: Pins, inits: seq<PinInit>, k: nat)
    requires k < |inits|
    ensures ApplyInits(v, inits[..k + 1]) == ApplyInit(ApplyInits(v, inits[..k]), inits[k])
  {
    assert inits[..k + 1][..k] == inits[..k];
  }

  /** The clock and data pins of a port are on its peripheral. PG15 of the first port may be
      taken for the select. */
  predicate Routed(v: Pins, spi: Spi) {
    match spi
    case Spi0 =>
      RouteOf(G, v.g, 12) == RouteOf(G, v.g, 13) == RouteOf(G, v.g, 14) == Peripheral(0)
    case Spi1 =>
      RouteOf(H, v.h, 0) == RouteOf(H, v.h, 1) == RouteOf(H, v.h, 2) == RouteOf(H, v.h, 3) == Peripheral(1)
  }

  /** An init that cannot hurt the pins of a port: another mux field, or the same function. */
  predicate Harmless(i: PinInit, spi: Spi) {
    match spi
    case Spi0 => i.port == G && 12 <= i.n ==> i.function_ == FunctionFirst || (i.n == 15 && i.function_ == FunctionGPIO)
    case Spi1 =>
      i.port == H && (i.n <= 3 || i.n > 7) ==>
        i.function_ == FunctionSecond || (i.n > 7 && i.function_ == FunctionGPIO)
  }

  lemma HarmlessKeeps(v: Pins, i: PinInit, spi: Spi)
    requires Harmless(i, spi) && Routed(v, spi)
    ensures Routed(ApplyInit(v, i), spi)
  {
    if spi == Spi0 && i.port == G {
      forall q: PinNo | 12 <= q <= 14 {
        InitRoutes(G, v.g, i.n, i.function_, ModeOut, q);
      }
    }
    if spi == Spi1 && i.port == H {
      forall q: PinNo | q <= 3 {
        InitRoutes(H, v.h, i.n, i.function_, ModeOut, q);
      }
    }
  }

  function AllRouted(): Pins {
    var blank := Regs({}, {}, {}, {}, {}, {}, {}, {}, {}, {});
    Pins(blank, blank.(fer := {12, 13, 14}), blank.(fer := {0, 1, 2, 3}, mux := {0}))
  }

  /** And no other init is safe: it takes a pin away from the port when both are set up. */
  lemma HarmfulBreaks(i: PinInit, spi: Spi)
    requires !Harmless(i, spi)
    ensures Routed(AllRouted(), spi) && !Routed(ApplyInit(AllRouted(), i), spi)
  {
    var v, port := AllRouted(), if spi == Spi0 then G else H;
    assert i.port == port;
    InitRoutes(port, PortOf(v, port), i.n, i.function_, ModeOut, i.n);
    InitRoutes(port, PortOf(v, port), i.n, i.function_, ModeOut, if spi == Spi0 then 12 else 0);
  }

  lemma {:induction false} AllHarmlessKeep(v: Pins, inits: seq<PinInit>, spi: Spi)
    requires Routed(v, spi) && forall k :: 0 <= k < |inits| ==> Harmless(inits[k], spi)
    ensures Routed(ApplyInits(v, inits), spi)
  {
    if inits != [] {
      AllHarmlessKeep(v, inits[..|inits| - 1], spi);
      HarmlessKeeps(ApplyInits(v, inits[..|inits| - 1]), inits[|inits| - 1], spi);
    }
  }

  lemma OthersKept(v: Pins, d: Device, spi: Spi)
    ensures Routed(v, spi) ==> Routed(AfterInit(v, d), spi)
  {
    if Routed(v, spi) {
      AllHarmlessKeep(v, DataInit(d.spi), spi);
      AllHarmlessKeep(ApplyInits(v, DataInit(d.spi)), SelectInit(d), spi);
    }
  }

  /** Pins of one mux field that are set up one after the other with the same function all end
      up on it. */
  lemma {:induction false} GroupRouted(v: Pins, inits: seq<PinInit>, port: PortName, fn: Function, k: nat)
    requires !fn.FunctionGPIO? && k < |inits|
    requires forall i :: 0 <= i < |inits| ==>
               inits[i].port == port && inits[i].function_ == fn && Offset(port, inits[i].n) == Offset(port, inits[k].n)
    ensures RouteOf(port, PortOf(ApplyInits(v, inits), port), inits[k].n) == Peripheral(Code(fn))
  {
    var before, last := inits[..|inits| - 1], inits[|inits| - 1];
    if k < |before| {
      GroupRouted(v, before, port, fn, k);
    }
    InitRoutes(port, PortOf(ApplyInits(v, before), port), last.n, fn, ModeOut, inits[k].n);
  }

  lemma OwnPins(v: Pins, d: Device)
    ensures Routed(AfterInit(v, d), d.spi)
  {
    var inits := DataInit(d.spi);
    forall k: nat | k < 4
      ensures RouteOf(inits[k].port, PortOf(ApplyInits(v, inits), inits[k].port), inits[k].n) ==
                Peripheral(Code(inits[k].function_))
    {
      GroupRouted(v, inits, inits[k].port, inits[k].function_, k);
    }
    assert inits[0].n < inits[1].n < inits[2].n < inits[3].n;
    AllHarmlessKeep(ApplyInits(v, inits), SelectInit(d), d.spi);
  }

  /** The pin that selecting a device drives is the one its set-up configured as a GPIO output when
      software does the selecting. */
  lemma SelectPinReady(v: Pins, d: Device, i: PinInit, high: bool)
    requires d.nss.Soft? && SelectInit(d) == [i]
    ensures var r := PortOf(Select(AfterInit(v, d), d, high), i.port);
            RouteOf(i.port, r, i.n) == Gpio && i.n in r.dir && (i.n in r.level <==> high)
  {
    var w := ApplyInits(v, DataInit(d.spi));
    OneInit(w, SelectInit(d));
    InitRoutes(i.port, PortOf(w, i.port), i.n, i.function_, ModeOut, i.n);
    SelectKeepsRoutes(AfterInit(v, d), d, high, i.port, i.n);
  }

  /** With hardware select, the pin is on the peripheral: PF7 and PG15 by their first function, the others
      by their third. */
  lemma HardSelectRouted(v: Pins, d: Device, i: PinInit)
    requires d.nss.Hard? && SelectInit(d) == [i]
    ensures RouteOf(i.port, PortOf(AfterInit(v, d), i.port), i.n) ==
            Peripheral(if (i.port == F && i.n == 7) || (i.port == G && i.n == 15) then 0 else 2)
  {
    var w := ApplyInits(v, DataInit(d.spi));
    OneInit(w, SelectInit(d));
    InitRoutes(i.port, PortOf(w, i.port), i.n, i.function_, ModeOut, i.n);
  }

  /** No two devices share a select pin. */
  lemma SelectDistinct(d: Device, e: Device)
    requires SelectInit(d) != [] && SelectInit(e) != []
    ensures SelectInit(d)[0].port == SelectInit(e)[0].port && SelectInit(d)[0].n == SelectInit(e)[0].n <==>
            d.spi == e.spi && d.ssel == e.ssel
  {
  }

  /** Driving a select pin leaves all routes and directions alone. */
  lemma SelectKeepsRoutes(v: Pins, d: Device, high: bool, p: PortName, n: PinNo)
    ensures var r, r' := PortOf(v, p), PortOf(Select(v, d, high), p);
            RouteOf(p, r', n) == RouteOf(p, r, n) && r'.dir == r.dir
  {
  }

  /** Selecting and releasing a device that was released changes nothing. */
  lemma SelectReleases(v: Pins, d: Device)
    ensures Select(Select(v, d, false), d, true) == Select(v, d, true)
    ensures Select(Select(v, d, true), d, true) == Select(v, d, true)
  {
    if !d.nss.Hard? && SelectInit(d) != [] {
      var i := SelectInit(d)[0];
      var r := PortOf(v, i.port);
      assert r.level - {i.n} + {i.n} == r.level + {i.n};
      assert r.level + {i.n} + {i.n} == r.level + {i.n};
    }
  }

  /* ---- select pins over runs ---- */

  /** Setting a device up, or a whole transfer to it. */
  datatype Use = SetUp(d: Device) | Transfer(d: Device)

  function AfterUse(v: Pins, u: Use): Pins {
    match u
    case SetUp(d) => AfterInit(v, d)
    case Transfer(d) => Select(Select(v, d, false), d, true)
  }

  function AfterUses(v: Pins, uses: seq<Use>): Pins {
    if uses == [] then v else AfterUse(AfterUses(v, uses[..|uses| - 1]), uses[|uses| - 1])
  }

  /** The pin is the select pin of the device, or one of its data pins. */
  predicate IsSelect(d: Device, p: PortName, n: PinNo) {
    SelectInit(d) != [] && SelectInit(d)[0].port == p && SelectInit(d)[0].n == n
  }

  predicate IsData(spi: Spi, p: PortName, n: PinNo) {
    match spi
    case Spi0 => p == G && n >= 12
    case Spi1 => p == H && n <= 3
  }

  /** What a use does to a pin: it gives it to the software, takes it for the peripheral, drives it low
      (gpio_init for output does) or leaves it high. */
  predicate Frees(u: Use, p: PortName, n: PinNo) { u.SetUp? && u.d.nss.Soft? && IsSelect(u.d, p, n) }

  predicate Takes(u: Use, p: PortName, n: PinNo) {
    u.SetUp? && !Frees(u, p, n) && (IsSelect(u.d, p, n) || IsData(u.d.spi, p, n))
  }

  predicate Lowers(u: Use, p: PortName, n: PinNo) { Frees(u, p, n) || Takes(u, p, n) }

  predicate Raises(u: Use, p: PortName, n: PinNo) { u.Transfer? && u.d.nss.Soft? && IsSelect(u.d, p, n) }

  /** Whether a pin is on GPIO, and whether it is low, by the last use that touched it. */
  predicate OnGpio(before: bool, uses: seq<Use>, p: PortName, n: PinNo) {
    if uses == [] then before
    else
      var u := uses[|uses| - 1];
      Frees(u, p, n) || (!Takes(u, p, n) && OnGpio(before, uses[..|uses| - 1], p, n))
  }

  predicate IsLow(before: bool, uses: seq<Use>, p: PortName, n: PinNo) {
    if uses == [] then before
    else
      var u := uses[|uses| - 1];
      Lowers(u, p, n) || (!Raises(u, p, n) && IsLow(before, uses[..|uses| - 1], p, n))
  }

  predicate GpioPin(v: Pins, p: PortName, n: PinNo) { RouteOf(p, PortOf(v, p), n) == Gpio.Gpio }

  predicate LowPin(v: Pins, p: PortName, n: PinNo) { n !in PortOf(v, p).level }

  lemma ApplyInitPin(v: Pins, i: PinInit, p: PortName, n: PinNo)
    ensures var hit, v' := i.port == p && i.n == n, ApplyInit(v, i);
            && (GpioPin(v', p, n) <==> if hit then i.function_.FunctionGPIO? else GpioPin(v, p, n))
            && (LowPin(v', p, n) <==> hit || LowPin(v, p, n))
  {
    if i.port == p {
      InitRoutes(p, PortOf(v, p), i.n, i.function_, ModeOut, n);
    }
  }

  predicate Hit(inits: seq<PinInit>, p: PortName, n: PinNo) {
    inits != [] && (Hit(inits[..|inits| - 1], p, n) || (inits[|inits| - 1].port == p && inits[|inits| - 1].n == n))
  }

  lemma {:induction false} PeripheralInits(v: Pins, inits: seq<PinInit>, p: PortName, n: PinNo)
    requires forall k :: 0 <= k < |inits| ==> !inits[k].function_.FunctionGPIO?
    ensures GpioPin(ApplyInits(v, inits), p, n) <==> GpioPin(v, p, n) && !Hit(inits, p, n)
    ensures LowPin(ApplyInits(v, inits), p, n) <==> LowPin(v, p, n) || Hit(inits, p, n)
  {
    if inits != [] {
      var before := inits[..|inits| - 1];
      PeripheralInits(v, before, p, n);
      ApplyInitPin(ApplyInits(v, before), inits[|inits| - 1], p, n);
    }
  }

  lemma HitFour(inits: seq<PinInit>, p: PortName, n: PinNo)
    requires |inits| == 4
    ensures Hit(inits, p, n) <==> exists k :: 0 <= k < 4 && inits[k].port == p && inits[k].n == n
  {
    assert inits[..3][..2] == inits[..2] && inits[..2][..1] == inits[..1] && inits[..1][..0] == [];
    assert Hit(inits[..1], p, n) <==> inits[0].port == p && inits[0].n == n;
    assert Hit(inits[..2], p, n) <==> Hit(inits[..1], p, n) || (inits[1].port == p && inits[1].n == n);
    assert Hit(inits[..3], p, n) <==> Hit(inits[..2], p, n) || (inits[2].port == p && inits[2].n == n);
  }

  lemma DataPins(spi: Spi, p: PortName, n: PinNo)
    ensures Hit(DataInit(spi), p, n) <==> IsData(spi, p, n)
  {
    var inits := DataInit(spi);
    HitFour(inits, p, n);
    if IsData(spi, p, n) {
      var k := if spi == Spi0 then n - 12 else n;
      assert inits[k].port == p && inits[k].n == n;
    }
  }

  lemma SetUpPin(v: Pins, d: Device, p: PortName, n: PinNo)
    ensures GpioPin(AfterInit(v, d), p, n) <==> Frees(SetUp(d), p, n) || (!Takes(SetUp(d), p, n) && GpioPin(v, p, n))
    ensures LowPin(AfterInit(v, d), p, n) <==> Lowers(SetUp(d), p, n) || LowPin(v, p, n)
  {
    var w := ApplyInits(v, DataInit(d.spi));
    PeripheralInits(v, DataInit(d.spi), p, n);
    DataPins(d.spi, p, n);
    OneInit(w, SelectInit(d));
    if SelectInit(d) != [] {
      ApplyInitPin(w, SelectInit(d)[0], p, n);
    }
  }

  lemma SelectPinAt(v: Pins, d: Device, high: bool, p: PortName, n: PinNo)
    ensures GpioPin(Select(v, d, high), p, n) <==> GpioPin(v, p, n)
    ensures LowPin(Select(v, d, high), p, n) <==> if d.nss.Soft? && IsSelect(d, p, n) then !high else LowPin(v, p, n)
  {
    SelectKeepsRoutes(v, d, high, p, n);
  }

  /** Over every run of set-ups and transfers, where each pin is routed and whether it is low. */
  lemma {:induction false} PinAfterUses(v: Pins, uses: seq<Use>, p: PortName, n: PinNo)
    ensures GpioPin(AfterUses(v, uses), p, n) <==> OnGpio(GpioPin(v, p, n), uses, p, n)
    ensures LowPin(AfterUses(v, uses), p, n) <==> IsLow(LowPin(v, p, n), uses, p, n)
  {
    if uses != [] {
      var init, u := uses[..|uses| - 1], uses[|uses| - 1];
      var w := AfterUses(v, init);
      PinAfterUses(v, init, p, n);
      match u {
        case SetUp(d) => SetUpPin(w, d, p, n);
        case Transfer(d) =>
          SelectPinAt(w, d, false, p, n);
          SelectPinAt(Select(w, d, false), d, true, p, n);
      }
    }
  }

  /** When a second set-up takes the select pin of a device away from the software: if it selects the
      same device by hardware, or routes PG15 back for the first port. */
  lemma TakesExact(d: Device, e: Device)
    requires SelectInit(d) != []
    ensures Takes(SetUp(e), SelectInit(d)[0].port, SelectInit(d)[0].n) <==>
            || (e.nss.Hard? && e.spi == d.spi && e.ssel == d.ssel)
            || (d.spi == Spi0 && d.ssel == 2 && e.spi == Spi0 && !(e.ssel == 2 && e.nss.Soft?))
  {
  }

  /** The slave listens: its pin is driven by software, and low. */
  predicate Selected(v: Pins, d: Device) {
    d.nss.Soft? && SelectInit(d) != []
    && GpioPin(v, SelectInit(d)[0].port, SelectInit(d)[0].n) && LowPin(v, SelectInit(d)[0].port, SelectInit(d)[0].n)
  }

  /** Which slaves listen during a transfer to e, after any run of set-ups and transfers. */
  lemma SelectedExact(v: Pins, uses: seq<Use>, d: Device, e: Device)
    requires d.nss.Soft? && SelectInit(d) != []
    ensures var p, n := SelectInit(d)[0].port, SelectInit(d)[0].n;
            Selected(Select(AfterUses(v, uses), e, false), d) <==>
              && OnGpio(GpioPin(v, p, n), uses, p, n)
              && ((e.nss.Soft? && IsSelect(e, p, n)) || IsLow(LowPin(v, p, n), uses, p, n))
  {
    var p, n := SelectInit(d)[0].port, SelectInit(d)[0].n;
    PinAfterUses(v, uses, p, n);
    SelectPinAt(AfterUses(v, uses), e, false, p, n);
  }

  /** So right after two slaves have been set up, a transfer to the second is heard by the first as
      well, unless that set-up took its pin away. */
  lemma TwoSelected(v: Pins, d: Device, e: Device)
    requires d.nss.Soft? && SelectInit(d) != [] && e.nss.Soft? && SelectInit(e) != []
    ensures var w := Select(AfterUses(v, [SetUp(d), SetUp(e)]), e, false);
            && Selected(w, e)
            && (Selected(w, d) <==> !(d.spi == Spi0 && d.ssel == 2 && e.spi == Spi0 && e.ssel != 2))
  {
    var uses := [SetUp(d), SetUp(e)];
    assert uses[..1] == [SetUp(d)] && uses[..1][..0] == [];
    SelectedExact(v, uses, d, e);
    SelectedExact(v, uses, e, e);
    TakesExact(d, e);
  }
}

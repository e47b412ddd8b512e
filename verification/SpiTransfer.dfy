/** Byte transfers over a full-duplex SPI port at register level (cvteBF51x_SPI.c). */
module SpiTransfer {
  import opened Bits
  import opened SpiPins

  const STAT_RXS := 32
  const STAT_TXS := 8

  /** One byte time on the wire: what went out, what came in, and all pin registers meanwhile. */
  datatype Beat = Beat(mosi: byte, miso: byte, pins: Pins)

  function Mosi(s: seq<Beat>): seq<byte> { seq(|s|, i requires 0 <= i < |s| => s[i].mosi) }

  function Miso(s: seq<Beat>): seq<byte> { seq(|s|, i requires 0 <= i < |s| => s[i].miso) }

  /** The port: a transmit register, a shift register and a receive register. The hardware moves
      on by itself between any two accesses of the program. */
  class Port {
    var tdbr: byte
    var txs: bool           // tdbr is full
    var shifter: byte
    var shifting: bool
    var rdbr: byte
    var rxs: bool           // rdbr is full
    const board: Board
    var slack: nat          // polls the hardware may still let go by without moving on
    ghost var wire: seq<Beat>
    ghost var lost: nat       // received bytes that found rdbr full
    ghost var collisions: nat // writes that found tdbr full

    constructor (board: Board)
      ensures this.board == board && Quiet() && wire == [] && lost == 0 && collisions == 0
    {
      this.board := board;
      txs, shifting, rxs := false, false, false;
      wire, lost, collisions := [], 0, 0;
    }

    /** Nothing waits anywhere. */
    ghost predicate Quiet()
      reads this
    {
      !txs && !shifting && !rxs
    }

    /** How far the byte in flight still has to go. */
    function Stage(): nat
      reads this
    {
      (if txs then 2 else 0) + if shifting then 1 else 0
    }

    function View(): Pins
      reads board.f, board.g, board.h
    {
      board.View()
    }

    ghost predicate Untouched(pins0: Pins, lost0: nat, collisions0: nat)
      reads this, board.f, board.g, board.h
    {
      View() == pins0 && lost == lost0 && collisions == collisions0
    }

    /** The one byte b is on its way: in tdbr, in the shifter, or through. */
    ghost predicate Carrying(b: byte, wire0: seq<Beat>)
      reads this, board.f, board.g, board.h
    {
      || (txs && !shifting && !rxs && tdbr == b && wire == wire0)
      || (!txs && shifting && !rxs && shifter == b && wire == wire0)
      || (!txs && !shifting && rxs && wire == wire0 + [Beat(b, rdbr, View())])
    }

    /** One hardware step: finish the byte being shifted, else load the next. */
    method Step()
      modifies this
      ensures Untouched(old(View()), if old(shifting && rxs) then old(lost) + 1 else old(lost), old(collisions))
      ensures slack == old(slack)
      ensures old(Stage()) == 0 ==> Stage() == 0 && rxs == old(rxs) && wire == old(wire)
      ensures old(Stage()) > 0 ==> Stage() < old(Stage())
      ensures forall b, w :: old(Carrying(b, w)) ==> Carrying(b, w)
    {
      if shifting {
        var received: byte := *;
        wire := wire + [Beat(shifter, received, View())];
        if rxs {
          lost := lost + 1;
        } else {
          rdbr, rxs := received, true;
        }
        shifting := false;
      } else if txs {
        shifter, shifting, txs := tdbr, true, false;
      }
    }

    /** Any number of hardware steps. While the slack lasts there may be none. */
    method Advance()
      modifies this
      ensures old(Quiet()) ==> Quiet() && wire == old(wire) && Untouched(old(View()), old(lost), old(collisions))
      ensures forall b, w :: old(Carrying(b, w)) ==>
                Carrying(b, w) && Untouched(old(View()), old(lost), old(collisions))
      ensures Stage() < old(Stage()) || Stage() == old(Stage()) == 0 || (Stage() == old(Stage()) && slack < old(slack))
    {
      var stage := Stage();
      var more: nat :| more >= 0;
      var steps := if slack == 0 then more + 1 else more;
      slack := if slack > 0 then slack - 1 else 0;
      var i := 0;
      while i < steps
        invariant old(Quiet()) ==> Quiet() && wire == old(wire) && Untouched(old(View()), old(lost), old(collisions))
        invariant forall b, w :: old(Carrying(b, w)) ==>
                  Carrying(b, w) && Untouched(old(View()), old(lost), old(collisions))
        invariant Stage() <= old(Stage())
        invariant i > 0 ==> Stage() < old(Stage()) || old(Stage()) == 0
        invariant slack == if old(slack) > 0 then old(slack) - 1 else 0
        decreases steps - i
      {
        Step();
        i := i + 1;
      }
      if Stage() < stage {
        slack := *;
      }
    }

    method ReadStat() returns (stat: nat)
      modifies this
      ensures old(Quiet()) ==> Quiet() && wire == old(wire) && Untouched(old(View()), old(lost), old(collisions))
      ensures forall b, w :: old(Carrying(b, w)) ==>
                Carrying(b, w) && Untouched(old(View()), old(lost), old(collisions))
      ensures Stage() < old(Stage()) || Stage() == old(Stage()) == 0 || (Stage() == old(Stage()) && slack < old(slack))
      ensures And(stat, 0x08) != 0 <==> txs
      ensures And(stat, 0x20) != 0 <==> rxs
    {
      Advance();
      stat := (if txs then 0x08 else 0) + if rxs then 0x20 else 0;
      StatBits(txs, rxs);
    }

    method WriteTdbr(b: byte)
      modifies this
      ensures tdbr == b && txs
      ensures shifting == old(shifting) && rxs == old(rxs) && wire == old(wire)
      ensures Untouched(old(View()), old(lost), if old(txs) then old(collisions) + 1 else old(collisions))
    {
      if txs {
        collisions := collisions + 1;
      }
      tdbr, txs := b, true;
    }

    method ReadRdbr() returns (b: byte)
      modifies this
      ensures b == old(rdbr) && !rxs
      ensures txs == old(txs) && shifting == old(shifting) && wire == old(wire)
      ensures Untouched(old(View()), old(lost), old(collisions))
    {
      b, rxs := rdbr, false;
    }
  }

  lemma StatBits(txs: bool, rxs: bool)
    ensures var stat := (if txs then STAT_TXS else 0) + (if rxs then STAT_RXS else 0);
            && (And(stat, STAT_TXS) != 0 <==> txs)
            && (And(stat, STAT_RXS) != 0 <==> rxs)
  {
    var stat := (if txs then STAT_TXS else 0) + (if rxs then STAT_RXS else 0);
    assert Pow2(3) == STAT_TXS;
    assert Pow2(5) == STAT_RXS;
    AndBit(stat, 3);
    AndBit(stat, 5);
    StatValues();
  }

  lemma StatValues()
    ensures !TestBit(0, 3) && TestBit(8, 3) && !TestBit(32, 3) && TestBit(40, 3)
    ensures !TestBit(0, 5) && !TestBit(8, 5) && TestBit(32, 5) && TestBit(40, 5)
  {
  }

  /** The busy wait for room in tdbr. */
  method WaitRoom(p: Port)
    modifies p
    ensures !p.txs
    ensures old(p.Quiet()) ==> p.Quiet() && p.wire == old(p.wire)
    ensures old(p.Quiet()) ==> p.Untouched(old(p.View()), old(p.lost), old(p.collisions))
  {
    var stat := p.ReadStat();
    while And(stat, STAT_TXS) != 0
      invariant old(p.Quiet()) ==> p.Quiet() && p.wire == old(p.wire)
      invariant old(p.Quiet()) ==> p.Untouched(old(p.View()), old(p.lost), old(p.collisions))
      invariant And(stat, STAT_TXS) != 0 <==> p.txs
      decreases p.Stage(), p.slack
    {
      stat := p.ReadStat();
    }
  }

  /** Wait for room, send, wait for the byte that comes back. */
  method Exchange(p: Port, b: byte) returns (r: byte)
    requires p.Quiet()
    modifies p
    ensures p.Quiet() && p.wire == old(p.wire) + [Beat(b, r, p.View())]
    ensures p.Untouched(old(p.View()), old(p.lost), old(p.collisions))
  {
    WaitRoom(p);
    p.WriteTdbr(b);
    ghost var wire0 := p.wire;
    var stat := p.ReadStat();
    while And(stat, STAT_RXS) == 0
      invariant p.Carrying(b, wire0) && p.Untouched(old(p.View()), old(p.lost), old(p.collisions))
      invariant And(stat, STAT_RXS) != 0 <==> p.rxs
      decreases p.Stage(), p.slack
    {
      stat := p.ReadStat();
    }
    r := p.ReadRdbr();
  }

  /** The bytes of one call: what went out, with the slave selected for every one of them. */
  ghost predicate OneFrame(sent: seq<Beat>, out: seq<byte>, pins: Pins) {
    Mosi(sent) == out && forall i :: 0 <= i < |sent| ==> sent[i].pins == pins
  }

  lemma OneMore(sent: seq<Beat>, out: seq<byte>, pins: Pins, b: Beat)
    requires OneFrame(sent, out, pins) && b.pins == pins
    ensures OneFrame(sent + [b], out + [b.mosi], pins)
    ensures Miso(sent + [b]) == Miso(sent) + [b.miso]
  {
  }

  /** Sends the bytes of `out` and throws away what comes back: either loop of SPI_write_buf. */
  method SendAll(p: Port, out: seq<byte>, ghost sent0: seq<Beat>, ghost out0: seq<byte>) returns (ghost sent: seq<Beat>)
    requires p.Quiet() && OneFrame(sent0, out0, p.View())
    modifies p
    ensures p.Quiet() && p.Untouched(old(p.View()), old(p.lost), old(p.collisions))
    ensures |sent| == |sent0| + |out| && sent[..|sent0|] == sent0
    ensures p.wire == old(p.wire) + sent[|sent0|..] && OneFrame(sent, out0 + out, p.View())
  {
    sent := sent0;
    for i := 0 to |out|
      invariant p.Quiet() && p.Untouched(old(p.View()), old(p.lost), old(p.collisions))
      invariant |sent| == |sent0| + i && sent[..|sent0|] == sent0
      invariant p.wire == old(p.wire) + sent[|sent0|..] && OneFrame(sent, out0 + out[..i], p.View())
    {
      var r := Exchange(p, out[i]);
      OneMore(sent, out0 + out[..i], p.View(), Beat(out[i], r, p.View()));
      sent := sent + [Beat(out[i], r, p.View())];
      assert out0 + out[..i + 1] == out0 + out[..i] + [out[i]];
    }
    assert out[..|out|] == out;
  }

  method SPI_write_buf(p: Port, d: Device, cmd: seq<byte>, buf: seq<byte>) returns (ghost sent: seq<Beat>)
    requires p.Quiet() && p.board.Valid()
    modifies p, p.board.f, p.board.g, p.board.h
    ensures p.Quiet() && p.Untouched(Select(old(p.View()), d, true), old(p.lost), old(p.collisions))
    ensures p.wire == old(p.wire) + sent && OneFrame(sent, cmd + buf, Select(old(p.View()), d, false))
  {
    SelectReleases(p.View(), d);
    p.board.SPI_SSEL_LOW(d);
    sent := SendAll(p, cmd, [], []);
    ghost var sent1 := sent;
    sent := SendAll(p, buf, sent1, cmd);
    assert [] + cmd == cmd && sent == sent1 + sent[|sent1|..];
    p.board.SPI_SSEL_HIGH(d);
  }

  function Zeros(n: nat): (r: seq<byte>)
    ensures |r| == n && forall i :: 0 <= i < n ==> r[i] == 0
  {
    seq(n, _ => 0)
  }

  /** Sends zeros and keeps what comes back: the second loop of SPI_read_buf. */
  method Receive(p: Port, buf: array<byte>, len: nat, ghost sent0: seq<Beat>, ghost out0: seq<byte>)
    returns (ghost sent: seq<Beat>)
    requires p.Quiet() && p.board.Valid() && OneFrame(sent0, out0, p.View()) && len <= buf.Length
    modifies p, buf
    ensures p.Quiet() && p.Untouched(old(p.View()), old(p.lost), old(p.collisions))
    ensures |sent| == |sent0| + len && sent[..|sent0|] == sent0
    ensures p.wire == old(p.wire) + sent[|sent0|..] && OneFrame(sent, out0 + Zeros(len), p.View())
    ensures buf[..len] == Miso(sent)[|sent0|..] && buf[len..] == old(buf[len..])
  {
    sent := sent0;
    for i := 0 to len
      invariant p.Quiet() && p.Untouched(old(p.View()), old(p.lost), old(p.collisions))
      invariant |sent| == |sent0| + i && sent[..|sent0|] == sent0
      invariant p.wire == old(p.wire) + sent[|sent0|..] && OneFrame(sent, out0 + Zeros(i), p.View())
      invariant buf[..i] == Miso(sent)[|sent0|..] && buf[len..] == old(buf[len..])
    {
      var r := Exchange(p, 0);
      OneMore(sent, out0 + Zeros(i), p.View(), Beat(0, r, p.View()));
      sent := sent + [Beat(0, r, p.View())];
      assert out0 + Zeros(i + 1) == out0 + Zeros(i) + [0];
      buf[i] := r;
    }
  }

  method SPI_read_buf(p: Port, d: Device, cmd: seq<byte>, buf: array<byte>, len: nat) returns (ghost sent: seq<Beat>)
    requires p.Quiet() && p.board.Valid() && len <= buf.Length
    modifies p, p.board.f, p.board.g, p.board.h, buf
    ensures p.Quiet() && p.Untouched(Select(old(p.View()), d, true), old(p.lost), old(p.collisions))
    ensures p.wire == old(p.wire) + sent && OneFrame(sent, cmd + Zeros(len), Select(old(p.View()), d, false))
    ensures buf[..len] == Miso(sent)[|cmd|..] && buf[len..] == old(buf[len..])
  {
    SelectReleases(p.View(), d);
    p.board.SPI_SSEL_LOW(d);
    sent := SendAll(p, cmd, [], []);
    ghost var sent1 := sent;
    assert [] + cmd == cmd;
    sent := Receive(p, buf, len, sent1, cmd);
    assert sent == sent1 + sent[|sent1|..];
    p.board.SPI_SSEL_HIGH(d);
  }

  method SPI_write_byte(p: Port, d: Device, data: byte) returns (ret: byte)
    requires p.Quiet() && p.board.Valid()
    modifies p, p.board.f, p.board.g, p.board.h
    ensures p.Quiet() && p.Untouched(Select(old(p.View()), d, true), old(p.lost), old(p.collisions))
    ensures p.wire == old(p.wire) + [Beat(data, ret, Select(old(p.View()), d, false))]
  {
    SelectReleases(p.View(), d);
    p.board.SPI_SSEL_LOW(d);
    ret := Exchange(p, data);
    p.board.SPI_SSEL_HIGH(d);
  }

  method SPI_read_byte(p: Port, d: Device) returns (ret: byte)
    requires p.Quiet() && p.board.Valid()
    modifies p, p.board.f, p.board.g, p.board.h
    ensures p.Quiet() && p.Untouched(Select(old(p.View()), d, true), old(p.lost), old(p.collisions))
    ensures p.wire == old(p.wire) + [Beat(0, ret, Select(old(p.View()), d, false))]
  {
    SelectReleases(p.View(), d);
    p.board.SPI_SSEL_LOW(d);
    ret := Exchange(p, 0);
    p.board.SPI_SSEL_HIGH(d);
  }
}

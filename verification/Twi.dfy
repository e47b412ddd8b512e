/** The two-wire interface (TWI.c) with a digital potentiometer as its slave. */
module Twi {
  import opened Bits

  /** The potentiometer: its setting, the stored setting, and which of the two a read returns.
      One that does not respond ignores the commands that change a setting. */
  datatype Pot = Pot(rdac: byte, eeprom: byte, readsEeprom: bool, responds: bool)

  /** A write of the ROM call, with the three PLL registers after it; and the stores of the
      potentiometer, with PLL_CTL meanwhile. */
  datatype Event = PllWrite(ctl: u16, div: u16, lock: u16) | RdacStore(v: byte, ctl: u16) | EepromStore(v: byte)

  /** What a transaction does to the potentiometer. */
  function Deliver(p: Pot, msg: seq<byte>): Pot {
    if |msg| == 2 && msg[0] == 0x00 then (if p.responds then p.(rdac := msg[1]) else p)
    else if msg == [0xC0] then (if p.responds then p.(eeprom := p.rdac) else p)
    else if msg == [0x00] then p.(readsEeprom := false)
    else if msg == [0x20] then p.(readsEeprom := true)
    else p
  }

  /** The settings it stores. */
  function Stores(p: Pot, msg: seq<byte>, ctl: u16): seq<Event> {
    if !p.responds then []
    else if |msg| == 2 && msg[0] == 0x00 then [RdacStore(msg[1], ctl)]
    else if msg == [0xC0] then [EepromStore(p.rdac)]
    else []
  }

  function Reads(p: Pot): byte { if p.readsEeprom then p.eeprom else p.rdac }

  /** The transaction under way, as the program sees it: k bytes of a message handed over, or
      k of n bytes taken; and the state of the slave and the logs at its start. */
  datatype Goal =
    | Write(msg: seq<byte>, k: nat, start: Past)
    | Read(n: nat, k: nat, start: Past)

  datatype Past = Past(pot: Pot, delivered: seq<seq<byte>>, log: seq<Event>, ctl: u16, overfilled: nat)

  const XMTSTAT := 3
  const RCV_EMPTY := 0

  class Board {
    // PLL
    var pllCtl: u16
    var pllDiv: u16
    var lockCnt: u16
    // controller
    var tx: seq<byte>
    var rx: seq<byte>
    var busy: bool
    var reading: bool
    var left: nat             // bytes the running transaction has still to move
    var mcomp: bool
    var slack: nat            // status reads the hardware may still let go by
    // slave
    var pot: Pot
    var frame: seq<byte>      // bytes of the running write that have reached it
    ghost var delivered: seq<seq<byte>>
    ghost var log: seq<Event>
    ghost var overfilled: nat // bytes written to a full FIFO

    ghost predicate Quiet()
      reads this
    {
      !busy && tx == [] && rx == [] && frame == [] && !mcomp
    }

    ghost function Now(): Past
      reads this
    {
      Past(pot, delivered, log, pllCtl, overfilled)
    }

    /** The transaction g is under way, or complete once all its bytes have been handed over. */
    ghost predicate On(g: Goal)
      reads this
    {
      && pllCtl == g.start.ctl && overfilled == g.start.overfilled
      && match g
         case Write(msg, k, start) => if busy then Writing(msg, k, start) else Written(msg, k, start)
         case Read(n, k, start) => Reading(n, k, start)
    }

    ghost predicate Writing(msg: seq<byte>, k: nat, start: Past)
      reads this
    {
      && !reading && !mcomp && rx == [] && |tx| <= 2 && Now() == start
      && |frame| + |tx| == k <= |msg| && left == |msg| - |frame|
      && frame == msg[..|frame|] && tx == msg[|frame|..k]
    }

    ghost predicate Written(msg: seq<byte>, k: nat, start: Past)
      reads this
    {
      k == |msg| && mcomp && tx == [] && rx == [] && frame == [] && Sent(start, msg)
    }

    ghost predicate Reading(n: nat, k: nat, start: Past)
      reads this
    {
      && tx == [] && frame == [] && Now() == start && k + |rx| <= n && |rx| <= 2
      && (forall i :: 0 <= i < |rx| ==> rx[i] == Reads(pot))
      && (if busy then reading && !mcomp && left == n - k - |rx| else mcomp && k + |rx| == n)
    }

    ghost predicate Sent(start: Past, msg: seq<byte>)
      reads this
    {
      && pot == Deliver(start.pot, msg) && delivered == start.delivered + [msg]
      && log == start.log + Stores(start.pot, msg, start.ctl)
    }

    /** The bus waits for the program. */
    predicate Stalled()
      reads this
    {
      !busy || (left > 0 && if reading then |rx| >= 2 else tx == [])
    }

    function ToDo(): nat
      reads this
    {
      left + |tx| + if busy then 1 else 0
    }

    /** The last byte has been moved: the transaction ends. */
    method End(ghost g: Goal)
      requires On(g) && busy && left == 0
      modifies this
      ensures On(g) && !busy && left == 0 && tx == old(tx)
      ensures slack == old(slack) && pllDiv == old(pllDiv) && lockCnt == old(lockCnt)
    {
      if !reading {
        assert frame == g.msg;
        log := log + Stores(pot, frame, pllCtl);
        delivered := delivered + [frame];
        pot := Deliver(pot, frame);
        frame := [];
      }
      busy, mcomp := false, true;
    }

    /** One byte goes from the transmit FIFO to the slave. */
    method MoveOut(ghost g: Goal)
      requires On(g) && busy && left > 0 && !reading && tx != []
      modifies this
      ensures On(g) && busy && left == old(left) - 1 && |tx| == |old(tx)| - 1
      ensures slack == old(slack) && pllDiv == old(pllDiv) && lockCnt == old(lockCnt)
    {
      ghost var f := |frame|;
      assert tx[0] == g.msg[f];
      frame, tx, left := frame + [tx[0]], tx[1..], left - 1;
      assert g.msg[..f + 1] == g.msg[..f] + [g.msg[f]];
      assert g.msg[f + 1..g.k] == g.msg[f..g.k][1..];
    }

    /** One byte comes from the slave into the receive FIFO. */
    method MoveIn(ghost g: Goal)
      requires On(g) && busy && left > 0 && reading && |rx| < 2
      modifies this
      ensures On(g) && busy && left == old(left) - 1 && tx == old(tx)
      ensures slack == old(slack) && pllDiv == old(pllDiv) && lockCnt == old(lockCnt)
    {
      rx, left := rx + [Reads(pot)], left - 1;
    }

    /** One step of the bus: move a byte, or end the transaction. */
    method Step(ghost g: Goal)
      requires On(g)
      modifies this
      ensures On(g) && slack == old(slack) && pllDiv == old(pllDiv) && lockCnt == old(lockCnt)
      ensures if old(Stalled()) then Stalled() && ToDo() == old(ToDo()) else ToDo() < old(ToDo())
    {
      if busy {
        if left == 0 {
          End(g);
        } else if reading {
          if |rx| < 2 {
            MoveIn(g);
          }
        } else if tx != [] {
          MoveOut(g);
        }
      }
    }

    /** Any number of steps; while the slack lasts there may be none. */
    method Advance(ghost g: Goal)
      requires On(g)
      modifies this
      ensures On(g) && pllDiv == old(pllDiv) && lockCnt == old(lockCnt)
      ensures old(Stalled()) ==> Stalled() && ToDo() == old(ToDo())
      ensures !old(Stalled()) ==> ToDo() < old(ToDo()) || (ToDo() == old(ToDo()) && slack < old(slack))
    {
      var more: nat :| more >= 0;
      var steps := if slack == 0 then more + 1 else more;
      slack := if slack > 0 then slack - 1 else 0;
      var toDo := ToDo();
      var i := 0;
      while i < steps
        invariant 0 <= i <= steps && On(g) && pllDiv == old(pllDiv) && lockCnt == old(lockCnt)
        invariant slack == if old(slack) > 0 then old(slack) - 1 else 0
        invariant old(Stalled()) ==> Stalled() && ToDo() == old(ToDo())
        invariant ToDo() <= old(ToDo()) && (i == 0 ==> Stalled() == old(Stalled()))
        invariant i > 0 && !old(Stalled()) ==> ToDo() < old(ToDo())
      {
        Step(g);
        i := i + 1;
      }
      if ToDo() < toDo {
        slack := *;
      }
    }

    /** FIFO_STAT: two bits for each direction, 0 for empty, 1 for one byte, 3 for full. */
    method FifoStat(ghost g: Goal) returns (stat: nat)
      requires On(g)
      modifies this
      ensures On(g) && pllDiv == old(pllDiv) && lockCnt == old(lockCnt)
      ensures old(Stalled()) ==> Stalled() && ToDo() == old(ToDo())
      ensures !old(Stalled()) ==> ToDo() < old(ToDo()) || (ToDo() == old(ToDo()) && slack < old(slack))
      ensures stat == XMTSTAT <==> |tx| >= 2 && rx == []
      ensures stat == RCV_EMPTY <==> tx == [] && rx == []
    {
      Advance(g);
      stat := Level(tx) + 4 * Level(rx);
    }

    static function Level(fifo: seq<byte>): nat { if |fifo| == 0 then 0 else if |fifo| == 1 then 1 else 3 }

    method Completed(ghost g: Goal) returns (done: bool)
      requires On(g)
      modifies this
      ensures On(g) && pllDiv == old(pllDiv) && lockCnt == old(lockCnt)
      ensures old(Stalled()) ==> Stalled() && ToDo() == old(ToDo())
      ensures !old(Stalled()) ==> ToDo() < old(ToDo()) || (ToDo() == old(ToDo()) && slack < old(slack))
      ensures done <==> mcomp
    {
      Advance(g);
      done := mcomp;
    }

    method PushTx(b: byte)
      modifies this
      ensures tx == old(tx) + [b]
      ensures overfilled == if |old(tx)| >= 2 then old(overfilled) + 1 else old(overfilled)
      ensures rx == old(rx) && busy == old(busy) && reading == old(reading) && left == old(left) && mcomp == old(mcomp)
      ensures pot == old(pot) && frame == old(frame) && delivered == old(delivered) && log == old(log)
      ensures pllCtl == old(pllCtl) && pllDiv == old(pllDiv) && lockCnt == old(lockCnt)
    {
      if |tx| >= 2 {
        overfilled := overfilled + 1;
      }
      tx := tx + [b];
    }

    /** The busy wait for room in the transmit FIFO. */
    method WaitRoom(ghost g: Goal)
      requires On(g) && g.Write?
      modifies this
      ensures On(g) && |tx| < 2 && pllDiv == old(pllDiv) && lockCnt == old(lockCnt)
    {
      var stat := FifoStat(g);
      while stat == XMTSTAT
        invariant On(g) && pllDiv == old(pllDiv) && lockCnt == old(lockCnt)
        invariant stat == XMTSTAT <==> |tx| >= 2
        decreases ToDo(), slack
      {
        stat := FifoStat(g);
      }
    }

    /** The busy wait for a received byte. */
    method WaitByte(ghost g: Goal)
      requires On(g) && g.Read? && g.k < g.n
      modifies this
      ensures On(g) && rx != [] && pllDiv == old(pllDiv) && lockCnt == old(lockCnt)
    {
      var stat := FifoStat(g);
      while stat == RCV_EMPTY
        invariant On(g) && pllDiv == old(pllDiv) && lockCnt == old(lockCnt)
        invariant stat == RCV_EMPTY <==> rx == []
        decreases ToDo(), slack
      {
        stat := FifoStat(g);
      }
    }

    /** The busy wait for the end of the transaction, and the write that clears MCOMP. */
    method WaitEnd(ghost g: Goal)
      requires On(g) && g.k == if g.Write? then |g.msg| else g.n
      modifies this
      ensures Quiet() && pllDiv == old(pllDiv) && lockCnt == old(lockCnt)
      ensures pllCtl == g.start.ctl && overfilled == g.start.overfilled
      ensures if g.Write? then Sent(g.start, g.msg) else Now() == g.start
    {
      var done := Completed(g);
      while !done
        invariant On(g) && pllDiv == old(pllDiv) && lockCnt == old(lockCnt)
        invariant done <==> mcomp
        decreases ToDo(), slack
      {
        done := Completed(g);
      }
      mcomp := false;
    }

    /** The first byte and the start of the transaction. */
    method Begin(b: byte, len: nat, ghost msg: seq<byte>)
      requires Quiet() && 1 <= len == |msg| && b == msg[0]
      modifies this
      ensures On(Write(msg, 1, old(Now()))) && pllDiv == old(pllDiv) && lockCnt == old(lockCnt)
    {
      PushTx(b);
      busy, reading, left := true, false, len;
      assert msg[0..1] == [msg[0]];
    }

    /** The next byte, once there is room. */
    method Continue(b: byte, ghost msg: seq<byte>, ghost k: nat, ghost start: Past)
      requires On(Write(msg, k, start)) && k < |msg| && b == msg[k]
      modifies this
      ensures On(Write(msg, k + 1, start)) && pllDiv == old(pllDiv) && lockCnt == old(lockCnt)
    {
      WaitRoom(Write(msg, k, start));
      PushTx(b);
      assert msg[|frame|..k + 1] == msg[|frame|..k] + [msg[k]];
    }

    /** Sends the message data[ptr..ptr+len] as one transaction. */
    method WriteOne(data: seq<byte>, ptr0: nat, len: nat) returns (ptr: nat)
      requires Quiet() && 1 <= len && ptr0 + len <= |data|
      modifies this
      ensures Quiet() && ptr == ptr0 + len && Sent(old(Now()), data[ptr0..ptr0 + len])
      ensures overfilled == old(overfilled) && pllCtl == old(pllCtl) && pllDiv == old(pllDiv) && lockCnt == old(lockCnt)
    {
      ghost var msg, start := data[ptr0..ptr0 + len], Now();
      ptr := ptr0;
      Begin(data[ptr], len, msg);
      ptr := ptr + 1;
      var j := 0;
      while j < len - 1
        invariant 0 <= j <= len - 1 && ptr == ptr0 + j + 1
        invariant On(Write(msg, j + 1, start)) && pllDiv == old(pllDiv) && lockCnt == old(lockCnt)
      {
        Continue(data[ptr], msg, j + 1, start);
        ptr := ptr + 1;
        j := j + 1;
      }
      WaitEnd(Write(msg, len, start));
    }

    /** With these messages still to come, the board ends up in the state `goal`. */
    ghost predicate Leads(goal: Past, msgs: seq<seq<byte>>)
      reads this
    {
      Quiet() && AfterAll(Now(), msgs) == goal
    }

    /** Sends the first of the messages still to come. */
    method WriteNext(data: seq<byte>, ptr0: nat, len: nat, ghost goal: Past, ghost rest: seq<seq<byte>>)
      returns (ptr: nat)
      requires 1 <= len && ptr0 + len <= |data| && Leads(goal, [data[ptr0..ptr0 + len]] + rest)
      modifies this
      ensures ptr == ptr0 + len && Leads(goal, rest) && pllDiv == old(pllDiv) && lockCnt == old(lockCnt)
    {
      ghost var msg := data[ptr0..ptr0 + len];
      AllStep(Now(), msg, rest);
      ptr := WriteOne(data, ptr0, len);
    }

    /** uwCount transactions of uwTwiLength bytes each, out of one buffer. The loop counters have
        8 bits. */
    method twi_mastermode_write(data: seq<byte>, count: nat, len: nat)
      requires Quiet() && count <= 255 && 1 <= len <= 255 && Room(0, count, len, |data|)
      modifies this
      ensures Quiet() && Now() == AfterAll(old(Now()), Chunks(data, 0, len, count))
      ensures pllDiv == old(pllDiv) && lockCnt == old(lockCnt)
    {
      ghost var goal := AfterAll(Now(), Chunks(data, 0, len, count));
      var ptr, i := 0, 0;
      while i < count
        invariant 0 <= i <= count && Room(ptr, count - i, len, |data|)
        invariant Leads(goal, Chunks(data, ptr, len, count - i))
        invariant pllDiv == old(pllDiv) && lockCnt == old(lockCnt)
      {
        ptr := WriteNext(data, ptr, len, goal, Chunks(data, ptr + len, len, count - i - 1));
        i := i + 1;
      }
    }

    /** Takes `count` bytes of one read transaction. */
    method twi_mastermode_read(buf: array<byte>, count: nat)
      requires Quiet() && 1 <= count <= 255 && count <= buf.Length
      modifies this, buf
      ensures Quiet() && Now() == old(Now()) && pllDiv == old(pllDiv) && lockCnt == old(lockCnt)
      ensures forall i :: 0 <= i < buf.Length ==> buf[i] == if i < count then Reads(old(pot)) else old(buf[i])
    {
      ghost var start := Now();
      busy, reading, left := true, true, count;
      var i := 0;
      while i < count
        invariant 0 <= i <= count && On(Read(count, i, start)) && pllDiv == old(pllDiv) && lockCnt == old(lockCnt)
        invariant forall k :: 0 <= k < buf.Length ==> buf[k] == if k < i then Reads(start.pot) else old(buf[k])
      {
        WaitByte(Read(count, i, start));
        buf[i] := rx[0];
        rx := rx[1..];
        i := i + 1;
      }
      WaitEnd(Read(count, count, start));
    }
  }

  /** k messages fit between ptr and the end of a buffer of n bytes. */
  predicate Room(ptr: nat, k: nat, len: nat, n: nat)
    decreases k
  {
    ptr <= n && (k > 0 ==> Room(ptr + len, k - 1, len, n))
  }

  lemma {:induction false} RoomExact(ptr: nat, k: nat, len: nat, n: nat)
    ensures Room(ptr, k, len, n) <==> ptr + k * len <= n
    decreases k
  {
    if k > 0 {
      RoomExact(ptr + len, k - 1, len, n);
      Times(k - 1, len);
    }
    assert k * len >= 0;
  }

  lemma Times(n: nat, len: nat)
    ensures (n + 1) * len == n * len + len
  {
  }

  /** A buffer cut into n messages from ptr on. */
  function Chunks(data: seq<byte>, ptr: nat, len: nat, n: nat): (r: seq<seq<byte>>)
    requires Room(ptr, n, len, |data|)
    ensures |r| == n
    decreases n
  {
    if n == 0 then [] else
      RoomFirst(ptr, n, len, |data|);
      [data[ptr..ptr + len]] + Chunks(data, ptr + len, len, n - 1)
  }

  lemma RoomFirst(ptr: nat, k: nat, len: nat, n: nat)
    requires k > 0 && Room(ptr, k, len, n)
    ensures ptr + len <= n
  {
  }

  /** Message k is where the product puts it. */
  lemma {:induction false} ChunkAt(data: seq<byte>, ptr: nat, len: nat, n: nat, k: nat)
    requires Room(ptr, n, len, |data|) && k < n
    ensures ptr + k * len + len <= |data|
    ensures Chunks(data, ptr, len, n)[k] == data[ptr + k * len..ptr + k * len + len]
    decreases n
  {
    RoomFirst(ptr, n, len, |data|);
    if k > 0 {
      ChunkAt(data, ptr + len, len, n - 1, k - 1);
      Times(k - 1, len);
    }
  }

  function DeliverAll(p: Pot, msgs: seq<seq<byte>>): Pot
    decreases |msgs|
  {
    if msgs == [] then p else DeliverAll(Deliver(p, msgs[0]), msgs[1..])
  }

  function StoresAll(p: Pot, msgs: seq<seq<byte>>, ctl: u16): seq<Event>
    decreases |msgs|
  {
    if msgs == [] then [] else Stores(p, msgs[0], ctl) + StoresAll(Deliver(p, msgs[0]), msgs[1..], ctl)
  }

  /** The state after all these messages: delivered in order, nothing else changed. */
  function AfterAll(start: Past, msgs: seq<seq<byte>>): Past {
    Past(DeliverAll(start.pot, msgs), start.delivered + msgs, start.log + StoresAll(start.pot, msgs, start.ctl),
         start.ctl, start.overfilled)
  }

  lemma AllStep(start: Past, msg: seq<byte>, rest: seq<seq<byte>>)
    ensures var next := Past(Deliver(start.pot, msg), start.delivered + [msg],
                             start.log + Stores(start.pot, msg, start.ctl), start.ctl, start.overfilled);
            AfterAll(start, [msg] + rest) == AfterAll(next, rest)
  {
    var msgs := [msg] + rest;
    assert msgs[0] == msg && msgs[1..] == rest;
    assert start.delivered + msgs == start.delivered + [msg] + rest;
  }

  /* ---- what the log says ---- */

  /** The setting and the PLL control register after some events. */
  function RdacAfter(v: byte, events: seq<Event>): byte {
    if events == [] then v
    else
      var e := events[|events| - 1];
      if e.RdacStore? then e.v else RdacAfter(v, events[..|events| - 1])
  }

  function CtlAfter(ctl: u16, events: seq<Event>): u16 {
    if events == [] then ctl
    else
      var e := events[|events| - 1];
      if e.PllWrite? then e.ctl else CtlAfter(ctl, events[..|events| - 1])
  }

  lemma Push(v: byte, ctl: u16, events: seq<Event>, e: Event)
    ensures RdacAfter(v, events + [e]) == if e.RdacStore? then e.v else RdacAfter(v, events)
    ensures CtlAfter(ctl, events + [e]) == if e.PllWrite? then e.ctl else CtlAfter(ctl, events)
  {
    assert (events + [e])[..|events|] == events;
  }

  lemma {:induction false} AfterConcat(v: byte, ctl: u16, a: seq<Event>, b: seq<Event>)
    ensures RdacAfter(v, a + b) == RdacAfter(RdacAfter(v, a), b)
    ensures CtlAfter(ctl, a + b) == CtlAfter(CtlAfter(ctl, a), b)
  {
    if b == [] {
      assert a + b == a;
    } else {
      var init, e := b[..|b| - 1], b[|b| - 1];
      AfterConcat(v, ctl, a, init);
      assert a + b == (a + init) + [e] && b == init + [e];
      Push(v, ctl, a + init, e);
      Push(RdacAfter(v, a), CtlAfter(ctl, a), init, e);
    }
  }

  /** The logged stores account for every change of the setting, ... */
  lemma {:induction false} StoresExplain(p: Pot, msgs: seq<seq<byte>>, ctl: u16, ctl0: u16)
    ensures RdacAfter(p.rdac, StoresAll(p, msgs, ctl)) == DeliverAll(p, msgs).rdac
    ensures CtlAfter(ctl0, StoresAll(p, msgs, ctl)) == ctl0
    decreases |msgs|
  {
    if msgs != [] {
      var p1 := Deliver(p, msgs[0]);
      assert forall e: Event :: [e][..0] == [];
      StoresExplain(p1, msgs[1..], ctl, ctl0);
      AfterConcat(p.rdac, ctl0, Stores(p, msgs[0], ctl), StoresAll(p1, msgs[1..], ctl));
    }
  }

  /** ... so that whatever is sent, the log goes on telling the setting and PLL_CTL. */
  lemma WritesRecorded(rdac0: byte, ctl0: u16, start: Past, msgs: seq<seq<byte>>)
    requires Recorded(rdac0, ctl0, start)
    ensures Recorded(rdac0, ctl0, AfterAll(start, msgs))
  {
    StoresExplain(start.pot, msgs, start.ctl, start.ctl);
    AfterConcat(rdac0, ctl0, start.log, StoresAll(start.pot, msgs, start.ctl));
  }

  /** From a setting and a PLL_CTL at the start of the log, the log leads to the present ones. */
  predicate Recorded(rdac0: byte, ctl0: u16, now: Past) {
    RdacAfter(rdac0, now.log) == now.pot.rdac && CtlAfter(ctl0, now.log) == now.ctl
  }
}

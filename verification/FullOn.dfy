/** Programming the core voltage over the potentiometer (VR_DIGIPOT.c) and the PLL sequence
    around it (full_on in system.c, external voltage regulator). */
module FullOn {
  import opened Bits
  import opened Twi
  import Clocks

  const RDAC_STEP_VAL: byte := 0x03
  const BYPASS := 0x100
  const PLL_LOCKCNT_VAL := 0x200

  datatype ErrorCode = NoErr | Error

  /** One message, as twi_mastermode_write sends it with a count of 1. */
  method Send(b: Board, msg: seq<byte>)
    requires b.Quiet() && 1 <= |msg| <= 255
    modifies b
    ensures b.Quiet() && b.overfilled == old(b.overfilled)
    ensures b.delivered == old(b.delivered) + [msg]
    ensures b.pot == Deliver(old(b.pot), msg) && b.log == old(b.log) + Stores(old(b.pot), msg, b.pllCtl)
    ensures b.pllCtl == old(b.pllCtl) && b.pllDiv == old(b.pllDiv) && b.lockCnt == old(b.lockCnt)
  {
    OneChunk(b.Now(), msg);
    b.twi_mastermode_write(msg, 1, |msg|);
  }

  lemma OneChunk(start: Past, msg: seq<byte>)
    ensures Room(0, 1, |msg|, |msg|) && Chunks(msg, 0, |msg|, 1) == [msg]
    ensures AfterAll(start, [msg]) == Past(Deliver(start.pot, msg), start.delivered + [msg],
                                           start.log + Stores(start.pot, msg, start.ctl), start.ctl, start.overfilled)
  {
    assert msg[0..0 + |msg|] == msg;
    AllStep(start, msg, []);
    assert [msg] + [] == [msg];
  }

  /** Points the potentiometer at one of its settings and reads it. */
  method ReadSetting(b: Board, prefix: byte) returns (value: byte)
    requires b.Quiet() && (prefix == 0x00 || prefix == 0x20)
    modifies b
    ensures b.Quiet() && b.log == old(b.log) && b.overfilled == old(b.overfilled)
    ensures b.pot == old(b.pot).(readsEeprom := prefix == 0x20)
    ensures b.pllCtl == old(b.pllCtl) && b.pllDiv == old(b.pllDiv) && b.lockCnt == old(b.lockCnt)
    ensures value == if prefix == 0x20 then b.pot.eeprom else b.pot.rdac
  {
    Send(b, [prefix]);
    var buf := new byte[1];
    b.twi_mastermode_read(buf, 1);
    value := buf[0];
  }

  method vr_digipot_rdac_read(b: Board) returns (rdac: byte)
    requires b.Quiet()
    modifies b
    ensures b.Quiet() && b.log == old(b.log) && b.overfilled == old(b.overfilled)
    ensures b.pot == old(b.pot).(readsEeprom := false)
    ensures b.pllCtl == old(b.pllCtl) && b.pllDiv == old(b.pllDiv) && b.lockCnt == old(b.lockCnt)
    ensures rdac == old(b.pot).rdac
  {
    rdac := ReadSetting(b, 0x00);
  }

  /** No error exactly if both settings are the wanted one. */
  method vr_digipot_check(b: Board) returns (res: ErrorCode)
    requires b.Quiet()
    modifies b
    ensures b.Quiet() && b.log == old(b.log) && b.overfilled == old(b.overfilled)
    ensures b.pot == old(b.pot).(readsEeprom := true)
    ensures b.pllCtl == old(b.pllCtl) && b.pllDiv == old(b.pllDiv) && b.lockCnt == old(b.lockCnt)
    ensures res == NoErr <==> old(b.pot).rdac == 0x03 && old(b.pot).eeprom == 0x03
  {
    var rdac := ReadSetting(b, 0x00);
    var eeprom := ReadSetting(b, 0x20);
    res := if RDAC_STEP_VAL == rdac && RDAC_STEP_VAL == eeprom then NoErr else Error;
  }

  /** The two settings after the wanted one was written and stored. */
  function Programmed(p: Pot): Pot {
    if p.responds then p.(rdac := RDAC_STEP_VAL, eeprom := RDAC_STEP_VAL) else p
  }

  function ProgramEvents(p: Pot, ctl: u16): seq<Event> {
    if p.responds then [RdacStore(RDAC_STEP_VAL, ctl), EepromStore(RDAC_STEP_VAL)] else []
  }

  method vr_digipot_program(b: Board) returns (res: ErrorCode)
    requires b.Quiet()
    modifies b
    ensures b.Quiet() && b.overfilled == old(b.overfilled)
    ensures b.pot == Programmed(old(b.pot)).(readsEeprom := true)
    ensures b.log == old(b.log) + ProgramEvents(old(b.pot), b.pllCtl)
    ensures b.pllCtl == old(b.pllCtl) && b.pllDiv == old(b.pllDiv) && b.lockCnt == old(b.lockCnt)
    ensures res == NoErr <==>
            b.pot.responds || (old(b.pot).rdac == 0x03 && old(b.pot).eeprom == 0x03)
  {
    Send(b, [0x00, RDAC_STEP_VAL]);
    Send(b, [0xC0]);
    res := vr_digipot_check(b);
  }

  /** The ROM call that writes PLL_CTL, and PLL_DIV and PLL_LOCKCNT if asked to. */
  method SysControlWrite(b: Board, ctl: u16, div: u16, all: bool)
    requires b.Quiet()
    modifies b
    ensures b.Quiet() && b.overfilled == old(b.overfilled) && b.pot == old(b.pot)
    ensures b.pllCtl == ctl && b.log == old(b.log) + [PllWrite(ctl, b.pllDiv, b.lockCnt)]
    ensures b.pllDiv == if all then div else old(b.pllDiv)
    ensures b.lockCnt == if all then PLL_LOCKCNT_VAL else old(b.lockCnt)
  {
    b.pllCtl := ctl;
    if all {
      b.pllDiv, b.lockCnt := div, PLL_LOCKCNT_VAL;
    }
    b.log := b.log + [PllWrite(b.pllCtl, b.pllDiv, b.lockCnt)];
  }

  /** Everything full_on does, in order. */
  function FullOnEvents(p: Pot): seq<Event> {
    var ctl := Clocks.PLL_CTL_VAL;
    if p.rdac == RDAC_STEP_VAL then [Wrote(ctl)]
    else [Wrote(ctl + BYPASS)] + ProgramEvents(p, ctl + BYPASS) + [Wrote(ctl)]
  }

  function Wrote(ctl: u16): Event { PllWrite(ctl, Clocks.PLL_DIV_VAL, PLL_LOCKCNT_VAL) }

  /** The result of vr_digipot_program is not looked at. */
  method full_on(b: Board)
    requires b.Quiet()
    modifies b
    ensures b.Quiet() && b.overfilled == old(b.overfilled)
    ensures b.log == old(b.log) + FullOnEvents(old(b.pot))
    ensures b.pllCtl == 0x1800 && b.pllDiv == 4 && b.lockCnt == 0x200
    ensures b.pot == Ends(old(b.pot))
    ensures b.pot.rdac == RdacAfter(old(b.pot).rdac, FullOnEvents(old(b.pot)))
  {
    RunRecorded(b.pot, b.pllCtl);
    var rdac := vr_digipot_rdac_read(b);
    var ctl: u16;
    var skip: bool;
    if rdac == RDAC_STEP_VAL {
      ctl, skip := Clocks.PLL_CTL_VAL, true;
    } else {
      ctl, skip := Clocks.PLL_CTL_VAL + BYPASS, false;
    }
    SysControlWrite(b, ctl, Clocks.PLL_DIV_VAL, true);
    if !skip {
      var _ := vr_digipot_program(b);
      SysControlWrite(b, Clocks.PLL_CTL_VAL, 0, false);
    }
  }

  /* ---- what the order of events means ---- */

  /** Every store to the setting comes while the PLL is bypassed. */
  ghost predicate StoresInBypass(ctl0: u16, log: seq<Event>) {
    log == []
    || (StoresInBypass(ctl0, log[..|log| - 1])
        && (log[|log| - 1].RdacStore? ==> Clocks.Bypass(CtlAfter(ctl0, log[..|log| - 1]))))
  }

  lemma BypassPush(ctl0: u16, log: seq<Event>, e: Event)
    ensures StoresInBypass(ctl0, log + [e]) <==>
            StoresInBypass(ctl0, log) && (e.RdacStore? ==> Clocks.Bypass(CtlAfter(ctl0, log)))
  {
    assert (log + [e])[..|log|] == log;
  }

  lemma {:induction false} BypassConcat(ctl0: u16, a: seq<Event>, b: seq<Event>)
    ensures StoresInBypass(ctl0, a + b) <==> StoresInBypass(ctl0, a) && StoresInBypass(CtlAfter(ctl0, a), b)
  {
    if b == [] {
      assert a + b == a;
    } else {
      var init, e := b[..|b| - 1], b[|b| - 1];
      assert a + b == (a + init) + [e] && b == init + [e];
      BypassConcat(ctl0, a, init);
      BypassPush(ctl0, a + init, e);
      BypassPush(CtlAfter(ctl0, a), init, e);
      AfterConcat(0, ctl0, a, init);
    }
  }

  /** In such a log, and at every point of it, an event that changes the setting comes while the
      PLL is bypassed. */
  lemma {:induction false} VoltageChangesInBypass(rdac0: byte, ctl0: u16, log: seq<Event>, k: nat)
    requires StoresInBypass(ctl0, log) && k < |log|
    ensures RdacAfter(rdac0, log[..k + 1]) != RdacAfter(rdac0, log[..k]) ==> Clocks.Bypass(CtlAfter(ctl0, log[..k]))
  {
    var init := log[..|log| - 1];
    if k < |init| {
      VoltageChangesInBypass(rdac0, ctl0, init, k);
      assert init[..k + 1] == log[..k + 1] && init[..k] == log[..k];
    } else {
      assert log[..k + 1] == log[..k] + [log[k]];
      Push(rdac0, ctl0, log[..k], log[k]);
    }
  }

  /** The settings a run leaves. */
  function Ends(p: Pot): Pot {
    if p.rdac == RDAC_STEP_VAL then p.(readsEeprom := false) else Programmed(p).(readsEeprom := true)
  }

  /** The events of a run lead from any PLL_CTL to the setting it leaves and out of bypass, and
      store only in bypass. */
  lemma RunRecorded(p: Pot, ctl: u16)
    ensures RdacAfter(p.rdac, FullOnEvents(p)) == Ends(p).rdac
    ensures CtlAfter(ctl, FullOnEvents(p)) == Clocks.PLL_CTL_VAL
    ensures StoresInBypass(ctl, FullOnEvents(p))
  {
    var bypass, on := Wrote(Clocks.PLL_CTL_VAL + BYPASS), Wrote(Clocks.PLL_CTL_VAL);
    if p.rdac == RDAC_STEP_VAL {
      Push(p.rdac, ctl, [], on);
      BypassPush(ctl, [], on);
      assert [] + [on] == FullOnEvents(p);
    } else {
      var stores := ProgramEvents(p, Clocks.PLL_CTL_VAL + BYPASS);
      ProgramRecorded(p, ctl, bypass);
      Push(p.rdac, ctl, [bypass] + stores, on);
      BypassPush(ctl, [bypass] + stores, on);
    }
  }

  lemma ProgramRecorded(p: Pot, ctl: u16, e: Event)
    requires e.PllWrite? && Clocks.Bypass(e.ctl)
    ensures RdacAfter(p.rdac, [e] + ProgramEvents(p, e.ctl)) == if p.responds then RDAC_STEP_VAL else p.rdac
    ensures StoresInBypass(ctl, [e] + ProgramEvents(p, e.ctl))
  {
    Push(p.rdac, ctl, [], e);
    BypassPush(ctl, [], e);
    assert [] + [e] == [e];
    if p.responds {
      var rdac, eeprom := RdacStore(RDAC_STEP_VAL, e.ctl), EepromStore(RDAC_STEP_VAL);
      Push(p.rdac, ctl, [e], rdac);
      Push(p.rdac, ctl, [e] + [rdac], eeprom);
      BypassPush(ctl, [e], rdac);
      BypassPush(ctl, [e] + [rdac], eeprom);
      assert [e] + ProgramEvents(p, e.ctl) == [e] + [rdac] + [eeprom];
    } else {
      assert [e] + ProgramEvents(p, e.ctl) == [e];
    }
  }

  /** The setting is the wanted one at the end exactly if it was before or the potentiometer
      responds; either way the PLL has left bypass. */
  lemma EndsAtVoltage(p: Pot, ctl: u16)
    ensures RdacAfter(p.rdac, FullOnEvents(p)) == 0x03 <==> p.responds || p.rdac == 0x03
    ensures CtlAfter(ctl, FullOnEvents(p)) == 0x1800 && !Clocks.Bypass(0x1800) && Clocks.Msel(0x1800) == 12
  {
    RunRecorded(p, ctl);
  }

  /** A log that tells the present setting and PLL_CTL, with stores in bypass only, stays one. */
  lemma RunKeeps(rdac0: byte, ctl0: u16, log: seq<Event>, p: Pot)
    requires RdacAfter(rdac0, log) == p.rdac && StoresInBypass(ctl0, log)
    ensures var log' := log + FullOnEvents(p);
            && RdacAfter(rdac0, log') == Ends(p).rdac
            && CtlAfter(ctl0, log') == Clocks.PLL_CTL_VAL
            && StoresInBypass(ctl0, log')
  {
    RunRecorded(p, CtlAfter(ctl0, log));
    AfterConcat(rdac0, ctl0, log, FullOnEvents(p));
    BypassConcat(ctl0, log, FullOnEvents(p));
  }

  /* ---- the other fields of the PLL ---- */

  /** Every write of a run has the multiplier, the divider and the lock count of the end. */
  lemma RunPreloads(p: Pot, k: nat)
    requires k < |FullOnEvents(p)| && FullOnEvents(p)[k].PllWrite?
    ensures var e := FullOnEvents(p)[k];
            Clocks.Msel(e.ctl) == 12 && Clocks.Df(e.ctl) == 0 && e.div == 4 && e.lock == 0x200
  {
    assert FullOnEvents(p)[k] in {Wrote(Clocks.PLL_CTL_VAL), Wrote(Clocks.PLL_CTL_VAL + BYPASS)};
  }

  /** A write that takes the PLL out of bypass leaves MSEL as it was preloaded. */
  ghost predicate LeavesPreloaded(ctl0: u16, log: seq<Event>) {
    log == []
    || (LeavesPreloaded(ctl0, log[..|log| - 1]) && KeepsMsel(CtlAfter(ctl0, log[..|log| - 1]), log[|log| - 1]))
  }

  predicate KeepsMsel(ctl: u16, e: Event) {
    e.PllWrite? && Clocks.Bypass(ctl) && !Clocks.Bypass(e.ctl) ==> Clocks.Msel(e.ctl) == Clocks.Msel(ctl)
  }

  lemma PreloadPush(ctl0: u16, log: seq<Event>, e: Event)
    ensures LeavesPreloaded(ctl0, log + [e]) <==> LeavesPreloaded(ctl0, log) && KeepsMsel(CtlAfter(ctl0, log), e)
  {
    assert (log + [e])[..|log|] == log;
  }

  lemma {:induction false} PreloadConcat(ctl0: u16, a: seq<Event>, b: seq<Event>)
    ensures LeavesPreloaded(ctl0, a + b) <==> LeavesPreloaded(ctl0, a) && LeavesPreloaded(CtlAfter(ctl0, a), b)
  {
    if b == [] {
      assert a + b == a;
    } else {
      var init, e := b[..|b| - 1], b[|b| - 1];
      assert a + b == (a + init) + [e] && b == init + [e];
      PreloadConcat(ctl0, a, init);
      PreloadPush(ctl0, a + init, e);
      PreloadPush(CtlAfter(ctl0, a), init, e);
      AfterConcat(0, ctl0, a, init);
    }
  }

  /** A run does so unless it starts in bypass with another MSEL and finds the setting in place, because
      then its only write changes both at once. */
  lemma RunLeavesPreloaded(p: Pot, ctl: u16)
    ensures LeavesPreloaded(ctl, FullOnEvents(p)) <==>
            !(p.rdac == 0x03 && Clocks.Bypass(ctl) && Clocks.Msel(ctl) != 12)
  {
    var bypass, on := Wrote(Clocks.PLL_CTL_VAL + BYPASS), Wrote(Clocks.PLL_CTL_VAL);
    assert Clocks.Msel(bypass.ctl) == 12 && Clocks.Bypass(bypass.ctl);
    assert Clocks.Msel(on.ctl) == 12 && !Clocks.Bypass(on.ctl);
    if p.rdac == RDAC_STEP_VAL {
      PreloadPush(ctl, [], on);
      assert [] + [on] == FullOnEvents(p);
    } else {
      var stores := ProgramEvents(p, Clocks.PLL_CTL_VAL + BYPASS);
      StoresPreloaded(p, ctl, bypass);
      PreloadPush(ctl, [bypass] + stores, on);
    }
  }

  lemma StoresPreloaded(p: Pot, ctl: u16, e: Event)
    requires e.PllWrite? && Clocks.Bypass(e.ctl)
    ensures LeavesPreloaded(ctl, [e] + ProgramEvents(p, e.ctl))
    ensures CtlAfter(ctl, [e] + ProgramEvents(p, e.ctl)) == e.ctl
  {
    PreloadPush(ctl, [], e);
    Push(0, ctl, [], e);
    assert [] + [e] == [e];
    if p.responds {
      var rdac, eeprom := RdacStore(RDAC_STEP_VAL, e.ctl), EepromStore(RDAC_STEP_VAL);
      Push(0, ctl, [e], rdac);
      Push(0, ctl, [e] + [rdac], eeprom);
      PreloadPush(ctl, [e], rdac);
      PreloadPush(ctl, [e] + [rdac], eeprom);
      assert [e] + ProgramEvents(p, e.ctl) == [e] + [rdac] + [eeprom];
    } else {
      assert [e] + ProgramEvents(p, e.ctl) == [e];
    }
  }

  /** The one case in which leaving bypass changes MSEL: before any run, in bypass, with another MSEL and
      the setting in place. */
  predicate Unprepared(n: nat, p: Pot, ctl: u16) {
    n > 0 && p.rdac == 0x03 && Clocks.Bypass(ctl) && Clocks.Msel(ctl) != 12
  }

  /** At every point of the log, an event that changes the setting comes while the PLL is bypassed. */
  ghost predicate ChangesInBypass(rdac0: byte, ctl0: u16, log: seq<Event>) {
    forall k :: 0 <= k < |log| && RdacAfter(rdac0, log[..k + 1]) != RdacAfter(rdac0, log[..k]) ==>
                  Clocks.Bypass(CtlAfter(ctl0, log[..k]))
  }

  lemma AlwaysInBypass(rdac0: byte, ctl0: u16, log: seq<Event>)
    requires StoresInBypass(ctl0, log)
    ensures ChangesInBypass(rdac0, ctl0, log)
  {
    forall k | 0 <= k < |log|
      ensures RdacAfter(rdac0, log[..k + 1]) != RdacAfter(rdac0, log[..k]) ==> Clocks.Bypass(CtlAfter(ctl0, log[..k]))
    {
      VoltageChangesInBypass(rdac0, ctl0, log, k);
    }
  }

  /** The log of a board that has been run: it tells the setting and PLL_CTL, with stores in bypass. */
  ghost predicate Told(b: Board, rdac0: byte, ctl0: u16)
    reads b
  {
    b.Quiet() && Recorded(rdac0, ctl0, b.Now()) && StoresInBypass(ctl0, b.log)
  }

  /** One run, on such a board. */
  method OneRun(b: Board, ghost rdac0: byte, ghost ctl0: u16)
    requires Told(b, rdac0, ctl0)
    modifies b
    ensures Told(b, rdac0, ctl0)
    ensures b.pllCtl == 0x1800 && b.pot.responds == old(b.pot).responds
    ensures b.pot.rdac == if old(b.pot).responds then 0x03 else old(b.pot).rdac
    ensures LeavesPreloaded(ctl0, b.log) <==>
            LeavesPreloaded(ctl0, old(b.log)) && !Unprepared(1, old(b.pot), old(b.pllCtl))
  {
    RunKeeps(rdac0, ctl0, b.log, b.pot);
    PreloadConcat(ctl0, b.log, FullOnEvents(b.pot));
    RunLeavesPreloaded(b.pot, b.pllCtl);
    full_on(b);
  }

  /** Any number of runs: the log tells the setting and PLL_CTL, the setting never changed outside
      bypass, and no write out of bypass changed MSEL, but for that one case. */
  method Runs(b: Board, n: nat, ghost rdac0: byte, ghost ctl0: u16)
    requires Told(b, rdac0, ctl0)
    modifies b
    ensures Told(b, rdac0, ctl0) && ChangesInBypass(rdac0, ctl0, b.log)
    ensures n > 0 ==>
              && b.pllCtl == 0x1800
              && b.pot.rdac == if old(b.pot).responds then 0x03 else old(b.pot).rdac
    ensures LeavesPreloaded(ctl0, b.log) <==>
            LeavesPreloaded(ctl0, old(b.log)) && !Unprepared(n, old(b.pot), old(b.pllCtl))
  {
    for i := 0 to n
      invariant Told(b, rdac0, ctl0)
      invariant i == 0 ==> b.pot == old(b.pot) && b.pllCtl == old(b.pllCtl) && b.log == old(b.log)
      invariant i > 0 ==> b.pllCtl == 0x1800 && b.pot.responds == old(b.pot).responds
      invariant i > 0 ==> b.pot.rdac == if b.pot.responds then 0x03 else old(b.pot).rdac
      invariant LeavesPreloaded(ctl0, b.log) <==>
                LeavesPreloaded(ctl0, old(b.log)) && !Unprepared(i, old(b.pot), old(b.pllCtl))
    {
      OneRun(b, rdac0, ctl0);
    }
    AlwaysInBypass(rdac0, ctl0, b.log);
  }

  /** A second run on a responding potentiometer stores nothing. */
  method FullOnTwice(b: Board)
    requires b.Quiet() && b.pot.responds
    modifies b
    ensures b.log == old(b.log) + FullOnEvents(old(b.pot)) + [PllWrite(0x1800, 4, 0x200)]
    ensures b.pot.rdac == 0x03 && b.pot.eeprom == if old(b.pot).rdac == 0x03 then old(b.pot).eeprom else 0x03
  {
    full_on(b);
    full_on(b);
  }
}

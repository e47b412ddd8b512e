/** When a log of frames respects the write-enable protocol of the flash. */
module Protocol {
  import opened Chip

  predicate IsProgram(f: Frame) { f.Pp? || f.Se? || f.Be? }

  /** The frame at i is enabled: a WREN frame comes before it with only status reads between,
      and a page program or bulk erase comes right after a status read that showed WEL. */
  ghost predicate Enabled(log: seq<Frame>, i: nat)
    requires i < |log|
  {
    && (exists j :: 0 <= j < i && log[j].Wren? && forall k :: j < k < i ==> log[k].Rdsr?)
    && (log[i].Pp? || log[i].Be? ==> log[i - 1].Rdsr? && log[i - 1].wel)
  }

  /** Every program or erase frame is enabled, and there is no malformed frame. */
  ghost predicate Safe(log: seq<Frame>) {
    forall i :: 0 <= i < |log| ==> log[i] != Other && (IsProgram(log[i]) ==> Enabled(log, i))
  }

  datatype Phase = Locked | Armed(seen: bool) | Broken

  function Step(p: Phase, f: Frame): Phase {
    if p.Broken? then Broken else
    match f
    case Wren(_) => Armed(false)
    case Rdsr(_, wel) => if p.Armed? then Armed(wel) else p
    case Pp(_, _) => if p == Armed(true) then Locked else Broken
    case Be => if p == Armed(true) then Locked else Broken
    case Se(_) => if p.Armed? then Locked else Broken
    case Read(_) => Locked
    case Wrdi => Locked
    case Ident => Locked
    case Other => Broken
  }

  /** A bus monitor that sees one frame at a time. */
  function Scan(log: seq<Frame>): Phase {
    if log == [] then Locked else Step(Scan(log[..|log| - 1]), log[|log| - 1])
  }

  lemma ScanPush(log: seq<Frame>, f: Frame)
    ensures Scan(log + [f]) == Step(Scan(log), f)
  {
    assert (log + [f])[..|log|] == log;
  }

  /** The log ends in a WREN frame followed by status reads only. */
  ghost predicate Pending(log: seq<Frame>) {
    exists j :: 0 <= j < |log| && log[j].Wren? && forall k :: j < k < |log| ==> log[k].Rdsr?
  }

  ghost predicate Seen(log: seq<Frame>) {
    |log| > 0 && log[|log| - 1].Rdsr? && log[|log| - 1].wel
  }

  lemma EnabledInPrefix(log: seq<Frame>, n: nat, i: nat)
    requires i < n <= |log|
    ensures Enabled(log[..n], i) <==> Enabled(log, i)
  {
    var p := log[..n];
    if Enabled(p, i) {
      var j :| 0 <= j < i && p[j].Wren? && forall k :: j < k < i ==> p[k].Rdsr?;
      assert forall k :: j < k < i ==> log[k] == p[k];
      assert log[j] == p[j];
    }
    if Enabled(log, i) {
      var j :| 0 <= j < i && log[j].Wren? && forall k :: j < k < i ==> log[k].Rdsr?;
      assert forall k :: j < k < i ==> log[k] == p[k];
      assert log[j] == p[j];
    }
  }

  lemma PendingPush(log: seq<Frame>, f: Frame)
    ensures Pending(log + [f]) <==> f.Wren? || (f.Rdsr? && Pending(log))
  {
    var l := log + [f];
    if f.Wren? {
      assert l[|log|].Wren?;
    } else if f.Rdsr? && Pending(log) {
      var j :| 0 <= j < |log| && log[j].Wren? && forall k :: j < k < |log| ==> log[k].Rdsr?;
      assert l[j].Wren? && forall k :: j < k < |l| ==> l[k].Rdsr?;
    }
    if Pending(l) && !f.Wren? {
      var j :| 0 <= j < |l| && l[j].Wren? && forall k :: j < k < |l| ==> l[k].Rdsr?;
      assert l[|log|] == f;
      assert log[j].Wren? && forall k :: j < k < |log| ==> log[k] == l[k];
    }
  }

  lemma EnabledLast(log: seq<Frame>, f: Frame)
    ensures Enabled(log + [f], |log|) <==> Pending(log) && (f.Pp? || f.Be? ==> Seen(log))
  {
    var l, n := log + [f], |log|;
    assert forall k :: 0 <= k < n ==> l[k] == log[k];
    if Enabled(l, n) {
      var j :| 0 <= j < n && l[j].Wren? && forall k :: j < k < n ==> l[k].Rdsr?;
      assert log[j].Wren? && forall k :: j < k < n ==> log[k].Rdsr?;
    }
    if Pending(log) {
      var j :| 0 <= j < n && log[j].Wren? && forall k :: j < k < n ==> log[k].Rdsr?;
      assert l[j].Wren? && forall k :: j < k < n ==> l[k].Rdsr?;
    }
  }

  lemma SafePrefix(log: seq<Frame>, n: nat)
    requires n <= |log|
    ensures Safe(log[..n]) <==>
            forall i :: 0 <= i < n ==> log[i] != Other && (IsProgram(log[i]) ==> Enabled(log, i))
  {
    forall i | 0 <= i < n
      ensures log[..n][i] == log[i] && (Enabled(log[..n], i) <==> Enabled(log, i))
    {
      EnabledInPrefix(log, n, i);
    }
  }

  /** What one more frame adds to the safety of a log. */
  lemma SafePush(log: seq<Frame>, f: Frame)
    ensures Safe(log + [f]) <==>
            && Safe(log)
            && f != Other
            && (IsProgram(f) ==> Pending(log) && (f.Se? || Seen(log)))
  {
    var l := log + [f];
    assert l[..|log|] == log && l[..|l|] == l;
    SafePrefix(l, |log|);
    EnabledLast(log, f);
    assert l[|log|] == f;
  }

  /** The monitor is exact: it stays out of Broken on the safe logs and on no others. */
  lemma {:induction false} MonitorExact(log: seq<Frame>)
    ensures Scan(log) != Broken <==> Safe(log)
    ensures Safe(log) ==> (Scan(log).Armed? <==> Pending(log))
    ensures Safe(log) && Scan(log).Armed? ==> Scan(log).seen == Seen(log)
  {
    if log != [] {
      var init, f := log[..|log| - 1], log[|log| - 1];
      assert log == init + [f];
      MonitorExact(init);
      SafePush(init, f);
      PendingPush(init, f);
    }
  }
}

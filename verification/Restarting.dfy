/**
 Restarting an interrupted recovery, which is harmless in either form, and the update that recovery as
 written loses although nothing was interrupted.
 */
module Restarting {
  import opened Bytes
  import opened LogRecord
  import opened Device
  import opened LogWriter
  import opened LogLayout
  import opened LogScan
  import opened LogCrash
  import opened Recovery
  import opened CrashSafety
  import opened FirstUnit

  // ---- Restarting recovery ----

  lemma {:induction false} WriteEventsApply(d: Disk, ws: seq<Write>, i: nat)
    requires Acceptable(d.blocks, ws) && i <= |ws|
    ensures ApplyAll(d, WriteEvents(ws)[..i]) == d.(blocks := ApplyWrites(d.blocks, ws[..i]))
    decreases i
  {
    if i > 0 {
      WriteEventsApply(d, ws, i - 1);
      assert WriteEvents(ws)[..i][..i - 1] == WriteEvents(ws)[..i - 1];
      assert ws[..i][..i - 1] == ws[..i - 1];
      AcceptablePart(d.blocks, ws, i - 1);
      ApplyWritesKeys(d.blocks, ws[..i - 1]);
      assert ws[i - 1].block in d.blocks.Keys;
    }
  }

  /** Redoing the same writes after a part of them gives what redoing them at once gives. */
  lemma RedoneAgain(d: Disk, ws: seq<Write>, i: nat)
    requires Acceptable(d.blocks, ws) && i <= |ws|
    ensures Redone(d.(blocks := ApplyWrites(d.blocks, ws[..i])), ws) == Redone(d, ws)
  {
    hide ApplyWrites, Acceptable;
    PartThenWhole(d.blocks, ws, i);
    AcceptablePart(d.blocks, ws, i);
    ApplyWritesKeys(d.blocks, ws[..i]);
    EmptyAcceptable(d.blocks);
    AcceptableBoth(d.blocks, ApplyWrites(d.blocks, ws[..i]), [], ws);
    assert [] + ws == ws;
  }

  /**
   Recovery is restartable: stopped after any of its device calls and run again, it ends with the same
   disk; once the log is marked as replayed a further run does nothing. This holds of both forms.
   */
  lemma RecoverRestarts(d: Disk, recs: seq<Record>, k: nat)
    requires d.state != LOGREDONE && Visible(d) == Some(recs) && Acceptable(d.blocks, Backward(recs, FRESH))
    requires k <= |Backward(recs, FRESH)| + 1
    ensures var plan := ReplayPlan(d, Backward(recs, FRESH));
            && Recover(d) == Some(ApplyAll(d, plan))
            && Recover(ApplyAll(d, plan[..k])) == Recover(d)
  {
    hide Visible, Backward, Acceptable, ApplyWrites;
    var ws := Backward(recs, FRESH);
    ReplayStage(d, ws, k);
    ReplayStage(d, ws, |ws| + 1);
    assert ReplayPlan(d, ws)[..|ws| + 1] == ReplayPlan(d, ws);
    if k <= |ws| {
      var c := ApplyAll(d, ReplayPlan(d, ws)[..k]);
      assert Visible(c) == Visible(d) by { SameLogSameRecords(c, d); }
      RedoneAgain(d, ws, k);
    }
  }

  lemma RecoverUnitsRestarts(d: Disk, recs: seq<Record>, k: nat)
    requires d.state != LOGREDONE && VisibleUnits(d) == Some(recs)
    requires Acceptable(d.blocks, Once(Backward(recs, FRESH), {}))
    requires k <= |Once(Backward(recs, FRESH), {})| + 1
    ensures var plan := ReplayPlan(d, Once(Backward(recs, FRESH), {}));
            && RecoverUnits(d) == Some(ApplyAll(d, plan))
            && RecoverUnits(ApplyAll(d, plan[..k])) == RecoverUnits(d)
  {
    hide VisibleUnits, Backward, Once, Acceptable, ApplyWrites;
    var ws := Once(Backward(recs, FRESH), {});
    ReplayStage(d, ws, k);
    ReplayStage(d, ws, |ws| + 1);
    assert ReplayPlan(d, ws)[..|ws| + 1] == ReplayPlan(d, ws);
    if k <= |ws| {
      var c := ApplyAll(d, ReplayPlan(d, ws)[..k]);
      assert VisibleUnits(c) == VisibleUnits(d) by { SameLogSameRecords(c, d); }
      RedoneAgain(d, ws, k);
    }
  }

  lemma SameLogSameRecords(c: Disk, d: Disk)
    requires c.log == d.log && c.end == d.end
    ensures Visible(c) == Visible(d) && VisibleUnits(c) == VisibleUnits(d)
  {
  }

  lemma ReplayStage(d: Disk, ws: seq<Write>, k: nat)
    requires Acceptable(d.blocks, ws) && k <= |ws| + 1
    ensures ApplyAll(d, ReplayPlan(d, ws)[..k])
         == if k <= |ws| then d.(blocks := ApplyWrites(d.blocks, ws[..k]))
            else d.(blocks := ApplyWrites(d.blocks, ws), state := LOGREDONE)
  {
    hide Acceptable, ApplyWrites;
    if k <= |ws| {
      assert ReplayPlan(d, ws)[..k] == WriteEvents(ws)[..k];
      WriteEventsApply(d, ws, k);
    } else {
      var es, e := WriteEvents(ws), SuperWrite(d.end, LOGREDONE);
      assert ReplayPlan(d, ws)[..k] == es + [e] && es[..|ws|] == es && ws[..|ws|] == ws;
      WriteEventsApply(d, ws, |ws|);
      ApplyAllConcat(d, es, [e]);
      ApplyAllOne(ApplyAll(d, es), e);
    }
  }

  // ---- A lost update ----

  /** The records of a transaction of at most one page fit the first unit. */
  lemma SmallTxn(s: LogState, m: Blocks, t: Txn)
    requires Sized(s) && Fit(m, t) && |t.pages| <= 1
    ensures |AddTxn([[]], s, t)| == 1
    ensures 1 <= |TxnRecords(s, t)| <= 2 && KindOf(TxnRecords(s, t)[|TxnRecords(s, t)| - 1].lrd) == CommitKind
  {
    hide KindOf, AppendAll;
    var us: Units := [[]];
    var c := NextCommit(AppendAll(s, t.tid, t.pages), t.tid);
    CommitIsCommit(t.tid, AppendAll(s, t.tid, t.pages).prevOffset);
    assert EncodeAll([]) == [];
    if |t.pages| == 0 {
      assert t.pages == [];
    } else {
      assert t.pages[..0] == [];
      var r := NextRedo(AppendAll(s, t.tid, []), t.tid, t.pages[0].0, t.pages[0].1);
      assert RedoRecords(s, t.tid, t.pages) == [r];
      assert Last(us) + [r] == [r];
      assert AddPages(us, s, t.tid, t.pages) == [[r]];
      assert [r][1..] == [];
      assert |EncodeAll([r])| == LRD_SIZE + PAGE;
    }
  }

  /** The second of two one-page transactions opens the second unit. */
  lemma SecondUnit(s: LogState, m: Blocks, t1: Txn, s1: LogState, t2: Txn)
    requires Sized(s) && Sized(s1) && Fit(m, t1) && Fit(m, t2) && |t1.pages| == 1 && |t2.pages| == 1
    ensures var us := AddTxn(AddTxn([[]], s, t1), s1, t2); |us| == 2 && us[0] == TxnRecords(s, t1)
  {
    hide AppendAll, Encode;
    SmallTxn(s, m, t1);
    var us := AddTxn([[]], s, t1);
    OneUnit(us, []);
    AddTxnRecords([[]], s, t1);
    NoRecords();
    var u := TxnRecords(s, t1);
    assert [] + u == u;
    assert us == [u];
    assert |EncodeAll(u)| >= LRD_SIZE + PAGE by { TwoRecords(s, t1); }
    var r := NextRedo(AppendAll(s1, t2.tid, []), t2.tid, t2.pages[0].0, t2.pages[0].1);
    assert t2.pages[..0] == [];
    assert AddPages(us, s1, t2.tid, t2.pages) == AddRecord(us, r) == [u, [r]];
    var c := NextCommit(AppendAll(s1, t2.tid, t2.pages), t2.tid);
    assert [r][1..] == [] && |EncodeAll([r])| == LRD_SIZE + PAGE;
    assert AddTxn(us, s1, t2) == [u] + [[r] + [c]];
  }

  lemma TwoRecords(s: LogState, t: Txn)
    requires Sized(s) && |t.pages| == 1
    ensures |EncodeAll(TxnRecords(s, t))| >= LRD_SIZE + PAGE
  {
    hide AppendAll, Encode;
    assert t.pages[..0] == [];
    var r := NextRedo(AppendAll(s, t.tid, []), t.tid, t.pages[0].0, t.pages[0].1);
    assert RedoRecords(s, t.tid, t.pages) == [] + [r];
    var u := TxnRecords(s, t);
    assert u[0] == r;
    assert EncodeAll(u) == Encode(u[0]) + EncodeAll(u[1..]);
  }

  /** The only live image of a one-page transaction's records. */
  lemma OneLive(s: LogState, m: Blocks, t: Txn, b: nat, v: Page)
    requires Sized(s) && Fit(m, t) && t.pages == [(b, v)]
    ensures var u := TxnRecords(s, t);
            NoMarks(u) && Oldest(LiveWrites(u, |u|), b) == Some(v)
  {
    hide KindOf, Live, TxnRecords, Closed, Pending, ImagesOf, LiveWrites, NoMarks;
    EmptyLog();
    var u := TxnRecords(s, t);
    WholeIsClosed(s, m, t, []);
    assert [] + u == u && u + [] == u && [] + TxnWrites(t) == TxnWrites(t);
    LiveAreImages(u, [], |u|);
    assert u[..|u|] == u;
    ClosedNoMarks(u, []);
    assert TxnWrites(t) == [Write(b, v)];
  }

  /**
   As written, recovery after two complete transactions on one block brings back the first image and
   loses the second.
   */
  lemma LostUpdate(d: Disk, s: LogState, b: nat, v1: Page, v2: Page)
    requires Fresh(d, s) && d.state != LOGREDONE && 2 * UNIT <= |d.log| && b in d.blocks && b < TWO40 && v1 != v2
    ensures var d' := ApplyAll(d, RunPlan(s, [Txn(1, [(b, v1)]), Txn(2, [(b, v2)])]));
            && b in d'.blocks && d'.blocks[b] == v2
            && Recover(d').Some? && b in Recover(d').value.blocks && Recover(d').value.blocks[b] == v1
  {
    hide Quiet, AddTxn, CommitPlan, Logged, TxnRecords, Recover, LiveWrites, Oldest, NoMarks;
    var t1, t2 := Txn(1, [(b, v1)]), Txn(2, [(b, v2)]);
    var ts := [t1, t2];
    FreshIsQuiet(d, s);
    assert ts[..1] == [t1] && [t1][..0] == [];
    assert LoggedAll(s, [t1]) == Logged(s, t1) by { assert LoggedAll(s, []) == s; }
    var s1 := Logged(s, t1);
    SecondUnit(s, d.blocks, t1, s1, t2);
    var us := AddTxn(AddTxn([[]], s, t1), s1, t2);
    assert AddTxns([[]], s, ts) == us by { assert AddTxns([[]], s, [t1]) == AddTxn([[]], s, t1); }
    RunKeepsQuiet(d, s, [[]], ts);
    var d' := ApplyAll(d, RunPlan(s, ts));
    TwoWrites(d.blocks, b, v1, v2);
    OneLive(s, d.blocks, t1, b, v1);
    RecoveredAt(d', LoggedAll(s, ts), us, b, v1);
  }

  lemma TwoWrites(m: Blocks, b: nat, v1: Page, v2: Page)
    ensures var x := After(m, [Txn(1, [(b, v1)]), Txn(2, [(b, v2)])]); b in x && x[b] == v2
  {
    var t1, t2 := Txn(1, [(b, v1)]), Txn(2, [(b, v2)]);
    assert [t1, t2][..1] == [t1];
    assert TxnWrites(t2) == [Write(b, v2)];
    assert After(m, [t1, t2]) == ApplyWrites(After(m, [t1]), [Write(b, v2)]);
  }

  lemma RecoveredAt(d: Disk, s: LogState, us: Units, b: nat, v: seq<byte>)
    requires Quiet(d, s, us) && |us| == 2
    requires NoMarks(us[0]) && Oldest(LiveWrites(us[0], |us[0]|), b) == Some(v)
    ensures Recover(d).Some? && b in Recover(d).value.blocks && Recover(d).value.blocks[b] == v
  {
    hide Quiet, Settled, Closed, Visible, Backward, LiveWrites, ApplyWrites, Oldest, NoMarks, Acceptable, FirstUnitCurrent;
    QuietParts(d, s, us);
    SettledState(d, s, us);
    SecondUnitEnd(d, s, us);
    SeesFirstUnit(d, s, us);
    QuietRecoveryKeeps(d, s, us);
    OldestSurvives(d.blocks, us[0], b);
  }

  lemma SecondUnitEnd(d: Disk, s: LogState, us: Units)
    requires Settled(d, s, us) && |us| == 2
    ensures d.end > 0
  {
  }
}

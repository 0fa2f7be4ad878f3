/**
 Write-ahead order over the trace of a run: no metadata block is written in place before its image and
 the commit record of its transaction can be found in the log and have been flushed.
 */
module WriteAhead {
  import opened Bytes
  import opened LogRecord
  import opened Device
  import opened LogWriter
  import opened LogLayout
  import opened LogScan
  import opened LogCrash
  import opened Recovery
  import opened CrashSafety
  import opened CommitShape
  import opened FirstUnit
  import opened AsWritten

  /** Recovery of this disk would redo exactly this block write. */
  ghost predicate Covered(c: Disk, b: nat, image: seq<byte>) {
    && c.state != LOGREDONE && VisibleUnits(c).Some?
    && var recs := VisibleUnits(c).value;
       exists x :: 0 <= x < |recs| && Live(recs, x) && recs[x].lrd.pxd.address == b && recs[x].data == image
  }

  /** No log page was written since the last flush before call `p`. */
  ghost predicate FlushedBefore(es: seq<Event>, p: nat)
    requires p <= |es|
  {
    exists q :: 0 <= q < p && es[q] == Sync && forall x :: q < x < p ==> !es[x].PageWrite?
  }

  /** Block writes of a commit sit behind its logging, in page order. */
  lemma BlockWritePosition(s: LogState, t: Txn, p: nat)
    requires Sized(s) && p < |CommitPlan(s, t)| && CommitPlan(s, t)[p].BlockWrite?
    ensures var i := p - 1 - |LoggedPlan(s, t)|;
            && 0 <= i < |t.pages|
            && CommitPlan(s, t)[p] == BlockWrite(t.pages[i].0, t.pages[i].1)
            && CommitPlan(s, t)[..p] == [FlushData] + LoggedPlan(s, t) + BlockWrites(t)[..i]
            && FlushedBefore(CommitPlan(s, t), p)
  {
    hide LoggedPlan;
    LoggedPlanShape(s, t);
    var l, plan := LoggedPlan(s, t), CommitPlan(s, t);
    assert forall x :: 1 <= x <= |l| ==> plan[x] == l[x - 1];
    var q := |l| - 1;
    assert plan[q] == l[q - 1] == Sync;
    assert plan[|l|] == l[|l| - 1];
    assert forall x :: |l| < x < p ==> plan[x] == BlockWrites(t)[x - 1 - |l|];
  }

  /** When its block is written in place, the image is live in the visible log. */
  lemma InPlaceCovered(c: Disk, d: Disk, s: LogState, us: Units, t: Txn, i: nat)
    requires Quiet(d, s, us) && Fit(d.blocks, t) && i < |t.pages| && InPlace(c, d, s, us, t, i)
    ensures Covered(c, t.pages[i].0, t.pages[i].1)
  {
    hide Quiet, Settled, Closed, Pending, VisibleUnits, Records, AddTxn, Logged, RedoRecords, AppendAll, Live, Fit, KindOf, WritesImage;
    QuietParts(d, s, us);
    AddTxnEnds(us, s, t);
    SettledVisible(c, Logged(s, t), AddTxn(us, s, t));
    SettledState(c, Logged(s, t), AddTxn(us, s, t));
    LoggedState(s, t);
    AddTxnRecords(us, s, t);
    WholeIsClosed(s, d.blocks, t, Records(us));
    var base, p := Records(us), RedoRecords(s, t.tid, t.pages);
    var all := base + TxnRecords(s, t);
    var x := |base| + i;
    RedoRecordsAre(s, d.blocks, t, |t.pages|);
    assert t.pages[..|t.pages|] == t.pages;
    assert IsImage(p[i], t.tid, TxnWrites(t)[i]);
    assert all[x] == p[i];
    assert all + [] == all;
    EmptyLog();
    LiveInClosed(all, [], x);
  }

  /**
   The order inside one commit: when a block is written in place, every record of the transaction lies on
   the device, flushed, where a scan that skips unit tails finds it.
   */
  lemma CommitWritesAhead(d: Disk, s: LogState, us: Units, t: Txn, p: nat)
    requires Quiet(d, s, us) && Fit(d.blocks, t) && UNIT * |AddTxn(us, s, t)| <= |d.log|
    requires p < |CommitPlan(s, t)| && CommitPlan(s, t)[p].BlockWrite?
    ensures Covered(ApplyAll(d, CommitPlan(s, t)[..p]), CommitPlan(s, t)[p].block, CommitPlan(s, t)[p].image)
    ensures Settled(ApplyAll(d, CommitPlan(s, t)[..p]), Logged(s, t), AddTxn(us, s, t))
    ensures FlushedBefore(CommitPlan(s, t), p)
  {
    hide Quiet, Fit, Covered, FlushedBefore, CommitPlan, AddTxn, LoggedPlan, BlockWrites, Settled, Logged, TxnWrites, ApplyWrites;
    QuietParts(d, s, us);
    BlockWritePosition(s, t, p);
    var i := p - 1 - |LoggedPlan(s, t)|;
    ReachInPlace(d, s, us, t, i);
    InPlaceCovered(ApplyAll(d, CommitPlan(s, t)[..p]), d, s, us, t, i);
  }

  /**
   In every run of commits, when a block is written in place its image and its commit record are in the
   log, where recovery finds them, and were flushed before.
   */
  lemma {:induction false} RunWritesAhead(d: Disk, s: LogState, us: Units, ts: seq<Txn>, p: nat)
    requires Quiet(d, s, us) && AllFit(d.blocks, ts) && Sized(s)
    requires UNIT * |AddTxns(us, s, ts)| <= |d.log|
    requires p < |RunPlan(s, ts)| && RunPlan(s, ts)[p].BlockWrite?
    ensures Covered(ApplyAll(d, RunPlan(s, ts)[..p]), RunPlan(s, ts)[p].block, RunPlan(s, ts)[p].image)
    ensures FlushedBefore(RunPlan(s, ts), p)
    decreases |ts|
  {
    hide Quiet, Fit, AddTxns, RunPlan, AllFit, Covered, FlushedBefore, CommitPlan, LoggedAll, After;
    if ts == [] {
      EmptyRun(d, s, us);
      assert false;
    }
    RunUnfold(d, s, us, ts);
    RunFits(d, s, us, ts);
    var init, t := ts[..|ts| - 1], ts[|ts| - 1];
    var plan, s1 := RunPlan(s, init), LoggedAll(s, init);
    if p < |plan| {
      RunWritesAhead(d, s, us, init, p);
      assert RunPlan(s, ts)[..p] == plan[..p];
      FlushedExtends(plan, CommitPlan(s1, t), p);
    } else {
      LastWritesAhead(d, s, us, ts, p);
    }
  }

  lemma FlushedExtends(a: seq<Event>, b: seq<Event>, p: nat)
    requires p <= |a| && FlushedBefore(a, p)
    ensures FlushedBefore(a + b, p)
  {
    var q :| 0 <= q < p && a[q] == Sync && forall x :: q < x < p ==> !a[x].PageWrite?;
    assert (a + b)[q] == Sync;
  }

  lemma FlushedShifts(a: seq<Event>, b: seq<Event>, p: nat)
    requires p <= |b| && FlushedBefore(b, p)
    ensures FlushedBefore(a + b, |a| + p)
  {
    var q :| 0 <= q < p && b[q] == Sync && forall x :: q < x < p ==> !b[x].PageWrite?;
    assert (a + b)[|a| + q] == Sync;
    forall x | |a| + q < x < |a| + p ensures !(a + b)[x].PageWrite? {
      assert (a + b)[x] == b[x - |a|];
    }
  }

  lemma LastFits(m: Blocks, ts: seq<Txn>)
    requires AllFit(m, ts) && ts != []
    ensures Fit(m, ts[|ts| - 1])
  {
    hide Fit;
  }

  lemma CallAt(a: seq<Event>, b: seq<Event>, q: nat)
    requires q < |b|
    ensures (a + b)[|a| + q] == b[q]
  {
  }

  lemma LastWritesAhead(d: Disk, s: LogState, us: Units, ts: seq<Txn>, p: nat)
    requires Quiet(d, s, us) && AllFit(d.blocks, ts) && Sized(s) && ts != []
    requires UNIT * |AddTxns(us, s, ts)| <= |d.log|
    requires |RunPlan(s, ts[..|ts| - 1])| <= p < |RunPlan(s, ts)| && RunPlan(s, ts)[p].BlockWrite?
    ensures Covered(ApplyAll(d, RunPlan(s, ts)[..p]), RunPlan(s, ts)[p].block, RunPlan(s, ts)[p].image)
    ensures FlushedBefore(RunPlan(s, ts), p)
  {
    hide Quiet, Fit, AddTxns, RunPlan, Covered, FlushedBefore, CommitPlan, LoggedAll, After, AddTxn, Settled, Logged, ApplyAll, AllFit;
    assert Fit(d.blocks, ts[|ts| - 1]) by { LastFits(d.blocks, ts); }
    RunUnfold(d, s, us, ts);
    RunFits(d, s, us, ts);
    var init, t := ts[..|ts| - 1], ts[|ts| - 1];
    var plan, s1, u1 := RunPlan(s, init), LoggedAll(s, init), AddTxns(us, s, init);
    var q := p - |plan|;
    RunKeepsQuiet(d, s, us, init);
    var d1 := ApplyAll(d, plan);
    FitOnSameVolume(d.blocks, d1.blocks, t);
    CallAt(plan, CommitPlan(s1, t), q);
    CommitWritesAhead(d1, s1, u1, t, q);
    RunCut(d, plan, CommitPlan(s1, t), q);
    FlushedShifts(plan, CommitPlan(s1, t), q);
  }

  // ---- What the scan as written finds of it ----

  /** Recovery as written would redo exactly this block write. */
  ghost predicate CoveredAsWritten(c: Disk, b: nat, image: seq<byte>) {
    && c.state != LOGREDONE && Visible(c).Some?
    && var recs := Visible(c).value;
       exists x :: 0 <= x < |recs| && Live(recs, x) && recs[x].lrd.pxd.address == b && recs[x].data == image
  }

  lemma {:induction false} LiveMember(recs: seq<Record>, k: nat, b: nat, image: seq<byte>)
    requires k <= |recs|
    ensures Write(b, image) in LiveWrites(recs, k) <==>
            exists x :: 0 <= x < k && Live(recs, x) && recs[x].lrd.pxd.address == b && recs[x].data == image
    decreases k
  {
    hide Live;
    if k > 0 {
      LiveMember(recs, k - 1, b, image);
    }
  }

  /**
   As written, recovery finds the image of a block that is written in place exactly when the log is to be
   replayed and, with the transaction, is still a single unit or holds the same image in its first unit.
   */
  lemma WritesAheadWhen(d: Disk, s: LogState, us: Units, t: Txn, p: nat)
    requires Takes(d, s, us, t) && p < |CommitPlan(s, t)| && CommitPlan(s, t)[p].BlockWrite?
    ensures var e := CommitPlan(s, t)[p];
            CoveredAsWritten(ApplyAll(d, CommitPlan(s, t)[..p]), e.block, e.image)
            <==> s.state != LOGREDONE && (|AddTxn(us, s, t)| == 1 || Write(e.block, e.image) in FirstLive(us))
  {
    hide Quiet, Fit, CommitPlan, AddTxn, ApplyWrites, TxnWrites, FirstLive;
    if s.state == LOGREDONE {
      ReplayedCommit(d, s, t, p);
    } else {
      QuietWritesAhead(d, s, us, t, p);
    }
  }

  lemma QuietWritesAhead(d: Disk, s: LogState, us: Units, t: Txn, p: nat)
    requires Quiet(d, s, us) && Fit(d.blocks, t) && UNIT * |AddTxn(us, s, t)| <= |d.log|
    requires p < |CommitPlan(s, t)| && CommitPlan(s, t)[p].BlockWrite?
    ensures var e := CommitPlan(s, t)[p];
            CoveredAsWritten(ApplyAll(d, CommitPlan(s, t)[..p]), e.block, e.image)
            <==> (|AddTxn(us, s, t)| == 1 || Write(e.block, e.image) in FirstLive(us))
  {
    hide Quiet, Fit, FlushedBefore, CommitPlan, AddTxn, LoggedPlan, BlockWrites, InPlace, Visible, Live, Redoes, LiveWrites;
    QuietParts(d, s, us);
    BlockWritePosition(s, t, p);
    var i := p - 1 - |LoggedPlan(s, t)|;
    ReachInPlace(d, s, us, t, i);
    InPlaceView(ApplyAll(d, CommitPlan(s, t)[..p]), d, s, us, t, i);
    FirstLiveAfter(d, s, us, t);
    var u := AddTxn(us, s, t)[0];
    LiveMember(u, |u|, t.pages[i].0, t.pages[i].1);
    assert TxnWrites(t)[i] == Write(t.pages[i].0, t.pages[i].1);
  }
}

/**
 What recovery as the code has it works on: the scan stops at the tail of the first unit, which has room
 for one image, so that at most this image is redone, between commits and wherever a commit is cut off.
 */
module FirstUnit {
  import opened Bytes
  import opened LogRecord
  import opened Device
  import opened LogWriter
  import opened LogLayout
  import opened LogScan
  import opened LogReadBack
  import opened LogFlush
  import opened LogCrash
  import opened LogVisible
  import opened Recovery
  import opened CrashSafety

  // ---- A new log ----

  /** A log manager that has just been opened on a zeroed log area. */
  ghost predicate Fresh(d: Disk, s: LogState) {
    && s == LogState(0, 0, Zeros(UNIT), false, d.end, d.state)
    && d.end == 0
    && UNIT <= |d.log| < TWO32
    && ZeroFrom(d.log, 0)
  }

  lemma FreshIsQuiet(d: Disk, s: LogState)
    requires Fresh(d, s) && d.state != LOGREDONE
    ensures Quiet(d, s, [[]])
  {
    var us: Units := [[]];
    EmptyUnit();
    assert Last(us) == [] && Before(us) == [];
    assert Records([]) == [];
    assert Records(us) == Records(us[..0]) + us[0] == [];
    assert d.log[0..UNIT] == Zeros(UNIT);
    EmptyLog();
    assert ApplyWrites(d.blocks, []) == d.blocks;
    assert EncodeAll([]) == [];
  }

  // ---- What the scan sees ----

  /** As written, recovery of a settled log works on its first unit. */
  lemma SeesFirstUnit(d: Disk, s: LogState, us: Units)
    requires Settled(d, s, us)
    ensures Visible(d) == Some(us[0])
  {
    hide EncodeAll, UnitBytes, Mixed, Visible, ImageFirst, VisibleUnits;
    assert UnitOk(us[|us| - 1]);
    HoldsAsBytes(d.log, us, Last(us));
    assert Mixed(Last(us), Last(us), 0) == UnitBytes(Last(us)) by { MixedSame(Last(us)); }
    assert Cut(d, us, Last(us), 0);
    if d.end > 0 {
      CutVisible(d, us, Last(us), 0);
    } else {
      FreshIsFirst(us, Last(us));
      EmptyImageFirst();
      var recs := CutFresh(d, us, Last(us), 0);
    }
  }

  lemma {:induction false} FirstUnitLeads(us: Units)
    ensures us[0] <= Records(us)
    decreases |us|
  {
    if |us| == 1 {
      assert Records(us[..0]) == [];
      assert Records(us) == [] + us[0];
    } else {
      var init: Units := us[..|us| - 1];
      FirstUnitLeads(init);
    }
  }

  /** Every image of the first unit whose commit record lies there too is what the block holds now. */
  ghost predicate FirstUnitCurrent(m: Blocks, u: seq<Record>) {
    forall b: nat :: Oldest(LiveWrites(u, |u|), b).Some? ==> b in m && m[b] == Oldest(LiveWrites(u, |u|), b).value
  }

  lemma ClosedPartNoMarks(recs: seq<Record>, u: seq<Record>)
    requires Closed(recs) && u <= recs
    ensures NoMarks(u)
  {
    hide KindOf, WritesImage;
    forall i | 0 <= i < |u| ensures KindOf(u[i].lrd) != NoRedoKind {
      assert u[i] == recs[i];
    }
  }

  /** Every redo record of a log is among its images. */
  lemma {:induction false} ImageOfRecord(recs: seq<Record>, i: nat)
    requires i < |recs| && KindOf(recs[i].lrd) == RedoKind
    ensures Write(recs[i].lrd.pxd.address, recs[i].data) in ImagesOf(recs)
    decreases |recs|
  {
    hide KindOf;
    if i < |recs| - 1 {
      ImageOfRecord(recs[..|recs| - 1], i);
    }
  }

  lemma {:induction false} LiveAcceptable(m: Blocks, recs: seq<Record>, u: seq<Record>, k: nat)
    requires u <= recs && k <= |u| && Acceptable(m, ImagesOf(recs))
    ensures Acceptable(m, LiveWrites(u, k))
    decreases k
  {
    hide KindOf, WritesImage, ImagesOf, CommittedAfter, MountedAfter;
    if k > 0 {
      LiveAcceptable(m, recs, u, k - 1);
      if Live(u, k - 1) {
        assert u[k - 1] == recs[k - 1];
        ImageOfRecord(recs, k - 1);
      }
    }
  }

  /**
   As written, recovering a disk on which every transaction is complete leaves its blocks alone exactly
   when the log is marked as replayed or the committed images of the first unit are still current.
   */
  lemma QuietRecoveryKeeps(d: Disk, s: LogState, us: Units)
    requires Resting(d, s, us)
    ensures Recover(d).Some?
    ensures Recover(d).value.blocks == d.blocks <==> s.state == LOGREDONE || FirstUnitCurrent(d.blocks, us[0])
  {
    hide Quiet, FirstUnitCurrent, Visible;
    if s.state != LOGREDONE {
      CurrentKeeps(d, s, us);
    }
  }

  /** Between transactions, on a log in any state. A log marked as replayed may hold whatever it holds. */
  ghost predicate Resting(d: Disk, s: LogState, us: Units) {
    Sized(s) && d.state == s.state && (s.state != LOGREDONE ==> Quiet(d, s, us))
  }

  lemma CurrentKeeps(d: Disk, s: LogState, us: Units)
    requires Quiet(d, s, us)
    ensures Recover(d).Some?
    ensures Recover(d).value.blocks == d.blocks <==> FirstUnitCurrent(d.blocks, us[0])
  {
    hide Quiet, Settled, Closed, Visible, Backward, LiveWrites, ApplyWrites, Oldest, NoMarks, Acceptable, Reverse, ImagesOf;
    QuietParts(d, s, us);
    SettledState(d, s, us);
    SeesFirstUnit(d, s, us);
    FirstUnitLeads(us);
    ClosedPartNoMarks(Records(us), us[0]);
    var u := us[0];
    LiveAcceptable(d.blocks, Records(us), u, |u|);
    ReverseAcceptable(d.blocks, LiveWrites(u, |u|));
    BackwardWritesLive(u);
    var x := ApplyWrites(d.blocks, Backward(u, FRESH));
    forall b: nat ensures (b in x <==> b in d.blocks || Oldest(LiveWrites(u, |u|), b).Some?)
                       && (Oldest(LiveWrites(u, |u|), b).Some? ==> x[b] == Oldest(LiveWrites(u, |u|), b).value)
                       && (Oldest(LiveWrites(u, |u|), b).None? && b in d.blocks ==> x[b] == d.blocks[b])
    {
      OldestSurvives(d.blocks, u, b);
    }
    if FirstUnitCurrent(d.blocks, u) {
      assert x.Keys == d.blocks.Keys;
      assert x == d.blocks;
    }
  }

  // ---- Commits, as written ----

  /** The outcome of recovery, as written, is the state before or the state after the transaction. */
  ghost predicate AllOrNothing(d: Disk, c: Disk, t: Txn) {
    var r := Recover(c);
    r.Some? && (r.value.blocks == d.blocks || r.value.blocks == ApplyWrites(d.blocks, TxnWrites(t)))
  }

  predicate Changes(m: Blocks, t: Txn, i: nat)
    requires i < |t.pages|
  {
    t.pages[i].0 in m && m[t.pages[i].0] != t.pages[i].1
  }

  /** At most one page of the transaction differs from what its block holds. */
  ghost predicate OneChange(m: Blocks, t: Txn) {
    forall i, j :: 0 <= i < j < |t.pages| ==> !(Changes(m, t, i) && Changes(m, t, j))
  }

  predicate DistinctBlocks(t: Txn) {
    forall i, j :: 0 <= i < j < |t.pages| ==> t.pages[i].0 != t.pages[j].0
  }

  /** The images of the first unit that recovery, as written, redoes between transactions. */
  ghost function FirstLive(us: Units): seq<Write> {
    LiveWrites(us[0], |us[0]|)
  }

  /** The images that recovery, as written, redoes: none once the log is marked as replayed. */
  ghost function RedoAsWritten(s: LogState, us: Units): seq<Write> {
    if s.state == LOGREDONE then [] else FirstLive(us)
  }

  /** A resting volume that can take a transaction; a log that is to be replayed needs room for its records. */
  ghost predicate Takes(d: Disk, s: LogState, us: Units, t: Txn) {
    Resting(d, s, us) && Fit(d.blocks, t) && (s.state != LOGREDONE ==> UNIT * |AddTxn(us, s, t)| <= |d.log|)
  }

  /** The first `i` pages in place, and `l` redone on top. */
  function Stage(m: Blocks, l: seq<Write>, t: Txn, i: nat): Blocks
    requires i <= |t.pages|
  {
    ApplyWrites(ApplyWrites(m, TxnWrites(t)[..i]), l)
  }

  /** Redoing `l` at any stage of the in-place writes gives the old blocks or the new ones. */
  ghost predicate StagesSafe(m: Blocks, l: seq<Write>, t: Txn) {
    forall i: nat :: i <= |t.pages| ==> Stage(m, l, t, i) == m || Stage(m, l, t, i) == ApplyWrites(m, TxnWrites(t))
  }

  /** The redone image is current, or is just what the transaction writes. */
  ghost predicate Harmless(m: Blocks, l: seq<Write>, t: Txn) {
    ApplyWrites(m, l) == m || ApplyWrites(m, l) == ApplyWrites(m, TxnWrites(t))
  }

  // ---- At most one image fits the first unit ----

  lemma {:induction false} ImagesSnoc(u: seq<Record>, r: Record)
    ensures Images(u + [r]) == Images(u) + if |r.data| == 0 then 0 else 1
  {
    if u == [] {
      assert u + [r] == [r] && [r][1..] == [];
    } else {
      assert (u + [r])[1..] == u[1..] + [r];
      ImagesSnoc(u[1..], r);
    }
  }

  lemma {:induction false} ImagesCounted(m: Blocks, u: seq<Record>)
    requires Acceptable(m, ImagesOf(u))
    ensures |ImagesOf(u)| <= Images(u)
    decreases |u|
  {
    hide KindOf, Images;
    if u != [] {
      var init, r := u[..|u| - 1], u[|u| - 1];
      assert u == init + [r];
      ImagesSnoc(init, r);
      forall i | 0 <= i < |ImagesOf(init)| ensures ImagesOf(init)[i].block in m && |ImagesOf(init)[i].data| == PAGE {
        assert ImagesOf(u)[i] == ImagesOf(init)[i];
      }
      ImagesCounted(m, init);
      if KindOf(r.lrd) == RedoKind {
        assert ImagesOf(u)[|ImagesOf(init)|] == Write(r.lrd.pxd.address, r.data);
      }
    }
  }

  lemma OneImage(m: Blocks, u: seq<Record>)
    requires UnitOk(u) && Acceptable(m, ImagesOf(u))
    ensures |ImagesOf(u)| <= 1
  {
    hide EncodeAll, Images, ImagesOf;
    ImagesCounted(m, u);
    UnitSize(u);
    UnitNeverFull(u);
  }

  lemma {:induction false} LiveLeImages(u: seq<Record>, k: nat)
    requires k <= |u|
    ensures |LiveWrites(u, k)| <= |ImagesOf(u[..k])|
    decreases k
  {
    hide KindOf, WritesImage, CommittedAfter, MountedAfter;
    if k > 0 {
      LiveLeImages(u, k - 1);
      assert u[..k][..k - 1] == u[..k - 1];
    }
  }

  lemma ReverseShort(ws: seq<Write>)
    requires |ws| <= 1
    ensures Reverse(ws) == ws
  {
    if ws != [] {
      assert ws[1..] == [];
    }
  }

  /** The images of the first unit in a quiet state. */
  lemma FirstLiveIs(d: Disk, s: LogState, us: Units)
    requires Quiet(d, s, us)
    ensures |FirstLive(us)| <= 1 && Acceptable(d.blocks, FirstLive(us)) && NoMarks(us[0])
    ensures Backward(us[0], FRESH) == FirstLive(us)
    ensures |us| == 1 ==> Closed(us[0]) && FirstLive(us) == ImagesOf(us[0])
    ensures |us| == 1 ==> Acceptable(d.blocks, ImagesOf(us[0])) && ApplyWrites(d.blocks, FirstLive(us)) == d.blocks
  {
    hide Quiet, Settled, Closed, Acceptable, ImagesOf, Backward, LiveWrites, NoMarks, ApplyWrites, Records, Pending;
    QuietParts(d, s, us);
    SettledOk(d, s, us);
    FirstUnitLeads(us);
    var recs, u := Records(us), us[0];
    ClosedPartNoMarks(recs, u);
    LiveAcceptable(d.blocks, recs, u, |u|);
    assert recs == u + recs[|u|..];
    ImagesOfAppend(u, recs[|u|..]);
    AcceptableFront(d.blocks, ImagesOf(u), ImagesOf(recs[|u|..]));
    OneImage(d.blocks, u);
    LiveLeImages(u, |u|);
    assert u[..|u|] == u;
    BackwardWritesLive(u);
    ReverseShort(FirstLive(us));
    if |us| == 1 {
      OneUnit(us, []);
      EmptyLog();
      assert u + [] == u;
      LiveAreImages(u, [], |u|);
    }
  }

  lemma SettledOk(d: Disk, s: LogState, us: Units)
    requires Settled(d, s, us)
    ensures AllOk(us) && UnitOk(us[0])
  {
  }

  lemma AcceptableFront(m: Blocks, a: seq<Write>, b: seq<Write>)
    requires Acceptable(m, a + b)
    ensures Acceptable(m, a)
  {
    forall i | 0 <= i < |a| ensures a[i].block in m && |a[i].data| == PAGE {
      assert (a + b)[i] == a[i];
    }
  }

  lemma NoRecords()
    ensures Records([[]]) == []
  {
    var us: seq<seq<Record>> := [[]];
    assert us[..0] == [];
  }

  lemma OneUnit(us: Units, fl: seq<Record>)
    requires |us| == 1
    ensures FlushedRecords(us, fl) == fl && Records(us) == us[0] == Last(us)
  {
    assert Before(us) == [] && Records([]) == [];
    assert [] + fl == fl && [] + us[0] == us[0];
  }

  // ---- What recovery redoes when a commit is cut off ----

  /** It redoes the image of the first unit, or the only page of a transaction that lies in the first unit. */
  ghost predicate Redoes(us: Units, t: Txn, recs: seq<Record>) {
    || Backward(recs, FRESH) == FirstLive(us)
    || (FirstLive(us) == [] && |us| == 1 && |t.pages| == 1 && Backward(recs, FRESH) == TxnWrites(t))
  }

  /** Some of the transaction's records behind those of the only unit. */
  lemma RedoesInUnit(d: Disk, s: LogState, us: Units, t: Txn, recs: seq<Record>)
    requires Quiet(d, s, us) && Fit(d.blocks, t) && |us| == 1 && UnitOk(recs)
    requires us[0] <= recs <= us[0] + TxnRecords(s, t)
    ensures Redoes(us, t, recs)
  {
    hide Quiet, Closed, Pending, Acceptable, ImagesOf, Backward, LiveWrites, ApplyWrites, TxnRecords, TxnWrites, Fit, UnitOk, RedoRecords, FirstLive, Settled;
    FirstLiveIs(d, s, us);
    QuietParts(d, s, us);
    var u, p := us[0], recs[|us[0]|..];
    assert recs == u + p;
    assert p <= TxnRecords(s, t);
    if p == TxnRecords(s, t) {
      WholeIsClosed(s, d.blocks, t, u);
      FitAcceptable(d.blocks, t);
      AcceptableBoth(d.blocks, d.blocks, ImagesOf(u), TxnWrites(t));
      OneImage(d.blocks, recs);
      EmptyLog();
      assert recs + [] == recs;
      RedoOfClosed(d.blocks, recs, []);
      ReverseShort(ImagesOf(recs));
      if t.pages == [] {
        assert ImagesOf(u) + TxnWrites(t) == ImagesOf(u);
      } else {
        assert ImagesOf(u) == [];
        assert [] + TxnWrites(t) == TxnWrites(t);
      }
    } else {
      ShortPart(s, t, p);
      PartIsPending(s, d.blocks, t, p);
      RedoOfClosed(d.blocks, u, p);
      ReverseShort(ImagesOf(u));
    }
  }

  /** The machine stops while the transaction is logged. */
  lemma LoggingView(d: Disk, s: LogState, us: Units, t: Txn, k: nat) returns (recs: seq<Record>)
    requires Quiet(d, s, us) && Fit(d.blocks, t) && UNIT * |AddTxn(us, s, t)| <= |d.log| && k < |LoggedPlan(s, t)|
    ensures var c := ApplyAll(d, LoggedPlan(s, t)[..k]);
            Visible(c) == Some(recs) && Redoes(us, t, recs) && c.blocks == d.blocks && c.state == s.state
  {
    hide Quiet, Settled, LoggedPlan, AddTxn, Cut, Visible, VisibleUnits, TxnRecords, Records, ImageFirst, RedoRecords, Redoes,
         UnitOk, EncodeAll, Fit, FlushedRecords, Closed, Acceptable, ImagesOf, ApplyWrites;
    QuietParts(d, s, us);
    FitId(d.blocks, t);
    SettledState(d, s, us);
    var vs, fl, j := LoggedCut(d, s, us, t, k);
    var c := ApplyAll(d, LoggedPlan(s, t)[..k]);
    CutOk(c, vs, fl, j);
    FirstUnitLeads(vs);
    if c.end > 0 {
      CutVisible(c, vs, fl, j);
      recs := if |vs| == 1 then fl else vs[0];
      if |us| > 1 {
        FirstLiveIs(d, s, us);
        assert recs == us[0];
        RedoesOld(us, t);
      } else {
        OneUnit(us, []);
        if |vs| == 1 {
          OneUnit(vs, fl);
          RedoPart(s, t, us[0], fl);
        }
        RedoesInUnit(d, s, us, t, recs);
      }
    } else {
      recs := FreshView(d, s, us, t, c, vs, fl, j);
    }
  }

  lemma RedoesOld(us: Units, t: Txn)
    requires Backward(us[0], FRESH) == FirstLive(us)
    ensures Redoes(us, t, us[0])
  {
  }

  lemma RedoPart(s: LogState, t: Txn, u: seq<Record>, v: seq<Record>)
    requires Sized(s) && v <= u + RedoRecords(s, t.tid, t.pages)
    ensures v <= u + TxnRecords(s, t)
  {
    hide RedoRecords, AppendAll, NextCommit;
    var r := RedoRecords(s, t.tid, t.pages);
    assert (u + TxnRecords(s, t))[..|u + r|] == u + r;
  }

  lemma CutOk(d: Disk, us: Units, fl: seq<Record>, j: nat)
    requires Cut(d, us, fl, j)
    ensures UnitOk(us[0]) && UnitOk(fl) && fl <= Last(us)
    ensures d.end == FlushedEnd(us, fl) && (|us| > 1 ==> us[|us| - 2] != [])
  {
  }

  /** The same before the first flush of the log has completed. */
  lemma FreshView(d: Disk, s: LogState, us: Units, t: Txn, c: Disk, vs: Units, fl: seq<Record>, j: nat) returns (recs: seq<Record>)
    requires Quiet(d, s, us) && Fit(d.blocks, t) && Cut(c, vs, fl, j) && c.end == 0 && FirstKept(us, vs)
    requires Records(us) <= FlushedRecords(vs, fl) && Records(vs) <= Records(us) + TxnRecords(s, t)
    ensures Visible(c) == Some(recs) && Redoes(us, t, recs)
  {
    hide Quiet, Settled, Cut, Visible, VisibleUnits, TxnRecords, ImageFirst, Redoes, UnitOk, EncodeAll, Fit, FlushedRecords, Records,
         Closed, Acceptable, ImagesOf, ApplyWrites, KindOf;
    QuietParts(d, s, us);
    CutOk(c, vs, fl, j);
    FreshParts(us, vs, fl, c, j);
    OneUnit(us, []);
    var u := Last(vs);
    assert [] + TxnRecords(s, t) == TxnRecords(s, t);
    PartImageFirst(s, d.blocks, t, u);
    recs := CutFresh(c, vs, fl, j);
    if recs == u {
      RedoesInUnit(d, s, us, t, recs);
    } else if recs == [] {
      FirstLiveIs(d, s, us);
      RedoesOld(us, t);
    } else {
      TornRedoes(us, t, recs);
    }
  }

  lemma TornRedoes(us: Units, t: Txn, recs: seq<Record>)
    requires us[0] == [] && |recs| == 1 && KindOf(recs[0].lrd) == RedoKind
    ensures Redoes(us, t, recs)
  {
    hide KindOf, Closed, ImagesOf, Backward;
    EmptyLog();
    assert Pending(recs) && [] + recs == recs;
    RedoOfClosed(map[], [], recs);
  }

  /** The machine stops once the transaction is logged. */
  lemma InPlaceView(c: Disk, d: Disk, s: LogState, us: Units, t: Txn, i: nat)
    requires Quiet(d, s, us) && Fit(d.blocks, t) && i <= |t.pages| && InPlace(c, d, s, us, t, i)
    ensures Visible(c) == Some(AddTxn(us, s, t)[0]) && Redoes(us, t, AddTxn(us, s, t)[0]) && c.state == s.state
  {
    hide Quiet, Settled, AddTxn, Visible, TxnRecords, Records, Redoes, UnitOk, Logged, Fit, TxnWrites, ApplyWrites, Closed, Acceptable, ImagesOf;
    QuietParts(d, s, us);
    var ws := AddTxn(us, s, t);
    AddTxnEnds(us, s, t);
    SettledEnd(c, Logged(s, t), ws);
    SeesFirstUnit(c, Logged(s, t), ws);
    AddTxnFirst(us, s, t);
    LoggedState(s, t);
    if |us| > 1 {
      FirstLiveIs(d, s, us);
      RedoesOld(us, t);
    } else {
      AddTxnRecords(us, s, t);
      OneUnit(us, []);
      FirstUnitLeads(ws);
      RedoesInUnit(d, s, us, t, ws[0]);
    }
  }

  lemma SettledEnd(d: Disk, s: LogState, us: Units)
    requires Settled(d, s, us) && Last(us) != []
    ensures d.end > 0 && d.state == s.state && UnitOk(us[0])
  {
  }

  /** The outcome of recovery, as written, after the first `i` pages were written in place. */
  lemma RecoveredStage(d: Disk, s: LogState, us: Units, t: Txn, c: Disk, i: nat, recs: seq<Record>)
    requires Quiet(d, s, us) && Fit(d.blocks, t) && i <= |t.pages|
    requires Visible(c) == Some(recs) && Redoes(us, t, recs) && c.state == s.state
    requires c.blocks == ApplyWrites(d.blocks, TxnWrites(t)[..i])
    ensures Recover(c).Some?
    ensures || Recover(c).value.blocks == ApplyWrites(ApplyWrites(d.blocks, TxnWrites(t)[..i]), FirstLive(us))
            || (FirstLive(us) == [] && |t.pages| == 1 && Recover(c).value.blocks == ApplyWrites(d.blocks, TxnWrites(t)))
  {
    hide Quiet, Visible, Backward, FirstLive, ApplyWrites, TxnWrites, Fit, Acceptable, Settled, Closed, ImagesOf;
    QuietParts(d, s, us);
    FirstLiveIs(d, s, us);
    FitAcceptable(d.blocks, t);
    AcceptablePart(d.blocks, TxnWrites(t), i);
    ApplyWritesKeys(d.blocks, TxnWrites(t)[..i]);
    EmptyAcceptable(d.blocks);
    AcceptableBoth(d.blocks, c.blocks, [], FirstLive(us));
    AcceptableBoth(d.blocks, c.blocks, [], TxnWrites(t));
    assert [] + FirstLive(us) == FirstLive(us) && [] + TxnWrites(t) == TxnWrites(t);
    PartThenWhole(d.blocks, TxnWrites(t), i);
  }

  lemma EmptyAcceptable(m: Blocks)
    ensures Acceptable(m, [])
  {
  }
}

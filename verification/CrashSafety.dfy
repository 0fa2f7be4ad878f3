/**
 Crash atomicity of journaled transactions: wherever the device calls of a commit stop, recovery leaves
 the blocks as they were before the transaction or as they are after it.
 */
module CrashSafety {
  import opened Bytes
  import opened LogRecord
  import opened Device
  import opened LogWriter
  import opened LogLayout
  import opened LogScan
  import opened LogFlush
  import opened LogCrash
  import opened LogVisible
  import opened Recovery

  // ---- Recovery as a function of the disk ----

  predicate Acceptable(m: Blocks, ws: seq<Write>) {
    forall i :: 0 <= i < |ws| ==> ws[i].block in m && |ws[i].data| == PAGE
  }

  /** The disk after redoing `ws` and marking the log as replayed; `None` when a write is refused. */
  function Redone(d: Disk, ws: seq<Write>): Option<Disk> {
    if Acceptable(d.blocks, ws)
    then Some(d.(blocks := ApplyWrites(d.blocks, ws), state := LOGREDONE)) else None
  }

  /** Recovery as written. */
  function Recover(d: Disk): Option<Disk> {
    if d.state == LOGREDONE then Some(d)
    else match Visible(d)
         case None => None
         case Some(recs) => Redone(d, Backward(recs, FRESH))
  }

  /** Recovery that skips unit tails and writes each page only for the first record met. */
  function RecoverUnits(d: Disk): Option<Disk> {
    if d.state == LOGREDONE then Some(d)
    else match VisibleUnits(d)
         case None => None
         case Some(recs) => Redone(d, Once(Backward(recs, FRESH), {}))
  }

  // ---- Logs of complete transactions ----

  /** Only page images and commit records, and every image's transaction commits. */
  ghost predicate Closed(recs: seq<Record>) {
    forall i :: 0 <= i < |recs| ==>
      || KindOf(recs[i].lrd) == CommitKind
      || (KindOf(recs[i].lrd) == RedoKind && WritesImage(recs[i].lrd)
          && CommittedAfter(recs, i, recs[i].lrd.logtid))
  }

  /** The images of all redo records, oldest first. */
  function ImagesOf(recs: seq<Record>): seq<Write>
    decreases |recs|
  {
    if recs == [] then [] else
    var r := recs[|recs| - 1];
    ImagesOf(recs[..|recs| - 1])
    + if KindOf(r.lrd) == RedoKind then [Write(r.lrd.pxd.address, r.data)] else []
  }

  lemma {:induction false} ImagesOfAppend(a: seq<Record>, b: seq<Record>)
    ensures ImagesOf(a + b) == ImagesOf(a) + ImagesOf(b)
    decreases |b|
  {
    hide KindOf;
    if b == [] {
      assert a + b == a;
    } else {
      assert (a + b)[..|a + b| - 1] == a + b[..|b| - 1];
      ImagesOfAppend(a, b[..|b| - 1]);
    }
  }

  /** Redo records of a transaction that has not committed. */
  ghost predicate Pending(recs: seq<Record>) {
    forall i :: 0 <= i < |recs| ==> KindOf(recs[i].lrd) == RedoKind
  }

  lemma LiveInClosed(base: seq<Record>, p: seq<Record>, i: nat)
    requires Closed(base) && Pending(p) && i < |base + p|
    ensures Live(base + p, i) <==> i < |base| && KindOf(base[i].lrd) == RedoKind
  {
    hide KindOf, WritesImage;
    var all := base + p;
    assert forall j :: 0 <= j < |all| ==> KindOf(all[j].lrd) != MountKind;
    if i < |base| {
      assert all[i] == base[i];
      if KindOf(base[i].lrd) == RedoKind {
        var j :| 0 <= j && i < j < |base| && KindOf(base[j].lrd) == CommitKind && base[j].lrd.logtid == base[i].lrd.logtid;
        assert all[j] == base[j];
      }
    } else {
      assert forall j :: i < j < |all| ==> all[j] == p[j - |base|];
    }
  }

  /** In a closed log followed by pending records exactly the closed log's images are live. */
  lemma {:induction false} LiveAreImages(base: seq<Record>, p: seq<Record>, k: nat)
    requires Closed(base) && Pending(p) && k <= |base + p|
    ensures LiveWrites(base + p, k) == ImagesOf(if k <= |base| then base[..k] else base)
    decreases k
  {
    hide KindOf, Live;
    var all := base + p;
    if k > 0 {
      LiveAreImages(base, p, k - 1);
      LiveInClosed(base, p, k - 1);
      if k <= |base| {
        assert base[..k][..k - 1] == base[..k - 1];
        assert all[k - 1] == base[k - 1];
      } else {
        assert base[..|base|] == base;
      }
    } else {
      assert base[..0] == [];
    }
  }

  lemma ClosedNoMarks(base: seq<Record>, p: seq<Record>)
    requires Closed(base) && Pending(p)
    ensures NoMarks(base + p)
  {
    hide KindOf, WritesImage;
    forall i | 0 <= i < |base + p| ensures KindOf((base + p)[i].lrd) != NoRedoKind {
      if i < |base| {
        assert (base + p)[i] == base[i];
      } else {
        assert (base + p)[i] == p[i - |base|];
      }
    }
  }

  /** Redo of a closed log with pending records behind it. */
  lemma RedoOfClosed(m: Blocks, base: seq<Record>, p: seq<Record>)
    requires Closed(base) && Pending(p)
    ensures ForwardRedo(m, base + p) == ApplyWrites(m, ImagesOf(base))
    ensures Backward(base + p, FRESH) == Reverse(ImagesOf(base))
    ensures ApplyWrites(m, Once(Backward(base + p, FRESH), {})) == ApplyWrites(m, ImagesOf(base))
  {
    hide KindOf, Closed, Pending, ApplyWrites, Once, Backward, ImagesOf, LiveWrites;
    LiveAreImages(base, p, |base + p|);
    assert base[..|base|] == base;
    assert |base + p| == |base| + |p|;
    ClosedNoMarks(base, p);
    FirstMetEqualsForward(m, base + p);
    BackwardWritesLive(base + p);
  }

  /** A closed log followed by a transaction's images and its commit record is closed. */
  lemma ClosedStep(base: seq<Record>, p: seq<Record>, c: Record, tid: nat)
    requires Closed(base) && Pending(p)
    requires forall i :: 0 <= i < |p| ==> p[i].lrd.logtid == tid && WritesImage(p[i].lrd)
    requires KindOf(c.lrd) == CommitKind && c.lrd.logtid == tid
    ensures Closed(base + p + [c])
  {
    hide KindOf, WritesImage;
    var all := base + p + [c];
    var last := |base| + |p|;
    forall i | 0 <= i < |all|
      ensures KindOf(all[i].lrd) == CommitKind
           || (KindOf(all[i].lrd) == RedoKind && WritesImage(all[i].lrd) && CommittedAfter(all, i, all[i].lrd.logtid))
    {
      if i < |base| {
        assert all[i] == base[i];
        if KindOf(base[i].lrd) == RedoKind {
          var j :| 0 <= j && i < j < |base| && KindOf(base[j].lrd) == CommitKind && base[j].lrd.logtid == base[i].lrd.logtid;
          assert all[j] == base[j];
        }
      } else if i < last {
        assert all[i] == p[i - |base|];
        assert all[last] == c;
      } else {
        assert all[i] == c;
      }
    }
  }

  // ---- Transactions ----

  /** The page images of a transaction, as writes to their blocks. */
  function TxnWrites(t: Txn): (ws: seq<Write>)
    ensures |ws| == |t.pages|
  {
    seq(|t.pages|, i requires 0 <= i < |t.pages| => Write(t.pages[i].0, t.pages[i].1))
  }

  /** A transaction the volume can take: a usable id and blocks of the volume. */
  predicate Fit(m: Blocks, t: Txn) {
    t.tid % TWO32 != 0 && forall i :: 0 <= i < |t.pages| ==> t.pages[i].0 in m && t.pages[i].0 < TWO40
  }

  /** All device calls of a commit, in order. */
  function CommitPlan(s: LogState, t: Txn): seq<Event>
    requires Sized(s)
  {
    [FlushData] + LoggedPlan(s, t) + BlockWrites(t) + [FlushMetadata]
  }

  function BlockWrites(t: Txn): (es: seq<Event>)
    ensures |es| == |t.pages|
  {
    seq(|t.pages|, i requires 0 <= i < |t.pages| => BlockWrite(t.pages[i].0, t.pages[i].1))
  }

  /** Record `r` is the image of one page under transaction `tid`. */
  ghost predicate IsImage(r: Record, tid: nat, w: Write) {
    && KindOf(r.lrd) == RedoKind && WritesImage(r.lrd)
    && r.lrd.logtid == tid % TWO32
    && Write(r.lrd.pxd.address, r.data) == w
  }

  lemma RedoIsImage(tid: nat, prev: nat, block: nat, page: Page)
    requires block < TWO40
    ensures IsImage(RedoRecord(tid, prev, block, page), tid, Write(block, page))
  {
  }

  lemma CommitIsCommit(tid: nat, prev: nat)
    ensures KindOf(CommitRecord(tid, prev).lrd) == CommitKind
    ensures CommitRecord(tid, prev).lrd.logtid == tid % TWO32
  {
  }

  ghost predicate AreImages(p: seq<Record>, tid: nat, ws: seq<Write>) {
    |p| == |ws| && forall i :: 0 <= i < |p| ==> IsImage(p[i], tid, ws[i])
  }

  lemma NoImages(tid: nat)
    ensures AreImages([], tid, [])
  {
  }

  lemma AreImagesSnoc(p: seq<Record>, r: Record, tid: nat, ws: seq<Write>, w: Write)
    requires AreImages(p, tid, ws) && IsImage(r, tid, w)
    ensures AreImages(p + [r], tid, ws + [w])
  {
    hide IsImage;
  }

  /** The redo records of a transaction are its images, all under its id. */
  lemma {:induction false} RedoRecordsAre(s: LogState, m: Blocks, t: Txn, k: nat)
    requires Sized(s) && Fit(m, t) && k <= |t.pages|
    ensures AreImages(RedoRecords(s, t.tid, t.pages[..k]), t.tid, TxnWrites(t)[..k])
    decreases k
  {
    hide IsImage, AreImages, AppendAll, RedoRecord;
    if k == 0 {
      assert t.pages[..0] == [];
      NoImages(t.tid);
    } else {
      RedoRecordsAre(s, m, t, k - 1);
      assert t.pages[..k][..k - 1] == t.pages[..k - 1];
      var q, ws := RedoRecords(s, t.tid, t.pages[..k - 1]), TxnWrites(t)[..k - 1];
      var r, w := NextRedo(AppendAll(s, t.tid, t.pages[..k - 1]), t.tid, t.pages[k - 1].0, t.pages[k - 1].1), TxnWrites(t)[k - 1];
      RedoIsImage(t.tid, AppendAll(s, t.tid, t.pages[..k - 1]).prevOffset, t.pages[k - 1].0, t.pages[k - 1].1);
      assert TxnWrites(t)[..k] == ws + [w];
      AreImagesSnoc(q, r, t.tid, ws, w);
    }
  }

  lemma {:induction false} ImagesOfImages(p: seq<Record>, tid: nat, ws: seq<Write>)
    requires AreImages(p, tid, ws)
    ensures Pending(p) && ImagesOf(p) == ws
    decreases |p|
  {
    hide KindOf, WritesImage;
    if p != [] {
      var n := |p| - 1;
      assert IsImage(p[n], tid, ws[n]);
      ImagesOfImages(p[..n], tid, ws[..n]);
      assert ws == ws[..n] + [ws[n]];
    }
  }

  // ---- The state between transactions ----

  /**
   Between transactions: the device holds every record written, they belong to complete transactions,
   and the blocks already hold every image in the log.
   */
  ghost predicate Quiet(d: Disk, s: LogState, us: Units) {
    && Settled(d, s, us)
    && s.state != LOGREDONE
    && Closed(Records(us))
    && Acceptable(d.blocks, ImagesOf(Records(us)))
    && ApplyWrites(d.blocks, ImagesOf(Records(us))) == d.blocks
  }

  lemma AcceptableOnce(m: Blocks, ws: seq<Write>)
    requires Acceptable(m, ws)
    ensures Acceptable(m, Once(Reverse(ws), {})) && Acceptable(m, Reverse(ws))
  {
    ReverseAcceptable(m, ws);
    OnceAcceptable(m, Reverse(ws), {});
  }

  lemma {:induction false} ReverseAcceptable(m: Blocks, ws: seq<Write>)
    requires Acceptable(m, ws)
    ensures Acceptable(m, Reverse(ws))
  {
    if ws != [] {
      ReverseAcceptable(m, ws[1..]);
    }
  }

  lemma {:induction false} OnceAcceptable(m: Blocks, ws: seq<Write>, done: set<nat>)
    requires Acceptable(m, ws)
    ensures Acceptable(m, Once(ws, done))
  {
    if ws != [] {
      if ws[0].block in done {
        OnceAcceptable(m, ws[1..], done);
      } else {
        OnceAcceptable(m, ws[1..], done + {ws[0].block});
      }
    }
  }

  /** Recovery of a disk on which a closed log and some pending records are visible. */
  lemma RecoverClosed(d: Disk, base: seq<Record>, p: seq<Record>)
    requires d.state != LOGREDONE && VisibleUnits(d) == Some(base + p)
    requires Closed(base) && Pending(p) && Acceptable(d.blocks, ImagesOf(base))
    ensures RecoverUnits(d) == Some(d.(blocks := ApplyWrites(d.blocks, ImagesOf(base)), state := LOGREDONE))
  {
    hide Closed, Pending, Acceptable, ImagesOf, ApplyWrites, Once, Backward, VisibleUnits, Reverse;
    RedoOfClosed(d.blocks, base, p);
    AcceptableOnce(d.blocks, ImagesOf(base));
  }

  // ---- Phase 1: the machine stops while the transaction is being logged ----

  /** A part of a transaction's records that stops before its commit record. */
  lemma PartIsPending(s: LogState, m: Blocks, t: Txn, p: seq<Record>)
    requires Sized(s) && Fit(m, t) && p <= RedoRecords(s, t.tid, t.pages)
    ensures Pending(p)
  {
    hide KindOf, WritesImage, RedoRecords;
    RedoRecordsAre(s, m, t, |t.pages|);
    assert t.pages[..|t.pages|] == t.pages;
    var all := RedoRecords(s, t.tid, t.pages);
    forall i | 0 <= i < |p| ensures KindOf(p[i].lrd) == RedoKind {
      assert p[i] == all[i];
      assert IsImage(all[i], t.tid, TxnWrites(t)[i]);
    }
  }

  /** A closed log followed by a whole transaction. */
  lemma WholeIsClosed(s: LogState, m: Blocks, t: Txn, base: seq<Record>)
    requires Sized(s) && Fit(m, t) && Closed(base)
    ensures Closed(base + TxnRecords(s, t))
    ensures ImagesOf(base + TxnRecords(s, t)) == ImagesOf(base) + TxnWrites(t)
  {
    hide KindOf, WritesImage, RedoRecords, AppendAll, Closed, ImagesOf, Pending;
    RedoRecordsAre(s, m, t, |t.pages|);
    assert t.pages[..|t.pages|] == t.pages && TxnWrites(t)[..|t.pages|] == TxnWrites(t);
    var p, c := RedoRecords(s, t.tid, t.pages), NextCommit(AppendAll(s, t.tid, t.pages), t.tid);
    ImagesOfImages(p, t.tid, TxnWrites(t));
    CommitIsCommit(t.tid, AppendAll(s, t.tid, t.pages).prevOffset);
    forall i | 0 <= i < |p| ensures p[i].lrd.logtid == t.tid % TWO32 && WritesImage(p[i].lrd) {
      assert IsImage(p[i], t.tid, TxnWrites(t)[i]);
    }
    ClosedStep(base, p, c, t.tid % TWO32);
    assert base + p + [c] == base + (p + [c]);
    ImagesOfAppend(base, p + [c]);
    ImagesOfAppend(p, [c]);
    NoImage(c);
  }

  lemma NoImage(c: Record)
    requires KindOf(c.lrd) == CommitKind
    ensures ImagesOf([c]) == []
  {
    assert [c][..0] == [];
  }

  /** The records of a transaction start with a page image as soon as they are longer than a page. */
  lemma PartImageFirst(s: LogState, m: Blocks, t: Txn, u: seq<Record>)
    requires Sized(s) && Fit(m, t) && u <= TxnRecords(s, t)
    ensures ImageFirst(u)
    ensures u != [] && |u[0].data| == PAGE ==> KindOf(u[0].lrd) == RedoKind
  {
    hide KindOf, WritesImage, RedoRecords, AppendAll;
    RedoRecordsAre(s, m, t, |t.pages|);
    assert t.pages[..|t.pages|] == t.pages;
    var p, c := RedoRecords(s, t.tid, t.pages), NextCommit(AppendAll(s, t.tid, t.pages), t.tid);
    if t.pages == [] {
      assert TxnRecords(s, t) == [c];
      OneSmall(u, c);
    } else if u != [] {
      assert u[0] == p[0];
      assert IsImage(p[0], t.tid, TxnWrites(t)[0]);
    }
  }

  lemma OneSmall(u: seq<Record>, c: Record)
    requires u <= [c] && c.data == []
    ensures |EncodeAll(u)| <= PAGE
  {
    if u != [] {
      assert u == [c] && u[1..] == [];
    }
  }

  /** Recovery sees complete transactions and pending images; the blocks come back unchanged. */
  lemma OldState(d: Disk, c: Disk, base: seq<Record>, p: seq<Record>)
    requires VisibleUnits(c) == Some(base + p) && c.blocks == d.blocks && c.state != LOGREDONE
    requires Closed(base) && Pending(p) && Acceptable(d.blocks, ImagesOf(base))
    requires ApplyWrites(d.blocks, ImagesOf(base)) == d.blocks
    ensures RecoverUnits(c).Some? && RecoverUnits(c).value.blocks == d.blocks
  {
    hide Closed, Pending, Acceptable, ImagesOf, VisibleUnits, RecoverUnits, ApplyWrites;
    RecoverClosed(c, base, p);
  }

  lemma LoggingAtomic(d: Disk, s: LogState, us: Units, t: Txn, k: nat)
    requires Quiet(d, s, us) && Fit(d.blocks, t)
    requires UNIT * |AddTxn(us, s, t)| <= |d.log|
    requires k < |LoggedPlan(s, t)|
    ensures var r := RecoverUnits(ApplyAll(d, LoggedPlan(s, t)[..k]));
            r.Some? && (r.value.blocks == d.blocks || r.value.blocks == ApplyWrites(d.blocks, TxnWrites(t)))
  {
    hide Quiet, Settled, Closed, Pending, Acceptable, ImagesOf, VisibleUnits, RecoverUnits, Records, TxnRecords, RedoRecords,
      Fit, AddTxn, LoggedPlan, Cut, FlushedRecords, TxnWrites, ApplyWrites, LoggingCut;
    QuietParts(d, s, us);
    FitId(d.blocks, t);
    var vs, fl, j := LoggedCut(d, s, us, t, k);
    var c := ApplyAll(d, LoggedPlan(s, t)[..k]);
    LoggingCutParts(d, s, us, t, c, vs, fl, j);
    assert c.state == s.state by { SettledState(d, s, us); }
    if c.end > 0 {
      FlushedAtomic(d, s, us, t, c, vs, fl, j);
    } else {
      FreshAtomic(d, s, us, t, c, vs, fl, j);
    }
  }

  /** Flushed images of a transaction whose commit record is not flushed are not redone. */
  lemma FlushedAtomic(d: Disk, s: LogState, us: Units, t: Txn, c: Disk, vs: Units, fl: seq<Record>, j: nat)
    requires Quiet(d, s, us) && Fit(d.blocks, t)
    requires Cut(c, vs, fl, j) && c.end > 0 && c.blocks == d.blocks && c.state == s.state && Sized(s)
    requires Records(us) <= FlushedRecords(vs, fl) <= Records(us) + RedoRecords(s, t.tid, t.pages)
    ensures RecoverUnits(c).Some? && RecoverUnits(c).value.blocks == d.blocks
  {
    hide Quiet, Settled, Closed, Pending, Acceptable, ImagesOf, Visible, VisibleUnits, RecoverUnits, Records, RedoRecords,
      Fit, Cut, FlushedRecords, ApplyWrites;
    QuietParts(d, s, us);
    CutVisible(c, vs, fl, j);
    var base, v := Records(us), FlushedRecords(vs, fl);
    var p := v[|base|..];
    assert v == base + p;
    PartIsPending(s, d.blocks, t, p);
    OldState(d, c, base, p);
  }

  lemma LoggingCutParts(d: Disk, s: LogState, us: Units, t: Txn, c: Disk, vs: Units, fl: seq<Record>, j: nat)
    requires Sized(s) && LoggingCut(d, s, us, t, c, vs, fl, j)
    ensures Cut(c, vs, fl, j) && c.blocks == d.blocks && c.state == d.state
    ensures Records(us) <= FlushedRecords(vs, fl) <= Records(us) + RedoRecords(s, t.tid, t.pages)
    ensures Records(vs) <= Records(us) + TxnRecords(s, t)
  {
  }

  lemma QuietParts(d: Disk, s: LogState, us: Units)
    requires Quiet(d, s, us)
    ensures Sized(s) && Settled(d, s, us) && s.state != LOGREDONE
    ensures Closed(Records(us)) && Acceptable(d.blocks, ImagesOf(Records(us)))
    ensures ApplyWrites(d.blocks, ImagesOf(Records(us))) == d.blocks
  {
  }

  lemma FitId(m: Blocks, t: Txn)
    requires Fit(m, t)
    ensures t.tid % TWO32 != 0
  {
  }

  lemma SettledState(d: Disk, s: LogState, us: Units)
    requires Settled(d, s, us)
    ensures d.state == s.state
  {
  }

  /** The same before the first flush of the log has completed. */
  lemma FreshAtomic(d: Disk, s: LogState, us: Units, t: Txn, c: Disk, vs: Units, fl: seq<Record>, j: nat)
    requires Quiet(d, s, us) && Fit(d.blocks, t)
    requires Cut(c, vs, fl, j) && c.end == 0 && c.blocks == d.blocks && c.state == s.state
    requires Records(us) <= FlushedRecords(vs, fl) && Records(vs) <= Records(us) + TxnRecords(s, t)
    ensures var r := RecoverUnits(c);
            r.Some? && (r.value.blocks == d.blocks || r.value.blocks == ApplyWrites(d.blocks, TxnWrites(t)))
  {
    hide Quiet, Settled, Closed, Acceptable, ImagesOf, VisibleUnits, RecoverUnits, TxnRecords, ApplyWrites, Cut, TxnWrites,
      Fit, ImageFirst, EncodeAll, Records, KindOf, FlushedRecords;
    QuietParts(d, s, us);
    FreshParts(us, vs, fl, c, j);
    var u := Last(vs);
    assert u <= TxnRecords(s, t) by { assert [] + TxnRecords(s, t) == TxnRecords(s, t); }
    PartImageFirst(s, d.blocks, t, u);
    var recs := CutFresh(c, vs, fl, j);
    if recs == TxnRecords(s, t) {
      WholeVisible(d, s, t, c);
    } else {
      assert Pending(recs) by {
        if recs == u {
          ShortPart(s, t, u);
          PartIsPending(s, d.blocks, t, u);
        }
      }
      assert [] + recs == recs;
      NothingToDo(d.blocks);
      OldState(d, c, [], recs);
    }
  }

  lemma FreshParts(us: Units, vs: Units, fl: seq<Record>, c: Disk, j: nat)
    requires Cut(c, vs, fl, j) && c.end == 0 && Records(us) <= FlushedRecords(vs, fl)
    ensures |vs| == 1 && fl == [] && Records(us) == [] && Records(vs) == Last(vs)
    ensures Closed([]) && ImagesOf([]) == []
  {
    hide EncodeAll, Mixed, HoldsBytes;
    FreshIsFirst(vs, fl);
    assert Before(vs) == [];
    assert Records(Before(vs)) == [];
    assert Records(vs) == [] + Last(vs);
  }

  lemma NothingToDo(m: Blocks)
    ensures Acceptable(m, []) && ApplyWrites(m, []) == m
  {
  }

  lemma ShortPart(s: LogState, t: Txn, u: seq<Record>)
    requires Sized(s) && u <= TxnRecords(s, t) && u != TxnRecords(s, t)
    ensures u <= RedoRecords(s, t.tid, t.pages)
  {
    hide RedoRecords, AppendAll;
    var all := TxnRecords(s, t);
    assert u == all[..|u|] && all == all[..|all|];
    assert |u| < |all|;
  }

  lemma EmptyLog()
    ensures Closed([]) && Pending([]) && ImagesOf([]) == []
  {
  }

  lemma FitAcceptable(m: Blocks, t: Txn)
    requires Fit(m, t)
    ensures Acceptable(m, TxnWrites(t))
  {
  }

  lemma WholeVisible(d: Disk, s: LogState, t: Txn, c: Disk)
    requires Sized(s) && Fit(d.blocks, t) && s.state != LOGREDONE
    requires VisibleUnits(c) == Some(TxnRecords(s, t)) && c.blocks == d.blocks && c.state == s.state
    ensures RecoverUnits(c).Some? && RecoverUnits(c).value.blocks == ApplyWrites(d.blocks, TxnWrites(t))
  {
    hide VisibleUnits, RecoverUnits, TxnRecords, ApplyWrites, Closed, Pending, ImagesOf, TxnWrites, Acceptable, Fit;
    EmptyLog();
    var recs := TxnRecords(s, t);
    WholeIsClosed(s, d.blocks, t, []);
    assert [] + recs == recs && recs + [] == recs && [] + TxnWrites(t) == TxnWrites(t);
    FitAcceptable(d.blocks, t);
    RecoverClosed(c, recs, []);
  }

  // ---- Phase 2: the machine stops while blocks are written in place ----

  lemma {:induction false} BlockWritesApply(d: Disk, t: Txn, i: nat)
    requires Fit(d.blocks, t) && i <= |t.pages|
    ensures ApplyAll(d, BlockWrites(t)[..i]) == d.(blocks := ApplyWrites(d.blocks, TxnWrites(t)[..i]))
    decreases i
  {
    if i > 0 {
      BlockWritesApply(d, t, i - 1);
      assert BlockWrites(t)[..i][..i - 1] == BlockWrites(t)[..i - 1];
      assert TxnWrites(t)[..i][..i - 1] == TxnWrites(t)[..i - 1];
    }
  }

  lemma {:induction false} ApplyWritesConcat(m: Blocks, a: seq<Write>, b: seq<Write>)
    ensures ApplyWrites(m, a + b) == ApplyWrites(ApplyWrites(m, a), b)
    decreases |b|
  {
    if b == [] {
      assert a + b == a;
    } else {
      assert (a + b)[..|a + b| - 1] == a + b[..|b| - 1];
      ApplyWritesConcat(m, a, b[..|b| - 1]);
    }
  }

  lemma {:induction false} NewestOfConcat(a: seq<Write>, b: seq<Write>, x: nat)
    ensures Newest(a + b, x) == if Newest(b, x).Some? then Newest(b, x) else Newest(a, x)
    decreases |b|
  {
    if b == [] {
      assert a + b == a;
    } else {
      assert (a + b)[..|a + b| - 1] == a + b[..|b| - 1];
      NewestOfConcat(a, b[..|b| - 1], x);
    }
  }

  /** Redoing the whole log over partly written blocks completes the transaction. */
  lemma RedoCompletes(m: Blocks, past: seq<Write>, ws: seq<Write>, i: nat)
    requires ApplyWrites(m, past) == m && i <= |ws|
    ensures ApplyWrites(ApplyWrites(m, ws[..i]), past + ws) == ApplyWrites(m, ws)
  {
    hide ApplyWrites, Newest;
    var m' := ApplyWrites(m, ws[..i]);
    forall b: nat | Newest(past + ws, b).None? ensures (b in m' <==> b in m) && (b in m' ==> m'[b] == m[b]) {
      NewestOfConcat(past, ws, b);
      NewestOfPart(ws, i, b);
      ApplyWritesAt(m, ws[..i], b);
    }
    SameImagesSameEffect(m', m, past + ws, past + ws);
    ApplyWritesConcat(m, past, ws);
  }

  lemma {:induction false} ApplyWritesKeys(m: Blocks, ws: seq<Write>)
    requires Acceptable(m, ws)
    ensures ApplyWrites(m, ws).Keys == m.Keys
    decreases |ws|
  {
    if ws != [] {
      ApplyWritesKeys(m, ws[..|ws| - 1]);
    }
  }

  /** Acceptability depends on the volume's blocks only. */
  lemma AcceptableBoth(m: Blocks, m': Blocks, a: seq<Write>, b: seq<Write>)
    requires m.Keys == m'.Keys && Acceptable(m, a) && Acceptable(m, b)
    ensures Acceptable(m', a + b)
  {
    var ws := a + b;
    forall i | 0 <= i < |ws| ensures ws[i].block in m' && |ws[i].data| == PAGE {
      if i < |a| {
        assert ws[i] == a[i];
      } else {
        assert ws[i] == b[i - |a|];
      }
      assert ws[i].block in m.Keys;
    }
  }

  lemma AcceptablePart(m: Blocks, ws: seq<Write>, i: nat)
    requires Acceptable(m, ws) && i <= |ws|
    ensures Acceptable(m, ws[..i])
  {
  }

  /** The logged transaction, with the first `i` of its blocks written in place. */
  ghost predicate InPlace(c: Disk, d: Disk, s: LogState, us: Units, t: Txn, i: nat)
    requires Sized(s) && i <= |t.pages|
  {
    && Settled(c, Logged(s, t), AddTxn(us, s, t))
    && c.blocks == ApplyWrites(d.blocks, TxnWrites(t)[..i])
  }

  /** From then on recovery completes the transaction. */
  lemma InPlaceRecovers(c: Disk, d: Disk, s: LogState, us: Units, t: Txn, i: nat)
    requires Quiet(d, s, us) && Fit(d.blocks, t) && i <= |t.pages| && InPlace(c, d, s, us, t, i)
    ensures Acceptable(c.blocks, ImagesOf(Records(AddTxn(us, s, t))))
    ensures Closed(Records(AddTxn(us, s, t)))
    ensures ApplyWrites(c.blocks, ImagesOf(Records(AddTxn(us, s, t)))) == ApplyWrites(d.blocks, TxnWrites(t))
    ensures RecoverUnits(c) == Some(c.(blocks := ApplyWrites(d.blocks, TxnWrites(t)), state := LOGREDONE))
  {
    hide Quiet, Settled, Closed, Pending, Acceptable, ImagesOf, VisibleUnits, RecoverUnits, ApplyWrites, Records,
      TxnRecords, TxnWrites, Fit, AddTxn, Logged;
    QuietParts(d, s, us);
    var base, ws := Records(us), TxnWrites(t);
    AddTxnRecords(us, s, t);
    WholeIsClosed(s, d.blocks, t, base);
    RedoCompletes(d.blocks, ImagesOf(base), ws, i);
    FitAcceptable(d.blocks, t);
    AcceptablePart(d.blocks, ws, i);
    ApplyWritesKeys(d.blocks, ws[..i]);
    AcceptableBoth(d.blocks, c.blocks, ImagesOf(base), ws);
    AddTxnEnds(us, s, t);
    SettledVisible(c, Logged(s, t), AddTxn(us, s, t));
    assert Logged(s, t).state == s.state by { LoggedState(s, t); }
    SettledState(c, Logged(s, t), AddTxn(us, s, t));
    var all := Records(AddTxn(us, s, t));
    assert all + [] == all;
    EmptyLog();
    RecoverClosed(c, all, []);
  }

  lemma AddTxnEnds(us: Units, s: LogState, t: Txn)
    requires Sized(s)
    ensures Last(AddTxn(us, s, t)) != []
  {
    hide AddRecord, AddPages, AppendAll;
    LastNotEmpty(AddPages(us, s, t.tid, t.pages), NextCommit(AppendAll(s, t.tid, t.pages), t.tid));
  }

  lemma LoggedState(s: LogState, t: Txn)
    requires Sized(s)
    ensures Logged(s, t).state == s.state
  {
  }

  /** In a settled state with a set end pointer every record is visible. */
  lemma SettledVisible(d: Disk, s: LogState, us: Units)
    requires Settled(d, s, us) && Last(us) != []
    ensures VisibleUnits(d) == Some(Records(us))
  {
    hide EncodeAll, UnitBytes, Mixed, VisibleUnits;
    assert UnitOk(us[|us| - 1]);
    HoldsAsBytes(d.log, us, Last(us));
    assert Mixed(Last(us), Last(us), 0) == UnitBytes(Last(us)) by { MixedSame(Last(us)); }
    assert Cut(d, us, Last(us), 0);
    FlushedArePrefix(us, Last(us));
    CutVisible(d, us, Last(us), 0);
  }

  lemma MixedSame(u: seq<Record>)
    requires UnitOk(u)
    ensures Mixed(u, u, 0) == UnitBytes(u)
  {
    hide UnitBytes;
  }

  /** The commit's device calls up to `i` block writes. */
  lemma ReachInPlace(d: Disk, s: LogState, us: Units, t: Txn, i: nat)
    requires Quiet(d, s, us) && Fit(d.blocks, t) && i <= |t.pages|
    requires UNIT * |AddTxn(us, s, t)| <= |d.log|
    ensures InPlace(ApplyAll(d, [FlushData] + LoggedPlan(s, t) + BlockWrites(t)[..i]), d, s, us, t, i)
  {
    hide Quiet, Fit, Settled, AddTxn, Logged, LoggedPlan, BlockWrites, TxnWrites, ApplyWrites;
    QuietParts(d, s, us);
    FitId(d.blocks, t);
    ApplyAllOne(d, FlushData);
    ApplyAllConcat(d, [FlushData], LoggedPlan(s, t));
    ApplyAllConcat(d, [FlushData] + LoggedPlan(s, t), BlockWrites(t)[..i]);
    LoggedSettles(d, s, us, t);
    var d1 := ApplyAll(d, LoggedPlan(s, t));
    BlockWritesApply(d1, t, i);
    SettledBlocks(d1, Logged(s, t), AddTxn(us, s, t), ApplyWrites(d1.blocks, TxnWrites(t)[..i]));
  }

  lemma SettledBlocks(d: Disk, s: LogState, us: Units, m: Blocks)
    requires Settled(d, s, us)
    ensures Settled(d.(blocks := m), s, us)
  {
  }

  /**
   Crash atomicity of one commit: wherever its device calls stop, recovery gives the blocks of before or
   the blocks of after; and those of after as soon as the journal flush was complete.
   */
  lemma CommitAtomic(d: Disk, s: LogState, us: Units, t: Txn, k: nat)
    requires Quiet(d, s, us) && Fit(d.blocks, t)
    requires UNIT * |AddTxn(us, s, t)| <= |d.log|
    requires k <= |CommitPlan(s, t)|
    ensures var r := RecoverUnits(ApplyAll(d, CommitPlan(s, t)[..k]));
            && r.Some?
            && (r.value.blocks == d.blocks || r.value.blocks == ApplyWrites(d.blocks, TxnWrites(t)))
            && (k > |LoggedPlan(s, t)| ==> r.value.blocks == ApplyWrites(d.blocks, TxnWrites(t)))
  {
    hide Quiet, Fit, AddTxn, LoggedPlan, BlockWrites, CommitPlan, TxnWrites, ApplyWrites, RecoverUnits, InPlace;
    QuietParts(d, s, us);
    var l, b := LoggedPlan(s, t), BlockWrites(t);
    if k <= |l| {
      var k' := if k == 0 then 0 else k - 1;
      LoggingPrefix(d, s, t, k);
      LoggedPlanSome(s, t);
      LoggingAtomic(d, s, us, t, k');
    } else {
      var i := if k - 1 - |l| <= |b| then k - 1 - |l| else |b|;
      InPlacePrefix(d, s, t, k, i);
      ReachInPlace(d, s, us, t, i);
      InPlaceRecovers(ApplyAll(d, [FlushData] + l + b[..i]), d, s, us, t, i);
    }
  }

  lemma LoggingPrefix(d: Disk, s: LogState, t: Txn, k: nat)
    requires Sized(s) && k <= |LoggedPlan(s, t)|
    ensures ApplyAll(d, CommitPlan(s, t)[..k]) == ApplyAll(d, LoggedPlan(s, t)[..if k == 0 then 0 else k - 1])
  {
    hide LoggedPlan, BlockWrites;
    var l := LoggedPlan(s, t);
    if k == 0 {
      assert CommitPlan(s, t)[..k] == l[..0];
    } else {
      assert CommitPlan(s, t)[..k] == [FlushData] + l[..k - 1];
      ApplyAllOne(d, FlushData);
      ApplyAllConcat(d, [FlushData], l[..k - 1]);
    }
  }

  lemma InPlacePrefix(d: Disk, s: LogState, t: Txn, k: nat, i: nat)
    requires Sized(s) && |LoggedPlan(s, t)| < k <= |CommitPlan(s, t)|
    requires i == if k - 1 - |LoggedPlan(s, t)| <= |t.pages| then k - 1 - |LoggedPlan(s, t)| else |t.pages|
    ensures ApplyAll(d, CommitPlan(s, t)[..k]) == ApplyAll(d, [FlushData] + LoggedPlan(s, t) + BlockWrites(t)[..i])
  {
    hide LoggedPlan, BlockWrites;
    var l, b := LoggedPlan(s, t), BlockWrites(t);
    var plan := [FlushData] + l + b[..i];
    if k - 1 - |l| <= |b| {
      assert CommitPlan(s, t)[..k] == plan;
    } else {
      assert b[..i] == b;
      assert CommitPlan(s, t)[..k] == plan + [FlushMetadata];
      ApplyAllConcat(d, plan, [FlushMetadata]);
      ApplyAllOne(ApplyAll(d, plan), FlushMetadata);
    }
  }

  lemma LoggedPlanSome(s: LogState, t: Txn)
    requires Sized(s)
    ensures |LoggedPlan(s, t)| > 0
  {
    hide AppendAll, AppendAllPlan, PageWrites, Put, Room, RoomPlan;
  }

  /** A complete commit leads from one quiet state to the next, with the transaction's images in place. */
  lemma CommitKeepsQuiet(d: Disk, s: LogState, us: Units, t: Txn)
    requires Quiet(d, s, us) && Fit(d.blocks, t)
    requires UNIT * |AddTxn(us, s, t)| <= |d.log|
    ensures var d' := ApplyAll(d, CommitPlan(s, t));
            && Quiet(d', Logged(s, t), AddTxn(us, s, t))
            && d'.blocks == ApplyWrites(d.blocks, TxnWrites(t))
  {
    hide Fit, AddTxn, LoggedPlan, BlockWrites, TxnWrites, ApplyWrites, Settled, Closed, Acceptable, ImagesOf, Records, Logged;
    QuietParts(d, s, us);
    var l, b := LoggedPlan(s, t), BlockWrites(t);
    var plan := [FlushData] + l + b;
    assert b[..|b|] == b && TxnWrites(t)[..|b|] == TxnWrites(t);
    ReachInPlace(d, s, us, t, |b|);
    var d' := ApplyAll(d, plan);
    InPlaceRecovers(d', d, s, us, t, |b|);
    ApplyAllConcat(d, plan, [FlushMetadata]);
    ApplyAllOne(d', FlushMetadata);
    LoggedState(s, t);
  }

  // ---- Whole runs ----

  function LoggedAll(s: LogState, ts: seq<Txn>): (r: LogState)
    requires Sized(s)
    ensures Sized(r)
    decreases |ts|
  {
    if ts == [] then s else Logged(LoggedAll(s, ts[..|ts| - 1]), ts[|ts| - 1])
  }

  /** All device calls of a run of commits. */
  function RunPlan(s: LogState, ts: seq<Txn>): seq<Event>
    requires Sized(s)
    decreases |ts|
  {
    if ts == [] then [] else
    RunPlan(s, ts[..|ts| - 1]) + CommitPlan(LoggedAll(s, ts[..|ts| - 1]), ts[|ts| - 1])
  }

  function AddTxns(us: Units, s: LogState, ts: seq<Txn>): Units
    requires Sized(s)
    decreases |ts|
  {
    if ts == [] then us else
    AddTxn(AddTxns(us, s, ts[..|ts| - 1]), LoggedAll(s, ts[..|ts| - 1]), ts[|ts| - 1])
  }

  /** The blocks after a run of transactions, by applying their images in order. */
  function After(m: Blocks, ts: seq<Txn>): Blocks
    decreases |ts|
  {
    if ts == [] then m else ApplyWrites(After(m, ts[..|ts| - 1]), TxnWrites(ts[|ts| - 1]))
  }

  predicate AllFit(m: Blocks, ts: seq<Txn>) {
    forall i :: 0 <= i < |ts| ==> Fit(m, ts[i])
  }

  lemma AddTxnMore(us: Units, s: LogState, t: Txn)
    requires Sized(s)
    ensures |us| <= |AddTxn(us, s, t)|
  {
    hide AddPages, AddRecord, AddTxn;
    AddTxnGrows(us, s, t);
    AddPagesGrows(us, s, t.tid, t.pages, 0);
    assert AddPages(us, s, t.tid, t.pages[..0]) == us by { NoPages(us, s, t.tid, t.pages); }
  }

  lemma NoPages(us: Units, s: LogState, tid: nat, pages: seq<(nat, Page)>)
    requires Sized(s)
    ensures AddPages(us, s, tid, pages[..0]) == us
  {
    assert pages[..0] == [];
  }

  lemma FitOnSameVolume(m: Blocks, m': Blocks, t: Txn)
    requires Fit(m, t) && m.Keys == m'.Keys
    ensures Fit(m', t)
  {
    forall i | 0 <= i < |t.pages| ensures t.pages[i].0 in m' {
      assert t.pages[i].0 in m.Keys;
    }
  }

  /** A run of commits that fits the log area leads from a quiet state to a quiet state. */
  lemma {:induction false} RunKeepsQuiet(d: Disk, s: LogState, us: Units, ts: seq<Txn>)
    requires Quiet(d, s, us) && AllFit(d.blocks, ts)
    requires UNIT * |AddTxns(us, s, ts)| <= |d.log|
    ensures var d' := ApplyAll(d, RunPlan(s, ts));
            && Quiet(d', LoggedAll(s, ts), AddTxns(us, s, ts))
            && d'.blocks == After(d.blocks, ts) && d'.blocks.Keys == d.blocks.Keys && |d'.log| == |d.log|
    decreases |ts|
  {
    hide Quiet, Fit, AddTxn, CommitPlan, TxnWrites, ApplyWrites, Logged;
    QuietParts(d, s, us);
    if ts != [] {
      var init, t := ts[..|ts| - 1], ts[|ts| - 1];
      var s1, u1 := LoggedAll(s, init), AddTxns(us, s, init);
      AddTxnMore(u1, s1, t);
      RunKeepsQuiet(d, s, us, init);
      var d1 := ApplyAll(d, RunPlan(s, init));
      FitOnSameVolume(d.blocks, d1.blocks, t);
      CommitKeepsQuiet(d1, s1, u1, t);
      ApplyAllConcat(d, RunPlan(s, init), CommitPlan(s1, t));
    }
  }

  lemma {:induction false} RunPlanGrows(s: LogState, ts: seq<Txn>, c: nat)
    requires Sized(s) && c <= |ts|
    ensures |RunPlan(s, ts[..c])| <= |RunPlan(s, ts)|
    ensures c < |ts| ==> |RunPlan(s, ts[..c])| < |RunPlan(s, ts)|
    decreases |ts|
  {
    hide LoggedPlan, BlockWrites, LoggedAll;
    if c == |ts| {
      assert ts[..c] == ts;
    } else {
      var init := ts[..|ts| - 1];
      RunPlanGrows(s, init, c);
      assert init[..c] == ts[..c];
    }
  }

  /**
   Crash atomicity of whole runs: wherever the device calls of a run of commits stop, recovery gives
   exactly the blocks after some first `i` of the transactions, where `i` counts every transaction whose
   commit had returned and none whose commit had not begun.
   */
  lemma {:induction false} RunAtomic(d: Disk, s: LogState, us: Units, ts: seq<Txn>, k: nat) returns (i: nat)
    requires Quiet(d, s, us) && AllFit(d.blocks, ts)
    requires UNIT * |AddTxns(us, s, ts)| <= |d.log|
    requires k <= |RunPlan(s, ts)|
    ensures i <= |ts|
    ensures var r := RecoverUnits(ApplyAll(d, RunPlan(s, ts)[..k]));
            r.Some? && r.value.blocks == After(d.blocks, ts[..i])
    ensures forall c :: 0 <= c <= |ts| && |RunPlan(s, ts[..c])| <= k ==> c <= i
    ensures forall c :: 0 <= c <= |ts| && k <= |RunPlan(s, ts[..c])| ==> i <= c
    decreases |ts|
  {
    hide Quiet, Fit, AddTxns, RunPlan, After, RecoverUnits, AllFit;
    QuietParts(d, s, us);
    EmptyRun(d, s, us);
    assert ts[..|ts|] == ts;
    if ts == [] {
      i := 0;
      QuietRecovers(d, s, us);
      assert RunPlan(s, ts)[..k] == [];
    } else {
      var n := |ts| - 1;
      var init := ts[..n];
      RunPlanPoints(s, ts);
      RunFits(d, s, us, ts);
      if k <= |RunPlan(s, init)| {
        i := RunAtomic(d, s, us, init, k);
        assert init[..i] == ts[..i];
        RunPlanFront(s, ts, k);
        forall c | 0 <= c <= n ensures init[..c] == ts[..c] {
        }
      } else {
        LastCommitAtomic(d, s, us, ts, k);
        var r := RecoverUnits(ApplyAll(d, RunPlan(s, ts)[..k]));
        i := if r.value.blocks == After(d.blocks, ts) then n + 1 else n;
      }
    }
  }

  lemma EmptyRun(d: Disk, s: LogState, us: Units)
    requires Sized(s)
    ensures RunPlan(s, []) == [] && After(d.blocks, []) == d.blocks
  {
  }

  /** Points of a run lie in order. */
  lemma RunPlanPoints(s: LogState, ts: seq<Txn>)
    requires Sized(s) && ts != []
    ensures forall c :: 0 <= c <= |ts| - 1 ==> |RunPlan(s, ts[..c])| <= |RunPlan(s, ts[..|ts| - 1])|
    ensures |RunPlan(s, ts[..|ts| - 1])| < |RunPlan(s, ts)|
  {
    hide RunPlan;
    var n := |ts| - 1;
    forall c | 0 <= c <= n ensures |RunPlan(s, ts[..c])| <= |RunPlan(s, ts[..n])| {
      RunPlanGrows(s, ts[..n], c);
      assert ts[..n][..c] == ts[..c];
    }
    RunPlanGrows(s, ts, n);
  }

  lemma RunPlanFront(s: LogState, ts: seq<Txn>, k: nat)
    requires Sized(s) && ts != [] && k <= |RunPlan(s, ts[..|ts| - 1])| <= |RunPlan(s, ts)|
    ensures RunPlan(s, ts)[..k] == RunPlan(s, ts[..|ts| - 1])[..k]
  {
    hide CommitPlan, LoggedAll;
  }

  lemma RunFits(d: Disk, s: LogState, us: Units, ts: seq<Txn>)
    requires Sized(s) && ts != [] && AllFit(d.blocks, ts)
    requires UNIT * |AddTxns(us, s, ts)| <= |d.log|
    ensures AllFit(d.blocks, ts[..|ts| - 1])
    ensures UNIT * |AddTxns(us, s, ts[..|ts| - 1])| <= |d.log|
  {
    hide AddTxn, Fit;
    var init := ts[..|ts| - 1];
    AddTxnMore(AddTxns(us, s, init), LoggedAll(s, init), ts[|ts| - 1]);
  }

  lemma RunUnfold(d: Disk, s: LogState, us: Units, ts: seq<Txn>)
    requires Sized(s) && ts != []
    ensures var init, t := ts[..|ts| - 1], ts[|ts| - 1];
            && RunPlan(s, ts) == RunPlan(s, init) + CommitPlan(LoggedAll(s, init), t)
            && AddTxns(us, s, ts) == AddTxn(AddTxns(us, s, init), LoggedAll(s, init), t)
            && After(d.blocks, ts) == ApplyWrites(After(d.blocks, init), TxnWrites(t))
  {
  }

  /** The machine stops during the last commit of a run. */
  lemma LastCommitAtomic(d: Disk, s: LogState, us: Units, ts: seq<Txn>, k: nat)
    requires Quiet(d, s, us) && AllFit(d.blocks, ts) && Sized(s) && ts != []
    requires UNIT * |AddTxns(us, s, ts)| <= |d.log|
    requires |RunPlan(s, ts[..|ts| - 1])| <= k <= |RunPlan(s, ts)|
    ensures var r := RecoverUnits(ApplyAll(d, RunPlan(s, ts)[..k]));
            && r.Some?
            && (r.value.blocks == After(d.blocks, ts[..|ts| - 1]) || r.value.blocks == After(d.blocks, ts))
            && (k == |RunPlan(s, ts)| ==> r.value.blocks == After(d.blocks, ts))
  {
    hide Quiet, Fit, AddTxn, CommitPlan, TxnWrites, ApplyWrites, RecoverUnits, LoggedAll, RunPlan, AddTxns, After;
    RunUnfold(d, s, us, ts);
    var init, t := ts[..|ts| - 1], ts[|ts| - 1];
    var s1, u1, plan := LoggedAll(s, init), AddTxns(us, s, init), RunPlan(s, init);
    RunFits(d, s, us, ts);
    RunKeepsQuiet(d, s, us, init);
    var d1 := ApplyAll(d, plan);
    FitOnSameVolume(d.blocks, d1.blocks, t);
    var rest := CommitPlan(s1, t)[..k - |plan|];
    CommitAtomic(d1, s1, u1, t, k - |plan|);
    assert RunPlan(s, ts)[..k] == plan + rest;
    ApplyAllConcat(d, plan, rest);
    CommitPlanLonger(s1, t);
  }

  lemma CommitPlanLonger(s: LogState, t: Txn)
    requires Sized(s)
    ensures |CommitPlan(s, t)| > |LoggedPlan(s, t)|
  {
    hide LoggedPlan;
  }

  /** A quiet disk is its own recovery. */
  lemma QuietRecovers(d: Disk, s: LogState, us: Units)
    requires Quiet(d, s, us)
    ensures RecoverUnits(d).Some? && RecoverUnits(d).value.blocks == d.blocks
  {
    hide Quiet, Settled, Closed, Pending, Acceptable, ImagesOf, VisibleUnits, RecoverUnits, Records;
    QuietParts(d, s, us);
    SettledState(d, s, us);
    if Last(us) != [] {
      SettledVisible(d, s, us);
    } else {
      EmptyVisible(d, s, us);
    }
    EmptyLog();
    assert Records(us) + [] == Records(us);
    RecoverClosed(d, Records(us), []);
  }

  lemma EmptyVisible(d: Disk, s: LogState, us: Units)
    requires Settled(d, s, us) && Last(us) == []
    ensures VisibleUnits(d) == Some(Records(us))
  {
    hide EncodeAll, UnitBytes, Mixed, VisibleUnits, ImageFirst;
    assert UnitOk(us[|us| - 1]);
    HoldsAsBytes(d.log, us, Last(us));
    assert Mixed(Last(us), Last(us), 0) == UnitBytes(Last(us)) by { MixedSame(Last(us)); }
    assert Cut(d, us, Last(us), 0);
    FlushedArePrefix(us, Last(us));
    if d.end > 0 {
      CutVisible(d, us, Last(us), 0);
    } else {
      EmptyImageFirst();
      var recs := CutFresh(d, us, Last(us), 0);
      assert Before(us) == [] && Records(us) == [];
    }
  }

  lemma EmptyImageFirst()
    ensures ImageFirst([])
  {
  }
}

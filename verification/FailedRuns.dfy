/**
 Runs in which commits fail and succeed in any order, each stopped after any of its device calls. Wherever
 such a run stands, recovery redoes the transactions whose commit record was flushed, in log order.
 */
module FailedRuns {
  import opened Bytes
  import opened LogRecord
  import opened Device
  import opened LogWriter
  import opened LogLayout
  import opened LogScan
  import opened LogReadBack
  import opened LogCrash
  import opened Recovery
  import opened CrashSafety
  import opened CommitShape
  import opened FirstUnit
  import opened LiveRecords
  import opened LateCommit

  // ---- One attempt ----

  /** A commit that made `calls` calls of its plan; `end` is the end pointer in memory after a failure. */
  datatype Attempt = Attempt(txn: Txn, calls: nat, end: nat)

  function AttemptCalls(s: LogState, x: Attempt): seq<Event>
    requires Sized(s)
  {
    CommitPlan(s, x.txn)[..Min(x.calls, |CommitPlan(s, x.txn)|)]
  }

  function AttemptState(s: LogState, x: Attempt): (r: LogState)
    requires Sized(s)
    ensures Sized(r) && r.state == s.state
  {
    StateAfter(s, x.txn, x.calls, x.end)
  }

  function AttemptUnits(us: Units, s: LogState, x: Attempt): Units
    requires Sized(s)
  {
    if x.calls == 0 then us
    else if x.calls <= |LoggedPlan(s, x.txn)| then UnitsAfterFailure(us, s, x.txn, x.calls - 1)
    else AddTxn(us, s, x.txn)
  }

  /** The journal flush of the attempt was complete. */
  predicate WasLogged(s: LogState, x: Attempt)
    requires Sized(s)
  {
    x.calls > |LoggedPlan(s, x.txn)|
  }

  /** Its commit record was put into the buffer. */
  predicate CommitWritten(s: LogState, x: Attempt)
    requires Sized(s)
  {
    x.calls > CommitPut(s, x.txn)
  }

  /** The records it put into the buffer. */
  function PutRecords(s: LogState, x: Attempt): seq<Record>
    requires Sized(s)
  {
    var t := x.txn;
    if CommitWritten(s, x) then TxnRecords(s, t)
    else if x.calls == 0 then []
    else RedoRecords(s, t.tid, t.pages[..PagesPut(s, t.tid, t.pages, x.calls - 1)])
  }

  lemma CommitPutEarly(s: LogState, t: Txn)
    requires Sized(s)
    ensures CommitPut(s, t) <= |LoggedPlan(s, t)|
  {
    hide AppendAll, AppendAllPlan, RoomPlan, Room, Put, FlushPlan;
  }

  lemma AttemptRecords(us: Units, s: LogState, x: Attempt)
    requires Sized(s)
    ensures Records(AttemptUnits(us, s, x)) == Records(us) + PutRecords(s, x)
  {
    hide Records, AddPages, TxnRecords, RedoRecords, CommitPut, PagesPut, AddTxn, LoggedPlan;
    CommitPutEarly(s, x.txn);
    AddTxnRecords(us, s, x.txn);
    if 0 < x.calls <= CommitPut(s, x.txn) {
      AddPagesRecords(us, s, x.txn.tid, x.txn.pages[..PagesPut(s, x.txn.tid, x.txn.pages, x.calls - 1)]);
    }
    assert Records(us) + [] == Records(us);
  }

  /** What an attempt makes of the device and of the manager. */
  lemma AttemptLoose(d: Disk, s: LogState, us: Units, fl: seq<Record>, a: seq<Record>, b: seq<Record>, x: Attempt)
    returns (fl2: seq<Record>, a2: seq<Record>, b2: seq<Record>)
    requires Loose(d, s, us, fl, a, b) && Sized(s) && Fit(d.blocks, x.txn) && UNIT * |AddTxn(us, s, x.txn)| <= |d.log|
    requires x.calls <= |CommitPlan(s, x.txn)|
    ensures var c, vs := ApplyAll(d, AttemptCalls(s, x)), AttemptUnits(us, s, x);
            && Loose(c, AttemptState(s, x), vs, fl2, a2, b2)
            && FlushedRecords(us, fl) <= FlushedRecords(vs, fl2)
            && (WasLogged(s, x) ==> FlushedRecords(vs, fl2) == Records(vs))
  {
    hide Loose, LoggedPlan, CommitPlan, AddTxn, AfterFailure, Logged, Fit, FlushedRecords, UnitsAfterFailure, Records, Settled, TxnWrites, ApplyWrites;
    var t, k := x.txn, x.calls;
    FitId(d.blocks, t);
    FlushedSelf(us, fl);
    if k == 0 {
      fl2, a2, b2 := fl, a, b;
      assert CommitPlan(s, t)[..0] == [];
    } else if k <= |LoggedPlan(s, t)| {
      LoggingPrefix(d, s, t, k);
      fl2, a2, b2 := LoggedLooseCut(d, s, us, fl, a, b, t, k - 1, x.end);
    } else {
      NextCommitRuns(d, s, us, fl, a, b, t, k);
      var vs := AddTxn(us, s, t);
      fl2, a2, b2 := Last(vs), Last(vs), Last(vs);
      SettledLoose(ApplyAll(d, CommitPlan(s, t)[..k]), Logged(s, t), vs);
      LooseFlushed(d, s, us, fl, a, b);
      AddTxnRecords(us, s, t);
      FlushedArePrefix(vs, Last(vs));
    }
  }

  lemma FlushedSelf(us: Units, fl: seq<Record>)
    ensures FlushedRecords(us, fl) <= FlushedRecords(us, fl)
  {
  }

  lemma LooseFlushed(d: Disk, s: LogState, us: Units, fl: seq<Record>, a: seq<Record>, b: seq<Record>)
    requires Loose(d, s, us, fl, a, b)
    ensures FlushedRecords(us, fl) <= Records(us)
  {
    hide Loose, Writer, UnitOk, Records;
    LooseParts(d, s, us, fl, a, b);
    FlushedArePrefix(us, fl);
  }

  // ---- Runs of attempts ----

  function RunState(s: LogState, xs: seq<Attempt>): (r: LogState)
    requires Sized(s)
    ensures Sized(r) && r.state == s.state
    decreases |xs|
  {
    if xs == [] then s else AttemptState(RunState(s, xs[..|xs| - 1]), xs[|xs| - 1])
  }

  function RunUnits(us: Units, s: LogState, xs: seq<Attempt>): Units
    requires Sized(s)
    decreases |xs|
  {
    if xs == [] then us else AttemptUnits(RunUnits(us, s, xs[..|xs| - 1]), RunState(s, xs[..|xs| - 1]), xs[|xs| - 1])
  }

  function RunDisk(d: Disk, s: LogState, xs: seq<Attempt>): (r: Disk)
    requires Sized(s)
    ensures r.blocks.Keys == d.blocks.Keys && |r.log| == |d.log|
    decreases |xs|
  {
    if xs == [] then d else ApplyAll(RunDisk(d, s, xs[..|xs| - 1]), AttemptCalls(RunState(s, xs[..|xs| - 1]), xs[|xs| - 1]))
  }

  /** The records the run put into the buffer. */
  function RunRecords(s: LogState, xs: seq<Attempt>): seq<Record>
    requires Sized(s)
    decreases |xs|
  {
    if xs == [] then [] else RunRecords(s, xs[..|xs| - 1]) + PutRecords(RunState(s, xs[..|xs| - 1]), xs[|xs| - 1])
  }

  /** The images of the attempts whose commit record was put, in order. */
  function RunImages(s: LogState, xs: seq<Attempt>): seq<Write>
    requires Sized(s)
    decreases |xs|
  {
    if xs == [] then [] else
    var init, x := xs[..|xs| - 1], xs[|xs| - 1];
    RunImages(s, init) + if CommitWritten(RunState(s, init), x) then TxnWrites(x.txn) else []
  }

  /** The blocks without recovery: every attempt has written the pages it came to. */
  function Placed(m: Blocks, s: LogState, xs: seq<Attempt>): Blocks
    requires Sized(s)
    decreases |xs|
  {
    if xs == [] then m else
    var init, x := xs[..|xs| - 1], xs[|xs| - 1];
    ApplyWrites(Placed(m, s, init), TxnWrites(x.txn)[..PagesPlaced(RunState(s, init), x.txn, x.calls)])
  }

  /** Every attempt stops inside its plan, is one the volume can take, and finds room in the log. */
  ghost predicate Attempts(d: Disk, s: LogState, us: Units, xs: seq<Attempt>)
    requires Sized(s)
    decreases |xs|
  {
    xs == [] || (
      var init, x := xs[..|xs| - 1], xs[|xs| - 1];
      var s1, u1 := RunState(s, init), RunUnits(us, s, init);
      && Attempts(d, s, us, init) && Fit(d.blocks, x.txn)
      && x.calls <= |CommitPlan(s1, x.txn)| && UNIT * |AddTxn(u1, s1, x.txn)| <= |d.log|)
  }

  /** Attempt `i` of the run was logged. */
  predicate LoggedAt(s: LogState, xs: seq<Attempt>, i: nat)
    requires Sized(s) && i < |xs|
  {
    WasLogged(RunState(s, xs[..i]), xs[i])
  }

  lemma {:induction false} RunRecordsAre(us: Units, s: LogState, xs: seq<Attempt>)
    requires Sized(s)
    ensures Records(RunUnits(us, s, xs)) == Records(us) + RunRecords(s, xs)
    decreases |xs|
  {
    hide Records, PutRecords, AttemptUnits, AttemptState;
    if xs == [] {
      assert Records(us) + [] == Records(us);
    } else {
      var init, x := xs[..|xs| - 1], xs[|xs| - 1];
      RunRecordsAre(us, s, init);
      AttemptRecords(RunUnits(us, s, init), RunState(s, init), x);
    }
  }

  /** All records up to those of attempt `j` are in `v`. */
  predicate InLog(s: LogState, xs: seq<Attempt>, base: seq<Record>, v: seq<Record>, j: nat)
    requires Sized(s) && j < |xs|
  {
    base + RunRecords(s, xs[..j + 1]) <= v
  }

  /** What is flushed of a run: what was there before, and everything up to the last attempt that was logged. */
  ghost predicate FlushedOf(s: LogState, xs: seq<Attempt>, base: seq<Record>, v: seq<Record>)
    requires Sized(s)
  {
    base <= v && forall i: nat :: i < |xs| && LoggedAt(s, xs, i) ==> InLog(s, xs, base, v, i)
  }

  lemma FlushedOfLonger(s: LogState, xs: seq<Attempt>, base: seq<Record>, v: seq<Record>, w: seq<Record>)
    requires Sized(s) && xs != [] && FlushedOf(s, xs[..|xs| - 1], base, v) && v <= w
    requires LoggedAt(s, xs, |xs| - 1) ==> base + RunRecords(s, xs) <= w
    ensures FlushedOf(s, xs, base, w)
  {
    hide LoggedAt, InLog, RunRecords;
    PrefixTwice(base, v, w);
    forall i: nat | i < |xs| && LoggedAt(s, xs, i) ensures InLog(s, xs, base, w, i) {
      if i < |xs| - 1 {
        SameAttempt(s, xs, i);
        InLogLonger(s, xs, base, v, w, i);
      } else {
        WholeInLog(s, xs, base, w);
      }
    }
  }

  lemma InLogLonger(s: LogState, xs: seq<Attempt>, base: seq<Record>, v: seq<Record>, w: seq<Record>, i: nat)
    requires Sized(s) && i < |xs| - 1 && InLog(s, xs[..|xs| - 1], base, v, i) && v <= w
    ensures InLog(s, xs, base, w, i)
  {
    hide RunRecords;
    assert xs[..|xs| - 1][..i + 1] == xs[..i + 1];
    PrefixTwice(base + RunRecords(s, xs[..i + 1]), v, w);
  }

  lemma WholeInLog(s: LogState, xs: seq<Attempt>, base: seq<Record>, v: seq<Record>)
    requires Sized(s) && xs != []
    ensures InLog(s, xs, base, v, |xs| - 1) <==> base + RunRecords(s, xs) <= v
  {
    hide RunRecords;
    assert xs[..|xs| - 1 + 1] == xs;
  }

  lemma SameAttempt(s: LogState, xs: seq<Attempt>, i: nat)
    requires Sized(s) && i < |xs| - 1
    ensures LoggedAt(s, xs[..|xs| - 1], i) == LoggedAt(s, xs, i)
  {
    hide WasLogged, RunState;
    assert xs[..|xs| - 1][..i] == xs[..i];
  }

  /** The device and the manager after a run. */
  lemma {:induction false} RunLoose(d: Disk, s: LogState, us: Units, xs: seq<Attempt>)
    returns (fl: seq<Record>, a: seq<Record>, b: seq<Record>)
    requires Settled(d, s, us) && Sized(s) && Attempts(d, s, us, xs)
    ensures Loose(RunDisk(d, s, xs), RunState(s, xs), RunUnits(us, s, xs), fl, a, b)
    ensures FlushedOf(s, xs, Records(us), FlushedRecords(RunUnits(us, s, xs), fl))
    decreases |xs|
  {
    hide Settled, Loose, AttemptCalls, AttemptState, AttemptUnits, Fit, AddTxn, FlushedRecords, Records, RunRecords, CommitPlan, LoggedAt, WasLogged, FlushedOf;
    if xs == [] {
      SettledLoose(d, s, us);
      fl, a, b := Last(us), Last(us), Last(us);
      NothingFlushed(s, us);
    } else {
      var init, x := xs[..|xs| - 1], xs[|xs| - 1];
      fl, a, b := RunLoose(d, s, us, init);
      var c, s1, u1 := RunDisk(d, s, init), RunState(s, init), RunUnits(us, s, init);
      FitOnSameVolume(d.blocks, c.blocks, x.txn);
      var v := FlushedRecords(u1, fl);
      fl, a, b := AttemptLoose(c, s1, u1, fl, a, b, x);
      RunRecordsAre(us, s, xs);
      LastLogged(s, xs);
      FlushedOfLonger(s, xs, Records(us), v, FlushedRecords(RunUnits(us, s, xs), fl));
    }
  }

  lemma NothingFlushed(s: LogState, us: Units)
    requires Sized(s)
    ensures FlushedOf(s, [], Records(us), FlushedRecords(us, Last(us)))
  {
    hide Records;
    FlushedArePrefix(us, Last(us));
  }

  lemma LastLogged(s: LogState, xs: seq<Attempt>)
    requires Sized(s) && xs != []
    ensures LoggedAt(s, xs, |xs| - 1) == WasLogged(RunState(s, xs[..|xs| - 1]), xs[|xs| - 1])
  {
  }

  lemma {:induction false} RunBlocks(d: Disk, s: LogState, xs: seq<Attempt>)
    requires Sized(s) && TxnsFit(d.blocks, xs)
    ensures RunDisk(d, s, xs).blocks == Placed(d.blocks, s, xs)
    decreases |xs|
  {
    hide Fit, CommitPlan, AttemptState, ApplyWrites, TxnWrites, PagesPlaced;
    if xs != [] {
      var init, x := xs[..|xs| - 1], xs[|xs| - 1];
      var c, s1 := RunDisk(d, s, init), RunState(s, init);
      RunBlocks(d, s, init);
      FitOnSameVolume(d.blocks, c.blocks, x.txn);
      BlocksAt(c, s1, x.txn, Min(x.calls, |CommitPlan(s1, x.txn)|));
      PlacedWithin(s1, x.txn, x.calls);
    }
  }

  lemma PlacedWithin(s: LogState, t: Txn, k: nat)
    requires Sized(s)
    ensures PagesPlaced(s, t, Min(k, |CommitPlan(s, t)|)) == PagesPlaced(s, t, k)
  {
    hide LoggedPlan, BlockWrites;
  }

  ghost predicate TxnsFit(m: Blocks, xs: seq<Attempt>) {
    forall i :: 0 <= i < |xs| ==> Fit(m, xs[i].txn)
  }

  /** On a log that is marked as replayed no run of attempts removes the mark, and recovery does nothing. */
  lemma {:induction false} FailedRunReplayed(d: Disk, s: LogState, xs: seq<Attempt>)
    requires Sized(s) && d.state == s.state == LOGREDONE
    ensures RunDisk(d, s, xs).state == LOGREDONE && LeftAlone(RunDisk(d, s, xs))
    decreases |xs|
  {
    hide CommitPlan, AttemptState;
    if xs != [] {
      var init, x := xs[..|xs| - 1], xs[|xs| - 1];
      FailedRunReplayed(d, s, init);
      MarkStays(RunDisk(d, s, init), RunState(s, init), x.txn, Min(x.calls, |CommitPlan(RunState(s, init), x.txn)|));
    }
  }

  // ---- The records of a run ----

  /** The transactions of a run have different ids, as the log stores them. */
  predicate DistinctIds(xs: seq<Attempt>) {
    forall i, j :: 0 <= i < j < |xs| ==> xs[i].txn.tid % TWO32 != xs[j].txn.tid % TWO32
  }

  /** Only transactions of the run wait. */
  ghost predicate WaitOf(xs: seq<Attempt>, r: seq<Record>) {
    forall tid :: Waits(r, tid) ==> exists i :: 0 <= i < |xs| && xs[i].txn.tid % TWO32 == tid
  }

  /** A part of an attempt's records that lacks the commit record, or all of them. */
  lemma PutShape(s: LogState, m: Blocks, x: Attempt)
    requires Sized(s) && Fit(m, x.txn)
    ensures var q, tid := PutRecords(s, x), x.txn.tid % TWO32;
            if CommitWritten(s, x) then
              q != [] && (var p, c := q[..|q| - 1], q[|q| - 1];
                          OfTxn(p, tid) && KindOf(c.lrd) == CommitKind && c.lrd.logtid == tid && ImagesOf(p) == TxnWrites(x.txn))
            else OfTxn(q, tid)
  {
    hide KindOf, WritesImage, RedoRecords, AppendAll, ImagesOf, Fit, PagesPut, CommitPut, TxnWrites;
    var t := x.txn;
    if CommitWritten(s, x) {
      PartImages(s, m, t, |t.pages|);
      assert t.pages[..|t.pages|] == t.pages && TxnWrites(t)[..|t.pages|] == TxnWrites(t);
      CommitIsCommit(t.tid, AppendAll(s, t.tid, t.pages).prevOffset);
      var q := PutRecords(s, x);
      assert q[..|q| - 1] == RedoRecords(s, t.tid, t.pages);
    } else if x.calls > 0 {
      PartImages(s, m, t, PagesPut(s, t.tid, t.pages, x.calls - 1));
    }
  }

  lemma PartImages(s: LogState, m: Blocks, t: Txn, n: nat)
    requires Sized(s) && Fit(m, t) && n <= |t.pages|
    ensures var p := RedoRecords(s, t.tid, t.pages[..n]);
            OfTxn(p, t.tid % TWO32) && ImagesOf(p) == TxnWrites(t)[..n]
  {
    hide RedoRecords, KindOf, WritesImage, ImagesOf, Fit, Pending;
    RedoRecordsAre(s, m, t, n);
    var p := RedoRecords(s, t.tid, t.pages[..n]);
    ImagesOfImages(p, t.tid, TxnWrites(t)[..n]);
    forall j | 0 <= j < |p| ensures p[j].lrd.logtid == t.tid % TWO32 && KindOf(p[j].lrd) == RedoKind && WritesImage(p[j].lrd) {
      assert IsImage(p[j], t.tid, TxnWrites(t)[..n][j]);
    }
  }

  /** One attempt more: its images are live if and only if its commit record was put. */
  lemma LiveAttempt(r: seq<Record>, s: LogState, m: Blocks, x: Attempt)
    requires Sized(s) && Fit(m, x.txn) && Plain(r) && !Waits(r, x.txn.tid % TWO32)
    ensures var all := r + PutRecords(s, x);
            && Plain(all)
            && LiveWrites(all, |all|) == LiveWrites(r, |r|) + if CommitWritten(s, x) then TxnWrites(x.txn) else []
    ensures forall tid :: Waits(r + PutRecords(s, x), tid) ==> Waits(r, tid) || tid == x.txn.tid % TWO32
  {
    hide KindOf, WritesImage, PutRecords, Plain, Waits, LiveWrites, ImagesOf, Fit, CommitWritten, OfTxn, TxnWrites;
    PutShape(s, m, x);
    var q, id := PutRecords(s, x), x.txn.tid % TWO32;
    if CommitWritten(s, x) {
      var p, c := q[..|q| - 1], q[|q| - 1];
      assert q == p + [c];
      OfTxnPlain(p, id);
      CommitPlain(c);
      PlainJoin(p, [c]);
      PlainJoin(r, q);
      LiveEnd(r, p, c);
    } else {
      OfTxnPlain(q, id);
      PlainJoin(r, q);
      LivePending(r, q, |r + q|);
    }
    forall tid | Waits(r + q, tid) ensures Waits(r, tid) || tid == id {
      WaitsLonger(r, q, tid);
      IdsOf(s, m, x);
    }
  }

  lemma IdsOf(s: LogState, m: Blocks, x: Attempt)
    requires Sized(s) && Fit(m, x.txn)
    ensures forall j :: 0 <= j < |PutRecords(s, x)| ==> PutRecords(s, x)[j].lrd.logtid == x.txn.tid % TWO32
  {
    hide KindOf, WritesImage, PutRecords, ImagesOf, Fit, CommitWritten, TxnWrites;
    PutShape(s, m, x);
    var q := PutRecords(s, x);
    forall j | 0 <= j < |q| ensures q[j].lrd.logtid == x.txn.tid % TWO32 {
      if CommitWritten(s, x) && j < |q| - 1 {
        assert q[j] == q[..|q| - 1][j];
      }
    }
  }

  /** The live images of a closed log followed by the records of a run. */
  lemma {:induction false} RunLive(base: seq<Record>, s: LogState, m: Blocks, xs: seq<Attempt>)
    requires Sized(s) && Closed(base) && TxnsFit(m, xs) && DistinctIds(xs)
    ensures var r := base + RunRecords(s, xs);
            Plain(r) && WaitOf(xs, r) && LiveWrites(r, |r|) == ImagesOf(base) + RunImages(s, xs)
    decreases |xs|
  {
    hide Plain, PutRecords, Waits, LiveWrites, ImagesOf, Fit, Closed, CommitWritten, TxnWrites, AttemptState;
    if xs == [] {
      ClosedPlain(base);
      assert base + [] == base && ImagesOf(base) + [] == ImagesOf(base);
    } else {
      var init, x := xs[..|xs| - 1], xs[|xs| - 1];
      RunLive(base, s, m, init);
      var r, s1 := base + RunRecords(s, init), RunState(s, init);
      assert !Waits(r, x.txn.tid % TWO32);
      LiveAttempt(r, s1, m, x);
      assert r + PutRecords(s1, x) == base + RunRecords(s, xs);
      assert xs[|xs| - 1] == x;
    }
  }

  lemma ClosedPlain(base: seq<Record>)
    requires Closed(base)
    ensures Plain(base) && WaitOf([], base) && LiveWrites(base, |base|) == ImagesOf(base)
  {
    hide KindOf, WritesImage, LiveWrites, ImagesOf;
    EmptyLog();
    assert base + [] == base && base[..|base|] == base;
    LiveAreImages(base, [], |base|);
  }

  /** The commit record of attempt `j` was put. */
  predicate CommitAt(s: LogState, xs: seq<Attempt>, j: nat)
    requires Sized(s) && j < |xs|
  {
    CommitWritten(RunState(s, xs[..j]), xs[j])
  }

  /** Of the attempts that put their commit record, the first `n` hold exactly those whose records are in `v`. */
  ghost predicate FirstInLog(s: LogState, xs: seq<Attempt>, base: seq<Record>, v: seq<Record>, n: nat)
    requires Sized(s)
  {
    forall j: nat :: j < |xs| && CommitAt(s, xs, j) ==> (j < n <==> InLog(s, xs, base, v, j))
  }

  /** A part of those records: the images of some first attempts, those whose commit record is in the part. */
  lemma {:induction false} PartLive(base: seq<Record>, s: LogState, m: Blocks, xs: seq<Attempt>, v: seq<Record>) returns (n: nat)
    requires Sized(s) && Closed(base) && TxnsFit(m, xs) && DistinctIds(xs)
    requires base <= v <= base + RunRecords(s, xs)
    ensures n <= |xs| && Plain(v) && LiveWrites(v, |v|) == ImagesOf(base) + RunImages(s, xs[..n])
    ensures FirstInLog(s, xs, base, v, n)
    decreases |xs|
  {
    hide Plain, PutRecords, LiveWrites, ImagesOf, Fit, Closed, TxnWrites, AttemptState, RunImages, RunRecords, WaitOf, FirstInLog, TxnsFit, DistinctIds;
    RunLive(base, s, m, xs);
    NoAttempts(s);
    assert xs[..|xs|] == xs;
    assert xs == [] ==> base + RunRecords(s, xs) == base && v == base;
    if xs == [] || v == base + RunRecords(s, xs) {
      n := |xs|;
      AllInLog(s, xs, base);
    } else {
      var init, x := xs[..|xs| - 1], xs[|xs| - 1];
      Front(m, xs);
      RunRecordsStep(s, xs);
      if |v| <= |base + RunRecords(s, init)| {
        assert v <= base + RunRecords(s, init) by { ShorterPrefix(v, base + RunRecords(s, init), PutRecords(RunState(s, init), x)); }
        n := PartLive(base, s, m, init, v);
        assert init[..n] == xs[..n];
        ShorterInLog(s, xs, base, v, n);
      } else {
        n := |init|;
        var q := Behind(v, base + RunRecords(s, init), PutRecords(RunState(s, init), x));
        LastPart(base, s, m, xs, q);
        LastInLog(s, xs, base, v);
      }
    }
  }

  lemma {:induction false} RunRecordsPrefix(s: LogState, xs: seq<Attempt>, j: nat)
    requires Sized(s) && j <= |xs|
    ensures RunRecords(s, xs[..j]) <= RunRecords(s, xs)
    decreases |xs|
  {
    hide PutRecords, RunState;
    if j == |xs| {
      assert xs[..j] == xs;
    } else {
      RunRecordsPrefix(s, xs[..|xs| - 1], j);
      assert xs[..|xs| - 1][..j] == xs[..j];
    }
  }

  lemma AllInLog(s: LogState, xs: seq<Attempt>, base: seq<Record>)
    requires Sized(s)
    ensures FirstInLog(s, xs, base, base + RunRecords(s, xs), |xs|)
  {
    hide RunRecords, CommitAt;
    forall j: nat | j < |xs| ensures InLog(s, xs, base, base + RunRecords(s, xs), j) {
      RunRecordsPrefix(s, xs, j + 1);
    }
  }

  lemma SameIn(s: LogState, xs: seq<Attempt>, base: seq<Record>, v: seq<Record>, j: nat)
    requires Sized(s) && j < |xs| - 1
    ensures CommitAt(s, xs[..|xs| - 1], j) == CommitAt(s, xs, j) && InLog(s, xs[..|xs| - 1], base, v, j) == InLog(s, xs, base, v, j)
  {
    hide RunRecords, CommitWritten, RunState;
    assert xs[..|xs| - 1][..j] == xs[..j] && xs[..|xs| - 1][..j + 1] == xs[..j + 1];
  }

  lemma ShorterInLog(s: LogState, xs: seq<Attempt>, base: seq<Record>, v: seq<Record>, n: nat)
    requires Sized(s) && xs != [] && v <= base + RunRecords(s, xs[..|xs| - 1]) && n <= |xs| - 1
    requires FirstInLog(s, xs[..|xs| - 1], base, v, n)
    ensures FirstInLog(s, xs, base, v, n)
  {
    hide RunRecords, CommitAt;
    forall j: nat | j < |xs| && CommitAt(s, xs, j) ensures j < n <==> InLog(s, xs, base, v, j) {
      if j < |xs| - 1 {
        SameIn(s, xs, base, v, j);
      } else {
        assert xs[..j + 1] == xs;
        CommitAddsRecords(s, xs);
      }
    }
  }

  lemma LastInLog(s: LogState, xs: seq<Attempt>, base: seq<Record>, v: seq<Record>)
    requires Sized(s) && xs != []
    requires base + RunRecords(s, xs[..|xs| - 1]) <= v <= base + RunRecords(s, xs) && v != base + RunRecords(s, xs)
    ensures FirstInLog(s, xs, base, v, |xs| - 1)
  {
    hide RunRecords, CommitAt;
    forall j: nat | j < |xs| && CommitAt(s, xs, j) ensures j < |xs| - 1 <==> InLog(s, xs, base, v, j) {
      OneInLog(s, xs, base, v, j);
    }
  }

  lemma OneInLog(s: LogState, xs: seq<Attempt>, base: seq<Record>, v: seq<Record>, j: nat)
    requires Sized(s) && j < |xs|
    requires base + RunRecords(s, xs[..|xs| - 1]) <= v <= base + RunRecords(s, xs) && v != base + RunRecords(s, xs)
    ensures j < |xs| - 1 <==> InLog(s, xs, base, v, j)
  {
    hide RunRecords;
    var init := xs[..|xs| - 1];
    if j < |init| {
      assert init[..j + 1] == xs[..j + 1];
      RunRecordsPrefix(s, init, j + 1);
      PrefixJoin(base, RunRecords(s, xs[..j + 1]), RunRecords(s, init), v);
    } else {
      assert xs[..j + 1] == xs;
      NotWhole(v, base + RunRecords(s, xs));
    }
  }

  lemma PrefixJoin(base: seq<Record>, a: seq<Record>, b: seq<Record>, v: seq<Record>)
    requires a <= b && base + b <= v
    ensures base + a <= v
  {
    PrefixTwice(base + a, base + b, v);
  }

  lemma NotWhole(v: seq<Record>, w: seq<Record>)
    requires v <= w && v != w
    ensures !(w <= v)
  {
  }

  lemma NoAttempts(s: LogState)
    requires Sized(s)
    ensures RunRecords(s, []) == [] && RunImages(s, []) == []
  {
  }

  lemma RunRecordsStep(s: LogState, xs: seq<Attempt>)
    requires Sized(s) && xs != []
    ensures RunRecords(s, xs) == RunRecords(s, xs[..|xs| - 1]) + PutRecords(RunState(s, xs[..|xs| - 1]), xs[|xs| - 1])
  {
    hide PutRecords, RunState;
  }

  lemma Behind(v: seq<Record>, a: seq<Record>, b: seq<Record>) returns (q: seq<Record>)
    requires v <= a + b && |v| >= |a| && v != a + b
    ensures v == a + q && q <= b && q != b
  {
    q := v[|a|..];
    assert v == (a + b)[..|v|];
  }

  lemma ShorterPrefix(v: seq<Record>, a: seq<Record>, b: seq<Record>)
    requires v <= a + b && |v| <= |a|
    ensures v <= a
  {
    assert v == (a + b)[..|v|] == a[..|v|];
  }

  /** A proper part of the last attempt's records holds no commit record. */
  lemma LastPart(base: seq<Record>, s: LogState, m: Blocks, xs: seq<Attempt>, p: seq<Record>)
    requires Sized(s) && Closed(base) && TxnsFit(m, xs) && DistinctIds(xs) && xs != []
    requires var q := PutRecords(RunState(s, xs[..|xs| - 1]), xs[|xs| - 1]); p <= q && p != q
    ensures var v := base + RunRecords(s, xs[..|xs| - 1]) + p;
            Plain(v) && LiveWrites(v, |v|) == ImagesOf(base) + RunImages(s, xs[..|xs| - 1])
  {
    hide Plain, PutRecords, LiveWrites, ImagesOf, Fit, Closed, RunState, RunImages, RunRecords, WaitOf, Pending, TxnsFit, DistinctIds;
    var init, x := xs[..|xs| - 1], xs[|xs| - 1];
    Front(m, xs);
    var r := base + RunRecords(s, init);
    RunLive(base, s, m, init);
    ProperPart(RunState(s, init), m, x, p);
    PlainJoin(r, p);
    LivePending(r, p, |r + p|);
  }

  lemma Front(m: Blocks, xs: seq<Attempt>)
    requires TxnsFit(m, xs) && DistinctIds(xs) && xs != []
    ensures TxnsFit(m, xs[..|xs| - 1]) && DistinctIds(xs[..|xs| - 1]) && Fit(m, xs[|xs| - 1].txn)
  {
    hide Fit;
  }

  lemma ProperPart(s: LogState, m: Blocks, x: Attempt, p: seq<Record>)
    requires Sized(s) && Fit(m, x.txn) && p <= PutRecords(s, x) && p != PutRecords(s, x)
    ensures Plain(p) && Pending(p)
  {
    hide Plain, PutRecords, ImagesOf, Fit, TxnWrites, OfTxn, KindOf, Pending, CommitWritten;
    PutShape(s, m, x);
    PartOfPut(PutRecords(s, x), p, x.txn.tid % TWO32, CommitWritten(s, x));
  }

  lemma PartOfPut(q: seq<Record>, p: seq<Record>, tid: nat, whole: bool)
    requires p <= q && p != q && (if whole then q != [] && OfTxn(q[..|q| - 1], tid) else OfTxn(q, tid))
    ensures Plain(p) && Pending(p)
  {
    hide KindOf, WritesImage;
    forall i | 0 <= i < |p| ensures p[i].lrd.logtid == tid && KindOf(p[i].lrd) == RedoKind && WritesImage(p[i].lrd) {
      assert p[i] == q[i];
      if whole {
        assert q[i] == q[..|q| - 1][i];
      }
    }
    OfTxnPlain(p, tid);
  }

  lemma CommitAddsRecords(s: LogState, xs: seq<Attempt>)
    requires Sized(s) && xs != [] && CommitAt(s, xs, |xs| - 1)
    ensures |RunRecords(s, xs[..|xs| - 1])| < |RunRecords(s, xs)|
  {
    hide RedoRecords, CommitPut, RunState;
  }

  /** An attempt that was logged has put its commit record. */
  lemma LoggedIsCommitted(s: LogState, xs: seq<Attempt>, j: nat)
    requires Sized(s) && j < |xs| && LoggedAt(s, xs, j)
    ensures CommitAt(s, xs, j)
  {
    hide CommitPut, LoggedPlan, RunState;
    CommitPutEarly(RunState(s, xs[..j]), xs[j].txn);
  }

  lemma LoggedAreFirst(s: LogState, xs: seq<Attempt>, base: seq<Record>, v: seq<Record>, n: nat)
    requires Sized(s) && FlushedOf(s, xs, base, v) && FirstInLog(s, xs, base, v, n)
    ensures forall j: nat :: j < |xs| && LoggedAt(s, xs, j) ==> j < n
  {
    hide LoggedAt, CommitAt, RunRecords;
    forall j: nat | j < |xs| && LoggedAt(s, xs, j) ensures j < n {
      LoggedIsCommitted(s, xs, j);
      assert InLog(s, xs, base, v, j);
    }
  }

  // ---- Recovery ----

  /** Recovery of a disk on which such records are visible. */
  lemma RecoverPlain(d: Disk, recs: seq<Record>)
    requires d.state != LOGREDONE && VisibleUnits(d) == Some(recs) && Plain(recs)
    requires Acceptable(d.blocks, LiveWrites(recs, |recs|))
    ensures RecoverUnits(d).Some? && RecoverUnits(d).value.blocks == ApplyWrites(d.blocks, LiveWrites(recs, |recs|))
  {
    hide Acceptable, ApplyWrites, Once, Backward, VisibleUnits, Reverse, LiveWrites, NoMarks;
    PlainNoMarks(recs);
    BackwardWritesLive(recs);
    FirstMetEqualsForward(d.blocks, recs);
    AcceptableOnce(d.blocks, LiveWrites(recs, |recs|));
  }

  lemma PlainNoMarks(recs: seq<Record>)
    requires Plain(recs)
    ensures NoMarks(recs)
  {
    hide KindOf, WritesImage;
  }

  lemma {:induction false} RunImagesFit(s: LogState, m: Blocks, xs: seq<Attempt>)
    requires Sized(s) && TxnsFit(m, xs)
    ensures Acceptable(m, RunImages(s, xs))
    decreases |xs|
  {
    hide Fit, Acceptable, TxnWrites, CommitWritten, RunState;
    EmptyAcceptable(m);
    if xs != [] {
      var init, x := xs[..|xs| - 1], xs[|xs| - 1];
      RunImagesFit(s, m, init);
      FitAcceptable(m, x.txn);
      AcceptableBoth(m, m, RunImages(s, init), TxnWrites(x.txn));
      assert RunImages(s, init) + [] == RunImages(s, init);
    }
  }

  /** Blocks that no redone attempt writes have not been touched by any attempt. */
  lemma {:induction false} PlacedUntouched(m: Blocks, s: LogState, xs: seq<Attempt>, n: nat, b: nat)
    requires Sized(s) && n <= |xs| && Newest(RunImages(s, xs[..n]), b).None?
    requires forall i: nat :: i < |xs| && LoggedAt(s, xs, i) ==> i < n
    ensures var x := Placed(m, s, xs); (b in x <==> b in m) && (b in x ==> x[b] == m[b])
    decreases |xs|
  {
    hide ApplyWrites, Newest, TxnWrites, CommitPut, LoggedPlan, RunState;
    if xs != [] {
      var init, x := xs[..|xs| - 1], xs[|xs| - 1];
      var s1, k := RunState(s, init), if n < |xs| then n else |init|;
      forall i: nat | i < |init| && LoggedAt(s, init, i) ensures i < k {
        assert init[..i] == xs[..i];
        assert LoggedAt(s, xs, i);
      }
      assert init[..k] == xs[..k];
      var i := PagesPlaced(s1, x.txn, x.calls);
      if n == |xs| {
        assert xs[..n] == xs && init[..k] == init;
        LastUntouched(s, xs, b);
      } else {
        assert xs[..|init|] == init;
        assert !LoggedAt(s, xs, |init|);
        assert i == 0;
      }
      PlacedUntouched(m, s, init, k, b);
      if i == 0 {
        NoWrites(Placed(m, s, init), TxnWrites(x.txn));
      } else {
        NewestOfPart(TxnWrites(x.txn), i, b);
        ApplyWritesAt(Placed(m, s, init), TxnWrites(x.txn)[..i], b);
      }
    }
  }

  lemma LastUntouched(s: LogState, xs: seq<Attempt>, b: nat)
    requires Sized(s) && xs != [] && Newest(RunImages(s, xs), b).None?
    ensures Newest(RunImages(s, xs[..|xs| - 1]), b).None?
    ensures var s1, x := RunState(s, xs[..|xs| - 1]), xs[|xs| - 1];
            PagesPlaced(s1, x.txn, x.calls) > 0 ==> Newest(TxnWrites(x.txn), b).None?
  {
    hide Newest, TxnWrites, CommitPut, LoggedPlan, RunState;
    var init, x := xs[..|xs| - 1], xs[|xs| - 1];
    CommitPutEarly(RunState(s, init), x.txn);
    NewestOfConcat(RunImages(s, init), TxnWrites(x.txn), b);
    assert RunImages(s, init) + [] == RunImages(s, init);
  }

  /** Redoing the log over the blocks as the run left them. */
  lemma RedoOverRun(m: Blocks, past: seq<Write>, s: LogState, xs: seq<Attempt>, n: nat)
    requires Sized(s) && ApplyWrites(m, past) == m && n <= |xs|
    requires forall i: nat :: i < |xs| && LoggedAt(s, xs, i) ==> i < n
    ensures ApplyWrites(Placed(m, s, xs), past + RunImages(s, xs[..n])) == ApplyWrites(m, RunImages(s, xs[..n]))
  {
    hide ApplyWrites, Newest, RunImages, Placed, LoggedAt;
    var ws, w := past + RunImages(s, xs[..n]), Placed(m, s, xs);
    forall b: nat | Newest(ws, b).None? ensures (b in w <==> b in m) && (b in w ==> w[b] == m[b]) {
      NewestOfConcat(past, RunImages(s, xs[..n]), b);
      PlacedUntouched(m, s, xs, n, b);
    }
    SameImagesSameEffect(w, m, ws, ws);
    ApplyWritesConcat(m, past, RunImages(s, xs[..n]));
  }

  lemma {:induction false} AttemptsFit(d: Disk, s: LogState, us: Units, xs: seq<Attempt>)
    requires Sized(s) && Attempts(d, s, us, xs)
    ensures TxnsFit(d.blocks, xs)
    decreases |xs|
  {
    hide Fit, AddTxn, CommitPlan, RunState, RunUnits;
    if xs != [] {
      AttemptsFit(d, s, us, xs[..|xs| - 1]);
    }
  }

  /**
   Every run of failing and succeeding commits, stopped anywhere once the end pointer of the log has been
   written: recovery gives the old blocks with the images of those transactions among the first `n` whose
   commit record was put into the log, in log order. These are exactly the transactions whose commit record
   is visible on the device, and every commit whose journal flush was complete is one of them.
   */
  lemma FailedRunRecovers(d: Disk, s: LogState, us: Units, xs: seq<Attempt>) returns (n: nat)
    requires Quiet(d, s, us) && Sized(s) && Attempts(d, s, us, xs) && DistinctIds(xs) && RunDisk(d, s, xs).end > 0
    ensures n <= |xs| && forall i: nat :: i < |xs| && LoggedAt(s, xs, i) ==> i < n
    ensures var c := RunDisk(d, s, xs);
            && c.blocks == Placed(d.blocks, s, xs)
            && VisibleUnits(c).Some? && FirstInLog(s, xs, Records(us), VisibleUnits(c).value, n)
            && RecoverUnits(c).Some? && RecoverUnits(c).value.blocks == ApplyWrites(d.blocks, RunImages(s, xs[..n]))
  {
    hide Quiet, Settled, Attempts, Closed, Acceptable, ImagesOf, LiveWrites, VisibleUnits, Visible, RecoverUnits, Loose, Records, RunRecords, RunImages,
         Placed, LoggedAt, RunDisk, RunState, RunUnits, ApplyWrites, FlushedRecords, DistinctIds, Plain, FlushedOf, TxnsFit, FirstInLog;
    QuietParts(d, s, us);
    var fl, a, b := RunLoose(d, s, us, xs);
    AttemptsFit(d, s, us, xs);
    RunBlocks(d, s, xs);
    var c, s1, u1 := RunDisk(d, s, xs), RunState(s, xs), RunUnits(us, s, xs);
    LooseVisible(c, s1, u1, fl, a, b);
    LooseFlushed(c, s1, u1, fl, a, b);
    RunRecordsAre(us, s, xs);
    var base, v := Records(us), FlushedRecords(u1, fl);
    FlushedBase(s, xs, base, v);
    n := PartLive(base, s, d.blocks, xs, v);
    LoggedAreFirst(s, xs, base, v, n);
    FitFront(d.blocks, xs, n);
    RunImagesFit(s, d.blocks, xs[..n]);
    AcceptableBoth(d.blocks, c.blocks, ImagesOf(base), RunImages(s, xs[..n]));
    LooseParts(c, s1, u1, fl, a, b);
    RecoverPlain(c, v);
    RedoOverRun(d.blocks, ImagesOf(base), s, xs, n);
  }

  lemma FlushedBase(s: LogState, xs: seq<Attempt>, base: seq<Record>, v: seq<Record>)
    requires Sized(s) && FlushedOf(s, xs, base, v)
    ensures base <= v
  {
  }

  lemma FitFront(m: Blocks, xs: seq<Attempt>, n: nat)
    requires TxnsFit(m, xs) && n <= |xs|
    ensures TxnsFit(m, xs[..n])
  {
    hide Fit;
  }

  /** The end pointer is set once a record was flushed: before the run, or by an attempt that was logged. */
  lemma EndIsSet(d: Disk, s: LogState, us: Units, xs: seq<Attempt>)
    requires Settled(d, s, us) && Sized(s) && Attempts(d, s, us, xs)
    requires Records(us) != [] || exists i: nat :: i < |xs| && LoggedAt(s, xs, i)
    ensures RunDisk(d, s, xs).end > 0
  {
    hide Settled, Attempts, Loose, Records, LoggedAt, RunDisk, RunState, RunUnits, FlushedOf, FlushedRecords, FlushedEnd, Stages, Writer, AllOk, UnitOk;
    var fl, a, b := RunLoose(d, s, us, xs);
    var c, s1, u1 := RunDisk(d, s, xs), RunState(s, xs), RunUnits(us, s, xs);
    LooseParts(c, s1, u1, fl, a, b);
    SomeFlushed(s, xs, Records(us), FlushedRecords(u1, fl));
    EndBehind(u1, fl);
  }

  lemma SomeFlushed(s: LogState, xs: seq<Attempt>, base: seq<Record>, v: seq<Record>)
    requires Sized(s) && FlushedOf(s, xs, base, v)
    requires base != [] || exists i: nat :: i < |xs| && LoggedAt(s, xs, i)
    ensures v != []
  {
    hide LoggedAt, RunRecords;
    if i: nat :| i < |xs| && LoggedAt(s, xs, i) {
      LoggedHasRecords(s, xs, i);
      assert base + RunRecords(s, xs[..i + 1]) <= v;
    }
  }

  lemma LoggedHasRecords(s: LogState, xs: seq<Attempt>, i: nat)
    requires Sized(s) && i < |xs| && LoggedAt(s, xs, i)
    ensures RunRecords(s, xs[..i + 1]) != []
  {
    hide RunRecords, WasLogged, RunState;
    assert xs[..i + 1][..i] == xs[..i];
    LoggedIsCommitted(s, xs[..i + 1], i);
    CommitAddsRecords(s, xs[..i + 1]);
  }

  lemma EndBehind(us: Units, fl: seq<Record>)
    requires FlushedRecords(us, fl) != [] && (|us| > 1 ==> us[|us| - 2] != [])
    ensures FlushedEnd(us, fl) > 0
  {
    if fl != [] {
      SomeBytes(fl);
    } else if |us| > 1 {
      SomeBytes(us[|us| - 2]);
    }
  }

  // ---- As written ----

  /** Every image goes to a block of the volume. */
  predicate ImagesGo(m: Blocks, recs: seq<Record>) {
    forall i :: 0 <= i < |recs| && KindOf(recs[i].lrd) == RedoKind ==> recs[i].lrd.pxd.address in m && |recs[i].data| == PAGE
  }

  lemma {:induction false} GoAcceptable(m: Blocks, recs: seq<Record>)
    requires ImagesGo(m, recs)
    ensures Acceptable(m, ImagesOf(recs))
    decreases |recs|
  {
    hide KindOf;
    if recs != [] {
      GoAcceptable(m, recs[..|recs| - 1]);
    }
  }

  lemma AcceptableGo(m: Blocks, recs: seq<Record>)
    requires Acceptable(m, ImagesOf(recs))
    ensures ImagesGo(m, recs)
  {
    hide KindOf, ImagesOf;
    forall i | 0 <= i < |recs| && KindOf(recs[i].lrd) == RedoKind ensures recs[i].lrd.pxd.address in m && |recs[i].data| == PAGE {
      ImageOfRecord(recs, i);
    }
  }

  lemma PutGo(s: LogState, m: Blocks, x: Attempt)
    requires Sized(s) && Fit(m, x.txn)
    ensures ImagesGo(m, PutRecords(s, x))
  {
    hide KindOf, RedoRecords, AppendAll, PagesPut, CommitPut, TxnWrites, ImagesOf, Acceptable, WritesImage, Fit;
    var t := x.txn;
    FitAcceptable(m, t);
    PartGo(s, m, t, |t.pages|);
    assert t.pages[..|t.pages|] == t.pages;
    CommitIsCommit(t.tid, AppendAll(s, t.tid, t.pages).prevOffset);
    if 0 < x.calls {
      PartGo(s, m, t, PagesPut(s, t.tid, t.pages, x.calls - 1));
    }
  }

  lemma PartGo(s: LogState, m: Blocks, t: Txn, n: nat)
    requires Sized(s) && Fit(m, t) && n <= |t.pages|
    ensures ImagesGo(m, RedoRecords(s, t.tid, t.pages[..n]))
  {
    hide RedoRecords, ImagesOf, TxnWrites, Acceptable, Fit, OfTxn;
    PartImages(s, m, t, n);
    FitAcceptable(m, t);
    AcceptablePart(m, TxnWrites(t), n);
    AcceptableGo(m, RedoRecords(s, t.tid, t.pages[..n]));
  }

  lemma {:induction false} RunGo(s: LogState, m: Blocks, base: seq<Record>, xs: seq<Attempt>)
    requires Sized(s) && TxnsFit(m, xs) && ImagesGo(m, base)
    ensures ImagesGo(m, base + RunRecords(s, xs))
    decreases |xs|
  {
    hide KindOf, PutRecords, Fit, AttemptState;
    if xs == [] {
      assert base + [] == base;
    } else {
      var init, x := xs[..|xs| - 1], xs[|xs| - 1];
      RunGo(s, m, base, init);
      PutGo(RunState(s, init), m, x);
      var r, q := base + RunRecords(s, init), PutRecords(RunState(s, init), x);
      assert base + RunRecords(s, xs) == r + q;
    }
  }

  /** What is flushed of the first unit. */
  function FirstSeen(us: Units, fl: seq<Record>): seq<Record> {
    if |us| == 1 then fl else us[0]
  }

  lemma SeenIsFlushed(us: Units, fl: seq<Record>)
    ensures FirstSeen(us, fl) <= FlushedRecords(us, fl)
  {
    if |us| == 1 {
      OneUnit(us, fl);
    } else {
      FirstUnitLeads(Before(us));
    }
  }

  /**
   The same runs with the recovery as written: it redoes, over the blocks as the run left them, the one
   image that is live among the flushed records of the first unit.
   */
  lemma FailedRunAsWritten(d: Disk, s: LogState, us: Units, xs: seq<Attempt>) returns (v: seq<Record>)
    requires Quiet(d, s, us) && Sized(s) && Attempts(d, s, us, xs) && DistinctIds(xs) && RunDisk(d, s, xs).end > 0
    ensures v <= RunUnits(us, s, xs)[0] && |LiveWrites(v, |v|)| <= 1
    ensures var c := RunDisk(d, s, xs);
            && c.blocks == Placed(d.blocks, s, xs)
            && Recover(c).Some? && Recover(c).value.blocks == ApplyWrites(c.blocks, LiveWrites(v, |v|))
  {
    hide Quiet, Attempts, Acceptable, LiveWrites, Visible, Backward, Placed, RunDisk, RunUnits, ApplyWrites, DistinctIds, TxnsFit;
    v := SeenOfRun(d, s, us, xs);
    AttemptsFit(d, s, us, xs);
    RunBlocks(d, s, xs);
    var c := RunDisk(d, s, xs);
    EmptyAcceptable(d.blocks);
    AcceptableBoth(d.blocks, c.blocks, [], LiveWrites(v, |v|));
    assert [] + LiveWrites(v, |v|) == LiveWrites(v, |v|);
  }

  /** What recovery as written sees after a run. */
  lemma SeenOfRun(d: Disk, s: LogState, us: Units, xs: seq<Attempt>) returns (v: seq<Record>)
    requires Quiet(d, s, us) && Sized(s) && Attempts(d, s, us, xs) && DistinctIds(xs) && RunDisk(d, s, xs).end > 0
    ensures v <= RunUnits(us, s, xs)[0] && RunDisk(d, s, xs).state != LOGREDONE && Visible(RunDisk(d, s, xs)) == Some(v)
    ensures |LiveWrites(v, |v|)| <= 1 && Backward(v, FRESH) == LiveWrites(v, |v|) && Acceptable(d.blocks, LiveWrites(v, |v|))
  {
    hide Quiet, Settled, Attempts, Closed, Acceptable, ImagesOf, LiveWrites, VisibleUnits, Visible, Loose, Records, RunRecords, Backward, WaitOf, Stages, RunImages,
         RunDisk, RunState, RunUnits, ApplyWrites, FlushedRecords, DistinctIds, Plain, FlushedOf, TxnsFit, ImagesGo, UnitOk, FirstSeen, AllOk, Writer, FlushedEnd;
    QuietParts(d, s, us);
    var fl, a, b := RunLoose(d, s, us, xs);
    AttemptsFit(d, s, us, xs);
    var c, s1, u1 := RunDisk(d, s, xs), RunState(s, xs), RunUnits(us, s, xs);
    LooseVisible(c, s1, u1, fl, a, b);
    LooseParts(c, s1, u1, fl, a, b);
    v := FirstSeen(u1, fl);
    SeenOk(c, s1, u1, fl, a, b);
    RunRecordsAre(us, s, xs);
    RunLive(Records(us), s, d.blocks, xs);
    AcceptableGo(d.blocks, Records(us));
    RunGo(s, d.blocks, Records(us), xs);
    PartOfRun(d.blocks, Records(u1), v);
    OneLiveImage(d.blocks, v);
  }

  lemma SeenOk(d: Disk, s: LogState, us: Units, fl: seq<Record>, a: seq<Record>, b: seq<Record>)
    requires Loose(d, s, us, fl, a, b)
    ensures var v := FirstSeen(us, fl); UnitOk(v) && v <= us[0] && v <= Records(us) && v == if |us| == 1 then fl else us[0]
  {
    hide Loose, UnitOk, Records, FlushedRecords, Writer, FirstSeen;
    LooseParts(d, s, us, fl, a, b);
    LooseFlushed(d, s, us, fl, a, b);
    SeenIsFlushed(us, fl);
    PrefixTwice(FirstSeen(us, fl), FlushedRecords(us, fl), Records(us));
    SeenInFirst(us, fl);
  }

  lemma SeenInFirst(us: Units, fl: seq<Record>)
    requires fl <= Last(us) && UnitOk(fl) && AllOk(us)
    ensures var v := FirstSeen(us, fl); v <= us[0] && UnitOk(v) && v == if |us| == 1 then fl else us[0]
  {
    hide UnitOk;
    assert UnitOk(us[0]);
  }

  lemma PrefixTwice(a: seq<Record>, b: seq<Record>, c: seq<Record>)
    requires a <= b <= c
    ensures a <= c
  {
  }

  lemma PartOfRun(m: Blocks, recs: seq<Record>, v: seq<Record>)
    requires Plain(recs) && ImagesGo(m, recs) && v <= recs
    ensures Plain(v) && Acceptable(m, ImagesOf(v)) && (forall k :: 0 <= k <= |v| ==> Acceptable(m, LiveWrites(v, k)))
  {
    hide KindOf, WritesImage, ImagesOf, LiveWrites, Acceptable;
    assert forall i :: 0 <= i < |v| ==> v[i] == recs[i];
    GoAcceptable(m, v);
    forall k | 0 <= k <= |v| ensures Acceptable(m, LiveWrites(v, k)) {
      LiveAcceptable(m, v, v, k);
    }
  }

  /** A unit has room for one image, so recovery as written redoes at most one. */
  lemma OneLiveImage(m: Blocks, v: seq<Record>)
    requires UnitOk(v) && Plain(v) && Acceptable(m, ImagesOf(v))
    ensures |LiveWrites(v, |v|)| <= 1 && Backward(v, FRESH) == LiveWrites(v, |v|)
  {
    hide ImagesOf, LiveWrites, Backward, NoMarks, UnitOk, Acceptable, Plain;
    OneImage(m, v);
    LiveLeImages(v, |v|);
    assert v[..|v|] == v;
    PlainNoMarks(v);
    BackwardWritesLive(v);
    ReverseShort(LiveWrites(v, |v|));
  }
}

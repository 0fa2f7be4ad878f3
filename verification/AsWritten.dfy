/**
 Crash atomicity and durability with recovery as the code has it: what it still guarantees, exactly when,
 for a log in any state and for whole runs.
 */
module AsWritten {
  import opened Device
  import opened LogWriter
  import opened LogLayout
  import opened LogScan
  import opened LogCrash
  import opened Recovery
  import opened CrashSafety
  import opened CommitShape
  import opened FirstUnit

  // ---- Stages of the in-place writes ----

  /** Writes that repeat what the blocks hold have no effect. */
  lemma {:induction false} NoChangeNoEffect(m: Blocks, t: Txn, i: nat)
    requires Fit(m, t) && i <= |t.pages|
    requires forall x :: 0 <= x < i ==> !Changes(m, t, x)
    ensures ApplyWrites(m, TxnWrites(t)[..i]) == m
    decreases i
  {
    if i > 0 {
      NoChangeNoEffect(m, t, i - 1);
      assert TxnWrites(t)[..i][..i - 1] == TxnWrites(t)[..i - 1];
      assert !Changes(m, t, i - 1);
      assert m[t.pages[i - 1].0 := t.pages[i - 1].1] == m;
    }
  }

  /** Behind the only changing page nothing is left to change. */
  lemma {:induction false} RestHasNoEffect(m: Blocks, t: Txn, i: nat, n: nat)
    requires Fit(m, t) && DistinctBlocks(t) && i <= n <= |t.pages|
    requires forall x :: i <= x < |t.pages| ==> !Changes(m, t, x)
    ensures ApplyWrites(m, TxnWrites(t)[..i]) == ApplyWrites(m, TxnWrites(t)[..n])
    decreases n
  {
    if i < n {
      RestHasNoEffect(m, t, i, n - 1);
      var (b, v) := t.pages[n - 1];
      assert TxnWrites(t)[..n][..n - 1] == TxnWrites(t)[..n - 1];
      var x := ApplyWrites(m, TxnWrites(t)[..n - 1]);
      assert !Changes(m, t, n - 1);
      NotYetWritten(m, t, n - 1);
      assert x[b := v] == x;
    }
  }

  /** A block holds its old contents until its own page is written. */
  lemma {:induction false} NotYetWritten(m: Blocks, t: Txn, i: nat)
    requires Fit(m, t) && DistinctBlocks(t) && i < |t.pages|
    ensures t.pages[i].0 in ApplyWrites(m, TxnWrites(t)[..i])
    ensures ApplyWrites(m, TxnWrites(t)[..i])[t.pages[i].0] == m[t.pages[i].0]
  {
    hide ApplyWrites;
    var ws := TxnWrites(t)[..i];
    NotAmong(ws, t.pages[i].0);
    ApplyWritesAt(m, ws, t.pages[i].0);
  }

  lemma {:induction false} NotAmong(ws: seq<Write>, b: nat)
    requires forall x :: 0 <= x < |ws| ==> ws[x].block != b
    ensures Newest(ws, b).None?
    decreases |ws|
  {
    if ws != [] {
      NotAmong(ws[..|ws| - 1], b);
    }
  }

  lemma WrittenLast(m: Blocks, t: Txn, i: nat)
    requires Fit(m, t) && i < |t.pages|
    ensures t.pages[i].0 in ApplyWrites(m, TxnWrites(t)[..i + 1])
    ensures ApplyWrites(m, TxnWrites(t)[..i + 1])[t.pages[i].0] == t.pages[i].1
  {
    assert TxnWrites(t)[..i + 1][..i] == TxnWrites(t)[..i];
  }

  /** With at most one changing page, every stage of the in-place writes is the old or the new state. */
  lemma StageOldOrNew(m: Blocks, t: Txn, i: nat)
    requires Fit(m, t) && DistinctBlocks(t) && OneChange(m, t) && i <= |t.pages|
    ensures ApplyWrites(m, TxnWrites(t)[..i]) == m
         || ApplyWrites(m, TxnWrites(t)[..i]) == ApplyWrites(m, TxnWrites(t))
  {
    hide ApplyWrites, TxnWrites;
    if exists x :: 0 <= x < i && Changes(m, t, x) {
      var x :| 0 <= x < i && Changes(m, t, x);
      RestHasNoEffect(m, t, i, |t.pages|);
      assert TxnWrites(t)[..|t.pages|] == TxnWrites(t);
    } else {
      NoChangeNoEffect(m, t, i);
    }
  }

  /** Each page of a transaction ends in its block. */
  lemma WrittenAtEnd(m: Blocks, t: Txn, j: nat)
    requires Fit(m, t) && DistinctBlocks(t) && j < |t.pages|
    ensures t.pages[j].0 in ApplyWrites(m, TxnWrites(t)) && ApplyWrites(m, TxnWrites(t))[t.pages[j].0] == t.pages[j].1
  {
    hide ApplyWrites;
    var ws := TxnWrites(t);
    NotAmong(ws[j + 1..], t.pages[j].0);
    WrittenLast(m, t, j);
    ApplyWritesConcat(m, ws[..j + 1], ws[j + 1..]);
    assert ws == ws[..j + 1] + ws[j + 1..];
    ApplyWritesAt(ApplyWrites(m, ws[..j + 1]), ws[j + 1..], t.pages[j].0);
  }

  /** A block that the transaction changes is that of a changing page. */
  lemma ChangedBlock(m: Blocks, t: Txn, b: nat) returns (i: nat)
    requires Fit(m, t) && b in m && b in ApplyWrites(m, TxnWrites(t)) && ApplyWrites(m, TxnWrites(t))[b] != m[b]
    ensures i < |t.pages| && Changes(m, t, i) && t.pages[i].0 == b
  {
    hide ApplyWrites;
    ApplyWritesAt(m, TxnWrites(t), b);
    i := NewestIs(TxnWrites(t), b);
  }

  lemma {:induction false} NewestIs(ws: seq<Write>, b: nat) returns (i: nat)
    requires Newest(ws, b).Some?
    ensures i < |ws| && ws[i] == Write(b, Newest(ws, b).value)
    decreases |ws|
  {
    if ws[|ws| - 1].block == b {
      i := |ws| - 1;
    } else {
      i := NewestIs(ws[..|ws| - 1], b);
    }
  }

  /** Effect of at most one write. */
  lemma OneWriteAt(m: Blocks, l: seq<Write>)
    requires |l| <= 1
    ensures ApplyWrites(m, l) == if l == [] then m else m[l[0].block := l[0].data]
  {
    if l != [] {
      assert l[..0] == [];
    }
  }

  /** When it is safe, every stage recovers to the old or the new blocks. */
  lemma SafeStage(m: Blocks, l: seq<Write>, t: Txn, i: nat)
    requires Fit(m, t) && DistinctBlocks(t) && OneChange(m, t) && i <= |t.pages| && |l| <= 1 && Acceptable(m, l)
    requires ApplyWrites(m, l) == m || ApplyWrites(m, l) == ApplyWrites(m, TxnWrites(t))
    ensures var x := ApplyWrites(ApplyWrites(m, TxnWrites(t)[..i]), l); x == m || x == ApplyWrites(m, TxnWrites(t))
  {
    hide ApplyWrites, TxnWrites, Fit, DistinctBlocks;
    StageOldOrNew(m, t, i);
    var n := ApplyWrites(m, TxnWrites(t));
    OneWriteAt(m, l);
    OneWriteAt(n, l);
    FitAcceptable(m, t);
    ApplyWritesKeys(m, TxnWrites(t));
    if l != [] && ApplyWrites(m, l) == m && n[l[0].block] != l[0].data {
      var b, v := l[0].block, l[0].data;
      var x := ChangedBlock(m, t, b);
      forall y | y in m && y != b ensures n[y] == m[y] {
        if n[y] != m[y] {
          var z := ChangedBlock(m, t, y);
        }
      }
      assert n[b := v] == m;
    }
  }

  /** Otherwise some stage recovers to neither. */
  lemma UnsafeStage(m: Blocks, l: seq<Write>, t: Txn) returns (i: nat)
    requires Fit(m, t) && DistinctBlocks(t) && |l| <= 1 && Acceptable(m, l)
    requires !OneChange(m, t) || !(ApplyWrites(m, l) == m || ApplyWrites(m, l) == ApplyWrites(m, TxnWrites(t)))
    ensures i <= |t.pages|
    ensures var x := ApplyWrites(ApplyWrites(m, TxnWrites(t)[..i]), l); x != m && x != ApplyWrites(m, TxnWrites(t))
  {
    hide ApplyWrites, Fit, DistinctBlocks;
    if !(ApplyWrites(m, l) == m || ApplyWrites(m, l) == ApplyWrites(m, TxnWrites(t))) {
      i := 0;
      assert ApplyWrites(m, TxnWrites(t)[..0]) == m by { NothingWritten(m, t); }
    } else {
      var x, y :| 0 <= x < y < |t.pages| && Changes(m, t, x) && Changes(m, t, y);
      i := UnsafeChanges(m, l, t, x, y);
    }
  }

  lemma NothingWritten(m: Blocks, t: Txn)
    ensures ApplyWrites(m, TxnWrites(t)[..0]) == m
  {
  }

  lemma UnsafeChanges(m: Blocks, l: seq<Write>, t: Txn, x: nat, y: nat) returns (i: nat)
    requires Fit(m, t) && DistinctBlocks(t) && |l| <= 1 && Acceptable(m, l)
    requires x < y < |t.pages| && Changes(m, t, x) && Changes(m, t, y)
    requires ApplyWrites(m, l) == m || ApplyWrites(m, l) == ApplyWrites(m, TxnWrites(t))
    ensures i <= |t.pages|
    ensures var z := ApplyWrites(ApplyWrites(m, TxnWrites(t)[..i]), l); z != m && z != ApplyWrites(m, TxnWrites(t))
  {
    hide ApplyWrites, Fit;
    var ws := TxnWrites(t);
    var n, p, q := ApplyWrites(m, ws), t.pages[x].0, t.pages[y].0;
    WrittenAtEnd(m, t, x);
    WrittenAtEnd(m, t, y);
    OneWriteAt(m, l);
    assert p != q;
    if l != [] && l[0].block == p {
      i := |t.pages|;
      assert ws[..i] == ws;
      OneWriteAt(n, l);
    } else {
      i := x + 1;
      WrittenLast(m, t, x);
      NotAmong(ws[..i], q);
      ApplyWritesAt(m, ws[..i], q);
      OneWriteAt(ApplyWrites(m, ws[..i]), l);
    }
  }

  /** With one page for each block: at most one page changes its block, and the redone image does no harm. */
  lemma StagesSafeWhen(m: Blocks, l: seq<Write>, t: Txn)
    requires Fit(m, t) && DistinctBlocks(t) && |l| <= 1 && Acceptable(m, l)
    ensures StagesSafe(m, l, t) <==> OneChange(m, t) && Harmless(m, l, t)
  {
    hide ApplyWrites, TxnWrites, Fit, DistinctBlocks, OneChange, Acceptable;
    if OneChange(m, t) && Harmless(m, l, t) {
      forall i: nat | i <= |t.pages| ensures Stage(m, l, t, i) == m || Stage(m, l, t, i) == ApplyWrites(m, TxnWrites(t)) {
        SafeStage(m, l, t, i);
      }
    } else {
      var i := UnsafeStage(m, l, t);
      assert Stage(m, l, t, i) != m;
    }
  }

  // ---- When a commit is atomic, as written ----

  /** Wherever the calls of the commit stop, recovery as written gives the old or the new blocks. */
  ghost predicate CrashProof(d: Disk, s: LogState, t: Txn)
    requires Sized(s)
  {
    forall k :: 0 <= k <= |CommitPlan(s, t)| ==> AllOrNothing(d, ApplyAll(d, CommitPlan(s, t)[..k]), t)
  }

  /**
   As written, a commit on a log in any state is atomic against every crash exactly when every stage of
   its in-place writes, with the image that recovery redoes on top, is the old or the new state.
   */
  lemma CommitAtomicWhen(d: Disk, s: LogState, us: Units, t: Txn)
    requires Takes(d, s, us, t)
    ensures CrashProof(d, s, t) <==> StagesSafe(d.blocks, RedoAsWritten(s, us), t)
  {
    hide Quiet, Fit, StagesSafe, AllOrNothing, CommitPlan, AddTxn, FirstLive;
    if StagesSafe(d.blocks, RedoAsWritten(s, us), t) {
      forall k | 0 <= k <= |CommitPlan(s, t)| ensures AllOrNothing(d, ApplyAll(d, CommitPlan(s, t)[..k]), t) {
        CommitSafeAt(d, s, us, t, k);
      }
    } else {
      var k := CommitFailsAt(d, s, us, t);
    }
  }

  /** With one page for each block that is: at most one page changes its block, and the redone image does no harm. */
  lemma DistinctAtomicWhen(d: Disk, s: LogState, us: Units, t: Txn)
    requires Takes(d, s, us, t) && DistinctBlocks(t)
    ensures CrashProof(d, s, t) <==> OneChange(d.blocks, t) && Harmless(d.blocks, RedoAsWritten(s, us), t)
  {
    hide Quiet, Fit, DistinctBlocks, OneChange, Harmless, CrashProof, AddTxn, StagesSafe, FirstLive, Acceptable;
    CommitAtomicWhen(d, s, us, t);
    RedoFits(d, s, us);
    StagesSafeWhen(d.blocks, RedoAsWritten(s, us), t);
  }

  lemma RedoFits(d: Disk, s: LogState, us: Units)
    requires Resting(d, s, us)
    ensures |RedoAsWritten(s, us)| <= 1 && Acceptable(d.blocks, RedoAsWritten(s, us))
  {
    hide Quiet, FirstLive;
    if s.state != LOGREDONE {
      FirstLiveIs(d, s, us);
    }
  }

  lemma CommitSafeAt(d: Disk, s: LogState, us: Units, t: Txn, k: nat)
    requires Takes(d, s, us, t) && StagesSafe(d.blocks, RedoAsWritten(s, us), t) && Sized(s) && k <= |CommitPlan(s, t)|
    ensures AllOrNothing(d, ApplyAll(d, CommitPlan(s, t)[..k]), t)
  {
    hide Quiet, Fit, AddTxn, CommitPlan, TxnWrites, ApplyWrites, Recover, FirstLive, PagesPlaced, Stage;
    var i := PagesPlaced(s, t, k);
    if s.state == LOGREDONE {
      ReplayedStage(d, s, t, k);
    } else {
      QuietStage(d, s, us, t, k);
    }
    assert Stage(d.blocks, RedoAsWritten(s, us), t, i) == d.blocks || Stage(d.blocks, RedoAsWritten(s, us), t, i) == ApplyWrites(d.blocks, TxnWrites(t));
  }

  /** On a log that is marked as replayed recovery gives the stage at which the commit stopped. */
  lemma ReplayedStage(d: Disk, s: LogState, t: Txn, k: nat)
    requires Sized(s) && d.state == s.state == LOGREDONE && Fit(d.blocks, t) && k <= |CommitPlan(s, t)|
    ensures var r := Recover(ApplyAll(d, CommitPlan(s, t)[..k]));
            r.Some? && r.value.blocks == Stage(d.blocks, [], t, PagesPlaced(s, t, k))
  {
    hide Fit, CommitPlan, TxnWrites, Recover, PagesPlaced;
    ReplayedCommit(d, s, t, k);
  }

  /** On a log that is to be replayed recovery gives that stage with the image of the first unit, or the new blocks. */
  lemma QuietStage(d: Disk, s: LogState, us: Units, t: Txn, k: nat)
    requires Quiet(d, s, us) && Fit(d.blocks, t) && UNIT * |AddTxn(us, s, t)| <= |d.log| && Sized(s) && k <= |CommitPlan(s, t)|
    ensures var r := Recover(ApplyAll(d, CommitPlan(s, t)[..k]));
            && r.Some?
            && (|| r.value.blocks == Stage(d.blocks, FirstLive(us), t, PagesPlaced(s, t, k))
                || (FirstLive(us) == [] && |t.pages| == 1 && r.value.blocks == ApplyWrites(d.blocks, TxnWrites(t))))
  {
    hide Quiet, Fit, AddTxn, LoggedPlan, BlockWrites, CommitPlan, TxnWrites, ApplyWrites, Recover, InPlace, FirstLive, Visible, Redoes;
    FirstLiveIs(d, s, us);
    var l, i := LoggedPlan(s, t), PagesPlaced(s, t, k);
    if k <= |l| {
      LoggingPrefix(d, s, t, k);
      LoggedPlanSome(s, t);
      var k' := if k == 0 then 0 else k - 1;
      var recs := LoggingView(d, s, us, t, k');
      assert ApplyWrites(d.blocks, TxnWrites(t)[..0]) == d.blocks by { NothingWritten(d.blocks, t); }
      RecoveredStage(d, s, us, t, ApplyAll(d, l[..k']), 0, recs);
    } else {
      InPlacePrefix(d, s, t, k, i);
      ReachInPlace(d, s, us, t, i);
      var c := ApplyAll(d, [FlushData] + l + BlockWrites(t)[..i]);
      InPlaceView(c, d, s, us, t, i);
      InPlaceBlocks(c, d, s, us, t, i);
      RecoveredStage(d, s, us, t, c, i, AddTxn(us, s, t)[0]);
    }
  }

  lemma InPlaceBlocks(c: Disk, d: Disk, s: LogState, us: Units, t: Txn, i: nat)
    requires Sized(s) && i <= |t.pages| && InPlace(c, d, s, us, t, i)
    ensures c.blocks == ApplyWrites(d.blocks, TxnWrites(t)[..i])
  {
  }

  /** Otherwise the machine can stop where recovery gives neither. */
  lemma CommitFailsAt(d: Disk, s: LogState, us: Units, t: Txn) returns (k: nat)
    requires Takes(d, s, us, t) && !StagesSafe(d.blocks, RedoAsWritten(s, us), t) && Sized(s)
    ensures k <= |CommitPlan(s, t)| && !AllOrNothing(d, ApplyAll(d, CommitPlan(s, t)[..k]), t)
  {
    hide Quiet, Fit, AddTxn, CommitPlan, TxnWrites, ApplyWrites, Recover, FirstLive, PagesPlaced, Stage, LoggedPlan;
    var l := RedoAsWritten(s, us);
    var i: nat :| i <= |t.pages| && Stage(d.blocks, l, t, i) != d.blocks && Stage(d.blocks, l, t, i) != ApplyWrites(d.blocks, TxnWrites(t));
    k := |LoggedPlan(s, t)| + 1 + i;
    PlacedAt(s, t, i);
    if s.state == LOGREDONE {
      ReplayedStage(d, s, t, k);
    } else {
      QuietStage(d, s, us, t, k);
      if l == [] && |t.pages| == 1 {
        OnePageStage(d.blocks, t, i);
        assert false;
      }
    }
  }

  lemma PlacedAt(s: LogState, t: Txn, i: nat)
    requires Sized(s) && i <= |t.pages|
    ensures |LoggedPlan(s, t)| + 1 + i <= |CommitPlan(s, t)| && PagesPlaced(s, t, |LoggedPlan(s, t)| + 1 + i) == i
  {
    hide LoggedPlan, BlockWrites;
  }

  lemma OnePageStage(m: Blocks, t: Txn, i: nat)
    requires |t.pages| == 1 && i <= 1
    ensures Stage(m, [], t, i) == m || Stage(m, [], t, i) == ApplyWrites(m, TxnWrites(t))
  {
    hide ApplyWrites;
    NothingWritten(m, t);
    NoWrites(ApplyWrites(m, TxnWrites(t)[..i]), []);
    assert TxnWrites(t)[..1] == TxnWrites(t);
  }

  /** On a new log, in whatever state, there is nothing to redo: the stages alone decide. */
  lemma FirstCommitAtomic(d: Disk, s: LogState, t: Txn)
    requires Fresh(d, s) && Fit(d.blocks, t) && (d.state != LOGREDONE ==> UNIT * |AddTxn([[]], s, t)| <= |d.log|)
    ensures CrashProof(d, s, t) <==> StagesSafe(d.blocks, [], t)
    ensures DistinctBlocks(t) ==> (CrashProof(d, s, t) <==> OneChange(d.blocks, t))
  {
    hide Quiet, Fit, DistinctBlocks, OneChange, CrashProof, AddTxn, LiveWrites, StagesSafe;
    if d.state != LOGREDONE {
      FreshIsQuiet(d, s);
      FirstLiveIs(d, s, [[]]);
    }
    CommitAtomicWhen(d, s, [[]], t);
    if DistinctBlocks(t) {
      NothingToDo(d.blocks);
      StagesSafeWhen(d.blocks, [], t);
    }
  }

  /** The outcome of the tail-skipping, first-met form is the state before or the state after. */
  ghost predicate AllOrNothingUnits(d: Disk, c: Disk, t: Txn) {
    var r := RecoverUnits(c);
    r.Some? && (r.value.blocks == d.blocks || r.value.blocks == ApplyWrites(d.blocks, TxnWrites(t)))
  }

  /**
   The intended form on a log in any state: atomic exactly when the log is to be replayed, or every stage
   of the in-place writes is the old or the new state.
   */
  lemma IntendedAtomicWhen(d: Disk, s: LogState, us: Units, t: Txn)
    requires Takes(d, s, us, t)
    ensures (forall k :: 0 <= k <= |CommitPlan(s, t)| ==> AllOrNothingUnits(d, ApplyAll(d, CommitPlan(s, t)[..k]), t))
       <==> s.state != LOGREDONE || StagesSafe(d.blocks, [], t)
  {
    hide Quiet, Fit, CommitPlan, AddTxn, AllOrNothing, StagesSafe, RecoverUnits, Recover, ApplyWrites, TxnWrites;
    if s.state == LOGREDONE {
      CommitAtomicWhen(d, s, us, t);
      forall k | 0 <= k <= |CommitPlan(s, t)|
        ensures AllOrNothing(d, ApplyAll(d, CommitPlan(s, t)[..k]), t) <==> AllOrNothingUnits(d, ApplyAll(d, CommitPlan(s, t)[..k]), t)
      {
        ReplayedCommit(d, s, t, k);
        SameOutcome(d, ApplyAll(d, CommitPlan(s, t)[..k]), t);
      }
    } else {
      forall k | 0 <= k <= |CommitPlan(s, t)| ensures AllOrNothingUnits(d, ApplyAll(d, CommitPlan(s, t)[..k]), t) {
        CommitAtomic(d, s, us, t, k);
      }
    }
  }

  lemma SameOutcome(d: Disk, c: Disk, t: Txn)
    requires LeftAlone(c)
    ensures AllOrNothing(d, c, t) <==> AllOrNothingUnits(d, c, t)
  {
    hide Recover, RecoverUnits;
  }

  // ---- When a finished commit lasts, as written ----

  /** What recovery as written makes of a resting disk. */
  lemma RestingRecovers(d: Disk, s: LogState, us: Units)
    requires Resting(d, s, us)
    ensures Recover(d).Some? && Recover(d).value.blocks == ApplyWrites(d.blocks, RedoAsWritten(s, us))
  {
    hide Quiet, Visible, Backward, FirstLive, ApplyWrites, Settled, Closed, Acceptable;
    if s.state == LOGREDONE {
      assert ApplyWrites(d.blocks, []) == d.blocks by { NothingToDo(d.blocks); }
    } else {
      QuietParts(d, s, us);
      SeesFirstUnit(d, s, us);
      FirstLiveIs(d, s, us);
    }
  }

  lemma {:induction false} MoreUnitsMoreRecords(us: Units)
    requires |us| > 1 && Last(us) != []
    ensures |us[0]| < |Records(us)|
  {
    FirstUnitLeads(Before(us));
  }

  /** The images that are live in the first unit once a transaction is logged. */
  lemma FirstLiveAfter(d: Disk, s: LogState, us: Units, t: Txn)
    requires Quiet(d, s, us) && Fit(d.blocks, t)
    ensures |AddTxn(us, s, t)| == 1 ==> FirstLive(AddTxn(us, s, t)) == FirstLive(us) + TxnWrites(t)
    ensures |AddTxn(us, s, t)| > 1 ==> FirstLive(AddTxn(us, s, t)) == FirstLive(us)
  {
    hide Quiet, Settled, AddTxn, TxnRecords, Records, Fit, TxnWrites, Closed, Pending, ImagesOf, LiveWrites, RedoRecords, Acceptable;
    QuietParts(d, s, us);
    var ws := AddTxn(us, s, t);
    FirstLiveIs(d, s, us);
    AddTxnFirst(us, s, t);
    AddTxnRecords(us, s, t);
    AddTxnEnds(us, s, t);
    FirstUnitLeads(ws);
    EmptyLog();
    if |us| == 1 {
      OneUnit(us, []);
      var u := us[0];
      if |ws| == 1 {
        OneUnit(ws, []);
        WholeIsClosed(s, d.blocks, t, u);
        assert ws[0] + [] == ws[0] && ws[0][..|ws[0]|] == ws[0];
        LiveAreImages(ws[0], [], |ws[0]|);
      } else {
        MoreUnitsMoreRecords(ws);
        var p := ws[0][|u|..];
        assert ws[0] == u + p;
        ShortPart(s, t, p);
        PartIsPending(s, d.blocks, t, p);
        LiveAreImages(u, p, |ws[0]|);
        assert u[..|u|] == u;
      }
    }
  }

  /**
   A finished commit survives recovery as written exactly when the log is marked as replayed, or still
   one unit, or redoing the image of the first unit over the new blocks changes nothing.
   */
  lemma FinishedSurvives(d: Disk, s: LogState, us: Units, t: Txn)
    requires Takes(d, s, us, t)
    ensures var c, now := ApplyAll(d, CommitPlan(s, t)), ApplyWrites(d.blocks, TxnWrites(t));
            && c.blocks == now && Recover(c).Some?
            && Resting(c, Logged(s, t), AddTxn(us, s, t))
            && (Recover(c).value.blocks == now
                <==> s.state == LOGREDONE || |AddTxn(us, s, t)| == 1 || ApplyWrites(now, FirstLive(us)) == now)
  {
    hide Quiet, Fit, AddTxn, CommitPlan, Logged, TxnWrites, ApplyWrites, Recover, FirstLive;
    LoggedState(s, t);
    if s.state == LOGREDONE {
      WholePlan(s, t);
      ReplayedCommit(d, s, t, |CommitPlan(s, t)|);
    } else {
      CommitKeepsQuiet(d, s, us, t);
      QuietState(ApplyAll(d, CommitPlan(s, t)), Logged(s, t), AddTxn(us, s, t));
    }
    RestingRecovers(ApplyAll(d, CommitPlan(s, t)), Logged(s, t), AddTxn(us, s, t));
    SurvivesIn(d, s, us, t);
  }

  lemma QuietState(d: Disk, s: LogState, us: Units)
    requires Quiet(d, s, us)
    ensures Sized(s) && d.state == s.state
  {
  }

  lemma SurvivesIn(d: Disk, s: LogState, us: Units, t: Txn)
    requires Takes(d, s, us, t)
    ensures var now := ApplyWrites(d.blocks, TxnWrites(t));
            ApplyWrites(now, RedoAsWritten(Logged(s, t), AddTxn(us, s, t))) == now
            <==> s.state == LOGREDONE || |AddTxn(us, s, t)| == 1 || ApplyWrites(now, FirstLive(us)) == now
  {
    hide Quiet, Fit, AddTxn, Logged, TxnWrites, ApplyWrites, FirstLive, Settled;
    LoggedState(s, t);
    var now, w, l := ApplyWrites(d.blocks, TxnWrites(t)), TxnWrites(t), FirstLive(us);
    NothingToDo(now);
    if s.state != LOGREDONE {
      FirstLiveAfter(d, s, us, t);
      if |AddTxn(us, s, t)| == 1 {
        AddTxnMore(us, s, t);
        FirstLiveIs(d, s, us);
        ApplyWritesConcat(d.blocks, l, w);
        AppliedTwice(d.blocks, l, w);
      }
    }
  }

  /** Images that change nothing, with later ones behind them, applied twice. */
  lemma AppliedTwice(m: Blocks, l: seq<Write>, w: seq<Write>)
    requires ApplyWrites(m, l) == m
    ensures ApplyWrites(ApplyWrites(m, w), l + w) == ApplyWrites(m, w)
  {
    RedoCompletes(m, l, w, |w|);
    assert w[..|w|] == w;
  }

  // ---- Whole runs, as written ----

  lemma {:induction false} RunFitsAt(d: Disk, s: LogState, us: Units, ts: seq<Txn>, n: nat)
    requires Sized(s) && n <= |ts| && AllFit(d.blocks, ts) && UNIT * |AddTxns(us, s, ts)| <= |d.log|
    ensures AllFit(d.blocks, ts[..n]) && UNIT * |AddTxns(us, s, ts[..n])| <= |d.log|
    decreases |ts|
  {
    hide AddTxns, AllFit;
    if n == |ts| {
      assert ts[..n] == ts;
    } else {
      RunFits(d, s, us, ts);
      RunFitsAt(d, s, us, ts[..|ts| - 1], n);
      assert ts[..|ts| - 1][..n] == ts[..n];
    }
  }

  /** Commit `i` of a run is crash-proof. */
  ghost predicate CrashProofAt(d: Disk, s: LogState, ts: seq<Txn>, i: nat)
    requires Sized(s) && i < |ts|
  {
    CrashProof(ApplyAll(d, RunPlan(s, ts[..i])), LoggedAll(s, ts[..i]), ts[i])
  }

  /** The condition on commit `i`, in terms of the blocks and the units the run has produced so far. */
  ghost predicate SafeAt(d: Disk, s: LogState, us: Units, ts: seq<Txn>, i: nat)
    requires Sized(s) && i < |ts|
  {
    StagesSafe(After(d.blocks, ts[..i]), RedoAsWritten(s, AddTxns(us, s, ts[..i])), ts[i])
  }

  /** A run that the volume can take; a log that is to be replayed needs room for its records. */
  ghost predicate TakesRun(d: Disk, s: LogState, us: Units, ts: seq<Txn>) {
    Resting(d, s, us) && AllFit(d.blocks, ts) && (s.state != LOGREDONE ==> UNIT * |AddTxns(us, s, ts)| <= |d.log|)
  }

  /** A run leads from a resting volume to a resting volume, with the images of its transactions in place. */
  lemma RunRests(d: Disk, s: LogState, us: Units, ts: seq<Txn>)
    requires TakesRun(d, s, us, ts)
    ensures var c := ApplyAll(d, RunPlan(s, ts));
            && Resting(c, LoggedAll(s, ts), AddTxns(us, s, ts)) && LoggedAll(s, ts).state == s.state
            && c.blocks == After(d.blocks, ts) && c.blocks.Keys == d.blocks.Keys && |c.log| == |d.log|
  {
    hide Quiet, AllFit, AddTxns, LoggedAll, RunPlan, After;
    LoggedAllState(s, ts);
    if s.state == LOGREDONE {
      ReplayedRunEnds(d, s, ts);
    } else {
      RunKeepsQuiet(d, s, us, ts);
      QuietState(ApplyAll(d, RunPlan(s, ts)), LoggedAll(s, ts), AddTxns(us, s, ts));
    }
  }

  /** As written, a run of commits is crash-proof exactly when every commit of it is safe where it stands. */
  lemma RunAtomicWhen(d: Disk, s: LogState, us: Units, ts: seq<Txn>)
    requires TakesRun(d, s, us, ts)
    ensures (forall i :: 0 <= i < |ts| ==> CrashProofAt(d, s, ts, i)) <==> (forall i :: 0 <= i < |ts| ==> SafeAt(d, s, us, ts, i))
  {
    hide Quiet, CrashProofAt, SafeAt, AllFit, AddTxns;
    forall i | 0 <= i < |ts| ensures CrashProofAt(d, s, ts, i) <==> SafeAt(d, s, us, ts, i) {
      RunCommitWhen(d, s, us, ts, i);
    }
  }

  lemma RunCommitWhen(d: Disk, s: LogState, us: Units, ts: seq<Txn>, i: nat)
    requires TakesRun(d, s, us, ts) && i < |ts|
    ensures CrashProofAt(d, s, ts, i) <==> SafeAt(d, s, us, ts, i)
  {
    hide Quiet, CrashProof, AddTxns, AddTxn, Fit, StagesSafe, RunPlan, LoggedAll, After, FirstLive;
    var init, t := ts[..i], ts[i];
    TakesFront(d, s, us, ts, i);
    RunRests(d, s, us, init);
    var d1 := ApplyAll(d, RunPlan(s, init));
    assert Fit(d.blocks, ts[i]);
    FitOnSameVolume(d.blocks, d1.blocks, t);
    CommitAtomicWhen(d1, LoggedAll(s, init), AddTxns(us, s, init), t);
  }

  lemma TakesFront(d: Disk, s: LogState, us: Units, ts: seq<Txn>, i: nat)
    requires TakesRun(d, s, us, ts) && i < |ts|
    ensures TakesRun(d, s, us, ts[..i])
    ensures s.state != LOGREDONE ==> UNIT * |AddTxn(AddTxns(us, s, ts[..i]), LoggedAll(s, ts[..i]), ts[i])| <= |d.log|
  {
    hide Quiet, AddTxns, AddTxn, Fit, LoggedAll, RunPlan, After;
    assert ts[..i + 1][..i] == ts[..i];
    RunUnfold(d, s, us, ts[..i + 1]);
    if s.state != LOGREDONE {
      RunFitsAt(d, s, us, ts, i);
      RunFitsAt(d, s, us, ts, i + 1);
    }
  }

  /** Every finished commit of a run survives recovery as written exactly when redoing its first unit changes nothing. */
  lemma RunSurvivesWhen(d: Disk, s: LogState, us: Units, ts: seq<Txn>)
    requires TakesRun(d, s, us, ts)
    ensures var c, now := ApplyAll(d, RunPlan(s, ts)), After(d.blocks, ts);
            && c.blocks == now && Recover(c).Some?
            && (Recover(c).value.blocks == now <==> ApplyWrites(now, RedoAsWritten(s, AddTxns(us, s, ts))) == now)
  {
    hide Quiet, AllFit, AddTxns, LoggedAll, RunPlan, After, Recover, ApplyWrites, FirstLive;
    RunRests(d, s, us, ts);
    RestingRecovers(ApplyAll(d, RunPlan(s, ts)), LoggedAll(s, ts), AddTxns(us, s, ts));
  }
}

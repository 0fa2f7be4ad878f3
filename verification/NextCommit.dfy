/**
 A commit that stops after any of its calls, followed by one that succeeds: when recovery brings the
 first one back.
 */
module NextCommit {
  import opened Bytes
  import opened Device
  import opened LogWriter
  import opened LogLayout
  import opened LogCrash
  import opened Recovery
  import opened CrashSafety
  import opened CommitShape
  import opened FirstUnit
  import opened AsWritten
  import opened FailedRuns

  /** A commit that stopped after `k` calls, and a complete one. */
  function FailedThenDone(s: LogState, t1: Txn, k: nat, end: nat, t2: Txn): (xs: seq<Attempt>)
    requires Sized(s)
    ensures |xs| == 2 && xs[0] == Attempt(t1, k, end) && xs[1].txn == t2
  {
    [Attempt(t1, k, end), Attempt(t2, |CommitPlan(StateAfter(s, t1, k, end), t2)|, 0)]
  }

  /** Both transactions are ones the volume can take, and find room in the log. */
  ghost predicate TwoFit(d: Disk, s: LogState, us: Units, t1: Txn, k: nat, end: nat, t2: Txn) {
    && Quiet(d, s, us) && Sized(s) && Fit(d.blocks, t1) && Fit(d.blocks, t2) && t1.tid % TWO32 != t2.tid % TWO32
    && k <= |CommitPlan(s, t1)| && UNIT * |AddTxn(us, s, t1)| <= |d.log|
    && (var x := Attempt(t1, k, end); UNIT * |AddTxn(AttemptUnits(us, s, x), AttemptState(s, x), t2)| <= |d.log|)
  }

  lemma TwoAttempts(d: Disk, s: LogState, us: Units, t1: Txn, k: nat, end: nat, t2: Txn)
    requires TwoFit(d, s, us, t1, k, end, t2)
    ensures var xs := FailedThenDone(s, t1, k, end, t2);
            Attempts(d, s, us, xs) && DistinctIds(xs) && LoggedAt(s, xs, 1) && xs[..2] == xs
    ensures var xs, ws, x := FailedThenDone(s, t1, k, end, t2), TxnWrites(t1), Attempt(t1, k, end);
            && RunImages(s, xs) == (if k > CommitPut(s, t1) then ws else []) + TxnWrites(t2)
            && Placed(d.blocks, s, xs) == ApplyWrites(ApplyWrites(d.blocks, ws[..PagesPlaced(s, t1, k)]), TxnWrites(t2))
  {
    hide Quiet, Fit, CommitPlan, AddTxn, LoggedPlan, CommitPut, StateAfter, AttemptUnits, TxnWrites, ApplyWrites, PagesPlaced;
    var xs, x := FailedThenDone(s, t1, k, end, t2), Attempt(t1, k, end);
    assert xs[..1] == [x] && xs[..2] == xs && [x][..0] == [];
    var s1, y := AttemptState(s, x), xs[1];
    assert RunState(s, [x]) == s1 by { assert RunState(s, []) == s; }
    assert RunUnits(us, s, [x]) == AttemptUnits(us, s, x) by { assert RunUnits(us, s, []) == us && RunState(s, []) == s; }
    assert RunImages(s, [x]) == if k > CommitPut(s, t1) then TxnWrites(t1) else [] by {
      assert RunImages(s, []) == [] && RunState(s, []) == s;
    }
    assert Placed(d.blocks, s, [x]) == ApplyWrites(d.blocks, TxnWrites(t1)[..PagesPlaced(s, t1, k)]) by {
      assert Placed(d.blocks, s, []) == d.blocks && RunState(s, []) == s;
    }
    assert Attempts(d, s, us, [x]) by { assert Attempts(d, s, us, []) && RunState(s, []) == s && RunUnits(us, s, []) == us; }
    WholeCommit(s1, t2);
  }

  lemma WholeCommit(s: LogState, t: Txn)
    requires Sized(s)
    ensures |CommitPlan(s, t)| > |LoggedPlan(s, t)| >= CommitPut(s, t)
    ensures TxnWrites(t)[..PagesPlaced(s, t, |CommitPlan(s, t)|)] == TxnWrites(t)
  {
    hide LoggedPlan, BlockWrites, CommitPut, CommitPlan;
    CommitPlanLonger(s, t);
    CommitPutEarly(s, t);
    WholePlan(s, t);
  }

  /** What recovery gives after a failure and a success. */
  lemma TwoRecover(d: Disk, s: LogState, us: Units, t1: Txn, k: nat, end: nat, t2: Txn)
    requires TwoFit(d, s, us, t1, k, end, t2)
    ensures var c := RunDisk(d, s, FailedThenDone(s, t1, k, end, t2));
            && c.blocks == ApplyWrites(ApplyWrites(d.blocks, TxnWrites(t1)[..PagesPlaced(s, t1, k)]), TxnWrites(t2))
            && RecoverUnits(c).Some?
            && RecoverUnits(c).value.blocks
               == ApplyWrites(d.blocks, (if k > CommitPut(s, t1) then TxnWrites(t1) else []) + TxnWrites(t2))
  {
    hide Quiet, Settled, Attempts, LoggedAt, RunDisk, Placed, RunImages, DistinctIds, RecoverUnits, ApplyWrites, TxnWrites, CommitPut, PagesPlaced, Fit, AddTxn,
         CommitPlan, FailedThenDone, AttemptUnits, AttemptState, Records;
    var xs := FailedThenDone(s, t1, k, end, t2);
    TwoAttempts(d, s, us, t1, k, end, t2);
    QuietParts(d, s, us);
    EndIsSet(d, s, us, xs);
    var n := FailedRunRecovers(d, s, us, xs);
  }

  /** A commit whose commit record was put into the log is redone with the next one, although it failed. */
  lemma FailedCommitReturns(d: Disk, s: LogState, us: Units, t1: Txn, k: nat, end: nat, t2: Txn)
    requires TwoFit(d, s, us, t1, k, end, t2) && k > CommitPut(s, t1)
    ensures var c := RunDisk(d, s, FailedThenDone(s, t1, k, end, t2));
            RecoverUnits(c).Some? && RecoverUnits(c).value.blocks == ApplyWrites(ApplyWrites(d.blocks, TxnWrites(t1)), TxnWrites(t2))
  {
    hide TwoFit, RunDisk, RecoverUnits, ApplyWrites, TxnWrites, CommitPut, PagesPlaced, FailedThenDone;
    TwoRecover(d, s, us, t1, k, end, t2);
    ApplyWritesConcat(d.blocks, TxnWrites(t1), TxnWrites(t2));
  }

  /** A commit that failed before that leaves no trace: recovery gives the blocks as they are. */
  lemma FailedCommitForgotten(d: Disk, s: LogState, us: Units, t1: Txn, k: nat, end: nat, t2: Txn)
    requires TwoFit(d, s, us, t1, k, end, t2) && k <= CommitPut(s, t1)
    ensures var c := RunDisk(d, s, FailedThenDone(s, t1, k, end, t2));
            && c.blocks == ApplyWrites(d.blocks, TxnWrites(t2))
            && RecoverUnits(c).Some? && RecoverUnits(c).value.blocks == c.blocks
  {
    hide TwoFit, RunDisk, RecoverUnits, ApplyWrites, TxnWrites, CommitPut, FailedThenDone, LoggedPlan;
    SizedOf(d, s, us, t1, k, end, t2);
    TwoRecover(d, s, us, t1, k, end, t2);
    CommitPutEarly(s, t1);
    NoWrites(d.blocks, TxnWrites(t1));
    assert [] + TxnWrites(t2) == TxnWrites(t2);
  }

  lemma SizedOf(d: Disk, s: LogState, us: Units, t1: Txn, k: nat, end: nat, t2: Txn)
    requires TwoFit(d, s, us, t1, k, end, t2)
    ensures Sized(s) && Fit(d.blocks, t1) && Fit(d.blocks, t2)
  {
  }

  /** Every block that the pages from `i` on still change is overwritten by the next commit. */
  ghost predicate Overwritten(m: Blocks, t1: Txn, i: nat, t2: Txn)
    requires i <= |t1.pages|
  {
    var a, b := ApplyWrites(m, TxnWrites(t1)[..i]), ApplyWrites(m, TxnWrites(t1));
    forall x: nat :: x in a && x in b && a[x] != b[x] ==> exists j :: 0 <= j < |t2.pages| && t2.pages[j].0 == x
  }

  /** With one page for each block: every page from `i` on that changes its block is overwritten. */
  lemma OverwrittenPages(m: Blocks, t1: Txn, i: nat, t2: Txn)
    requires Fit(m, t1) && DistinctBlocks(t1) && i <= |t1.pages|
    ensures Overwritten(m, t1, i, t2) <==>
            forall x :: i <= x < |t1.pages| && Changes(m, t1, x) ==> exists j :: 0 <= j < |t2.pages| && t2.pages[j].0 == t1.pages[x].0
  {
    hide ApplyWrites, Fit;
    var ws := TxnWrites(t1);
    var a, b := ApplyWrites(m, ws[..i]), ApplyWrites(m, ws);
    forall x | i <= x < |t1.pages| ensures var y := t1.pages[x].0; y in m && y in a && y in b && a[y] == m[y] && b[y] == t1.pages[x].1 {
      UntilWritten(m, t1, i, x);
      WrittenAtEnd(m, t1, x);
    }
    if forall x :: i <= x < |t1.pages| && Changes(m, t1, x) ==> exists j :: 0 <= j < |t2.pages| && t2.pages[j].0 == t1.pages[x].0 {
      forall y: nat | y in a && y in b && a[y] != b[y] ensures exists j :: 0 <= j < |t2.pages| && t2.pages[j].0 == y {
        var x := LaterPage(m, t1, i, y);
        assert Changes(m, t1, x);
      }
    }
  }

  lemma UntilWritten(m: Blocks, t: Txn, i: nat, x: nat)
    requires Fit(m, t) && DistinctBlocks(t) && i <= x < |t.pages|
    ensures var y, a := t.pages[x].0, ApplyWrites(m, TxnWrites(t)[..i]); y in m && y in a && a[y] == m[y]
  {
    hide ApplyWrites;
    var ws, y := TxnWrites(t)[..i], t.pages[x].0;
    NotAmong(ws, y);
    ApplyWritesAt(m, ws, y);
  }

  /** A block that still changes after page `i` is that of a later page. */
  lemma LaterPage(m: Blocks, t: Txn, i: nat, y: nat) returns (x: nat)
    requires i <= |t.pages|
    requires var a, b := ApplyWrites(m, TxnWrites(t)[..i]), ApplyWrites(m, TxnWrites(t)); y in a && y in b && a[y] != b[y]
    ensures i <= x < |t.pages| && t.pages[x].0 == y
  {
    hide ApplyWrites;
    var ws := TxnWrites(t);
    ApplyWritesConcat(m, ws[..i], ws[i..]);
    assert ws == ws[..i] + ws[i..];
    ApplyWritesAt(ApplyWrites(m, ws[..i]), ws[i..], y);
    var z := NewestIs(ws[i..], y);
    x := i + z;
    assert ws[x] == ws[i..][z];
  }

  lemma {:induction false} AmongNewest(ws: seq<Write>, j: nat)
    requires j < |ws|
    ensures Newest(ws, ws[j].block).Some?
    decreases |ws|
  {
    if j < |ws| - 1 {
      AmongNewest(ws[..|ws| - 1], j);
    }
  }

  /** The rest of the first transaction has no effect behind the second exactly when that overwrites it. */
  lemma RestLost(m: Blocks, t1: Txn, i: nat, t2: Txn)
    requires Fit(m, t1) && i <= |t1.pages|
    ensures var a, b := ApplyWrites(m, TxnWrites(t1)[..i]), ApplyWrites(m, TxnWrites(t1));
            ApplyWrites(b, TxnWrites(t2)) == ApplyWrites(a, TxnWrites(t2)) <==> Overwritten(m, t1, i, t2)
  {
    hide ApplyWrites, Fit;
    var w1, w2 := TxnWrites(t1), TxnWrites(t2);
    var a, b := ApplyWrites(m, w1[..i]), ApplyWrites(m, w1);
    FitAcceptable(m, t1);
    AcceptablePart(m, w1, i);
    ApplyWritesKeys(m, w1);
    ApplyWritesKeys(m, w1[..i]);
    assert forall x: nat :: x in a <==> x in b by { assert a.Keys == b.Keys; }
    if Overwritten(m, t1, i, t2) {
      forall x: nat | Newest(w2, x).None? ensures (x in b <==> x in a) && (x in b ==> b[x] == a[x]) {
        if x in a && a[x] != b[x] {
          var j :| 0 <= j < |t2.pages| && t2.pages[j].0 == x;
          AmongNewest(w2, j);
        }
      }
      SameImagesSameEffect(b, a, w2, w2);
    }
    if ApplyWrites(b, w2) == ApplyWrites(a, w2) {
      forall x: nat | x in a && x in b && a[x] != b[x] ensures exists j :: 0 <= j < |t2.pages| && t2.pages[j].0 == x {
        ApplyWritesAt(a, w2, x);
        ApplyWritesAt(b, w2, x);
        var j := NewestIs(w2, x);
        assert t2.pages[j].0 == x;
      }
    }
  }

  /**
   A commit stops after any of its calls, and the next one succeeds. Recovery then gives the blocks as
   they are exactly when the first stopped before its commit record was in the buffer, or the second
   overwrites every block that the first had still to change in place.
   */
  lemma FailureStays(d: Disk, s: LogState, us: Units, t1: Txn, k: nat, end: nat, t2: Txn)
    requires TwoFit(d, s, us, t1, k, end, t2)
    ensures var c := RunDisk(d, s, FailedThenDone(s, t1, k, end, t2));
            && c.blocks == ApplyWrites(ApplyWrites(d.blocks, TxnWrites(t1)[..PagesPlaced(s, t1, k)]), TxnWrites(t2))
            && RecoverUnits(c).Some?
            && (RecoverUnits(c).value.blocks == c.blocks
                <==> k <= CommitPut(s, t1) || Overwritten(d.blocks, t1, PagesPlaced(s, t1, k), t2))
  {
    hide TwoFit, RunDisk, RecoverUnits, ApplyWrites, TxnWrites, CommitPut, FailedThenDone, PagesPlaced, Overwritten, Fit;
    SizedOf(d, s, us, t1, k, end, t2);
    TwoRecover(d, s, us, t1, k, end, t2);
    if k <= CommitPut(s, t1) {
      FailedCommitForgotten(d, s, us, t1, k, end, t2);
    } else {
      FailedCommitReturns(d, s, us, t1, k, end, t2);
      RestLost(d.blocks, t1, PagesPlaced(s, t1, k), t2);
    }
  }
}

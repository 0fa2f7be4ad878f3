/**
 The device calls of a commit by their kind: the logging writes no metadata block, and no call changes
 the state of the log. So a log that is marked as replayed stays so, and recovery leaves it alone.
 */
module CommitShape {
  import opened Bytes
  import opened LogRecord
  import opened Device
  import opened LogWriter
  import opened Recovery
  import opened CrashSafety

  // ---- No metadata block before the logging is done ----

  predicate NoBlockWrites(es: seq<Event>) {
    forall i :: 0 <= i < |es| ==> !es[i].BlockWrite?
  }

  lemma FlushNoBlocks(s: LogState)
    requires Sized(s)
    ensures NoBlockWrites(FlushPlan(s))
  {
  }

  lemma RoomNoBlocks(s: LogState, size: nat)
    requires Sized(s)
    ensures NoBlockWrites(RoomPlan(s, size))
  {
    hide FlushPlan;
    FlushNoBlocks(s);
  }

  lemma {:induction false} AppendAllNoBlocks(s: LogState, tid: nat, pages: seq<(nat, Page)>)
    requires Sized(s)
    ensures NoBlockWrites(AppendAllPlan(s, tid, pages))
    decreases |pages|
  {
    hide RoomPlan, Append;
    if pages != [] {
      var m := |pages| - 1;
      AppendAllNoBlocks(s, tid, pages[..m]);
      RoomNoBlocks(AppendAll(s, tid, pages[..m]), LRD_SIZE + PAGE);
    }
  }

  /** The logging of a transaction writes no metadata block, and ends with a flush and the end pointer. */
  lemma LoggedPlanShape(s: LogState, t: Txn)
    requires Sized(s)
    ensures NoBlockWrites(LoggedPlan(s, t))
    ensures var l := LoggedPlan(s, t); |l| >= 3 && l[|l| - 3] == FlushMetadata && l[|l| - 2] == Sync && l[|l| - 1].SuperWrite?
  {
    hide AppendAll, AppendAllPlan, RoomPlan, PageWrites, Put, NextCommit;
    var s1 := AppendAll(s, t.tid, t.pages);
    AppendAllNoBlocks(s, t.tid, t.pages);
    RoomNoBlocks(s1, LRD_SIZE);
    FlushNoBlocks(Put(Room(s1, LRD_SIZE), NextCommit(s1, t.tid)));
  }

  lemma {:induction false} NoBlockWritesKeep(d: Disk, es: seq<Event>)
    requires NoBlockWrites(es)
    ensures ApplyAll(d, es).blocks == d.blocks
    decreases |es|
  {
    if es != [] {
      var n := |es| - 1;
      assert forall i :: 0 <= i < n ==> es[..n][i] == es[i];
      NoBlockWritesKeep(d, es[..n]);
    }
  }

  /** A commit that stops before its journal flush is complete has changed no metadata block. */
  lemma EarlyFailureKeepsBlocks(d: Disk, s: LogState, t: Txn, k: nat)
    requires Sized(s) && k <= 1 + |LoggedPlan(s, t)|
    ensures k <= |CommitPlan(s, t)| && ApplyAll(d, CommitPlan(s, t)[..k]).blocks == d.blocks
  {
    hide LoggedPlan, BlockWrites, ApplyAll;
    LoggedPlanShape(s, t);
    var l := LoggedPlan(s, t);
    var es := CommitPlan(s, t)[..k];
    forall i | 0 <= i < k ensures !es[i].BlockWrite? {
      assert es[i] == if i == 0 then FlushData else l[i - 1];
    }
    NoBlockWritesKeep(d, es);
  }

  // ---- The state of the log ----

  /** Every superblock write of the calls carries this state. */
  predicate KeepsState(es: seq<Event>, state: nat) {
    forall i :: 0 <= i < |es| && es[i].SuperWrite? ==> es[i].state == state
  }

  lemma {:induction false} StateKept(d: Disk, es: seq<Event>)
    requires KeepsState(es, d.state)
    ensures ApplyAll(d, es).state == d.state
    decreases |es|
  {
    if es != [] {
      var n := |es| - 1;
      assert forall i :: 0 <= i < n ==> es[..n][i] == es[i];
      StateKept(d, es[..n]);
    }
  }

  lemma StatesConcat(a: seq<Event>, b: seq<Event>, state: nat)
    requires KeepsState(a, state) && KeepsState(b, state)
    ensures KeepsState(a + b, state)
  {
  }

  lemma StatePrefix(es: seq<Event>, k: nat, state: nat)
    requires KeepsState(es, state) && k <= |es|
    ensures KeepsState(es[..k], state)
  {
    forall i | 0 <= i < k && es[..k][i].SuperWrite? ensures es[..k][i].state == state {
      assert es[..k][i] == es[i];
    }
  }

  lemma FlushState(s: LogState)
    requires Sized(s)
    ensures KeepsState(FlushPlan(s), s.state)
  {
  }

  lemma RoomState(s: LogState, size: nat)
    requires Sized(s)
    ensures KeepsState(RoomPlan(s, size), s.state)
  {
    hide FlushPlan;
    FlushState(s);
  }

  lemma {:induction false} AppendAllState(s: LogState, tid: nat, pages: seq<(nat, Page)>)
    requires Sized(s)
    ensures KeepsState(AppendAllPlan(s, tid, pages), s.state)
    decreases |pages|
  {
    hide RoomPlan, Append;
    if pages != [] {
      var m := |pages| - 1;
      AppendAllState(s, tid, pages[..m]);
      RoomState(AppendAll(s, tid, pages[..m]), LRD_SIZE + PAGE);
    }
  }

  /** The log manager writes back the state it has read. */
  lemma CommitState(s: LogState, t: Txn)
    requires Sized(s)
    ensures KeepsState(CommitPlan(s, t), s.state)
  {
    hide AppendAll, AppendAllPlan, RoomPlan, Put, NextCommit, FlushPlan, KeepsState;
    var s1 := AppendAll(s, t.tid, t.pages);
    var s2 := Put(Room(s1, LRD_SIZE), NextCommit(s1, t.tid));
    AppendAllState(s, t.tid, t.pages);
    RoomState(s1, LRD_SIZE);
    FlushState(s2);
    StatesConcat(RoomPlan(s1, LRD_SIZE), FlushPlan(s2), s.state);
    StatesConcat(AppendAllPlan(s, t.tid, t.pages), CommitRecordPlan(s1, t.tid), s.state);
    PlainState(t, s.state);
    StatesConcat([FlushData], LoggedPlan(s, t), s.state);
    StatesConcat([FlushData] + LoggedPlan(s, t), BlockWrites(t), s.state);
    StatesConcat([FlushData] + LoggedPlan(s, t) + BlockWrites(t), [FlushMetadata], s.state);
  }

  lemma PlainState(t: Txn, state: nat)
    ensures KeepsState([FlushData], state) && KeepsState(BlockWrites(t), state) && KeepsState([FlushMetadata], state)
  {
  }

  // ---- Logs marked as replayed ----

  /** Neither form of recovery does anything to this disk. */
  ghost predicate LeftAlone(c: Disk) {
    Recover(c) == Some(c) && RecoverUnits(c) == Some(c)
  }

  /** Pages in place when a commit stops after `k` calls. */
  function PagesPlaced(s: LogState, t: Txn, k: nat): (i: nat)
    requires Sized(s)
    ensures i <= |t.pages|
  {
    if k <= |LoggedPlan(s, t)| then 0 else Min(k - 1 - |LoggedPlan(s, t)|, |t.pages|)
  }

  /** The blocks wherever the calls of a commit stop. */
  lemma BlocksAt(d: Disk, s: LogState, t: Txn, k: nat)
    requires Sized(s) && Fit(d.blocks, t) && k <= |CommitPlan(s, t)|
    ensures ApplyAll(d, CommitPlan(s, t)[..k]).blocks == ApplyWrites(d.blocks, TxnWrites(t)[..PagesPlaced(s, t, k)])
  {
    hide LoggedPlan, BlockWrites, CommitPlan, ApplyWrites, TxnWrites, Fit;
    var l, i := LoggedPlan(s, t), PagesPlaced(s, t, k);
    if k <= |l| {
      EarlyFailureKeepsBlocks(d, s, t, k);
      NoWrites(d.blocks, TxnWrites(t));
    } else {
      InPlacePrefix(d, s, t, k, i);
      ApplyAllConcat(d, [FlushData] + l, BlockWrites(t)[..i]);
      var c := ApplyAll(d, [FlushData] + l);
      EarlyFailureKeepsBlocks(d, s, t, 1 + |l|);
      CommitFront(s, t);
      BlockWritesApply(c, t, i);
    }
  }

  lemma CommitFront(s: LogState, t: Txn)
    requires Sized(s)
    ensures 1 + |LoggedPlan(s, t)| <= |CommitPlan(s, t)| && CommitPlan(s, t)[..1 + |LoggedPlan(s, t)|] == [FlushData] + LoggedPlan(s, t)
  {
    hide LoggedPlan, BlockWrites;
  }

  lemma NoWrites(m: Blocks, ws: seq<Write>)
    ensures ApplyWrites(m, ws[..0]) == m
  {
  }

  /**
   A commit on a log that is marked as replayed, stopped anywhere: the mark stays, and recovery leaves
   whatever part of the pages was written in place.
   */
  lemma ReplayedCommit(d: Disk, s: LogState, t: Txn, k: nat)
    requires Sized(s) && d.state == s.state == LOGREDONE && Fit(d.blocks, t) && k <= |CommitPlan(s, t)|
    ensures var c := ApplyAll(d, CommitPlan(s, t)[..k]);
            && c.state == LOGREDONE && LeftAlone(c)
            && c.blocks == ApplyWrites(d.blocks, TxnWrites(t)[..PagesPlaced(s, t, k)])
  {
    hide CommitPlan, ApplyWrites, TxnWrites, Fit, LeftAlone, PagesPlaced;
    MarkStays(d, s, t, k);
    BlocksAt(d, s, t, k);
  }

  lemma MarkStays(d: Disk, s: LogState, t: Txn, k: nat)
    requires Sized(s) && d.state == s.state == LOGREDONE && k <= |CommitPlan(s, t)|
    ensures var c := ApplyAll(d, CommitPlan(s, t)[..k]); c.state == LOGREDONE && LeftAlone(c)
  {
    hide CommitPlan, KeepsState;
    CommitState(s, t);
    StatePrefix(CommitPlan(s, t), k, LOGREDONE);
    StateKept(d, CommitPlan(s, t)[..k]);
  }

  lemma {:induction false} LoggedAllState(s: LogState, ts: seq<Txn>)
    requires Sized(s)
    ensures LoggedAll(s, ts).state == s.state
    decreases |ts|
  {
    hide Logged;
    if ts != [] {
      LoggedAllState(s, ts[..|ts| - 1]);
      LoggedState(LoggedAll(s, ts[..|ts| - 1]), ts[|ts| - 1]);
    }
  }

  /** The state and the blocks a run of commits on such a log leaves, whether or not its records fit the log. */
  lemma {:induction false} ReplayedRunEnds(d: Disk, s: LogState, ts: seq<Txn>)
    requires Sized(s) && d.state == s.state == LOGREDONE && AllFit(d.blocks, ts)
    ensures var c := ApplyAll(d, RunPlan(s, ts));
            && c.state == LOGREDONE && c.blocks == After(d.blocks, ts) && c.blocks.Keys == d.blocks.Keys
    decreases |ts|
  {
    hide Fit, CommitPlan, TxnWrites, ApplyWrites, Logged, LoggedPlan, LeftAlone;
    if ts != [] {
      var init, t := ts[..|ts| - 1], ts[|ts| - 1];
      ReplayedRunEnds(d, s, init);
      LoggedAllState(s, init);
      var s1, d1 := LoggedAll(s, init), ApplyAll(d, RunPlan(s, init));
      FitOnSameVolume(d.blocks, d1.blocks, t);
      WholePlan(s1, t);
      ReplayedCommit(d1, s1, t, |CommitPlan(s1, t)|);
      ApplyAllConcat(d, RunPlan(s, init), CommitPlan(s1, t));
    }
  }

  lemma WholePlan(s: LogState, t: Txn)
    requires Sized(s)
    ensures CommitPlan(s, t)[..|CommitPlan(s, t)|] == CommitPlan(s, t)
    ensures TxnWrites(t)[..PagesPlaced(s, t, |CommitPlan(s, t)|)] == TxnWrites(t)
  {
    hide LoggedPlan, BlockWrites;
  }

  /** Call `k` of a run is call `j` of its commit `n`. */
  predicate CallOf(s: LogState, ts: seq<Txn>, k: nat, n: nat, j: nat)
    requires Sized(s)
  {
    n < |ts| && k == |RunPlan(s, ts[..n])| + j && j <= |CommitPlan(LoggedAll(s, ts[..n]), ts[n])|
  }

  /** The blocks when commit `n` of a run stops after `j` calls, without any recovery. */
  function BlocksWhen(m: Blocks, s: LogState, ts: seq<Txn>, n: nat, j: nat): Blocks
    requires Sized(s) && n < |ts|
  {
    ApplyWrites(After(m, ts[..n]), TxnWrites(ts[n])[..PagesPlaced(LoggedAll(s, ts[..n]), ts[n], j)])
  }

  /**
   A whole run on a log that is marked as replayed, stopped anywhere: recovery gives the blocks after the
   finished commits with some first pages of the next one in place, and redoes nothing.
   */
  lemma {:induction false} ReplayedRun(d: Disk, s: LogState, ts: seq<Txn>, k: nat) returns (n: nat, j: nat)
    requires Sized(s) && d.state == s.state == LOGREDONE && AllFit(d.blocks, ts) && ts != [] && k <= |RunPlan(s, ts)|
    ensures CallOf(s, ts, k, n, j)
    ensures var c := ApplyAll(d, RunPlan(s, ts)[..k]);
            c.state == LOGREDONE && LeftAlone(c) && c.blocks == BlocksWhen(d.blocks, s, ts, n, j)
    decreases |ts|
  {
    hide Fit, LoggedAll, RunPlan, After, LeftAlone, AllFit, CallOf, BlocksWhen, CommitPlan, TxnWrites, ApplyWrites, ApplyAll;
    var init := ts[..|ts| - 1];
    RunParts(s, ts);
    AllFitParts(d.blocks, ts);
    if k < |RunPlan(s, init)| {
      if init == [] {
        NoRun(s);
        assert false;
      }
      n, j := ReplayedRun(d, s, init, k);
      SameCall(d.blocks, s, ts, k, n, j);
      RunPlanFront(s, ts, k);
    } else {
      n, j := |init|, k - |RunPlan(s, init)|;
      ReplayedLast(d, s, ts, j);
    }
  }

  lemma SameCall(m: Blocks, s: LogState, ts: seq<Txn>, k: nat, n: nat, j: nat)
    requires Sized(s) && ts != [] && CallOf(s, ts[..|ts| - 1], k, n, j)
    ensures CallOf(s, ts, k, n, j) && BlocksWhen(m, s, ts[..|ts| - 1], n, j) == BlocksWhen(m, s, ts, n, j)
  {
    hide RunPlan, CommitPlan, LoggedAll, PagesPlaced, After, TxnWrites;
    assert ts[..|ts| - 1][..n] == ts[..n] && ts[..|ts| - 1][n] == ts[n];
  }

  lemma ReplayedLast(d: Disk, s: LogState, ts: seq<Txn>, j: nat)
    requires Sized(s) && d.state == s.state == LOGREDONE && AllFit(d.blocks, ts) && ts != []
    requires |RunPlan(s, ts[..|ts| - 1])| + j <= |RunPlan(s, ts)|
    ensures var n, k := |ts| - 1, |RunPlan(s, ts[..|ts| - 1])| + j;
            var c := ApplyAll(d, RunPlan(s, ts)[..k]);
            CallOf(s, ts, k, n, j) && c.state == LOGREDONE && LeftAlone(c) && c.blocks == BlocksWhen(d.blocks, s, ts, n, j)
  {
    hide Fit, CommitPlan, TxnWrites, ApplyWrites, LoggedAll, RunPlan, After, PagesPlaced, LeftAlone, AllFit, ApplyAll;
    var init, t := ts[..|ts| - 1], ts[|ts| - 1];
    RunParts(s, ts);
    AllFitParts(d.blocks, ts);
    var plan := RunPlan(s, init);
    ReplayedRunEnds(d, s, init);
    LoggedAllState(s, init);
    var s1, d1 := LoggedAll(s, init), ApplyAll(d, plan);
    FitOnSameVolume(d.blocks, d1.blocks, t);
    RunCut(d, plan, CommitPlan(s1, t), j);
    ReplayedCommit(d1, s1, t, j);
  }

  lemma NoRun(s: LogState)
    requires Sized(s)
    ensures RunPlan(s, []) == []
  {
  }

  lemma RunParts(s: LogState, ts: seq<Txn>)
    requires Sized(s) && ts != []
    ensures RunPlan(s, ts) == RunPlan(s, ts[..|ts| - 1]) + CommitPlan(LoggedAll(s, ts[..|ts| - 1]), ts[|ts| - 1])
  {
    hide CommitPlan, LoggedAll;
  }

  lemma RunCut(d: Disk, a: seq<Event>, b: seq<Event>, j: nat)
    requires j <= |b|
    ensures ApplyAll(d, (a + b)[..|a| + j]) == ApplyAll(ApplyAll(d, a), b[..j])
  {
    assert (a + b)[..|a| + j] == a + b[..j];
    ApplyAllConcat(d, a, b[..j]);
  }

  lemma AllFitParts(m: Blocks, ts: seq<Txn>)
    requires AllFit(m, ts) && ts != []
    ensures AllFit(m, ts[..|ts| - 1]) && Fit(m, ts[|ts| - 1])
  {
    hide Fit;
  }
}

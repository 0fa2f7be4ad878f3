/**
 Logs of commit records and page images in which some transactions never commit: how the images that are
 to be redone change with the records that are added.
 */
module LiveRecords {
  import opened LogRecord
  import opened Recovery
  import opened CrashSafety

  /** Commit records and page images only. */
  predicate Plain(recs: seq<Record>) {
    forall i :: 0 <= i < |recs| ==> KindOf(recs[i].lrd) == CommitKind || (KindOf(recs[i].lrd) == RedoKind && WritesImage(recs[i].lrd))
  }

  /** Some image of this transaction waits for a commit record. */
  ghost predicate Waits(recs: seq<Record>, tid: nat) {
    exists i :: 0 <= i < |recs| && KindOf(recs[i].lrd) == RedoKind && recs[i].lrd.logtid == tid && !CommittedAfter(recs, i, tid)
  }

  /** No commit record of `q` belongs to a transaction that waits in `r`. */
  ghost predicate Unrelated(r: seq<Record>, q: seq<Record>) {
    forall j :: 0 <= j < |q| && KindOf(q[j].lrd) == CommitKind ==> !Waits(r, q[j].lrd.logtid)
  }

  lemma CommittedStays(r: seq<Record>, q: seq<Record>, i: nat, tid: nat)
    requires i < |r| && CommittedAfter(r, i, tid)
    ensures CommittedAfter(r + q, i, tid)
  {
    hide KindOf;
    var j :| 0 <= j && i < j < |r| && KindOf(r[j].lrd) == CommitKind && r[j].lrd.logtid == tid;
    assert (r + q)[j] == r[j];
  }

  lemma CommittedBefore(r: seq<Record>, q: seq<Record>, i: nat, tid: nat)
    requires i < |r| && KindOf(r[i].lrd) == RedoKind && r[i].lrd.logtid == tid && Unrelated(r, q) && CommittedAfter(r + q, i, tid)
    ensures CommittedAfter(r, i, tid)
  {
    hide KindOf;
    var all := r + q;
    var j :| 0 <= j && i < j < |all| && KindOf(all[j].lrd) == CommitKind && all[j].lrd.logtid == tid;
    if j < |r| {
      assert r[j] == all[j];
    } else {
      assert q[j - |r|] == all[j];
      assert !Waits(r, q[j - |r|].lrd.logtid);
    }
  }

  lemma LiveKept(r: seq<Record>, q: seq<Record>, i: nat)
    requires Plain(r + q) && Unrelated(r, q) && i < |r|
    ensures Live(r + q, i) <==> Live(r, i)
  {
    hide KindOf, WritesImage, CommittedAfter, Unrelated;
    var all, tid := r + q, r[i].lrd.logtid;
    assert all[i] == r[i];
    assert forall j :: 0 <= j < |r| ==> all[j] == r[j];
    assert forall j :: 0 <= j < |all| ==> KindOf(all[j].lrd) != MountKind;
    if CommittedAfter(r, i, tid) {
      CommittedStays(r, q, i, tid);
    }
    if KindOf(r[i].lrd) == RedoKind && CommittedAfter(all, i, tid) {
      CommittedBefore(r, q, i, tid);
    }
  }

  lemma {:induction false} LiveFront(r: seq<Record>, q: seq<Record>, k: nat)
    requires Plain(r + q) && Unrelated(r, q) && k <= |r|
    ensures LiveWrites(r + q, k) == LiveWrites(r, k)
    decreases k
  {
    hide Live, Plain, Unrelated;
    if k > 0 {
      LiveFront(r, q, k - 1);
      LiveKept(r, q, k - 1);
      assert (r + q)[k - 1] == r[k - 1];
    }
  }

  /** Images behind the last commit record are not live. */
  lemma {:induction false} LivePending(r: seq<Record>, p: seq<Record>, k: nat)
    requires Plain(r + p) && Pending(p) && |r| <= k <= |r + p|
    ensures LiveWrites(r + p, k) == LiveWrites(r, |r|)
    decreases k
  {
    hide Live, Plain, KindOf;
    assert Unrelated(r, p);
    if k == |r| {
      LiveFront(r, p, k);
    } else {
      LivePending(r, p, k - 1);
      NotLive(r, p, k - 1);
    }
  }

  lemma NotLive(r: seq<Record>, p: seq<Record>, i: nat)
    requires Pending(p) && |r| <= i < |r + p|
    ensures !Live(r + p, i)
  {
    hide KindOf, WritesImage;
    assert forall j :: |r| <= j < |r + p| ==> (r + p)[j] == p[j - |r|];
  }

  /** The records of one transaction: its images, then perhaps its commit record. */
  ghost predicate OfTxn(p: seq<Record>, tid: nat) {
    forall i :: 0 <= i < |p| ==> p[i].lrd.logtid == tid && KindOf(p[i].lrd) == RedoKind && WritesImage(p[i].lrd)
  }

  /** A transaction with its commit record is live as a whole. */
  lemma {:induction false} LiveWhole(r: seq<Record>, p: seq<Record>, c: Record, k: nat)
    requires OfTxn(p, c.lrd.logtid) && KindOf(c.lrd) == CommitKind && !Waits(r, c.lrd.logtid)
    requires Plain(r + (p + [c])) && |r| <= k <= |r| + |p|
    ensures LiveWrites(r + (p + [c]), k) == LiveWrites(r, |r|) + ImagesOf(p[..k - |r|])
    decreases k
  {
    hide Live, Plain, KindOf, WritesImage, Waits, ImagesOf, OfTxn;
    var all := r + (p + [c]);
    if k == |r| {
      assert Unrelated(r, p + [c]) by { OnlyCommit(r, p, c); }
      LiveFront(r, p + [c], k);
      assert p[..0] == [];
      EmptyLog();
    } else {
      LiveWhole(r, p, c, k - 1);
      InWhole(r, p, c, k - 1);
      var n := k - |r|;
      assert p[..n][..n - 1] == p[..n - 1];
      ImagesLast(p[..n]);
    }
  }

  lemma OnlyCommit(r: seq<Record>, p: seq<Record>, c: Record)
    requires OfTxn(p, c.lrd.logtid) && !Waits(r, c.lrd.logtid)
    ensures Unrelated(r, p + [c])
  {
    hide KindOf, WritesImage, Waits;
  }

  lemma InWhole(r: seq<Record>, p: seq<Record>, c: Record, i: nat)
    requires OfTxn(p, c.lrd.logtid) && KindOf(c.lrd) == CommitKind && Plain(r + (p + [c])) && |r| <= i < |r| + |p|
    ensures Live(r + (p + [c]), i) && (r + (p + [c]))[i] == p[i - |r|] && KindOf(p[i - |r|].lrd) == RedoKind
  {
    hide KindOf, WritesImage;
    var all, last := r + (p + [c]), |r| + |p|;
    assert all[i] == p[i - |r|] && all[last] == c;
    assert forall j :: 0 <= j < |all| ==> KindOf(all[j].lrd) != MountKind;
  }

  lemma ImagesLast(u: seq<Record>)
    requires u != [] && KindOf(u[|u| - 1].lrd) == RedoKind
    ensures ImagesOf(u) == ImagesOf(u[..|u| - 1]) + [Write(u[|u| - 1].lrd.pxd.address, u[|u| - 1].data)]
  {
    hide KindOf;
  }

  lemma LiveEnd(r: seq<Record>, p: seq<Record>, c: Record)
    requires OfTxn(p, c.lrd.logtid) && KindOf(c.lrd) == CommitKind && !Waits(r, c.lrd.logtid) && Plain(r + (p + [c]))
    ensures var all := r + (p + [c]); LiveWrites(all, |all|) == LiveWrites(r, |r|) + ImagesOf(p)
  {
    hide Plain, WritesImage, Waits, ImagesOf, OfTxn, CommittedAfter, MountedAfter;
    var all := r + (p + [c]);
    LiveWhole(r, p, c, |r| + |p|);
    assert p[..|p|] == p;
    assert all[|all| - 1] == c;
  }

  lemma PlainJoin(r: seq<Record>, q: seq<Record>)
    requires Plain(r) && Plain(q)
    ensures Plain(r + q)
  {
    hide KindOf, WritesImage;
  }

  lemma OfTxnPlain(p: seq<Record>, tid: nat)
    requires OfTxn(p, tid)
    ensures Plain(p) && Pending(p)
  {
    hide KindOf, WritesImage;
  }

  lemma CommitPlain(c: Record)
    requires KindOf(c.lrd) == CommitKind
    ensures Plain([c])
  {
    hide KindOf, WritesImage;
  }

  /** Only the ids of `q` can begin to wait. */
  lemma WaitsLonger(r: seq<Record>, q: seq<Record>, tid: nat)
    requires Waits(r + q, tid)
    ensures Waits(r, tid) || exists j :: 0 <= j < |q| && q[j].lrd.logtid == tid
  {
    hide KindOf;
    var all := r + q;
    var i :| 0 <= i < |all| && KindOf(all[i].lrd) == RedoKind && all[i].lrd.logtid == tid && !CommittedAfter(all, i, tid);
    if i >= |r| {
      assert q[i - |r|].lrd.logtid == tid;
    } else {
      assert all[i] == r[i];
      NotYet(r, q, i, tid);
    }
  }

  lemma NotYet(r: seq<Record>, q: seq<Record>, i: nat, tid: nat)
    requires i < |r|
    ensures CommittedAfter(r, i, tid) ==> CommittedAfter(r + q, i, tid)
  {
    hide CommittedAfter;
    if CommittedAfter(r, i, tid) {
      CommittedStays(r, q, i, tid);
    }
  }
}

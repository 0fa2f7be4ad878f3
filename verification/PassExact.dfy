/**
 The backward pass on raw header words: which images of which logs reach their blocks, for every log, with
 mount records and with records that forbid redo.
 */
module PassExact {
  import opened Bytes
  import opened LogRecord
  import opened Device
  import opened LogScan
  import opened Recovery
  import opened CrashSafety

  // ---- What the words of a header mean ----

  /** Bit 15 of the kind: the transaction is committed. */
  predicate IsCommit(l: Lrd) {
    l.kind / 0x8000 % 2 == 1
  }

  /** Bit 13: the aggregate was mounted here, so nothing older is redone on it. */
  predicate IsMount(l: Lrd) {
    !IsCommit(l) && l.kind / 0x2000 % 2 == 1
  }

  /** Neither of these, nor a synchronisation point, which is bit 14. */
  predicate IsOther(l: Lrd) {
    l.kind / 0x8000 % 2 != 1 && l.kind / 0x2000 % 2 != 1 && l.kind / 0x4000 % 2 != 1
  }

  /** Bit 11: an after-image; it is written for page type 1 and for types with bit 7. */
  predicate HoldsImage(l: Lrd) {
    IsOther(l) && l.kind / 0x0800 % 2 == 1 && (l.pageType == 1 || l.pageType / 0x80 % 2 == 1)
  }

  /** Bit 7 names one page that is not to be redone; bit 6 names up to four pages of an inode extent. */
  predicate Forbids(l: Lrd, b: nat) {
    && IsOther(l) && l.kind / 0x0800 % 2 != 1
    && (if l.kind / 0x80 % 2 == 1 then b == l.pxd.address
        else l.kind / 0x40 % 2 == 1 && exists i: nat :: i < 4 && 4096 * i < l.pxd.length && b == l.pxd.address + 4096 * i)
  }

  // ---- What a log asks for ----

  /** A commit record of the transaction lies behind position `i`. */
  ghost predicate CommitBehind(recs: seq<Record>, i: int, tid: nat) {
    exists j :: 0 <= j && i < j < |recs| && IsCommit(recs[j].lrd) && recs[j].lrd.logtid == tid
  }

  /** A mount record of the aggregate lies behind position `i`. */
  ghost predicate MountBehind(recs: seq<Record>, i: int, aggregate: nat) {
    exists j :: 0 <= j && i < j < |recs| && IsMount(recs[j].lrd) && recs[j].lrd.aggregate == aggregate
  }

  /** Record `i` holds an image of a committed transaction on an aggregate that is not mounted later. */
  ghost predicate Redoable(recs: seq<Record>, i: nat)
    requires i < |recs|
  {
    var l := recs[i].lrd;
    HoldsImage(l) && CommitBehind(recs, i, l.logtid) && !MountBehind(recs, i, l.aggregate)
  }

  /** Record `j` of a committed transaction forbids redo of block `b`. */
  ghost predicate Forbidden(recs: seq<Record>, j: nat, b: nat)
    requires j < |recs|
  {
    Forbids(recs[j].lrd, b) && CommitBehind(recs, j, recs[j].lrd.logtid)
  }

  /** Record `k` makes the pass keep track of block `b`. */
  ghost predicate Tracks(recs: seq<Record>, k: nat, b: nat)
    requires k < |recs|
  {
    Forbidden(recs, k, b) || (Redoable(recs, k) && recs[k].lrd.pageType == 1 && recs[k].lrd.pxd.address == b)
  }

  ghost predicate TrackedFrom(recs: seq<Record>, k: int, b: nat) {
    exists y :: 0 <= y && k <= y < |recs| && Tracks(recs, y, b)
  }

  /** A record at or behind `k` forbids redo of a block that is tracked from behind it. */
  ghost predicate StoppedFrom(recs: seq<Record>, k: int, b: nat) {
    exists x :: 0 <= x && k <= x < |recs| && Forbidden(recs, x, b) && TrackedFrom(recs, x + 1, b)
  }

  /** The image of record `i` is written. */
  ghost predicate Written(recs: seq<Record>, i: nat)
    requires i < |recs|
  {
    Redoable(recs, i) && !StoppedFrom(recs, i + 1, recs[i].lrd.pxd.address)
  }

  /** The images that are written among the first `k` records, oldest first. */
  ghost function WrittenImages(recs: seq<Record>, k: nat): seq<Write>
    requires k <= |recs|
  {
    if k == 0 then [] else
    WrittenImages(recs, k - 1)
    + if Written(recs, k - 1) then [Write(recs[k - 1].lrd.pxd.address, recs[k - 1].data)] else []
  }

  // ---- The pass follows the words ----

  lemma KindIs(l: Lrd)
    ensures IsCommit(l) <==> KindOf(l) == CommitKind
    ensures IsMount(l) <==> KindOf(l) == MountKind
    ensures HoldsImage(l) <==> KindOf(l) == RedoKind && WritesImage(l)
    ensures (exists b: nat :: Forbids(l, b)) ==> KindOf(l) == NoRedoKind
  {
  }

  lemma ForbidsIs(l: Lrd, b: nat)
    ensures Forbids(l, b) <==> KindOf(l) == NoRedoKind && b in Marked(l)
  {
    if Forbids(l, b) && l.kind / 0x80 % 2 != 1 {
      var i: nat :| i < 4 && 4096 * i < l.pxd.length && b == l.pxd.address + 4096 * i;
      assert i < Min(4, (l.pxd.length + PAGE - 1) / PAGE) && b == l.pxd.address + PAGE * i;
    }
    if KindOf(l) == NoRedoKind && b in Marked(l) && l.kind / 0x80 % 2 != 1 {
      var i :| 0 <= i < Min(4, (l.pxd.length + PAGE - 1) / PAGE) && b == l.pxd.address + PAGE * i;
      assert i < 4 && 4096 * i < l.pxd.length && b == l.pxd.address + 4096 * i;
    }
  }

  /** State of the pass when the records from `k` on have been processed. */
  ghost predicate Passed(p: Pass, recs: seq<Record>, k: int) {
    && (forall t: nat :: t in p.commits <==> CommitBehind(recs, k - 1, t))
    && (forall a: nat :: a in p.clean <==> MountBehind(recs, k - 1, a))
    && (forall b: nat :: b in p.pages <==> TrackedFrom(recs, k, b))
    && (forall b: nat :: Complete(p, b) <==> StoppedFrom(recs, k, b))
  }

  lemma CommitStep(recs: seq<Record>, i: nat, t: nat)
    requires i < |recs|
    ensures CommitBehind(recs, i - 1, t) <==> CommitBehind(recs, i, t) || (IsCommit(recs[i].lrd) && recs[i].lrd.logtid == t)
  {
    hide IsCommit;
  }

  lemma MountStep(recs: seq<Record>, i: nat, a: nat)
    requires i < |recs|
    ensures MountBehind(recs, i - 1, a) <==> MountBehind(recs, i, a) || (IsMount(recs[i].lrd) && recs[i].lrd.aggregate == a)
  {
    hide IsMount;
  }

  lemma TrackStep(recs: seq<Record>, k: nat, b: nat)
    requires k < |recs|
    ensures TrackedFrom(recs, k, b) <==> TrackedFrom(recs, k + 1, b) || Tracks(recs, k, b)
    ensures StoppedFrom(recs, k, b) <==> StoppedFrom(recs, k + 1, b) || (Forbidden(recs, k, b) && TrackedFrom(recs, k + 1, b))
  {
    hide Tracks, Forbidden;
  }

  /** The words of the record at hand, in terms of the state. */
  lemma AtHand(p: Pass, recs: seq<Record>, k: nat)
    requires k < |recs| && Passed(p, recs, k + 1)
    ensures Redoable(recs, k) <==> Applies(p, recs[k].lrd)
    ensures forall b: nat :: Forbidden(recs, k, b) <==>
              KindOf(recs[k].lrd) == NoRedoKind && b in Marked(recs[k].lrd) && recs[k].lrd.logtid in p.commits
  {
    hide IsCommit, IsMount, HoldsImage, KindOf, WritesImage, Forbids, Marked;
    KindIs(recs[k].lrd);
    forall b: nat ensures Forbidden(recs, k, b) <==>
              KindOf(recs[k].lrd) == NoRedoKind && b in Marked(recs[k].lrd) && recs[k].lrd.logtid in p.commits {
      ForbidsIs(recs[k].lrd, b);
    }
  }

  /** What one record does to the tracked pages. */
  lemma PagesStep(p: Pass, l: Lrd, b: nat)
    ensures var q := Next(p, l);
            var no := KindOf(l) == NoRedoKind && b in Marked(l) && l.logtid in p.commits;
            var image := Applies(p, l) && l.pageType == LOG_INODE && l.pxd.address == b;
            && (b in q.pages <==> b in p.pages || no || (image && !Complete(p, b)))
            && (Complete(q, b) <==> Complete(p, b) || (no && b in p.pages))
  {
    hide KindOf, WritesImage, Marked;
  }

  lemma NextPassed(p: Pass, recs: seq<Record>, k: nat)
    requires k < |recs| && Passed(p, recs, k + 1)
    ensures Passed(Next(p, recs[k].lrd), recs, k)
    ensures Writes(p, recs[k]) == if Written(recs, k) then [Write(recs[k].lrd.pxd.address, recs[k].data)] else []
  {
    hide IsCommit, IsMount, HoldsImage, KindOf, WritesImage, Forbids, Marked, CommitBehind, MountBehind, TrackedFrom, StoppedFrom, Redoable, Forbidden, Applies,
         Complete, Next;
    var l := recs[k].lrd;
    var q := Next(p, l);
    AtHand(p, recs, k);
    KindIs(l);
    forall t: nat ensures t in q.commits <==> CommitBehind(recs, k - 1, t) {
      CommitStep(recs, k, t);
      SetsStep(p, l);
    }
    forall a: nat ensures a in q.clean <==> MountBehind(recs, k - 1, a) {
      MountStep(recs, k, a);
      SetsStep(p, l);
    }
    forall b: nat ensures (b in q.pages <==> TrackedFrom(recs, k, b)) && (Complete(q, b) <==> StoppedFrom(recs, k, b)) {
      TrackStep(recs, k, b);
      PagesStep(p, l, b);
      CompleteTracked(p, b);
    }
  }

  lemma SetsStep(p: Pass, l: Lrd)
    ensures forall t: nat :: t in Next(p, l).commits <==> t in p.commits || (KindOf(l) == CommitKind && l.logtid == t)
    ensures forall a: nat :: a in Next(p, l).clean <==> a in p.clean || (KindOf(l) == MountKind && l.aggregate == a)
  {
    hide KindOf, WritesImage, Marked;
  }

  lemma CompleteTracked(p: Pass, b: nat)
    ensures Complete(p, b) ==> b in p.pages
  {
  }

  lemma {:induction false} PassFrom(recs: seq<Record>, p: Pass, k: nat)
    requires k <= |recs| && Passed(p, recs, k)
    ensures Backward(recs[..k], p) == Reverse(WrittenImages(recs, k))
    decreases k
  {
    hide Passed, Writes, Next, Written;
    if k > 0 {
      var r := recs[k - 1];
      NextPassed(p, recs, k - 1);
      assert recs[..k][..k - 1] == recs[..k - 1];
      PassFrom(recs, Next(p, r.lrd), k - 1);
      if Written(recs, k - 1) {
        ReverseSnoc(WrittenImages(recs, k - 1), Write(r.lrd.pxd.address, r.data));
      } else {
        assert WrittenImages(recs, k - 1) + [] == WrittenImages(recs, k - 1);
      }
    }
  }

  /**
   The pass on any log: it writes, newest first, exactly the images whose transaction commits later, whose
   aggregate is not mounted later, and whose block is not forbidden by a later record that finds it tracked.
   */
  lemma PassWrites(recs: seq<Record>)
    ensures Backward(recs, FRESH) == Reverse(WrittenImages(recs, |recs|))
  {
    assert recs[..|recs|] == recs;
    PassFrom(recs, FRESH, |recs|);
  }

  /** In a log without records that forbid redo, live means redoable. */
  lemma LiveIsRedoable(recs: seq<Record>, i: nat)
    requires i < |recs|
    ensures Live(recs, i) <==> Redoable(recs, i)
  {
    hide IsCommit, IsMount, HoldsImage, KindOf, WritesImage;
    KindIs(recs[i].lrd);
    forall j | 0 <= j < |recs|
      ensures (IsCommit(recs[j].lrd) <==> KindOf(recs[j].lrd) == CommitKind) && (IsMount(recs[j].lrd) <==> KindOf(recs[j].lrd) == MountKind)
    {
      KindIs(recs[j].lrd);
    }
  }

  // ---- The blocks afterwards ----

  /** Record `i` holds the oldest image of block `b` that is written. */
  ghost predicate FirstWritten(recs: seq<Record>, i: nat, b: nat)
    requires i < |recs|
  {
    && Written(recs, i) && recs[i].lrd.pxd.address == b
    && forall j: nat :: j < i ==> !(Written(recs, j) && recs[j].lrd.pxd.address == b)
  }

  lemma {:induction false} OldestWritten(recs: seq<Record>, k: nat, b: nat)
    requires k <= |recs|
    ensures forall i: nat :: i < k && FirstWritten(recs, i, b) ==> Oldest(WrittenImages(recs, k), b) == Some(recs[i].data)
    ensures (forall i: nat :: i < k ==> !(Written(recs, i) && recs[i].lrd.pxd.address == b)) ==> Oldest(WrittenImages(recs, k), b).None?
    decreases k
  {
    hide Written;
    if k > 0 {
      OldestWritten(recs, k - 1, b);
      var ws := WrittenImages(recs, k - 1);
      if Written(recs, k - 1) {
        OldestSnoc(ws, Write(recs[k - 1].lrd.pxd.address, recs[k - 1].data), b);
      } else {
        assert ws + [] == ws;
      }
    }
  }

  /** After the pass each block holds the oldest image that is written to it, or what it held before. */
  lemma BlocksAfterPass(m: Blocks, recs: seq<Record>, b: nat)
    ensures var x := ApplyWrites(m, Backward(recs, FRESH));
            && (forall i: nat :: i < |recs| && FirstWritten(recs, i, b) ==> b in x && x[b] == recs[i].data)
            && ((forall i: nat :: i < |recs| ==> !(Written(recs, i) && recs[i].lrd.pxd.address == b)) ==>
                  (b in x <==> b in m) && (b in m ==> x[b] == m[b]))
  {
    hide Written, ApplyWrites, Backward, FirstWritten, Newest, Oldest;
    var ws := WrittenImages(recs, |recs|);
    PassWrites(recs);
    OldestWritten(recs, |recs|, b);
    NewestOfReverse(ws, b);
    ApplyWritesAt(m, Reverse(ws), b);
  }

  /** Recovery as written of any log it can read and redo: the blocks, and the mark that it was replayed. */
  lemma RecoverExact(d: Disk, recs: seq<Record>, b: nat)
    requires d.state != 1 && Visible(d) == Some(recs) && Acceptable(d.blocks, WrittenImages(recs, |recs|))
    ensures Recover(d).Some? && Recover(d).value.state == 1 && Recover(d).value.end == d.end
    ensures var x := Recover(d).value.blocks;
            && (forall i: nat :: i < |recs| && FirstWritten(recs, i, b) ==> b in x && x[b] == recs[i].data)
            && ((forall i: nat :: i < |recs| ==> !(Written(recs, i) && recs[i].lrd.pxd.address == b)) ==>
                  (b in x <==> b in d.blocks) && (b in d.blocks ==> x[b] == d.blocks[b]))
  {
    hide Written, ApplyWrites, Backward, FirstWritten, Visible, Acceptable, Reverse;
    PassWrites(recs);
    ReverseAcceptable(d.blocks, WrittenImages(recs, |recs|));
    BlocksAfterPass(d.blocks, recs, b);
  }
}

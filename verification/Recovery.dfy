/**
 Journal recovery: the backward pass over the scanned records, as written; the forward redo it is
 meant to equal; and when the two agree.
 */
module Recovery {
  import opened Bytes
  import opened LogRecord
  import opened Device

  /** A page image and the block it goes to. */
  datatype Write = Write(block: nat, data: seq<byte>)

  type Blocks = map<nat, seq<byte>>

  /**
   State of the backward pass: transactions whose commit record was met, aggregates whose mount record
   was met, and the page table with its summary byte for each tracked page.
   */
  datatype Pass = Pass(commits: set<nat>, clean: set<nat>, pages: map<nat, nat>)

  const FRESH := Pass({}, {}, map[])

  const COMPLETE := 0xff

  /** The kinds of record the pass tells apart, in the order of its tests. */
  datatype Kind = CommitKind | MountKind | SyncKind | RedoKind | NoRedoKind | OtherKind

  function KindOf(l: Lrd): Kind {
    if HasBit(l.kind, LOG_COMMIT) then CommitKind
    else if HasBit(l.kind, LOG_MOUNT) then MountKind
    else if HasBit(l.kind, LOG_SYNCPT) then SyncKind
    else if HasBit(l.kind, LOG_REDOPAGE) then RedoKind
    else if HasBit(l.kind, LOG_NOREDOPAGE) || HasBit(l.kind, LOG_NOREDOINOEXT) then NoRedoKind
    else OtherKind
  }

  /** Pages a no-redo record names: one page, or up to four pages of an inode extent. */
  function Marked(l: Lrd): set<nat> {
    if HasBit(l.kind, LOG_NOREDOPAGE) then {l.pxd.address}
    else set i | 0 <= i < Min(4, (l.pxd.length + PAGE - 1) / PAGE) :: l.pxd.address + PAGE * i
  }

  /** A no-redo record completes the pages that are tracked already and starts tracking the others. */
  function MarkPages(pages: map<nat, nat>, marked: set<nat>): map<nat, nat> {
    map b | b in pages.Keys + marked ::
      if b in marked then (if b in pages then COMPLETE else 0) else pages[b]
  }

  /** Whether the record's type names an image that is written. */
  predicate WritesImage(l: Lrd) {
    l.pageType == LOG_INODE || HasBit(l.pageType, LOG_DATA)
  }

  /** The record is a redo record of a committed transaction on an aggregate still to be redone. */
  predicate Applies(p: Pass, l: Lrd) {
    && KindOf(l) == RedoKind
    && l.logtid in p.commits
    && l.aggregate !in p.clean
    && WritesImage(l)
  }

  predicate Complete(p: Pass, block: nat) {
    block in p.pages && p.pages[block] == COMPLETE
  }

  /** Effect of one record on the state of the pass. */
  function Next(p: Pass, l: Lrd): Pass {
    match KindOf(l)
    case CommitKind => p.(commits := p.commits + {l.logtid})
    case MountKind => p.(clean := p.clean + {l.aggregate})
    case NoRedoKind =>
      if l.logtid in p.commits then p.(pages := MarkPages(p.pages, Marked(l))) else p
    case RedoKind =>
      var b := l.pxd.address;
      if Applies(p, l) && !Complete(p, b) && l.pageType == LOG_INODE
      then p.(pages := p.pages[b := if b in p.pages then 0x07 else 0]) else p
    case _ => p
  }

  /** The page write one record causes, if any. */
  function Writes(p: Pass, r: Record): seq<Write> {
    if Applies(p, r.lrd) && !Complete(p, r.lrd.pxd.address)
    then [Write(r.lrd.pxd.address, r.data)] else []
  }

  /** The page writes of the whole backward pass, in the order they are made. */
  function Backward(recs: seq<Record>, p: Pass): seq<Write>
    decreases |recs|
  {
    if recs == [] then [] else
    var r := recs[|recs| - 1];
    Writes(p, r) + Backward(recs[..|recs| - 1], Next(p, r.lrd))
  }

  function WriteEvents(ws: seq<Write>): (es: seq<Event>)
    ensures |es| == |ws|
  {
    seq(|ws|, i requires 0 <= i < |ws| => BlockWrite(ws[i].block, ws[i].data))
  }

  /** The device calls of a recovery that redoes `ws`. */
  function ReplayPlan(d: Disk, ws: seq<Write>): seq<Event> {
    WriteEvents(ws) + [SuperWrite(d.end, LOGREDONE)]
  }

  // ---- Reference: forward redo of the live records ----

  ghost predicate CommittedAfter(recs: seq<Record>, i: int, tid: nat) {
    exists j :: 0 <= j && i < j < |recs| && KindOf(recs[j].lrd) == CommitKind && recs[j].lrd.logtid == tid
  }

  ghost predicate MountedAfter(recs: seq<Record>, i: int, aggregate: nat) {
    exists j :: 0 <= j && i < j < |recs| && KindOf(recs[j].lrd) == MountKind && recs[j].lrd.aggregate == aggregate
  }

  /**
   Record `i` is to be redone: an image whose transaction commits later in the log and whose aggregate is
   not mounted later in the log.
   */
  ghost predicate Live(recs: seq<Record>, i: nat)
    requires i < |recs|
  {
    && KindOf(recs[i].lrd) == RedoKind
    && WritesImage(recs[i].lrd)
    && CommittedAfter(recs, i, recs[i].lrd.logtid)
    && !MountedAfter(recs, i, recs[i].lrd.aggregate)
  }

  /** The images of the live records among the first `k`, oldest first. */
  ghost function LiveWrites(recs: seq<Record>, k: nat): seq<Write>
    requires k <= |recs|
  {
    if k == 0 then [] else
    LiveWrites(recs, k - 1)
    + if Live(recs, k - 1) then [Write(recs[k - 1].lrd.pxd.address, recs[k - 1].data)] else []
  }

  function ApplyWrites(m: Blocks, ws: seq<Write>): Blocks
    decreases |ws|
  {
    if ws == [] then m else
    var w := ws[|ws| - 1];
    ApplyWrites(m, ws[..|ws| - 1])[w.block := w.data]
  }

  /** Redo as the log order has it: every live image, oldest to newest. */
  ghost function ForwardRedo(m: Blocks, recs: seq<Record>): Blocks {
    ApplyWrites(m, LiveWrites(recs, |recs|))
  }

  function Reverse(ws: seq<Write>): (r: seq<Write>)
    ensures |r| == |ws|
  {
    if ws == [] then [] else Reverse(ws[1..]) + [ws[0]]
  }

  /** No record of the list marks pages as not to be redone. */
  predicate NoMarks(recs: seq<Record>) {
    forall i :: 0 <= i < |recs| ==> KindOf(recs[i].lrd) != NoRedoKind
  }

  /** In such a pass no page ever counts as complete: the summary byte stays at 0 or 7. */
  predicate NeverComplete(p: Pass) {
    forall b :: b in p.pages ==> p.pages[b] == 0 || p.pages[b] == 0x07
  }

  /** State of the pass when the records `recs[k..]` have been processed. */
  ghost predicate Met(p: Pass, recs: seq<Record>, k: int) {
    && NeverComplete(p)
    && (forall t: nat :: t in p.commits <==> CommittedAfter(recs, k - 1, t))
    && (forall a: nat :: a in p.clean <==> MountedAfter(recs, k - 1, a))
  }

  lemma NextMeets(p: Pass, recs: seq<Record>, k: nat)
    requires 0 < k <= |recs| && Met(p, recs, k) && NoMarks(recs)
    ensures Met(Next(p, recs[k - 1].lrd), recs, k - 1)
    ensures Writes(p, recs[k - 1])
         == if Live(recs, k - 1) then [Write(recs[k - 1].lrd.pxd.address, recs[k - 1].data)] else []
  {
    hide KindOf, WritesImage;
    var l := recs[k - 1].lrd;
    var q := Next(p, l);
    forall t: nat ensures t in q.commits <==> CommittedAfter(recs, k - 2, t) {
      CommittedStep(recs, k - 1, t);
    }
    forall a: nat ensures a in q.clean <==> MountedAfter(recs, k - 2, a) {
      MountedStep(recs, k - 1, a);
    }
  }

  lemma CommittedStep(recs: seq<Record>, i: nat, t: nat)
    requires i < |recs|
    ensures CommittedAfter(recs, i - 1, t)
       <==> CommittedAfter(recs, i, t) || (KindOf(recs[i].lrd) == CommitKind && recs[i].lrd.logtid == t)
  {
  }

  lemma MountedStep(recs: seq<Record>, i: nat, a: nat)
    requires i < |recs|
    ensures MountedAfter(recs, i - 1, a)
       <==> MountedAfter(recs, i, a) || (KindOf(recs[i].lrd) == MountKind && recs[i].lrd.aggregate == a)
  {
  }

  lemma {:induction false} ReverseSnoc(ws: seq<Write>, w: Write)
    ensures Reverse(ws + [w]) == [w] + Reverse(ws)
  {
    if ws == [] {
      assert ws + [w] == [w] && Reverse([w]) == [w];
    } else {
      assert (ws + [w])[1..] == ws[1..] + [w];
      ReverseSnoc(ws[1..], w);
    }
  }

  /** The backward pass writes exactly the live images, newest first. */
  lemma {:induction false} BackwardIsReverse(recs: seq<Record>, p: Pass, k: nat)
    requires k <= |recs| && NoMarks(recs) && Met(p, recs, k)
    ensures Backward(recs[..k], p) == Reverse(LiveWrites(recs, k))
    decreases k
  {
    hide Met, NoMarks, Writes, Next, Live;
    if k > 0 {
      var r := recs[k - 1];
      NextMeets(p, recs, k);
      assert recs[..k][..k - 1] == recs[..k - 1];
      BackwardIsReverse(recs, Next(p, r.lrd), k - 1);
      if Live(recs, k - 1) {
        ReverseSnoc(LiveWrites(recs, k - 1), Write(r.lrd.pxd.address, r.data));
      } else {
        assert LiveWrites(recs, k - 1) + [] == LiveWrites(recs, k - 1);
      }
    }
  }

  lemma BackwardWritesLive(recs: seq<Record>)
    requires NoMarks(recs)
    ensures Backward(recs, FRESH) == Reverse(LiveWrites(recs, |recs|))
  {
    assert recs[..|recs|] == recs;
    BackwardIsReverse(recs, FRESH, |recs|);
  }

  // ---- Which image of a block survives ----

  function Newest(ws: seq<Write>, b: nat): Option<seq<byte>>
    decreases |ws|
  {
    if ws == [] then None
    else if ws[|ws| - 1].block == b then Some(ws[|ws| - 1].data)
    else Newest(ws[..|ws| - 1], b)
  }

  function Oldest(ws: seq<Write>, b: nat): Option<seq<byte>> {
    if ws == [] then None
    else if ws[0].block == b then Some(ws[0].data)
    else Oldest(ws[1..], b)
  }

  /** After a list of writes each block holds its last image, or what it held before. */
  lemma {:induction false} ApplyWritesAt(m: Blocks, ws: seq<Write>, b: nat)
    ensures b in ApplyWrites(m, ws) <==> b in m || Newest(ws, b).Some?
    ensures Newest(ws, b).Some? ==> ApplyWrites(m, ws)[b] == Newest(ws, b).value
    ensures Newest(ws, b).None? && b in m ==> ApplyWrites(m, ws)[b] == m[b]
    decreases |ws|
  {
    if ws != [] {
      ApplyWritesAt(m, ws[..|ws| - 1], b);
    }
  }

  /** Two lists of writes with the same last images have the same effect. */
  lemma SameImagesSameEffect(m: Blocks, m': Blocks, ws: seq<Write>, ws': seq<Write>)
    requires forall b: nat :: Newest(ws, b) == Newest(ws', b)
    requires forall b: nat :: Newest(ws, b).None? ==> (b in m <==> b in m') && (b in m ==> m[b] == m'[b])
    ensures ApplyWrites(m, ws) == ApplyWrites(m', ws')
  {
    hide ApplyWrites, Newest;
    var x, y := ApplyWrites(m, ws), ApplyWrites(m', ws');
    forall b: nat ensures (b in x <==> b in y) && (b in x ==> x[b] == y[b]) {
      ApplyWritesAt(m, ws, b);
      ApplyWritesAt(m', ws', b);
    }
    assert x.Keys == y.Keys;
  }

  lemma {:induction false} OldestSnoc(ws: seq<Write>, w: Write, b: nat)
    ensures Oldest(ws + [w], b)
         == if Oldest(ws, b).Some? then Oldest(ws, b) else if w.block == b then Some(w.data) else None
  {
    if ws == [] {
      assert ws + [w] == [w];
      assert Oldest([w][1..], b) == None;
    } else {
      assert (ws + [w])[1..] == ws[1..] + [w];
      OldestSnoc(ws[1..], w, b);
    }
  }

  lemma {:induction false} NewestOfReverse(ws: seq<Write>, b: nat)
    ensures Newest(Reverse(ws), b) == Oldest(ws, b)
  {
    if ws != [] {
      NewestOfReverse(ws[1..], b);
      var r := Reverse(ws[1..]);
      assert (r + [ws[0]])[..|r|] == r;
    }
  }

  lemma {:induction false} SomeOldestSomeNewest(ws: seq<Write>, b: nat)
    ensures Oldest(ws, b).Some? <==> Newest(ws, b).Some?
    decreases |ws|
  {
    if ws != [] {
      var init, w := ws[..|ws| - 1], ws[|ws| - 1];
      assert ws == init + [w];
      OldestSnoc(init, w, b);
      SomeOldestSomeNewest(init, b);
    }
  }

  /** As written, the pass leaves every block at its oldest live image. */
  lemma OldestSurvives(m: Blocks, recs: seq<Record>, b: nat)
    requires NoMarks(recs)
    ensures var x, ws := ApplyWrites(m, Backward(recs, FRESH)), LiveWrites(recs, |recs|);
            && (b in x <==> b in m || Oldest(ws, b).Some?)
            && (Oldest(ws, b).Some? ==> x[b] == Oldest(ws, b).value)
            && (Oldest(ws, b).None? && b in m ==> x[b] == m[b])
  {
    hide ApplyWrites, Newest, Oldest, Backward, LiveWrites;
    BackwardWritesLive(recs);
    NewestOfReverse(LiveWrites(recs, |recs|), b);
    ApplyWritesAt(m, Reverse(LiveWrites(recs, |recs|)), b);
  }

  /** Every block with several live images has the same oldest and newest one. */
  ghost predicate OneImagePerBlock(recs: seq<Record>) {
    forall b: nat :: Oldest(LiveWrites(recs, |recs|), b) == Newest(LiveWrites(recs, |recs|), b)
  }

  /** As written, the pass equals forward redo exactly when no block has two differing end images. */
  lemma BackwardEqualsForward(m: Blocks, recs: seq<Record>)
    requires NoMarks(recs)
    ensures ApplyWrites(m, Backward(recs, FRESH)) == ForwardRedo(m, recs) <==> OneImagePerBlock(recs)
  {
    hide ApplyWrites, Newest, Oldest, Backward, LiveWrites, NoMarks;
    var ws := LiveWrites(recs, |recs|);
    var back := Backward(recs, FRESH);
    BackwardWritesLive(recs);
    if OneImagePerBlock(recs) {
      forall b: nat ensures Newest(back, b) == Newest(ws, b) {
        NewestOfReverse(ws, b);
      }
      SameImagesSameEffect(m, m, back, ws);
    }
    if ApplyWrites(m, back) == ApplyWrites(m, ws) {
      forall b: nat ensures Oldest(ws, b) == Newest(ws, b) {
        SomeOldestSomeNewest(ws, b);
        NewestOfReverse(ws, b);
        ApplyWritesAt(m, ws, b);
        ApplyWritesAt(m, back, b);
      }
    }
  }

  /** Of a list of writes, those to blocks not written before. */
  function Once(ws: seq<Write>, done: set<nat>): seq<Write> {
    if ws == [] then []
    else if ws[0].block in done then Once(ws[1..], done)
    else [ws[0]] + Once(ws[1..], done + {ws[0].block})
  }

  lemma {:induction false} NewestCons(w: Write, ws: seq<Write>, b: nat)
    ensures Newest([w] + ws, b)
         == if Newest(ws, b).Some? then Newest(ws, b) else if w.block == b then Some(w.data) else None
    decreases |ws|
  {
    if ws == [] {
      assert [w] + ws == [w];
      assert Newest([w][..0], b) == None;
    } else {
      var init := ws[..|ws| - 1];
      assert ([w] + ws)[..|ws|] == [w] + init;
      NewestCons(w, init, b);
    }
  }

  lemma {:induction false} OnceKeepsOldest(ws: seq<Write>, done: set<nat>, b: nat)
    ensures Newest(Once(ws, done), b) == if b in done then None else Oldest(ws, b)
  {
    if ws != [] {
      if ws[0].block in done {
        OnceKeepsOldest(ws[1..], done, b);
      } else {
        var done' := done + {ws[0].block};
        OnceKeepsOldest(ws[1..], done', b);
        NewestCons(ws[0], Once(ws[1..], done'), b);
      }
    }
  }

  /**
   With each page written only by the first record met, as the page table is meant to ensure, one
   backward pass equals forward redo.
   */
  lemma FirstMetEqualsForward(m: Blocks, recs: seq<Record>)
    requires NoMarks(recs)
    ensures ApplyWrites(m, Once(Backward(recs, FRESH), {})) == ForwardRedo(m, recs)
  {
    hide ApplyWrites, Newest, Oldest, Backward, LiveWrites, NoMarks, Once;
    var ws := LiveWrites(recs, |recs|);
    BackwardWritesLive(recs);
    forall b: nat ensures Newest(Once(Reverse(ws), {}), b) == Newest(ws, b) {
      OnceKeepsOldest(Reverse(ws), {}, b);
      OldestOfReverse(ws, b);
    }
    SameImagesSameEffect(m, m, Once(Reverse(ws), {}), ws);
  }

  lemma {:induction false} OldestOfReverse(ws: seq<Write>, b: nat)
    ensures Oldest(Reverse(ws), b) == Newest(ws, b)
    decreases |ws|
  {
    if ws != [] {
      var init, w := ws[..|ws| - 1], ws[|ws| - 1];
      assert ws == init + [w];
      ReverseSnoc(init, w);
      OldestOfReverse(init, b);
      assert ([w] + Reverse(init))[1..] == Reverse(init);
    }
  }

  /** Writing part of a list first changes nothing about the whole list. */
  lemma PartThenWhole(m: Blocks, ws: seq<Write>, k: nat)
    requires k <= |ws|
    ensures ApplyWrites(ApplyWrites(m, ws[..k]), ws) == ApplyWrites(m, ws)
  {
    hide ApplyWrites, Newest;
    var m' := ApplyWrites(m, ws[..k]);
    forall b: nat | Newest(ws, b).None? ensures (b in m <==> b in m') && (b in m ==> m[b] == m'[b]) {
      NewestOfPart(ws, k, b);
      ApplyWritesAt(m, ws[..k], b);
    }
    SameImagesSameEffect(m', m, ws, ws);
  }

  lemma {:induction false} NewestOfPart(ws: seq<Write>, k: nat, b: nat)
    requires k <= |ws| && Newest(ws, b).None?
    ensures Newest(ws[..k], b).None?
    decreases |ws|
  {
    if k == |ws| {
      assert ws[..k] == ws;
    } else {
      NewestOfPart(ws[..|ws| - 1], k, b);
      assert ws[..|ws| - 1][..k] == ws[..k];
    }
  }
}

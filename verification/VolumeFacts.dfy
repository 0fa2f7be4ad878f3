/**
 What the operations of a volume do to sizes, link counts, handles and slots, in terms of the inodes and
 names before and after.
 */
module VolumeFacts {
  import opened Bytes
  import opened Extents
  import opened ExtentTable
  import opened Xtree
  import opened ExtentMove
  import opened Allocator
  import opened Ownership
  import opened FileData
  import opened VolumeModel
  import opened BlockSafety
  import opened BlockRuns
  import opened VolumeBytes

  // ---- Sizes ----

  /** The file reaches at least to `end`, is no shorter than before and no longer than it takes; others keep their size. */
  predicate SizeGrown(before: seq<Inode>, after: seq<Inode>, i: nat, end: nat) {
    && |after| == |before| && i < |before|
    && after[i].size >= before[i].size && after[i].size >= end
    && (after[i].size == before[i].size || after[i].size == end)
    && (forall j :: 0 <= j < |before| && j != i ==> after[j].size == before[j].size)
  }

  predicate SizesSame(before: seq<Inode>, after: seq<Inode>) {
    |after| == |before| && forall j :: 0 <= j < |before| ==> after[j].size == before[j].size
  }

  /** The file has exactly this size; others keep theirs. */
  predicate SizeSet(before: seq<Inode>, after: seq<Inode>, i: nat, size: nat) {
    && |after| == |before| && i < |before| && after[i].size == size
    && (forall j :: 0 <= j < |before| && j != i ==> after[j].size == before[j].size)
  }

  lemma WriteSizes(v: Vol, i: nat, off: nat, len: nat)
    requires i < |v.inodes|
    ensures var w := Perform(v, Write(i, off, len));
            if w.busy then SizesSame(v.inodes, w.inodes) else SizeGrown(v.inodes, w.inodes, i, off + len)
  {
    hide FirstHole, EndBlock, FirstFit, GrowRoot, Fill;
  }

  lemma AllocateSizes(v: Vol, i: nat, off: nat, len: nat, keep: bool)
    requires i < |v.inodes|
    ensures var w := Perform(v, Allocate(i, off, len, keep));
            if w.busy || keep then SizesSame(v.inodes, w.inodes) else SizeGrown(v.inodes, w.inodes, i, off + len)
  {
    hide Prealloc;
  }

  lemma ResizeSizes(v: Vol, i: nat, size: nat)
    requires i < |v.inodes|
    ensures var w := Perform(v, Resize(i, size));
            if w.busy then SizesSame(v.inodes, w.inodes) else SizeSet(v.inodes, w.inodes, i, size)
  {
    hide BlocksFor, CutRoot, All, FreeAll, FreedOf;
  }

  lemma PunchSizes(v: Vol, i: nat, off: nat, len: nat)
    requires i < |v.inodes|
    ensures SizesSame(v.inodes, Perform(v, PunchHole(i, off, len)).inodes)
  {
    hide BlocksFor, CutRoot, All, FreeAll, FreedOf;
  }

  lemma MoveSizes(v: Vol, src: nat, from: nat, dst: nat, to: nat, n: nat)
    requires src < |v.inodes| && dst < |v.inodes| && n > 0
    ensures var w := Perform(v, MoveRange(src, from, dst, to, n));
            if !v.busy && Move(v.inodes[src].root, TargetRoot(v, src, from, dst, n), from, to, n).Done?
            then SizeGrown(v.inodes, w.inodes, dst, (to + n) * PAGE) else SizesSame(v.inodes, w.inodes)
  {
    hide DoMove, Move, TargetRoot, CutRoot, FreeAll, Reclaim, FreedOf, All;
    DoMoveIs(v, src, from, dst, to, n);
  }

  /**
   Which bytes a change of size clears: whole blocks from the new end on when fewer blocks are left, and the
   rest of the last block when the file grows beyond it. So no byte in front of both sizes is cleared.
   */
  lemma ClearedIs(was: nat, size: nat, k: nat)
    ensures Cleared(was, size, k) <==>
            || ((size + 4095) / 4096 < (was + 4095) / 4096 && k / 4096 * 4096 >= size)
            || (size > (was + 4095) / 4096 * 4096 && was <= k && k / 4096 * 4096 < was)
    ensures k < size && k < was ==> !Cleared(was, size, k)
  {
  }

  // ---- Slots, names and links ----

  /** The first slot that is not in use, slot 2 excepted. */
  predicate FirstFree(inodes: seq<Inode>, slot: nat) {
    slot < |inodes| && !inodes[slot].live && slot != 2 && forall j :: 0 <= j < slot ==> inodes[j].live || j == 2
  }

  predicate NoneFree(inodes: seq<Inode>) {
    forall j :: 0 <= j < |inodes| ==> inodes[j].live || j == 2
  }

  lemma {:induction false} SlotFrom(inodes: seq<Inode>, i: nat)
    requires i <= |inodes| && forall j :: 0 <= j < i ==> inodes[j].live || j == 2
    ensures var slot := FirstUnused(inodes, i); if slot.Some? then FirstFree(inodes, slot.value) else NoneFree(inodes)
    decreases |inodes| - i
  {
    if i < |inodes| && (inodes[i].live || i == 2) {
      SlotFrom(inodes, i + 1);
    }
  }

  /** The slot a new file takes is the first that is free, and there is none only if all are in use. */
  lemma SlotIs(inodes: seq<Inode>)
    ensures var slot := FirstUnused(inodes, 0); if slot.Some? then FirstFree(inodes, slot.value) else NoneFree(inodes)
  {
    SlotFrom(inodes, 0);
  }

  /** A new file: live, one link, no bytes, the extents its slot still names; nothing else has changed. */
  predicate FileIn(before: seq<Inode>, after: seq<Inode>, slot: nat) {
    && |after| == |before| && slot < |before|
    && after[slot].live && after[slot].nlink == 1 && after[slot].size == 0 && after[slot].root == before[slot].root
    && (forall j :: 0 <= j < |before| && j != slot ==> after[j] == before[j])
  }

  /** One link more for the target; nothing else has changed. */
  predicate LinkedOnce(before: seq<Inode>, after: seq<Inode>, i: nat) {
    && |after| == |before| && i < |before|
    && after[i].nlink == before[i].nlink + 1
    && after[i].live == before[i].live && after[i].size == before[i].size && after[i].root == before[i].root
    && (forall j :: 0 <= j < |before| && j != i ==> after[j] == before[j])
  }

  /** The open handles on the inode's block of eight. */
  function Open8(handles: map<nat, nat>, i: nat): nat {
    if i / 8 in handles then handles[i / 8] else 0
  }

  /** One link less; the inode is given up, with its extents kept, when none is left and its block has no handle. */
  predicate UnlinkedOnce(before: seq<Inode>, after: seq<Inode>, i: nat, handles: map<nat, nat>) {
    && |after| == |before| && i < |before|
    && after[i].nlink == (if before[i].nlink == 0 then 0 else before[i].nlink - 1)
    && after[i].root == before[i].root
    && (if before[i].nlink <= 1 && Open8(handles, i) == 0 then !after[i].live && after[i].size == 0
        else after[i].live == before[i].live && after[i].size == before[i].size)
    && (forall j :: 0 <= j < |before| && j != i ==> after[j] == before[j])
  }

  /** One handle less on the inode's block, and not below none. */
  predicate HandleClosed(before: map<nat, nat>, after: map<nat, nat>, i: nat) {
    && after.Keys == before.Keys
    && (forall q :: q in before ==> after[q] == if q == i / 8 && before[q] > 0 then before[q] - 1 else before[q])
  }

  /** The inode is given up when it has no link and its block no handle; nothing else has changed. */
  predicate ReleasedIf(before: seq<Inode>, after: seq<Inode>, i: nat, gone: bool) {
    && |after| == |before| && i < |before|
    && after[i] == (if gone then before[i].(live := false) else before[i])
    && (forall j :: 0 <= j < |before| && j != i ==> after[j] == before[j])
  }

  lemma CreatedIs(v: Vol, name: Name, room: bool)
    requires !v.busy
    ensures var w, slot := Perform(v, Create(name, room)), FirstUnused(v.inodes, 0);
            && w.handles == v.handles && w.bits == v.bits
            && (slot.None? ==> w.inodes == v.inodes && w.names == v.names && w.busy)
            && (slot.Some? ==>
                  && !w.busy
                  && (if 1 <= |name.text| <= 11 then FileIn(v.inodes, w.inodes, slot.value) else w.inodes == v.inodes)
                  && w.names == (if 1 <= |name.text| <= 11 && name !in v.names && room then v.names[name := slot.value] else v.names))
  {
    hide FirstUnused;
    SlotUnused(v.inodes);
  }

  lemma UnlinkedIs(v: Vol, name: Name)
    requires !v.busy && name in v.names && v.names[name] < |v.inodes|
    ensures var w := Perform(v, Unlink(name));
            && w.handles == v.handles && !w.busy && w.names == v.names - {name}
            && UnlinkedOnce(v.inodes, w.inodes, v.names[name], v.handles)
  {
    hide FreedBy, FreeAll;
  }

  lemma ReleasedIs(v: Vol, i: nat)
    requires i < |v.inodes|
    ensures var w := Perform(v, Release(i));
            && w.names == v.names && w.busy == v.busy && HandleClosed(v.handles, w.handles, i)
            && ReleasedIf(v.inodes, w.inodes, i, !v.busy && v.inodes[i].nlink == 0 && Open8(w.handles, i) == 0)
  {
    hide FreedBy, FreeAll;
  }

  // ---- Punching and preallocating ----

  /** Block `b` is touched by a range of bytes that is not empty or begins inside it. */
  predicate Touched(b: nat, off: nat, len: nat) {
    off / 4096 <= b && b * 4096 < off + len
  }

  lemma TouchedIs(b: nat, off: nat, len: nat)
    ensures Touched(b, off, len) <==> off / PAGE <= b < BlocksFor(off + len)
  {
  }

  /** Every byte of the blocks that a range touches reads as zero; all other bytes of all files stay. */
  ghost predicate BytesPunched(v: Vol, d: Blocks, i: nat, off: nat, len: nat, w: Vol) {
    && IsLive(v, i) && |w.inodes| == |v.inodes|
    && (forall g: nat, k: nat :: IsLive(v, g) ==> BytePunched(v, d, i, off, len, w, g, k))
  }

  predicate BytePunched(v: Vol, d: Blocks, i: nat, off: nat, len: nat, w: Vol, g: nat, k: nat)
    requires |w.inodes| == |v.inodes| && IsLive(v, g)
  {
    FileByte(Table(w, g), d, k) == if g == i && Touched(k / 4096, off, len) then 0 else FileByte(Table(v, g), d, k)
  }

  /**
   A punch in a table without overlap and without an extent that sticks out on both sides clears whole
   blocks: also the bytes of its first and last block that lie outside the range.
   */
  lemma PunchBytes(v: Vol, d: Blocks, i: nat, off: nat, len: nat)
    requires Space(v) && IsLive(v, i) && !v.busy && Apart(Table(v, i)) && !SomeSpan(Table(v, i), off / PAGE, BlocksFor(off + len))
    ensures BytesPunched(v, d, i, off, len, Perform(v, PunchHole(i, off, len)))
  {
    hide Space, Apart, SomeSpan, Phys, BlocksFor, All, FreeAll, FreedOf, Stored, RootFine, Touched;
    var es, w := Table(v, i), Perform(v, PunchHole(i, off, len));
    RootAt(v, i);
    var a, end := off / PAGE, BlocksFor(off + len);
    if a < end {
      RootParts(v.inodes[i].root);
      PunchRight(a, end, es);
    }
    forall g: nat, k: nat | IsLive(v, g) ensures BytePunched(v, d, i, off, len, w, g, k) {
      TouchedIs(k / 4096, off, len);
      HoleByte(Table(w, g), d, k);
      if g == i && a < end {
        assert Table(w, i) == Stored(All(Punch(a, end), es).kept);
        assert Phys(Table(w, i), k / PAGE) == if Removed(Punch(a, end), k / PAGE) then None else Phys(es, k / PAGE);
      }
    }
  }

  lemma RootParts(r: Root)
    requires RootFine(r)
    ensures AllInSpace(r.entries) && |r.entries| <= SLOTS
  {
  }

  /** Every block that the range touches is mapped, or all slots of the root are in use. */
  ghost predicate RangeMapped(es: seq<Xad>, off: nat, len: nat) {
    forall b: nat :: Touched(b, off, len) ==> Phys(es, b).Some? || |es| == SLOTS
  }

  lemma GrownMaps(r: Root, c: nat, s: nat)
    requires RootFine(r) && MergeFits(r.entries, c, 1, s) && InSpace(Xad(1, c, 1, s))
    ensures var es := GrowRoot(r, c, 1, s).entries;
            && (forall b: int :: Phys(r.entries, b).Some? ==> Phys(es, b).Some?)
            && (Phys(es, c).Some? || |es| == SLOTS)
            && (|r.entries| == SLOTS ==> |es| == SLOTS)
  {
    hide Phys, InSpace, Inserted;
    RootParts(r);
    var ins := Inserted(r.entries, c, 1, s);
    InsertedCount(r.entries, c, s);
    if r.next <= XTROOTMAXSLOT && ins.Some? {
      InsertIsRight(r.entries, c, 1, s);
      assert forall b: int :: Phys(ins.value, b)
                == if Phys(r.entries, b).Some? then Phys(r.entries, b) else if c <= b < c + 1 then Some(s + (b - c)) else None;
      assert Phys(ins.value, c).Some?;
    }
  }

  lemma InsertedCount(es: seq<Xad>, c: nat, s: nat)
    ensures Inserted(es, c, 1, s).None? ==> |es| >= SLOTS
    ensures Inserted(es, c, 1, s).Some? && |es| == SLOTS ==> |Inserted(es, c, 1, s).value| == SLOTS
  {
  }

  /** After a preallocation that succeeds every block of its range is mapped, as long as the root has a slot. */
  lemma {:induction false} PreallocMaps(v: Vol, i: nat, c: nat, end: nat)
    requires Space(v) && IsLive(v, i) && c <= end <= TWO40 && RoomToMerge(Table(v, i), end - c)
    ensures var f := Prealloc(v.inodes[i].root, v.bits, c, end);
            && (forall b: int :: Phys(Table(v, i), b).Some? ==> Phys(f.root.entries, b).Some?)
            && (|Table(v, i)| == SLOTS ==> |f.root.entries| == SLOTS)
            && (f.ok ==> forall b: int :: c <= b < end ==> Phys(f.root.entries, b).Some? || |f.root.entries| == SLOTS)
    decreases end - c
  {
    hide Space, Phys, FirstFit, GrowRoot, RoomToMerge, AllAre, Fill, Keeps, MergeFits, InSpace, RootFine;
    var x := v.inodes[i];
    if c < end {
      if Phys(x.root.entries, c).Some? {
        MoreRoom(x.root.entries, end - c, end - c - 1);
        PreallocMaps(v, i, c + 1, end);
      } else if FirstFit(v.bits, 1, c).Some? {
        var s := FirstFit(v.bits, 1, c).value;
        FirstFitLegal(v.bits, 1, c);
        var y := x.(root := GrowRoot(x.root, c, 1, s));
        var w := Put(v, i, y).(bits := Fill(v.bits, Chunk(s, 1), false));
        GrowKeeps(v, i, c, 1, s, y);
        KeptSpace(v, w);
        GrownRoom(x.root, c, end, s);
        RootAt(v, i);
        InVolume(v, c, s);
        GrownMaps(x.root, c, s);
        PreallocMaps(w, i, c + 1, end);
      }
    }
  }

  lemma InVolume(v: Vol, c: nat, s: nat)
    requires Space(v) && c < TWO40 && AllAre(v.bits, Chunk(s, 1), true)
    ensures InSpace(Xad(1, c, 1, s))
  {
    hide Owned, RootsFine;
  }

  /** The preallocation of a range of bytes. */
  lemma AllocateMaps(v: Vol, i: nat, off: nat, len: nat, keep: bool)
    requires Space(v) && IsLive(v, i) && !v.busy
    requires off / PAGE < BlocksFor(off + len) ==>
               BlocksFor(off + len) <= TWO40 && RoomToMerge(Table(v, i), BlocksFor(off + len) - off / PAGE)
    ensures var w := Perform(v, Allocate(i, off, len, keep));
            !w.busy ==> |w.inodes| == |v.inodes| && RangeMapped(Table(w, i), off, len)
  {
    hide Space, Phys, Prealloc, RoomToMerge, BlocksFor, Touched;
    var c, end := off / PAGE, BlocksFor(off + len);
    var w := Perform(v, Allocate(i, off, len, keep));
    if !w.busy {
      if c < end {
        PreallocMaps(v, i, c, end);
      }
      var f := Prealloc(v.inodes[i].root, v.bits, c, end);
      assert Table(w, i) == f.root.entries;
      forall b: nat | Touched(b, off, len) ensures Phys(Table(w, i), b).Some? || |Table(w, i)| == SLOTS {
        TouchedIs(b, off, len);
        assert Phys(f.root.entries, b).Some? || |f.root.entries| == SLOTS;
      }
    }
  }

  // ---- The blocks a write takes ----

  predicate AllFree(bits: seq<bool>, s: nat, n: nat) {
    s + n <= |bits| && forall p :: s <= p < s + n ==> bits[p]
  }

  /** The first free run at or behind the hint, or the first of all if there is none behind it. */
  ghost predicate FirstRun(bits: seq<bool>, n: nat, hint: nat, s: nat) {
    AllFree(bits, s, n) && forall r: nat :: AllFree(bits, r, n) ==> if s >= hint then r < hint || s <= r else s <= r < hint
  }

  lemma FreeIs(bits: seq<bool>, s: nat, n: nat)
    ensures AllFree(bits, s, n) <==> AllAre(bits, Chunk(s, n), true)
  {
  }

  lemma FirstRunIs(bits: seq<bool>, n: nat, hint: nat)
    requires n > 0
    ensures var r := FirstFit(bits, n, hint); if r.Some? then FirstRun(bits, n, hint, r.value) else NoRun(bits, n)
  {
    hide AllAre, FitFrom, AllFree;
    FitFromLeast(bits, n, hint);
    FitFromLeast(bits, n, 0);
    forall s: nat ensures AllFree(bits, s, n) <==> AllAre(bits, Chunk(s, n), true) {
      FreeIs(bits, s, n);
    }
  }

  /** Exactly the blocks from `s` on are no longer free. */
  predicate TakenFrom(before: seq<bool>, after: seq<bool>, s: nat, n: nat) {
    |after| == |before| && forall p :: 0 <= p < |before| ==> after[p] == (before[p] && !(s <= p < s + n))
  }

  /**
   A write takes one run for everything from the first hole of its range on, the first free one that lies at
   or behind the hole's own number, and fails only if no run on the volume is long enough.
   */
  ghost predicate RunTaken(v: Vol, i: nat, off: nat, len: nat, w: Vol)
    requires i < |v.inodes|
  {
    var end := EndBlock(off, len);
    var h := FirstHole(Table(v, i), off / PAGE, end);
    if len == 0 || h == end then w.bits == v.bits && !w.busy
    else if w.busy then w.bits == v.bits && NoRun(v.bits, end - h)
    else TakesFirst(v.bits, w.bits, end - h, h)
  }

  ghost predicate NoRun(bits: seq<bool>, n: nat) {
    forall s: nat :: !AllFree(bits, s, n)
  }

  ghost predicate TakesFirst(before: seq<bool>, after: seq<bool>, n: nat, hint: nat) {
    exists s: nat :: FirstRun(before, n, hint, s) && TakenFrom(before, after, s, n)
  }

  lemma WriteTakes(v: Vol, i: nat, off: nat, len: nat)
    requires i < |v.inodes| && !v.busy
    ensures RunTaken(v, i, off, len, Perform(v, Write(i, off, len)))
  {
    hide FirstHole, EndBlock, FirstFit, GrowRoot, Fill, FirstRun, NoRun, TakenFrom;
    var end := EndBlock(off, len);
    var h := FirstHole(Table(v, i), off / PAGE, end);
    if len > 0 && h != end {
      HoleInside(Table(v, i), off / PAGE, end);
      FirstRunIs(v.bits, end - h, h);
      var s := FirstFit(v.bits, end - h, h);
      if s.Some? {
        FillIs(v.bits, s.value, end - h);
      }
    }
  }

  lemma FillIs(bits: seq<bool>, s: nat, n: nat)
    ensures TakenFrom(bits, Fill(bits, Chunk(s, n), false), s, n)
  {
  }
}

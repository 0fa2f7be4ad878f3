/**
 What operations of a volume do to the bytes of its files, the file itself and all others.
 */
module VolumeBytes {
  import opened Bytes
  import opened Device
  import opened Extents
  import opened ExtentTable
  import opened Xtree
  import opened ExtentMove
  import opened Allocator
  import opened Ownership
  import opened FileData
  import opened FileWrite
  import opened FileUpdate
  import opened VolumeModel
  import opened BlockSafety
  import opened BlockRuns

  function Table(v: Vol, i: nat): seq<Xad>
    requires i < |v.inodes|
  {
    v.inodes[i].root.entries
  }

  /** A block that is neither patched nor newly written keeps its content. */
  lemma FilledElsewhere(es: seq<Xad>, d: Blocks, off: nat, data: seq<byte>, h: nat, end: nat, s: nat, after: Blocks, p: nat)
    requires FileWrite.Filled(es, d, off, data, h, end, s, after) && p in d && (h < end ==> !(s <= p < s + (end - h)))
    requires forall b :: off / PAGE <= b < h ==> RunPhys(es, off / PAGE, b) != Some(p)
    ensures p in after && after[p] == d[p]
  {
    hide RunPhys, WriteMapped, WriteFresh;
    MappedMiss(es, d, off, data, off / PAGE, h, p);
    if h < end {
      FreshAt(WriteMapped(es, d, off, data, off / PAGE, h), s, off, data, h, h, end, p);
    }
  }

  /** A write to one file changes no byte of another. */
  lemma OthersUntouched(v: Vol, d: Blocks, f: nat, g: nat, off: nat, data: seq<byte>, h: nat, end: nat, s: nat, after: Blocks, k: nat)
    requires Space(v) && IsLive(v, f) && IsLive(v, g) && f != g
    requires FileWrite.Filled(Table(v, f), d, off, data, h, end, s, after)
    requires h < end ==> AllAre(v.bits, Chunk(s, end - h), true)
    requires after.Keys == d.Keys
    ensures FileByte(Table(v, g), after, k) == FileByte(Table(v, g), d, k)
  {
    hide Owned, RootsFine, Phys, FileWrite.Filled, RunPhys, BlocksOf;
    var q := Phys(Table(v, g), k / PAGE);
    if q.Some? && q.value in d {
      var p, own := q.value, Claims(v.inodes);
      MappedClaimed(Table(v, g), k / PAGE);
      OwnedMeans(own, v.bits, g, p);
      assert p !in own[f] && own[f] == BlocksOf(Table(v, f));
      forall b | off / PAGE <= b < h ensures RunPhys(Table(v, f), off / PAGE, b) != Some(p) {
        if RunPhys(Table(v, f), off / PAGE, b) == Some(p) {
          RunClaimed(Table(v, f), off / PAGE, b);
        }
      }
      FilledElsewhere(Table(v, f), d, off, data, h, end, s, after, p);
    }
  }

  /** The volume has a run for the part of the range behind the first hole, and the table takes it. */
  predicate TakesRun(v: Vol, i: nat, off: nat, len: nat)
    requires i < |v.inodes|
  {
    var end := EndBlock(off, len);
    var h := FirstHole(Table(v, i), off / PAGE, end);
    h < end && FirstFit(v.bits, end - h, h).Some? && CanAdd(Table(v, i), v.inodes[i].root.next, h, FirstFit(v.bits, end - h, h).value)
  }

  /** A merge with the last extent keeps its length below 2^24. */
  predicate MergesWell(v: Vol, i: nat, off: nat, len: nat)
    requires i < |v.inodes|
  {
    var end := EndBlock(off, len);
    var h := FirstHole(Table(v, i), off / PAGE, end);
    h < end && FirstFit(v.bits, end - h, h).Some? ==>
      MergeFits(Table(v, i), h, end - h, FirstFit(v.bits, end - h, h).value) && end - h < TWO24
  }

  /** Effect of a write on the bytes of all files: those that land in the file change, and nothing else does. */
  ghost predicate BytesWritten(v: Vol, d: Blocks, i: nat, off: nat, data: seq<byte>, w: Vol, e: Blocks) {
    && IsLive(v, i) && |w.inodes| == |v.inodes|
    && (forall g: nat, k: nat :: IsLive(v, g) ==> ByteWritten(v, d, i, off, data, w, e, g, k))
  }

  predicate ByteWritten(v: Vol, d: Blocks, i: nat, off: nat, data: seq<byte>, w: Vol, e: Blocks, g: nat, k: nat)
    requires IsLive(v, i) && |w.inodes| == |v.inodes| && IsLive(v, g)
  {
    FileByte(Table(w, g), e, k)
    == if g == i && off <= k < off + |data|
         && Lands(Table(v, i), off / PAGE, HoleOf(Table(v, i), off, data), TakesRun(v, i, off, |data|), k / PAGE)
       then data[k - off] else FileByte(Table(v, g), d, k)
  }

  /** The device is large enough, and block 0 is never handed out. */
  ghost predicate DeviceFits(v: Vol, d: Blocks) {
    (forall p: nat :: p < |v.bits| ==> p in d) && (|v.bits| > 0 ==> !v.bits[0])
  }

  lemma NewRunFits(v: Vol, i: nat, d: Blocks, h: nat, n: nat)
    requires Space(v) && IsLive(v, i) && DeviceFits(v, d) && n > 0 && FirstFit(v.bits, n, h).Some?
    requires h + n <= TWO40 && n < TWO24
    ensures var s := FirstFit(v.bits, n, h).value;
            && AllAre(v.bits, Chunk(s, n), true) && s > 0
            && NewRun(Table(v, i), d, s, n) && InSpace(Xad(1, h, n, s))
  {
    hide Owned, RootsFine, NewRun, FirstFit, ClaimsOnce;
    FirstFitLegal(v.bits, n, h);
    SpaceIsSound(v, i, d);
  }

  /** The table of a successful write is the one the byte-level description assumes. */
  lemma WriteGrows(v: Vol, i: nat, off: nat, data: seq<byte>, s: nat)
    requires IsLive(v, i) && !v.busy && data != [] && MergesWell(v, i, off, |data|)
    requires var h := HoleOf(Table(v, i), off, data);
             h < EndBlock(off, |data|) && FirstFit(v.bits, EndBlock(off, |data|) - h, h) == Some(s)
    ensures var w, h, end := Perform(v, Write(i, off, |data|)), HoleOf(Table(v, i), off, data), EndBlock(off, |data|);
            && |w.inodes| == |v.inodes|
            && (forall g: nat :: g < |v.inodes| && g != i ==> Table(w, g) == Table(v, g))
            && Grows(Table(v, i), v.inodes[i].root.next, h, end, s, Table(w, i))
            && TakesRun(v, i, off, |data|) == Added(Table(v, i), v.inodes[i].root.next, h, end, s)
            && end - h < TWO24
  {
    hide FirstHole, FirstFit, EndBlock, Fill, Inserted, CanAdd;
    var h, end := HoleOf(Table(v, i), off, data), EndBlock(off, |data|);
    CanAddIs(Table(v, i), v.inodes[i].root.next, h, end - h, s);
  }

  lemma WriteInPlace(v: Vol, i: nat, off: nat, data: seq<byte>, s: nat)
    requires IsLive(v, i) && !v.busy && data != [] && HoleOf(Table(v, i), off, data) == EndBlock(off, |data|)
    ensures var w, h, end := Perform(v, Write(i, off, |data|)), HoleOf(Table(v, i), off, data), EndBlock(off, |data|);
            && |w.inodes| == |v.inodes| && (forall g: nat :: g < |v.inodes| ==> Table(w, g) == Table(v, g))
            && Grows(Table(v, i), v.inodes[i].root.next, h, end, s, Table(w, i))
            && !TakesRun(v, i, off, |data|) && !Added(Table(v, i), v.inodes[i].root.next, h, end, s)
  {
    hide FirstHole, FirstFit, EndBlock;
  }

  lemma FilledKeys(es: seq<Xad>, d: Blocks, off: nat, data: seq<byte>, h: nat, end: nat, s: nat, after: Blocks)
    requires FileWrite.Filled(es, d, off, data, h, end, s, after)
    ensures after.Keys == d.Keys
  {
  }

  /** A write that succeeds has exactly that effect, however the extents of the file overlap. */
  lemma WriteBytes(v: Vol, d: Blocks, i: nat, off: nat, data: seq<byte>, s: nat, e: Blocks)
    requires Space(v) && DeviceFits(v, d) && IsLive(v, i) && !v.busy && data != [] && EndBlock(off, |data|) <= TWO40
    requires Backed(Table(v, i), d) && MergesWell(v, i, off, |data|)
    requires var h, end := HoleOf(Table(v, i), off, data), EndBlock(off, |data|);
             FileWrite.Filled(Table(v, i), d, off, data, h, end, s, e)
             && (h < end ==> FirstFit(v.bits, end - h, h) == Some(s))
    ensures BytesWritten(v, d, i, off, data, Perform(v, Write(i, off, |data|)), e)
  {
    hide Space, Phys, FirstHole, FirstFit, EndBlock, FileWrite.Filled, Perform, Backed, FileByte, DeviceFits, Grows, TakesRun, Added, MergesWell,
         NewRun, ClaimsOnce, AllAre, Lands, AllInSpace, InSpace;
    var es, h, end := Table(v, i), HoleOf(Table(v, i), off, data), EndBlock(off, |data|);
    var w := Perform(v, Write(i, off, |data|));
    FilledKeys(es, d, off, data, h, end, s, e);
    SpaceIsSound(v, i, d);
    if h < end {
      WriteGrows(v, i, off, data, s);
      NewRunFits(v, i, d, h, end - h);
    } else {
      WriteInPlace(v, i, off, data, s);
    }
    forall g: nat, k: nat | IsLive(v, g)
      ensures ByteWritten(v, d, i, off, data, w, e, g, k)
    {
      if g == i {
        WriteExact(es, v.inodes[i].root.next, d, off, data, h, end, s, Table(w, i), e, k);
      } else {
        OthersUntouched(v, d, i, g, off, data, h, end, s, e, k);
      }
    }
  }

  // ---- Resizing ----

  /** The bytes a change of size clears: those of removed blocks, and the rest of the last block when blocks are added. */
  predicate Cleared(was: nat, size: nat, k: nat) {
    if BlocksFor(size) < BlocksFor(was) then BlocksFor(size) * PAGE <= k
    else BlocksFor(size) > BlocksFor(was) && was <= k < BlocksFor(was) * PAGE
  }

  /** Effect of a change of size on the bytes of all files. */
  ghost predicate BytesResized(v: Vol, d: Blocks, i: nat, size: nat, w: Vol, e: Blocks) {
    && IsLive(v, i) && |w.inodes| == |v.inodes|
    && (forall g: nat, k: nat :: IsLive(v, g) ==> ByteResized(v, d, i, size, w, e, g, k))
  }

  predicate ByteResized(v: Vol, d: Blocks, i: nat, size: nat, w: Vol, e: Blocks, g: nat, k: nat)
    requires IsLive(v, i) && |w.inodes| == |v.inodes| && IsLive(v, g)
  {
    FileByte(Table(w, g), e, k) == if g == i && Cleared(v.inodes[i].size, size, k) then 0 else FileByte(Table(v, g), d, k)
  }

  lemma ShrinkBytes(v: Vol, d: Blocks, i: nat, size: nat)
    requires Space(v) && IsLive(v, i) && !v.busy && BlocksFor(size) < BlocksFor(v.inodes[i].size)
    ensures BytesResized(v, d, i, size, Perform(v, Resize(i, size)), d)
  {
    hide Owned, All, FreedOf, FreeAll, FreedBy, Phys, BlocksFor, InSpace, Stored, Claims;
    var eof, es := BlocksFor(size), Table(v, i);
    var w := Perform(v, Resize(i, size));
    RootAt(v, i);
    RootSlots(v.inodes[i].root);
    TruncateRight(eof, es);
    assert Table(w, i) == Stored(All(Truncate(eof), es).kept);
    forall g: nat, k: nat | IsLive(v, g)
      ensures ByteResized(v, d, i, size, w, d, g, k)
    {
      if g == i {
        assert Removed(Truncate(eof), k / PAGE) <==> eof * PAGE <= k;
      }
    }
  }

  lemma RootSlots(r: Root)
    requires RootOk(r)
    ensures |r.entries| <= SLOTS
  {
  }

  /** A block with the bytes from `at` on set to zero. */
  function ClearTail(p: Page, at: nat): Page
    requires at <= PAGE
  {
    p[..at] + Zeros(PAGE - at)
  }

  /** A change of size that is no shrinking leaves all tables as they are. */
  lemma ResizedTables(v: Vol, i: nat, size: nat)
    requires IsLive(v, i) && !v.busy && BlocksFor(size) >= BlocksFor(v.inodes[i].size)
    ensures var w := Perform(v, Resize(i, size));
            |w.inodes| == |v.inodes| && forall g: nat :: g < |v.inodes| ==> Table(w, g) == Table(v, g)
  {
    hide BlocksFor;
  }

  lemma GrowBytes(v: Vol, d: Blocks, i: nat, size: nat, p: nat)
    requires Space(v) && IsLive(v, i) && !v.busy && BlocksFor(size) > BlocksFor(v.inodes[i].size)
    requires v.inodes[i].size % PAGE > 0 && Phys(Table(v, i), v.inodes[i].size / PAGE) == Some(p) && p in d
    ensures BytesResized(v, d, i, size, Perform(v, Resize(i, size)), d[p := ClearTail(d[p], v.inodes[i].size % PAGE)])
  {
    hide Space, Phys, ClearTail, Perform, FileByte, Cleared, BlocksFor;
    var e := d[p := ClearTail(d[p], v.inodes[i].size % PAGE)];
    var w := Perform(v, Resize(i, size));
    ResizedTables(v, i, size);
    forall g: nat, k: nat | IsLive(v, g)
      ensures ByteResized(v, d, i, size, w, e, g, k)
    {
      GrowByte(v, d, i, size, p, g, k);
    }
  }

  lemma GrowByte(v: Vol, d: Blocks, i: nat, size: nat, p: nat, g: nat, k: nat)
    requires Space(v) && IsLive(v, i) && BlocksFor(size) > BlocksFor(v.inodes[i].size) && IsLive(v, g)
    requires v.inodes[i].size % PAGE > 0 && Phys(Table(v, i), v.inodes[i].size / PAGE) == Some(p) && p in d
    ensures FileByte(Table(v, g), d[p := ClearTail(d[p], v.inodes[i].size % PAGE)], k)
         == if g == i && Cleared(v.inodes[i].size, size, k) then 0 else FileByte(Table(v, g), d, k)
  {
    hide Space, Phys, ClearTail;
    var was, b := v.inodes[i].size, k / PAGE;
    if Phys(Table(v, g), b) == Some(p) {
      MappedOnce(v, i, was / PAGE, g, b);
      ClearTailAt(d[p], was % PAGE, k % PAGE);
    }
  }

  lemma ClearTailAt(p: Page, at: nat, t: nat)
    requires at <= PAGE && t < PAGE
    ensures ClearTail(p, at)[t] == if t < at then p[t] else 0
  {
  }

  /** Growing inside the last block, or past a block that is full or not mapped, changes no byte. */
  lemma QuietResize(v: Vol, d: Blocks, i: nat, size: nat)
    requires IsLive(v, i) && !v.busy && BlocksFor(size) >= BlocksFor(v.inodes[i].size)
    requires BlocksFor(size) == BlocksFor(v.inodes[i].size) || v.inodes[i].size % PAGE == 0
             || Phys(Table(v, i), v.inodes[i].size / PAGE).None?
    ensures BytesResized(v, d, i, size, Perform(v, Resize(i, size)), d)
  {
    hide Phys, Perform, FileByte;
    var w := Perform(v, Resize(i, size));
    ResizedTables(v, i, size);
    forall g: nat, k: nat | IsLive(v, g)
      ensures ByteResized(v, d, i, size, w, d, g, k)
    {
      if g == i && Cleared(v.inodes[i].size, size, k) {
        HoleByte(Table(v, i), d, k);
        assert k / PAGE == v.inodes[i].size / PAGE;
      }
    }
  }

  lemma HoleByte(es: seq<Xad>, d: Blocks, k: nat)
    ensures Phys(es, k / PAGE).None? ==> FileByte(es, d, k) == 0
  {
  }

  // ---- What growing shows ----

  /** The bytes that come into the file read as zeros, whatever the device holds. */
  ghost predicate GrowsZero(v: Vol, i: nat, size: nat)
    requires i < |v.inodes|
  {
    forall d: Blocks, k: nat :: Backed(Table(v, i), d) && v.inodes[i].size <= k < size ==> GrownByte(v, i, size, d, k) == 0
  }

  /** A byte of the file after it has grown. */
  function GrownByte(v: Vol, i: nat, size: nat, d: Blocks, k: nat): byte
    requires i < |v.inodes|
  {
    var x := v.inodes[i];
    FileByte(x.root.entries, if BlocksFor(size) > BlocksFor(x.size) && x.size % PAGE > 0 then LastCleared(d, x) else d, k)
  }

  /** The last block of a file with the rest behind its size cleared, if the table maps it. */
  function LastCleared(d: Blocks, x: Inode): Blocks {
    var p := Phys(x.root.entries, x.size / PAGE);
    if p.Some? && p.value in d then d[p.value := ClearTail(d[p.value], x.size % PAGE)] else d
  }

  /** A block that comes into the file, at least in part, and is not cleared. */
  predicate Stale(v: Vol, i: nat, size: nat, b: nat)
    requires i < |v.inodes|
  {
    var was := v.inodes[i].size;
    && was / PAGE <= b < BlocksFor(size) && Phys(Table(v, i), b).Some?
    && !(b == was / PAGE && was % PAGE > 0 && BlocksFor(size) > BlocksFor(was))
  }

  /**
   Growing a file shows zeros exactly when none of the blocks that come into it is mapped, except that
   the last block it had may be when the file grows beyond it: only then is the rest of it cleared.
   */
  lemma GrowsZeroWhen(v: Vol, i: nat, size: nat)
    requires Space(v) && IsLive(v, i) && v.inodes[i].size < size && (forall p: nat :: p in ClaimOf(v.inodes[i]) ==> p > 0)
    ensures GrowsZero(v, i, size) <==> forall b: nat :: !Stale(v, i, size, b)
  {
    hide Space, GrownByte, Stale, Backed, BlocksOf;
    if b: nat :| Stale(v, i, size, b) {
      var d := OnesFor(v, i);
      var k := StaleByte(v, i, size, b, d);
      assert GrownByte(v, i, size, d, k) == 1;
    } else {
      forall d: Blocks, k: nat | Backed(Table(v, i), d) && v.inodes[i].size <= k < size ensures GrownByte(v, i, size, d, k) == 0 {
        FreshByte(v, i, size, d, k);
      }
    }
  }

  lemma FreshByte(v: Vol, i: nat, size: nat, d: Blocks, k: nat)
    requires i < |v.inodes| && v.inodes[i].size <= k < size && !Stale(v, i, size, k / PAGE)
    ensures GrownByte(v, i, size, d, k) == 0
  {
    hide Phys, ClearTail;
    var es, was, b := Table(v, i), v.inodes[i].size, k / PAGE;
    BlocksForBounds(was, size);
    assert was / PAGE <= b < BlocksFor(size);
    if Phys(es, b).Some? && Phys(es, b).value in d {
      ClearTailAt(d[Phys(es, b).value], was % PAGE, k % PAGE);
    }
  }

  lemma StaleByte(v: Vol, i: nat, size: nat, b: nat, d: Blocks) returns (k: nat)
    requires Space(v) && IsLive(v, i) && v.inodes[i].size < size && Stale(v, i, size, b)
    requires forall p: nat :: p in BlocksOf(Table(v, i)) ==> p in d && d[p] == seq(PAGE, _ => 1)
    ensures v.inodes[i].size <= k < size && GrownByte(v, i, size, d, k) == 1
  {
    hide Space, Phys, ClearTail, BlocksOf;
    var es, was := Table(v, i), v.inodes[i].size;
    BlocksForBounds(was, size);
    k := if b * PAGE <= was then was else b * PAGE;
    var p := Phys(es, b).value;
    MappedClaimed(es, b);
    assert k / PAGE == b && was <= k < size;
    if Phys(es, was / PAGE) == Some(p) {
      MappedOnce(v, i, b, i, was / PAGE);
    }
  }

  lemma BlocksForBounds(was: nat, size: nat)
    requires was < size
    ensures forall k: nat :: was <= k < size ==> was / PAGE <= k / PAGE < BlocksFor(size)
    ensures forall b: nat :: b < BlocksFor(size) ==> b * PAGE < size
    ensures BlocksFor(size) == BlocksFor(was) && was % PAGE == 0 ==> was / PAGE >= BlocksFor(size)
  {
  }

  /** A device on which every block the file claims is full of ones. */
  lemma OnesFor(v: Vol, i: nat) returns (d: Blocks)
    requires IsLive(v, i) && forall p: nat :: p in ClaimOf(v.inodes[i]) ==> p > 0
    ensures Backed(Table(v, i), d)
    ensures forall p: nat :: p in BlocksOf(Table(v, i)) ==> p in d && d[p] == seq(PAGE, _ => 1)
  {
    hide BlocksOf;
    var ones: Page := seq(PAGE, _ => 1);
    var m := BlocksOf(Table(v, i));
    var ps: set<nat> := set p | p in m;
    d := map p | p in ps :: ones;
    forall j: nat | j < |Table(v, i)| ensures SlotBacked(Table(v, i)[j], d) {
      forall p: nat | FileData.Holds(Table(v, i)[j], p) ensures 0 < p && p in d {
        PhysClaimed(Table(v, i), j, p);
        assert p in ClaimOf(v.inodes[i]);
      }
    }
  }

  // ---- Preallocating ----

  function LastLength(es: seq<Xad>): nat {
    if es == [] then 0 else es[|es| - 1].length
  }

  /** The last extent can be merged with as many blocks and still fit its length field. */
  predicate RoomToMerge(es: seq<Xad>, n: nat) {
    LastLength(es) + n < TWO24
  }

  lemma MoreRoom(es: seq<Xad>, n: nat, m: nat)
    requires RoomToMerge(es, n) && m <= n
    ensures RoomToMerge(es, m)
  {
  }

  lemma GrownRoom(r: Root, c: nat, end: nat, s: nat)
    requires c < end && RoomToMerge(r.entries, end - c)
    ensures RoomToMerge(GrowRoot(r, c, 1, s).entries, end - (c + 1)) && MergeFits(r.entries, c, 1, s)
  {
    if Continues(r.entries, c, s) {
      NoLoss(r.entries[|r.entries| - 1], r.entries[|r.entries| - 1].length + 1, 0, 0);
    }
  }

  /** No byte of any file changes. */
  ghost predicate BytesSame(v: Vol, d: Blocks, w: Vol, e: Blocks) {
    && |w.inodes| == |v.inodes|
    && (forall g: nat, k: nat :: IsLive(v, g) ==> FileByte(Table(w, g), e, k) == FileByte(Table(v, g), d, k))
  }

  /** A zeroed new block in place of a hole changes no byte. */
  lemma NewBlockQuiet(v: Vol, d: Blocks, i: nat, c: nat, s: nat, w: Vol)
    requires Space(v) && IsLive(v, i) && DeviceFits(v, d) && Phys(Table(v, i), c).None? && c + 1 <= TWO40
    requires FirstFit(v.bits, 1, c) == Some(s) && MergeFits(Table(v, i), c, 1, s)
    requires |w.inodes| == |v.inodes| && (forall g: nat :: g < |v.inodes| && g != i ==> Table(w, g) == Table(v, g))
    requires w.inodes[i].root == GrowRoot(v.inodes[i].root, c, 1, s)
    ensures s in d && s > 0 && BytesSame(v, d, w, d[s := ZeroPage()])
  {
    hide Space, Phys, FirstFit, GrowRoot, MergeFits, NewRun, AllAre, InSpace;
    NewRunFits(v, i, d, c, 1);
    NewRunAt(Table(v, i), d, s);
    FreeHere(v.bits, s);
    var e := d[s := ZeroPage()];
    forall g: nat, k: nat | IsLive(v, g) ensures FileByte(Table(w, g), e, k) == FileByte(Table(v, g), d, k) {
      var b := k / PAGE;
      if Phys(Table(v, g), b).Some? {
        MappedOnce(v, g, b, g, b);
      }
      if g == i {
        GrowRootPhys(v, i, c, s, b);
      }
    }
  }

  lemma NewRunAt(es: seq<Xad>, d: Blocks, s: nat)
    requires NewRun(es, d, s, 1)
    ensures s in d && s > 0
  {
    assert s <= s < s + 1;
  }

  lemma FreeHere(bits: seq<bool>, s: nat)
    requires AllAre(bits, Chunk(s, 1), true)
    ensures s < |bits| && bits[s]
  {
  }

  lemma GrowRootPhys(v: Vol, i: nat, c: nat, s: nat, b: int)
    requires Space(v) && IsLive(v, i) && MergeFits(Table(v, i), c, 1, s) && InSpace(Xad(1, c, 1, s))
    ensures Phys(GrowRoot(v.inodes[i].root, c, 1, s).entries, b) == Phys(Table(v, i), b)
         || (b == c && Phys(Table(v, i), b).None? && Phys(GrowRoot(v.inodes[i].root, c, 1, s).entries, b) == Some(s))
  {
    hide Owned, Phys, InSpace, Inserted, CanAdd;
    RootAt(v, i);
    var r := v.inodes[i].root;
    CanAddIs(r.entries, r.next, c, 1, s);
    if r.next <= XTROOTMAXSLOT && Inserted(r.entries, c, 1, s).Some? {
      GrownPhys(r.entries, r.next, c, c + 1, s, Inserted(r.entries, c, 1, s).value, b);
    }
  }

  lemma BytesSameTwice(v: Vol, d: Blocks, w: Vol, e: Blocks, u: Vol, f: Blocks)
    requires BytesSame(v, d, w, e) && BytesSame(w, e, u, f) && forall g: nat :: IsLive(v, g) ==> IsLive(w, g)
    ensures BytesSame(v, d, u, f)
  {
    hide FileByte;
    forall g: nat, k: nat | IsLive(v, g) ensures FileByte(Table(u, g), f, k) == FileByte(Table(v, g), d, k) {
      assert FileByte(Table(w, g), e, k) == FileByte(Table(v, g), d, k);
    }
  }

  /** The device after a preallocation: every new block is zeroed. */
  function Zeroed(d: Blocks, r: Root, bits: seq<bool>, c: nat, end: nat): Blocks
    decreases end - c
  {
    if c >= end then d
    else if Phys(r.entries, c).Some? then Zeroed(d, r, bits, c + 1, end)
    else match FirstFit(bits, 1, c)
      case None => d
      case Some(s) => Zeroed(d[s := ZeroPage()], GrowRoot(r, c, 1, s), Fill(bits, Chunk(s, 1), false), c + 1, end)
  }

  /** One block of the range, for the new root and for the device. */
  lemma PreallocStep(d: Blocks, r: Root, bits: seq<bool>, c: nat, end: nat)
    requires c < end
    ensures Phys(r.entries, c).Some? ==>
              Prealloc(r, bits, c, end) == Prealloc(r, bits, c + 1, end) && Zeroed(d, r, bits, c, end) == Zeroed(d, r, bits, c + 1, end)
    ensures Phys(r.entries, c).None? && FirstFit(bits, 1, c).None? ==>
              Prealloc(r, bits, c, end) == Filling(r, bits, false) && Zeroed(d, r, bits, c, end) == d
    ensures Phys(r.entries, c).None? && FirstFit(bits, 1, c).Some? ==>
              (var s := FirstFit(bits, 1, c).value;
               var q, m := GrowRoot(r, c, 1, s), Fill(bits, Chunk(s, 1), false);
               && Prealloc(r, bits, c, end) == Prealloc(q, m, c + 1, end)
               && Zeroed(d, r, bits, c, end) == Zeroed(d[s := ZeroPage()], q, m, c + 1, end))
  {
    hide Phys, FirstFit, GrowRoot, Fill, ZeroPage;
  }

  lemma {:induction false} PreallocQuiet(v: Vol, d: Blocks, i: nat, c: nat, end: nat)
    requires Space(v) && IsLive(v, i) && DeviceFits(v, d) && c <= end <= TWO40 && RoomToMerge(Table(v, i), end - c)
    ensures BytesSame(v, d, BlockSafety.Filled(v, i, Prealloc(v.inodes[i].root, v.bits, c, end)),
                      Zeroed(d, v.inodes[i].root, v.bits, c, end))
    decreases end - c
  {
    hide Space, Phys, FirstFit, GrowRoot, RoomToMerge, AllAre, Fill, Prealloc, Zeroed, BytesSame, ZeroPage, Keeps, MergeFits;
    var x := v.inodes[i];
    var f := Prealloc(x.root, v.bits, c, end);
    if c < end {
      PreallocStep(d, x.root, v.bits, c, end);
    }
    if c < end && Phys(x.root.entries, c).Some? {
      MoreRoom(x.root.entries, end - c, end - c - 1);
      PreallocQuiet(v, d, i, c + 1, end);
    } else if c < end && FirstFit(v.bits, 1, c).Some? {
      var s := FirstFit(v.bits, 1, c).value;
      FirstFitLegal(v.bits, 1, c);
      var y := x.(root := GrowRoot(x.root, c, 1, s));
      var w := Put(v, i, y).(bits := Fill(v.bits, Chunk(s, 1), false));
      GrowKeeps(v, i, c, 1, s, y);
      KeptSpace(v, w);
      GrownRoom(x.root, c, end, s);
      NewBlockQuiet(v, d, i, c, s, w);
      StillFits(v, d, s);
      PreallocQuiet(w, d[s := ZeroPage()], i, c + 1, end);
      assert BlockSafety.Filled(w, i, Prealloc(y.root, w.bits, c + 1, end)) == BlockSafety.Filled(v, i, f);
      BytesSameTwice(v, d, w, d[s := ZeroPage()], BlockSafety.Filled(v, i, f), Zeroed(d, x.root, v.bits, c, end));
    } else {
      PreallocNone(v, d, i, c, end);
      Unchanged(v, d);
    }
  }

  lemma PreallocNone(v: Vol, d: Blocks, i: nat, c: nat, end: nat)
    requires i < |v.inodes|
    requires c >= end || (Phys(Table(v, i), c).None? && FirstFit(v.bits, 1, c).None?)
    ensures BlockSafety.Filled(v, i, Prealloc(v.inodes[i].root, v.bits, c, end)) == v
    ensures Zeroed(d, v.inodes[i].root, v.bits, c, end) == d
  {
  }

  lemma Unchanged(v: Vol, d: Blocks)
    ensures BytesSame(v, d, v, d)
  {
  }

  lemma StillFits(v: Vol, d: Blocks, s: nat)
    requires DeviceFits(v, d)
    ensures forall w: Vol :: w.bits == Fill(v.bits, Chunk(s, 1), false) ==> DeviceFits(w, d[s := ZeroPage()])
  {
  }

  // ---- Moving ----

  /**
   A successful move, in bytes: the destination window reads as the source window did, the source window
   reads as zeros, and every other byte of both files is as before.
   */
  lemma MoveBytes(src: Root, dst: Root, from: nat, to: nat, n: nat, d: Blocks, k: nat)
    requires n > 0 && to + n <= TWO40 && Move(src, dst, from, to, n).Done?
    requires AllInSpace(src.entries) && AllInSpace(dst.entries) && Apart(src.entries) && Apart(dst.entries)
    requires |src.entries| <= SLOTS && |dst.entries| <= SLOTS && !SomeSpan(dst.entries, to, to + n)
    requires !(LiveCount(src.entries) == SLOTS && SomeSpan(src.entries, from, from + n))
    ensures var m := Move(src, dst, from, to, n);
            && FileByte(m.src.entries, d, k) == (if from * PAGE <= k < (from + n) * PAGE then 0 else FileByte(src.entries, d, k))
            && FileByte(m.dst.entries, d, k)
               == (if to * PAGE <= k < (to + n) * PAGE then FileByte(src.entries, d, k - to * PAGE + from * PAGE)
                   else FileByte(dst.entries, d, k))
  {
    hide Phys, Apart, AllInSpace, LiveCount, SomeSpan, Move;
    MoveExact(src, dst, from, to, n);
    var b, t := k / PAGE, k % PAGE;
    assert k == b * PAGE + t;
    if to <= b < to + n {
      InBlock(b - to + from, t);
      assert k - to * PAGE + from * PAGE == (b - to + from) * PAGE + t;
    }
  }
}

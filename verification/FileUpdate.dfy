/**
 The loops of a write: the runs of the table are patched block by block, and a hole is filled from the
 allocator.
 */
module FileUpdate {
  import opened Bytes
  import opened Device
  import opened Extents
  import opened ExtentTable
  import opened Xtree
  import opened Allocator
  import opened FileData
  import opened FileWrite

  /** Where a write stands at block `c`: bytes consumed and offset inside the block. */
  predicate Placed(off: nat, len: nat, c: nat, pos: nat, at: nat) {
    && off / PAGE <= c
    && pos == (if c * PAGE <= off then 0 else Min(len, c * PAGE - off))
    && at == (if c == off / PAGE then off % PAGE else 0)
  }

  /** Copying the next bytes over the block is the patch, and moves the write to the next block. */
  lemma CopyIsPatch(p: Page, c: nat, off: nat, data: seq<byte>, pos: nat, at: nat)
    requires Placed(off, |data|, c, pos, at) && c < EndBlock(off, |data|)
    ensures var n := Min(PAGE - at, |data| - pos);
            && 0 < n && at + n <= PAGE
            && Overwrite(p, at, data[pos..pos + n]) == Patch(p, c, off, data)
            && Placed(off, |data|, c + 1, pos + n, 0)
  {
    var n := Min(PAGE - at, |data| - pos);
    var q := Overwrite(p, at, data[pos..pos + n]);
    assert c * PAGE + at == off + pos;
    forall t | 0 <= t < PAGE ensures q[t] == Patch(p, c, off, data)[t] {
    }
  }

  lemma MappedStep(es: seq<Xad>, d: Blocks, off: nat, data: seq<byte>, c: nat, h: nat)
    requires MappedIn(es, d, off, c, h) && c < h
    ensures var p := RunPhys(es, off / PAGE, c).value;
            var e := d[p := Patch(d[p], c, off, data)];
            MappedIn(es, e, off, c + 1, h) && WriteMapped(es, d, off, data, c, h) == WriteMapped(es, e, off, data, c + 1, h)
  {
    hide RunPhys, Patch;
  }

  /** Patches the blocks of one run. */
  method WriteRun(ghost es: seq<Xad>, d: Blocks, addr: nat, count: nat, off: nat, data: seq<byte>,
                  ghost c: nat, ghost h: nat, start: nat, skip: nat)
    returns (e: Blocks, pos: nat)
    requires c + count <= h <= EndBlock(off, |data|) && MappedIn(es, d, off, c, h)
    requires forall j :: c <= j < c + count ==> RunPhys(es, off / PAGE, j) == Some(addr + (j - c))
    requires Placed(off, |data|, c, start, skip)
    ensures MappedIn(es, e, off, c + count, h) && e.Keys == d.Keys
    ensures WriteMapped(es, d, off, data, c, h) == WriteMapped(es, e, off, data, c + count, h)
    ensures Placed(off, |data|, c + count, pos, if count == 0 then skip else 0)
  {
    hide RunPhys, Patch, Placed, WriteMapped, EndBlock, Overwrite;
    e, pos := d, start;
    var at, blk := skip, 0;
    while blk < count && pos < |data|
      invariant 0 <= blk <= count && Placed(off, |data|, c + blk, pos, at) && (blk > 0 ==> at == 0) && (blk == 0 ==> at == skip)
      invariant MappedIn(es, e, off, c + blk, h) && e.Keys == d.Keys
      invariant WriteMapped(es, d, off, data, c, h) == WriteMapped(es, e, off, data, c + blk, h)
    {
      assert RunPhys(es, off / PAGE, c + blk) == Some(addr + blk);
      MappedStep(es, e, off, data, c + blk, h);
      CopyIsPatch(e[addr + blk], c + blk, off, data, pos, at);
      var n := Min(PAGE - at, |data| - pos);
      e := e[addr + blk := Overwrite(e[addr + blk], at, data[pos..pos + n])];
      pos, at, blk := pos + n, 0, blk + 1;
    }
    if blk < count {
      CopyIsPatch(ZeroPage(), c + blk, off, data, pos, at);
    }
  }

  /** Writes the rest of the data to new blocks, which are zero around it. */
  method WriteHole(d: Blocks, s: nat, count: nat, off: nat, data: seq<byte>, ghost h: nat, start: nat, skip: nat)
    returns (e: Blocks, pos: nat)
    requires h + count == EndBlock(off, |data|) && forall j :: s <= j < s + count ==> j in d
    requires Placed(off, |data|, h, start, skip)
    ensures e == WriteFresh(d, s, off, data, h, h, h + count)
    ensures count > 0 ==> pos == |data|
  {
    hide Patch, Placed, WriteFresh, EndBlock, Overwrite, ZeroPage;
    PlacedFrom(off, |data|, h, start, skip);
    e, pos := d, start;
    var at, blk := skip, 0;
    while blk < count && pos < |data|
      invariant 0 <= blk <= count && Placed(off, |data|, h + blk, pos, at)
      invariant e.Keys == d.Keys
      invariant WriteFresh(d, s, off, data, h, h, h + count) == WriteFresh(e, s, off, data, h, h + blk, h + count)
    {
      CopyIsPatch(ZeroPage(), h + blk, off, data, pos, at);
      FreshStep(e, s, off, data, h, h + blk, h + count);
      var n := Min(PAGE - at, |data| - pos);
      e := e[s + blk := Overwrite(ZeroPage(), at, data[pos..pos + n])];
      pos, at, blk := pos + n, 0, blk + 1;
    }
    if blk < count {
      CopyIsPatch(ZeroPage(), h + blk, off, data, pos, at);
    }
    FreshStep(e, s, off, data, h, h + blk, h + count);
    if count > 0 {
      AllPlaced(off, |data|, h, pos, at);
    }
  }

  lemma PlacedFrom(off: nat, len: nat, c: nat, pos: nat, at: nat)
    requires Placed(off, len, c, pos, at)
    ensures off / PAGE <= c && pos <= len && at < PAGE
  {
  }

  lemma AllPlaced(off: nat, len: nat, c: nat, pos: nat, at: nat)
    requires off / PAGE <= c < EndBlock(off, len) && Placed(off, len, EndBlock(off, len), pos, at)
    ensures pos == len
  {
  }

  lemma FreshStep(d: Blocks, s: nat, off: nat, data: seq<byte>, h: nat, c: nat, end: nat)
    requires h <= c && forall j :: s <= j < s + (end - h) ==> j in d
    ensures c >= end ==> WriteFresh(d, s, off, data, h, c, end) == d
    ensures c < end ==>
              WriteFresh(d, s, off, data, h, c, end)
              == WriteFresh(d[s + (c - h) := Patch(ZeroPage(), c, off, data)], s, off, data, h, c + 1, end)
  {
  }

  /** The first block of a write that is not mapped. */
  function HoleOf(es: seq<Xad>, off: nat, data: seq<byte>): (h: nat)
    ensures off / PAGE <= h <= EndBlock(off, |data|)
  {
    FirstHole(es, off / PAGE, EndBlock(off, |data|))
  }

  /** Allocates blocks for the rest of the range, writes it there and adds the new run to the table. */
  method FillHole(x: Xtree, bmap: BlockAllocMap, d: Blocks, off: nat, data: seq<byte>, h: nat, count: nat, start: nat, skip: nat)
    returns (r: Result<nat>, e: Blocks, ghost s: nat)
    requires x.Valid() && count > 0 && h + count == EndBlock(off, |data|) && Placed(off, |data|, h, start, skip)
    requires forall b :: 0 <= b < bmap.freeMap.Length ==> b in d
    modifies x`nextindex, x.xad, bmap, bmap.freeMap
    ensures x.Valid()
    ensures !r.Ok? ==> e == d && bmap.Model() == old(bmap.Model()) && x.Entries() == old(x.Entries()) && x.nextindex == old(x.nextindex)
    ensures r.Ok? ==> r.value == |data| && Legal(old(bmap.Model()), Allocated(Chunk(s, count)))
    ensures r.Ok? ==> bmap.Model() == Step(old(bmap.Model()), Allocated(Chunk(s, count)))
    ensures r.Ok? ==> (forall j :: s <= j < s + count ==> j in d) && e == WriteFresh(d, s, off, data, h, h, h + count)
    ensures r.Ok? ==> AddedTo(old(x.Entries()), old(x.nextindex), h, count, s, x.Entries(), x.nextindex)
    ensures FirstFit(old(bmap.freeMap[..]), count, h) == if r.Ok? then Some(s) else None
  {
    hide Placed, EndBlock, WriteFresh, Inserted, Step, AllAre, FirstFit, CanAdd;
    e, s := d, 0;
    var c := bmap.AllocExtent(count, h);
    match c {
      case Ok(chunk) =>
        var pos;
        s := chunk.address;
        FitsRun(old(bmap.freeMap[..]), chunk);
        e, pos := WriteHole(d, chunk.address, chunk.length, off, data, h, start, skip);
        CanAddIs(x.Entries(), x.nextindex, h, chunk.length, chunk.address);
        var added := x.InsertExtent(h, chunk.length, chunk.address);
        r := Ok(pos);
      case InvalidCount => r := InvalidCount;
      case NoSpace => r := NoSpace;
    }
  }

  lemma CanAddIs(es: seq<Xad>, next: nat, h: nat, n: nat, s: nat)
    ensures CanAdd(es, next, h, s) <==> next <= XTROOTMAXSLOT && Inserted(es, h, n, s).Some?
  {
  }

  /** The table after the new run is added; one that is full stays as it is. */
  predicate AddedTo(es: seq<Xad>, next: nat, h: nat, count: nat, s: nat, after: seq<Xad>, next2: nat) {
    if CanAdd(es, next, h, s) then Inserted(es, h, count, s) == Some(after) && next2 == XTENTRYSTART + |after|
    else after == es && next2 == next
  }

  /**
   Outcome of a write on table, allocator and device. Without a hole in the range only mapped blocks
   change. With one, blocks for the rest of the range come from the allocator, or the write fails there.
   */
  ghost predicate Wrote(es: seq<Xad>, next: nat, b: State, d: Blocks, off: nat, data: seq<byte>, ok: bool, s: nat,
                        es2: seq<Xad>, next2: nat, b2: State, e: Blocks)
  {
    var h, end := HoleOf(es, off, data), EndBlock(off, |data|);
    var n := end - h;
    if data == [] then ok && e == d && es2 == es && next2 == next && b2 == b
    else if !ok then
      && h < end && FirstFit(b.bits, n, h) == None && es2 == es && next2 == next && b2 == b
      && MappedIn(es, d, off, off / PAGE, h) && e == WriteMapped(es, d, off, data, off / PAGE, h)
    else
      && Filled(es, d, off, data, h, end, s, e)
      && (if h == end then es2 == es && next2 == next && b2 == b
          else
            && FirstFit(b.bits, n, h) == Some(s) && Legal(b, Allocated(Chunk(s, n))) && b2 == Step(b, Allocated(Chunk(s, n)))
            && AddedTo(es, next, h, n, s, es2, next2))
  }

  /**
   Writes a range of a file: mapped blocks up to the first hole in place, the rest to newly allocated
   blocks. On success all bytes count as written, also when the table had no slot for the new blocks.
   */
  method WriteFile(x: Xtree, bmap: BlockAllocMap, d: Blocks, off: nat, data: seq<byte>)
    returns (r: Result<nat>, e: Blocks, ghost s: nat)
    requires x.Valid() && Backed(x.Entries(), d)
    requires forall b :: 0 <= b < bmap.freeMap.Length ==> b in d
    modifies x`nextindex, x.xad, bmap, bmap.freeMap
    ensures x.Valid() && (r.Ok? ==> r.value == |data|)
    ensures Wrote(old(x.Entries()), old(x.nextindex), old(bmap.Model()), d, off, data, r.Ok?, s,
                  x.Entries(), x.nextindex, bmap.Model(), e)
  {
    hide Phys, RunPhys, Find, MapRuns, FirstHole, Backed, EndBlock, Placed, WriteMapped, WriteFresh, Step, AllAre, Inserted, AddedTo, Legal, FirstFit;
    var fsb, count := off / PAGE, (|data| + off % PAGE + PAGE - 1) / PAGE;
    EndBlockBounds(off, |data|);
    MappedToHole(x.Entries(), d, off, EndBlock(off, |data|));
    var runs := x.MapBlocks(fsb, count);
    if data == [] {
      return Ok(0), d, 0;
    }
    var cur, pos, skip, hole;
    e, cur, pos, skip, hole := WriteRuns(runs, x.Entries(), d, off, data);
    if hole == 0 {
      r, s := Ok(pos), 0;
    } else {
      r, e, s := FillHole(x, bmap, e, off, data, cur, hole, pos, skip);
    }
  }

  /** Writes the mapped runs of a range; the blocks from `cur` on are a hole. */
  method WriteRuns(runs: seq<BlockRun>, ghost es: seq<Xad>, d: Blocks, off: nat, data: seq<byte>)
    returns (e: Blocks, cur: nat, pos: nat, skip: nat, hole: nat)
    requires Backed(es, d) && data != [] && runs == MapRuns(es, off / PAGE, EndBlock(off, |data|))
    ensures cur == HoleOf(es, off, data) && cur + hole == EndBlock(off, |data|)
    ensures Placed(off, |data|, cur, pos, skip) && (hole == 0 ==> pos == |data|)
    ensures MappedIn(es, d, off, off / PAGE, cur) && e == WriteMapped(es, d, off, data, off / PAGE, cur)
  {
    hide Phys, RunPhys, Find, MapRuns, FirstHole, Backed, EndBlock, Placed, WriteMapped, Boundary;
    ghost var end, h := EndBlock(off, |data|), HoleOf(es, off, data);
    EndBlockBounds(off, |data|);
    MappedToHole(es, d, off, end);
    BoundaryStart(es, off / PAGE);
    StartPlaced(off, |data|);
    e, cur, pos, skip, hole := d, off / PAGE, 0, off % PAGE, 0;
    var i := 0;
    while i < |runs| && pos < |data|
      invariant 0 <= i <= |runs| && off / PAGE <= cur <= end && runs[i..] == MapRuns(es, cur, end)
      invariant h == FirstHole(es, cur, end) && cur <= h && (cur < end ==> Boundary(es, off / PAGE, cur))
      invariant Placed(off, |data|, cur, pos, skip)
      invariant e.Keys == d.Keys && MappedIn(es, e, off, cur, h)
      invariant WriteMapped(es, d, off, data, off / PAGE, h) == WriteMapped(es, e, off, data, cur, h)
    {
      var run := runs[i];
      assert run == runs[i..][0] && runs[i..][1..] == runs[i + 1..];
      NoRuns(es, cur, end);
      KeysBacked(es, d, e);
      RunHead(es, e, off / PAGE, cur, end);
      if run.address == 0 {
        MappedNone(es, e, off, data, cur);
        hole := run.count;
        return;
      }
      HoleAfter(es, cur + run.count, end);
      e, pos := WriteRun(es, e, run.address, run.count, off, data, cur, h, pos, skip);
      cur, skip, i := cur + run.count, 0, i + 1;
    }
    if cur < end {
      CopyIsPatch(ZeroPage(), cur, off, data, pos, skip);
      KeysBacked(es, d, e);
      RunHead(es, e, off / PAGE, cur, end);
    }
    AllPlaced(off, |data|, off / PAGE, pos, skip);
    MappedNone(es, e, off, data, end);
  }

  lemma NoRuns(es: seq<Xad>, cur: nat, end: nat)
    ensures cur >= end ==> MapRuns(es, cur, end) == []
  {
  }

  lemma StartPlaced(off: nat, len: nat)
    ensures Placed(off, len, off / PAGE, 0, off % PAGE)
  {
  }

  lemma MappedNone(es: seq<Xad>, d: Blocks, off: nat, data: seq<byte>, c: nat)
    requires off / PAGE <= c
    ensures WriteMapped(es, d, off, data, c, c) == d
  {
  }

  lemma KeysBacked(es: seq<Xad>, d: Blocks, e: Blocks)
    requires Backed(es, d) && e.Keys == d.Keys
    ensures Backed(es, e)
  {
    forall i: nat | i < |es| ensures SlotBacked(es[i], e) {
      forall p: nat | Holds(es[i], p) ensures 0 < p && p in e {
        BackedAt(es, d, i, p);
        assert p in d.Keys;
      }
    }
  }

  lemma HoleAfter(es: seq<Xad>, cur: nat, end: nat)
    requires cur <= end
    ensures cur <= FirstHole(es, cur, end) <= end && (cur == end ==> FirstHole(es, cur, end) == end)
  {
    hide Phys;
  }
}

/**
 The mounted volume: its operations update inodes, names, handle counts, the allocator and the blocks in
 place. Each is tied to its function on the state, from which the safety of whole runs follows.
 */
module Volume {
  import opened Bytes
  import opened Extents
  import opened ExtentTable
  import opened Xtree
  import opened ExtentMove
  import opened Allocator
  import opened Ownership
  import opened FileData
  import opened FileWrite
  import opened FileUpdate
  import opened VolumeModel
  import opened BlockSafety
  import opened VolumeBytes
  import opened VolumeFacts

  datatype Answer<+T> = Success(value: T) | Failure

  /** Every inode holds a root that can be loaded. */
  ghost predicate RootsOk(inodes: seq<Inode>) {
    forall i :: 0 <= i < |inodes| ==> RootOk(inodes[i].root)
  }

  lemma RootsOkAt(inodes: seq<Inode>, i: nat)
    requires RootsOk(inodes) && i < |inodes|
    ensures RootOk(inodes[i].root)
    ensures forall x: Inode :: RootOk(x.root) ==> RootsOk(inodes[i := x])
  {
    hide RootOk;
  }

  class Volume {
    var inodes: seq<Inode>
    var names: map<Name, nat>
    var handles: map<nat, nat>
    var busy: bool
    var blocks: Blocks
    const bmap: BlockAllocMap

    ghost function Model(): Vol
      reads this, bmap.freeMap
    {
      Vol(inodes, names, handles, bmap.freeMap[..], busy)
    }

    /** Between transactions nothing is left to roll back, and every block of the map is on the device. */
    ghost predicate Valid()
      reads this, bmap
    {
      && (!busy ==> bmap.given == bmap.freed == [])
      && RootsOk(inodes)
      && (forall n :: n in names ==> names[n] < |inodes|)
      && (forall p :: 0 <= p < bmap.freeMap.Length ==> p in blocks)
    }

    constructor (table: seq<Inode>, d: Blocks, alloc: BlockAllocMap)
      requires alloc.given == alloc.freed == [] && RootsOk(table)
      requires forall p :: 0 <= p < alloc.freeMap.Length ==> p in d
      ensures Valid() && bmap == alloc && blocks == d && Model() == Vol(table, map[], map[], alloc.freeMap[..], false)
    {
      inodes, names, handles, busy, blocks, bmap := table, map[], map[], false, d, alloc;
    }

    /** Gives chunks back one by one; a chunk that is refused is skipped. */
    method FreeChunks(cs: seq<Chunk>) returns (ghost es: seq<Change>)
      modifies bmap, bmap.freeMap
      ensures bmap.freeMap[..] == FreeAll(old(bmap.freeMap[..]), cs)
      ensures AllLegal(old(bmap.Model()), es) && bmap.Model() == Steps(old(bmap.Model()), es)
      ensures es == Accepted(old(bmap.freeMap[..]), cs)
    {
      hide FreeAll, AllLegal, Steps, Fill, Accepted;
      es := [];
      ghost var s := bmap.Model();
      StepsAppend(s, [], Released(Chunk(0, 0)));
      FreeAllStep(s.bits, [], Chunk(0, 0));
      AcceptedStep(s.bits, [], Chunk(0, 0));
      var i := 0;
      while i < |cs|
        invariant 0 <= i <= |cs| && bmap.freeMap[..] == FreeAll(s.bits, cs[..i])
        invariant AllLegal(s, es) && bmap.Model() == Steps(s, es)
        invariant es == Accepted(s.bits, cs[..i])
      {
        assert cs[..i + 1] == cs[..i] + [cs[i]];
        AcceptedStep(s.bits, cs[..i], cs[i]);
        FreeAllStep(s.bits, cs[..i], cs[i]);
        StepsAppend(s, es, Released(cs[i]));
        var r := bmap.FreeExtent(cs[i]);
        if r.Ok? {
          es := es + [Released(cs[i])];
        }
        i := i + 1;
      }
      assert cs[..i] == cs;
    }

    /** Adds a handle to the count of the inode's block. */
    method OpenFile(ino: nat)
      requires Valid() && ino < |inodes|
      modifies this`handles
      ensures Valid() && Model() == Perform(old(Model()), Open(ino))
      ensures handles == old(handles)[ino / 8 := Open8(old(handles), ino) + 1]
    {
      var page := PageOf(ino);
      var count := if page in handles then handles[page] else 0;
      handles := handles[page := count + 1];
    }

    method HasOpenHandles(page: nat) returns (open: bool)
      ensures open == (Handles(Model(), page) > 0)
    {
      open := page in handles && handles[page] > 0;
    }

    /** The first inode slot that is not in use, the root's excepted. */
    method AllocateInode() returns (slot: Option<nat>)
      ensures slot == FirstUnused(inodes, 0)
    {
      var i := 0;
      while i < |inodes|
        invariant 0 <= i <= |inodes| && FirstUnused(inodes, 0) == FirstUnused(inodes, i)
      {
        if !inodes[i].live && i != ROOT_I {
          return Some(i);
        }
        i := i + 1;
      }
      slot := None;
    }

    method CreateFile(name: Name, room: bool) returns (r: Answer<nat>)
      requires Valid()
      modifies this
      ensures Valid() && blocks == old(blocks)
      ensures Model() == Perform(old(Model()), Create(name, room)) && handles == old(handles)
      ensures r.Success? <==> !old(busy) && 1 <= |name.text| <= 11 && name !in old(names) && room && !NoneFree(old(inodes))
      ensures r.Success? ==> FirstFree(old(inodes), r.value) && FileIn(old(inodes), inodes, r.value) && names == old(names)[name := r.value]
      ensures r.Failure? ==> names == old(names)
      ensures old(busy) || NoneFree(old(inodes)) || !(1 <= |name.text| <= 11) ==> inodes == old(inodes)
    {
      hide FirstUnused;
      SlotIs(inodes);
      if busy {
        return Failure;
      }
      var slot := AllocateInode();
      SlotUnused(inodes);
      if slot.None? {
        busy := true;
        return Failure;
      }
      if |name.text| == 0 || |name.text| > MAX_NAME {
        return Failure;
      }
      inodes := inodes[slot.value := inodes[slot.value].(live := true, size := 0, nlink := 1)];
      if name in names || !room {
        return Failure;
      }
      names := names[name := slot.value];
      r := Success(slot.value);
    }

    method LinkFile(name: Name, room: bool, target: nat) returns (r: Answer<nat>)
      requires Valid() && target < |inodes|
      modifies this
      ensures Valid() && blocks == old(blocks)
      ensures Model() == Perform(old(Model()), Link(name, room, target))
      ensures r.Success? <==> !old(busy) && 1 <= |name.text| <= 11 && name !in old(names) && room
      ensures r.Success? ==> r.value == target && names == old(names)[name := target] && LinkedOnce(old(inodes), inodes, target)
      ensures r.Failure? ==> Model() == old(Model())
    {
      if busy || |name.text| == 0 || |name.text| > MAX_NAME || name in names || !room {
        return Failure;
      }
      names := names[name := target];
      inodes := inodes[target := inodes[target].(nlink := inodes[target].nlink + 1)];
      r := Success(target);
    }

    /** The extents of a file that is given up. */
    method ExtentsToFree(x: Inode) returns (cs: seq<Chunk>)
      requires RootOk(x.root)
      ensures cs == FreedBy(x)
    {
      cs := [];
      if x.live {
        var t := new Xtree(x.root.entries, x.root.next);
        cs := t.TruncateExtents(0);
      }
    }

    method UnlinkFile(name: Name) returns (r: Answer<bool>)
      requires Valid()
      modifies this, bmap, bmap.freeMap
      ensures Valid() && blocks == old(blocks)
      ensures Model() == Perform(old(Model()), Unlink(name))
      ensures r.Failure? <==> old(busy)
      ensures r.Success? ==> r.value == (name in old(names))
      ensures r.Success? && r.value ==>
                && names == old(names) - {name} && handles == old(handles) && !busy
                && UnlinkedOnce(old(inodes), inodes, old(names)[name], old(handles))
      ensures r.Failure? || !r.value ==> Model() == old(Model())
    {
      hide FreedBy, FreeAll, PageOf, RootsOk, RootOk, UnlinkedOnce;
      if busy {
        return Failure;
      }
      if name !in names {
        return Success(false);
      }
      UnlinkedIs(Model(), name);
      var i := names[name];
      RootsOkAt(inodes, i);
      names := names - {name};
      var x := inodes[i];
      var left := if x.nlink > 0 then x.nlink - 1 else 0;
      var open := HasOpenHandles(PageOf(i));
      if left == 0 && !open {
        var cs := ExtentsToFree(x);
        inodes := inodes[i := x.(live := false, size := 0, nlink := 0)];
        ghost var _ := FreeChunks(cs);
      } else {
        inodes := inodes[i := x.(nlink := left)];
      }
      bmap.Commit();
      r := Success(true);
    }

    method ReleaseFile(ino: nat) returns (r: Answer<()>)
      requires Valid() && ino < |inodes|
      modifies this, bmap, bmap.freeMap
      ensures Valid() && blocks == old(blocks)
      ensures Model() == Perform(old(Model()), Release(ino))
      ensures names == old(names) && busy == old(busy) && HandleClosed(old(handles), handles, ino)
      ensures ReleasedIf(old(inodes), inodes, ino, !old(busy) && old(inodes)[ino].nlink == 0 && Open8(handles, ino) == 0)
    {
      hide FreedBy, FreeAll, PageOf, RootsOk, RootOk, ReleasedIf, HandleClosed;
      ReleasedIs(Model(), ino);
      RootsOkAt(inodes, ino);
      var x, page := inodes[ino], PageOf(ino);
      if page in handles {
        handles := handles[page := if handles[page] > 0 then handles[page] - 1 else 0];
        HandlesSame(old(handles), page);
      }
      if busy {
        return Failure;
      }
      var open := HasOpenHandles(page);
      if x.nlink == 0 && !open {
        var cs := ExtentsToFree(x);
        ghost var _ := FreeChunks(cs);
        inodes := inodes[ino := x.(live := false)];
      }
      bmap.Commit();
      r := Success(());
    }

    /**
     Writes data at an offset. Every byte of the range that lands takes its new value; all other bytes of
     the file and all bytes of other files keep theirs.
     */
    method WriteAt(ino: nat, off: nat, data: seq<byte>) returns (r: Answer<nat>)
      requires Valid() && IsLive(Model(), ino) && Backed(Table(Model(), ino), blocks)
      modifies this, bmap, bmap.freeMap
      ensures Valid() && Model() == Perform(old(Model()), Write(ino, off, |data|))
      ensures r.Success? ==> r.value == |data|
      ensures r.Failure? <==> busy
      ensures if r.Success? then SizeGrown(old(inodes), inodes, ino, off + |data|) else SizesSame(old(inodes), inodes)
      ensures !old(busy) ==> RunTaken(old(Model()), ino, off, |data|, Model())
      ensures r.Success? && data != [] && Writable(old(Model()), old(blocks), Write(ino, off, |data|)) ==>
                BytesWritten(old(Model()), old(blocks), ino, off, data, Model(), blocks)
    {
      hide Backed, BytesWritten, Writable, Wrote, RootsOk, Perform, RootOk, SizeGrown, SizesSame, RunTaken;
      WriteSizes(Model(), ino, off, |data|);
      if busy {
        BusyFails(Model(), Write(ino, off, |data|));
        return Failure;
      }
      ghost var v, d := Model(), blocks;
      WriteTakes(v, ino, off, |data|);
      var x := inodes[ino];
      RootsOkAt(inodes, ino);
      RootLoads(x.root);
      var t := new Xtree(x.root.entries, x.root.next);
      var w, e;
      ghost var s;
      w, e, s := WriteFile(t, bmap, blocks, off, data);
      WroteModel(v, old(bmap.Model()), d, ino, off, data, w.Ok?, s, t.Entries(), t.nextindex, bmap.Model(), e);
      blocks := e;
      if !w.Ok? {
        busy := true;
        return Failure;
      }
      var es := t.Slots();
      inodes := inodes[ino := x.(size := Max(x.size, off + w.value), root := Root(es, t.nextindex))];
      WroteEffect(v, bmap.Model(), d, ino, off, data, s, es, t.nextindex, e, old(bmap.Model()));
      bmap.Commit();
      r := Success(w.value);
    }

    /** Changes the size: cuts blocks off, or clears the rest of the last block before adding some. */
    method TruncateFile(ino: nat, size: nat) returns (r: Answer<()>)
      requires Valid() && IsLive(Model(), ino) && Backed(Table(Model(), ino), blocks)
      modifies this, bmap, bmap.freeMap
      ensures Valid() && Model() == Perform(old(Model()), Resize(ino, size))
      ensures r.Failure? <==> busy
      ensures if r.Success? then SizeSet(old(inodes), inodes, ino, size) else SizesSame(old(inodes), inodes)
      ensures r.Success? && Space(old(Model())) ==> BytesResized(old(Model()), old(blocks), ino, size, Model(), blocks)
    {
      hide Backed, FreeAll, BytesResized, Space, BlocksFor, CutRoot, RootsOk, RootOk, LastCleared, Perform, SizeSet, SizesSame;
      ResizeSizes(Model(), ino, size);
      if busy {
        BusyFails(Model(), Resize(ino, size));
        return Failure;
      }
      ghost var v, d := Model(), blocks;
      var x := inodes[ino];
      RootsOkAt(inodes, ino);
      ResizeModel(v, ino, size);
      if BlocksFor(size) < BlocksFor(x.size) {
        var root := CutExtents(x, Truncate(BlocksFor(size)));
        inodes := inodes[ino := x.(size := size, root := root)];
      } else {
        if BlocksFor(size) > BlocksFor(x.size) && x.size % PAGE > 0 {
          ClearLastBlock(x);
        }
        inodes := inodes[ino := x.(size := size)];
      }
      bmap.Commit();
      ResizeEffect(v, d, ino, size, blocks);
      r := Success(());
    }

    /** Cuts the table of a file and gives the extents taken out back to the allocator. */
    method CutExtents(x: Inode, c: Cut) returns (root: Root)
      requires RootOk(x.root) && Ordered(c) && !c.Take?
      modifies bmap, bmap.freeMap
      ensures root == CutRoot(c, x.root)
      ensures bmap.freeMap[..] == FreeAll(old(bmap.freeMap[..]), FreedOf(All(c, x.root.entries).out))
    {
      hide All, FreedOf, FreeAll;
      var t := new Xtree(x.root.entries, x.root.next);
      var cs: seq<Chunk>;
      if c.Truncate? {
        cs := t.TruncateExtents(c.eof);
      } else {
        cs := t.PunchExtents(c.start, c.end);
      }
      ghost var _ := FreeChunks(cs);
      var es := t.Slots();
      root := Root(es, t.nextindex);
    }

    /** Removes the blocks of a range from a file, whole blocks that the range only touches included. */
    method PunchRange(ino: nat, off: nat, len: nat) returns (r: Answer<()>)
      requires Valid() && ino < |inodes|
      modifies this, bmap, bmap.freeMap
      ensures Valid() && blocks == old(blocks)
      ensures Model() == Perform(old(Model()), PunchHole(ino, off, len))
      ensures (r.Failure? <==> busy) && SizesSame(old(inodes), inodes)
      ensures r.Success? && Space(old(Model())) && IsLive(old(Model()), ino) && Apart(Table(old(Model()), ino))
              && !SomeSpan(Table(old(Model()), ino), off / PAGE, BlocksFor(off + len)) ==>
                BytesPunched(old(Model()), old(blocks), ino, off, len, Model())
    {
      hide FreeAll, BlocksFor, CutRoot, RootsOk, RootOk, All, FreedOf, Space, Apart, SomeSpan, BytesPunched, SizesSame;
      ghost var v := Model();
      PunchSizes(v, ino, off, len);
      if busy {
        return Failure;
      }
      if Space(v) && IsLive(v, ino) && Apart(Table(v, ino)) && !SomeSpan(Table(v, ino), off / PAGE, BlocksFor(off + len)) {
        PunchBytes(v, blocks, ino, off, len);
      }
      var start, end := off / PAGE, BlocksFor(off + len);
      RootsOkAt(inodes, ino);
      if start < end {
        var root := CutExtents(inodes[ino], Punch(start, end));
        inodes := inodes[ino := inodes[ino].(root := root)];
      }
      bmap.Commit();
      r := Success(());
    }

    /** Allocates a block for every block of a range that has none. No byte of any file changes. */
    method AllocateRange(ino: nat, off: nat, len: nat, keepSize: bool) returns (r: Answer<()>)
      requires Valid() && IsLive(Model(), ino)
      modifies this, bmap, bmap.freeMap
      ensures Valid() && Model() == Perform(old(Model()), Allocate(ino, off, len, keepSize))
      ensures r.Failure? <==> busy
      ensures if r.Success? && !keepSize then SizeGrown(old(inodes), inodes, ino, off + len) else SizesSame(old(inodes), inodes)
      ensures r.Success? && Writable(old(Model()), old(blocks), Allocate(ino, off, len, keepSize)) ==>
                BytesSame(old(Model()), old(blocks), Model(), blocks) && RangeMapped(Table(Model(), ino), off, len)
    {
      hide Prealloc, BlocksFor, RootsOk, RootOk, Perform, Writable, BytesSame, SizeGrown, SizesSame, RangeMapped;
      AllocateSizes(Model(), ino, off, len, keepSize);
      if busy {
        BusyFails(Model(), Allocate(ino, off, len, keepSize));
        return Failure;
      }
      ghost var v, d := Model(), blocks;
      AllocateModel(v, ino, off, len, keepSize);
      RootsOkAt(inodes, ino);
      var x := inodes[ino];
      var root, ok := FillRange(x, off / PAGE, BlocksFor(off + len));
      if !ok {
        busy := true;
        return Failure;
      }
      inodes := inodes[ino := x.(root := root, size := if keepSize then x.size else Max(x.size, off + len))];
      bmap.Commit();
      AllocateEffect(v, d, ino, off, len, keepSize, blocks);
      r := Success(());
    }

    /** The loop of a preallocation. */
    method FillRange(x: Inode, start: nat, end: nat) returns (root: Root, ok: bool)
      requires Valid() && RootOk(x.root)
      modifies this`blocks, bmap, bmap.freeMap
      ensures blocks.Keys == old(blocks).Keys && RootOk(root)
      ensures Prealloc(x.root, old(bmap.freeMap[..]), start, end) == Filling(root, bmap.freeMap[..], ok)
      ensures blocks == Zeroed(old(blocks), x.root, old(bmap.freeMap[..]), start, end)
    {
      hide Phys, FirstFit, Fill, RootsOk, RootOk, Zeroed, Prealloc, Find, ZeroPage, GrowRoot;
      ghost var bits, d := bmap.freeMap[..], blocks;
      RootLoads(x.root);
      var t := new Xtree(x.root.entries, x.root.next);
      var c := start;
      root, ok := x.root, true;
      while c < end
        invariant start <= c && t.Valid() && fresh(t) && fresh(t.xad) && RootOk(root)
        invariant root == Root(t.Entries(), t.nextindex)
        invariant Prealloc(x.root, bits, start, end) == Prealloc(root, bmap.freeMap[..], c, end)
        invariant Zeroed(d, x.root, bits, start, end) == Zeroed(blocks, root, bmap.freeMap[..], c, end)
        invariant blocks.Keys == d.Keys
      {
        PreallocStep(blocks, root, bmap.freeMap[..], c, end);
        FindPhys(root.entries, c);
        var found := t.Lookup(c);
        if found.None? {
          ok := FillBlock(t, c);
          if !ok {
            return;
          }
          var es := t.Slots();
          root := Root(es, t.nextindex);
        }
        c := c + 1;
      }
      PreallocEnd(blocks, root, bmap.freeMap[..], c, end);
    }

    /** Allocates a zeroed block for one block of a file. */
    method FillBlock(t: Xtree, c: nat) returns (ok: bool)
      requires t.Valid() && RootOk(Root(t.Entries(), t.nextindex))
      requires forall p :: 0 <= p < bmap.freeMap.Length ==> p in blocks
      modifies this`blocks, bmap, bmap.freeMap, t`nextindex, t.xad
      ensures t.Valid() && blocks.Keys == old(blocks).Keys && RootOk(Root(t.Entries(), t.nextindex))
      ensures ok == FirstFit(old(bmap.freeMap[..]), 1, c).Some?
      ensures !ok ==> bmap.freeMap[..] == old(bmap.freeMap[..]) && blocks == old(blocks)
      ensures !ok ==> Root(t.Entries(), t.nextindex) == old(Root(t.Entries(), t.nextindex))
      ensures ok ==>
                (var s := FirstFit(old(bmap.freeMap[..]), 1, c).value;
                 && bmap.freeMap[..] == Fill(old(bmap.freeMap[..]), Chunk(s, 1), false)
                 && blocks == old(blocks)[s := ZeroPage()]
                 && Root(t.Entries(), t.nextindex) == GrowRoot(old(Root(t.Entries(), t.nextindex)), c, 1, s))
    {
      hide FirstFit, Fill, Inserted, ZeroPage, Legal, GrowRoot, RootOk;
      ghost var root, before := Root(t.Entries(), t.nextindex), bmap.Model();
      var a := bmap.AllocExtent(1, c);
      ok := a.Ok?;
      if ok {
        LegalFits(before, a.value);
        blocks := blocks[a.value.address := ZeroPage()];
        GrowIs(root, c, a.value.address);
        var added := t.InsertExtent(c, 1, a.value.address);
      }
    }

    /**
     Moves whole blocks from one file to another without copying. `None` tells the caller to copy: the
     range is not aligned, the source has nothing there, or the destination table is full.
     */
    method CopyFileRangeExtent(src: nat, srcOff: nat, dst: nat, dstOff: nat, len: nat) returns (r: Answer<Option<nat>>)
      requires Valid() && src < |inodes| && dst < |inodes|
      modifies this, bmap, bmap.freeMap
      ensures Valid() && blocks == old(blocks)
      ensures srcOff % 4096 != 0 || dstOff % 4096 != 0 || len % 4096 != 0 || len == 0 ==> r == Success(None) && Model() == old(Model())
      ensures srcOff % 4096 == dstOff % 4096 == len % 4096 == 0 && len > 0 ==>
                && Model() == Perform(old(Model()), MoveRange(src, srcOff / PAGE, dst, dstOff / PAGE, len / PAGE))
                && (r.Failure? <==> old(busy))
                && (r.Success? ==>
                      r.value == if Move(old(inodes)[src].root, TargetRoot(old(Model()), src, srcOff / PAGE, dst, len / PAGE),
                                         srcOff / PAGE, dstOff / PAGE, len / PAGE).Done? then Some(len) else None)
      ensures if r.Success? && r.value.Some? then SizeGrown(old(inodes), inodes, dst, dstOff + len) else SizesSame(old(inodes), inodes)
    {
      hide CutRoot, All, FreeAll, Reclaim, RootsOk, RootOk, Perform, TakenOf, FreedOf, ShiftAll, Give, Move, TargetRoot, SizeGrown, SizesSame;
      SameSizes(inodes);
      if srcOff % PAGE != 0 || dstOff % PAGE != 0 || len % PAGE != 0 || len == 0 {
        return Success(None);
      }
      var from, to, n := srcOff / PAGE, dstOff / PAGE, len / PAGE;
      ghost var v := Model();
      if busy {
        BusyFails(v, MoveRange(src, from, dst, to, n));
        return Failure;
      }
      MoveModel(v, src, from, dst, to, n);
      MoveSizes(v, src, from, dst, to, n);
      assert (to + n) * PAGE == dstOff + len;
      CutParts(Take(from, from + n), v.inodes[src].root);
      var taken := TakeFrom(src, from, n);
      if taken == [] {
        return Success(None);
      }
      var ok := GiveTo(dst, from, to, n, taken, All(Take(from, from + n), v.inodes[src].root.entries).out);
      r := Success(if ok then Some(len) else None);
    }

    /** Takes a window out of a file. */
    method TakeFrom(src: nat, from: nat, n: nat) returns (taken: seq<Taken>)
      requires Valid() && !busy && src < |inodes| && n > 0
      modifies this`inodes, bmap, bmap.freeMap
      ensures Valid() && bmap.freeMap[..] == old(bmap.freeMap[..])
      ensures taken == TakenOf(All(Take(from, from + n), old(inodes)[src].root.entries).out)
      ensures inodes == if taken == [] then old(inodes)
                        else old(inodes)[src := old(inodes)[src].(root := CutRoot(Take(from, from + n), old(inodes)[src].root))]
    {
      hide CutRoot, All, RootsOk, RootOk, TakenOf, Undone;
      RootsOkAt(inodes, src);
      RootLoads(inodes[src].root);
      CutParts(Take(from, from + n), inodes[src].root);
      var t := new Xtree(inodes[src].root.entries, inodes[src].root.next);
      taken := t.TakeExtents(from, from + n);
      if taken == [] {
        NothingUndone(bmap.Model());
        bmap.Rollback();
        return;
      }
      var es := t.Slots();
      inodes := inodes[src := inodes[src].(root := Root(es, t.nextindex))];
    }

    /** Puts taken extents in the place of a window of a file, or rolls back when they do not fit. */
    method GiveTo(dst: nat, from: nat, to: nat, n: nat, taken: seq<Taken>, ghost out: seq<Xad>) returns (ok: bool)
      requires Valid() && !busy && dst < |inodes| && n > 0
      requires Behind(out, from) && taken == TakenOf(out)
      modifies this`inodes, bmap, bmap.freeMap
      ensures Valid()
      ensures var d, q := old(inodes)[dst], Punch(to, to + n);
              var given := Give(CutRoot(q, d.root), ShiftAll(out, from, to));
              && ok == given.Some?
              && inodes == (if ok then old(inodes)[dst := d.(root := given.value, size := Max(d.size, (to + n) * PAGE))] else old(inodes))
              && bmap.freeMap[..]
                 == (if ok then FreeAll(old(bmap.freeMap[..]), FreedOf(All(q, d.root.entries).out))
                     else Reclaim(old(bmap.freeMap[..]), FreedOf(All(q, d.root.entries).out)))
    {
      hide CutRoot, All, FreeAll, Reclaim, RootsOk, RootOk, TakenOf, FreedOf, ShiftAll, Give, Steps, AllLegal, Undone;
      ghost var before := bmap.Model();
      RootsOkAt(inodes, dst);
      var d := inodes[dst];
      RootLoads(d.root);
      CutParts(Punch(to, to + n), d.root);
      var u := new Xtree(d.root.entries, d.root.next);
      var cs := u.PunchExtents(to, to + n);
      ghost var changes := FreeChunks(cs);
      ok := GiveExtents(u, taken, from, to, out);
      if !ok {
        ReleasesUndone(before, changes, cs);
        bmap.Rollback();
        return;
      }
      var es := u.Slots();
      GiveOk(CutRoot(Punch(to, to + n), d.root), ShiftAll(out, from, to));
      inodes := inodes[dst := d.(root := Root(es, u.nextindex), size := Max(d.size, (to + n) * PAGE))];
      bmap.Commit();
    }

    /** Enters taken extents in a table, until one does not fit. */
    static method GiveExtents(u: Xtree, taken: seq<Taken>, from: nat, to: nat, ghost out: seq<Xad>) returns (ok: bool)
      requires u.Valid() && RootOk(Root(u.Entries(), u.nextindex)) && Behind(out, from) && taken == TakenOf(out)
      modifies u`nextindex, u.xad
      ensures u.Valid()
      ensures Give(old(Root(u.Entries(), u.nextindex)), ShiftAll(out, from, to))
           == if ok then Some(Root(u.Entries(), u.nextindex)) else None
    {
      hide ShiftAll, u.Entries;
      ghost var es, all := u.Entries(), ShiftAll(out, from, to);
      EntriesFit(u);
      var k := 0;
      while k < |taken|
        invariant 0 <= k <= |taken| && u.Valid() && u.Entries() == es + all[..k]
        invariant u.nextindex == if k == 0 then old(u.nextindex) else XTENTRYSTART + |u.Entries()|
        invariant k > 0 ==> |es| + k <= SLOTS
      {
        ShiftedAt(out, from, to, k);
        assert all[..k + 1] == all[..k] + [all[k]];
        EntriesFit(u);
        ok := u.InsertTakenExtent(to + (taken[k].offset - from), taken[k].length, taken[k].address);
        if !ok {
          return;
        }
        EntriesFit(u);
        k := k + 1;
      }
      assert all[..k] == all;
      ok := true;
    }

    /** Clears the rest of the last block of a file, if it is mapped. */
    method ClearLastBlock(x: Inode)
      requires Valid() && RootOk(x.root) && Backed(x.root.entries, blocks)
      modifies this`blocks
      ensures Valid()
      ensures blocks == LastCleared(old(blocks), x)
    {
      hide MapRuns, Find, Backed, Phys, Boundary, RunPhys;
      var t := new Xtree(x.root.entries, x.root.next);
      var runs := t.MapBlocks(x.size / PAGE, 1);
      BoundaryStart(x.root.entries, x.size / PAGE);
      RunStart(x.root.entries, x.size / PAGE);
      RunHead(x.root.entries, blocks, x.size / PAGE, x.size / PAGE, x.size / PAGE + 1);
      HoleIsUnmapped(x.root.entries, x.size / PAGE);
      NoRuns(x.root.entries, x.size / PAGE + 1, x.size / PAGE + 1);
      var i := 0;
      while i < |runs|
        invariant 0 <= i <= |runs| && Valid()
        invariant blocks == if i == 0 then old(blocks) else LastCleared(old(blocks), x)
      {
        if runs[i].address != 0 && runs[i].count > 0 {
          blocks := blocks[runs[i].address := ClearTail(blocks[runs[i].address], x.size % PAGE)];
        }
        i := i + 1;
      }
    }

    /** Commits the transaction an error left open. */
    method SyncVolume()
      requires Valid()
      modifies this, bmap
      ensures Valid() && blocks == old(blocks) && Model() == Perform(old(Model()), SyncAll)
    {
      bmap.Commit();
      busy := false;
    }
  }

  lemma HandlesSame(handles: map<nat, nat>, page: nat)
    requires page in handles
    ensures handles[page] == 0 ==> handles[page := 0] == handles
  {
  }

  /** What the effect of an operation on bytes rests on. */
  ghost predicate Writable(v: Vol, d: Blocks, op: Op) {
    && Space(v) && DeviceFits(v, d) && Addressed(v, op)
    && match op
       case Write(i, off, len) => EndBlock(off, len) <= TWO40 && MergesWell(v, i, off, len)
       case Allocate(i, off, len, _) =>
         off / PAGE < BlocksFor(off + len) ==>
           BlocksFor(off + len) <= TWO40 && RoomToMerge(Table(v, i), BlocksFor(off + len) - off / PAGE)
       case _ => true
  }

  lemma HoleIsUnmapped(es: seq<Xad>, b: nat)
    ensures FirstHole(es, b, b + 1) == b ==> Phys(es, b).None?
  {
    hide Phys;
  }

  lemma BusyFails(v: Vol, op: Op)
    requires Addressed(v, op) && v.busy && !op.Open? && !op.Release? && !op.SyncAll?
    ensures Perform(v, op) == v
  {
  }

  lemma RootLoads(r: Root)
    requires RootOk(r)
    ensures |r.entries| == if r.next <= XTENTRYSTART then 0 else Min(r.next, XTROOTMAXSLOT) - XTENTRYSTART
  {
  }

  /** The inode and the bitmap after a write are those of the operation, and the device keeps its blocks. */
  lemma WroteModel(v: Vol, b: State, d: Blocks, i: nat, off: nat, data: seq<byte>, ok: bool, s: nat,
                   es: seq<Xad>, next: nat, b2: State, e: Blocks)
    requires i < |v.inodes| && !v.busy && RootOk(v.inodes[i].root) && b.bits == v.bits
    requires Wrote(Table(v, i), v.inodes[i].root.next, b, d, off, data, ok, s, es, next, b2, e)
    ensures e.Keys == d.Keys && RootOk(Root(es, next))
    ensures !ok ==> b2 == b && v.(busy := true) == Perform(v, Write(i, off, |data|))
    ensures var x := v.inodes[i];
            ok ==> v.(inodes := v.inodes[i := x.(size := Max(x.size, off + |data|), root := Root(es, next))], bits := b2.bits)
                   == Perform(v, Write(i, off, |data|))
  {
    hide FirstHole, EndBlock, FirstFit, Fill, WriteMapped, WriteFresh;
    if data != [] && ok {
      FilledKeys(Table(v, i), d, off, data, HoleOf(Table(v, i), off, data), EndBlock(off, |data|), s, e);
    }
  }

  lemma WroteEffect(v: Vol, b2: State, d: Blocks, i: nat, off: nat, data: seq<byte>, s: nat,
                    es: seq<Xad>, next: nat, e: Blocks, b: State)
    requires IsLive(v, i) && !v.busy && Backed(Table(v, i), d) && b.bits == v.bits
    requires Wrote(Table(v, i), v.inodes[i].root.next, b, d, off, data, true, s, es, next, b2, e)
    ensures data != [] && Writable(v, d, Write(i, off, |data|)) ==>
              BytesWritten(v, d, i, off, data, Perform(v, Write(i, off, |data|)), e)
  {
    hide Backed, FirstHole, EndBlock, FirstFit, FileWrite.Filled, BytesWritten, Perform, Space, DeviceFits, MergesWell;
    if data != [] && Writable(v, d, Write(i, off, |data|)) {
      WriteBytes(v, d, i, off, data, s, e);
    }
  }

  lemma SameSizes(inodes: seq<Inode>)
    ensures SizesSame(inodes, inodes)
  {
  }

  lemma ShiftedAt(out: seq<Xad>, from: nat, to: nat, k: nat)
    requires Behind(out, from) && k < |out|
    ensures TakenOf(out)[k] == Taken(out[k].offset, out[k].length, out[k].address) && out[k].offset >= from
    ensures ShiftAll(out, from, to)[k]
         == Xad(0, (to + (out[k].offset - from)) % TWO40, out[k].length % TWO24, out[k].address % TWO40)
  {
  }

  lemma EntriesFit(u: Xtree)
    requires u.Valid()
    ensures |u.Entries()| <= SLOTS
    ensures u.nextindex < XTROOTMAXSLOT ==> |u.Entries()| < SLOTS
    ensures u.nextindex >= XTROOTMAXSLOT ==> |u.Entries()| == SLOTS
  {
  }

  lemma CutParts(c: Cut, r: Root)
    requires Ordered(c)
    ensures CutRoot(c, r) == Root(Stored(All(c, r.entries).kept), XTENTRYSTART + |All(c, r.entries).kept|) && RootOk(CutRoot(c, r))
    ensures TakenOf(All(c, r.entries).out) == [] <==> All(c, r.entries).out == []
  {
    hide All;
  }

  lemma GiveOk(r: Root, xs: seq<Xad>)
    requires RootOk(r)
    ensures Give(r, xs).Some? ==> RootOk(Give(r, xs).value)
  {
  }

  /** With nothing recorded, a rollback changes nothing. */
  lemma NothingUndone(s: State)
    requires s.given == s.freed == []
    ensures Undone(s) == s
  {
  }

  /** A move as the steps the code takes. */
  lemma MoveModel(v: Vol, src: nat, from: nat, dst: nat, to: nat, n: nat)
    requires src < |v.inodes| && dst < |v.inodes| && n > 0 && !v.busy
    ensures var s, t, q := v.inodes[src], Take(from, from + n), Punch(to, to + n);
            var out := All(t, s.root.entries).out;
            var w := Put(v, src, s.(root := CutRoot(t, s.root)));
            var d := w.inodes[dst];
            && Behind(out, from)
            && d.root == TargetRoot(v, src, from, dst, n)
            && (var given := Give(CutRoot(q, d.root), ShiftAll(out, from, to));
                && Perform(v, MoveRange(src, from, dst, to, n))
                   == (if out == [] then v
                       else if given.None? then w.(bits := Reclaim(v.bits, FreedOf(All(q, d.root.entries).out)))
                       else Put(w, dst, d.(root := given.value, size := Max(d.size, (to + n) * PAGE)))
                            .(bits := FreeAll(v.bits, FreedOf(All(q, d.root.entries).out))))
                && (out != [] && given.Some? <==> Move(s.root, d.root, from, to, n).Done?))
  {
    hide All, ShiftAll, Give, FreedOf, FreeAll, Reclaim, CutRoot;
    OutBehind(Take(from, from + n), v.inodes[src].root.entries);
  }

  /** The releases of a list that the allocator accepts. */
  function Accepted(bits: seq<bool>, cs: seq<Chunk>): seq<Change>
    decreases |cs|
  {
    if cs == [] then [] else
    Accepted(bits, cs[..|cs| - 1]) + if Allocator.Fits(bits, cs[|cs| - 1]) then [Released(cs[|cs| - 1])] else []
  }

  lemma AcceptedStep(bits: seq<bool>, cs: seq<Chunk>, c: Chunk)
    ensures Accepted(bits, []) == []
    ensures Accepted(bits, cs + [c]) == Accepted(bits, cs) + if Allocator.Fits(bits, c) then [Released(c)] else []
  {
    assert (cs + [c])[..|cs|] == cs;
  }

  /** Rolling releases back takes their chunks back, all of them. */
  lemma ReleasesUndone(s: State, es: seq<Change>, cs: seq<Chunk>)
    requires s.given == s.freed == [] && AllLegal(s, es) && es == Accepted(s.bits, cs)
    ensures Undone(Steps(s, es)).bits == Reclaim(s.bits, cs) && Undone(Steps(s, es)).given == Undone(Steps(s, es)).freed == []
  {
    hide AllLegal, Steps, InAny, FillAll, Total, Accepted, Reclaim;
    var t := Steps(s, es);
    RollbackBits(s, es);
    forall b: nat | b < |s.bits| ensures Undone(t).bits[b] == Reclaim(s.bits, cs)[b] {
      ReclaimAt(s, cs, b);
    }
  }

  lemma {:induction false} ReclaimAt(s: State, cs: seq<Chunk>, b: nat)
    requires b < |s.bits| && s.freed == []
    ensures Reclaim(s.bits, cs)[b] == if InAny(Steps(s, Accepted(s.bits, cs)).freed, b) then false else s.bits[b]
    decreases |cs|
  {
    hide InAny;
    InAnyNone(b);
    if cs != [] {
      var n := |cs| - 1;
      ReclaimAt(s, cs[..n], b);
      var es := Accepted(s.bits, cs[..n]);
      if Allocator.Fits(s.bits, cs[n]) {
        StepsAppend(s, es, Released(cs[n]));
        InAnyAppend(Steps(s, es).freed, cs[n], b);
      } else {
        assert es + [] == es;
      }
    }
  }

  lemma FindPhys(es: seq<Xad>, b: int)
    ensures Find(es, b).None? <==> Phys(es, b).None?
  {
    hide Find;
  }

  lemma PreallocEnd(d: Blocks, r: Root, bits: seq<bool>, c: nat, end: nat)
    requires c >= end
    ensures Prealloc(r, bits, c, end) == Filling(r, bits, true) && Zeroed(d, r, bits, c, end) == d
  {
  }

  lemma ResizeModel(v: Vol, i: nat, size: nat)
    requires i < |v.inodes| && !v.busy
    ensures var x := v.inodes[i];
            var c := Truncate(BlocksFor(size));
            Perform(v, Resize(i, size))
            == if BlocksFor(size) < BlocksFor(x.size)
               then Put(v, i, x.(size := size, root := CutRoot(c, x.root))).(bits := FreeAll(v.bits, FreedOf(All(c, x.root.entries).out)))
               else Put(v, i, x.(size := size))
  {
    hide FreeAll, FreedOf, All, CutRoot, BlocksFor;
  }

  lemma AllocateModel(v: Vol, i: nat, off: nat, len: nat, keep: bool)
    requires i < |v.inodes| && !v.busy
    ensures var x, f := v.inodes[i], Prealloc(v.inodes[i].root, v.bits, off / PAGE, BlocksFor(off + len));
            Perform(v, Allocate(i, off, len, keep))
            == if f.ok then Put(v, i, x.(root := f.root, size := if keep then x.size else Max(x.size, off + len))).(bits := f.bits)
               else v.(bits := f.bits, busy := true)
  {
    hide Prealloc;
  }

  lemma AllocateEffect(v: Vol, d: Blocks, i: nat, off: nat, len: nat, keep: bool, e: Blocks)
    requires IsLive(v, i) && !v.busy
    requires Prealloc(v.inodes[i].root, v.bits, off / PAGE, BlocksFor(off + len)).ok
    requires e == Zeroed(d, v.inodes[i].root, v.bits, off / PAGE, BlocksFor(off + len))
    ensures var w := Perform(v, Allocate(i, off, len, keep));
            Writable(v, d, Allocate(i, off, len, keep)) ==>
              BytesSame(v, d, w, e) && |w.inodes| == |v.inodes| && (!w.busy ==> RangeMapped(Table(w, i), off, len))
  {
    hide Space, Prealloc, Zeroed, DeviceFits, BytesSame, RoomToMerge, BlocksFor, Perform, RangeMapped;
    if Writable(v, d, Allocate(i, off, len, keep)) {
      var c, end := off / PAGE, BlocksFor(off + len);
      var w := BlockSafety.Filled(v, i, Prealloc(v.inodes[i].root, v.bits, c, end));
      if c < end {
        PreallocQuiet(v, d, i, c, end);
      } else {
        PreallocNone(v, d, i, c, end);
        Unchanged(v, d);
      }
      AllocateModel(v, i, off, len, keep);
      AllocateMaps(v, i, off, len, keep);
      SameTables(v, d, w, Perform(v, Allocate(i, off, len, keep)), e);
    }
  }

  lemma SameTables(v: Vol, d: Blocks, w: Vol, u: Vol, e: Blocks)
    requires BytesSame(v, d, w, e) && |u.inodes| == |w.inodes|
    requires forall g :: 0 <= g < |u.inodes| ==> u.inodes[g].root == w.inodes[g].root
    ensures BytesSame(v, d, u, e)
  {
    hide FileByte;
    forall g: nat, k: nat | IsLive(v, g) ensures FileByte(Table(u, g), e, k) == FileByte(Table(v, g), d, k) {
      assert FileByte(Table(w, g), e, k) == FileByte(Table(v, g), d, k);
      assert Table(u, g) == Table(w, g);
    }
  }

  /** Blocks that are handed out lie inside the map. */
  lemma LegalFits(s: State, c: Chunk)
    requires Legal(s, Allocated(c))
    ensures c.address + c.length <= |s.bits|
  {
  }

  lemma GrowIs(r: Root, c: nat, s: nat)
    requires RootOk(r)
    ensures var ins := Inserted(r.entries, c, 1, s);
            GrowRoot(r, c, 1, s)
            == if r.next <= XTROOTMAXSLOT && ins.Some? then Root(ins.value, XTENTRYSTART + |ins.value|) else r
    ensures RootOk(GrowRoot(r, c, 1, s))
  {
  }

  lemma ResizeEffect(v: Vol, d: Blocks, i: nat, size: nat, e: Blocks)
    requires IsLive(v, i) && !v.busy && Backed(Table(v, i), d)
    requires var was := v.inodes[i].size;
             e == if BlocksFor(size) > BlocksFor(was) && was % PAGE > 0 then LastCleared(d, v.inodes[i]) else d
    ensures Space(v) ==> BytesResized(v, d, i, size, Perform(v, Resize(i, size)), e)
  {
    hide Space, BytesResized, Perform, Phys, BlocksFor, ClearTail, RunPhys, Backed;
    if Space(v) {
      var was := v.inodes[i].size;
      var p := Phys(Table(v, i), was / PAGE);
      if BlocksFor(size) < BlocksFor(was) {
        ShrinkBytes(v, d, i, size);
      } else if BlocksFor(size) > BlocksFor(was) && was % PAGE > 0 && p.Some? {
        RunStart(Table(v, i), was / PAGE);
        BackedRun(Table(v, i), d, was / PAGE, was / PAGE);
        GrowBytes(v, d, i, size, p.value);
      } else {
        QuietResize(v, d, i, size);
      }
    }
  }
}

/**
 Tables without overlap over whole runs: which operations keep the extents of every live file apart and
 block 0 out of every table, so that reads and writes may follow one another.
 */
module TidyRuns {
  import opened Bytes
  import opened Extents
  import opened ExtentTable
  import opened Xtree
  import opened ExtentMove
  import opened Allocator
  import opened Ownership
  import opened FileData
  import opened FileWrite
  import opened VolumeModel
  import opened BlockSafety
  import opened BlockRuns

  // ---- Adding a run ----

  /** The change in mapped blocks behind `h` when a run is added there, in the 24 bits of a length. */
  function Gained(es: seq<Xad>, h: nat, n: nat, s: nat): int {
    if Continues(es, h, s) then (es[|es| - 1].length + n) % TWO24 - es[|es| - 1].length else n % TWO24
  }

  /** Without overflow that is the whole run. */
  lemma GainedAll(es: seq<Xad>, h: nat, n: nat, s: nat)
    requires n < TWO24 && MergeFits(es, h, n, s)
    ensures Gained(es, h, n, s) == n
  {
  }

  lemma InsertCover(es: seq<Xad>, h: nat, n: nat, s: nat, es2: seq<Xad>, b: int)
    requires h < TWO40 && Inserted(es, h, n, s) == Some(es2)
    ensures var g := Gained(es, h, n, s);
            Cover(es2, b) == Cover(es, b) + (if h <= b < h + g then 1 else 0) - (if h + g <= b < h then 1 else 0)
  {
    hide Cover;
    if Continues(es, h, s) {
      var k := |es| - 1;
      var init, x := es[..k], es[k];
      var y := SetLength(x, x.length + n);
      assert es == init + [x] && es2 == init + [y];
      CoverAppend(init, [x], b);
      CoverAppend(init, [y], b);
      CoverOne(x, b);
      CoverOne(y, b);
    } else {
      var y := Xad(1, h % TWO40, n % TWO24, s % TWO40);
      CoverAppend(es, [y], b);
      CoverOne(y, b);
    }
  }

  /** No block of the range is mapped. */
  ghost predicate Clear(es: seq<Xad>, from: int, to: int) {
    forall b: int :: from <= b < to ==> Phys(es, b).None?
  }

  lemma ApartAt(es: seq<Xad>, b: int)
    requires Apart(es)
    ensures Cover(es, b) <= 1
  {
    hide Cover;
  }

  /** A run that is added keeps the extents apart exactly when none of the blocks it maps was mapped. */
  lemma InsertApart(es: seq<Xad>, h: nat, n: nat, s: nat, es2: seq<Xad>)
    requires h < TWO40 && Inserted(es, h, n, s) == Some(es2) && Apart(es)
    ensures Apart(es2) <==> Clear(es, h, h + Gained(es, h, n, s))
  {
    hide Cover, Phys, Gained, Inserted;
    var g := Gained(es, h, n, s);
    forall b: int
      ensures Cover(es, b) <= 1 && (Cover(es, b) == 0 <==> Phys(es, b).None?)
      ensures Cover(es2, b) == Cover(es, b) + (if h <= b < h + g then 1 else 0) - (if h + g <= b < h then 1 else 0)
    {
      ApartAt(es, b);
      CoverPhys(es, b);
      InsertCover(es, h, n, s, es2, b);
    }
  }

  /**
   A write keeps the extents of a table apart exactly when it needs no new run, the table does not take
   the run, or all blocks from the first hole to the end of the range were unmapped.
   */
  lemma WriteApartWhen(es: seq<Xad>, next: nat, h: nat, end: nat, s: nat, es2: seq<Xad>)
    requires Apart(es) && h <= end <= TWO40 && end - h < TWO24 && Grows(es, next, h, end, s, es2)
    ensures Apart(es2) <==> h == end || !CanAdd(es, next, h, s) || Clear(es, h, end)
  {
    hide Apart, Inserted, Clear, CanAdd;
    if h < end && CanAdd(es, next, h, s) {
      InsertApart(es, h, end - h, s, es2);
      GainedAll(es, h, end - h, s);
    }
  }

  /** The same on a root, for runs of any length. */
  lemma GrowApart(r: Root, h: nat, n: nat, s: nat)
    requires h < TWO40 && Apart(r.entries)
    ensures Apart(GrowRoot(r, h, n, s).entries)
            <==> (CanAdd(r.entries, r.next, h, s) ==> Clear(r.entries, h, h + Gained(r.entries, h, n, s)))
  {
    hide Apart, Clear, Gained;
    if CanAdd(r.entries, r.next, h, s) {
      InsertApart(r.entries, h, n, s, GrowRoot(r, h, n, s).entries);
    }
  }

  /** One new block for a block that had none. */
  lemma BlockApart(r: Root, c: nat, s: nat)
    requires c < TWO40 && Apart(r.entries) && Phys(r.entries, c).None?
    ensures Apart(GrowRoot(r, c, 1, s).entries)
  {
    hide Apart, Phys, GrowRoot, CanAdd;
    GrowApart(r, c, 1, s);
  }

  // ---- The other table operations ----

  lemma CutApart(c: Cut, r: Root)
    requires Ordered(c) && AllInSpace(r.entries) && Apart(r.entries)
    ensures Apart(CutRoot(c, r).entries)
  {
    hide Apart, All, InSpace;
    var kept := All(c, r.entries).kept;
    CutKeepsApart(c, r.entries);
    ApartPrefix(kept, |Stored(kept)|);
    assert Stored(kept) == kept[..|Stored(kept)|];
  }

  lemma {:induction false} PreallocApart(r: Root, bits: seq<bool>, c: nat, end: nat)
    requires Apart(r.entries) && end <= TWO40
    ensures Apart(Prealloc(r, bits, c, end).root.entries)
    decreases end - c
  {
    hide Apart, Phys, FirstFit, GrowRoot, Fill;
    if c < end {
      if Phys(r.entries, c).Some? {
        PreallocApart(r, bits, c + 1, end);
      } else if FirstFit(bits, 1, c).Some? {
        var s := FirstFit(bits, 1, c).value;
        BlockApart(r, c, s);
        PreallocApart(GrowRoot(r, c, 1, s), Fill(bits, Chunk(s, 1), false), c + 1, end);
      }
    }
  }

  /** A table of at most one extent covers what it maps. */
  lemma ShortCover(es: seq<Xad>, b: int)
    requires |es| <= 1
    ensures Cover(es, b) == if Phys(es, b).Some? then 1 else 0
  {
    hide Phys;
    if es == [] {
      NoExtents(b);
    } else {
      assert es == [es[0]];
      CoverOne(es[0], b);
      PhysOne(es[0], b);
    }
  }

  /** What is taken out covers the window as the table did. */
  lemma {:induction false} TakenCover(start: nat, end: nat, es: seq<Xad>, b: int)
    requires start < end && AllInSpace(es)
    ensures Cover(All(Take(start, end), es).out, b) == if start <= b < end then Cover(es, b) else 0
    decreases |es|
  {
    hide One, InSpace;
    var c := Take(start, end);
    if es != [] {
      var init, x := es[..|es| - 1], es[|es| - 1];
      TakenCover(start, end, init, b);
      CoverAppend(All(c, init).out, One(c, x).out, b);
      OneTakenCover(start, end, x, b);
    }
  }

  lemma OneTakenCover(start: nat, end: nat, x: Xad, b: int)
    requires start < end && InSpace(x)
    ensures Cover(One(Take(start, end), x).out, b) == if start <= b < end && Has(x, b) then 1 else 0
  {
    hide Cover, Phys;
    var c := Take(start, end);
    TakenShort(start, end, x);
    ShortCover(One(c, x).out, b);
    OneExact(c, x, b);
    PhysOne(x, b);
  }

  lemma TakenShort(start: nat, end: nat, x: Xad)
    requires start < end
    ensures |One(Take(start, end), x).out| <= 1
  {
  }

  lemma {:induction false} ShiftCover(xs: seq<Xad>, from: nat, to: nat, n: nat, b: int)
    requires Behind(xs, from) && AllInSpace(xs) && to + n <= TWO40
    requires forall i :: 0 <= i < |xs| ==> xs[i].length > 0 && xs[i].offset + xs[i].length <= from + n
    ensures Cover(ShiftAll(xs, from, to), b) == Cover(xs, b - to + from)
    decreases |xs|
  {
    hide InSpace, Shifted;
    if xs == [] {
      assert ShiftAll(xs, from, to) == [];
    } else {
      var k := |xs| - 1;
      var init, x := xs[..k], xs[k];
      assert forall i :: 0 <= i < k ==> init[i] == xs[i];
      ShiftCover(init, from, to, n, b);
      ShiftedFields(x, from, to, n);
      assert ShiftAll(xs, from, to)[..k] == ShiftAll(init, from, to);
    }
  }

  /** A move leaves both tables without overlap, whatever becomes of the addresses. */
  lemma MoveApart(src: Root, dst: Root, from: nat, to: nat, n: nat)
    requires n > 0 && to + n <= TWO40 && Move(src, dst, from, to, n).Done?
    requires AllInSpace(src.entries) && AllInSpace(dst.entries) && Apart(src.entries) && Apart(dst.entries)
    ensures Apart(Move(src, dst, from, to, n).dst.entries)
  {
    hide Cover, All, ShiftAll, InSpace, Move;
    MoveParts(src, dst, from, to, n);
    var t, q := Take(from, from + n), Punch(to, to + n);
    var out := All(t, src.entries).out;
    TakenInside(t, src.entries);
    TakenOutInSpace(from, n, src.entries);
    forall b: int ensures Cover(Move(src, dst, from, to, n).dst.entries, b) <= 1 {
      CoverAppend(All(q, dst.entries).kept, ShiftAll(out, from, to), b);
      CutCover(q, dst.entries, b);
      ShiftCover(out, from, to, n, b);
      TakenCover(from, from + n, src.entries, b - to + from);
      ApartAt(src.entries, b - to + from);
      ApartAt(dst.entries, b);
    }
  }

  lemma TakenOutInSpace(from: nat, n: nat, es: seq<Xad>)
    requires n > 0 && AllInSpace(es)
    ensures AllInSpace(All(Take(from, from + n), es).out)
  {
    hide InSpace, All, Phys;
    AllExact(Take(from, from + n), es, 0);
  }

  // ---- The volume ----

  /** Neither the allocator nor a file has block 0. */
  predicate ZeroUnowned(v: Vol) {
    Owners(Claims(v.inodes), v.bits, 0) == 0
  }

  /** A new file does not find block 0 in its slot. */
  predicate ZeroLeft(v: Vol, op: Op) {
    var slot := FirstUnused(v.inodes, 0);
    op.Create? && !v.busy && slot.Some? && GoodName(op.name) ==> 0 !in BlocksOf(v.inodes[slot.value].root.entries)
  }

  lemma CreateZero(v: Vol, name: Name, room: bool)
    requires ZeroUnowned(v) && !v.busy
    ensures ZeroUnowned(DoCreate(v, name, room)) <==> ZeroLeft(v, Create(name, room))
  {
    hide FirstUnused, GoodName, Claims, BlocksOf, Claimed;
    SlotUnused(v.inodes);
    var slot := FirstUnused(v.inodes, 0);
    if slot.Some? && GoodName(name) {
      var x := Inode(true, 1, 0, v.inodes[slot.value].root);
      ClaimsPut(v.inodes, slot.value, x);
      ClaimedUpdate(Claims(v.inodes), slot.value, ClaimOf(x), 0);
    }
  }

  lemma KeptZero(v: Vol, w: Vol)
    requires Keeps(v, w) && ZeroUnowned(v)
    ensures ZeroUnowned(w)
  {
    hide Space, Claims, Owners;
  }

  /** Careful operations give nobody block 0, except to a new file whose slot names it. */
  lemma StepZeroWhen(v: Vol, op: Op)
    requires Space(v) && ZeroUnowned(v) && Careful(v, op)
    ensures Space(Perform(v, op)) && (ZeroUnowned(Perform(v, op)) <==> ZeroLeft(v, op))
  {
    hide Space, Keeps, ZeroUnowned, GrowsWithin, PunchSafe, MoveSafe, Unowned, FirstUnused, EmptySlot, DoCreate, Perform, BlocksOf;
    StepKeepsSpace(v, op);
    if op.Create? && !v.busy {
      CreateIs(v, op.name, op.room);
      CreateZero(v, op.name, op.room);
    } else {
      KeptZero(v, Perform(v, op));
    }
  }

  ghost predicate ZeroLeftRun(v: Vol, ops: seq<Op>)
    requires CarefulRun(v, ops)
    decreases |ops|
  {
    ops == [] || (ZeroLeft(v, ops[0]) && ZeroLeftRun(Perform(v, ops[0]), ops[1..]))
  }

  /** So block 0 stays out of every table over whole runs. */
  lemma {:induction false} RunKeepsZero(v: Vol, ops: seq<Op>)
    requires Space(v) && ZeroUnowned(v) && CarefulRun(v, ops) && ZeroLeftRun(v, ops)
    ensures Space(RunOf(v, ops)) && ZeroUnowned(RunOf(v, ops))
    decreases |ops|
  {
    hide Space, ZeroUnowned, ZeroLeft, GrowsWithin, PunchSafe, FirstUnused, MoveSafe, Unowned, Perform;
    if ops != [] {
      StepZeroWhen(v, ops[0]);
      RunKeepsZero(Perform(v, ops[0]), ops[1..]);
    }
  }

  /** Such tables are fit for the next read or write, overlapping or not. */
  lemma SpaceIsReady(v: Vol, d: Blocks, i: nat)
    requires Space(v) && ZeroUnowned(v) && IsLive(v, i) && forall p: nat :: p < |v.bits| ==> p in d
    ensures Sound(v.inodes[i].root.entries, d)
    ensures |v.bits| > 0 ==> !v.bits[0]
  {
    hide Space, Apart, BlocksOf, ClaimsOnce, AllInSpace, Claims;
    SpaceIsSound(v, i, d);
    var es := v.inodes[i].root.entries;
    forall k: nat | k < |es| ensures SlotBacked(es[k], d) {
      forall p: nat | Holds(es[k], p) ensures 0 < p && p in d {
        PhysClaimed(es, k, p);
        ClaimedInside(v, i, p);
      }
    }
  }

  lemma ClaimedInside(v: Vol, i: nat, p: nat)
    requires Space(v) && ZeroUnowned(v) && IsLive(v, i) && p in BlocksOf(v.inodes[i].root.entries)
    ensures 0 < p < |v.bits|
  {
    hide Owned, RootsFine, BlocksOf, Claimed;
    ClaimsPut(v.inodes, i, v.inodes[i]);
    OwnedMeans(Claims(v.inodes), v.bits, i, p);
    ClaimedUpdate(Claims(v.inodes), i, multiset{}, 0);
  }

  ghost predicate AllApart(inodes: seq<Inode>) {
    forall i :: 0 <= i < |inodes| && inodes[i].live ==> Apart(inodes[i].root.entries)
  }

  /** One owner for every block and none for block 0, and no table with extents that overlap. */
  ghost predicate Tidy(v: Vol) {
    Space(v) && ZeroUnowned(v) && AllApart(v.inodes)
  }

  lemma ApartPut(inodes: seq<Inode>, i: nat, x: Inode)
    requires i < |inodes| && AllApart(inodes)
    ensures AllApart(inodes[i := x]) <==> (x.live ==> Apart(x.root.entries))
  {
    hide Apart;
    assert inodes[i := x][i] == x;
  }

  /**
   The part of an operation's care that only tables without overlap need: a new file finds such a table,
   without block 0, and a write that adds a run finds all of its blocks unmapped.
   */
  ghost predicate Orderly(v: Vol, op: Op)
    requires Addressed(v, op)
  {
    match op
    case Create(name, _) =>
      var slot := FirstUnused(v.inodes, 0);
      ZeroLeft(v, op) && (!v.busy && slot.Some? && GoodName(name) ==> Apart(v.inodes[slot.value].root.entries))
    case Write(i, off, len) =>
      var r, end := v.inodes[i].root, EndBlock(off, len);
      var h := FirstHole(r.entries, off / PAGE, end);
      !v.busy && len > 0 && h < end && FirstFit(v.bits, end - h, h).Some? ==>
        var s := FirstFit(v.bits, end - h, h).value;
        CanAdd(r.entries, r.next, h, s) ==> Clear(r.entries, h, h + Gained(r.entries, h, end - h, s))
    case _ => true
  }

  lemma WriteTidy(v: Vol, i: nat, off: nat, len: nat)
    requires AllApart(v.inodes) && !v.busy && GrowsWithin(v, i, off / PAGE, EndBlock(off, len))
    ensures AllApart(DoWrite(v, i, off, len).inodes) <==> Orderly(v, Write(i, off, len))
  {
    hide Apart, FirstHole, FirstFit, GrowRoot, CanAdd, Clear, Gained, EndBlock, Fill;
    EndBlockBounds(off, len);
    var x, end := v.inodes[i], EndBlock(off, len);
    var h := FirstHole(x.root.entries, off / PAGE, end);
    HoleInside(x.root.entries, off / PAGE, end);
    var y := DoWrite(v, i, off, len).inodes[i];
    ApartPut(v.inodes, i, y);
    if len > 0 && h < end && FirstFit(v.bits, end - h, h).Some? {
      GrowApart(x.root, h, end - h, FirstFit(v.bits, end - h, h).value);
    }
  }

  lemma CreateTidy(v: Vol, name: Name, room: bool)
    requires AllApart(v.inodes) && !v.busy && Addressed(v, Create(name, room)) && ZeroLeft(v, Create(name, room))
    ensures AllApart(DoCreate(v, name, room).inodes) <==> Orderly(v, Create(name, room))
  {
    hide Apart, FirstUnused, GoodName, BlocksOf;
    SlotUnused(v.inodes);
    var slot := FirstUnused(v.inodes, 0);
    if slot.Some? && GoodName(name) {
      ApartPut(v.inodes, slot.value, Inode(true, 1, 0, v.inodes[slot.value].root));
    }
  }

  lemma CutTidy(v: Vol, i: nat, c: Cut)
    requires Space(v) && AllApart(v.inodes) && IsLive(v, i) && Ordered(c)
    ensures AllApart(DoCut(v, i, c).inodes)
  {
    hide Owned, RootsFine, Apart, CutRoot, All, FreedOf, FreeAll, InSpace;
    RootAt(v, i);
    CutApart(c, v.inodes[i].root);
    ApartPut(v.inodes, i, DoCut(v, i, c).inodes[i]);
  }

  lemma AllocateTidy(v: Vol, i: nat, off: nat, len: nat, keep: bool)
    requires AllApart(v.inodes) && GrowsWithin(v, i, off / PAGE, BlocksFor(off + len))
    ensures AllApart(DoAllocate(v, i, off, len, keep).inodes)
  {
    hide Apart, Prealloc, BlocksFor;
    var x, c, end := v.inodes[i], off / PAGE, BlocksFor(off + len);
    if c < end {
      PreallocApart(x.root, v.bits, c, end);
    } else {
      NothingToFill(x.root, v.bits, c, end);
    }
    ApartPut(v.inodes, i, DoAllocate(v, i, off, len, keep).inodes[i]);
  }

  lemma MoveTidy(v: Vol, src: nat, from: nat, dst: nat, to: nat, n: nat)
    requires Space(v) && AllApart(v.inodes) && IsLive(v, src) && IsLive(v, dst) && n > 0 && to + n <= TWO40
    ensures AllApart(DoMove(v, src, from, dst, to, n).inodes)
  {
    hide Owned, RootsFine, Apart, CutRoot, All, FreedOf, FreeAll, Reclaim, InSpace, Move, DoMove;
    DoMoveIs(v, src, from, dst, to, n);
    RootAt(v, src);
    RootAt(v, dst);
    var s, t := v.inodes[src], Take(from, from + n);
    var r := CutRoot(t, s.root);
    CutApart(t, s.root);
    CutFine(t, s.root);
    ApartPut(v.inodes, src, s.(root := r));
    var d := TargetRoot(v, src, from, dst, n);
    var w := DoMove(v, src, from, dst, to, n);
    if Move(s.root, d, from, to, n).Done? {
      MoveApart(s.root, d, from, to, n);
      ApartPut(Put(v, src, s.(root := r)).inodes, dst, w.inodes[dst]);
    }
  }

  /** An operation without effect on the tables, but for one that may be given up. */
  lemma SameTidy(v: Vol, w: Vol, i: nat, x: Inode)
    requires AllApart(v.inodes) && i < |v.inodes| && w.inodes == v.inodes[i := x]
    requires x.live ==> v.inodes[i].live && x.root == v.inodes[i].root
    ensures AllApart(w.inodes)
  {
    hide Apart;
    ApartPut(v.inodes, i, x);
  }

  lemma OthersTidy(v: Vol, op: Op)
    requires Space(v) && AllApart(v.inodes) && Careful(v, op) && (op.Create? || op.Write? ==> v.busy)
    ensures AllApart(Perform(v, op).inodes)
  {
    hide Space, AllApart, GrowsWithin, DoCreate, DoWrite, DoCut, DoAllocate, DoMove, PunchSafe, MoveSafe, Unowned, FirstUnused, FreeAll, FreedBy,
         BlocksFor, PageOf;
    if op.Release? {
      SameTidy(v, Closed(v, op.ino), op.ino, v.inodes[op.ino]);
      SameTidy(v, Put(v, op.ino, v.inodes[op.ino].(live := false)), op.ino, v.inodes[op.ino].(live := false));
    } else if op.Open? || op.SyncAll? || v.busy {
      assert Perform(v, op).inodes == v.inodes;
    } else {
      match op
      case Link(name, room, t) => SameTidy(v, Put(v, t, v.inodes[t].(nlink := v.inodes[t].nlink + 1)), t, v.inodes[t].(nlink := v.inodes[t].nlink + 1));
      case Unlink(name) =>
        if name in v.names {
          SameTidy(v, Perform(v, op), v.names[name], Perform(v, op).inodes[v.names[name]]);
        }
      case Resize(i, size) => ResizeTidy(v, i, size);
      case Allocate(i, off, len, keep) => AllocateTidy(v, i, off, len, keep);
      case PunchHole(i, off, len) =>
        if off / PAGE < BlocksFor(off + len) {
          CutTidy(v, i, Punch(off / PAGE, BlocksFor(off + len)));
        }
      case MoveRange(src, from, dst, to, n) => MoveTidy(v, src, from, dst, to, n);
    }
  }

  lemma ResizeTidy(v: Vol, i: nat, size: nat)
    requires Space(v) && AllApart(v.inodes) && IsLive(v, i)
    ensures AllApart(DoResize(v, i, size).inodes)
  {
    hide Space, AllApart, CutRoot, FreeAll, FreedOf, All, BlocksFor;
    var c := Truncate(BlocksFor(size));
    CutTidy(v, i, c);
    var w := if BlocksFor(size) < BlocksFor(v.inodes[i].size) then DoCut(v, i, c) else v;
    SameTidy(w, DoResize(v, i, size), i, w.inodes[i].(size := size));
  }

  /**
   Exactly when a careful operation keeps the volume tidy: only a write over blocks mapped behind a hole
   and a new file with extents left in its slot can break it.
   */
  lemma StepTidyWhen(v: Vol, op: Op)
    requires Tidy(v) && Careful(v, op)
    ensures Tidy(Perform(v, op)) <==> Orderly(v, op)
  {
    hide Space, AllApart, ZeroUnowned, ZeroLeft, Orderly, GrowsWithin, PunchSafe, MoveSafe, Unowned, FirstUnused, DoCreate, DoWrite, Perform;
    StepZeroWhen(v, op);
    OrderlyZero(v, op);
    if op.Create? && !v.busy {
      CreateIs(v, op.name, op.room);
      if ZeroLeft(v, op) {
        CreateTidy(v, op.name, op.room);
      }
    } else if op.Write? && !v.busy {
      WriteIs(v, op.ino, op.off, op.len);
      WriteTidy(v, op.ino, op.off, op.len);
    } else {
      OthersTidy(v, op);
      OthersOrderly(v, op);
    }
  }

  lemma OrderlyZero(v: Vol, op: Op)
    requires Addressed(v, op)
    ensures Orderly(v, op) ==> ZeroLeft(v, op)
  {
    hide Clear, Gained, BlocksOf, FirstUnused;
  }

  lemma WriteIs(v: Vol, i: nat, off: nat, len: nat)
    requires !v.busy && i < |v.inodes|
    ensures Perform(v, Write(i, off, len)) == DoWrite(v, i, off, len)
  {
  }

  lemma OthersOrderly(v: Vol, op: Op)
    requires Addressed(v, op) && (op.Create? || op.Write? ==> v.busy)
    ensures Orderly(v, op)
  {
  }

  /** Every operation of a careful run is orderly in the state it meets. */
  ghost predicate OrderlyRun(v: Vol, ops: seq<Op>)
    requires CarefulRun(v, ops)
    decreases |ops|
  {
    ops == [] || (Orderly(v, ops[0]) && OrderlyRun(Perform(v, ops[0]), ops[1..]))
  }

  /** Every state of a run is tidy exactly when every operation of the run is orderly. */
  lemma {:induction false} RunTidyWhen(v: Vol, ops: seq<Op>)
    requires Tidy(v) && CarefulRun(v, ops)
    ensures OrderlyRun(v, ops) <==> TidyRun(v, ops)
    decreases |ops|
  {
    hide Tidy, GrowsWithin, PunchSafe, FirstUnused, MoveSafe, Unowned, Orderly, Perform;
    if ops != [] {
      StepTidyWhen(v, ops[0]);
      if Tidy(Perform(v, ops[0])) {
        RunTidyWhen(Perform(v, ops[0]), ops[1..]);
      }
    }
  }

  ghost predicate TidyRun(v: Vol, ops: seq<Op>)
    requires CarefulRun(v, ops)
    decreases |ops|
  {
    Tidy(v) && (ops == [] || TidyRun(Perform(v, ops[0]), ops[1..]))
  }
}

/**
 Block ownership over whole runs, and the operations that break it.
 */
module BlockRuns {
  import opened Bytes
  import opened Extents
  import opened ExtentTable
  import opened Xtree
  import opened ExtentMove
  import opened Allocator
  import opened Ownership
  import opened FileData
  import opened FileWrite
  import opened VolumeModel
  import opened BlockSafety

  predicate GrowsWithin(v: Vol, i: nat, start: nat, end: nat) {
    IsLive(v, i) && (start < end ==> end <= TWO40)
  }

  /** The blocks of a root are used by nobody: a new file may claim them. */
  ghost predicate Unowned(v: Vol, r: Root) {
    && RootFine(r)
    && (forall p: nat :: p in BlocksOf(r.entries) ==>
          BlocksOf(r.entries)[p] == 1 && p < |v.bits| && !v.bits[p] && Claimed(Claims(v.inodes), p) == 0)
  }

  /** What an operation needs so that every block keeps one owner. */
  ghost predicate Careful(v: Vol, op: Op) {
    && Addressed(v, op)
    && match op
       case Create(name, _) =>
         var slot := FirstUnused(v.inodes, 0);
         slot.Some? && GoodName(name) ==> Unowned(v, v.inodes[slot.value].root)
       case Write(i, off, len) => GrowsWithin(v, i, off / PAGE, EndBlock(off, len))
       case Resize(i, _) => IsLive(v, i)
       case Allocate(i, off, len, _) => GrowsWithin(v, i, off / PAGE, BlocksFor(off + len))
       case PunchHole(i, off, len) =>
         IsLive(v, i) && (off / PAGE < BlocksFor(off + len) ==> PunchSafe(v.inodes[i].root.entries, off / PAGE, BlocksFor(off + len)))
       case MoveRange(src, from, dst, to, n) =>
         IsLive(v, src) && IsLive(v, dst) && to + n <= TWO40 && MoveSafe(v, src, from, dst, to, n)
       case _ => true
  }

  /** The move takes nothing, does not fit, or splits no extent of its target. */
  ghost predicate MoveSafe(v: Vol, src: nat, from: nat, dst: nat, to: nat, n: nat)
    requires src < |v.inodes| && dst < |v.inodes| && n > 0
  {
    var d := TargetRoot(v, src, from, dst, n);
    Move(v.inodes[src].root, d, from, to, n).Done? ==> !SomeSpan(d.entries, to, to + n)
  }

  /** The slot a new file will take is empty. */
  ghost predicate EmptySlot(v: Vol) {
    var slot := FirstUnused(v.inodes, 0);
    slot.Some? ==> RootFine(v.inodes[slot.value].root) && BlocksOf(v.inodes[slot.value].root.entries) == multiset{}
  }

  lemma CreateKeeps(v: Vol, name: Name, room: bool)
    requires Space(v) && EmptySlot(v)
    ensures Keeps(v, DoCreate(v, name, room))
  {
    hide Owned, Claims, RootFine, BlocksOf, FirstUnused, Keeps, GoodName, RootsFine;
    SlotUnused(v.inodes);
    var slot := FirstUnused(v.inodes, 0);
    var w := DoCreate(v, name, room);
    if slot.Some? && GoodName(name) {
      var i := slot.value;
      var x := Inode(true, 1, 0, v.inodes[i].root);
      ClaimsPut(v.inodes, i, x);
      RootsPut(v.inodes, i, x);
      assert Claims(v.inodes)[i := ClaimOf(x)] == Claims(v.inodes);
      assert Space(Put(v, i, x));
      SameOwners(v, w);
    } else {
      KeepsSame(v, w);
    }
  }

  lemma SameOwners(v: Vol, w: Vol)
    requires Space(v) && Claims(w.inodes) == Claims(v.inodes) && w.bits == v.bits && RootsFine(w.inodes)
    ensures Keeps(v, w)
  {
    hide Owned, Claims, RootsFine;
  }

  lemma UnlinkKeeps(v: Vol, name: Name)
    requires Space(v) && (name in v.names ==> v.names[name] < |v.inodes|)
    ensures Keeps(v, DoUnlink(v, name))
  {
    hide Space, FreedBy, FreeAll, Keeps;
    if name in v.names {
      var i := v.names[name];
      var w, u := v.(names := v.names - {name}), DoUnlink(v, name);
      KeepsSame(v, w);
      KeptSpace(v, w);
      if u.bits == v.bits && u.inodes[i].live == v.inodes[i].live {
        SameClaimKeeps(w, i, u.inodes[i]);
      } else {
        FreeKeeps(w, i, u.inodes[i]);
      }
      KeepsTwice(v, w, u);
    } else {
      KeepsSame(v, v);
    }
  }

  lemma ReleaseFileKeeps(v: Vol, i: nat)
    requires Space(v) && i < |v.inodes|
    ensures Keeps(v, DoRelease(v, i))
  {
    hide Space, FreedBy, FreeAll, Keeps;
    var w := Closed(v, i);
    KeepsSame(v, w);
    KeptSpace(v, w);
    FreeKeeps(w, i, v.inodes[i].(live := false));
    if DoRelease(v, i) != w {
      KeepsTwice(v, w, DoRelease(v, i));
    }
  }

  lemma WriteKeeps(v: Vol, i: nat, off: nat, len: nat)
    requires Space(v) && GrowsWithin(v, i, off / PAGE, EndBlock(off, len))
    ensures Keeps(v, DoWrite(v, i, off, len))
  {
    hide Space, FirstHole, FirstFit, GrowRoot, Fill, AllAre, EndBlock, Keeps;
    EndBlockBounds(off, len);
    var x, end := v.inodes[i], EndBlock(off, len);
    var h := FirstHole(x.root.entries, off / PAGE, end);
    var size := Max(x.size, off + len);
    HoleInside(x.root.entries, off / PAGE, end);
    if len == 0 || h == end {
      SameClaimKeeps(v, i, x.(size := size));
    } else if FirstFit(v.bits, end - h, h).Some? {
      var s := FirstFit(v.bits, end - h, h).value;
      FirstFitLegal(v.bits, end - h, h);
      GrowKeeps(v, i, h, end - h, s, x.(size := size, root := GrowRoot(x.root, h, end - h, s)));
    } else {
      KeepsSame(v, v.(busy := true));
    }
  }

  lemma HoleInside(es: seq<Xad>, cur: nat, end: nat)
    requires cur <= end
    ensures cur <= FirstHole(es, cur, end) <= end
  {
  }

  lemma ResizeKeeps(v: Vol, i: nat, size: nat)
    requires Space(v) && IsLive(v, i)
    ensures Keeps(v, DoResize(v, i, size))
  {
    hide Space, CutRoot, All, FreedOf, FreeAll, BlocksFor, Keeps, CutClaimed;
    var x, c := v.inodes[i], Truncate(BlocksFor(size));
    if BlocksFor(size) < BlocksFor(x.size) {
      TruncateClaimed(v, i, BlocksFor(size));
      CutKeeps(v, i, c, x.(root := CutRoot(c, x.root)));
      var w := DoCut(v, i, c);
      KeptSpace(v, w);
      SameClaimKeeps(w, i, w.inodes[i].(size := size));
      KeepsTwice(v, w, DoResize(v, i, size));
    } else {
      SameClaimKeeps(v, i, x.(size := size));
    }
  }

  lemma TruncateClaimed(v: Vol, i: nat, eof: nat)
    requires Space(v) && IsLive(v, i)
    ensures CutClaimed(Truncate(eof), v.inodes[i].root.entries)
  {
    hide Owned, RootsFine, All, BlocksOf, Stored, InSpace;
    RootAt(v, i);
    TruncateHandled(eof, v.inodes[i].root.entries);
    CutClaims(Truncate(eof), v.inodes[i].root.entries);
  }

  lemma AllocateKeeps(v: Vol, i: nat, off: nat, len: nat, keep: bool)
    requires Space(v) && GrowsWithin(v, i, off / PAGE, BlocksFor(off + len))
    ensures Keeps(v, DoAllocate(v, i, off, len, keep))
  {
    hide Space, Prealloc, BlocksFor, Keeps;
    var x, c, end := v.inodes[i], off / PAGE, BlocksFor(off + len);
    var f := Prealloc(x.root, v.bits, c, end);
    var w := BlockSafety.Filled(v, i, f);
    if c < end {
      PreallocKeeps(v, i, c, end);
    } else {
      NothingToFill(x.root, v.bits, c, end);
      assert w == v;
      KeepsSame(v, v);
    }
    var u := DoAllocate(v, i, off, len, keep);
    if f.ok {
      KeptSpace(v, w);
      SameClaimKeeps(w, i, u.inodes[i]);
      assert Put(w, i, u.inodes[i]) == u;
      KeepsTwice(v, w, u);
    } else {
      FewerFree(v, f.bits);
      KeptSpace(v, v.(bits := f.bits));
      KeepsSame(v.(bits := f.bits), u);
      KeepsTwice(v, v.(bits := f.bits), u);
    }
  }

  lemma NothingToFill(r: Root, bits: seq<bool>, c: nat, end: nat)
    requires c >= end
    ensures Prealloc(r, bits, c, end) == Filling(r, bits, true)
  {
  }

  lemma PunchHoleKeeps(v: Vol, i: nat, off: nat, len: nat)
    requires Space(v) && Careful(v, PunchHole(i, off, len))
    ensures Keeps(v, DoPunch(v, i, off, len))
  {
    hide Space, CutRoot, All, FreedOf, FreeAll, BlocksFor, Keeps, CutClaimed, PunchSafe;
    if off / PAGE < BlocksFor(off + len) {
      var c, x := Punch(off / PAGE, BlocksFor(off + len)), v.inodes[i];
      PunchClaimed(v, i, c.start, c.end);
      CutKeeps(v, i, c, x.(root := CutRoot(c, x.root)));
    } else {
      KeepsSame(v, v);
    }
  }

  lemma PunchClaimed(v: Vol, i: nat, start: nat, end: nat)
    requires Space(v) && IsLive(v, i) && start < end && PunchSafe(v.inodes[i].root.entries, start, end)
    ensures CutClaimed(Punch(start, end), v.inodes[i].root.entries)
  {
    hide Owned, RootsFine, All, BlocksOf, Stored, InSpace, PunchSafe;
    RootAt(v, i);
    var es := v.inodes[i].root.entries;
    TakeHandled(start, end, es);
    CutClaims(Take(start, end), es);
    SafePunchIsTake(es, start, end);
  }

  /** A careful creation: a slot without blocks, or with blocks that nobody uses. */
  lemma CreateSpace(v: Vol, name: Name, room: bool)
    requires Space(v) && !v.busy && Careful(v, Create(name, room))
    ensures Space(Perform(v, Create(name, room)))
  {
    hide Space, FirstUnused, GoodName, Unowned, Keeps;
    if FirstUnused(v.inodes, 0).Some? && GoodName(name) {
      CreateKeepsWhen(v, name, room);
    } else {
      KeepsSame(v, Perform(v, Create(name, room)));
      KeptSpace(v, Perform(v, Create(name, room)));
    }
  }

  /** Every careful operation keeps every block with at most one owner; only a creation may give a block a new one. */
  lemma StepKeepsSpace(v: Vol, op: Op)
    requires Space(v) && Careful(v, op)
    ensures Space(Perform(v, op))
    ensures !op.Create? || v.busy || EmptySlot(v) ==> Keeps(v, Perform(v, op))
  {
    hide Space, Keeps, GrowsWithin, PunchSafe, MoveSafe, Unowned, FirstUnused, EmptySlot, DoCreate, Perform;
    if op.Create? && !v.busy {
      CreateSpace(v, op.name, op.room);
      if EmptySlot(v) {
        CreateKeeps(v, op.name, op.room);
        CreateIs(v, op.name, op.room);
      }
    } else {
      OthersKeep(v, op);
      KeptSpace(v, Perform(v, op));
    }
  }

  lemma CreateIs(v: Vol, name: Name, room: bool)
    requires !v.busy
    ensures Perform(v, Create(name, room)) == DoCreate(v, name, room)
  {
  }

  lemma OthersKeep(v: Vol, op: Op)
    requires Space(v) && Careful(v, op) && (op.Create? ==> v.busy)
    ensures Keeps(v, Perform(v, op))
  {
    hide Space, Keeps, GrowsWithin, DoCreate, DoUnlink, DoRelease, DoWrite, DoResize, DoAllocate, DoPunch, DoMove, SomeSpan, TargetRoot, PunchSafe,
         Unowned, FirstUnused;
    if op.Open? || op.SyncAll? {
      KeepsSame(v, Perform(v, op));
    } else if op.Release? {
      ReleaseFileKeeps(v, op.ino);
    } else if v.busy {
      KeepsSame(v, v);
    } else {
      match op
      case Link(name, room, t) => LinkSpace(v, name, room, t);
      case Unlink(name) => UnlinkKeeps(v, name);
      case Write(i, off, len) => WriteKeeps(v, i, off, len);
      case Resize(i, size) => ResizeKeeps(v, i, size);
      case Allocate(i, off, len, keep) => AllocateKeeps(v, i, off, len, keep);
      case PunchHole(i, off, len) => PunchHoleKeeps(v, i, off, len);
      case MoveRange(src, from, dst, to, n) => MoveKeeps(v, src, from, dst, to, n);
    }
  }

  lemma LinkSpace(v: Vol, name: Name, room: bool, t: nat)
    requires Space(v) && t < |v.inodes|
    ensures Keeps(v, DoLink(v, name, room, t))
  {
    hide Space, Keeps;
    var x := v.inodes[t];
    var w, u := Put(v, t, x.(nlink := x.nlink + 1)), DoLink(v, name, room, t);
    SameClaimKeeps(v, t, x.(nlink := x.nlink + 1));
    KeptSpace(v, w);
    if u == v {
      KeepsSame(v, v);
    } else {
      KeepsSame(w, u);
      KeepsTwice(v, w, u);
    }
  }

  /** A run of operations, each careful in the state it meets. */
  ghost predicate CarefulRun(v: Vol, ops: seq<Op>)
    decreases |ops|
  {
    ops == [] || (Careful(v, ops[0]) && CarefulRun(Perform(v, ops[0]), ops[1..]))
  }

  ghost function RunOf(v: Vol, ops: seq<Op>): Vol
    requires CarefulRun(v, ops)
    decreases |ops|
  {
    if ops == [] then v else RunOf(Perform(v, ops[0]), ops[1..])
  }

  /** And so does every run of careful operations. */
  lemma {:induction false} RunKeepsSpace(v: Vol, ops: seq<Op>)
    requires Space(v) && CarefulRun(v, ops)
    ensures Space(RunOf(v, ops))
    decreases |ops|
  {
    hide Space, Perform, GrowsWithin, PunchSafe, FirstUnused, MoveSafe, Unowned, Keeps;
    if ops != [] {
      StepKeepsSpace(v, ops[0]);
      RunKeepsSpace(Perform(v, ops[0]), ops[1..]);
    }
  }

  /**
   What the invariant says of mappings, in every state of every careful run: a mapped block is not free,
   and no other block of any file is mapped to it.
   */
  lemma MappedOnce(v: Vol, f: nat, b: int, g: nat, c: int)
    requires Space(v) && IsLive(v, f) && IsLive(v, g) && Phys(v.inodes[f].root.entries, b).Some?
    ensures var p := Phys(v.inodes[f].root.entries, b).value; p < |v.bits| && !v.bits[p]
    ensures Phys(v.inodes[f].root.entries, b) == Phys(v.inodes[g].root.entries, c) ==> f == g && b == c
  {
    hide Owned, BlocksOf, Phys;
    var own := Claims(v.inodes);
    var es := v.inodes[f].root.entries;
    var p := Phys(es, b).value;
    MappedClaimed(es, b);
    OwnedMeans(own, v.bits, f, p);
    if Phys(es, b) == Phys(v.inodes[g].root.entries, c) {
      MappedClaimed(v.inodes[g].root.entries, c);
      assert p in own[g];
      assert f == g;
      forall q: nat ensures BlocksOf(es)[q] <= 1 {
        if q in own[f] {
          OwnedMeans(own, v.bits, f, q);
        }
      }
      ClaimsInjective(es, b, c);
    }
  }

  /** A table of a volume in this state is fit for a write that allocates what it needs. */
  lemma SpaceIsSound(v: Vol, f: nat, d: Blocks)
    requires Space(v) && IsLive(v, f)
    ensures ClaimsOnce(v.inodes[f].root.entries) && AllInSpace(v.inodes[f].root.entries)
    ensures forall s: nat, n: nat :: s > 0 && AllAre(v.bits, Chunk(s, n), true) && (forall p: nat :: p < |v.bits| ==> p in d) ==>
              NewRun(v.inodes[f].root.entries, d, s, n)
  {
    hide Owned, BlocksOf, RootsFine;
    RootAt(v, f);
    var own, es := Claims(v.inodes), v.inodes[f].root.entries;
    assert own[f] == BlocksOf(es);
    forall p: nat ensures BlocksOf(es)[p] <= 1 && (p in BlocksOf(es) ==> p < |v.bits| && !v.bits[p]) {
      if p in own[f] {
        OwnedMeans(own, v.bits, f, p);
      }
    }
  }

  // ---- Exactly when ----

  /** A new file keeps the invariant exactly when nobody uses the blocks that its slot still names. */
  lemma CreateKeepsWhen(v: Vol, name: Name, room: bool)
    requires Space(v) && !v.busy && GoodName(name) && FirstUnused(v.inodes, 0).Some?
    ensures Space(Perform(v, Create(name, room))) <==> Unowned(v, v.inodes[FirstUnused(v.inodes, 0).value].root)
  {
    hide FirstUnused, BlocksOf, RootFine, GoodName, Claims, Claimed, RootsFine;
    SlotUnused(v.inodes);
    var i := FirstUnused(v.inodes, 0).value;
    var r := v.inodes[i].root;
    var x, w, own := Inode(true, 1, 0, r), Perform(v, Create(name, room)), Claims(v.inodes);
    assert w.inodes == v.inodes[i := x] && w.bits == v.bits;
    ClaimsPut(v.inodes, i, x);
    RootsWith(v.inodes, i, x);
    var more := BlocksOf(r.entries);
    forall p: nat ensures Claimed(Claims(w.inodes), p) == Claimed(own, p) + more[p] {
      ClaimedUpdate(own, i, more, p);
    }
    if Unowned(v, r) {
      forall p: nat ensures Owners(Claims(w.inodes), w.bits, p) <= 1 && (Claimed(Claims(w.inodes), p) > 0 ==> p < |w.bits|) {
        assert Owners(own, v.bits, p) <= 1 && (Claimed(own, p) > 0 ==> p < |v.bits|);
      }
    }
    if Space(w) {
      forall p: nat | p in more ensures more[p] == 1 && p < |v.bits| && !v.bits[p] && Claimed(own, p) == 0 {
        assert Owners(Claims(w.inodes), w.bits, p) <= 1 && (Claimed(Claims(w.inodes), p) > 0 ==> p < |w.bits|);
      }
    }
  }

  lemma RootsWith(inodes: seq<Inode>, i: nat, x: Inode)
    requires i < |inodes| && RootsFine(inodes) && x.live
    ensures RootsFine(inodes[i := x]) <==> RootFine(x.root)
  {
    hide RootFine;
    if RootsFine(inodes[i := x]) {
      assert inodes[i := x][i] == x;
    }
  }

  // ---- Operations that break it ----

  lemma {:induction false} SpanFreed(c: Cut, es: seq<Xad>, i: nat)
    requires c.Punch? && c.start < c.end && AllInSpace(es) && i < |es| && Spans(es[i], c.start, c.end)
    ensures es[i].address + (c.start - es[i].offset) in BlocksOf(All(c, es).out)
    decreases |es|
  {
    hide One, InSpace, BlocksOf, Run;
    var n := |es| - 1;
    var init := es[..n];
    BlocksOfAppend(All(c, init).out, One(c, es[n]).out);
    if i < n {
      assert init[i] == es[i];
      SpanFreed(c, init, i);
    } else {
      OneSpanFreed(c, es[n]);
    }
  }

  lemma OneSpanFreed(c: Cut, x: Xad)
    requires c.Punch? && c.start < c.end && InSpace(x) && Spans(x, c.start, c.end)
    ensures x.address + (c.start - x.offset) in BlocksOf(One(c, x).out)
  {
    hide BlocksOf, Run;
    var y := Xad(x.flag, c.start, c.end - c.start, x.address + (c.start - x.offset));
    assert One(c, x).out == [y];
    BlocksOfOne(y);
    RunCount(y.address, y.length, y.address);
  }

  /** A freed block that a slot of the root still names. */
  lemma SpanBlock(es: seq<Xad>, c: Cut, k: nat) returns (j: nat)
    requires c.Punch? && c.start < c.end && AllInSpace(es) && |es| <= SLOTS && k < |es| && Spans(es[k], c.start, c.end)
    requires k < |es| - 1 || |All(c, es).kept| <= SLOTS
    ensures j < |Stored(All(c, es).kept)|
    ensures exists i: nat :: i < |es| && Spans(es[i], c.start, c.end)
                       && Stored(All(c, es).kept)[j].address == es[i].address + (c.start - es[i].offset)
                       && Stored(All(c, es).kept)[j].length > 0
  {
    hide One, InSpace, All, Spans, LiveCount;
    var i := FirstSpan(es, c.start, c.end, k);
    var init := es[..i];
    assert forall x :: 0 <= x < i ==> init[x] == es[x];
    KeptWithoutSpan(c, init);
    j := SpanPieces(c, es, i);
    j := j + 1;
    assert InSpace(es[i]);
    SpanAddress(c.start, c.end, es[i]);
    SpanRight(es[i], c.start, c.end);
  }

  lemma SpanRight(x: Xad, start: nat, end: nat)
    requires Spans(x, start, end)
    ensures x.offset + x.length - end > 0
  {
  }

  /** What a punch takes out lies inside the volume. */
  lemma PunchOutFits(v: Vol, i: nat, start: nat, end: nat)
    requires Space(v) && IsLive(v, i) && start < end
    ensures AllFit(v.bits, All(Punch(start, end), v.inodes[i].root.entries).out)
  {
    hide Owned, Claims, All, BlocksOf, InSpace, Stored, RootsFine;
    var es := v.inodes[i].root.entries;
    RootAt(v, i);
    PunchIsTake(start, end, es);
    TakeHandled(start, end, es);
    CutClaims(Take(start, end), es);
    ClaimsPut(v.inodes, i, v.inodes[i]);
    OutFits(Claims(v.inodes), v.bits, i, BlocksOf(Stored(All(Take(start, end), es).kept)), All(Punch(start, end), es).out);
  }

  /** The first block that is freed is also claimed, by the right remainder of the split extent. */
  lemma PunchSpanBreaks(v: Vol, i: nat, off: nat, len: nat, k: nat) returns (p: nat)
    requires Space(v) && IsLive(v, i) && !v.busy && off / PAGE < BlocksFor(off + len) && k < |v.inodes[i].root.entries|
    requires Spans(v.inodes[i].root.entries[k], off / PAGE, BlocksFor(off + len))
    requires k < |v.inodes[i].root.entries| - 1
             || |All(Punch(off / PAGE, BlocksFor(off + len)), v.inodes[i].root.entries).kept| <= SLOTS
    ensures var w := Perform(v, PunchHole(i, off, len)); p < |w.bits| && w.bits[p] && p in ClaimOf(w.inodes[i])
  {
    hide Owned, Claims, BlocksFor, All, FreedOf, FreeAll, BlocksOf, LiveCount, InSpace, One, Spans, RootsFine;
    var c := Punch(off / PAGE, BlocksFor(off + len));
    var es := v.inodes[i].root.entries;
    RootAt(v, i);
    var j := SpanBlock(es, c, k);
    var x: nat :| x < |es| && Spans(es[x], c.start, c.end)
                  && Stored(All(c, es).kept)[j].address == es[x].address + (c.start - es[x].offset)
                  && Stored(All(c, es).kept)[j].length > 0;
    p := Stored(All(c, es).kept)[j].address;
    SpanFreed(c, es, x);
    PunchOutFits(v, i, c.start, c.end);
    FreedBits(v.bits, All(c, es).out);
    PhysClaimed(Stored(All(c, es).kept), j, p);
    SpanInside(es[x], c.start, c.end);
    SpanOwned(v, i, x, p);
  }

  lemma SpanInside(x: Xad, start: nat, end: nat)
    requires start < end && Spans(x, start, end)
    ensures x.address <= x.address + (start - x.offset) < x.address + x.length
  {
  }

  lemma SpanOwned(v: Vol, i: nat, k: nat, p: nat)
    requires Space(v) && IsLive(v, i) && k < |v.inodes[i].root.entries|
    requires v.inodes[i].root.entries[k].address <= p < v.inodes[i].root.entries[k].address + v.inodes[i].root.entries[k].length
    ensures p < |v.bits|
  {
    hide Owned, BlocksOf;
    PhysClaimed(v.inodes[i].root.entries, k, p);
    OwnedMeans(Claims(v.inodes), v.bits, i, p);
  }

  /**
   Punching keeps the invariant exactly when no extent is split, or only the last one of a root that the
   split overflows, so that the wrong piece is dropped.
   */
  lemma PunchKeepsWhen(v: Vol, i: nat, off: nat, len: nat)
    requires Space(v) && IsLive(v, i) && !v.busy && off / PAGE < BlocksFor(off + len)
    ensures Space(Perform(v, PunchHole(i, off, len))) <==> PunchSafe(v.inodes[i].root.entries, off / PAGE, BlocksFor(off + len))
  {
    hide BlocksFor, Perform, Owned, All, Spans;
    var es := v.inodes[i].root.entries;
    var w := Perform(v, PunchHole(i, off, len));
    PunchStays(v, i, off, len);
    if PunchSafe(es, off / PAGE, BlocksFor(off + len)) {
      StepKeepsSpace(v, PunchHole(i, off, len));
    } else {
      var k: nat :| k < |es| && Spans(es[k], off / PAGE, BlocksFor(off + len))
                    && !(k == |es| - 1 && |All(Punch(off / PAGE, BlocksFor(off + len)), es).kept| > SLOTS);
      var p := PunchSpanBreaks(v, i, off, len, k);
      BothOwners(w, i, p);
    }
  }

  lemma BothOwners(w: Vol, i: nat, p: nat)
    requires i < |w.inodes| && p < |w.bits| && w.bits[p] && p in ClaimOf(w.inodes[i])
    ensures !Space(w)
  {
    hide Owned, BlocksOf, RootsFine;
    if Space(w) {
      ClaimsPut(w.inodes, i, w.inodes[i]);
      OwnedMeans(Claims(w.inodes), w.bits, i, p);
      assert false;
    }
  }

  /** In a table without overlap that means: all sixteen slots are in use and the last one is split. */
  lemma PunchSafeMeans(es: seq<Xad>, start: nat, end: nat)
    requires start < end && AllInSpace(es) && Apart(es) && |es| <= SLOTS
    ensures PunchSafe(es, start, end) <==>
            forall k :: 0 <= k < |es| && Spans(es[k], start, end) ==> k == |es| - 1 && LiveCount(es) == SLOTS
  {
    hide Apart, All, LiveCount, Spans, AllInSpace;
    OverflowsWhen(Punch(start, end), es);
  }

  lemma PunchStays(v: Vol, i: nat, off: nat, len: nat)
    requires i < |v.inodes|
    ensures |Perform(v, PunchHole(i, off, len)).inodes| == |v.inodes|
  {
  }

  /** A move keeps the invariant exactly when it does not succeed, or splits no extent of its target. */
  lemma MoveKeepsWhen(v: Vol, src: nat, from: nat, dst: nat, to: nat, n: nat)
    requires Space(v) && IsLive(v, src) && IsLive(v, dst) && !v.busy && n > 0 && to + n <= TWO40
    ensures Space(Perform(v, MoveRange(src, from, dst, to, n))) <==> MoveSafe(v, src, from, dst, to, n)
  {
    hide Owned, DoMove, Spans, RootsFine, TargetRoot, Move;
    if MoveSafe(v, src, from, dst, to, n) {
      MoveKeeps(v, src, from, dst, to, n);
    } else {
      var p := MoveSpanBreaks(v, src, from, dst, to, n);
      BothOwners(DoMove(v, src, from, dst, to, n), dst, p);
    }
  }

  lemma MoveSpanBreaks(v: Vol, src: nat, from: nat, dst: nat, to: nat, n: nat) returns (p: nat)
    requires Space(v) && IsLive(v, src) && IsLive(v, dst) && n > 0 && !MoveSafe(v, src, from, dst, to, n)
    ensures var w := DoMove(v, src, from, dst, to, n);
            dst < |w.inodes| && p < |w.bits| && w.bits[p] && p in ClaimOf(w.inodes[dst])
  {
    hide Owned, DoMove, Spans, RootsFine, Move, All, BlocksOf, FreedOf, FreeAll, InSpace, ShiftAll, Claims, Stored, LiveCount, CutRoot;
    var d, q := TargetRoot(v, src, from, dst, n), Punch(to, to + n);
    DoMoveIs(v, src, from, dst, to, n);
    MoveParts(v.inodes[src].root, d, from, to, n);
    TakeOnlyKeeps(v, src, from, n);
    var u := Put(v, src, v.inodes[src].(root := CutRoot(Take(from, from + n), v.inodes[src].root)));
    assert u.inodes[dst].root == d && IsLive(u, dst);
    RootAt(u, dst);
    RootAt2(d);
    var k: nat :| k < |d.entries| && Spans(d.entries[k], to, to + n);
    StoredWhole(All(q, d.entries).kept);
    var j := SpanBlock(d.entries, q, k);
    var kept := All(q, d.entries).kept;
    var x: nat :| x < |d.entries| && Spans(d.entries[x], to, to + n)
                  && Stored(kept)[j].address == d.entries[x].address + (to - d.entries[x].offset) && Stored(kept)[j].length > 0;
    p := kept[j].address;
    SpanFreed(q, d.entries, x);
    PunchOutFits(u, dst, to, to + n);
    FreedBits(v.bits, All(q, d.entries).out);
    var m := Move(v.inodes[src].root, d, from, to, n);
    assert m.dst.entries[j] == kept[j];
    PhysClaimed(m.dst.entries, j, p);
    SpanInside(d.entries[x], to, to + n);
    SpanOwned(u, dst, x, p);
  }

  lemma RootAt2(r: Root)
    requires RootFine(r)
    ensures |r.entries| <= SLOTS && AllInSpace(r.entries)
  {
  }

  /**
   A file that is removed leaves its extents in the slot. When the slot is used again, the new file
   claims blocks that are free.
   */
  lemma RecycledSlotBreaks(v: Vol, name: Name, again: Name, room: bool)
    requires Space(v) && !v.busy && name in v.names && IsLive(v, v.names[name])
    requires v.inodes[v.names[name]].nlink <= 1 && Handles(v, PageOf(v.names[name])) == 0
    requires BlocksOf(v.inodes[v.names[name]].root.entries) != multiset{}
    requires GoodName(again) && FirstUnused(Perform(v, Unlink(name)).inodes, 0) == Some(v.names[name])
    ensures var w := Perform(Perform(v, Unlink(name)), Create(again, room));
            IsLive(w, v.names[name]) && !Space(w)
  {
    hide FirstUnused, FreeAll, FreedOf, BlocksOf, Owned, All, Claims, PageOf, GoodName;
    var i := v.names[name];
    var x := v.inodes[i];
    var u := Perform(v, Unlink(name));
    var w := Perform(u, Create(again, room));
    var es := x.root.entries;
    var p :| p in BlocksOf(es);
    RootAt(v, i);
    ClaimsPut(v.inodes, i, x);
    OwnedMeans(Claims(v.inodes), v.bits, i, p);
    TruncateAll(es);
    OutFits(Claims(v.inodes), v.bits, i, multiset{}, All(Truncate(0), es).out);
    FreedBits(v.bits, All(Truncate(0), es).out);
    assert w.bits == u.bits == FreeAll(v.bits, FreedOf(All(Truncate(0), es).out));
    BothOwners(w, i, p);
  }

  /** Truncating to nothing takes out every block. */
  lemma TruncateAll(es: seq<Xad>)
    requires AllInSpace(es)
    ensures BlocksOf(All(Truncate(0), es).out) == BlocksOf(es)
  {
    hide BlocksOf, InSpace;
    TruncateHandled(0, es);
    AllConserves(Truncate(0), es);
    KeptNothing(es);
    NoBlocks();
  }

  lemma {:induction false} KeptNothing(es: seq<Xad>)
    ensures All(Truncate(0), es).kept == []
    decreases |es|
  {
    if es != [] {
      KeptNothing(es[..|es| - 1]);
    }
  }
}

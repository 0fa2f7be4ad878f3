/**
 The life of a file from its creation to the return of its blocks: link counts that are exact over whole
 runs, and what an unlink gives back.
 */
module FileLife {
  import opened Bytes
  import opened Extents
  import opened ExtentTable
  import opened ExtentMove
  import opened Xtree
  import opened Allocator
  import opened Ownership
  import opened VolumeModel
  import opened BlockSafety
  import opened BlockRuns
  import opened VolumeFacts
  import opened LinkSafety

  // ---- Exact link counts ----

  /** Every inode has as many links as names refer to it. */
  ghost predicate LinksExact(v: Vol) {
    forall i: nat :: i < |v.inodes| ==> v.inodes[i].nlink == |NamesOf(v.names, i)|
  }

  /** A creation that takes its slot and then finds the name taken or the directory full. */
  predicate FailsLate(v: Vol, op: Op) {
    op.Create? && !v.busy && !NoneFree(v.inodes) && 1 <= |op.name.text| <= 11 && (op.name in v.names || !op.room)
  }

  lemma CreateExact(v: Vol, opens: seq<nat>, name: Name, room: bool)
    requires Links(v, opens) && LinksExact(v) && !v.busy
    ensures LinksExact(Perform(v, Create(name, room))) <==> !FailsLate(v, Create(name, room))
  {
    hide NamesOf, FirstUnused, HandlesFit, OpensLive, LinksCover, Perform;
    CreatedIs(v, name, room);
    SlotIs(v.inodes);
    var w, slot := Perform(v, Create(name, room)), FirstUnused(v.inodes, 0);
    if slot.Some? && 1 <= |name.text| <= 11 {
      NeverNamed(v.names, slot.value);
      if name !in v.names && room {
        forall j: nat | j < |w.inodes| ensures w.inodes[j].nlink == |NamesOf(w.names, j)| {
          NameAdded(v.names, name, slot.value, j);
        }
      } else {
        assert w.inodes[slot.value].nlink != |NamesOf(w.names, slot.value)|;
      }
    }
  }

  lemma LinkExact(v: Vol, name: Name, room: bool, t: nat)
    requires LinksExact(v) && t < |v.inodes|
    ensures LinksExact(DoLink(v, name, room, t))
  {
    hide NamesOf, GoodName;
    var w := DoLink(v, name, room, t);
    if w != v {
      forall j: nat | j < |w.inodes| ensures w.inodes[j].nlink == |NamesOf(w.names, j)| {
        NameAdded(v.names, name, t, j);
      }
    }
  }

  lemma UnlinkExact(v: Vol, name: Name)
    requires LinksExact(v) && !v.busy && name in v.names && v.names[name] < |v.inodes|
    ensures LinksExact(Perform(v, Unlink(name)))
  {
    hide NamesOf, Perform;
    UnlinkedIs(v, name);
    var w, i := Perform(v, Unlink(name)), v.names[name];
    forall j: nat | j < |w.inodes| ensures w.inodes[j].nlink == |NamesOf(w.names, j)| {
      NameRemoved(v.names, name, j);
      NameRemoved(v.names, name, i);
    }
  }

  lemma ReleaseExact(v: Vol, i: nat)
    requires LinksExact(v) && i < |v.inodes|
    ensures LinksExact(Perform(v, Release(i)))
  {
    hide NamesOf, Perform, HandleClosed;
    ReleasedIs(v, i);
  }

  lemma SameExact(v: Vol, w: Vol)
    requires LinksExact(v) && SameLife(v, w)
    ensures LinksExact(w)
  {
    hide NamesOf;
  }

  /** Exactly when an operation keeps the counts exact: only a creation that fails late leaves a link without a name. */
  lemma StepExactWhen(v: Vol, opens: seq<nat>, op: Op)
    requires Links(v, opens) && LinksExact(v) && Matched(v, opens, op)
    ensures LinksExact(Perform(v, op)) <==> !FailsLate(v, op)
  {
    hide Links, LinksExact, DoCreate, DoLink, DoUnlink, DoRelease, DoWrite, DoResize, DoAllocate, DoPunch, DoMove, NoneFree;
    if OnData(op) {
      DataKeepsLife(v, op);
      SameExact(v, Perform(v, op));
    } else if op.Open? {
      OpenExact(v, op.ino);
    } else if op.Release? {
      ReleaseExact(v, op.ino);
    } else if !v.busy {
      match op
      case Create(name, room) => CreateExact(v, opens, name, room);
      case Link(name, room, t) => LinkExact(v, name, room, t);
      case Unlink(name) =>
        if name in v.names {
          UnlinkExact(v, name);
        } else {
          NoSuchName(v, name);
        }
    }
  }

  lemma OpenExact(v: Vol, i: nat)
    requires LinksExact(v)
    ensures LinksExact(DoOpen(v, i))
  {
    hide NamesOf;
  }

  /** No creation of the run fails late. */
  ghost predicate NoneFailsLate(v: Vol, opens: seq<nat>, ops: seq<Op>)
    requires MatchedRun(v, opens, ops)
    decreases |ops|
  {
    ops == [] || (!FailsLate(v, ops[0]) && NoneFailsLate(Perform(v, ops[0]), OpensAfter(opens, ops[0]), ops[1..]))
  }

  /** A volume without a file: no name, no handle, no link. */
  predicate Empty(v: Vol) {
    v.names == map[] && v.handles == map[] && forall i :: 0 <= i < |v.inodes| ==> v.inodes[i].nlink == 0
  }

  lemma EmptyIsExact(v: Vol)
    requires Empty(v)
    ensures Links(v, []) && LinksExact(v)
  {
    forall i: nat | i < |v.inodes| ensures |NamesOf(v.names, i)| == 0 {
      NeverNamed(v.names, i);
    }
  }

  /** Over such runs the link count of every inode is the number of its names. */
  lemma {:induction false} RunExact(v: Vol, opens: seq<nat>, ops: seq<Op>)
    requires Links(v, opens) && LinksExact(v) && MatchedRun(v, opens, ops) && NoneFailsLate(v, opens, ops)
    ensures LinksExact(After(v, opens, ops).0)
    decreases |ops|
  {
    hide Links, LinksExact, Perform, OpensAfter, FailsLate, Matched;
    if ops != [] {
      FirstMatched(v, opens, ops);
      StepKeepsLinks(v, opens, ops[0]);
      StepExactWhen(v, opens, ops[0]);
      RunExact(Perform(v, ops[0]), OpensAfter(opens, ops[0]), ops[1..]);
    }
  }

  lemma FirstMatched(v: Vol, opens: seq<nat>, ops: seq<Op>)
    requires MatchedRun(v, opens, ops) && ops != []
    ensures Matched(v, opens, ops[0]) && Addressed(v, ops[0])
  {
  }

  lemma RunFromEmpty(v: Vol, ops: seq<Op>)
    requires Empty(v) && MatchedRun(v, [], ops) && NoneFailsLate(v, [], ops)
    ensures LinksExact(After(v, [], ops).0)
  {
    hide Links, LinksExact, MatchedRun, NoneFailsLate, Empty;
    EmptyIsExact(v);
    RunExact(v, [], ops);
  }

  // ---- What an unlink gives back ----

  /** Unlinking the last name of a file whose block has no handle frees the inode and every block it claims. */
  lemma UnlinkFrees(v: Vol, name: Name)
    requires Space(v) && !v.busy && name in v.names && IsLive(v, v.names[name])
    requires v.inodes[v.names[name]].nlink == 1 && Open8(v.handles, v.names[name]) == 0
    ensures var w, i := Perform(v, Unlink(name)), v.names[name];
            && |w.inodes| == |v.inodes| && !w.inodes[i].live && w.inodes[i].nlink == 0 && name !in w.names && |w.bits| == |v.bits|
            && (forall p: nat :: p in BlocksOf(v.inodes[i].root.entries) ==> p < |w.bits| && w.bits[p])
            && (forall p: nat :: p < |w.bits| && p !in BlocksOf(v.inodes[i].root.entries) ==> w.bits[p] == v.bits[p])
  {
    hide FreeAll, FreedOf, BlocksOf, Owned, All, Claims;
    var i := v.names[name];
    var es := v.inodes[i].root.entries;
    RootAt(v, i);
    ClaimsPut(v.inodes, i, v.inodes[i]);
    TruncateAll(es);
    OutFits(Claims(v.inodes), v.bits, i, multiset{}, All(Truncate(0), es).out);
    FreedBits(v.bits, All(Truncate(0), es).out);
    forall p: nat | p in BlocksOf(es) ensures p < |v.bits| {
      OwnedMeans(Claims(v.inodes), v.bits, i, p);
    }
  }

  /** A file that is created and unlinked again, with no handle on its block, is gone and its blocks are free. */
  lemma CreateThenUnlink(v: Vol, name: Name)
    requires Space(v) && !v.busy && 1 <= |name.text| <= 11 && name !in v.names && !NoneFree(v.inodes)
    requires Space(Perform(v, Create(name, true)))
    requires forall slot: nat :: FirstFree(v.inodes, slot) ==> Open8(v.handles, slot) == 0
    ensures var u := Perform(v, Create(name, true));
            name in u.names && u.names[name] < |u.inodes|
    ensures var u := Perform(v, Create(name, true));
            var w, i := Perform(u, Unlink(name)), u.names[name];
            && FirstFree(v.inodes, i) && |w.inodes| == |v.inodes| && !w.inodes[i].live && w.names == v.names
            && (forall p: nat :: p in BlocksOf(v.inodes[i].root.entries) ==> p < |w.bits| && w.bits[p])
  {
    hide Space, Perform, FirstUnused, BlocksOf, NoneFree, FirstFree;
    CreatedIs(v, name, true);
    SlotIs(v.inodes);
    var u := Perform(v, Create(name, true));
    UnlinkFrees(u, name);
    UnlinkedIs(u, name);
    assert v.names[name := u.names[name]] - {name} == v.names;
  }

  /** Releasing the last handle on the block of a file without links does the same. */
  lemma ReleaseFrees(v: Vol, i: nat)
    requires Space(v) && !v.busy && IsLive(v, i) && v.inodes[i].nlink == 0 && Open8(v.handles, i) == 1
    ensures var w := Perform(v, Release(i));
            && |w.inodes| == |v.inodes| && !w.inodes[i].live && |w.bits| == |v.bits|
            && (forall p: nat :: p in BlocksOf(v.inodes[i].root.entries) ==> p < |w.bits| && w.bits[p])
            && (forall p: nat :: p < |w.bits| && p !in BlocksOf(v.inodes[i].root.entries) ==> w.bits[p] == v.bits[p])
  {
    hide FreeAll, FreedOf, BlocksOf, Owned, All, Claims;
    var es := v.inodes[i].root.entries;
    RootAt(v, i);
    ClaimsPut(v.inodes, i, v.inodes[i]);
    TruncateAll(es);
    OutFits(Claims(v.inodes), v.bits, i, multiset{}, All(Truncate(0), es).out);
    FreedBits(v.bits, All(Truncate(0), es).out);
    forall p: nat | p in BlocksOf(es) ensures p < |v.bits| {
      OwnedMeans(Claims(v.inodes), v.bits, i, p);
    }
  }

  // ---- What a cut gives back ----

  /** Exactly the blocks that the file claimed and no longer claims have become free. */
  ghost predicate GivesBack(v: Vol, w: Vol, i: nat)
    requires i < |v.inodes| && i < |w.inodes|
  {
    && |w.bits| == |v.bits|
    && (forall p: nat :: p < |v.bits| ==>
          (w.bits[p] <==> v.bits[p] || (p in BlocksOf(v.inodes[i].root.entries) && p !in BlocksOf(w.inodes[i].root.entries))))
  }

  lemma CutGivesBack(v: Vol, i: nat, c: Cut)
    requires Space(v) && IsLive(v, i) && Ordered(c) && AllHandled(c, v.inodes[i].root.entries)
    requires |All(c, v.inodes[i].root.entries).kept| <= SLOTS
    ensures GivesBack(v, DoCut(v, i, c), i)
  {
    hide FreeAll, FreedOf, BlocksOf, Owned, All, Claims, AllHandled, Stored;
    var es, w := v.inodes[i].root.entries, DoCut(v, i, c);
    var kept, out := BlocksOf(All(c, es).kept), BlocksOf(All(c, es).out);
    RootAt(v, i);
    ClaimsPut(v.inodes, i, v.inodes[i]);
    StoredWhole(All(c, es).kept);
    AllConserves(c, es);
    OutFits(Claims(v.inodes), v.bits, i, kept, All(c, es).out);
    FreedBits(v.bits, All(c, es).out);
    forall p: nat | p < |v.bits| ensures p in out <==> p in BlocksOf(es) && p !in kept {
      assert (kept + out)[p] == BlocksOf(es)[p];
      if p in BlocksOf(es) {
        OwnedMeans(Claims(v.inodes), v.bits, i, p);
      }
    }
  }

  /** A change of size returns exactly the blocks that the file gives up. */
  lemma ResizeGivesBack(v: Vol, i: nat, size: nat)
    requires Space(v) && IsLive(v, i) && !v.busy
    ensures GivesBack(v, Perform(v, Resize(i, size)), i)
  {
    hide Space, CutRoot, FreeAll, FreedOf, All, BlocksOf, BlocksFor, RootFine;
    var c, es := Truncate(BlocksFor(size)), v.inodes[i].root.entries;
    RootAt(v, i);
    RootParts(v.inodes[i].root);
    TruncateHandled(BlocksFor(size), es);
    TruncateShrinks(BlocksFor(size), es);
    CutGivesBack(v, i, c);
  }

  /** So does a punch that splits no extent. */
  lemma PunchGivesBack(v: Vol, i: nat, off: nat, len: nat)
    requires Space(v) && IsLive(v, i) && !v.busy && !SomeSpan(v.inodes[i].root.entries, off / PAGE, BlocksFor(off + len))
    ensures |Perform(v, PunchHole(i, off, len)).inodes| == |v.inodes| && GivesBack(v, Perform(v, PunchHole(i, off, len)), i)
  {
    hide Space, CutRoot, FreeAll, FreedOf, All, BlocksOf, BlocksFor, RootFine;
    var a, end, es := off / PAGE, BlocksFor(off + len), v.inodes[i].root.entries;
    if a < end {
      var c := Punch(a, end);
      RootAt(v, i);
      RootParts(v.inodes[i].root);
      KeptWithoutSpan(c, es);
      assert AllHandled(c, es);
      CutGivesBack(v, i, c);
    }
  }
}

/**
 Names, link counts and open handles: a file is freed only when no name refers to it and no handle on it
 is open. Handles are counted per block of the inode table, so the count of a block covers all its inodes.
 */
module LinkSafety {
  import opened Extents
  import opened ExtentMove
  import opened Allocator
  import opened FileData
  import opened VolumeModel

  /** Open handles on the inodes of one block; `opens` lists the inode of every open handle. */
  function PageCount(opens: seq<nat>, page: nat): nat
    decreases |opens|
  {
    if opens == [] then 0 else PageCount(opens[..|opens| - 1], page) + if PageOf(opens[|opens| - 1]) == page then 1 else 0
  }

  function NamesOf(names: map<Name, nat>, i: nat): set<Name> {
    set n | n in names && names[n] == i
  }

  ghost predicate HandlesFit(v: Vol, opens: seq<nat>) {
    forall page: nat :: Handles(v, page) == PageCount(opens, page)
  }

  ghost predicate OpensLive(v: Vol, opens: seq<nat>) {
    forall k :: 0 <= k < |opens| ==> IsLive(v, opens[k])
  }

  ghost predicate NamesLive(v: Vol) {
    forall n :: n in v.names ==> IsLive(v, v.names[n])
  }

  /** Each inode has at least as many links as names refer to it. */
  ghost predicate LinksCover(v: Vol) {
    forall i: nat :: i < |v.inodes| ==> |NamesOf(v.names, i)| <= v.inodes[i].nlink
  }

  ghost predicate Links(v: Vol, opens: seq<nat>) {
    HandlesFit(v, opens) && OpensLive(v, opens) && NamesLive(v) && LinksCover(v)
  }

  /** The list without the first handle on an inode. */
  function Without(opens: seq<nat>, i: nat): seq<nat> {
    if opens == [] then [] else if opens[0] == i then opens[1..] else [opens[0]] + Without(opens[1..], i)
  }

  function OpensAfter(opens: seq<nat>, op: Op): seq<nat> {
    match op
    case Open(i) => opens + [i]
    case Release(i) => Without(opens, i)
    case _ => opens
  }

  /** Files are opened and linked while they exist, and every release closes an open handle. */
  predicate Matched(v: Vol, opens: seq<nat>, op: Op) {
    && Addressed(v, op)
    && match op
       case Open(i) => IsLive(v, i)
       case Release(i) => i in opens
       case Link(_, _, t) => IsLive(v, t)
       case _ => true
  }

  // ---- Counting ----

  lemma {:induction false} PageCountAppend(a: seq<nat>, b: seq<nat>, page: nat)
    ensures PageCount(a + b, page) == PageCount(a, page) + PageCount(b, page)
    decreases |b|
  {
    if b == [] {
      assert a + b == a;
    } else {
      assert (a + b)[..|a + b| - 1] == a + b[..|b| - 1];
      PageCountAppend(a, b[..|b| - 1], page);
    }
  }

  lemma PageCountOne(i: nat, page: nat)
    ensures PageCount([i], page) == if PageOf(i) == page then 1 else 0
  {
    assert [i][..0] == [];
  }

  lemma {:induction false} PageCountWithout(opens: seq<nat>, i: nat, page: nat)
    requires i in opens
    ensures PageCount(Without(opens, i), page) == PageCount(opens, page) - if PageOf(i) == page then 1 else 0
    ensures forall k :: 0 <= k < |Without(opens, i)| ==> Without(opens, i)[k] in opens
  {
    hide PageCount, PageOf;
    var tail := opens[1..];
    assert opens == [opens[0]] + tail;
    PageCountAppend([opens[0]], tail, page);
    PageCountOne(opens[0], page);
    if opens[0] != i {
      PageCountWithout(tail, i, page);
      PageCountAppend([opens[0]], Without(tail, i), page);
    }
  }

  /** A block with no open handle has none on any of its inodes. */
  lemma NoneOpen(opens: seq<nat>, i: nat)
    requires PageCount(opens, PageOf(i)) == 0
    ensures i !in opens
  {
    hide PageCount, PageOf;
    if i in opens {
      PageCountWithout(opens, i, PageOf(i));
    }
  }

  lemma NameAdded(names: map<Name, nat>, name: Name, i: nat, j: nat)
    requires name !in names
    ensures |NamesOf(names[name := i], j)| == |NamesOf(names, j)| + if i == j then 1 else 0
  {
    if i == j {
      assert NamesOf(names[name := i], j) == NamesOf(names, j) + {name};
    } else {
      assert NamesOf(names[name := i], j) == NamesOf(names, j);
    }
  }

  lemma NameRemoved(names: map<Name, nat>, name: Name, j: nat)
    requires name in names
    ensures |NamesOf(names - {name}, j)| == |NamesOf(names, j)| - if names[name] == j then 1 else 0
  {
    if names[name] == j {
      assert NamesOf(names, j) == NamesOf(names - {name}, j) + {name};
    } else {
      assert NamesOf(names - {name}, j) == NamesOf(names, j);
    }
  }

  lemma NoNames(names: map<Name, nat>, i: nat)
    requires |NamesOf(names, i)| == 0
    ensures forall n :: n in names ==> names[n] != i
  {
    forall n | n in names ensures names[n] != i {
      assert names[n] == i ==> n in NamesOf(names, i);
    }
  }

  lemma NeverNamed(names: map<Name, nat>, i: nat)
    requires forall n :: n in names ==> names[n] != i
    ensures |NamesOf(names, i)| == 0
  {
    assert NamesOf(names, i) == {};
  }

  // ---- Every operation keeps it ----

  /** Operations on data leave names, handles and the life of inodes alone. */
  ghost predicate SameLife(v: Vol, w: Vol) {
    && w.names == v.names && w.handles == v.handles && |w.inodes| == |v.inodes|
    && (forall i :: 0 <= i < |v.inodes| ==> w.inodes[i].live == v.inodes[i].live && w.inodes[i].nlink == v.inodes[i].nlink)
  }

  predicate OnData(op: Op) {
    op.Write? || op.Resize? || op.Allocate? || op.PunchHole? || op.MoveRange? || op.SyncAll?
  }

  lemma DataKeepsLife(v: Vol, op: Op)
    requires Addressed(v, op) && OnData(op)
    ensures SameLife(v, Perform(v, op))
  {
    hide DoMove, DoWrite, DoAllocate, DoResize, DoPunch;
    if !v.busy {
      match op
      case Write(i, off, len) => WriteKeepsLife(v, i, off, len);
      case Resize(i, size) => ResizeKeepsLife(v, i, size);
      case Allocate(i, off, len, keep) => AllocateKeepsLife(v, i, off, len, keep);
      case PunchHole(i, off, len) => PunchKeepsLife(v, i, off, len);
      case MoveRange(src, from, dst, to, n) => MoveKeepsLife(v, src, from, dst, to, n);
      case SyncAll =>
    }
  }

  lemma WriteKeepsLife(v: Vol, i: nat, off: nat, len: nat)
    requires i < |v.inodes|
    ensures SameLife(v, DoWrite(v, i, off, len))
  {
    hide FirstHole, FirstFit, GrowRoot, Fill;
  }

  lemma ResizeKeepsLife(v: Vol, i: nat, size: nat)
    requires i < |v.inodes|
    ensures SameLife(v, DoResize(v, i, size))
  {
    hide CutRoot, All, FreeAll, BlocksFor;
  }

  lemma AllocateKeepsLife(v: Vol, i: nat, off: nat, len: nat, keep: bool)
    requires i < |v.inodes|
    ensures SameLife(v, DoAllocate(v, i, off, len, keep))
  {
    hide Prealloc;
  }

  lemma PunchKeepsLife(v: Vol, i: nat, off: nat, len: nat)
    requires i < |v.inodes|
    ensures SameLife(v, DoPunch(v, i, off, len))
  {
    hide CutRoot, All, FreeAll, BlocksFor;
  }

  lemma MoveKeepsLife(v: Vol, src: nat, from: nat, dst: nat, to: nat, n: nat)
    requires src < |v.inodes| && dst < |v.inodes| && n > 0
    ensures SameLife(v, DoMove(v, src, from, dst, to, n))
  {
    hide CutRoot, All, FreeAll, ShiftAll, Give;
  }

  lemma SameLifeKeeps(v: Vol, w: Vol, opens: seq<nat>)
    requires Links(v, opens) && SameLife(v, w)
    ensures Links(w, opens)
  {
    hide PageCount, NamesOf;
    forall page: nat ensures Handles(w, page) == PageCount(opens, page) {
      assert Handles(v, page) == PageCount(opens, page);
    }
  }

  lemma CreateLinks(v: Vol, opens: seq<nat>, name: Name, room: bool)
    requires Links(v, opens)
    ensures Links(DoCreate(v, name, room), opens)
  {
    hide PageCount, NamesOf, FirstUnused, GoodName;
    SlotUnused(v.inodes);
    var slot := FirstUnused(v.inodes, 0);
    var w := DoCreate(v, name, room);
    forall page: nat ensures Handles(w, page) == PageCount(opens, page) {
      assert Handles(v, page) == PageCount(opens, page);
    }
    if slot.Some? && GoodName(name) {
      NeverNamed(v.names, slot.value);
      forall j: nat | j < |w.inodes| ensures |NamesOf(w.names, j)| <= w.inodes[j].nlink {
        assert |NamesOf(v.names, j)| <= v.inodes[j].nlink;
        if name !in v.names {
          NameAdded(v.names, name, slot.value, j);
        }
      }
    }
  }

  lemma LinkLinks(v: Vol, opens: seq<nat>, name: Name, room: bool, t: nat)
    requires Links(v, opens) && IsLive(v, t)
    ensures Links(DoLink(v, name, room, t), opens)
  {
    hide PageCount, NamesOf, GoodName;
    var w := DoLink(v, name, room, t);
    forall page: nat ensures Handles(w, page) == PageCount(opens, page) {
      assert Handles(v, page) == PageCount(opens, page);
    }
    if w != v {
      forall j: nat | j < |w.inodes| ensures |NamesOf(w.names, j)| <= w.inodes[j].nlink {
        assert |NamesOf(v.names, j)| <= v.inodes[j].nlink;
        NameAdded(v.names, name, t, j);
      }
    }
  }

  /** The inode a name refers to after the name is gone: its links, and whether it was freed. */
  lemma UnlinkIs(v: Vol, opens: seq<nat>, name: Name)
    requires Links(v, opens) && name in v.names
    ensures var i, w := v.names[name], DoUnlink(v, name);
            && v.inodes[i].nlink > 0
            && w.handles == v.handles && w.names == v.names - {name} && |w.inodes| == |v.inodes|
            && (forall j :: 0 <= j < |v.inodes| && j != i ==> w.inodes[j] == v.inodes[j])
            && w.inodes[i].nlink == v.inodes[i].nlink - 1
            && (w.inodes[i].live <==> v.inodes[i].nlink > 1 || PageCount(opens, PageOf(i)) > 0)
  {
    hide PageCount, NamesOf, FreeAll, FreedBy;
    var i := v.names[name];
    assert IsLive(v, i);
    assert |NamesOf(v.names, i)| <= v.inodes[i].nlink;
    NameRemoved(v.names, name, i);
    assert Handles(v, PageOf(i)) == PageCount(opens, PageOf(i));
  }

  lemma UnlinkLinks(v: Vol, opens: seq<nat>, name: Name)
    requires Links(v, opens) && name in v.names
    ensures Links(DoUnlink(v, name), opens)
  {
    hide PageCount, NamesOf, DoUnlink, PageOf;
    UnlinkIs(v, opens, name);
    var i, w := v.names[name], DoUnlink(v, name);
    forall page: nat ensures Handles(w, page) == PageCount(opens, page) {
      assert Handles(v, page) == PageCount(opens, page);
    }
    forall j: nat | j < |w.inodes| ensures |NamesOf(w.names, j)| <= w.inodes[j].nlink {
      assert |NamesOf(v.names, j)| <= v.inodes[j].nlink;
      NameRemoved(v.names, name, j);
    }
    if !w.inodes[i].live {
      NoneOpen(opens, i);
      NoNames(w.names, i);
    }
  }

  lemma ClosedIs(v: Vol, opens: seq<nat>, i: nat, page: nat)
    requires HandlesFit(v, opens) && i in opens
    ensures Handles(Closed(v, i), page) == PageCount(Without(opens, i), page)
  {
    hide PageCount;
    PageCountWithout(opens, i, page);
    PageCountWithout(opens, i, PageOf(i));
    assert Handles(v, page) == PageCount(opens, page);
    assert Handles(v, PageOf(i)) == PageCount(opens, PageOf(i));
  }

  /** A release closes one handle, and frees the inode when it was the last of its block and no link is left. */
  lemma ReleaseIs(v: Vol, opens: seq<nat>, i: nat)
    requires Links(v, opens) && i in opens
    ensures IsLive(v, i)
    ensures var w, left := DoRelease(v, i), Without(opens, i);
            && HandlesFit(w, left)
            && w.names == v.names && |w.inodes| == |v.inodes|
            && (forall j :: 0 <= j < |v.inodes| && j != i ==> w.inodes[j] == v.inodes[j])
            && w.inodes[i].nlink == v.inodes[i].nlink
            && (w.inodes[i].live <==> v.busy || v.inodes[i].nlink > 0 || PageCount(left, PageOf(i)) > 0)
  {
    hide PageCount, NamesOf, FreeAll, FreedBy, PageOf, Without;
    assert IsLive(v, i);
    var w := DoRelease(v, i);
    forall page: nat ensures Handles(w, page) == PageCount(Without(opens, i), page) {
      ClosedIs(v, opens, i, page);
    }
    ClosedIs(v, opens, i, PageOf(i));
  }

  lemma ReleaseLinks(v: Vol, opens: seq<nat>, i: nat)
    requires Links(v, opens) && i in opens
    ensures Links(DoRelease(v, i), Without(opens, i))
  {
    hide PageCount, NamesOf, DoRelease, PageOf, HandlesFit, Without;
    ReleaseIs(v, opens, i);
    PageCountWithout(opens, i, 0);
    var w, left := DoRelease(v, i), Without(opens, i);
    forall j: nat | j < |w.inodes| ensures |NamesOf(w.names, j)| <= w.inodes[j].nlink {
      assert |NamesOf(v.names, j)| <= v.inodes[j].nlink;
    }
    if !w.inodes[i].live {
      NoneOpen(left, i);
      NoNames(w.names, i);
    }
  }

  lemma OpenLinks(v: Vol, opens: seq<nat>, i: nat)
    requires Links(v, opens) && IsLive(v, i)
    ensures Links(DoOpen(v, i), opens + [i])
  {
    hide PageCount, NamesOf, PageOf;
    var w := DoOpen(v, i);
    forall page: nat ensures Handles(w, page) == PageCount(opens + [i], page) {
      PageCountAppend(opens, [i], page);
      PageCountOne(i, page);
      assert Handles(v, page) == PageCount(opens, page);
    }
  }

  /** Every matched operation keeps names, links and handles consistent. */
  lemma StepKeepsLinks(v: Vol, opens: seq<nat>, op: Op)
    requires Links(v, opens) && Matched(v, opens, op)
    ensures Links(Perform(v, op), OpensAfter(opens, op))
  {
    hide Links, DoCreate, DoLink, DoUnlink, DoRelease, DoOpen, DoWrite, DoResize, DoAllocate, DoPunch, DoMove, Without;
    if OnData(op) {
      DataKeepsLife(v, op);
      SameLifeKeeps(v, Perform(v, op), opens);
    } else if op.Open? {
      OpenLinks(v, opens, op.ino);
    } else if op.Release? {
      ReleaseLinks(v, opens, op.ino);
    } else if !v.busy {
      match op
      case Create(name, room) => CreateLinks(v, opens, name, room);
      case Link(name, room, t) => LinkLinks(v, opens, name, room, t);
      case Unlink(name) =>
        if name in v.names {
          UnlinkLinks(v, opens, name);
        } else {
          assert DoUnlink(v, name) == v by { NoSuchName(v, name); }
        }
    }
  }

  lemma NoSuchName(v: Vol, name: Name)
    requires name !in v.names
    ensures DoUnlink(v, name) == v
  {
  }

  /**
   Open-unlinked safety: an operation that frees an inode leaves no name for it and no open handle on it,
   and its link count is zero.
   */
  lemma FreedSafely(v: Vol, opens: seq<nat>, op: Op, i: nat)
    requires Links(v, opens) && Matched(v, opens, op) && IsLive(v, i) && !IsLive(Perform(v, op), i)
    ensures op.Unlink? || op.Release?
    ensures |Perform(v, op).inodes| == |v.inodes| && Perform(v, op).inodes[i].nlink == 0
    ensures i !in OpensAfter(opens, op)
    ensures forall n :: n in Perform(v, op).names ==> Perform(v, op).names[n] != i
  {
    hide PageCount, NamesOf, DoUnlink, DoRelease, FirstUnused, GoodName, Without, PageOf;
    StepKeepsLinks(v, opens, op);
    var w := Perform(v, op);
    if OnData(op) {
      DataKeepsLife(v, op);
    } else if op.Release? {
      ReleaseIs(v, opens, op.ino);
    } else if op.Unlink? {
      if op.name in v.names {
        UnlinkIs(v, opens, op.name);
      } else {
        NoSuchName(v, op.name);
      }
    }
    OpenIsLive(w, OpensAfter(opens, op), i);
  }

  lemma OpenIsLive(v: Vol, opens: seq<nat>, i: nat)
    requires OpensLive(v, opens)
    ensures i in opens ==> IsLive(v, i)
  {
  }

  /** A run of matched operations, with the handles open at its end. */
  ghost predicate MatchedRun(v: Vol, opens: seq<nat>, ops: seq<Op>)
    decreases |ops|
  {
    ops == [] || (Matched(v, opens, ops[0]) && MatchedRun(Perform(v, ops[0]), OpensAfter(opens, ops[0]), ops[1..]))
  }

  ghost function After(v: Vol, opens: seq<nat>, ops: seq<Op>): (Vol, seq<nat>)
    requires MatchedRun(v, opens, ops)
    decreases |ops|
  {
    if ops == [] then (v, opens) else After(Perform(v, ops[0]), OpensAfter(opens, ops[0]), ops[1..])
  }

  lemma {:induction false} RunKeepsLinks(v: Vol, opens: seq<nat>, ops: seq<Op>)
    requires Links(v, opens) && MatchedRun(v, opens, ops)
    ensures Links(After(v, opens, ops).0, After(v, opens, ops).1)
    decreases |ops|
  {
    hide Links, Perform, OpensAfter;
    if ops != [] {
      StepKeepsLinks(v, opens, ops[0]);
      RunKeepsLinks(Perform(v, ops[0]), OpensAfter(opens, ops[0]), ops[1..]);
    }
  }

  // ---- Files that are never freed ----

  /** In use, without a name, a link or an open handle. */
  ghost predicate Orphan(v: Vol, opens: seq<nat>, i: nat) {
    IsLive(v, i) && v.inodes[i].nlink == 0 && i !in opens && forall n :: n in v.names ==> v.names[n] != i
  }

  /** Unlinking a file whose own handles are all closed orphans it when another inode of its block is open. */
  lemma UnlinkOrphans(v: Vol, opens: seq<nat>, name: Name)
    requires Links(v, opens) && !v.busy && name in v.names && v.inodes[v.names[name]].nlink == 1
    requires v.names[name] !in opens
    ensures Orphan(Perform(v, Unlink(name)), opens, v.names[name]) <==> PageCount(opens, PageOf(v.names[name])) > 0
  {
    hide PageCount, NamesOf, DoUnlink, PageOf;
    UnlinkIs(v, opens, name);
    UnlinkLinks(v, opens, name);
    var w, i := Perform(v, Unlink(name)), v.names[name];
    assert |NamesOf(w.names, i)| <= w.inodes[i].nlink;
    NoNames(w.names, i);
  }

  predicate Mentions(op: Op, i: nat) {
    (op.Link? && op.target == i) || (op.Open? && op.ino == i)
  }

  /** Nothing but a new link or a new handle changes that: no release of another inode frees it. */
  lemma {:induction false} OrphanStays(v: Vol, opens: seq<nat>, ops: seq<Op>, i: nat)
    requires Links(v, opens) && MatchedRun(v, opens, ops) && Orphan(v, opens, i)
    requires forall k :: 0 <= k < |ops| ==> !Mentions(ops[k], i)
    ensures Orphan(After(v, opens, ops).0, After(v, opens, ops).1, i)
    decreases |ops|
  {
    hide Links, Perform, OpensAfter, Orphan;
    if ops != [] {
      assert !Mentions(ops[0], i);
      OrphanStep(v, opens, ops[0], i);
      StepKeepsLinks(v, opens, ops[0]);
      OrphanStays(Perform(v, ops[0]), OpensAfter(opens, ops[0]), ops[1..], i);
    }
  }

  lemma OrphanStep(v: Vol, opens: seq<nat>, op: Op, i: nat)
    requires Links(v, opens) && Matched(v, opens, op) && Orphan(v, opens, i) && !Mentions(op, i)
    ensures Orphan(Perform(v, op), OpensAfter(opens, op), i)
  {
    hide PageCount, NamesOf, DoUnlink, DoRelease, GoodName, PageOf, LinksCover, HandlesFit, FirstUnused;
    if OnData(op) {
      DataKeepsLife(v, op);
    } else if op.Release? {
      ReleaseIs(v, opens, op.ino);
      PageCountWithout(opens, op.ino, 0);
    } else if op.Unlink? {
      if op.name in v.names {
        UnlinkIs(v, opens, op.name);
      } else {
        NoSuchName(v, op.name);
      }
    } else if op.Create? {
      SlotUnused(v.inodes);
    }
  }
}

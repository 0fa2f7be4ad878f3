/**
 The volume as a state machine: inodes with their extent roots and link counts, names, open handles per
 inode-table block, and the free blocks. Each operation is a function on this state.
 */
module VolumeModel {
  import opened Bytes
  import opened Extents
  import opened Xtree
  import opened ExtentMove
  import opened Allocator
  import opened FileData

  /** Inodes in one block of the inode table; open handles are counted per block. */
  const INOSPERPAGE := 8
  const ROOT_I := 2
  const MAX_NAME := 11

  datatype Inode = Inode(live: bool, nlink: nat, size: nat, root: Root)

  datatype Name = Name(parent: nat, text: string)

  /** `busy` stands for a transaction that an error left open: no other can begin. */
  datatype Vol = Vol(inodes: seq<Inode>, names: map<Name, nat>, handles: map<nat, nat>, bits: seq<bool>, busy: bool)

  function PageOf(ino: nat): nat { ino / INOSPERPAGE }

  function Handles(v: Vol, page: nat): nat {
    if page in v.handles then v.handles[page] else 0
  }

  datatype Op =
    | Create(name: Name, room: bool)
    | Link(name: Name, room: bool, target: nat)
    | Unlink(name: Name)
    | Open(ino: nat)
    | Release(ino: nat)
    | Write(ino: nat, off: nat, len: nat)
    | Resize(ino: nat, size: nat)
    | Allocate(ino: nat, off: nat, len: nat, keepSize: bool)
    | PunchHole(ino: nat, off: nat, len: nat)
    | MoveRange(src: nat, from: nat, dst: nat, to: nat, n: nat)
    | SyncAll

  // ---- The operations ----

  predicate IsLive(v: Vol, i: nat) {
    i < |v.inodes| && v.inodes[i].live
  }

  function Put(v: Vol, i: nat, x: Inode): Vol
    requires i < |v.inodes|
  {
    v.(inodes := v.inodes[i := x])
  }

  /** The first inode slot that is not in use. */
  function FirstUnused(inodes: seq<Inode>, i: nat): (r: Option<nat>)
    ensures r.Some? ==> r.value < |inodes| && !inodes[r.value].live
    decreases |inodes| - i
  {
    if i >= |inodes| then None
    else if !inodes[i].live && i != ROOT_I then Some(i)
    else FirstUnused(inodes, i + 1)
  }

  lemma SlotUnused(inodes: seq<Inode>)
    ensures FirstUnused(inodes, 0).Some? ==> FirstUnused(inodes, 0).value < |inodes| && !inodes[FirstUnused(inodes, 0).value].live
  {
  }

  predicate GoodName(n: Name) {
    0 < |n.text| <= MAX_NAME
  }

  /** A new file takes the first unused slot and keeps the extent root it finds there. */
  function DoCreate(v: Vol, name: Name, room: bool): Vol {
    var slot := FirstUnused(v.inodes, 0);
    if slot.None? then v.(busy := true)
    else if !GoodName(name) then v
    else
      var w := Put(v, slot.value, Inode(true, 1, 0, v.inodes[slot.value].root));
      if name in v.names || !room then w else w.(names := v.names[name := slot.value])
  }

  function DoLink(v: Vol, name: Name, room: bool, target: nat): Vol
    requires target < |v.inodes|
  {
    if !GoodName(name) || name in v.names || !room then v
    else
      var x := v.inodes[target];
      Put(v, target, x.(nlink := x.nlink + 1)).(names := v.names[name := target])
  }

  function FreedBy(x: Inode): seq<Chunk> {
    if x.live then FreedOf(All(Truncate(0), x.root.entries).out) else []
  }

  function DoUnlink(v: Vol, name: Name): Vol
    requires name in v.names ==> v.names[name] < |v.inodes|
  {
    if name !in v.names then v else
    var i := v.names[name];
    var x := v.inodes[i];
    var left := if x.nlink > 0 then x.nlink - 1 else 0;
    var w := v.(names := v.names - {name});
    if left == 0 && Handles(v, PageOf(i)) == 0 then
      Put(w, i, Inode(false, 0, 0, x.root)).(bits := FreeAll(v.bits, FreedBy(x)))
    else Put(w, i, x.(nlink := left))
  }

  function DoOpen(v: Vol, i: nat): Vol {
    v.(handles := v.handles[PageOf(i) := Handles(v, PageOf(i)) + 1])
  }

  function Closed(v: Vol, i: nat): Vol {
    var page := PageOf(i);
    if page in v.handles && v.handles[page] > 0 then v.(handles := v.handles[page := v.handles[page] - 1]) else v
  }

  function DoRelease(v: Vol, i: nat): Vol
    requires i < |v.inodes|
  {
    var w := Closed(v, i);
    var x := v.inodes[i];
    if w.busy || x.nlink > 0 || Handles(w, PageOf(i)) > 0 then w
    else Put(w, i, x.(live := false)).(bits := FreeAll(v.bits, FreedBy(x)))
  }

  function Max(a: nat, b: nat): nat { if a >= b then a else b }

  /** Blocks for the part of the range behind the first hole; the size grows with the range. */
  function DoWrite(v: Vol, i: nat, off: nat, len: nat): Vol
    requires i < |v.inodes|
  {
    var x, end := v.inodes[i], EndBlock(off, len);
    var h := FirstHole(x.root.entries, off / PAGE, end);
    var size := Max(x.size, off + len);
    if len == 0 || h == end then Put(v, i, x.(size := size)) else
    match FirstFit(v.bits, end - h, h)
    case None => v.(busy := true)
    case Some(s) =>
      Put(v, i, x.(size := size, root := GrowRoot(x.root, h, end - h, s))).(bits := Fill(v.bits, Chunk(s, end - h), false))
  }

  function BlocksFor(size: nat): nat { (size + PAGE - 1) / PAGE }

  function DoCut(v: Vol, i: nat, c: Cut): Vol
    requires i < |v.inodes| && Ordered(c)
  {
    var x := v.inodes[i];
    Put(v, i, x.(root := CutRoot(c, x.root))).(bits := FreeAll(v.bits, FreedOf(All(c, x.root.entries).out)))
  }

  function DoResize(v: Vol, i: nat, size: nat): Vol
    requires i < |v.inodes|
  {
    var w := if BlocksFor(size) < BlocksFor(v.inodes[i].size) then DoCut(v, i, Truncate(BlocksFor(size))) else v;
    Put(w, i, w.inodes[i].(size := size))
  }

  datatype Filling = Filling(root: Root, bits: seq<bool>, ok: bool)

  /** One block for every block of the range that is not mapped yet. */
  function Prealloc(r: Root, bits: seq<bool>, c: nat, end: nat): Filling
    decreases end - c
  {
    if c >= end then Filling(r, bits, true)
    else if Phys(r.entries, c).Some? then Prealloc(r, bits, c + 1, end)
    else match FirstFit(bits, 1, c)
      case None => Filling(r, bits, false)
      case Some(s) => Prealloc(GrowRoot(r, c, 1, s), Fill(bits, Chunk(s, 1), false), c + 1, end)
  }

  /** On failure the blocks allocated so far stay allocated, and the inode is as before. */
  function DoAllocate(v: Vol, i: nat, off: nat, len: nat, keepSize: bool): Vol
    requires i < |v.inodes|
  {
    var x := v.inodes[i];
    var f := Prealloc(x.root, v.bits, off / PAGE, BlocksFor(off + len));
    if !f.ok then v.(bits := f.bits, busy := true)
    else Put(v, i, x.(root := f.root, size := if keepSize then x.size else Max(x.size, off + len))).(bits := f.bits)
  }

  function DoPunch(v: Vol, i: nat, off: nat, len: nat): Vol
    requires i < |v.inodes|
  {
    if off / PAGE >= BlocksFor(off + len) then v else DoCut(v, i, Punch(off / PAGE, BlocksFor(off + len)))
  }

  /** On a full destination table the window stays taken out of the source, and the bitmap is rolled back. */
  function DoMove(v: Vol, src: nat, from: nat, dst: nat, to: nat, n: nat): Vol
    requires src < |v.inodes| && dst < |v.inodes| && n > 0
  {
    var s := v.inodes[src];
    var t := All(Take(from, from + n), s.root.entries);
    if t.out == [] then v else
    var w := Put(v, src, s.(root := CutRoot(Take(from, from + n), s.root)));
    var d, q := w.inodes[dst], Punch(to, to + n);
    OutBehind(Take(from, from + n), s.root.entries);
    var given := Give(CutRoot(q, d.root), ShiftAll(t.out, from, to));
    if given.None? then w.(bits := Reclaim(v.bits, FreedOf(All(q, d.root.entries).out)))
    else Put(w, dst, d.(root := given.value, size := Max(d.size, (to + n) * PAGE)))
         .(bits := FreeAll(v.bits, FreedOf(All(q, d.root.entries).out)))
  }

  /** The inodes an operation names exist. */
  predicate Addressed(v: Vol, op: Op) {
    match op
    case Link(_, _, t) => t < |v.inodes|
    case Unlink(name) => name in v.names ==> v.names[name] < |v.inodes|
    case Open(i) => i < |v.inodes|
    case Release(i) => i < |v.inodes|
    case Write(i, _, _) => i < |v.inodes|
    case Resize(i, _) => i < |v.inodes|
    case Allocate(i, _, _, _) => i < |v.inodes|
    case PunchHole(i, _, _) => i < |v.inodes|
    case MoveRange(s, _, d, _, n) => s < |v.inodes| && d < |v.inodes| && n > 0
    case _ => true
  }

  function Perform(v: Vol, op: Op): Vol
    requires Addressed(v, op)
  {
    if op.Open? then DoOpen(v, op.ino)
    else if op.Release? then DoRelease(v, op.ino)
    else if op.SyncAll? then v.(busy := false)
    else if v.busy then v
    else match op
      case Create(name, room) => DoCreate(v, name, room)
      case Link(name, room, t) => DoLink(v, name, room, t)
      case Unlink(name) => DoUnlink(v, name)
      case Write(i, off, len) => DoWrite(v, i, off, len)
      case Resize(i, size) => DoResize(v, i, size)
      case Allocate(i, off, len, keep) => DoAllocate(v, i, off, len, keep)
      case PunchHole(i, off, len) => DoPunch(v, i, off, len)
      case MoveRange(s, from, d, to, n) => DoMove(v, s, from, d, to, n)
  }
}

/**
 Writing a range of bytes: mapped blocks up to the first hole are patched in place, the rest of the
 range goes to one newly allocated run of blocks, which is added to the table if a slot is left.
 */
module FileWrite {
  import opened Bytes
  import opened Device
  import opened Extents
  import opened ExtentTable
  import opened Xtree
  import opened Ownership
  import opened FileData

  /** Block `c` of a file with the bytes of a write laid over it. */
  function Patch(p: Page, c: nat, off: nat, data: seq<byte>): Page {
    seq<byte>(PAGE, t requires 0 <= t < PAGE =>
      if off <= c * PAGE + t < off + |data| then data[c * PAGE + t - off] else p[t])
  }

  /** The runs of a write starting at `off` reach the blocks from `c` to `h`, all of them on the device. */
  ghost predicate MappedIn(es: seq<Xad>, d: Blocks, off: nat, c: nat, h: nat) {
    off / PAGE <= c && forall b :: c <= b < h ==> RunPhys(es, off / PAGE, b).Some? && RunPhys(es, off / PAGE, b).value in d
  }

  /** The device after those blocks are patched, one after the other. */
  ghost function WriteMapped(es: seq<Xad>, d: Blocks, off: nat, data: seq<byte>, c: nat, h: nat): (r: Blocks)
    requires MappedIn(es, d, off, c, h)
    ensures r.Keys == d.Keys
    decreases h - c
  {
    if c >= h then d else
    var p := RunPhys(es, off / PAGE, c).value;
    WriteMapped(es, d[p := Patch(d[p], c, off, data)], off, data, c + 1, h)
  }

  /** The device after blocks `c` to `end` are written to a new run, block `h` at address `s`. */
  ghost function WriteFresh(d: Blocks, s: nat, off: nat, data: seq<byte>, h: nat, c: nat, end: nat): (r: Blocks)
    requires h <= c && forall j :: s <= j < s + (end - h) ==> j in d
    ensures r.Keys == d.Keys
    decreases end - c
  {
    if c >= end then d else
    WriteFresh(d[s + (c - h) := Patch(ZeroPage(), c, off, data)], s, off, data, h, c + 1, end)
  }

  // ---- No block stands for two places ----

  /** No physical block is in the table twice. */
  ghost predicate ClaimsOnce(es: seq<Xad>) {
    forall p: nat :: BlocksOf(es)[p] <= 1
  }

  /** A block of two extents is a block of one. */
  lemma OneExtent(es: seq<Xad>, i: nat, j: nat, p: nat)
    requires ClaimsOnce(es) && i < |es| && j < |es|
    requires es[i].address <= p < es[i].address + es[i].length && es[j].address <= p < es[j].address + es[j].length
    ensures i == j
  {
    hide BlocksOf;
    if i < j { ClaimedTwice(es, i, j, p); }
    if j < i { ClaimedTwice(es, j, i, p); }
  }

  /** The runs of a range give two blocks two different places. */
  lemma RunInjective(es: seq<Xad>, a: nat, b: nat, c: nat)
    requires ClaimsOnce(es) && a <= b && a <= c && RunPhys(es, a, b).Some? && RunPhys(es, a, b) == RunPhys(es, a, c)
    ensures b == c
  {
    hide ClaimsOnce, RunPhys;
    var i := RunExtent(es, a, b);
    var j := RunExtent(es, a, c);
    OneExtent(es, i, j, RunPhys(es, a, b).value);
  }

  /** A run and a lookup that meet in a block meet for the same block of the file. */
  lemma RunMeetsLookup(es: seq<Xad>, a: nat, b: nat, c: nat)
    requires ClaimsOnce(es) && a <= b && RunPhys(es, a, b).Some? && RunPhys(es, a, b) == Phys(es, c)
    ensures b == c
  {
    hide ClaimsOnce, RunPhys, Find;
    var i := RunExtent(es, a, b);
    var j := FindExtent(es, c);
    OneExtent(es, i, j, RunPhys(es, a, b).value);
  }

  lemma RunClaimed(es: seq<Xad>, a: nat, b: nat)
    requires a <= b && RunPhys(es, a, b).Some?
    ensures RunPhys(es, a, b).value in BlocksOf(es)
  {
    hide BlocksOf, RunPhys;
    var i := RunExtent(es, a, b);
    PhysClaimed(es, i, RunPhys(es, a, b).value);
  }

  // ---- What the blocks hold ----

  lemma {:induction false} MappedMiss(es: seq<Xad>, d: Blocks, off: nat, data: seq<byte>, c: nat, h: nat, p: nat)
    requires MappedIn(es, d, off, c, h) && p in d && forall b :: c <= b < h ==> RunPhys(es, off / PAGE, b) != Some(p)
    ensures WriteMapped(es, d, off, data, c, h)[p] == d[p]
    decreases h - c
  {
    hide RunPhys, Patch;
    if c < h {
      var q := RunPhys(es, off / PAGE, c).value;
      MappedMiss(es, d[q := Patch(d[q], c, off, data)], off, data, c + 1, h, p);
    }
  }

  lemma {:induction false} MappedHit(es: seq<Xad>, d: Blocks, off: nat, data: seq<byte>, c: nat, h: nat, b: nat)
    requires MappedIn(es, d, off, c, h) && ClaimsOnce(es) && c <= b < h
    ensures off / PAGE <= b && RunPhys(es, off / PAGE, b).Some? && RunPhys(es, off / PAGE, b).value in d
    ensures var p := RunPhys(es, off / PAGE, b).value;
            WriteMapped(es, d, off, data, c, h)[p] == Patch(d[p], b, off, data)
    decreases h - c
  {
    hide RunPhys, Patch, ClaimsOnce;
    var a := off / PAGE;
    var q := RunPhys(es, a, c).value;
    var e := d[q := Patch(d[q], c, off, data)];
    if b == c {
      forall x | c + 1 <= x < h ensures RunPhys(es, a, x) != Some(q) {
        if RunPhys(es, a, x) == Some(q) {
          RunInjective(es, a, x, c);
        }
      }
      MappedMiss(es, e, off, data, c + 1, h, q);
    } else {
      if RunPhys(es, a, b) == RunPhys(es, a, c) {
        RunInjective(es, a, b, c);
      }
      MappedHit(es, e, off, data, c + 1, h, b);
    }
  }

  lemma {:induction false} FreshAt(d: Blocks, s: nat, off: nat, data: seq<byte>, h: nat, c: nat, end: nat, p: nat)
    requires h <= c && (forall j :: s <= j < s + (end - h) ==> j in d) && p in d
    ensures WriteFresh(d, s, off, data, h, c, end)[p]
         == if s + (c - h) <= p < s + (end - h) then Patch(ZeroPage(), h + (p - s), off, data) else d[p]
    decreases end - c
  {
    hide Patch, ZeroPage;
    if c < end {
      FreshAt(d[s + (c - h) := Patch(ZeroPage(), c, off, data)], s, off, data, h, c + 1, end, p);
    }
  }

  // ---- The whole write ----

  /** The new run lies on the device, above block 0, and no block of the table is in it. */
  ghost predicate NewRun(es: seq<Xad>, d: Blocks, s: nat, n: nat) {
    && s > 0
    && (forall j :: s <= j < s + n ==> j in d && j !in BlocksOf(es))
  }

  /** A table the write can rely on: blocks on the device and no block twice. Its extents may overlap. */
  ghost predicate Sound(es: seq<Xad>, d: Blocks) {
    Backed(es, d) && AllInSpace(es) && ClaimsOnce(es)
  }

  lemma MappedToHole(es: seq<Xad>, d: Blocks, off: nat, end: nat)
    requires Backed(es, d) && off / PAGE <= end
    ensures MappedIn(es, d, off, off / PAGE, FirstHole(es, off / PAGE, end))
  {
    hide Phys, RunPhys, Backed;
    var a := off / PAGE;
    HoleBounds(es, a, end);
    forall b | a <= b < FirstHole(es, a, end) ensures RunPhys(es, a, b).Some? && RunPhys(es, a, b).value in d {
      RunReaches(es, a, b);
      BackedRun(es, d, a, b);
    }
  }

  /** The blocks of a written byte range and the first of them that is not mapped. */
  ghost predicate Range(es: seq<Xad>, off: nat, len: nat, h: nat, end: nat) {
    len > 0 && end == EndBlock(off, len) && h == FirstHole(es, off / PAGE, end)
  }

  /** What a write needs of the blocks it is given for the part of its range that is not mapped. */
  ghost predicate Supplied(es: seq<Xad>, d: Blocks, h: nat, end: nat, s: nat) {
    h <= end && (h < end ==> NewRun(es, d, s, end - h) && InSpace(Xad(1, h, end - h, s)))
  }

  /** The table takes a run at block `h` and address `s`: a slot is free, or the run continues the last extent. */
  predicate CanAdd(es: seq<Xad>, next: nat, h: nat, s: nat) {
    next <= XTROOTMAXSLOT && (|es| < SLOTS || Continues(es, h, s))
  }

  /** The table after the write: with the new run, or as it was if it has no room for it. */
  ghost predicate Grows(es: seq<Xad>, next: nat, h: nat, end: nat, s: nat, after: seq<Xad>) {
    if h < end && CanAdd(es, next, h, s) then MergeFits(es, h, end - h, s) && Inserted(es, h, end - h, s) == Some(after)
    else after == es
  }

  /** The device after the write. */
  ghost predicate Filled(es: seq<Xad>, d: Blocks, off: nat, data: seq<byte>, h: nat, end: nat, s: nat, after: Blocks) {
    && MappedIn(es, d, off, off / PAGE, h)
    && (if h < end then
          (forall j :: s <= j < s + (end - h) ==> j in d)
          && after == WriteFresh(WriteMapped(es, d, off, data, off / PAGE, h), s, off, data, h, h, end)
        else after == WriteMapped(es, d, off, data, off / PAGE, h))
  }

  /** The new run is in the table. */
  predicate Added(es: seq<Xad>, next: nat, h: nat, end: nat, s: nat) {
    h < end && CanAdd(es, next, h, s)
  }

  /**
   The blocks whose bytes reach the file: those before the first hole, where the run goes through the
   extent that a lookup finds, and those that were not mapped, if the new run is in the table.
   */
  predicate Lands(es: seq<Xad>, a: nat, h: nat, added: bool, b: nat) {
    (a <= b < h && RunPhys(es, a, b) == Phys(es, b)) || (added && Phys(es, b).None?)
  }

  lemma PatchAt(p: Page, i: nat, off: nat, data: seq<byte>)
    ensures Patch(p, i / PAGE, off, data)[i % PAGE] == if off <= i < off + |data| then data[i - off] else p[i % PAGE]
  {
    assert i / PAGE * PAGE + i % PAGE == i;
  }

  /** Blocks the table maps after the write. */
  lemma GrownPhys(es: seq<Xad>, next: nat, h: nat, end: nat, s: nat, after: seq<Xad>, b: int)
    requires AllInSpace(es) && Grows(es, next, h, end, s, after) && (h < end ==> InSpace(Xad(1, h, end - h, s)))
    ensures Phys(after, b) ==
      if Phys(es, b).Some? then Phys(es, b) else if Added(es, next, h, end, s) && h <= b < end then Some(s + (b - h)) else None
  {
    hide Phys, AllInSpace, InSpace, Inserted;
    if Added(es, next, h, end, s) {
      InsertIsRight(es, h, end - h, s);
    }
  }

  /** Content of a block of the table after the write: patched if a run of the write went through it. */
  lemma MappedContent(es: seq<Xad>, d: Blocks, off: nat, data: seq<byte>, h: nat, end: nat, s: nat, after: Blocks, p: nat, b: nat)
    requires Sound(es, d) && Range(es, off, |data|, h, end) && Supplied(es, d, h, end, s)
    requires Filled(es, d, off, data, h, end, s, after) && p in BlocksOf(es) && p in d
    requires forall c :: off / PAGE <= c < h && RunPhys(es, off / PAGE, c) == Some(p) ==> c == b
    ensures p in after
    ensures after[p] == if off / PAGE <= b < h && RunPhys(es, off / PAGE, b) == Some(p) then Patch(d[p], b, off, data) else d[p]
  {
    hide RunPhys, Patch, FirstHole, EndBlock, InSpace, WriteMapped, WriteFresh, Backed, ClaimsOnce, BlocksOf;
    var a := off / PAGE;
    var m := WriteMapped(es, d, off, data, a, h);
    if h < end {
      FreshAt(m, s, off, data, h, h, end, p);
    }
    if a <= b < h && RunPhys(es, a, b) == Some(p) {
      MappedHit(es, d, off, data, a, h, b);
    } else {
      MappedMiss(es, d, off, data, a, h, p);
    }
  }

  /** Content of a block of the new run. */
  lemma NewContent(es: seq<Xad>, d: Blocks, off: nat, data: seq<byte>, h: nat, end: nat, s: nat, after: Blocks, b: nat)
    requires Supplied(es, d, h, end, s) && Filled(es, d, off, data, h, end, s, after) && h <= b < end
    ensures s + (b - h) in after && after[s + (b - h)] == Patch(ZeroPage(), b, off, data)
  {
    hide RunPhys, Patch, InSpace, ZeroPage, BlocksOf;
    FreshAt(WriteMapped(es, d, off, data, off / PAGE, h), s, off, data, h, h, end, s + (b - h));
  }

  /**
   Exact effect of a write on every byte of the file, for every table: the bytes of the range that land
   take their new value, and all other bytes of the file keep theirs.
   */
  lemma WriteExact(es: seq<Xad>, next: nat, d: Blocks, off: nat, data: seq<byte>, h: nat, end: nat, s: nat,
                   es2: seq<Xad>, d2: Blocks, i: nat)
    requires Sound(es, d) && Range(es, off, |data|, h, end) && Supplied(es, d, h, end, s)
    requires Grows(es, next, h, end, s, es2) && Filled(es, d, off, data, h, end, s, d2)
    ensures FileByte(es2, d2, i)
         == if off <= i < off + |data| && Lands(es, off / PAGE, h, Added(es, next, h, end, s), i / PAGE) then data[i - off]
            else FileByte(es, d, i)
  {
    hide Phys, RunPhys, Patch, InSpace, FirstHole, EndBlock, Inserted, AllInSpace, WriteMapped, WriteFresh, NewRun, MappedIn, Filled, ClaimsOnce,
         CanAdd, Backed;
    var a, b := off / PAGE, i / PAGE;
    EndBlockBounds(off, |data|);
    assert off <= i < off + |data| ==> a <= b < end;
    GrownPhys(es, next, h, end, s, es2, b);
    if Phys(es, b).Some? {
      LookedUp(es, d, off, data, h, end, s, d2, b);
      PatchAt(d[Phys(es, b).value], i, off, data);
    } else {
      HoleBehind(es, a, end, h, b);
      if Added(es, next, h, end, s) && h <= b < end {
        NewContent(es, d, off, data, h, end, s, d2, b);
        PatchAt(ZeroPage(), i, off, data);
      }
    }
  }

  /** Content of the block a lookup finds. */
  lemma LookedUp(es: seq<Xad>, d: Blocks, off: nat, data: seq<byte>, h: nat, end: nat, s: nat, after: Blocks, b: nat)
    requires Sound(es, d) && Range(es, off, |data|, h, end) && Supplied(es, d, h, end, s)
    requires Filled(es, d, off, data, h, end, s, after) && Phys(es, b).Some?
    ensures var p, a := Phys(es, b).value, off / PAGE;
            && p in d && p in after
            && after[p] == if a <= b < h && RunPhys(es, a, b) == Phys(es, b) then Patch(d[p], b, off, data) else d[p]
  {
    hide RunPhys, Patch, Find, Filled, Range, Supplied, AllInSpace, ClaimsOnce, Backed, BlocksOf;
    var p, a := Phys(es, b).value, off / PAGE;
    MappedClaimed(es, b);
    var i := FindExtent(es, b);
    BackedAt(es, d, i, p);
    forall c: nat | a <= c < h && RunPhys(es, a, c) == Some(p) ensures c == b {
      RunMeetsLookup(es, a, c, b);
    }
    MappedContent(es, d, off, data, h, end, s, after, p, b);
  }

  lemma HoleBehind(es: seq<Xad>, a: nat, end: nat, h: nat, b: nat)
    requires a <= end && h == FirstHole(es, a, end) && Phys(es, b).None?
    ensures !(a <= b < h)
  {
    hide Phys;
  }

  /**
   A merge that overflows the 24 bits of a length cuts the last extent short: a block that was mapped
   before the write reads as zeros after it, whatever the device holds.
   */
  lemma OverflowLoses(es: seq<Xad>, h: nat, end: nat, s: nat, es2: seq<Xad>) returns (b: nat)
    requires Apart(es) && AllInSpace(es) && h < end && end - h < TWO24 && !MergeFits(es, h, end - h, s)
    requires Inserted(es, h, end - h, s) == Some(es2)
    ensures b < h && Phys(es, b).Some?
    ensures forall d: Blocks, i: nat :: i / PAGE == b ==> FileByte(es2, d, i) == 0
  {
    hide Apart, Phys, ByteOf;
    var x := es[|es| - 1];
    assert InSpace(x);
    b := x.offset + (x.length + (end - h) - TWO24);
    WrapLoses(es, end - h);
    forall d: Blocks, i: nat | i / PAGE == b ensures FileByte(es2, d, i) == 0 {
      ByteOfNone(d);
    }
  }

  // ---- Reading the same range back ----

  /** Extents only grow: the one that is merged with the new run reaches to its end, and the hole is filled. */
  ghost predicate Extends(es: seq<Xad>, es2: seq<Xad>, h: nat, end: nat, s: nat) {
    && (forall c: nat :: Find(es, c).Some? ==> Find(es2, c).Some? && Longer(Find(es, c).value, Find(es2, c).value, h, end, s))
    && Find(es2, h).Some?
    && (var z := Find(es2, h).value; z.offset + z.length == end && z.offset <= h && z.address + (h - z.offset) == s)
  }

  predicate Longer(x: Xad, y: Xad, h: nat, end: nat, s: nat) {
    && y.offset == x.offset && y.address == x.address
    && (y.length == x.length || (x.offset + x.length == h && x.address + x.length == s && y.offset + y.length == end))
  }

  lemma InsertedExtends(es: seq<Xad>, h: nat, end: nat, s: nat, es2: seq<Xad>)
    requires AllInSpace(es) && h < end && InSpace(Xad(1, h, end - h, s)) && MergeFits(es, h, end - h, s)
    requires Inserted(es, h, end - h, s) == Some(es2) && Phys(es, h).None?
    ensures Extends(es, es2, h, end, s)
  {
    hide Find, InSpace;
    var n := |es| - 1;
    if Continues(es, h, s) {
      var init, x := es[..n], es[n];
      var y := x.(length := x.length + (end - h));
      NoLoss(x, x.length + (end - h), 0, 0);
      assert es == init + [x] && es2 == init + [y];
      forall c: nat ensures (Find(es, c).Some? ==> Find(es2, c).Some? && Longer(Find(es, c).value, Find(es2, c).value, h, end, s))
                         && (c == h ==> Find(es2, c) == Some(y)) {
        FindAppend(init, [x], c);
        FindAppend(init, [y], c);
        FindOne(x, c);
        FindOne(y, c);
      }
    } else {
      var y := Xad(1, h, end - h, s);
      AppendFields(h, end - h, s);
      assert es2 == es + [y];
      forall c: nat ensures (Find(es, c).Some? ==> Find(es2, c) == Find(es, c)) && (c == h ==> Find(es2, c) == Some(y)) {
        FindAppend(es, [y], c);
        FindOne(y, c);
      }
    }
  }

  lemma FindOne(x: Xad, b: int)
    ensures Find([x], b) == if Has(x, b) then Some(x) else None
  {
    assert [x][1..] == [];
  }

  /** The runs of the same range after the write: the same blocks up to the hole, and then the new run. */
  lemma {:induction false} RunsAfter(es: seq<Xad>, es2: seq<Xad>, cur: nat, h: nat, end: nat, s: nat, b: nat)
    requires Extends(es, es2, h, end, s) && cur <= h < end && cur <= b < end
    requires Phys(es, h).None? && forall c :: cur <= c < h ==> Phys(es, c).Some?
    ensures RunPhys(es2, cur, b) == if b < h then RunPhys(es, cur, b) else Some(s + (b - h))
    decreases h - cur
  {
    hide Find, Extends;
    ExtendsAt(es, es2, h, end, s, cur);
    if cur < h {
      assert Phys(es, cur).Some?;
      var x, y := Find(es, cur).value, Find(es2, cur).value;
      var i := FindExtent(es, cur);
      if x.offset + x.length > h {
        FoundSomewhere(es, i, h);
      }
      if y.length == x.length {
        if b >= x.offset + x.length {
          RunsAfter(es, es2, x.offset + x.length, h, end, s, b);
        }
      }
    }
  }

  lemma ExtendsAt(es: seq<Xad>, es2: seq<Xad>, h: nat, end: nat, s: nat, c: nat)
    requires Extends(es, es2, h, end, s)
    ensures Find(es, c).Some? ==> Find(es2, c).Some? && Longer(Find(es, c).value, Find(es2, c).value, h, end, s)
    ensures c == h ==> Find(es2, h).Some?
    ensures c == h ==> (var z := Find(es2, h).value; z.offset + z.length == end && z.offset <= h && z.address + (h - z.offset) == s)
  {
    hide Find;
  }

  /** A block of the range, read back. */
  lemma ReadBackAt(es: seq<Xad>, next: nat, d: Blocks, off: nat, data: seq<byte>, h: nat, end: nat, s: nat,
                   es2: seq<Xad>, d2: Blocks, k: nat)
    requires Sound(es, d) && Range(es, off, |data|, h, end) && Supplied(es, d, h, end, s) && k < |data|
    requires Grows(es, next, h, end, s, es2) && Filled(es, d, off, data, h, end, s, d2) && (h == end || CanAdd(es, next, h, s))
    ensures ReadBack(es2, d2, off, |data|)[k] == data[k]
  {
    hide Phys, RunPhys, Patch, InSpace, FirstHole, EndBlock, Inserted, AllInSpace, NewRun, MappedIn, Filled, ClaimsOnce, CanAdd, Backed, ReadBack, Extends;
    var a, b := off / PAGE, (off + k) / PAGE;
    ReadAt(es2, d2, off, |data|, k);
    NoHoleLeft(es, next, off, |data|, h, end, s, es2);
    HoleFirst(es, a, end, h);
    if h < end {
      InsertedExtends(es, h, end, s, es2);
      HoleBounds(es, a, end);
      RunsAfter(es, es2, a, h, end, s, b);
    }
    if b < h {
      RunContent(es, d, off, data, h, end, s, d2, b);
      PatchAt(d[RunPhys(es, a, b).value], off + k, off, data);
    } else {
      NewContent(es, d, off, data, h, end, s, d2, b);
      PatchAt(ZeroPage(), off + k, off, data);
    }
  }

  /** Content of the block a run goes through. */
  lemma RunContent(es: seq<Xad>, d: Blocks, off: nat, data: seq<byte>, h: nat, end: nat, s: nat, after: Blocks, b: nat)
    requires Sound(es, d) && Range(es, off, |data|, h, end) && Supplied(es, d, h, end, s)
    requires Filled(es, d, off, data, h, end, s, after) && off / PAGE <= b < h
    ensures var q := RunPhys(es, off / PAGE, b);
            q.Some? && q.value in d && q.value in after && after[q.value] == Patch(d[q.value], b, off, data)
  {
    hide RunPhys, Phys, Patch, Filled, Supplied, AllInSpace, ClaimsOnce, Backed, BlocksOf, FirstHole, EndBlock;
    var a := off / PAGE;
    HoleBounds(es, a, end);
    RunReaches(es, a, b);
    BackedRun(es, d, a, b);
    RunClaimed(es, a, b);
    var p := RunPhys(es, a, b).value;
    forall c: nat | a <= c < h && RunPhys(es, a, c) == Some(p) ensures c == b {
      RunInjective(es, a, c, b);
    }
    MappedContent(es, d, off, data, h, end, s, after, p, b);
  }

  /** Once the new run is in the table, the range has no hole. */
  lemma NoHoleLeft(es: seq<Xad>, next: nat, off: nat, len: nat, h: nat, end: nat, s: nat, es2: seq<Xad>)
    requires AllInSpace(es) && Range(es, off, len, h, end) && Grows(es, next, h, end, s, es2)
    requires (h < end ==> InSpace(Xad(1, h, end - h, s))) && (h == end || CanAdd(es, next, h, s))
    ensures FirstHole(es2, off / PAGE, end) == end
  {
    hide Phys, InSpace, EndBlock, Inserted, AllInSpace, CanAdd;
    var h2 := FirstHole(es2, off / PAGE, end);
    if h2 < end {
      GrownPhys(es, next, h, end, s, es2, h2);
      assert false;
    }
  }

  lemma HoleFirst(es: seq<Xad>, a: nat, end: nat, h: nat)
    requires a <= end && h == FirstHole(es, a, end)
    ensures a <= h <= end && (h < end ==> Phys(es, h).None?)
  {
  }

  /** What is written comes back, whatever it is. */
  ghost predicate ComesBack(es: seq<Xad>, d: Blocks, off: nat, len: nat, h: nat, end: nat, s: nat, es2: seq<Xad>) {
    forall data: seq<byte>, d2: Blocks ::
      |data| == len && Filled(es, d, off, data, h, end, s, d2) ==> ReadBack(es2, d2, off, len) == data
  }

  /**
   Read after write: reading the range back gives the written bytes, whatever they are and however the
   extents of the table overlap, exactly when nothing of the range was unmapped or the table takes the
   new run.
   */
  lemma ReadAfterWrite(es: seq<Xad>, next: nat, d: Blocks, off: nat, len: nat, h: nat, end: nat, s: nat, es2: seq<Xad>)
    requires Sound(es, d) && Range(es, off, len, h, end) && Supplied(es, d, h, end, s) && Grows(es, next, h, end, s, es2)
    ensures ComesBack(es, d, off, len, h, end, s, es2) <==> h == end || CanAdd(es, next, h, s)
  {
    hide Sound, Range, Supplied, Grows, Filled, ReadBack, CanAdd;
    if h == end || CanAdd(es, next, h, s) {
      forall data: seq<byte>, d2: Blocks | |data| == len && Filled(es, d, off, data, h, end, s, d2)
        ensures ReadBack(es2, d2, off, len) == data
      {
        forall k: nat | k < len ensures ReadBack(es2, d2, off, len)[k] == data[k] {
          ReadBackAt(es, next, d, off, data, h, end, s, es2, d2, k);
        }
      }
    } else {
      var data, d2 := WriteLost(es, next, d, off, len, h, end, s, es2);
    }
  }

  /** Otherwise the bytes behind the hole read as zeros. */
  lemma WriteLost(es: seq<Xad>, next: nat, d: Blocks, off: nat, len: nat, h: nat, end: nat, s: nat, es2: seq<Xad>)
    returns (data: seq<byte>, d2: Blocks)
    requires Sound(es, d) && Range(es, off, len, h, end) && Supplied(es, d, h, end, s) && Grows(es, next, h, end, s, es2)
    requires h != end && !CanAdd(es, next, h, s)
    ensures |data| == len && Filled(es, d, off, data, h, end, s, d2) && ReadBack(es2, d2, off, len) != data
  {
    hide Phys, InSpace, FirstHole, EndBlock, Inserted, AllInSpace, ReadBack, WriteMapped, WriteFresh, CanAdd, Backed, ClaimsOnce, BlocksOf, MappedIn;
    HoleFirst(es, off / PAGE, end, h);
    var i := ByteInBlock(off, len, h);
    data := seq<byte>(len, _ => 1);
    MappedToHole(es, d, off, end);
    d2 := WriteFresh(WriteMapped(es, d, off, data, off / PAGE, h), s, off, data, h, h, end);
    ReadAt(es2, d2, off, len, i - off);
    assert ReadBack(es2, d2, off, len)[i - off] != data[i - off];
  }

  // ---- Looking up single bytes of the range ----

  /** Every byte of the range is, looked up on its own, the one that was written. */
  ghost predicate EachLands(es: seq<Xad>, d: Blocks, off: nat, len: nat, h: nat, end: nat, s: nat, es2: seq<Xad>) {
    forall data: seq<byte>, d2: Blocks, k: nat ::
      |data| == len && Filled(es, d, off, data, h, end, s, d2) && k < len ==> FileByte(es2, d2, off + k) == data[k]
  }

  /**
   Every byte of the range takes its new value for every later reader, wherever it starts, exactly when
   the runs agree with lookups, and what was behind the first hole was all unmapped and went to a run
   that the table takes.
   */
  lemma EachLandsWhen(es: seq<Xad>, next: nat, d: Blocks, off: nat, len: nat, h: nat, end: nat, s: nat, es2: seq<Xad>)
    requires Sound(es, d) && Range(es, off, len, h, end) && Supplied(es, d, h, end, s) && Grows(es, next, h, end, s, es2)
    ensures EachLands(es, d, off, len, h, end, s, es2) <==>
            RunsAgree(es, off / PAGE, h)
            && (h == end || (CanAdd(es, next, h, s) && forall b :: h <= b < end ==> Phys(es, b).None?))
  {
    hide Sound, Supplied, Grows, Filled, FileByte, CanAdd, Phys, RunPhys, FirstHole, EndBlock;
    var a := off / PAGE;
    HoleFirst(es, a, end, h);
    EndBlockBounds(off, len);
    if RunsAgree(es, a, h) && (h == end || (CanAdd(es, next, h, s) && forall b :: h <= b < end ==> Phys(es, b).None?)) {
      forall data: seq<byte>, d2: Blocks, k: nat | |data| == len && Filled(es, d, off, data, h, end, s, d2) && k < len
        ensures FileByte(es2, d2, off + k) == data[k]
      {
        WriteExact(es, next, d, off, data, h, end, s, es2, d2, off + k);
        assert a <= (off + k) / PAGE < end;
      }
    } else {
      HoleBounds(es, a, end);
      var b: nat := h;
      if !RunsAgree(es, a, h) {
        b :| a <= b < h && RunPhys(es, a, b) != Phys(es, b);
      } else if CanAdd(es, next, h, s) {
        b :| h <= b < end && Phys(es, b).Some?;
      }
      assert !Lands(es, a, h, Added(es, next, h, end, s), b);
      BlockMisses(es, next, d, off, len, h, end, s, es2, b);
    }
  }

  lemma BlockMisses(es: seq<Xad>, next: nat, d: Blocks, off: nat, len: nat, h: nat, end: nat, s: nat, es2: seq<Xad>, b: nat)
    requires Sound(es, d) && Range(es, off, len, h, end) && Supplied(es, d, h, end, s) && Grows(es, next, h, end, s, es2)
    requires off / PAGE <= b < end && !Lands(es, off / PAGE, h, Added(es, next, h, end, s), b)
    ensures !EachLands(es, d, off, len, h, end, s, es2)
  {
    hide Phys, RunPhys, InSpace, FirstHole, EndBlock, Inserted, AllInSpace, WriteMapped, WriteFresh, Added, Backed, ClaimsOnce, BlocksOf, MappedIn, FileByte,
         Lands;
    HoleFirst(es, off / PAGE, end, h);
    var i := ByteInBlock(off, len, b);
    var w: byte := (FileByte(es, d, i) + 1) % 256;
    var data := seq<byte>(len, _ => w);
    MappedToHole(es, d, off, end);
    var m := WriteMapped(es, d, off, data, off / PAGE, h);
    var d2 := if h < end then WriteFresh(m, s, off, data, h, h, end) else m;
    WriteExact(es, next, d, off, data, h, end, s, es2, d2, i);
    assert FileByte(es2, d2, off + (i - off)) != data[i - off];
  }
}

/**
 The bytes of a file: an extent table over the blocks of the device. Reading and writing follow the
 block runs of the table, which end at the first hole.
 */
module FileData {
  import opened Bytes
  import opened Device
  import opened Extents
  import opened ExtentTable
  import opened Xtree

  type Blocks = map<nat, Page>

  function ZeroPage(): Page { Zeros(PAGE) }

  /** Every block of every extent is on the device, and none is block 0, which stands for a hole. */
  ghost predicate Backed(es: seq<Xad>, d: Blocks) {
    forall i: nat :: i < |es| ==> SlotBacked(es[i], d)
  }

  ghost predicate SlotBacked(x: Xad, d: Blocks) {
    forall p: nat :: Holds(x, p) ==> 0 < p && p in d
  }

  /** A physical block of an extent. */
  predicate Holds(x: Xad, p: nat) {
    x.address <= p < x.address + x.length
  }

  lemma BackedAt(es: seq<Xad>, d: Blocks, i: nat, p: nat)
    requires Backed(es, d) && i < |es| && es[i].address <= p < es[i].address + es[i].length
    ensures 0 < p && p in d
  {
    assert SlotBacked(es[i], d) && Holds(es[i], p);
  }

  /** A byte of a physical block; no block stands for zeros. */
  function ByteOf(d: Blocks, q: Option<nat>, t: nat): byte
    requires t < PAGE
  {
    match q
    case None => 0
    case Some(p) => if p in d then d[p][t] else 0
  }

  /** A byte of a file, as a lookup of its block finds it. */
  function FileByte(es: seq<Xad>, d: Blocks, i: nat): byte {
    ByteOf(d, Phys(es, i / PAGE), i % PAGE)
  }

  /** The first block of a range that is not mapped, or the end of the range. */
  function FirstHole(es: seq<Xad>, cur: nat, end: nat): (h: nat)
    requires cur <= end
    ensures cur <= h <= end
    ensures forall b :: cur <= b < h ==> Phys(es, b).Some?
    ensures h < end ==> Phys(es, h).None?
    decreases end - cur
  {
    if cur == end || Phys(es, cur).None? then cur else FirstHole(es, cur + 1, end)
  }

  /** The end of the blocks that a range of bytes touches. */
  function EndBlock(off: nat, len: nat): (e: nat)
    ensures off / PAGE <= e
  {
    if len == 0 then off / PAGE else (off + len - 1) / PAGE + 1
  }

  lemma EndBlockBounds(off: nat, len: nat)
    ensures off / PAGE <= EndBlock(off, len)
    ensures len > 0 ==> off / PAGE < EndBlock(off, len)
    ensures forall i: nat :: off <= i < off + len ==> off / PAGE <= i / PAGE < EndBlock(off, len)
    ensures len > 0 ==> EndBlock(off, len) - off / PAGE == (len + off % PAGE + PAGE - 1) / PAGE
  {
  }

  // ---- Block runs ----

  /**
   The physical block that the runs of a range starting at block `a` give block `b`. A run follows one
   extent to its end; where extents overlap that may differ from what a lookup of `b` finds.
   */
  function RunPhys(es: seq<Xad>, a: nat, b: nat): Option<nat>
    requires a <= b
    decreases b - a
  {
    match Find(es, a)
    case None => None
    case Some(x) => if b < x.offset + x.length then Some(x.address + (b - x.offset)) else RunPhys(es, x.offset + x.length, b)
  }

  lemma FindExtent(es: seq<Xad>, b: int) returns (i: nat)
    requires Find(es, b).Some?
    ensures i < |es| && es[i] == Find(es, b).value && Has(es[i], b)
  {
    hide Find;
    i :| i < |es| && es[i] == Find(es, b).value;
  }

  /** Such a block belongs to an extent that contains `b`. */
  lemma {:induction false} RunExtent(es: seq<Xad>, a: nat, b: nat) returns (i: nat)
    requires a <= b && RunPhys(es, a, b).Some?
    ensures i < |es| && Has(es[i], b) && RunPhys(es, a, b).value == es[i].address + (b - es[i].offset)
    decreases b - a
  {
    hide Find;
    var x := Find(es, a).value;
    if b < x.offset + x.length {
      i := FindExtent(es, a);
    } else {
      i := RunExtent(es, x.offset + x.length, b);
    }
  }

  /** Runs reach a block exactly when no hole lies before it. */
  lemma {:induction false} RunReaches(es: seq<Xad>, a: nat, b: nat)
    requires a <= b
    ensures RunPhys(es, a, b).Some? <==> forall c :: a <= c <= b ==> Phys(es, c).Some?
    decreases b - a
  {
    hide Find;
    if Find(es, a).Some? {
      var x := Find(es, a).value;
      var i := FindExtent(es, a);
      forall c | a <= c < x.offset + x.length ensures Phys(es, c).Some? {
        FoundSomewhere(es, i, c);
      }
      if x.offset + x.length <= b {
        RunReaches(es, x.offset + x.length, b);
      }
    } else {
      assert Phys(es, a).None?;
    }
  }

  /** Without overlap the runs give every block what a lookup gives it. */
  lemma RunIsLookup(es: seq<Xad>, a: nat, b: nat)
    requires Apart(es) && a <= b && RunPhys(es, a, b).Some?
    ensures RunPhys(es, a, b) == Phys(es, b)
  {
    hide Apart, Find, Phys, RunPhys;
    var i := RunExtent(es, a, b);
    FoundApart(es, i, b);
  }

  /** So they do at the start of a range. */
  lemma RunStart(es: seq<Xad>, a: nat)
    ensures RunPhys(es, a, a) == Phys(es, a)
  {
    hide Find;
  }

  lemma BackedRun(es: seq<Xad>, d: Blocks, a: nat, b: nat)
    requires Backed(es, d) && a <= b && RunPhys(es, a, b).Some?
    ensures 0 < RunPhys(es, a, b).value && RunPhys(es, a, b).value in d
  {
    hide RunPhys;
    var i := RunExtent(es, a, b);
    BackedAt(es, d, i, RunPhys(es, a, b).value);
  }

  lemma {:induction false} FirstHoleSkip(es: seq<Xad>, cur: nat, k: nat, end: nat)
    requires cur <= k <= end && forall b :: cur <= b < k ==> Phys(es, b).Some?
    ensures FirstHole(es, cur, end) == FirstHole(es, k, end)
    decreases k - cur
  {
    hide Phys;
    if cur < k {
      FirstHoleSkip(es, cur + 1, k, end);
    }
  }

  // ---- Reading ----

  /** What a read that starts at block `a` sees of a byte when its first hole is at block `h`. */
  function Seen(es: seq<Xad>, d: Blocks, a: nat, h: nat, i: nat): byte {
    if a <= i / PAGE < h then ByteOf(d, RunPhys(es, a, i / PAGE), i % PAGE) else 0
  }

  function ReadBack(es: seq<Xad>, d: Blocks, off: nat, len: nat): (r: seq<byte>)
    ensures |r| == len
  {
    var a := off / PAGE;
    var h := FirstHole(es, a, EndBlock(off, len));
    seq<byte>(len, k requires 0 <= k < len => Seen(es, d, a, h, off + k))
  }

  /** Mapped blocks of the range come before the blocks that are not mapped. */
  ghost predicate HolesLast(es: seq<Xad>, from: nat, end: nat)
    requires from <= end
  {
    forall b :: FirstHole(es, from, end) <= b < end ==> Phys(es, b).None?
  }

  /** Up to the first hole, the runs of the range give every block what a lookup gives it. */
  ghost predicate RunsAgree(es: seq<Xad>, from: nat, h: nat) {
    forall b :: from <= b < h ==> RunPhys(es, from, b) == Phys(es, b)
  }

  lemma ApartAgrees(es: seq<Xad>, from: nat, end: nat)
    requires Apart(es) && from <= end
    ensures RunsAgree(es, from, FirstHole(es, from, end))
  {
    hide Apart, Phys, RunPhys;
    forall b | from <= b < FirstHole(es, from, end) ensures RunPhys(es, from, b) == Phys(es, b) {
      RunReaches(es, from, b);
      RunIsLookup(es, from, b);
    }
  }

  lemma ReadAt(es: seq<Xad>, d: Blocks, off: nat, len: nat, k: nat)
    requires k < len
    ensures off / PAGE <= (off + k) / PAGE < EndBlock(off, len)
    ensures var h, b := FirstHole(es, off / PAGE, EndBlock(off, len)), (off + k) / PAGE;
            ReadBack(es, d, off, len)[k] == if b < h then ByteOf(d, RunPhys(es, off / PAGE, b), (off + k) % PAGE) else 0
  {
    EndBlockBounds(off, len);
  }

  /**
   A read returns the bytes of the file, whatever the blocks hold, exactly when no mapped block of the
   range lies behind a hole and no run goes through an extent that a lookup would not have chosen.
   */
  lemma ReadRight(es: seq<Xad>, off: nat, len: nat)
    ensures var a, end := off / PAGE, EndBlock(off, len);
            (HolesLast(es, a, end) && RunsAgree(es, a, FirstHole(es, a, end)) <==>
             forall d: Blocks, k: nat :: k < len ==> ReadBack(es, d, off, len)[k] == FileByte(es, d, off + k))
  {
    hide Phys, ReadBack, FirstHole, EndBlock, RunPhys, ByteOf;
    var a, end := off / PAGE, EndBlock(off, len);
    var h := FirstHole(es, a, end);
    if HolesLast(es, a, end) && RunsAgree(es, a, h) {
      forall d: Blocks, k: nat | k < len ensures ReadBack(es, d, off, len)[k] == FileByte(es, d, off + k) {
        ReadAt(es, d, off, len, k);
        ByteOfNone(d);
      }
    } else {
      ReadWrong(es, off, len);
    }
  }

  /** In a table without overlap only the holes matter. */
  lemma ReadRightApart(es: seq<Xad>, off: nat, len: nat)
    requires Apart(es)
    ensures HolesLast(es, off / PAGE, EndBlock(off, len)) <==>
            forall d: Blocks, k: nat :: k < len ==> ReadBack(es, d, off, len)[k] == FileByte(es, d, off + k)
  {
    hide Apart, HolesLast, RunsAgree, ReadBack, FileByte;
    ReadRight(es, off, len);
    ApartAgrees(es, off / PAGE, EndBlock(off, len));
  }

  lemma ByteOfNone(d: Blocks)
    ensures forall t: nat :: t < PAGE ==> ByteOf(d, None, t) == 0
  {
  }

  lemma ReadWrong(es: seq<Xad>, off: nat, len: nat)
    requires !(HolesLast(es, off / PAGE, EndBlock(off, len)) && RunsAgree(es, off / PAGE, FirstHole(es, off / PAGE, EndBlock(off, len))))
    ensures exists d: Blocks, k: nat :: k < len && ReadBack(es, d, off, len)[k] != FileByte(es, d, off + k)
  {
    hide Phys, ReadBack, FirstHole, EndBlock, RunPhys;
    var a, end := off / PAGE, EndBlock(off, len);
    var h := FirstHole(es, a, end);
    var ones: Page := seq(PAGE, _ => 1);
    HoleBounds(es, a, end);
    var b: nat, d: Blocks;
    if !HolesLast(es, a, end) {
      b :| h <= b < end && Phys(es, b).Some?;
      d := map[Phys(es, b).value := ones];
    } else {
      b :| a <= b < h && RunPhys(es, a, b) != Phys(es, b);
      RunReaches(es, a, b);
      d := map[Phys(es, b).value := ones];
    }
    var i := ByteInBlock(off, len, b);
    ReadAt(es, d, off, len, i - off);
    assert FileByte(es, d, i) == 1;
    assert ReadBack(es, d, off, len)[i - off] != FileByte(es, d, off + (i - off));
  }

  lemma HoleBounds(es: seq<Xad>, a: nat, end: nat)
    requires a <= end
    ensures a <= FirstHole(es, a, end) <= end && forall b :: a <= b < FirstHole(es, a, end) ==> Phys(es, b).Some?
  {
    hide Phys;
  }

  /** Every block of the range holds one of its bytes. */
  lemma ByteInBlock(off: nat, len: nat, b: nat) returns (i: nat)
    requires off / PAGE <= b < EndBlock(off, len)
    ensures off <= i < off + len && i / PAGE == b
  {
    i := if b * PAGE <= off then off else b * PAGE;
  }

  /** A byte of consecutive blocks, counted from the start of the first. */
  function RunByte(d: Blocks, addr: nat, k: nat): byte {
    if addr + k / PAGE in d then d[addr + k / PAGE][k % PAGE] else 0
  }

  /** Copies bytes out of consecutive blocks, starting `skip` bytes into the first. */
  method ReadRun(d: Blocks, addr: nat, count: nat, skip: nat, want: nat) returns (r: seq<byte>)
    requires skip < PAGE && (want > 0 ==> forall j :: addr <= j < addr + count ==> j in d)
    ensures |r| == if count == 0 then 0 else Min(want, count * PAGE - skip)
    ensures forall t :: 0 <= t < |r| ==> r[t] == RunByte(d, addr, skip + t)
  {
    hide RunByte;
    r := [];
    var at, remaining, blk := skip, want, 0;
    while blk < count && remaining > 0
      invariant 0 <= blk <= count && remaining == want - |r| && 0 <= at < PAGE
      invariant blk == 0 ==> |r| == 0 && at == skip
      invariant blk > 0 ==> |r| == Min(want, blk * PAGE - skip)
      invariant blk > 0 && remaining > 0 ==> at == 0
      invariant forall t :: 0 <= t < |r| ==> r[t] == RunByte(d, addr, skip + t)
    {
      var data := d[addr + blk];
      var n := Min(PAGE - at, remaining);
      forall t | at <= t < at + n ensures data[t] == RunByte(d, addr, blk * PAGE + t) {
        RunByteInBlock(d, addr, blk, t);
      }
      r := r + data[at..at + n];
      remaining, at, blk := remaining - n, 0, blk + 1;
    }
  }

  lemma RunByteInBlock(d: Blocks, addr: nat, c: nat, t: nat)
    requires t < PAGE && addr + c in d
    ensures RunByte(d, addr, c * PAGE + t) == d[addr + c][t]
  {
    InBlock(c, t);
  }

  lemma InBlock(c: nat, t: nat)
    requires t < PAGE
    ensures (c * PAGE + t) / PAGE == c && (c * PAGE + t) % PAGE == t
  {
  }

  /** The bytes of one run are what the read sees at its place. */
  lemma RunBytes(es: seq<Xad>, d: Blocks, a: nat, h: nat, cur: nat, n: nat, addr: nat, k: nat)
    requires a <= cur && cur + n <= h && k < n * PAGE
    requires forall j :: cur <= j < cur + n ==> RunPhys(es, a, j) == Some(addr + (j - cur))
    ensures RunByte(d, addr, k) == Seen(es, d, a, h, cur * PAGE + k)
  {
    hide RunPhys;
    var j, t := k / PAGE, k % PAGE;
    assert cur * PAGE + k == (cur + j) * PAGE + t;
    InBlock(cur + j, t);
    assert RunPhys(es, a, cur + j) == Some(addr + j);
  }

  predicate SeenFrom(es: seq<Xad>, d: Blocks, a: nat, h: nat, off: nat, r: seq<byte>) {
    forall k :: 0 <= k < |r| ==> r[k] == Seen(es, d, a, h, off + k)
  }

  lemma SeenNothing(es: seq<Xad>, d: Blocks, a: nat, off: nat)
    ensures forall h: nat :: SeenFrom(es, d, a, h, off, [])
  {
  }

  lemma SeenAppend(es: seq<Xad>, d: Blocks, a: nat, h: nat, off: nat, r: seq<byte>, q: seq<byte>)
    requires SeenFrom(es, d, a, h, off, r) && (q == [] || SeenFrom(es, d, a, h, off + |r|, q))
    ensures SeenFrom(es, d, a, h, off, r + q)
  {
    hide Seen;
    forall k | |r| <= k < |r + q| ensures (r + q)[k] == Seen(es, d, a, h, off + k) {
      assert q[k - |r|] == Seen(es, d, a, h, off + |r| + (k - |r|));
    }
  }

  /** Block `cur` is where a run of the range starting at `a` begins. */
  ghost predicate Boundary(es: seq<Xad>, a: nat, cur: nat) {
    a <= cur && forall b: nat :: cur <= b ==> RunPhys(es, a, b) == RunPhys(es, cur, b)
  }

  lemma BoundaryStart(es: seq<Xad>, a: nat)
    ensures Boundary(es, a, a)
  {
  }

  lemma BoundaryNext(es: seq<Xad>, a: nat, cur: nat, next: nat)
    requires Boundary(es, a, cur) && Boundary(es, cur, next)
    ensures Boundary(es, a, next)
  {
    hide RunPhys;
  }

  /** Reads a range of bytes of a file. */
  method ReadData(x: Xtree, d: Blocks, off: nat, len: nat) returns (r: seq<byte>)
    requires x.Valid() && Backed(x.Entries(), d)
    ensures r == ReadBack(x.Entries(), d, off, len)
  {
    hide Phys, Find, MapRuns, FirstHole, ReadBack, RunByte, Seen, SeenFrom, Backed, EndBlock, RunPhys, Boundary, x.Entries;
    EndBlockBounds(off, len);
    ghost var es := x.Entries();
    var fsb, skip := off / PAGE, off % PAGE;
    var count := (len + skip + PAGE - 1) / PAGE;
    var runs := x.MapBlocks(fsb, count);
    r := [];
    SeenNothing(es, d, fsb, off);
    BoundaryStart(es, fsb);
    ghost var cur, end, h := fsb, fsb + count, FirstHole(es, fsb, fsb + count);
    var remaining, i := len, 0;
    while i < |runs|
      invariant 0 <= i <= |runs| && fsb <= cur && 0 <= remaining == len - |r| && 0 <= skip < PAGE
      invariant remaining > 0 ==> cur < end && runs[i..] == MapRuns(es, cur, end) && cur * PAGE + skip == off + |r|
      invariant remaining > 0 ==> h == FirstHole(es, cur, end) && Boundary(es, fsb, cur)
      invariant SeenFrom(es, d, fsb, h, off, r)
    {
      var run := runs[i];
      if remaining > 0 {
        RunHead(es, d, fsb, cur, end);
        assert run == runs[i..][0] && runs[i..][1..] == runs[i + 1..];
      }
      if run.address == 0 {
        var zeros := Min(run.count * PAGE, remaining);
        HoleReads(es, d, fsb, h, cur, off + |r|, zeros);
        SeenAppend(es, d, fsb, h, off, r, Zeros(zeros));
        r := r + Zeros(zeros);
        remaining, skip := remaining - zeros, 0;
        if remaining == 0 {
          break;
        }
      } else {
        var q := ReadRun(d, run.address, run.count, skip, remaining);
        if remaining > 0 {
          RunReads(es, d, fsb, h, cur, run.count, run.address, skip, q);
        }
        SeenAppend(es, d, fsb, h, off, r, q);
        r := r + q;
        remaining, skip := remaining - |q|, 0;
        cur := cur + run.count;
      }
      i := i + 1;
    }
    if remaining > 0 {
      RunHead(es, d, fsb, cur, end);
    }
    SeenAll(es, d, off, len, h, r);
  }

  /** The first run of what is left of a range: a hole to the end of it, or mapped blocks. */
  lemma RunHead(es: seq<Xad>, d: Blocks, a: nat, cur: nat, end: nat)
    requires Backed(es, d) && cur < end && Boundary(es, a, cur)
    ensures var runs := MapRuns(es, cur, end);
            && runs != []
            && (if runs[0].address == 0 then FirstHole(es, cur, end) == cur && runs == [BlockRun(0, end - cur)]
                else
                  && 0 < runs[0].count <= end - cur
                  && runs[1..] == MapRuns(es, cur + runs[0].count, end)
                  && FirstHole(es, cur, end) == FirstHole(es, cur + runs[0].count, end)
                  && (cur + runs[0].count < end ==> Boundary(es, a, cur + runs[0].count))
                  && (forall j :: cur <= j < cur + runs[0].count ==> RunPhys(es, a, j) == Some(runs[0].address + (j - cur)))
                  && (forall j :: runs[0].address <= j < runs[0].address + runs[0].count ==> j in d))
  {
    hide MapRuns, Find, Boundary, Backed;
    MapRunsStep(es, cur, end);
    var runs := MapRuns(es, cur, end);
    if Find(es, cur).Some? {
      var x, n := Find(es, cur).value, runs[0].count;
      var i := FindExtent(es, cur);
      BackedAt(es, d, i, runs[0].address);
      forall j | runs[0].address <= j < runs[0].address + n ensures j in d {
        BackedAt(es, d, i, j);
      }
      BoundaryAt(es, a, cur, cur);
      forall j | cur <= j < cur + n ensures Phys(es, j).Some? && RunPhys(es, a, j) == Some(runs[0].address + (j - cur)) {
        FoundSomewhere(es, i, j);
        BoundaryAt(es, a, cur, j);
      }
      FirstHoleSkip(es, cur, cur + n, end);
      if cur + n < end {
        RunEnds(es, cur);
        BoundaryNext(es, a, cur, cur + n);
      }
    }
  }

  lemma BoundaryAt(es: seq<Xad>, a: nat, cur: nat, b: nat)
    requires Boundary(es, a, cur) && cur <= b
    ensures a <= cur && RunPhys(es, a, b) == RunPhys(es, cur, b)
  {
  }

  lemma RunEnds(es: seq<Xad>, cur: nat)
    requires Find(es, cur).Some?
    ensures var x := Find(es, cur).value; Boundary(es, cur, x.offset + x.length)
  {
    hide Find;
  }

  lemma HoleReads(es: seq<Xad>, d: Blocks, a: nat, h: nat, cur: nat, from: nat, n: nat)
    requires n > 0 ==> h <= cur && cur * PAGE <= from
    ensures SeenFrom(es, d, a, h, from, Zeros(n))
  {
    forall k | 0 <= k < n ensures Zeros(n)[k] == Seen(es, d, a, h, from + k) {
      assert (from + k) / PAGE >= cur;
    }
  }

  lemma RunReads(es: seq<Xad>, d: Blocks, a: nat, h: nat, cur: nat, n: nat, addr: nat, skip: nat, q: seq<byte>)
    requires a <= cur && cur + n <= h && skip + |q| <= n * PAGE
    requires forall j :: cur <= j < cur + n ==> RunPhys(es, a, j) == Some(addr + (j - cur))
    requires forall t :: 0 <= t < |q| ==> q[t] == RunByte(d, addr, skip + t)
    ensures SeenFrom(es, d, a, h, cur * PAGE + skip, q)
  {
    hide RunByte, Seen, RunPhys;
    forall t | 0 <= t < |q| ensures q[t] == Seen(es, d, a, h, cur * PAGE + skip + t) {
      RunBytes(es, d, a, h, cur, n, addr, skip + t);
    }
  }

  lemma SeenAll(es: seq<Xad>, d: Blocks, off: nat, len: nat, h: nat, r: seq<byte>)
    requires |r| == len && (len > 0 ==> h == FirstHole(es, off / PAGE, EndBlock(off, len)))
    requires SeenFrom(es, d, off / PAGE, h, off, r)
    ensures r == ReadBack(es, d, off, len)
  {
    hide Seen, FirstHole;
  }
}

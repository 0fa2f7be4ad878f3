/**
 Moving extents between files: a window is taken out of the source table, the destination window is
 punched, and the taken extents are appended to the destination, shifted.
 */
module ExtentMove {
  import opened Bytes
  import opened Extents
  import opened ExtentTable
  import opened Xtree
  import opened Ownership

  /** An extent root as it is stored in an inode. */
  datatype Root = Root(entries: seq<Xad>, next: nat)

  predicate RootOk(r: Root) {
    |r.entries| == if r.next <= XTENTRYSTART then 0 else Min(r.next, XTROOTMAXSLOT) - XTENTRYSTART
  }

  function CutRoot(c: Cut, r: Root): (s: Root)
    requires Ordered(c)
    ensures RootOk(s)
  {
    var kept := All(c, r.entries).kept;
    Root(Stored(kept), XTENTRYSTART + |kept|)
  }

  /** A run added by a write; a table without a slot for it stays as it is. */
  function GrowRoot(r: Root, off: nat, len: nat, addr: nat): Root {
    var ins := Inserted(r.entries, off, len, addr);
    if r.next <= XTROOTMAXSLOT && ins.Some? then Root(ins.value, XTENTRYSTART + |ins.value|) else r
  }

  /** A taken extent as it is entered in the destination. */
  function Shifted(x: Xad, from: nat, to: nat): Xad
    requires x.offset >= from
  {
    Xad(0, (to + (x.offset - from)) % TWO40, x.length % TWO24, x.address % TWO40)
  }

  predicate Behind(xs: seq<Xad>, from: nat) {
    forall i :: 0 <= i < |xs| ==> xs[i].offset >= from
  }

  function ShiftAll(xs: seq<Xad>, from: nat, to: nat): (r: seq<Xad>)
    requires Behind(xs, from)
    ensures |r| == |xs|
  {
    seq(|xs|, i requires 0 <= i < |xs| => Shifted(xs[i], from, to))
  }

  /** Extents appended in slots of their own; `None` when they do not all fit. */
  function Give(r: Root, xs: seq<Xad>): Option<Root> {
    if xs == [] then Some(r)
    else if |r.entries| + |xs| <= SLOTS then Some(Root(r.entries + xs, XTENTRYSTART + |r.entries| + |xs|))
    else None
  }

  /** What a move makes of the two roots. */
  datatype Moved =
    | Nothing
    | TableFull(src: Root)
    | Done(src: Root, dst: Root, freed: seq<Chunk>)

  function Move(src: Root, dst: Root, from: nat, to: nat, n: nat): Moved
    requires n > 0
  {
    var t := All(Take(from, from + n), src.entries);
    OutBehind(Take(from, from + n), src.entries);
    if t.out == [] then Nothing else
    var q := Punch(to, to + n);
    var given := Give(CutRoot(q, dst), ShiftAll(t.out, from, to));
    if given.None? then TableFull(CutRoot(Take(from, from + n), src))
    else Done(CutRoot(Take(from, from + n), src), given.value, FreedOf(All(q, dst.entries).out))
  }

  lemma {:induction false} OutBehind(c: Cut, es: seq<Xad>)
    requires !c.Truncate? && Ordered(c)
    ensures Behind(All(c, es).out, c.start)
    decreases |es|
  {
    if es != [] {
      OutBehind(c, es[..|es| - 1]);
    }
  }

  /** What the source promises of a move, on the mappings. */
  ghost predicate MoveRight(src: seq<Xad>, dst: seq<Xad>, from: nat, to: nat, n: nat, src2: seq<Xad>, dst2: seq<Xad>) {
    && (forall b: int :: Phys(src2, b) == if from <= b < from + n then None else Phys(src, b))
    && (forall b: int :: Phys(dst2, b) == if to <= b < to + n then Phys(src, b - to + from) else Phys(dst, b))
  }

  lemma ShiftedFields(x: Xad, from: nat, to: nat, n: nat)
    requires InSpace(x) && x.length > 0 && from <= x.offset && x.offset + x.length <= from + n && to + n <= TWO40
    ensures Shifted(x, from, to) == Xad(0, to + (x.offset - from), x.length, x.address)
  {
  }

  lemma {:induction false} ShiftPhys(xs: seq<Xad>, from: nat, to: nat, n: nat, b: int)
    requires Behind(xs, from) && AllInSpace(xs) && to + n <= TWO40
    requires forall i :: 0 <= i < |xs| ==> xs[i].length > 0 && xs[i].offset + xs[i].length <= from + n
    ensures Phys(ShiftAll(xs, from, to), b) == Phys(xs, b - to + from)
    ensures AllInSpace(ShiftAll(xs, from, to)) && BlocksOf(ShiftAll(xs, from, to)) == BlocksOf(xs)
    decreases |xs|
  {
    hide Phys, InSpace, Shifted, BlocksOf;
    NoExtents(b);
    NoExtents(b - to + from);
    if xs == [] {
      assert ShiftAll(xs, from, to) == [];
    } else {
      var k := |xs| - 1;
      var init, x := xs[..k], xs[k];
      assert forall i :: 0 <= i < k ==> init[i] == xs[i];
      ShiftPhys(init, from, to, n, b);
      ShiftedFields(x, from, to, n);
      var y := Shifted(x, from, to);
      assert ShiftAll(xs, from, to) == ShiftAll(init, from, to) + [y] && xs == init + [x];
      ShiftedInSpace(x, y, from, to, n);
      PhysAppend(ShiftAll(init, from, to), [y], b);
      PhysAppend(init, [x], b - to + from);
      PhysOne(x, b - to + from);
      PhysOne(y, b);
      BlocksOfAppend(ShiftAll(init, from, to), [y]);
      BlocksOfAppend(init, [x]);
      BlocksOfOne(x);
      BlocksOfOne(y);
    }
  }

  lemma ShiftedInSpace(x: Xad, y: Xad, from: nat, to: nat, n: nat)
    requires InSpace(x) && from <= x.offset && x.offset + x.length <= from + n && to + n <= TWO40
    requires y == Xad(0, to + (x.offset - from), x.length, x.address)
    ensures InSpace(y)
  {
  }

  /** The extents taken out lie inside the window. */
  lemma {:induction false} TakenInside(c: Cut, es: seq<Xad>)
    requires !c.Truncate? && Ordered(c) && AllInSpace(es)
    ensures forall i :: 0 <= i < |All(c, es).out| ==>
              var x := All(c, es).out[i]; x.length > 0 && c.start <= x.offset && x.offset + x.length <= c.end
    decreases |es|
  {
    hide One, InSpace;
    if es != [] {
      TakenInside(c, es[..|es| - 1]);
      OneTakenInside(c, es[|es| - 1]);
    }
  }

  lemma OneTakenInside(c: Cut, x: Xad)
    requires !c.Truncate? && Ordered(c) && InSpace(x)
    ensures forall i :: 0 <= i < |One(c, x).out| ==>
              var y := One(c, x).out[i]; y.length > 0 && c.start <= y.offset && y.offset + y.length <= c.end
  {
  }

  /** The taken extents, shifted, map the destination window as the source window was mapped. */
  lemma TakenPhys(src: seq<Xad>, from: nat, to: nat, n: nat, b: int)
    requires AllInSpace(src) && n > 0 && to + n <= TWO40
    ensures var out := All(Take(from, from + n), src).out;
            && Behind(out, from)
            && Phys(ShiftAll(out, from, to), b) == (if to <= b < to + n then Phys(src, b - to + from) else None)
            && AllInSpace(ShiftAll(out, from, to)) && BlocksOf(ShiftAll(out, from, to)) == BlocksOf(out)
  {
    hide Phys, InSpace, ShiftAll, BlocksOf, All;
    var c := Take(from, from + n);
    var out := All(c, src).out;
    OutBehind(c, src);
    TakenInside(c, src);
    AllExact(c, src, b - to + from);
    ShiftPhys(out, from, to, n, b);
  }

  /** The cut covers no block of its window. */
  lemma KeptClear(c: Cut, es: seq<Xad>, b: int)
    requires Ordered(c) && AllInSpace(es) && Removed(c, b)
    ensures Phys(All(c, es).kept, b).None?
  {
    hide Cover, All, Phys;
    CutCover(c, es, b);
    CoverPhys(All(c, es).kept, b);
  }

  /**
   A move that reports success is exact precisely when no extent of the destination sticks out of its
   window on both sides, and the source did not need a seventeenth slot for a split extent.
   */
  lemma MoveExact(src: Root, dst: Root, from: nat, to: nat, n: nat)
    requires n > 0 && to + n <= TWO40 && Move(src, dst, from, to, n).Done?
    requires AllInSpace(src.entries) && AllInSpace(dst.entries) && Apart(src.entries) && Apart(dst.entries)
    requires |src.entries| <= SLOTS && |dst.entries| <= SLOTS
    ensures var m := Move(src, dst, from, to, n);
            (MoveRight(src.entries, dst.entries, from, to, n, m.src.entries, m.dst.entries)
             <==> (!(LiveCount(src.entries) == SLOTS && SomeSpan(src.entries, from, from + n))
                   && !SomeSpan(dst.entries, to, to + n)))
  {
    hide Phys, All, Apart, InSpace, AllInSpace, LiveCount, SomeSpan, Stored, ShiftAll, Behind, Give, CutRoot;
    var m := Move(src, dst, from, to, n);
    var q := Punch(to, to + n);
    TakeRight(from, from + n, src.entries);
    PunchRight(to, to + n, dst.entries);
    MoveParts(src, dst, from, to, n);
    var kept := All(q, dst.entries).kept;
    StoredWhole(kept);
    forall b: int ensures Phys(m.dst.entries, b)
      == if to <= b < to + n then Phys(src.entries, b - to + from) else Phys(kept, b)
    {
      MovedPhys(src, dst, from, to, n, b);
    }
    forall b: int | to <= b < to + n ensures Phys(kept, b).None? {
      KeptClear(q, dst.entries, b);
    }
    SourceRight(src.entries, from, n, m.src.entries);
    DestRight(src.entries, dst.entries, from, to, n, kept, m.dst.entries);
  }

  lemma MoveParts(src: Root, dst: Root, from: nat, to: nat, n: nat)
    requires n > 0 && Move(src, dst, from, to, n).Done?
    ensures var m := Move(src, dst, from, to, n);
            && m.src.entries == Stored(All(Take(from, from + n), src.entries).kept)
            && |All(Punch(to, to + n), dst.entries).kept| <= SLOTS
            && Behind(All(Take(from, from + n), src.entries).out, from)
            && m.dst.entries == All(Punch(to, to + n), dst.entries).kept
                                + ShiftAll(All(Take(from, from + n), src.entries).out, from, to)
  {
    hide All, ShiftAll;
    OutBehind(Take(from, from + n), src.entries);
  }

  lemma MovedPhys(src: Root, dst: Root, from: nat, to: nat, n: nat, b: int)
    requires n > 0 && to + n <= TWO40 && Move(src, dst, from, to, n).Done?
    requires AllInSpace(src.entries) && AllInSpace(dst.entries)
    ensures Phys(Move(src, dst, from, to, n).dst.entries, b)
      == if to <= b < to + n then Phys(src.entries, b - to + from) else Phys(All(Punch(to, to + n), dst.entries).kept, b)
  {
    hide Phys, All, ShiftAll, InSpace, Move, BlocksOf;
    var q := Punch(to, to + n);
    MoveParts(src, dst, from, to, n);
    TakenPhys(src.entries, from, to, n, b);
    PhysAppend(All(q, dst.entries).kept, ShiftAll(All(Take(from, from + n), src.entries).out, from, to), b);
    if to <= b < to + n {
      KeptClear(q, dst.entries, b);
    }
  }

  lemma SourceRight(src: seq<Xad>, from: nat, n: nat, src2: seq<Xad>)
    ensures CutRight(Take(from, from + n), src, src2) <==>
            forall b: int :: Phys(src2, b) == if from <= b < from + n then None else Phys(src, b)
  {
    hide Phys;
  }

  lemma DestRight(src: seq<Xad>, dst: seq<Xad>, from: nat, to: nat, n: nat, kept: seq<Xad>, dst2: seq<Xad>)
    requires forall b: int :: Phys(dst2, b) == if to <= b < to + n then Phys(src, b - to + from) else Phys(kept, b)
    requires forall b: int :: to <= b < to + n ==> Phys(kept, b).None?
    ensures CutRight(Punch(to, to + n), dst, kept) <==>
            forall b: int :: Phys(dst2, b) == if to <= b < to + n then Phys(src, b - to + from) else Phys(dst, b)
  {
    hide Phys;
    if CutRight(Punch(to, to + n), dst, kept) {
      forall b: int ensures Phys(dst2, b) == if to <= b < to + n then Phys(src, b - to + from) else Phys(dst, b) {
        assert Phys(kept, b) == if Removed(Punch(to, to + n), b) then None else Phys(dst, b);
      }
    }
    if forall b: int :: Phys(dst2, b) == if to <= b < to + n then Phys(src, b - to + from) else Phys(dst, b) {
      forall b: int ensures Phys(kept, b) == if Removed(Punch(to, to + n), b) then None else Phys(dst, b) {
        assert Phys(dst2, b) == if to <= b < to + n then Phys(src, b - to + from) else Phys(dst, b);
      }
    }
  }

  // ---- Conservation ----

  function LastBlock(x: Xad): int { x.address + x.length - 1 }

  /** A punched extent that spans the window loses its last block, and gains none behind it. */
  lemma SpanShort(start: nat, end: nat, x: Xad, p: nat)
    requires start < end && InSpace(x) && Spans(x, start, end) && LastBlock(x) <= p
    ensures var q := One(Punch(start, end), x);
            BlocksOf(q.kept)[p] + BlocksOf(q.out)[p] == 0 && (LastBlock(x) == p ==> BlocksOf([x])[p] == 1)
  {
    hide BlocksOf, Run;
    var right, left := x.offset + x.length - end, start - x.offset;
    NoLoss(x, left, 0, 0);
    NoLoss(x, right, end, x.address + left);
    BlocksOfOne(x);
    BlocksOfTwo(x.(length := left), Xad(x.flag, end, right, x.address + left));
    BlocksOfOne(Xad(x.flag, start, end - start, x.address + left));
    RunCount(x.address, x.length, p);
    RunCount(x.address, left, p);
    RunCount(x.address + left, right, p);
    RunCount(x.address + left, end - start, p);
  }

  /** No spanning extent reaches behind block `p`. */
  predicate SpansUpTo(es: seq<Xad>, start: nat, end: nat, p: nat) {
    forall i :: 0 <= i < |es| && Spans(es[i], start, end) ==> LastBlock(es[i]) <= p
  }

  lemma {:induction false} PunchShort(start: nat, end: nat, es: seq<Xad>, p: nat)
    requires start < end && AllInSpace(es) && SpansUpTo(es, start, end, p)
    ensures var q := All(Punch(start, end), es);
            && BlocksOf(q.kept)[p] + BlocksOf(q.out)[p] <= BlocksOf(es)[p]
            && ((exists i :: 0 <= i < |es| && Spans(es[i], start, end) && LastBlock(es[i]) == p) ==>
                  BlocksOf(q.kept)[p] + BlocksOf(q.out)[p] < BlocksOf(es)[p])
    decreases |es|
  {
    hide One, InSpace, BlocksOf, Spans, LastBlock;
    var c := Punch(start, end);
    NoBlocks();
    if es != [] {
      var init, x := es[..|es| - 1], es[|es| - 1];
      PunchShort(start, end, init, p);
      assert es == init + [x];
      BlocksOfAppend(init, [x]);
      BlocksOfAppend(All(c, init).kept, One(c, x).kept);
      BlocksOfAppend(All(c, init).out, One(c, x).out);
      if Spans(x, start, end) {
        SpanShort(start, end, x, p);
      } else {
        OneConserves(c, x);
        assert (BlocksOf(One(c, x).kept) + BlocksOf(One(c, x).out))[p] == BlocksOf([x])[p];
      }
      forall i | 0 <= i < |es| && Spans(es[i], start, end) && LastBlock(es[i]) == p
        ensures BlocksOf(All(c, es).kept)[p] + BlocksOf(All(c, es).out)[p] < BlocksOf(es)[p]
      {
        if i < |es| - 1 {
          assert init[i] == es[i];
        }
      }
    }
  }

  /** The spanning extent that reaches farthest. */
  lemma {:induction false} FarthestSpan(es: seq<Xad>, start: nat, end: nat) returns (i: nat)
    requires start < end && SomeSpan(es, start, end)
    ensures i < |es| && Spans(es[i], start, end) && 0 <= LastBlock(es[i]) && SpansUpTo(es, start, end, LastBlock(es[i]))
    decreases |es|
  {
    var n := |es| - 1;
    var init := es[..n];
    if SomeSpan(init, start, end) {
      i := FarthestSpan(init, start, end);
      if Spans(es[n], start, end) && LastBlock(es[n]) > LastBlock(es[i]) {
        i := n;
      }
    } else {
      i := n;
      assert forall j :: 0 <= j < n ==> es[j] == init[j];
    }
  }

  /** Blocks of source, destination and freed list together, after a move. */
  function BlocksAfter(m: Moved, out: seq<Xad>): multiset<nat>
    requires m.Done?
  {
    BlocksOf(m.src.entries) + BlocksOf(m.dst.entries) + BlocksOf(out)
  }

  /** What the two halves of a move make of a block's count. */
  lemma BlocksAfterAt(src: Root, dst: Root, from: nat, to: nat, n: nat, p: nat)
    requires n > 0 && to + n <= TWO40 && Move(src, dst, from, to, n).Done? && AllInSpace(src.entries)
    ensures var t, q := All(Take(from, from + n), src.entries), All(Punch(to, to + n), dst.entries);
            && BlocksAfter(Move(src, dst, from, to, n), q.out)[p]
               == BlocksOf(Stored(t.kept))[p] + BlocksOf(t.out)[p] + BlocksOf(q.kept)[p] + BlocksOf(q.out)[p]
            && BlocksOf(t.kept)[p] + BlocksOf(t.out)[p] == BlocksOf(src.entries)[p]
  {
    hide All, ShiftAll, InSpace, Move, BlocksOf, Stored, Phys;
    var t, q := All(Take(from, from + n), src.entries), All(Punch(to, to + n), dst.entries);
    MoveParts(src, dst, from, to, n);
    TakenPhys(src.entries, from, to, n, 0);
    BlocksOfAppend(q.kept, ShiftAll(t.out, from, to));
    AllConserves(Take(from, from + n), src.entries);
    assert (BlocksOf(t.kept) + BlocksOf(t.out))[p] == BlocksOf(src.entries)[p];
  }

  /**
   A move conserves the blocks of source, destination and freed list exactly when no extent of the target
   spans its window and the source needs no seventeenth slot.
   */
  lemma MoveConserves(src: Root, dst: Root, from: nat, to: nat, n: nat)
    requires n > 0 && to + n <= TWO40 && Move(src, dst, from, to, n).Done?
    requires AllInSpace(src.entries) && AllInSpace(dst.entries)
    ensures BlocksAfter(Move(src, dst, from, to, n), All(Punch(to, to + n), dst.entries).out)
              == BlocksOf(src.entries) + BlocksOf(dst.entries)
            <==> |All(Take(from, from + n), src.entries).kept| <= SLOTS && !SomeSpan(dst.entries, to, to + n)
  {
    hide All, InSpace, Move, BlocksOf, Stored, BlocksAfter, Spans, LastBlock;
    var m, t, q := Move(src, dst, from, to, n), All(Take(from, from + n), src.entries), All(Punch(to, to + n), dst.entries);
    var before := BlocksOf(src.entries) + BlocksOf(dst.entries);
    StoredBlocks(t.kept);
    if SomeSpan(dst.entries, to, to + n) {
      var i := FarthestSpan(dst.entries, to, to + n);
      var p: nat := LastBlock(dst.entries[i]);
      PunchShort(to, to + n, dst.entries, p);
      BlocksAfterAt(src, dst, from, to, n, p);
      assert BlocksOf(Stored(t.kept))[p] <= BlocksOf(t.kept)[p];
      assert BlocksAfter(m, q.out)[p] < before[p];
    } else {
      assert AllHandled(Punch(to, to + n), dst.entries);
      AllConserves(Punch(to, to + n), dst.entries);
      if |t.kept| <= SLOTS {
        StoredWhole(t.kept);
        forall p: nat ensures BlocksAfter(m, q.out)[p] == before[p] {
          BlocksAfterAt(src, dst, from, to, n, p);
          assert (BlocksOf(q.kept) + BlocksOf(q.out))[p] == BlocksOf(dst.entries)[p];
        }
        assert BlocksAfter(m, q.out) == before;
      } else {
        KeptNotEmpty(Take(from, from + n), src.entries);
        var p := DroppedBlock(t.kept);
        BlocksAfterAt(src, dst, from, to, n, p);
        assert (BlocksOf(q.kept) + BlocksOf(q.out))[p] == BlocksOf(dst.entries)[p];
        assert BlocksAfter(m, q.out)[p] < before[p];
      }
    }
  }

  /** A slot that is not stored takes a block with it. */
  lemma DroppedBlock(kept: seq<Xad>) returns (p: nat)
    requires |kept| > SLOTS && forall i :: 0 <= i < |kept| ==> kept[i].length > 0
    ensures BlocksOf(Stored(kept))[p] < BlocksOf(kept)[p]
  {
    hide BlocksOf, Run;
    var x := kept[SLOTS];
    p := x.address;
    var rest := kept[SLOTS..];
    assert kept == kept[..SLOTS] + rest && rest[0] == x;
    BlocksOfAppend(kept[..SLOTS], rest);
    PhysClaimed(rest, 0, p);
  }

  // ---- Moves that fail ----

  /**
   A move fails exactly when it takes something and the rest of the target leaves too few slots for it.
   The source has lost its window by then, and something was mapped there.
   */
  lemma FullMoveLoses(src: Root, dst: Root, from: nat, to: nat, n: nat) returns (lost: nat)
    requires n > 0 && AllInSpace(src.entries)
    ensures var t, q := All(Take(from, from + n), src.entries), All(Punch(to, to + n), dst.entries);
            Move(src, dst, from, to, n).TableFull? <==> t.out != [] && |Stored(q.kept)| + |t.out| > SLOTS
    ensures var m := Move(src, dst, from, to, n);
            m.TableFull? ==>
              && (forall b: int :: from <= b < from + n ==> Phys(m.src.entries, b).None?)
              && from <= lost < from + n && Phys(src.entries, lost).Some?
  {
    hide Phys, All, ShiftAll;
    lost := 0;
    var t := Take(from, from + n);
    var m := Move(src, dst, from, to, n);
    MoveOutcome(src, dst, from, to, n);
    if m.TableFull? {
      forall b: int | from <= b < from + n ensures Phys(m.src.entries, b).None? {
        WindowGone(src.entries, t, b);
      }
      var out := All(t, src.entries).out;
      TakenInside(t, src.entries);
      lost := out[0].offset;
      TakenMapped(src.entries, t, lost);
    }
  }

  lemma MoveOutcome(src: Root, dst: Root, from: nat, to: nat, n: nat)
    requires n > 0
    ensures var m := Move(src, dst, from, to, n);
            var t, q := All(Take(from, from + n), src.entries), All(Punch(to, to + n), dst.entries);
            && (m.TableFull? <==> t.out != [] && |Stored(q.kept)| + |t.out| > SLOTS)
            && (m.TableFull? ==> m.src.entries == Stored(t.kept))
  {
    hide All, ShiftAll, Stored;
    OutBehind(Take(from, from + n), src.entries);
  }

  lemma WindowGone(es: seq<Xad>, t: Cut, b: int)
    requires Ordered(t) && AllInSpace(es) && Removed(t, b)
    ensures Phys(Stored(All(t, es).kept), b).None?
  {
    hide Phys, All;
    var kept := All(t, es).kept;
    CutCover(t, es, b);
    var k := |Stored(kept)|;
    assert kept == kept[..k] + kept[k..] && Stored(kept) == kept[..k];
    CoverAppend(kept[..k], kept[k..], b);
    CoverPhys(Stored(kept), b);
  }

  lemma TakenMapped(es: seq<Xad>, t: Cut, b: int)
    requires t.Take? && Ordered(t) && AllInSpace(es) && Removed(t, b) && All(t, es).out != [] && Has(All(t, es).out[0], b)
    ensures Phys(es, b).Some?
  {
    hide Find, All;
    FoundSomewhere(All(t, es).out, 0, b);
    AllExact(t, es, b);
  }
}

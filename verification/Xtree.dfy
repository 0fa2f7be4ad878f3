/**
 The inline extent root of a file: eighteen slots of which the first two overlap the header, and a next
 index. Its methods are tied to the table functions.
 */
module Xtree {
  import opened Bytes
  import opened Extents
  import opened ExtentTable

  const XTENTRYSTART := 2
  const XTROOTMAXSLOT := 18

  /** An extent handed over to another file. */
  datatype Taken = Taken(offset: nat, length: nat, address: nat)

  function FreedOf(out: seq<Xad>): (r: seq<Chunk>)
    ensures |r| == |out|
  {
    seq(|out|, i requires 0 <= i < |out| => Chunk(out[i].address, out[i].length))
  }

  function TakenOf(out: seq<Xad>): (r: seq<Taken>)
    ensures |r| == |out|
  {
    seq(|out|, i requires 0 <= i < |out| => Taken(out[i].offset, out[i].length, out[i].address))
  }

  lemma OutAppend(a: seq<Xad>, c: seq<Xad>)
    ensures FreedOf(a + c) == FreedOf(a) + FreedOf(c) && TakenOf(a + c) == TakenOf(a) + TakenOf(c)
  {
  }

  lemma OutOne(x: Xad)
    ensures FreedOf([]) == [] && TakenOf([]) == []
    ensures FreedOf([x]) == [Chunk(x.address, x.length)] && TakenOf([x]) == [Taken(x.offset, x.length, x.address)]
  {
  }

  /** A run of blocks of a mapped range; address 0 stands for a hole. */
  datatype BlockRun = BlockRun(address: nat, count: nat)

  /** The runs of a logical range: the extents one after the other, and one hole from the first gap on. */
  function MapRuns(es: seq<Xad>, cur: nat, end: nat): seq<BlockRun>
    decreases end - cur
  {
    if cur >= end then []
    else match Find(es, cur)
      case None => [BlockRun(0, end - cur)]
      case Some(x) =>
        var rel := cur - x.offset;
        var take := Min(x.length - rel, end - cur);
        [BlockRun(x.address + rel, take)] + MapRuns(es, cur + take, end)
  }

  lemma FindStep(es: seq<Xad>, i: nat, b: int)
    requires i <= |es|
    ensures i == 0 ==> Find(es[i..], b) == Find(es, b)
    ensures i == |es| ==> Find(es[i..], b) == None
    ensures i < |es| ==> Find(es[i..], b) == if Has(es[i], b) then Some(es[i]) else Find(es[i + 1..], b)
  {
    assert i == 0 ==> es[i..] == es;
    assert i < |es| ==> es[i..][1..] == es[i + 1..];
  }

  lemma MapRunsStep(es: seq<Xad>, cur: nat, end: nat)
    ensures cur >= end ==> MapRuns(es, cur, end) == []
    ensures cur < end && Find(es, cur).None? ==> MapRuns(es, cur, end) == [BlockRun(0, end - cur)]
    ensures cur < end && Find(es, cur).Some? ==>
              var x := Find(es, cur).value;
              var take := Min(x.length - (cur - x.offset), end - cur);
              take > 0 && MapRuns(es, cur, end) == [BlockRun(x.address + (cur - x.offset), take)] + MapRuns(es, cur + take, end)
  {
  }

  lemma AllNone(c: Cut)
    requires Ordered(c)
    ensures All(c, []) == Piece([], [])
  {
  }

  /** One more extent is cut. */
  lemma AllStep(c: Cut, es: seq<Xad>, i: nat)
    requires Ordered(c) && i < |es|
    ensures var p, q := All(c, es[..i]), One(c, es[i]);
            All(c, es[..i + 1]) == Piece(p.kept + q.kept, p.out + q.out)
  {
    assert es[..i + 1][..i] == es[..i];
  }

  class Xtree {
    var nextindex: nat
    const xad: array<Xad>

    ghost predicate Valid()
      reads this
    {
      xad.Length == XTROOTMAXSLOT
    }

    /** The slots in use. */
    ghost function Entries(): (es: seq<Xad>)
      requires Valid()
      reads this, xad
      ensures |es| <= SLOTS
    {
      if nextindex <= XTENTRYSTART then [] else xad[XTENTRYSTART..Min(nextindex, XTROOTMAXSLOT)]
    }

    /** A root whose slots hold the given extents. */
    constructor (es: seq<Xad>, next: nat)
      requires |es| == if next <= XTENTRYSTART then 0 else Min(next, XTROOTMAXSLOT) - XTENTRYSTART
      ensures Valid() && fresh(xad) && Entries() == es && nextindex == next
    {
      nextindex := next;
      xad := new Xad[XTROOTMAXSLOT](i => if XTENTRYSTART <= i < XTENTRYSTART + |es| then es[i - XTENTRYSTART] else EMPTY_SLOT);
      new;
      assert Entries() == es;
    }

    /** The slots in use, as they are stored in the inode. */
    method Slots() returns (es: seq<Xad>)
      requires Valid()
      ensures es == Entries()
    {
      es := if nextindex <= XTENTRYSTART then [] else xad[XTENTRYSTART..Min(nextindex, XTROOTMAXSLOT)];
    }

    /** The first extent that contains the block. */
    method Lookup(b: nat) returns (r: Option<Xad>)
      requires Valid()
      ensures r == Find(Entries(), b)
    {
      hide Find;
      ghost var es := Entries();
      var i := XTENTRYSTART;
      FindStep(es, 0, b);
      while i < nextindex && i < XTROOTMAXSLOT
        invariant XTENTRYSTART <= i <= XTENTRYSTART + |es|
        invariant Find(es, b) == Find(es[i - XTENTRYSTART..], b)
      {
        assert xad[i] == es[i - XTENTRYSTART];
        FindStep(es, i - XTENTRYSTART, b);
        if xad[i].offset <= b < xad[i].offset + xad[i].length {
          return Some(xad[i]);
        }
        i := i + 1;
      }
      FindStep(es, |es|, b);
      r := None;
    }

    /** The disk addresses of a range of blocks; everything behind the first hole is reported as a hole. */
    method MapBlocks(offset: nat, length: nat) returns (runs: seq<BlockRun>)
      requires Valid()
      ensures runs == MapRuns(Entries(), offset, offset + length)
    {
      hide Find, MapRuns, Entries;
      runs := [];
      var cur, end := offset, offset + length;
      ghost var es := Entries();
      while cur < end
        invariant offset <= cur <= end
        invariant MapRuns(es, offset, end) == runs + MapRuns(es, cur, end)
      {
        MapRunsStep(es, cur, end);
        var x := Lookup(cur);
        match x
        case Some(e) =>
          var rel := cur - e.offset;
          var take := Min(e.length - rel, end - cur);
          runs := runs + [BlockRun(e.address + rel, take)];
          cur := cur + take;
        case None =>
          runs := runs + [BlockRun(0, end - cur)];
          return;
      }
      MapRunsStep(es, cur, end);
    }

    /** Adds an extent, merging it with the last one where it continues it. */
    method InsertExtent(off: nat, len: nat, addr: nat) returns (ok: bool)
      requires Valid()
      modifies this`nextindex, xad
      ensures Valid()
      ensures ok == (old(nextindex) <= XTROOTMAXSLOT && Inserted(old(Entries()), off, len, addr).Some?)
      ensures ok ==> Entries() == Inserted(old(Entries()), off, len, addr).value && nextindex == XTENTRYSTART + |Entries()|
      ensures !ok ==> Entries() == old(Entries()) && nextindex == old(nextindex)
    {
      ghost var es := Entries();
      if nextindex > XTENTRYSTART {
        var last := nextindex - 1;
        if last >= XTROOTMAXSLOT {
          return false;
        }
        assert xad[last] == es[|es| - 1];
        if xad[last].offset + xad[last].length == off && xad[last].address + xad[last].length == addr {
          xad[last] := SetLength(xad[last], xad[last].length + len);
          assert Entries() == es[|es| - 1 := xad[last]];
          return true;
        }
      }
      if nextindex >= XTROOTMAXSLOT {
        return false;
      }
      var idx := if nextindex <= XTENTRYSTART then XTENTRYSTART else nextindex;
      xad[idx] := Xad(1, off % TWO40, len % TWO24, addr % TWO40);
      nextindex := idx + 1;
      assert Entries() == es + [xad[idx]];
      ok := true;
    }

    /** Adds an extent taken from another file, in a slot of its own. */
    method InsertTakenExtent(off: nat, len: nat, addr: nat) returns (ok: bool)
      requires Valid()
      modifies this`nextindex, xad
      ensures Valid()
      ensures ok == (old(nextindex) < XTROOTMAXSLOT)
      ensures ok ==> Entries() == old(Entries()) + [Xad(0, off % TWO40, len % TWO24, addr % TWO40)]
      ensures ok ==> nextindex == XTENTRYSTART + |Entries()|
      ensures !ok ==> Entries() == old(Entries()) && nextindex == old(nextindex)
    {
      ghost var es := Entries();
      if nextindex >= XTROOTMAXSLOT {
        return false;
      }
      var idx := if nextindex <= XTENTRYSTART then XTENTRYSTART else nextindex;
      xad[idx] := Xad(0, off % TWO40, len % TWO24, addr % TWO40);
      nextindex := idx + 1;
      assert Entries() == es + [xad[idx]];
      ok := true;
    }

    /** Writes the kept extents back to the slots; those beyond the last slot are dropped but counted. */
    method WriteBack(kept: seq<Xad>)
      requires Valid()
      modifies this`nextindex, xad
      ensures Valid()
      ensures Entries() == Stored(kept) && nextindex == XTENTRYSTART + |kept|
    {
      var w := 0;
      while w < |kept|
        invariant 0 <= w <= |kept|
        invariant nextindex == old(nextindex)
        invariant forall j :: 0 <= j < w && XTENTRYSTART + j < XTROOTMAXSLOT ==> xad[XTENTRYSTART + j] == kept[j]
      {
        if XTENTRYSTART + w < XTROOTMAXSLOT {
          xad[XTENTRYSTART + w] := kept[w];
        }
        w := w + 1;
      }
      var idx := XTENTRYSTART + |kept|;
      while idx < nextindex && idx < XTROOTMAXSLOT
        invariant XTENTRYSTART + |kept| <= idx && nextindex == old(nextindex)
        invariant forall j :: 0 <= j < |kept| && XTENTRYSTART + j < XTROOTMAXSLOT ==> xad[XTENTRYSTART + j] == kept[j]
      {
        xad[idx] := EMPTY_SLOT;
        idx := idx + 1;
      }
      nextindex := XTENTRYSTART + |kept|;
      assert Entries() == Stored(kept);
    }

    /** Cuts the file off at a block and returns the extents to free. */
    method TruncateExtents(eof: nat) returns (freed: seq<Chunk>)
      requires Valid()
      modifies this`nextindex, xad
      ensures Valid()
      ensures var p := All(Truncate(eof), old(Entries()));
              Entries() == Stored(p.kept) && nextindex == XTENTRYSTART + |p.kept| && freed == FreedOf(p.out)
    {
      hide One, All, FreedOf, TakenOf;
      var kept: seq<Xad> := [];
      freed := [];
      ghost var es, c := Entries(), Truncate(eof);
      OutOne(EMPTY_SLOT);
      AllNone(c);
      var i := XTENTRYSTART;
      assert es[..0] == [];
      while i < nextindex && i < XTROOTMAXSLOT
        invariant XTENTRYSTART <= i <= XTENTRYSTART + |es| && Entries() == es && nextindex == old(nextindex)
        invariant kept == All(c, es[..i - XTENTRYSTART]).kept && freed == FreedOf(All(c, es[..i - XTENTRYSTART]).out)
      {
        ghost var k := i - XTENTRYSTART;
        assert xad[i] == es[k];
        AllStep(c, es, k);
        OutAppend(All(c, es[..k]).out, One(c, es[k]).out);
        var keep, out := TruncateSlot(xad[i], eof);
        kept, freed := kept + keep, freed + out;
        i := i + 1;
      }
      assert es[..|es|] == es;
      WriteBack(kept);
    }

    /** One slot of a truncation. */
    static method TruncateSlot(x: Xad, eof: nat) returns (keep: seq<Xad>, out: seq<Chunk>)
      ensures keep == One(Truncate(eof), x).kept && out == FreedOf(One(Truncate(eof), x).out)
    {
      hide FreedOf, TakenOf;
      OutOne(x);
      keep, out := [], [];
      if x.length > 0 {
        if x.offset >= eof {
          out := [Chunk(x.address, x.length)];
        } else if x.offset + x.length > eof {
          var kept := eof - x.offset;
          OutOne(Xad(x.flag, eof, x.offset + x.length - eof, x.address + kept));
          out := [Chunk(x.address + kept, x.offset + x.length - eof)];
          keep := [SetLength(x, kept)];
        } else {
          keep := [x];
        }
      }
    }

    /** Removes a window of blocks and returns the extents to free. */
    method PunchExtents(start: nat, end: nat) returns (freed: seq<Chunk>)
      requires Valid() && start < end
      modifies this`nextindex, xad
      ensures Valid()
      ensures var p := All(Punch(start, end), old(Entries()));
              Entries() == Stored(p.kept) && nextindex == XTENTRYSTART + |p.kept| && freed == FreedOf(p.out)
    {
      hide One, All, FreedOf, TakenOf;
      var kept: seq<Xad> := [];
      freed := [];
      ghost var es, c := Entries(), Punch(start, end);
      OutOne(EMPTY_SLOT);
      AllNone(c);
      var i := XTENTRYSTART;
      assert es[..0] == [];
      while i < nextindex && i < XTROOTMAXSLOT
        invariant XTENTRYSTART <= i <= XTENTRYSTART + |es| && Entries() == es && nextindex == old(nextindex)
        invariant kept == All(c, es[..i - XTENTRYSTART]).kept && freed == FreedOf(All(c, es[..i - XTENTRYSTART]).out)
      {
        ghost var k := i - XTENTRYSTART;
        assert xad[i] == es[k];
        AllStep(c, es, k);
        OutAppend(All(c, es[..k]).out, One(c, es[k]).out);
        var keep, out := PunchSlot(xad[i], start, end);
        kept, freed := kept + keep, freed + out;
        i := i + 1;
      }
      assert es[..|es|] == es;
      WriteBack(kept);
    }

    /** One slot of a punch. */
    static method PunchSlot(x: Xad, start: nat, end: nat) returns (keep: seq<Xad>, out: seq<Chunk>)
      requires start < end
      ensures keep == One(Punch(start, end), x).kept && out == FreedOf(One(Punch(start, end), x).out)
    {
      OutOne(x);
      keep, out := [], [];
      if x.length == 0 {
        return;
      }
      var xEnd := x.offset + x.length;
      if xEnd <= start || x.offset >= end {
        keep := [x];
      } else if x.offset >= start && xEnd <= end {
        out := [Chunk(x.address, x.length)];
      } else if x.offset < start && xEnd > end {
        var left := start - x.offset;
        OutOne(Xad(x.flag, start, end - start, x.address + left));
        out := [Chunk(x.address + left, end - start)];
        keep := [SetLength(x, left), SetAddress(SetLength(SetOffset(x, end), xEnd - end), x.address + left)];
      } else if x.offset < start {
        var kept := start - x.offset;
        OutOne(Xad(x.flag, start, x.length - kept, x.address + kept));
        out := [Chunk(x.address + kept, x.length - kept)];
        keep := [SetLength(x, kept)];
      } else {
        var gone := end - x.offset;
        OutOne(Xad(x.flag, x.offset, gone, x.address));
        out := [Chunk(x.address, gone)];
        keep := [SetAddress(SetLength(SetOffset(x, end), xEnd - end), x.address + gone)];
      }
    }

    /** Removes a window of blocks and hands their extents to the caller. */
    method TakeExtents(start: nat, end: nat) returns (taken: seq<Taken>)
      requires Valid() && start < end
      modifies this`nextindex, xad
      ensures Valid()
      ensures var p := All(Take(start, end), old(Entries()));
              Entries() == Stored(p.kept) && nextindex == XTENTRYSTART + |p.kept| && taken == TakenOf(p.out)
    {
      hide One, All, FreedOf, TakenOf;
      var kept: seq<Xad> := [];
      taken := [];
      ghost var es, c := Entries(), Take(start, end);
      OutOne(EMPTY_SLOT);
      AllNone(c);
      var i := XTENTRYSTART;
      assert es[..0] == [];
      while i < nextindex && i < XTROOTMAXSLOT
        invariant XTENTRYSTART <= i <= XTENTRYSTART + |es| && Entries() == es && nextindex == old(nextindex)
        invariant kept == All(c, es[..i - XTENTRYSTART]).kept && taken == TakenOf(All(c, es[..i - XTENTRYSTART]).out)
      {
        ghost var k := i - XTENTRYSTART;
        assert xad[i] == es[k];
        AllStep(c, es, k);
        OutAppend(All(c, es[..k]).out, One(c, es[k]).out);
        var keep, out := TakeSlot(xad[i], start, end);
        kept, taken := kept + keep, taken + out;
        i := i + 1;
      }
      assert es[..|es|] == es;
      WriteBack(kept);
    }

    /** One slot of a take. */
    static method TakeSlot(x: Xad, start: nat, end: nat) returns (keep: seq<Xad>, out: seq<Taken>)
      requires start < end
      ensures keep == One(Take(start, end), x).kept && out == TakenOf(One(Take(start, end), x).out)
    {
      OutOne(x);
      keep, out := [], [];
      if x.length == 0 {
        return;
      }
      var xEnd := x.offset + x.length;
      if xEnd <= start || x.offset >= end {
        keep := [x];
      } else if x.offset >= start && xEnd <= end {
        out := [Taken(x.offset, x.length, x.address)];
      } else if x.offset < start && xEnd > end {
        var left := start - x.offset;
        OutOne(Xad(x.flag, start, end - start, x.address + left));
        out := [Taken(start, end - start, x.address + left)];
        keep := [SetLength(x, left), SetAddress(SetLength(SetOffset(x, end), xEnd - end), x.address + left + (end - start))];
      } else if x.offset < start {
        var kept := start - x.offset;
        OutOne(Xad(x.flag, start, x.length - kept, x.address + kept));
        out := [Taken(start, x.length - kept, x.address + kept)];
        keep := [SetLength(x, kept)];
      } else {
        var gone := end - x.offset;
        OutOne(Xad(x.flag, x.offset, gone, x.address));
        out := [Taken(x.offset, gone, x.address)];
        keep := [SetAddress(SetLength(SetOffset(x, end), x.length - gone), x.address + gone)];
      }
    }

    /** Checks that extents lie in ascending order without overlap. */
    method Validate() returns (ok: bool)
      requires Valid()
      ensures ok == Extents.Valid(Entries()) == Ascending(Entries())
    {
      hide Extents.Valid, LastEnd, Ascending;
      ghost var es := Entries();
      ValidIsAscending(es);
      ValidStep([], EMPTY_SLOT);
      var prevEnd, i := 0, XTENTRYSTART;
      assert es[..0] == [];
      while i < nextindex && i < XTROOTMAXSLOT
        invariant XTENTRYSTART <= i <= XTENTRYSTART + |es|
        invariant Extents.Valid(es[..i - XTENTRYSTART]) && prevEnd == LastEnd(es[..i - XTENTRYSTART])
      {
        ghost var k := i - XTENTRYSTART;
        assert xad[i] == es[k] && es[..k + 1] == es[..k] + [es[k]];
        ValidStep(es[..k], es[k]);
        if xad[i].length > 0 {
          if xad[i].offset < prevEnd {
            ValidPrefixes(es, k + 1);
            return false;
          }
          prevEnd := xad[i].offset + xad[i].length;
        }
        i := i + 1;
      }
      assert es[..|es|] == es;
      ok := true;
    }

    /** Cuts the extent that contains `at` in two; nothing happens on a boundary or without a free slot. */
    method SplitExtent(at: nat) returns (ok: bool)
      requires Valid()
      modifies this`nextindex, xad
      ensures Valid()
      ensures !ok ==> Entries() == old(Entries()) && nextindex == old(nextindex)
      ensures ok ==> exists i: nat :: i < |old(Entries())| && Straddles(old(Entries())[i], at)
                                 && Entries() == SplitAt(old(Entries()), i, at)
      ensures ok <==> old(nextindex) < XTROOTMAXSLOT && at > 0
                      && exists i :: 0 <= i < |old(Entries())| && Straddles(old(Entries())[i], at)
    {
      ghost var es := Entries();
      if at == 0 {
        return false;
      }
      var i := XTENTRYSTART;
      while i < nextindex && i < XTROOTMAXSLOT && !(xad[i].offset < at && xad[i].offset + xad[i].length > at)
        invariant XTENTRYSTART <= i <= XTENTRYSTART + |es|
        invariant forall j :: 0 <= j < i - XTENTRYSTART ==> !Straddles(es[j], at)
      {
        assert xad[i] == es[i - XTENTRYSTART];
        i := i + 1;
      }
      if i >= nextindex || i >= XTROOTMAXSLOT {
        return false;
      }
      assert xad[i] == es[i - XTENTRYSTART];
      if nextindex + 1 > XTROOTMAXSLOT {
        return false;
      }
      var x := xad[i];
      var keep := at - x.offset;
      xad[i] := SetLength(x, keep);
      xad[nextindex] := Xad(0, at % TWO40, (x.length - keep) % TWO24, (x.address + keep) % TWO40);
      nextindex := nextindex + 1;
      assert Entries() == SplitAt(es, i - XTENTRYSTART, at);
      ok := true;
    }
  }

  lemma ValidStep(es: seq<Xad>, x: Xad)
    ensures Extents.Valid([]) && LastEnd([]) == 0
    ensures LastEnd(es + [x]) == if x.length == 0 then LastEnd(es) else x.offset + x.length
    ensures Extents.Valid(es + [x]) <==> Extents.Valid(es) && (x.length == 0 || x.offset >= LastEnd(es))
  {
    assert (es + [x])[..|es|] == es;
  }

  lemma ValidPrefixes(es: seq<Xad>, k: nat)
    requires k <= |es| && !Extents.Valid(es[..k])
    ensures !Extents.Valid(es)
  {
    if Extents.Valid(es) {
      ValidPrefix(es, k);
    }
  }
}

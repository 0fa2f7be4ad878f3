/**
 Extent tables as functions from logical to physical blocks. Truncate, punch and take rewrite a table
 extent by extent; their meaning is stated on the function.
 */
module Extents {
  import opened Bytes

  /** One slot: 40-bit logical offset, 24-bit length, 40-bit physical address, in blocks. */
  datatype Xad = Xad(flag: nat, offset: nat, length: nat, address: nat)

  /** A run of physical blocks, as the allocator deals in them. */
  datatype Chunk = Chunk(address: nat, length: nat)

  const EMPTY_SLOT := Xad(0, 0, 0, 0)

  function SetLength(x: Xad, n: nat): Xad { x.(length := n % TWO24) }

  function SetOffset(x: Xad, n: nat): Xad { x.(offset := n % TWO40) }

  function SetAddress(x: Xad, n: nat): Xad { x.(address := n % TWO40) }

  /** The extent lies inside the logical and the physical address space. */
  predicate InSpace(x: Xad) {
    x.length < TWO24 && x.offset + x.length <= TWO40 && x.address + x.length <= TWO40
  }

  predicate AllInSpace(es: seq<Xad>) {
    forall i :: 0 <= i < |es| ==> InSpace(es[i])
  }

  predicate Has(x: Xad, b: int) {
    x.offset <= b < x.offset + x.length
  }

  /** The first extent that contains a logical block. */
  function Find(es: seq<Xad>, b: int): (r: Option<Xad>)
    ensures r.Some? ==> Has(r.value, b) && r.value in es
  {
    if es == [] then None
    else if Has(es[0], b) then Some(es[0])
    else Find(es[1..], b)
  }

  /** The physical block a table gives a logical block. */
  function Phys(es: seq<Xad>, b: int): Option<nat> {
    var f := Find(es, b);
    if f.None? then None else Some(f.value.address + (b - f.value.offset))
  }

  lemma {:induction false} FindAppend(a: seq<Xad>, c: seq<Xad>, b: int)
    ensures Find(a + c, b) == if Find(a, b).Some? then Find(a, b) else Find(c, b)
  {
    if a == [] {
      assert a + c == c;
    } else {
      assert (a + c)[1..] == a[1..] + c;
      FindAppend(a[1..], c, b);
    }
  }

  lemma PhysAppend(a: seq<Xad>, c: seq<Xad>, b: int)
    ensures Phys(a + c, b) == if Phys(a, b).Some? then Phys(a, b) else Phys(c, b)
  {
    FindAppend(a, c, b);
  }

  lemma {:induction false} FoundNowhere(es: seq<Xad>, b: int)
    requires forall i :: 0 <= i < |es| ==> !Has(es[i], b)
    ensures Find(es, b).None?
  {
    if es != [] {
      FoundNowhere(es[1..], b);
    }
  }

  lemma {:induction false} FoundSomewhere(es: seq<Xad>, i: nat, b: int)
    requires i < |es| && Has(es[i], b)
    ensures Find(es, b).Some?
  {
    if !Has(es[0], b) {
      FoundSomewhere(es[1..], i - 1, b);
    }
  }

  // ---- Cutting a table ----

  /** What an operation makes of one extent: the slots kept and the extents taken out. */
  datatype Piece = Piece(kept: seq<Xad>, out: seq<Xad>)

  datatype Cut =
    | Truncate(eof: nat)
    | Take(start: nat, end: nat)
    | Punch(start: nat, end: nat)

  /** The logical blocks an operation removes. */
  predicate Removed(c: Cut, b: int) {
    match c
    case Truncate(eof) => b >= eof
    case Take(start, end) => start <= b < end
    case Punch(start, end) => start <= b < end
  }

  /** An extent that sticks out of the window on both sides. */
  predicate Spans(x: Xad, start: nat, end: nat) {
    x.length > 0 && x.offset < start && x.offset + x.length > end
  }

  function TruncateOne(x: Xad, eof: nat): Piece {
    if x.length == 0 then Piece([], [])
    else if x.offset >= eof then Piece([], [x])
    else if x.offset + x.length > eof then
      var keep := eof - x.offset;
      Piece([SetLength(x, keep)], [Xad(x.flag, eof, x.offset + x.length - eof, x.address + keep)])
    else Piece([x], [])
  }

  /** Take and punch agree except on the right remainder of a spanning extent. */
  function WindowOne(x: Xad, start: nat, end: nat, rightAddress: nat): Piece
    requires start <= end
  {
    var xEnd := x.offset + x.length;
    if x.length == 0 then Piece([], [])
    else if xEnd <= start || x.offset >= end then Piece([x], [])
    else if x.offset >= start && xEnd <= end then Piece([], [x])
    else if x.offset < start && xEnd > end then
      var left := start - x.offset;
      Piece([SetLength(x, left), SetAddress(SetLength(SetOffset(x, end), xEnd - end), rightAddress)],
            [Xad(x.flag, start, end - start, x.address + left)])
    else if x.offset < start then
      var keep := start - x.offset;
      Piece([SetLength(x, keep)], [Xad(x.flag, start, x.length - keep, x.address + keep)])
    else
      var gone := end - x.offset;
      Piece([SetAddress(SetLength(SetOffset(x, end), x.length - gone), x.address + gone)],
            [Xad(x.flag, x.offset, gone, x.address)])
  }

  function One(c: Cut, x: Xad): Piece
    requires c.Truncate? || c.start <= c.end
  {
    match c
    case Truncate(eof) => TruncateOne(x, eof)
    case Take(start, end) =>
      WindowOne(x, start, end, x.address + (if x.offset < start then start - x.offset else 0) + (end - start))
    case Punch(start, end) =>
      WindowOne(x, start, end, x.address + (if x.offset < start then start - x.offset else 0))
  }

  predicate Ordered(c: Cut) {
    c.Truncate? || c.start < c.end
  }

  /** The whole table, extent by extent. */
  function All(c: Cut, es: seq<Xad>): Piece
    requires Ordered(c)
    decreases |es|
  {
    if es == [] then Piece([], []) else
    var p, q := All(c, es[..|es| - 1]), One(c, es[|es| - 1]);
    Piece(p.kept + q.kept, p.out + q.out)
  }

  /** The operation handles the extent as its comments promise. */
  predicate Handled(c: Cut, x: Xad) {
    c.Punch? ==> !Spans(x, c.start, c.end)
  }

  /** Inside the address space the narrow fields lose nothing. */
  lemma NoLoss(x: Xad, n: nat, o: nat, a: nat)
    requires n < TWO24 && o < TWO40 && a < TWO40
    ensures SetLength(x, n) == x.(length := n)
    ensures SetAddress(SetLength(SetOffset(x, o), n), a) == Xad(x.flag, o, n, a)
  {
  }

  lemma TruncateOneExact(x: Xad, eof: nat, b: int)
    requires InSpace(x)
    ensures var p := TruncateOne(x, eof);
            && Phys(p.kept, b) == (if b >= eof then None else Phys([x], b))
            && Phys(p.out, b) == (if b >= eof then Phys([x], b) else None)
            && AllInSpace(p.kept) && AllInSpace(p.out)
  {
    hide SetLength, Phys;
    NoExtents(b);
    PhysOne(x, b);
    if x.offset < eof < x.offset + x.length {
      var keep := eof - x.offset;
      NoLoss(x, keep, 0, 0);
      PhysOne(x.(length := keep), b);
      PhysOne(Xad(x.flag, eof, x.offset + x.length - eof, x.address + keep), b);
    }
  }

  lemma WindowOneExact(x: Xad, start: nat, end: nat, right: nat, b: int)
    requires InSpace(x) && start < end
    requires Spans(x, start, end) ==> right == x.address + (end - x.offset)
    ensures var p := WindowOne(x, start, end, right);
            && Phys(p.kept, b) == (if start <= b < end then None else Phys([x], b))
            && Phys(p.out, b) == (if start <= b < end then Phys([x], b) else None)
            && AllInSpace(p.kept) && AllInSpace(p.out)
  {
    hide SetLength, SetOffset, SetAddress, Phys;
    NoExtents(b);
    PhysOne(x, b);
    var xEnd := x.offset + x.length;
    if x.length == 0 || xEnd <= start || x.offset >= end || (x.offset >= start && xEnd <= end) {
    } else if x.offset < start && xEnd > end {
      var left := start - x.offset;
      NoLoss(x, left, 0, 0);
      NoLoss(x, xEnd - end, end, right);
      PhysTwo(x.(length := left), Xad(x.flag, end, xEnd - end, right), b);
      PhysOne(x.(length := left), b);
      PhysOne(Xad(x.flag, end, xEnd - end, right), b);
      PhysOne(Xad(x.flag, start, end - start, x.address + left), b);
    } else if x.offset < start {
      var keep := start - x.offset;
      NoLoss(x, keep, 0, 0);
      PhysOne(x.(length := keep), b);
      PhysOne(Xad(x.flag, start, x.length - keep, x.address + keep), b);
    } else {
      var gone := end - x.offset;
      NoLoss(x, x.length - gone, end, x.address + gone);
      PhysOne(Xad(x.flag, end, x.length - gone, x.address + gone), b);
      PhysOne(Xad(x.flag, x.offset, gone, x.address), b);
    }
  }

  /** One extent is cut exactly: what is kept and what is taken out map the blocks they did. */
  lemma OneExact(c: Cut, x: Xad, b: int)
    requires Ordered(c) && InSpace(x) && Handled(c, x)
    ensures Phys(One(c, x).kept, b) == if Removed(c, b) then None else Phys([x], b)
    ensures Phys(One(c, x).out, b) == if Removed(c, b) then Phys([x], b) else None
    ensures AllInSpace(One(c, x).kept) && AllInSpace(One(c, x).out)
  {
    hide TruncateOne, WindowOne, Phys, InSpace;
    match c
    case Truncate(eof) => TruncateOneExact(x, eof, b);
    case Take(start, end) =>
      WindowOneExact(x, start, end, x.address + (if x.offset < start then start - x.offset else 0) + (end - start), b);
    case Punch(start, end) =>
      WindowOneExact(x, start, end, x.address + (if x.offset < start then start - x.offset else 0), b);
  }

  lemma PhysOne(x: Xad, b: int)
    ensures Phys([x], b) == if Has(x, b) then Some(x.address + (b - x.offset)) else None
  {
    assert [x][1..] == [];
  }

  lemma PhysTwo(x: Xad, y: Xad, b: int)
    ensures Phys([x, y], b) == if Has(x, b) then Phys([x], b) else Phys([y], b)
  {
    assert [x, y][1..] == [y];
    assert [x][1..] == [];
  }

  predicate AllHandled(c: Cut, es: seq<Xad>) {
    forall i :: 0 <= i < |es| ==> Handled(c, es[i])
  }

  /**
   A cut is exact on the whole table, overlapping extents included: the kept slots map every block that
   stays as before and no other, and the removed extents map exactly the removed blocks.
   */
  lemma {:induction false} AllExact(c: Cut, es: seq<Xad>, b: int)
    requires Ordered(c) && AllInSpace(es) && AllHandled(c, es)
    ensures Phys(All(c, es).kept, b) == if Removed(c, b) then None else Phys(es, b)
    ensures Phys(All(c, es).out, b) == if Removed(c, b) then Phys(es, b) else None
    ensures AllInSpace(All(c, es).kept) && AllInSpace(All(c, es).out)
    decreases |es|
  {
    hide One, Phys, InSpace, Handled;
    if es != [] {
      var init, x := es[..|es| - 1], es[|es| - 1];
      AllExact(c, init, b);
      OneExact(c, x, b);
      PhysAppend(All(c, init).kept, One(c, x).kept, b);
      PhysAppend(All(c, init).out, One(c, x).out, b);
      PhysAppend(init, [x], b);
      assert es == init + [x];
    } else {
      NoExtents(b);
    }
  }

  lemma NoExtents(b: int)
    ensures Phys([], b) == None
  {
  }

  // ---- Physical blocks are conserved ----

  function Run(a: nat, n: nat): multiset<nat> {
    if n == 0 then multiset{} else Run(a, n - 1) + multiset{a + n - 1}
  }

  /** The physical blocks of a list of extents, with multiplicity. */
  function BlocksOf(es: seq<Xad>): multiset<nat>
    decreases |es|
  {
    if es == [] then multiset{} else
    BlocksOf(es[..|es| - 1]) + Run(es[|es| - 1].address, es[|es| - 1].length)
  }

  lemma {:induction false} RunSplit(a: nat, m: nat, n: nat)
    ensures Run(a, m + n) == Run(a, m) + Run(a + m, n)
    decreases n
  {
    hide Run;
    if n == 0 {
      RunZero(a + m);
    } else {
      RunSplit(a, m, n - 1);
      RunStep(a, m + n);
      RunStep(a + m, n);
      var last := multiset{a + m + n - 1};
      assert (Run(a, m) + Run(a + m, n - 1)) + last == Run(a, m) + (Run(a + m, n - 1) + last);
    }
  }

  lemma RunZero(a: nat)
    ensures Run(a, 0) == multiset{}
  {
  }

  lemma RunStep(a: nat, n: nat)
    requires n > 0
    ensures Run(a, n) == Run(a, n - 1) + multiset{a + n - 1}
  {
  }

  lemma BlocksOfOne(x: Xad)
    ensures BlocksOf([x]) == Run(x.address, x.length)
  {
    assert [x][..0] == [];
  }

  lemma BlocksOfTwo(x: Xad, y: Xad)
    ensures BlocksOf([x, y]) == Run(x.address, x.length) + Run(y.address, y.length)
  {
    assert [x, y][..1] == [x];
    BlocksOfOne(x);
  }

  lemma {:induction false} BlocksOfAppend(a: seq<Xad>, c: seq<Xad>)
    ensures BlocksOf(a + c) == BlocksOf(a) + BlocksOf(c)
    decreases |c|
  {
    if c == [] {
      assert a + c == a;
    } else {
      assert (a + c)[..|a + c| - 1] == a + c[..|c| - 1];
      BlocksOfAppend(a, c[..|c| - 1]);
    }
  }

  lemma TruncateOneConserves(x: Xad, eof: nat)
    requires InSpace(x)
    ensures var p := TruncateOne(x, eof); BlocksOf(p.kept) + BlocksOf(p.out) == BlocksOf([x])
  {
    hide SetLength, BlocksOf, Run;
    NoBlocks();
    BlocksOfOne(x);
    if x.offset < eof < x.offset + x.length {
      var keep := eof - x.offset;
      NoLoss(x, keep, 0, 0);
      BlocksOfOne(x.(length := keep));
      BlocksOfOne(Xad(x.flag, eof, x.length - keep, x.address + keep));
      RunSplit(x.address, keep, x.length - keep);
    }
  }

  lemma WindowOneConserves(x: Xad, start: nat, end: nat, right: nat)
    requires InSpace(x) && start < end
    requires Spans(x, start, end) ==> right == x.address + (end - x.offset)
    ensures var p := WindowOne(x, start, end, right); BlocksOf(p.kept) + BlocksOf(p.out) == BlocksOf([x])
  {
    hide SetLength, SetOffset, SetAddress, BlocksOf, Run;
    NoBlocks();
    BlocksOfOne(x);
    var xEnd := x.offset + x.length;
    if x.length == 0 || xEnd <= start || x.offset >= end || (x.offset >= start && xEnd <= end) {
    } else if x.offset < start && xEnd > end {
      var left, mid := start - x.offset, end - start;
      NoLoss(x, left, 0, 0);
      NoLoss(x, xEnd - end, end, right);
      BlocksOfTwo(x.(length := left), Xad(x.flag, end, xEnd - end, right));
      BlocksOfOne(Xad(x.flag, start, mid, x.address + left));
      RunSplit(x.address, left, mid);
      RunSplit(x.address, left + mid, xEnd - end);
    } else if x.offset < start {
      var keep := start - x.offset;
      NoLoss(x, keep, 0, 0);
      BlocksOfOne(x.(length := keep));
      BlocksOfOne(Xad(x.flag, start, x.length - keep, x.address + keep));
      RunSplit(x.address, keep, x.length - keep);
    } else {
      var gone := end - x.offset;
      NoLoss(x, x.length - gone, end, x.address + gone);
      BlocksOfOne(Xad(x.flag, end, x.length - gone, x.address + gone));
      BlocksOfOne(Xad(x.flag, x.offset, gone, x.address));
      RunSplit(x.address, gone, x.length - gone);
    }
  }

  lemma NoBlocks()
    ensures BlocksOf([]) == multiset{}
    ensures forall a: nat :: Run(a, 0) == multiset{}
  {
  }

  lemma OneConserves(c: Cut, x: Xad)
    requires Ordered(c) && InSpace(x) && Handled(c, x)
    ensures BlocksOf(One(c, x).kept) + BlocksOf(One(c, x).out) == BlocksOf([x])
  {
    hide TruncateOne, WindowOne, BlocksOf, InSpace;
    match c
    case Truncate(eof) => TruncateOneConserves(x, eof);
    case Take(start, end) =>
      WindowOneConserves(x, start, end, x.address + (if x.offset < start then start - x.offset else 0) + (end - start));
    case Punch(start, end) =>
      WindowOneConserves(x, start, end, x.address + (if x.offset < start then start - x.offset else 0));
  }

  /** Every physical block of the table is either kept or taken out, once for each time it was there. */
  lemma {:induction false} AllConserves(c: Cut, es: seq<Xad>)
    requires Ordered(c) && AllInSpace(es) && AllHandled(c, es)
    ensures BlocksOf(All(c, es).kept) + BlocksOf(All(c, es).out) == BlocksOf(es)
    decreases |es|
  {
    hide One, InSpace, Handled, BlocksOf;
    NoBlocks();
    if es != [] {
      var init, x := es[..|es| - 1], es[|es| - 1];
      AllConserves(c, init);
      OneConserves(c, x);
      BlocksOfAppend(All(c, init).kept, One(c, x).kept);
      BlocksOfAppend(All(c, init).out, One(c, x).out);
      BlocksOfAppend(init, [x]);
      assert es == init + [x];
    }
  }

  // ---- Tables in order ----

  /** End of the last extent that is not empty. */
  function LastEnd(es: seq<Xad>): nat
    decreases |es|
  {
    if es == [] then 0
    else if es[|es| - 1].length == 0 then LastEnd(es[..|es| - 1])
    else es[|es| - 1].offset + es[|es| - 1].length
  }

  /** What `validate` accepts: each extent starts at or behind the end of the one before it. */
  predicate Valid(es: seq<Xad>)
    decreases |es|
  {
    es == [] ||
    (Valid(es[..|es| - 1]) && (es[|es| - 1].length == 0 || es[|es| - 1].offset >= LastEnd(es[..|es| - 1])))
  }

  /** Which is the same as: no two extents overlap, and they lie in ascending order. */
  ghost predicate Ascending(es: seq<Xad>) {
    forall i, j :: 0 <= i < j < |es| && es[i].length > 0 && es[j].length > 0 ==> es[i].offset + es[i].length <= es[j].offset
  }

  lemma {:induction false} LastEndBounds(es: seq<Xad>, i: nat)
    requires Valid(es) && i < |es| && es[i].length > 0
    ensures es[i].offset + es[i].length <= LastEnd(es)
    decreases |es|
  {
    var n := |es| - 1;
    if i < n {
      LastEndBounds(es[..n], i);
    }
  }

  lemma {:induction false} LastEndIsEnd(es: seq<Xad>) returns (i: int)
    requires LastEnd(es) > 0
    ensures 0 <= i < |es| && es[i].length > 0 && es[i].offset + es[i].length == LastEnd(es)
    decreases |es|
  {
    var n := |es| - 1;
    if es[n].length == 0 {
      i := LastEndIsEnd(es[..n]);
    } else {
      i := n;
    }
  }

  lemma {:induction false} ValidIsAscending(es: seq<Xad>)
    ensures Valid(es) <==> Ascending(es)
    decreases |es|
  {
    hide LastEnd;
    if es != [] {
      var n := |es| - 1;
      var init := es[..n];
      ValidIsAscending(init);
      if Valid(es) {
        forall i | 0 <= i < n && es[i].length > 0 && es[n].length > 0 ensures es[i].offset + es[i].length <= es[n].offset {
          assert init[i] == es[i];
          LastEndBounds(init, i);
        }
        assert forall i :: 0 <= i < n ==> init[i] == es[i];
      }
      if Ascending(es) {
        assert forall i :: 0 <= i < n ==> init[i] == es[i];
        if es[n].length > 0 && LastEnd(init) > 0 {
          var i := LastEndIsEnd(init);
        }
      }
    }
  }
}

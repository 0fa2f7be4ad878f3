/**
 Extent tables of sixteen slots: when cutting, inserting and splitting are exact, stated as conditions
 on the table before the call.
 */
module ExtentTable {
  import opened Bytes
  import opened Extents

  /** Slots of an inline extent root that hold extents. */
  const SLOTS := 16

  /** What fits the root of a list of kept slots. */
  function Stored(kept: seq<Xad>): (r: seq<Xad>)
    ensures |r| <= SLOTS
  {
    if |kept| <= SLOTS then kept else kept[..SLOTS]
  }

  // ---- Cutting keeps the order ----

  lemma {:induction false} ValidAppend(a: seq<Xad>, c: seq<Xad>)
    requires Valid(a) && Valid(c)
    requires forall i :: 0 <= i < |c| && c[i].length > 0 ==> LastEnd(a) <= c[i].offset
    ensures Valid(a + c)
    ensures LastEnd(a + c) == if LastEnd(c) > 0 then LastEnd(c) else LastEnd(a)
    decreases |c|
  {
    if c == [] {
      assert a + c == a;
    } else {
      var n := |c| - 1;
      assert (a + c)[..|a + c| - 1] == a + c[..n];
      ValidAppend(a, c[..n]);
    }
  }

  /** A list of extents inside an extent, in order and none empty. */
  ghost predicate Inside(ps: seq<Xad>, x: Xad) {
    && Valid(ps)
    && (forall i :: 0 <= i < |ps| ==> ps[i].length > 0 && x.offset <= ps[i].offset)
    && LastEnd(ps) <= x.offset + x.length
  }

  lemma InsideNone(x: Xad)
    ensures Inside([], x)
  {
  }

  lemma InsideOne(y: Xad, x: Xad)
    requires y.length > 0 && x.offset <= y.offset && y.offset + y.length <= x.offset + x.length
    ensures Inside([y], x)
  {
    ValidSmall(y, y);
  }

  lemma InsideTwo(y: Xad, z: Xad, x: Xad)
    requires y.length > 0 && z.length > 0 && x.offset <= y.offset
    requires y.offset + y.length <= z.offset && z.offset + z.length <= x.offset + x.length
    ensures Inside([y, z], x)
  {
    ValidSmall(y, z);
  }

  lemma TruncateOneInside(x: Xad, eof: nat)
    requires InSpace(x)
    ensures Inside(TruncateOne(x, eof).kept, x) && Inside(TruncateOne(x, eof).out, x) && |TruncateOne(x, eof).kept| <= 1
  {
    hide Inside, SetLength;
    InsideNone(x);
    if x.length > 0 {
      InsideOne(x, x);
      if x.offset < eof < x.offset + x.length {
        NoLoss(x, eof - x.offset, 0, 0);
        InsideOne(x.(length := eof - x.offset), x);
        InsideOne(Xad(x.flag, eof, x.offset + x.length - eof, x.address + (eof - x.offset)), x);
      }
    }
  }

  lemma WindowOneInside(x: Xad, start: nat, end: nat, right: nat)
    requires InSpace(x) && start < end && (Spans(x, start, end) ==> right < TWO40)
    ensures var p := WindowOne(x, start, end, right);
            Inside(p.kept, x) && Inside(p.out, x) && |p.kept| <= 2 && (|p.kept| == 2 ==> Spans(x, start, end))
  {
    hide Inside, SetLength, SetOffset, SetAddress;
    InsideNone(x);
    var xEnd := x.offset + x.length;
    if x.length > 0 {
      InsideOne(x, x);
      if x.offset < end && start < xEnd {
        if x.offset < start {
          NoLoss(x, start - x.offset, 0, 0);
          InsideOne(x.(length := start - x.offset), x);
          if xEnd > end {
            NoLoss(x, xEnd - end, end, right);
            InsideTwo(x.(length := start - x.offset), Xad(x.flag, end, xEnd - end, right), x);
            InsideOne(Xad(x.flag, start, end - start, x.address + (start - x.offset)), x);
          } else {
            InsideOne(Xad(x.flag, start, x.length - (start - x.offset), x.address + (start - x.offset)), x);
          }
        } else if xEnd > end {
          var gone := end - x.offset;
          NoLoss(x, x.length - gone, end, x.address + gone);
          InsideOne(Xad(x.flag, end, x.length - gone, x.address + gone), x);
          InsideOne(Xad(x.flag, x.offset, gone, x.address), x);
        }
      }
    }
  }

  /** The pieces of one extent lie in order inside it. */
  lemma OneValid(c: Cut, x: Xad)
    requires Ordered(c) && InSpace(x)
    ensures var p := One(c, x);
            && Inside(p.kept, x) && Inside(p.out, x)
            && (x.length == 0 ==> p == Piece([], []))
            && |p.kept| <= 2 && (|p.kept| == 2 ==> !c.Truncate? && Spans(x, c.start, c.end))
  {
    hide Inside;
    match c
    case Truncate(eof) => TruncateOneInside(x, eof);
    case Take(start, end) =>
      WindowOneInside(x, start, end, x.address + (if x.offset < start then start - x.offset else 0) + (end - start));
    case Punch(start, end) =>
      WindowOneInside(x, start, end, x.address + (if x.offset < start then start - x.offset else 0));
  }

  lemma ValidSmall(x: Xad, y: Xad)
    ensures Valid([]) && LastEnd([]) == 0
    ensures Valid([x]) && LastEnd([x]) == if x.length == 0 then 0 else x.offset + x.length
    ensures x.length > 0 && y.length > 0 && x.offset + x.length <= y.offset ==>
              Valid([x, y]) && LastEnd([x, y]) == y.offset + y.length
  {
    assert [x][..0] == [] && [x, y][..1] == [x];
  }

  /** Truncate, take and punch keep a valid table valid. */
  lemma {:induction false} CutKeepsValid(c: Cut, es: seq<Xad>)
    requires Ordered(c) && AllInSpace(es) && Valid(es)
    ensures Valid(All(c, es).kept) && Valid(All(c, es).out)
    ensures LastEnd(All(c, es).kept) <= LastEnd(es) && LastEnd(All(c, es).out) <= LastEnd(es)
    ensures forall i :: 0 <= i < |All(c, es).kept| ==> All(c, es).kept[i].length > 0
    decreases |es|
  {
    hide One, InSpace;
    if es != [] {
      var init, x := es[..|es| - 1], es[|es| - 1];
      CutKeepsValid(c, init);
      OneValid(c, x);
      ValidAppend(All(c, init).kept, One(c, x).kept);
      ValidAppend(All(c, init).out, One(c, x).out);
    }
  }

  // ---- Cutting and the sixteen slots ----

  /** Number of extents that are not empty. */
  function LiveCount(es: seq<Xad>): (n: nat)
    ensures n <= |es|
    decreases |es|
  {
    if es == [] then 0 else LiveCount(es[..|es| - 1]) + if es[|es| - 1].length > 0 then 1 else 0
  }

  predicate SomeSpan(es: seq<Xad>, start: nat, end: nat) {
    exists i :: 0 <= i < |es| && Spans(es[i], start, end)
  }

  /** An extent entirely outside the window is kept as it is. */
  lemma OutsideKept(c: Cut, x: Xad)
    requires !c.Truncate? && c.start < c.end && InSpace(x) && x.length > 0
    requires x.offset + x.length <= c.start || c.end <= x.offset
    ensures One(c, x).kept == [x]
  {
  }

  /** The extents of a table that contain a block. */
  function Cover(es: seq<Xad>, b: int): nat
    decreases |es|
  {
    if es == [] then 0 else Cover(es[..|es| - 1], b) + if Has(es[|es| - 1], b) then 1 else 0
  }

  /** No two extents overlap, in whatever order they lie. */
  ghost predicate Apart(es: seq<Xad>) {
    forall b: int :: Cover(es, b) <= 1
  }

  lemma {:induction false} CoverAppend(a: seq<Xad>, c: seq<Xad>, b: int)
    ensures Cover(a + c, b) == Cover(a, b) + Cover(c, b)
    decreases |c|
  {
    if c == [] {
      assert a + c == a;
    } else {
      assert (a + c)[..|a + c| - 1] == a + c[..|c| - 1];
      CoverAppend(a, c[..|c| - 1], b);
    }
  }

  lemma CoverOne(x: Xad, b: int)
    ensures Cover([], b) == 0
    ensures Cover([x], b) == if Has(x, b) then 1 else 0
  {
    assert [x][..0] == [];
  }

  lemma {:induction false} CoverSome(es: seq<Xad>, i: nat, b: int)
    requires i < |es| && Has(es[i], b)
    ensures Cover(es, b) >= 1
    decreases |es|
  {
    if i < |es| - 1 {
      CoverSome(es[..|es| - 1], i, b);
    }
  }

  lemma {:induction false} CoverTwo(es: seq<Xad>, i: nat, j: nat, b: int)
    requires i < j < |es| && Has(es[i], b) && Has(es[j], b)
    ensures Cover(es, b) >= 2
    decreases |es|
  {
    var n := |es| - 1;
    if j < n {
      CoverTwo(es[..n], i, j, b);
    } else {
      CoverSome(es[..n], i, b);
    }
  }

  lemma {:induction false} CoverNone(es: seq<Xad>, b: int)
    requires forall i :: 0 <= i < |es| ==> !Has(es[i], b)
    ensures Cover(es, b) == 0
    decreases |es|
  {
    if es != [] {
      CoverNone(es[..|es| - 1], b);
    }
  }

  /** A block is mapped exactly when some extent covers it. */
  lemma CoverPhys(es: seq<Xad>, b: int)
    ensures Cover(es, b) == 0 <==> Phys(es, b).None?
  {
    hide Cover, Find;
    if i: nat :| i < |es| && Has(es[i], b) {
      CoverSome(es, i, b);
      FoundSomewhere(es, i, b);
    } else {
      CoverNone(es, b);
      FoundNowhere(es, b);
    }
  }

  /** Two extents of such a table share no block. */
  lemma ApartPair(es: seq<Xad>, i: nat, j: nat)
    requires Apart(es) && i < |es| && j < |es| && i != j
    ensures forall b: int :: !(Has(es[i], b) && Has(es[j], b))
  {
    hide Cover;
    forall b: int | Has(es[i], b) && Has(es[j], b) ensures false {
      if i < j { CoverTwo(es, i, j, b); } else { CoverTwo(es, j, i, b); }
    }
  }

  lemma ApartPrefix(es: seq<Xad>, k: nat)
    requires Apart(es) && k <= |es|
    ensures Apart(es[..k])
  {
    hide Cover;
    forall b: int ensures Cover(es[..k], b) <= 1 {
      CoverAppend(es[..k], es[k..], b);
      assert es[..k] + es[k..] == es;
    }
  }

  /** A table that passes `validate` is such a table. */
  lemma ValidIsApart(es: seq<Xad>)
    requires Valid(es)
    ensures Apart(es)
  {
    hide Cover, Valid;
    ValidIsAscending(es);
    forall b: int ensures Cover(es, b) <= 1 {
      if i: nat :| i < |es| && Has(es[i], b) {
        var init, tail := es[..i], es[i + 1..];
        forall j | 0 <= j < |init| ensures !Has(init[j], b) {
          assert init[j] == es[j];
        }
        forall j | 0 <= j < |tail| ensures !Has(tail[j], b) {
          assert tail[j] == es[i + 1 + j];
        }
        CoverNone(init, b);
        CoverNone(tail, b);
        CoverOne(es[i], b);
        CoverAppend(init + [es[i]], tail, b);
        CoverAppend(init, [es[i]], b);
        assert init + [es[i]] + tail == es;
      } else {
        CoverNone(es, b);
      }
    }
  }

  /** The blocks one extent still covers after the cut. */
  lemma OneCover(c: Cut, x: Xad, b: int)
    requires Ordered(c) && InSpace(x)
    ensures Cover(One(c, x).kept, b) == if Removed(c, b) then 0 else Cover([x], b)
  {
    hide Cover, SetLength, SetOffset, SetAddress;
    CoverOne(x, b);
    if c.Truncate? {
      if x.offset < c.eof < x.offset + x.length {
        NoLoss(x, c.eof - x.offset, 0, 0);
        CoverOne(x.(length := c.eof - x.offset), b);
      }
    } else if x.length > 0 && x.offset < c.end && c.start < x.offset + x.length {
      WindowCover(c, x, b);
    }
  }

  lemma WindowCover(c: Cut, x: Xad, b: int)
    requires !c.Truncate? && c.start < c.end && InSpace(x)
    requires x.length > 0 && x.offset < c.end && c.start < x.offset + x.length
    ensures Cover(One(c, x).kept, b) == if Removed(c, b) then 0 else Cover([x], b)
  {
    hide Cover, SetLength, SetOffset, SetAddress;
    CoverOne(x, b);
    var xEnd := x.offset + x.length;
    var l := x.(length := if x.offset < c.start then c.start - x.offset else 0);
    NoLoss(x, l.length, 0, 0);
    CoverOne(l, b);
    if xEnd > c.end {
      var right := x.address + l.length + (if c.Take? || x.offset >= c.start then (if x.offset < c.start then c.end - c.start else c.end - x.offset) else 0);
      var r := Xad(x.flag, c.end, xEnd - c.end, right);
      NoLoss(x, r.length, c.end, right);
      CoverOne(r, b);
      CoverAppend([l], [r], b);
      assert [l] + [r] == [l, r];
    }
  }

  /** A cut covers the blocks that stay as often as before, and no other. */
  lemma {:induction false} CutCover(c: Cut, es: seq<Xad>, b: int)
    requires Ordered(c) && AllInSpace(es)
    ensures Cover(All(c, es).kept, b) == if Removed(c, b) then 0 else Cover(es, b)
    decreases |es|
  {
    hide One, InSpace;
    if es != [] {
      var init, x := es[..|es| - 1], es[|es| - 1];
      CutCover(c, init, b);
      OneCover(c, x, b);
      CoverOne(x, b);
      CoverAppend(All(c, init).kept, One(c, x).kept, b);
    }
  }

  /** Truncate, take and punch keep extents from overlapping. */
  lemma CutKeepsApart(c: Cut, es: seq<Xad>)
    requires Ordered(c) && AllInSpace(es) && Apart(es)
    ensures Apart(All(c, es).kept)
  {
    hide Cover, All;
    forall b: int ensures Cover(All(c, es).kept, b) <= 1 {
      CutCover(c, es, b);
    }
  }

  lemma {:induction false} KeptNotEmpty(c: Cut, es: seq<Xad>)
    requires Ordered(c) && AllInSpace(es)
    ensures forall i :: 0 <= i < |All(c, es).kept| ==> All(c, es).kept[i].length > 0
    decreases |es|
  {
    hide One, InSpace;
    if es != [] {
      KeptNotEmpty(c, es[..|es| - 1]);
      OneValid(c, es[|es| - 1]);
    }
  }

  /** The extent reaches into the window. */
  predicate Meets(x: Xad, start: nat, end: nat) {
    x.length > 0 && x.offset < end && start < x.offset + x.length
  }

  lemma {:induction false} KeptOutside(c: Cut, es: seq<Xad>)
    requires !c.Truncate? && Ordered(c) && AllInSpace(es)
    requires forall i :: 0 <= i < |es| ==> !Meets(es[i], c.start, c.end)
    ensures |All(c, es).kept| == LiveCount(es)
    decreases |es|
  {
    hide One;
    if es != [] {
      var x := es[|es| - 1];
      KeptOutside(c, es[..|es| - 1]);
      OneValid(c, x);
      if x.length > 0 {
        OutsideKept(c, x);
      }
    }
  }

  lemma {:induction false} KeptWithoutSpan(c: Cut, es: seq<Xad>)
    requires !c.Truncate? && Ordered(c) && AllInSpace(es) && !SomeSpan(es, c.start, c.end)
    ensures |All(c, es).kept| <= LiveCount(es)
    decreases |es|
  {
    hide One, InSpace;
    if es != [] {
      var init, x := es[..|es| - 1], es[|es| - 1];
      assert forall i :: 0 <= i < |init| ==> init[i] == es[i];
      KeptWithoutSpan(c, init);
      OneValid(c, x);
    }
  }

  lemma {:induction false} KeptWithSpan(c: Cut, es: seq<Xad>, i: nat)
    requires !c.Truncate? && Ordered(c) && AllInSpace(es) && i < |es| && Spans(es[i], c.start, c.end)
    requires forall j :: 0 <= j < |es| && j != i ==> !Meets(es[j], c.start, c.end)
    ensures |All(c, es).kept| == LiveCount(es) + 1
    decreases |es|
  {
    hide One, InSpace;
    var n := |es| - 1;
    var init, x := es[..n], es[n];
    assert forall j :: 0 <= j < n ==> init[j] == es[j];
    if i < n {
      KeptWithSpan(c, init, i);
      OneValid(c, x);
      if x.length > 0 {
        OutsideKept(c, x);
      }
    } else {
      KeptOutside(c, init);
      SpanKept(c, x);
    }
  }

  /** Every other extent stays clear of a window that lies inside one extent. */
  lemma SpanAlone(es: seq<Xad>, start: nat, end: nat, i: nat)
    requires start < end && Apart(es) && i < |es| && Spans(es[i], start, end)
    ensures forall j :: 0 <= j < |es| && j != i ==> !Meets(es[j], start, end)
  {
    hide Apart;
    forall j | 0 <= j < |es| && j != i ensures !Meets(es[j], start, end) {
      ApartPair(es, i, j);
      var b := if es[j].offset <= start then start else es[j].offset;
      assert !(Has(es[i], b) && Has(es[j], b));
    }
  }

  /** How many slots a cut of a non-overlapping table needs. */
  lemma KeptCount(c: Cut, es: seq<Xad>)
    requires !c.Truncate? && Ordered(c) && AllInSpace(es) && Apart(es)
    ensures SomeSpan(es, c.start, c.end) ==> |All(c, es).kept| == LiveCount(es) + 1
    ensures !SomeSpan(es, c.start, c.end) ==> |All(c, es).kept| <= LiveCount(es)
  {
    hide All, LiveCount, Apart, AllInSpace, Spans;
    if SomeSpan(es, c.start, c.end) {
      var i: nat :| i < |es| && Spans(es[i], c.start, c.end);
      SpanAlone(es, c.start, c.end, i);
      KeptWithSpan(c, es, i);
    } else {
      KeptWithoutSpan(c, es);
    }
  }

  lemma SpanKept(c: Cut, x: Xad)
    requires !c.Truncate? && c.start < c.end && InSpace(x) && Spans(x, c.start, c.end)
    ensures |One(c, x).kept| == 2
  {
  }

  /** The cut leaves more slots than the root has exactly when the root is full and an extent is split. */
  lemma OverflowsWhen(c: Cut, es: seq<Xad>)
    requires !c.Truncate? && Ordered(c) && AllInSpace(es) && Apart(es) && |es| <= SLOTS
    ensures |All(c, es).kept| > SLOTS <==> LiveCount(es) == SLOTS && SomeSpan(es, c.start, c.end)
  {
    KeptCount(c, es);
  }

  /** In a non-overlapping table only the extent that contains a block can be found for it. */
  lemma FoundApart(es: seq<Xad>, i: nat, b: int)
    requires Apart(es) && i < |es| && Has(es[i], b)
    ensures Find(es, b) == Some(es[i])
    ensures Phys(es, b) == Some(es[i].address + (b - es[i].offset))
  {
    hide Apart, Find;
    FoundSomewhere(es, i, b);
    var f := Find(es, b).value;
    var j: nat :| j < |es| && es[j] == f;
    if i != j {
      ApartPair(es, i, j);
    }
  }

  lemma DroppedSlotLost(kept: seq<Xad>, k: nat)
    requires Apart(kept) && k < |kept| && kept[k].length > 0
    ensures Phys(kept[..k], kept[k].offset).None? && Phys(kept, kept[k].offset).Some?
  {
    hide Apart, Find;
    var b := kept[k].offset;
    FoundApart(kept, k, b);
    var init := kept[..k];
    forall i | 0 <= i < k ensures !Has(init[i], b) {
      ApartPair(kept, i, k);
      assert init[i] == kept[i];
      assert Has(kept[k], b);
    }
    FoundNowhere(init, b);
  }

  /** The table maps the blocks that stay as before, and nothing else. */
  ghost predicate CutRight(c: Cut, es: seq<Xad>, after: seq<Xad>) {
    forall b: int :: Phys(after, b) == if Removed(c, b) then None else Phys(es, b)
  }

  /** Truncation of a table that fits the root is always exact. */
  lemma TruncateRight(eof: nat, es: seq<Xad>)
    requires AllInSpace(es) && |es| <= SLOTS
    ensures CutRight(Truncate(eof), es, Stored(All(Truncate(eof), es).kept))
  {
    hide Phys, Stored;
    var c := Truncate(eof);
    TruncateShrinks(eof, es);
    StoredWhole(All(c, es).kept);
    forall b: int ensures Phys(All(c, es).kept, b) == if Removed(c, b) then None else Phys(es, b) {
      AllExact(c, es, b);
    }
  }

  lemma StoredWhole(kept: seq<Xad>)
    requires |kept| <= SLOTS
    ensures Stored(kept) == kept
  {
  }

  lemma {:induction false} TruncateShrinks(eof: nat, es: seq<Xad>)
    ensures |All(Truncate(eof), es).kept| <= |es|
    decreases |es|
  {
    if es != [] {
      TruncateShrinks(eof, es[..|es| - 1]);
    }
  }

  /**
   Taking a window out of a non-overlapping table is exact unless all sixteen slots are in use and one extent has
   to be split; then the last extent is lost.
   */
  lemma TakeRight(start: nat, end: nat, es: seq<Xad>)
    requires start < end && AllInSpace(es) && Apart(es) && |es| <= SLOTS
    ensures CutRight(Take(start, end), es, Stored(All(Take(start, end), es).kept))
       <==> !(LiveCount(es) == SLOTS && SomeSpan(es, start, end))
  {
    hide Phys, All, LiveCount, Apart;
    var c := Take(start, end);
    var kept := All(c, es).kept;
    OverflowsWhen(c, es);
    forall b: int ensures Phys(kept, b) == if Removed(c, b) then None else Phys(es, b) {
      AllExact(c, es, b);
    }
    if |kept| > SLOTS {
      CutKeepsApart(c, es);
      KeptNotEmpty(c, es);
      var b := kept[SLOTS].offset;
      DroppedSlotLost(kept, SLOTS);
      assert Phys(Stored(kept), b).None? && Phys(kept, b).Some?;
    }
  }

  /** Punching is exact unless an extent sticks out of the window on both sides. */
  lemma PunchRight(start: nat, end: nat, es: seq<Xad>)
    requires start < end && AllInSpace(es) && Apart(es) && |es| <= SLOTS
    ensures CutRight(Punch(start, end), es, Stored(All(Punch(start, end), es).kept)) <==> !SomeSpan(es, start, end)
  {
    hide Phys, All, Apart, LiveCount;
    var c := Punch(start, end);
    var kept := All(c, es).kept;
    if SomeSpan(es, start, end) {
      var i :| 0 <= i < |es| && Spans(es[i], start, end);
      PunchWrong(start, end, es, i);
    } else {
      OverflowsWhen(c, es);
      assert AllHandled(c, es);
      forall b: int ensures Phys(kept, b) == if Removed(c, b) then None else Phys(es, b) {
        AllExact(c, es, b);
      }
    }
  }

  /** Punch takes out the same extents as take, and keeps the same slots unless an extent is split. */
  lemma {:induction false} PunchIsTake(start: nat, end: nat, es: seq<Xad>)
    requires start < end
    ensures All(Punch(start, end), es).out == All(Take(start, end), es).out
    ensures AllHandled(Punch(start, end), es) ==> All(Punch(start, end), es).kept == All(Take(start, end), es).kept
    decreases |es|
  {
    hide One, Handled;
    if es != [] {
      var init := es[..|es| - 1];
      PunchIsTake(start, end, init);
      OnePunchIsTake(start, end, es[|es| - 1]);
      assert forall i :: 0 <= i < |init| ==> init[i] == es[i];
    }
  }

  lemma OnePunchIsTake(start: nat, end: nat, x: Xad)
    requires start < end
    ensures One(Punch(start, end), x).out == One(Take(start, end), x).out
    ensures Handled(Punch(start, end), x) ==> One(Punch(start, end), x).kept == One(Take(start, end), x).kept
  {
    hide SetLength, SetOffset, SetAddress;
  }

  /** The right remainder of a split extent is given the address of the blocks that were freed. */
  lemma PunchWrong(start: nat, end: nat, es: seq<Xad>, i: nat)
    requires start < end && AllInSpace(es) && Apart(es) && |es| <= SLOTS && i < |es| && Spans(es[i], start, end)
    ensures !CutRight(Punch(start, end), es, Stored(All(Punch(start, end), es).kept))
  {
    hide One, Phys, Apart, All, LiveCount;
    var c := Punch(start, end);
    var kept, x := All(c, es).kept, es[i];
    assert InSpace(es[i]);
    FoundApart(es, i, end);
    CutKeepsApart(c, es);
    KeptNotEmpty(c, es);
    KeptCount(c, es);
    SpanAddress(start, end, x);
    var j := SpanPieces(c, es, i);
    if j + 1 < |Stored(kept)| {
      RightPieceFound(kept, j + 1, end);
    } else {
      DroppedSlotLost(kept, SLOTS);
    }
  }

  lemma RightPieceFound(kept: seq<Xad>, j: nat, b: int)
    requires Apart(kept) && j < |Stored(kept)| && Has(kept[j], b)
    ensures Phys(Stored(kept), b) == Some(kept[j].address + (b - kept[j].offset))
  {
    hide Apart, Phys;
    var after := Stored(kept);
    ApartPrefix(kept, |after|);
    assert after == kept[..|after|];
    FoundApart(after, j, b);
  }

  /** Where the two remainders of a split extent stand among the kept slots. */
  lemma {:induction false} SpanPieces(c: Cut, es: seq<Xad>, i: nat) returns (j: nat)
    requires c.Punch? && c.start < c.end && AllInSpace(es) && i < |es| && Spans(es[i], c.start, c.end)
    ensures j == |All(c, es[..i]).kept| && j + 1 < |All(c, es).kept|
    ensures All(c, es).kept[j + 1] == One(c, es[i]).kept[|One(c, es[i]).kept| - 1]
    decreases |es|
  {
    hide One, InSpace;
    var n := |es| - 1;
    assert InSpace(es[i]);
    if i < n {
      assert es[..n][i] == es[i] && es[..n][..i] == es[..i];
      j := SpanPieces(c, es[..n], i);
    } else {
      SpanKept(c, es[i]);
      j := |All(c, es[..n]).kept|;
    }
  }

  lemma SpanAddress(start: nat, end: nat, x: Xad)
    requires start < end && InSpace(x) && Spans(x, start, end)
    ensures var p := One(Punch(start, end), x);
            && |p.kept| == 2
            && p.kept[1] == Xad(x.flag, end, x.offset + x.length - end, x.address + (start - x.offset))
            && Has(p.kept[1], end)
  {
    NoLoss(x, x.offset + x.length - end, end, x.address + (start - x.offset));
  }

  lemma {:induction false} ValidPrefix(es: seq<Xad>, k: nat)
    requires Valid(es) && k <= |es|
    ensures Valid(es[..k])
    decreases |es|
  {
    if k == |es| {
      assert es[..k] == es;
    } else {
      ValidPrefix(es[..|es| - 1], k);
      assert es[..|es| - 1][..k] == es[..k];
    }
  }

  // ---- Inserting and splitting ----

  /** The new extent continues the last one, logically and physically. */
  predicate Continues(es: seq<Xad>, off: nat, addr: nat) {
    && es != []
    && es[|es| - 1].offset + es[|es| - 1].length == off
    && es[|es| - 1].address + es[|es| - 1].length == addr
  }

  /** The table with an extent added at its end or merged into its last extent; `None` when it is full. */
  function Inserted(es: seq<Xad>, off: nat, len: nat, addr: nat): Option<seq<Xad>> {
    if Continues(es, off, addr) then
      Some(es[|es| - 1 := SetLength(es[|es| - 1], es[|es| - 1].length + len)])
    else if |es| >= SLOTS then None
    else Some(es + [Xad(1, off % TWO40, len % TWO24, addr % TWO40)])
  }

  /** A block keeps the address it had, and gets one from the new extent if it had none. */
  ghost predicate InsertRight(es: seq<Xad>, off: nat, len: nat, addr: nat, after: seq<Xad>) {
    forall b: int :: Phys(after, b)
      == if Phys(es, b).Some? then Phys(es, b) else if off <= b < off + len then Some(addr + (b - off)) else None
  }

  /** The merged length still fits its 24 bits. */
  predicate MergeFits(es: seq<Xad>, off: nat, len: nat, addr: nat) {
    Continues(es, off, addr) ==> es[|es| - 1].length + len < TWO24
  }

  /** In a non-overlapping table an insertion is right exactly when a merge does not overflow the length field. */
  lemma InsertIsRight(es: seq<Xad>, off: nat, len: nat, addr: nat)
    requires AllInSpace(es) && InSpace(Xad(1, off, len, addr)) && len > 0 && Inserted(es, off, len, addr).Some?
    ensures MergeFits(es, off, len, addr) ==> InsertRight(es, off, len, addr, Inserted(es, off, len, addr).value)
    ensures MergeFits(es, off, len, addr) ==> AllInSpace(Inserted(es, off, len, addr).value)
    ensures Apart(es) && !MergeFits(es, off, len, addr) ==>
              !InsertRight(es, off, len, addr, Inserted(es, off, len, addr).value)
  {
    hide Phys, Apart;
    if Continues(es, off, addr) {
      MergeRight(es, off, len, addr);
    } else {
      var x := Xad(1, off, len, addr);
      AppendFields(off, len, addr);
      forall b: int ensures Phys(es + [x], b)
        == if Phys(es, b).Some? then Phys(es, b) else if off <= b < off + len then Some(addr + (b - off)) else None
      {
        PhysAppend(es, [x], b);
        PhysOne(x, b);
      }
    }
  }

  lemma AppendFields(off: nat, len: nat, addr: nat)
    requires InSpace(Xad(1, off, len, addr)) && len > 0
    ensures Xad(1, off % TWO40, len % TWO24, addr % TWO40) == Xad(1, off, len, addr)
  {
  }

  lemma MergeRight(es: seq<Xad>, off: nat, len: nat, addr: nat)
    requires AllInSpace(es) && InSpace(Xad(1, off, len, addr)) && Continues(es, off, addr)
    ensures MergeFits(es, off, len, addr) ==> InsertRight(es, off, len, addr, Inserted(es, off, len, addr).value)
    ensures MergeFits(es, off, len, addr) ==> AllInSpace(Inserted(es, off, len, addr).value)
    ensures Apart(es) && !MergeFits(es, off, len, addr) ==>
              !InsertRight(es, off, len, addr, Inserted(es, off, len, addr).value)
  {
    hide Phys, Apart;
    var n := |es| - 1;
    var init, x := es[..n], es[n];
    assert InSpace(x);
    var y := SetLength(x, x.length + len);
    var after := Inserted(es, off, len, addr).value;
    assert es == init + [x] && after == init + [y];
    if x.length + len < TWO24 {
      forall b: int ensures Phys(after, b)
        == if Phys(es, b).Some? then Phys(es, b) else if off <= b < off + len then Some(addr + (b - off)) else None
      {
        PhysAppend(init, [x], b);
        PhysAppend(init, [y], b);
        PhysOne(x, b);
        PhysOne(y, b);
      }
    } else if Apart(es) {
      var b := x.offset + (x.length + len - TWO24);
      WrapLoses(es, len);
    }
  }

  /** An overflowing merge cuts the last extent short. */
  lemma WrapLoses(es: seq<Xad>, len: nat)
    requires Apart(es) && es != [] && es[|es| - 1].length < TWO24 && len < TWO24
    requires es[|es| - 1].length + len >= TWO24
    ensures var x := es[|es| - 1];
            var b := x.offset + (x.length + len - TWO24);
            Phys(es, b).Some? && Phys(es[|es| - 1 := SetLength(x, x.length + len)], b).None?
  {
    hide Apart, Find, SetLength;
    var n := |es| - 1;
    var x := es[n];
    var b := x.offset + (x.length + len - TWO24);
    WrappedLength(x, len);
    FoundApart(es, n, b);
    OnlyHere(es, n, b);
    var y := SetLength(x, x.length + len);
    assert es[n := y] == es[..n] + [y];
    PhysAppend(es[..n], [y], b);
    PhysOne(y, b);
  }

  lemma WrappedLength(x: Xad, len: nat)
    requires x.length < TWO24 && len < TWO24 && x.length + len >= TWO24
    ensures SetLength(x, x.length + len) == x.(length := x.length + len - TWO24)
  {
    ModUnique(x.length + len, TWO24, 1, x.length + len - TWO24);
  }

  predicate Straddles(x: Xad, at: nat) {
    x.offset < at < x.offset + x.length
  }

  /** The table with extent `i` cut in two at `at`, the second half in a new slot at the end. */
  function SplitAt(es: seq<Xad>, i: nat, at: nat): seq<Xad>
    requires i < |es| && Straddles(es[i], at)
  {
    var keep := at - es[i].offset;
    es[i := SetLength(es[i], keep)] + [Xad(0, at % TWO40, (es[i].length - keep) % TWO24, (es[i].address + keep) % TWO40)]
  }

  /** Splitting an extent of a non-overlapping table changes no mapping. */
  lemma SplitKeepsMapping(es: seq<Xad>, i: nat, at: nat, b: int)
    requires AllInSpace(es) && Apart(es) && i < |es| && Straddles(es[i], at)
    ensures Phys(SplitAt(es, i, at), b) == Phys(es, b)
  {
    hide Phys, Apart;
    var x := es[i];
    assert InSpace(x);
    var keep := at - x.offset;
    var l, r := x.(length := keep), Xad(0, at, x.length - keep, x.address + keep);
    NoLoss(x, keep, 0, 0);
    SplitFields(x, at);
    var first := es[i := l];
    PhysAppend(first, [r], b);
    PhysOne(r, b);
    assert first == es[..i] + ([l] + es[i + 1..]) && es == es[..i] + ([x] + es[i + 1..]);
    PhysAppend(es[..i], [l] + es[i + 1..], b);
    PhysAppend(es[..i], [x] + es[i + 1..], b);
    PhysAppend([l], es[i + 1..], b);
    PhysAppend([x], es[i + 1..], b);
    PhysOne(l, b);
    PhysOne(x, b);
    if Has(x, b) {
      OnlyHere(es, i, b);
    }
  }

  lemma SplitFields(x: Xad, at: nat)
    requires InSpace(x) && Straddles(x, at)
    ensures Xad(0, at % TWO40, (x.length - (at - x.offset)) % TWO24, (x.address + (at - x.offset)) % TWO40)
         == Xad(0, at, x.length - (at - x.offset), x.address + (at - x.offset))
  {
  }

  lemma OnlyHere(es: seq<Xad>, i: nat, b: int)
    requires Apart(es) && i < |es| && Has(es[i], b)
    ensures Phys(es[..i], b).None? && Phys(es[i + 1..], b).None?
  {
    hide Apart, Find;
    var init, tail := es[..i], es[i + 1..];
    forall j | 0 <= j < i ensures !Has(init[j], b) {
      ApartPair(es, i, j);
      assert init[j] == es[j];
    }
    forall j | 0 <= j < |tail| ensures !Has(tail[j], b) {
      ApartPair(es, i, i + 1 + j);
      assert tail[j] == es[i + 1 + j];
    }
    FoundNowhere(init, b);
    FoundNowhere(tail, b);
  }
}

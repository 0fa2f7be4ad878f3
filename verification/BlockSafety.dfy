/**
 Block ownership over whole runs of volume operations: no block is both free and claimed by a live file,
 and none is claimed twice.
 */
module BlockSafety {
  import opened Bytes
  import opened Extents
  import opened ExtentTable
  import opened Xtree
  import opened ExtentMove
  import opened Allocator
  import opened Ownership
  import opened VolumeModel

  /** The blocks an inode claims; a slot that is not in use claims none. */
  function ClaimOf(x: Inode): multiset<nat> {
    if x.live then BlocksOf(x.root.entries) else multiset{}
  }

  function Claims(inodes: seq<Inode>): (own: seq<multiset<nat>>)
    ensures |own| == |inodes|
  {
    seq(|inodes|, i requires 0 <= i < |inodes| => ClaimOf(inodes[i]))
  }

  predicate RootFine(r: Root) {
    RootOk(r) && AllInSpace(r.entries)
  }

  ghost predicate RootsFine(inodes: seq<Inode>) {
    forall i :: 0 <= i < |inodes| && inodes[i].live ==> RootFine(inodes[i].root)
  }

  /** The block invariant of a volume. */
  ghost predicate Space(v: Vol) {
    Owned(Claims(v.inodes), v.bits) && RootsFine(v.inodes) && |v.bits| <= TWO40
  }

  /** The invariant holds afterwards, and no block has gained an owner on the way. */
  ghost predicate Keeps(v: Vol, w: Vol) {
    Space(w) && Within(Claims(w.inodes), w.bits, Claims(v.inodes), v.bits)
  }

  lemma KeepsBy(v: Vol, w: Vol)
    requires Space(v) && RootsFine(w.inodes) && Within(Claims(w.inodes), w.bits, Claims(v.inodes), v.bits)
    ensures Keeps(v, w)
  {
    hide Owned, RootsFine, Claims, Within;
    WithinOwned(Claims(w.inodes), w.bits, Claims(v.inodes), v.bits);
    WithinSize(Claims(w.inodes), w.bits, Claims(v.inodes), v.bits);
  }

  lemma WithinSize(own2: seq<multiset<nat>>, bits2: seq<bool>, own: seq<multiset<nat>>, bits: seq<bool>)
    requires Within(own2, bits2, own, bits)
    ensures |bits2| == |bits|
  {
  }

  lemma KeepsTwice(v: Vol, w: Vol, u: Vol)
    requires Keeps(v, w) && Keeps(w, u)
    ensures Keeps(v, u)
  {
    hide Space, Claims, Owners;
    forall p: nat ensures Owners(Claims(u.inodes), u.bits, p) <= Owners(Claims(v.inodes), v.bits, p) {
      assert Owners(Claims(u.inodes), u.bits, p) <= Owners(Claims(w.inodes), w.bits, p);
    }
  }

  /** Neither tables nor free blocks are different. */
  lemma KeepsSame(v: Vol, w: Vol)
    requires Space(v) && w.inodes == v.inodes && w.bits == v.bits
    ensures Keeps(v, w)
  {
    hide Owned, RootsFine, Claims;
  }

  lemma ClaimsPut(inodes: seq<Inode>, i: nat, x: Inode)
    requires i < |inodes|
    ensures Claims(inodes[i := x]) == Claims(inodes)[i := ClaimOf(x)]
    ensures Claims(inodes)[i] == ClaimOf(inodes[i])
  {
    hide ClaimOf;
  }

  lemma RootsPut(inodes: seq<Inode>, i: nat, x: Inode)
    requires i < |inodes| && RootsFine(inodes) && (x.live ==> RootFine(x.root))
    ensures RootsFine(inodes[i := x])
  {
    hide RootFine;
  }

  // ---- Cutting, freeing ----

  lemma CutFine(c: Cut, r: Root)
    requires Ordered(c) && AllInSpace(r.entries)
    ensures RootFine(CutRoot(c, r))
  {
    hide All, InSpace;
    CutInSpace(c, r.entries);
  }

  lemma {:induction false} CutInSpace(c: Cut, es: seq<Xad>)
    requires Ordered(c) && AllInSpace(es)
    ensures AllInSpace(All(c, es).kept)
    decreases |es|
  {
    hide One, InSpace;
    if es != [] {
      CutInSpace(c, es[..|es| - 1]);
      OneInSpace(c, es[|es| - 1]);
    }
  }

  lemma OneInSpace(c: Cut, x: Xad)
    requires Ordered(c) && InSpace(x)
    ensures AllInSpace(One(c, x).kept)
  {
    if Handled(c, x) {
      OneExact(c, x, 0);
    } else {
      SpanAddress(c.start, c.end, x);
      NoLoss(x, c.start - x.offset, 0, 0);
    }
  }

  /** What a cut leaves in the root and what it takes out are together no more than the table claimed. */
  ghost predicate CutClaimed(c: Cut, es: seq<Xad>)
    requires Ordered(c)
  {
    BlocksOf(Stored(All(c, es).kept)) + BlocksOf(All(c, es).out) <= BlocksOf(es)
  }

  /** An operation that frees what a cut takes out keeps every block with one owner. */
  lemma CutKeeps(v: Vol, i: nat, c: Cut, x: Inode)
    requires Space(v) && i < |v.inodes| && v.inodes[i].live && x.live && Ordered(c)
    requires CutClaimed(c, v.inodes[i].root.entries) && x.root == CutRoot(c, v.inodes[i].root)
    ensures Keeps(v, Put(v, i, x).(bits := FreeAll(v.bits, FreedOf(All(c, v.inodes[i].root.entries).out))))
  {
    hide Owned, All, BlocksOf, FreedOf, FreeAll, InSpace, AllInSpace, RootOk, Stored, Claims, RootsFine, Keeps, Within;
    var es := v.inodes[i].root.entries;
    RootAt(v, i);
    ClaimsPut(v.inodes, i, x);
    OutFits(Claims(v.inodes), v.bits, i, ClaimOf(x), All(c, es).out);
    FreedBits(v.bits, All(c, es).out);
    ReleaseKeeps(Claims(v.inodes), v.bits, i, ClaimOf(x), BlocksOf(All(c, es).out),
                 FreeAll(v.bits, FreedOf(All(c, es).out)));
    CutFine(c, v.inodes[i].root);
    RootsPut(v.inodes, i, x);
    KeepsBy(v, Put(v, i, x).(bits := FreeAll(v.bits, FreedOf(All(c, es).out))));
  }

  lemma RootAt(v: Vol, i: nat)
    requires Space(v) && i < |v.inodes| && v.inodes[i].live
    ensures RootFine(v.inodes[i].root)
  {
    hide Owned, RootFine;
  }

  lemma TruncateHandled(eof: nat, es: seq<Xad>)
    ensures AllHandled(Truncate(eof), es)
  {
  }

  /** Freeing an inode gives its blocks back. */
  lemma FreeKeeps(v: Vol, i: nat, x: Inode)
    requires Space(v) && i < |v.inodes| && !x.live
    ensures Keeps(v, Put(v, i, x).(bits := FreeAll(v.bits, FreedBy(v.inodes[i]))))
  {
    hide Owned, Keeps, Within, All, BlocksOf, FreedOf, FreeAll, AllHandled, InSpace, AllInSpace, RootOk, Claims, RootsFine;
    var y := v.inodes[i];
    ClaimsPut(v.inodes, i, x);
    RootsPut(v.inodes, i, x);
    NoBlocks();
    OutOne(EMPTY_SLOT);
    var out := if y.live then All(Truncate(0), y.root.entries).out else [];
    if y.live {
      RootAt(v, i);
      TruncateHandled(0, y.root.entries);
      AllConserves(Truncate(0), y.root.entries);
    }
    OutFits(Claims(v.inodes), v.bits, i, multiset{}, out);
    FreedBits(v.bits, out);
    ReleaseKeeps(Claims(v.inodes), v.bits, i, multiset{}, BlocksOf(out), FreeAll(v.bits, FreedOf(out)));
    KeepsBy(v, Put(v, i, x).(bits := FreeAll(v.bits, FreedBy(y))));
  }

  /** A change of an inode that leaves its claim alone. */
  lemma SameClaimKeeps(v: Vol, i: nat, x: Inode)
    requires Space(v) && i < |v.inodes| && x.live == v.inodes[i].live && x.root == v.inodes[i].root
    ensures Keeps(v, Put(v, i, x))
  {
    hide Owned, BlocksOf, Claims;
    ClaimsPut(v.inodes, i, x);
    assert Claims(v.inodes)[i := ClaimOf(x)] == Claims(v.inodes);
  }

  // ---- Growing ----

  lemma GrowFine(r: Root, off: nat, n: nat, s: nat)
    requires RootFine(r) && n > 0 && off + n <= TWO40 && s + n <= TWO40
    ensures RootFine(GrowRoot(r, off, n, s))
    ensures BlocksOf(GrowRoot(r, off, n, s).entries) <= BlocksOf(r.entries) + Run(s, n)
  {
    hide BlocksOf, Run, InSpace, Inserted;
    if r.next <= XTROOTMAXSLOT && Inserted(r.entries, off, n, s).Some? {
      GrowClaims(r.entries, off, n, s);
      InsertedInSpace(r.entries, off, n, s);
    }
  }

  lemma InsertedInSpace(es: seq<Xad>, off: nat, n: nat, s: nat)
    requires AllInSpace(es) && n > 0 && off + n <= TWO40 && s + n <= TWO40 && |es| <= SLOTS && Inserted(es, off, n, s).Some?
    ensures AllInSpace(Inserted(es, off, n, s).value) && 0 < |Inserted(es, off, n, s).value| <= SLOTS
  {
    if Continues(es, off, s) {
      assert InSpace(es[|es| - 1]);
    }
  }

  /** A file that is given free blocks, or loses them for want of a slot or of a wider length field. */
  lemma GrowKeeps(v: Vol, i: nat, off: nat, n: nat, s: nat, x: Inode)
    requires Space(v) && i < |v.inodes| && v.inodes[i].live && x.live
    requires AllAre(v.bits, Chunk(s, n), true) && n > 0 && off + n <= TWO40
    requires x.root == GrowRoot(v.inodes[i].root, off, n, s)
    ensures Keeps(v, Put(v, i, x).(bits := Fill(v.bits, Chunk(s, n), false)))
  {
    hide Owned, BlocksOf, Run, Fill, InSpace, AllInSpace, RootOk, Claims, RootsFine, GrowRoot, AllAre, Keeps, Within;
    RootAt(v, i);
    FitsRun(v.bits, Chunk(s, n));
    GrowFine(v.inodes[i].root, off, n, s);
    ClaimsPut(v.inodes, i, x);
    ClaimKeeps(Claims(v.inodes), v.bits, i, Chunk(s, n), ClaimOf(x));
    RootsPut(v.inodes, i, x);
    KeepsBy(v, Put(v, i, x).(bits := Fill(v.bits, Chunk(s, n), false)));
  }

  /** Fewer free blocks do no harm. */
  lemma FewerFree(v: Vol, bits: seq<bool>)
    requires Space(v) && |bits| == |v.bits| && forall p: nat :: p < |bits| && bits[p] ==> v.bits[p]
    ensures Keeps(v, v.(bits := bits))
  {
    hide Claims, Claimed, RootsFine, Keeps;
    KeepsBy(v, v.(bits := bits));
  }

  /** The volume in the middle of a preallocation. */
  function Filled(v: Vol, i: nat, f: Filling): Vol
    requires i < |v.inodes|
  {
    Put(v, i, v.inodes[i].(root := f.root)).(bits := f.bits)
  }

  lemma {:induction false} PreallocKeeps(v: Vol, i: nat, c: nat, end: nat)
    requires Space(v) && i < |v.inodes| && v.inodes[i].live && end <= TWO40
    ensures var f := Prealloc(v.inodes[i].root, v.bits, c, end);
            && Keeps(v, Filled(v, i, f))
            && |f.bits| == |v.bits| && (forall p: nat :: p < |f.bits| && f.bits[p] ==> v.bits[p])
    decreases end - c
  {
    hide Space, Phys, FirstFit, GrowRoot, AllAre, Fill, Keeps;
    var x := v.inodes[i];
    if c >= end {
      assert Filled(v, i, Prealloc(x.root, v.bits, c, end)) == v;
      KeepsSame(v, v);
    } else if Phys(x.root.entries, c).Some? {
      PreallocKeeps(v, i, c + 1, end);
    } else if FirstFit(v.bits, 1, c).None? {
      assert Filled(v, i, Prealloc(x.root, v.bits, c, end)) == v;
      KeepsSame(v, v);
    } else {
      var s := FirstFit(v.bits, 1, c).value;
      FirstFitLegal(v.bits, 1, c);
      var y := x.(root := GrowRoot(x.root, c, 1, s));
      var w := Put(v, i, y).(bits := Fill(v.bits, Chunk(s, 1), false));
      GrowKeeps(v, i, c, 1, s, y);
      KeptSpace(v, w);
      FillFewer(v.bits, Chunk(s, 1));
      PreallocKeeps(w, i, c + 1, end);
      var f := Prealloc(x.root, v.bits, c, end);
      assert Filled(w, i, Prealloc(y.root, w.bits, c + 1, end)) == Filled(v, i, f);
      KeepsTwice(v, w, Filled(v, i, f));
    }
  }

  lemma KeptSpace(v: Vol, w: Vol)
    requires Keeps(v, w)
    ensures Space(w)
  {
  }

  lemma FillFewer(bits: seq<bool>, c: Chunk)
    ensures forall p: nat :: p < |bits| && Fill(bits, c, false)[p] ==> bits[p]
  {
  }

  // ---- Moving ----

  lemma TakenFine(src: Root, dst: Root, from: nat, to: nat, n: nat)
    requires AllInSpace(src.entries) && AllInSpace(dst.entries) && n > 0 && to + n <= TWO40 && Move(src, dst, from, to, n).Done?
    ensures RootFine(Move(src, dst, from, to, n).dst)
  {
    hide All, ShiftAll, BlocksOf, Phys, InSpace;
    MoveParts(src, dst, from, to, n);
    TakenPhys(src.entries, from, to, n, 0);
    CutInSpace(Punch(to, to + n), dst.entries);
  }

  /** The claims of both files after a move that is done, and what it frees. */
  lemma MoveClaims(src: Root, dst: Root, from: nat, to: nat, n: nat)
    requires n > 0 && to + n <= TWO40 && Move(src, dst, from, to, n).Done?
    requires AllInSpace(src.entries) && AllInSpace(dst.entries) && !SomeSpan(dst.entries, to, to + n)
    ensures var m := Move(src, dst, from, to, n);
            var moved := BlocksOf(All(Take(from, from + n), src.entries).out);
            && BlocksOf(m.src.entries) + moved <= BlocksOf(src.entries)
            && BlocksOf(m.dst.entries) + BlocksOf(All(Punch(to, to + n), dst.entries).out) <= BlocksOf(dst.entries) + moved
  {
    hide All, ShiftAll, InSpace, Move, BlocksOf, Stored;
    var t, q := Take(from, from + n), Punch(to, to + n);
    MoveParts(src, dst, from, to, n);
    TakenPhys(src.entries, from, to, n, 0);
    BlocksOfAppend(All(q, dst.entries).kept, ShiftAll(All(t, src.entries).out, from, to));
    TakeHandled(from, from + n, src.entries);
    CutClaims(t, src.entries);
    assert AllHandled(q, dst.entries);
    AllConserves(q, dst.entries);
  }

  lemma TakeHandled(start: nat, end: nat, es: seq<Xad>)
    ensures AllHandled(Take(start, end), es)
  {
  }

  /** The root of a file as the move finds it: for a move inside one file, with the window taken out. */
  function TargetRoot(v: Vol, src: nat, from: nat, dst: nat, n: nat): Root
    requires src < |v.inodes| && dst < |v.inodes| && n > 0
  {
    if src == dst then CutRoot(Take(from, from + n), v.inodes[src].root) else v.inodes[dst].root
  }

  lemma DoMoveIs(v: Vol, src: nat, from: nat, dst: nat, to: nat, n: nat)
    requires src < |v.inodes| && dst < |v.inodes| && n > 0
    ensures var s, d := v.inodes[src], TargetRoot(v, src, from, dst, n);
            var w := DoMove(v, src, from, dst, to, n);
            var freed := FreedOf(All(Punch(to, to + n), d.entries).out);
            match Move(s.root, d, from, to, n)
            case Nothing => w == v
            case TableFull(r) =>
              r == CutRoot(Take(from, from + n), s.root) && w == Put(v, src, s.(root := r)).(bits := Reclaim(v.bits, freed))
            case Done(r, e, f) =>
              var u := Put(v, src, s.(root := r));
              r == CutRoot(Take(from, from + n), s.root) && f == freed
              && w == Put(u, dst, u.inodes[dst].(root := e, size := Max(u.inodes[dst].size, (to + n) * PAGE)))
                      .(bits := FreeAll(v.bits, freed))
  {
    hide All, ShiftAll, Give, CutRoot, FreedOf, FreeAll, Reclaim;
  }

  /** A move that frees what it overwrites needs a target without a split extent; one that fails needs nothing. */
  lemma MoveKeeps(v: Vol, src: nat, from: nat, dst: nat, to: nat, n: nat)
    requires Space(v) && src < |v.inodes| && dst < |v.inodes| && v.inodes[src].live && v.inodes[dst].live && n > 0 && to + n <= TWO40
    requires var d := TargetRoot(v, src, from, dst, n);
             Move(v.inodes[src].root, d, from, to, n).Done? ==> !SomeSpan(d.entries, to, to + n)
    ensures Keeps(v, DoMove(v, src, from, dst, to, n))
  {
    hide Space, DoMove, Move, TargetRoot, CutRoot, All, SomeSpan, FreedOf, FreeAll, Reclaim, Keeps;
    DoMoveIs(v, src, from, dst, to, n);
    var s, d := v.inodes[src], TargetRoot(v, src, from, dst, n);
    match Move(s.root, d, from, to, n)
    case Nothing => KeepsSame(v, v);
    case TableFull(r) =>
      var w := Put(v, src, s.(root := r));
      TakeOnlyKeeps(v, src, from, n);
      KeptSpace(v, w);
      FewerFree(w, Reclaim(v.bits, FreedOf(All(Punch(to, to + n), d.entries).out)));
      KeepsTwice(v, w, DoMove(v, src, from, dst, to, n));
    case Done(r, e, freed) => MoveDoneKeeps(v, src, from, dst, to, n);
  }

  lemma TakeOnlyKeeps(v: Vol, src: nat, from: nat, n: nat)
    requires Space(v) && src < |v.inodes| && v.inodes[src].live && n > 0
    ensures Keeps(v, Put(v, src, v.inodes[src].(root := CutRoot(Take(from, from + n), v.inodes[src].root))))
  {
    hide Owned, All, BlocksOf, InSpace, AllInSpace, RootOk, Claims, RootsFine, Stored, Within, Keeps;
    var c, y := Take(from, from + n), v.inodes[src];
    var x := y.(root := CutRoot(c, y.root));
    RootAt(v, src);
    TakeHandled(from, from + n, y.root.entries);
    CutClaims(c, y.root.entries);
    CutFine(c, y.root);
    ClaimsPut(v.inodes, src, x);
    RootsPut(v.inodes, src, x);
    ReleaseKeeps(Claims(v.inodes), v.bits, src, ClaimOf(x), multiset{}, v.bits);
    KeepsBy(v, Put(v, src, x));
  }

  lemma MoveDoneKeeps(v: Vol, src: nat, from: nat, dst: nat, to: nat, n: nat)
    requires Space(v) && src < |v.inodes| && dst < |v.inodes| && v.inodes[src].live && v.inodes[dst].live
    requires n > 0 && to + n <= TWO40 && !SomeSpan(TargetRoot(v, src, from, dst, n).entries, to, to + n)
    requires Move(v.inodes[src].root, TargetRoot(v, src, from, dst, n), from, to, n).Done?
    ensures Keeps(v, DoMove(v, src, from, dst, to, n))
  {
    hide Owned, DoMove, Move, CutRoot, All, SomeSpan, FreedOf, FreeAll, BlocksOf, Claims, RootsFine, RootFine, Within, Keeps;
    var s, d := v.inodes[src], TargetRoot(v, src, from, dst, n);
    var m := Move(s.root, d, from, to, n);
    var q, t := Punch(to, to + n), Take(from, from + n);
    RootAt(v, src);
    RootAt(v, dst);
    FineInSpace(s.root);
    CutFine(t, s.root);
    FineInSpace(d);
    DoMoveIs(v, src, from, dst, to, n);
    MoveClaims(s.root, d, from, to, n);
    TakenFine(s.root, d, from, to, n);
    var w := DoMove(v, src, from, dst, to, n);
    var x := s.(root := m.src);
    var u := Put(v, src, x);
    var y := w.inodes[dst];
    ClaimsPut(v.inodes, src, x);
    ClaimsPut(u.inodes, dst, y);
    RootsPut(v.inodes, src, x);
    RootsPut(u.inodes, dst, y);
    var own, moved := Claims(v.inodes), BlocksOf(All(t, s.root.entries).out);
    var both := ClaimOf(u.inodes[dst]) + moved;
    assert own[src := ClaimOf(x)][dst] == ClaimOf(u.inodes[dst]) == BlocksOf(d.entries);
    var mid := own[src := ClaimOf(x)][dst := both];
    TransferKeeps(own, v.bits, src, dst, ClaimOf(x), moved, both);
    WithinOwned(mid, v.bits, own, v.bits);
    OutFits(mid, v.bits, dst, ClaimOf(y), All(q, d.entries).out);
    FreedBits(v.bits, All(q, d.entries).out);
    ReleaseKeeps(mid, v.bits, dst, ClaimOf(y), BlocksOf(All(q, d.entries).out), w.bits);
    assert mid[dst := ClaimOf(y)] == own[src := ClaimOf(x)][dst := ClaimOf(y)];
    WithinTwice(own, v.bits, mid, v.bits, mid[dst := ClaimOf(y)], w.bits);
    KeepsBy(v, w);
  }

  lemma WithinTwice(own: seq<multiset<nat>>, bits: seq<bool>, own1: seq<multiset<nat>>, bits1: seq<bool>, own2: seq<multiset<nat>>, bits2: seq<bool>)
    requires Within(own1, bits1, own, bits) && Within(own2, bits2, own1, bits1)
    ensures Within(own2, bits2, own, bits)
  {
    hide Owners;
    forall p: nat ensures Owners(own2, bits2, p) <= Owners(own, bits, p) {
      assert Owners(own2, bits2, p) <= Owners(own1, bits1, p);
    }
  }

  lemma FineInSpace(r: Root)
    requires RootFine(r)
    ensures AllInSpace(r.entries)
  {
  }
}

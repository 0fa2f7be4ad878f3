/**
 Ownership of physical blocks: every file claims the blocks of its extents, the allocator holds the free
 ones, and no block may be claimed twice or be claimed and free.
 */
module Ownership {
  import opened Bytes
  import opened Extents
  import opened ExtentTable
  import opened Xtree
  import opened Allocator

  /** How often a block is claimed. */
  function Claimed(own: seq<multiset<nat>>, p: nat): nat
    decreases |own|
  {
    if own == [] then 0 else Claimed(own[..|own| - 1], p) + own[|own| - 1][p]
  }

  function FreeBit(bits: seq<bool>, p: nat): nat {
    if p < |bits| && bits[p] then 1 else 0
  }

  /** How many owners a block has, the allocator included. */
  function Owners(own: seq<multiset<nat>>, bits: seq<bool>, p: nat): nat {
    Claimed(own, p) + FreeBit(bits, p)
  }

  /** Every block of the volume has at most one owner. */
  ghost predicate Owned(own: seq<multiset<nat>>, bits: seq<bool>) {
    forall p: nat :: Owners(own, bits, p) <= 1 && (Claimed(own, p) > 0 ==> p < |bits|)
  }

  /** No block has gained an owner. */
  ghost predicate Within(own2: seq<multiset<nat>>, bits2: seq<bool>, own: seq<multiset<nat>>, bits: seq<bool>) {
    |bits2| == |bits| && forall p: nat :: Owners(own2, bits2, p) <= Owners(own, bits, p)
  }

  lemma WithinOwned(own2: seq<multiset<nat>>, bits2: seq<bool>, own: seq<multiset<nat>>, bits: seq<bool>)
    requires Owned(own, bits) && Within(own2, bits2, own, bits)
    ensures Owned(own2, bits2)
  {
    hide Claimed;
    forall p: nat ensures Owners(own2, bits2, p) <= 1 && (Claimed(own2, p) > 0 ==> p < |bits2|) {
      assert Owners(own2, bits2, p) <= Owners(own, bits, p);
      assert Owners(own, bits, p) <= 1 && (Claimed(own, p) > 0 ==> p < |bits|);
    }
  }

  lemma {:induction false} ClaimedUpdate(own: seq<multiset<nat>>, f: nat, m: multiset<nat>, p: nat)
    requires f < |own|
    ensures Claimed(own[f := m], p) == Claimed(own, p) - own[f][p] + m[p] && own[f][p] <= Claimed(own, p)
    decreases |own|
  {
    var n := |own| - 1;
    if f < n {
      ClaimedUpdate(own[..n], f, m, p);
      assert own[f := m][..n] == own[..n][f := m];
    } else {
      assert own[f := m][..n] == own[..n];
    }
  }

  /** A claimed block is not free, and no other file claims it, nor the same file twice. */
  lemma OwnedMeans(own: seq<multiset<nat>>, bits: seq<bool>, f: nat, p: nat)
    requires Owned(own, bits) && f < |own| && p in own[f]
    ensures own[f][p] == 1 && p < |bits| && !bits[p]
    ensures forall g: nat :: g < |own| && g != f ==> p !in own[g]
  {
    hide Claimed;
    ClaimedUpdate(own, f, multiset{}, p);
    assert Owners(own, bits, p) <= 1;
    forall g: nat | g < |own| && g != f ensures p !in own[g] {
      ClaimedUpdate(own[f := multiset{}], g, multiset{}, p);
    }
  }

  // ---- Ways to change hands ----

  /** A file gives up blocks: some are freed, some may be lost, none is both kept and freed. */
  lemma ReleaseKeeps(own: seq<multiset<nat>>, bits: seq<bool>, f: nat, kept: multiset<nat>, out: multiset<nat>, after: seq<bool>)
    requires f < |own| && kept + out <= own[f] && |after| == |bits|
    requires forall p: nat :: p < |bits| ==> after[p] == (bits[p] || p in out)
    ensures Within(own[f := kept], after, own, bits)
  {
    hide Claimed;
    forall p: nat ensures Owners(own[f := kept], after, p) <= Owners(own, bits, p) {
      ClaimedUpdate(own, f, kept, p);
      SumWithin(kept, out, own[f], p);
    }
  }

  lemma SumWithin(a: multiset<nat>, b: multiset<nat>, c: multiset<nat>, p: nat)
    requires a + b <= c
    ensures a[p] + b[p] <= c[p]
  {
    assert (a + b)[p] <= c[p];
  }

  /** A file gets free blocks. */
  lemma ClaimKeeps(own: seq<multiset<nat>>, bits: seq<bool>, f: nat, c: Chunk, more: multiset<nat>)
    requires f < |own| && AllAre(bits, c, true) && more <= own[f] + Run(c.address, c.length)
    ensures Within(own[f := more], Fill(bits, c, false), own, bits)
  {
    hide Claimed, Run;
    var after := Fill(bits, c, false);
    forall p: nat ensures Owners(own[f := more], after, p) <= Owners(own, bits, p) {
      ClaimedUpdate(own, f, more, p);
      RunCount(c.address, c.length, p);
      assert more[p] <= (own[f] + Run(c.address, c.length))[p];
    }
  }

  /** Blocks go from one file to another. */
  lemma TransferKeeps(own: seq<multiset<nat>>, bits: seq<bool>, f: nat, g: nat, kept: multiset<nat>, moved: multiset<nat>, more: multiset<nat>)
    requires f < |own| && g < |own| && kept + moved <= own[f] && more <= own[f := kept][g] + moved
    ensures Within(own[f := kept][g := more], bits, own, bits)
  {
    hide Claimed;
    var mid := own[f := kept];
    var now := mid[g := more];
    forall p: nat ensures Owners(now, bits, p) <= Owners(own, bits, p) {
      ClaimedUpdate(own, f, kept, p);
      ClaimedUpdate(mid, g, more, p);
      SumWithin(kept, moved, own[f], p);
      assert more[p] <= (mid[g] + moved)[p];
    }
  }

  // ---- Claims of extent tables ----

  lemma {:induction false} RunCount(a: nat, n: nat, p: nat)
    ensures Run(a, n)[p] == if a <= p < a + n then 1 else 0
    decreases n
  {
    if n > 0 {
      RunCount(a, n - 1, p);
    }
  }

  predicate AllFit(bits: seq<bool>, out: seq<Xad>) {
    forall i :: 0 <= i < |out| && out[i].length > 0 ==> out[i].address + out[i].length <= |bits|
  }

  /** Freeing the extents of a list sets exactly their blocks. */
  lemma FreedBits(bits: seq<bool>, out: seq<Xad>)
    requires AllFit(bits, out)
    ensures forall p: nat :: p < |bits| ==> FreeAll(bits, FreedOf(out))[p] == (bits[p] || p in BlocksOf(out))
  {
    hide BlocksOf, FreedOf, FreeAll, AllFit;
    forall p: nat | p < |bits| ensures FreeAll(bits, FreedOf(out))[p] == (bits[p] || p in BlocksOf(out)) {
      FreedBit(bits, out, p);
    }
  }

  lemma {:induction false} FreedBit(bits: seq<bool>, out: seq<Xad>, p: nat)
    requires p < |bits| && AllFit(bits, out)
    ensures FreeAll(bits, FreedOf(out))[p] == (bits[p] || p in BlocksOf(out))
    decreases |out|
  {
    hide BlocksOf, FreedOf, FreeAll, Run;
    NoBlocks();
    OutOne(EMPTY_SLOT);
    if out == [] {
      FreeAllStep(bits, [], Chunk(0, 0));
    } else {
      var n := |out| - 1;
      var init, x := out[..n], out[n];
      assert forall i :: 0 <= i < n ==> init[i] == out[i];
      FreedBit(bits, init, p);
      assert out == init + [x];
      BlocksOfAppend(init, [x]);
      BlocksOfOne(x);
      OutAppend(init, [x]);
      OutOne(x);
      FreeAllStep(bits, FreedOf(init), Chunk(x.address, x.length));
      RunCount(x.address, x.length, p);
    }
  }

  lemma FreeAllStep(bits: seq<bool>, cs: seq<Chunk>, c: Chunk)
    ensures FreeAll(bits, []) == bits
    ensures FreeAll(bits, cs + [c]) == if Fits(bits, c) then Fill(FreeAll(bits, cs), c, true) else FreeAll(bits, cs)
  {
    assert (cs + [c])[..|cs|] == cs;
  }

  /** Extents that a file gives up lie inside the volume. */
  lemma OutFits(own: seq<multiset<nat>>, bits: seq<bool>, f: nat, kept: multiset<nat>, out: seq<Xad>)
    requires Owned(own, bits) && f < |own| && kept + BlocksOf(out) <= own[f]
    ensures AllFit(bits, out)
  {
    hide Owned, BlocksOf;
    forall i: nat | i < |out| && out[i].length > 0 ensures out[i].address + out[i].length <= |bits| {
      var p := out[i].address + out[i].length - 1;
      PhysClaimed(out, i, p);
      SumWithin(kept, BlocksOf(out), own[f], p);
      OwnedMeans(own, bits, f, p);
    }
  }

  /** Slots that do not fit the root give up their blocks. */
  lemma StoredBlocks(kept: seq<Xad>)
    ensures BlocksOf(Stored(kept)) <= BlocksOf(kept)
  {
    hide BlocksOf;
    var k := |Stored(kept)|;
    BlocksOfAppend(kept[..k], kept[k..]);
    assert kept == kept[..k] + kept[k..] && Stored(kept) == kept[..k];
  }

  /** The physical block of a mapped block is one of the claimed blocks. */
  lemma {:induction false} PhysClaimed(es: seq<Xad>, i: nat, p: nat)
    requires i < |es| && es[i].address <= p < es[i].address + es[i].length
    ensures p in BlocksOf(es)
    decreases |es|
  {
    hide Run;
    var n := |es| - 1;
    RunCount(es[n].address, es[n].length, p);
    if i < n {
      PhysClaimed(es[..n], i, p);
    }
  }

  lemma {:induction false} ClaimedTwice(es: seq<Xad>, i: nat, j: nat, p: nat)
    requires i < j < |es| && es[i].address <= p < es[i].address + es[i].length
    requires es[j].address <= p < es[j].address + es[j].length
    ensures BlocksOf(es)[p] >= 2
    decreases |es|
  {
    hide Run;
    var n := |es| - 1;
    RunCount(es[n].address, es[n].length, p);
    if j < n {
      ClaimedTwice(es[..n], i, j, p);
    } else {
      PhysClaimed(es[..n], i, p);
    }
  }

  lemma MappedClaimed(es: seq<Xad>, b: int)
    requires Phys(es, b).Some?
    ensures Phys(es, b).value in BlocksOf(es)
  {
    hide BlocksOf, Find;
    var i: nat :| i < |es| && es[i] == Find(es, b).value;
    PhysClaimed(es, i, Phys(es, b).value);
  }

  /** A file that claims no block twice maps no two of its blocks to the same one. */
  lemma ClaimsInjective(es: seq<Xad>, b: int, c: int)
    requires forall p: nat :: BlocksOf(es)[p] <= 1
    requires Phys(es, b).Some? && Phys(es, b) == Phys(es, c)
    ensures b == c
  {
    hide BlocksOf, Find;
    var p := Phys(es, b).value;
    var i: nat :| i < |es| && es[i] == Find(es, b).value;
    var j: nat :| j < |es| && es[j] == Find(es, c).value;
    if i < j { ClaimedTwice(es, i, j, p); }
    if j < i { ClaimedTwice(es, j, i, p); }
  }

  // ---- Cutting and growing a claimed table ----

  /** What a cut keeps and what it frees are together no more than the table claimed. */
  lemma CutClaims(c: Cut, es: seq<Xad>)
    requires Ordered(c) && AllInSpace(es) && AllHandled(c, es)
    ensures BlocksOf(Stored(All(c, es).kept)) + BlocksOf(All(c, es).out) <= BlocksOf(es)
  {
    hide All, BlocksOf, Stored;
    AllConserves(c, es);
    StoredBlocks(All(c, es).kept);
  }

  lemma RunPrefix(a: nat, m: nat, n: nat)
    requires m <= n
    ensures Run(a, m) <= Run(a, n)
  {
    hide Run;
    RunSplit(a, m, n - m);
  }

  /** A run added to a table claims no more than its blocks, also when a merged length overflows its field. */
  lemma GrowClaims(es: seq<Xad>, off: nat, len: nat, addr: nat)
    requires Inserted(es, off, len, addr).Some? && addr < TWO40
    ensures BlocksOf(Inserted(es, off, len, addr).value) <= BlocksOf(es) + Run(addr, len)
  {
    hide BlocksOf, Run;
    if Continues(es, off, addr) {
      var n := |es| - 1;
      var init, x := es[..n], es[n];
      var y := SetLength(x, x.length + len);
      assert es == init + [x] && es[n := y] == init + [y];
      BlocksOfAppend(init, [x]);
      BlocksOfAppend(init, [y]);
      BlocksOfOne(x);
      BlocksOfOne(y);
      RunSplit(x.address, x.length, len);
      RunPrefix(x.address, y.length, x.length + len);
    } else {
      var y := Xad(1, off % TWO40, len % TWO24, addr);
      BlocksOfAppend(es, [y]);
      BlocksOfOne(y);
      RunPrefix(addr, y.length, len);
    }
  }

  // ---- Punching ----

  /** The position of the pieces of one extent among the kept slots. */
  lemma {:induction false} FirstSpan(es: seq<Xad>, start: nat, end: nat, k: nat) returns (i: nat)
    requires k < |es| && Spans(es[k], start, end)
    ensures i <= k && Spans(es[i], start, end) && !SomeSpan(es[..i], start, end)
  {
    hide Spans;
    if SomeSpan(es[..k], start, end) {
      var j: nat :| j < k && Spans(es[..k][j], start, end);
      i := FirstSpan(es, start, end, j);
    } else {
      i := k;
    }
  }

  /** A split extent is harmless only as the last one of a root that it overflows: its right piece is dropped. */
  predicate PunchSafe(es: seq<Xad>, start: nat, end: nat)
    requires start < end
  {
    forall k :: 0 <= k < |es| && Spans(es[k], start, end) ==> k == |es| - 1 && |All(Punch(start, end), es).kept| > SLOTS
  }

  /** Then the punched root is the one a take would have left. */
  lemma SafePunchIsTake(es: seq<Xad>, start: nat, end: nat)
    requires start < end && |es| <= SLOTS && AllInSpace(es) && PunchSafe(es, start, end)
    ensures Stored(All(Punch(start, end), es).kept) == Stored(All(Take(start, end), es).kept)
    ensures All(Punch(start, end), es).out == All(Take(start, end), es).out
  {
    hide One, InSpace, Spans, LiveCount, All, Stored;
    PunchIsTake(start, end, es);
    if SomeSpan(es, start, end) {
      var k: nat :| k < |es| && Spans(es[k], start, end);
      var n := |es| - 1;
      var init := es[..n];
      assert forall i :: 0 <= i < n ==> init[i] == es[i];
      assert AllHandled(Punch(start, end), init);
      PunchIsTake(start, end, init);
      KeptWithoutSpan(Punch(start, end), init);
      LastSplit(es[n], start, end);
      AllStep(Punch(start, end), es, n);
      AllStep(Take(start, end), es, n);
      assert es[..n + 1] == es;
      SameFront(All(Take(start, end), init).kept, One(Punch(start, end), es[n]).kept, One(Take(start, end), es[n]).kept);
    } else {
      assert AllHandled(Punch(start, end), es);
    }
  }

  lemma SameFront(a: seq<Xad>, p: seq<Xad>, q: seq<Xad>)
    requires |a| == SLOTS - 1 && |p| == |q| == 2 && p[0] == q[0]
    ensures Stored(a + p) == Stored(a + q)
  {
    assert (a + p)[..SLOTS] == a + [p[0]] == (a + q)[..SLOTS];
  }

  lemma LastSplit(x: Xad, start: nat, end: nat)
    requires start < end && InSpace(x) && Spans(x, start, end)
    ensures var p, q := One(Punch(start, end), x).kept, One(Take(start, end), x).kept; |p| == |q| == 2 && p[0] == q[0]
  {
    hide SetLength, SetOffset, SetAddress;
  }
}

/**
 The block allocator: a bitmap of free blocks, a free count, and lists of what was allocated and freed
 since the last commit, from which a rollback undoes both.
 */
module Allocator {
  import opened Bytes
  import opened Extents

  /** What the allocator holds; `true` in the map stands for a free block. */
  datatype State = State(bits: seq<bool>, nfree: int, given: seq<Chunk>, freed: seq<Chunk>)

  datatype Change = Allocated(c: Chunk) | Released(c: Chunk)

  predicate In(c: Chunk, b: int) {
    c.address <= b < c.address + c.length
  }

  predicate InAny(cs: seq<Chunk>, b: int) {
    exists i :: 0 <= i < |cs| && In(cs[i], b)
  }

  predicate Fits(m: seq<bool>, c: Chunk) {
    c.address + c.length <= |m|
  }

  /** All blocks of the chunk are inside the map and have the given state. */
  predicate AllAre(m: seq<bool>, c: Chunk, free: bool) {
    Fits(m, c) && forall b :: c.address <= b < c.address + c.length ==> m[b] == free
  }

  /** The map with one chunk set. */
  function Fill(m: seq<bool>, c: Chunk, free: bool): (r: seq<bool>)
    ensures |r| == |m|
    ensures forall b :: 0 <= b < |m| ==> r[b] == if In(c, b) then free else m[b]
  {
    seq(|m|, b requires 0 <= b < |m| => if In(c, b) then free else m[b])
  }

  function FillAll(m: seq<bool>, cs: seq<Chunk>, free: bool): (r: seq<bool>)
    ensures |r| == |m|
    decreases |cs|
  {
    if cs == [] then m else Fill(FillAll(m, cs[..|cs| - 1], free), cs[|cs| - 1], free)
  }

  /** The map after a list of chunks is given back; a chunk that reaches beyond the map is refused. */
  function FreeAll(m: seq<bool>, cs: seq<Chunk>): (r: seq<bool>)
    ensures |r| == |m|
    decreases |cs|
  {
    if cs == [] then m else
    var before, c := FreeAll(m, cs[..|cs| - 1]), cs[|cs| - 1];
    if Fits(m, c) then Fill(before, c, true) else before
  }

  /** The map after the same chunks are taken back by a rollback. */
  function Reclaim(m: seq<bool>, cs: seq<Chunk>): (r: seq<bool>)
    ensures |r| == |m|
    ensures forall p :: 0 <= p < |m| && r[p] ==> m[p]
    decreases |cs|
  {
    if cs == [] then m else
    var before, c := Reclaim(m, cs[..|cs| - 1]), cs[|cs| - 1];
    if Fits(m, c) then Fill(before, c, false) else before
  }

  function Total(cs: seq<Chunk>): nat
    decreases |cs|
  {
    if cs == [] then 0 else Total(cs[..|cs| - 1]) + cs[|cs| - 1].length
  }

  function FreeCount(m: seq<bool>): (n: nat)
    ensures n <= |m|
    decreases |m|
  {
    if m == [] then 0 else FreeCount(m[..|m| - 1]) + if m[|m| - 1] then 1 else 0
  }

  function SaturatingSub(a: int, b: nat): int {
    if a >= b then a - b else 0
  }

  /** An allocation hands out free blocks; a release only has to lie inside the map. */
  predicate Legal(s: State, e: Change) {
    match e
    case Allocated(c) => c.length > 0 && AllAre(s.bits, c, true)
    case Released(c) => Fits(s.bits, c)
  }

  function Step(s: State, e: Change): State {
    match e
    case Allocated(c) =>
      State(Fill(s.bits, c, false), SaturatingSub(s.nfree, c.length), s.given + [c], s.freed)
    case Released(c) =>
      State(Fill(s.bits, c, true), s.nfree + c.length, s.given, s.freed + [c])
  }

  function Steps(s: State, es: seq<Change>): State
    decreases |es|
  {
    if es == [] then s else Step(Steps(s, es[..|es| - 1]), es[|es| - 1])
  }

  predicate AllLegal(s: State, es: seq<Change>)
    decreases |es|
  {
    es == [] || (AllLegal(s, es[..|es| - 1]) && Legal(Steps(s, es[..|es| - 1]), es[|es| - 1]))
  }

  function Committed(s: State): State {
    s.(given := [], freed := [])
  }

  /** All allocations are undone first, then all releases. */
  function Undone(s: State): State {
    State(FillAll(FillAll(s.bits, s.given, true), s.freed, false),
          s.nfree + Total(s.given) - Total(s.freed), [], [])
  }

  // ---- The free count ----

  lemma {:induction false} CountUpdate(m: seq<bool>, i: nat, v: bool)
    requires i < |m|
    ensures FreeCount(m[i := v]) == FreeCount(m) - (if m[i] then 1 else 0) + (if v then 1 else 0)
    decreases |m|
  {
    var n := |m| - 1;
    if i < n {
      CountUpdate(m[..n], i, v);
      assert m[i := v][..n] == m[..n][i := v];
    } else {
      assert m[i := v][..n] == m[..n];
    }
  }

  /** Setting a chunk moves the count by the number of blocks that change. */
  lemma {:induction false} CountFill(m: seq<bool>, c: Chunk, v: bool)
    requires Fits(m, c)
    ensures v ==> FreeCount(m) <= FreeCount(Fill(m, c, v)) <= FreeCount(m) + c.length
    ensures v ==> (FreeCount(Fill(m, c, v)) == FreeCount(m) + c.length <==> AllAre(m, c, false))
    ensures !v && AllAre(m, c, true) ==> FreeCount(Fill(m, c, v)) == FreeCount(m) - c.length
    decreases c.length
  {
    hide FreeCount;
    if c.length == 0 {
      assert Fill(m, c, v) == m;
    } else {
      var d := c.(length := c.length - 1);
      var last := c.address + c.length - 1;
      CountFill(m, d, v);
      CountUpdate(Fill(m, d, v), last, v);
      assert Fill(m, c, v) == Fill(m, d, v)[last := v];
      assert Fill(m, d, v)[last] == m[last];
    }
  }

  /** The count is never below the number of free blocks. */
  lemma {:induction false} CountCovers(s: State, es: seq<Change>)
    requires AllLegal(s, es) && s.nfree >= FreeCount(s.bits)
    ensures Steps(s, es).nfree >= FreeCount(Steps(s, es).bits) && |Steps(s, es).bits| == |s.bits|
    ensures Steps(s, es).nfree - FreeCount(Steps(s, es).bits) >= s.nfree - FreeCount(s.bits)
    decreases |es|
  {
    hide FreeCount, AllAre, Fill;
    if es != [] {
      var init, e := es[..|es| - 1], es[|es| - 1];
      CountCovers(s, init);
      CountStep(Steps(s, init), e);
    }
  }

  lemma CountStep(s: State, e: Change)
    requires Legal(s, e) && s.nfree >= FreeCount(s.bits)
    ensures Step(s, e).nfree - FreeCount(Step(s, e).bits) >= s.nfree - FreeCount(s.bits)
    ensures Step(s, e).nfree - FreeCount(Step(s, e).bits) == s.nfree - FreeCount(s.bits)
       <==> (e.Allocated? || AllAre(s.bits, e.c, false))
    ensures Step(s, e).nfree == if e.Allocated? then s.nfree - e.c.length else s.nfree + e.c.length
  {
    hide FreeCount, Fill;
    CountFill(s.bits, e.c, e.Released?);
  }

  /** Every release of the run hit only blocks that were in use. */
  predicate ReleasesUsed(s: State, es: seq<Change>)
    decreases |es|
  {
    es == [] ||
    (ReleasesUsed(s, es[..|es| - 1]) &&
     (es[|es| - 1].Allocated? || AllAre(Steps(s, es[..|es| - 1]).bits, es[|es| - 1].c, false)))
  }

  /** The free count equals the number of free blocks after a run exactly when no block was freed twice. */
  lemma {:induction false} CountExact(s: State, es: seq<Change>)
    requires AllLegal(s, es) && s.nfree == FreeCount(s.bits)
    ensures Steps(s, es).nfree == FreeCount(Steps(s, es).bits) <==> ReleasesUsed(s, es)
    decreases |es|
  {
    hide FreeCount, AllAre, Fill, Step, Legal;
    if es != [] {
      var init, e := es[..|es| - 1], es[|es| - 1];
      CountExact(s, init);
      CountCovers(s, init);
      CountStep(Steps(s, init), e);
    }
  }

  // ---- Rollback ----

  lemma {:induction false} FillAllAt(m: seq<bool>, cs: seq<Chunk>, v: bool, b: nat)
    requires b < |m|
    ensures FillAll(m, cs, v)[b] == if InAny(cs, b) then v else m[b]
    decreases |cs|
  {
    if cs != [] {
      var n := |cs| - 1;
      FillAllAt(m, cs[..n], v, b);
      InAnyAppend(cs[..n], cs[n], b);
      assert cs[..n] + [cs[n]] == cs;
    }
  }

  lemma InAnyAppend(cs: seq<Chunk>, c: Chunk, b: int)
    ensures InAny(cs + [c], b) <==> InAny(cs, b) || In(c, b)
  {
    if InAny(cs, b) {
      var i :| 0 <= i < |cs| && In(cs[i], b);
      assert (cs + [c])[i] == cs[i];
    }
    if In(c, b) {
      assert (cs + [c])[|cs|] == c;
    }
  }

  /** What the lists say about a block: untouched blocks are as they were, and one that was only allocated was free. */
  ghost predicate Traced(s: State, t: State, b: nat)
    requires b < |s.bits| == |t.bits|
  {
    && (!InAny(t.given, b) && !InAny(t.freed, b) ==> t.bits[b] == s.bits[b])
    && (InAny(t.given, b) && !InAny(t.freed, b) ==> s.bits[b] && !t.bits[b])
  }

  lemma {:induction false} RunTraced(s: State, es: seq<Change>, b: nat)
    requires AllLegal(s, es) && s.given == s.freed == [] && b < |s.bits|
    ensures |Steps(s, es).bits| == |s.bits| && Traced(s, Steps(s, es), b)
    decreases |es|
  {
    hide InAny;
    if es == [] {
      InAnyNone(b);
    } else {
      var init, e := es[..|es| - 1], es[|es| - 1];
      RunTraced(s, init, b);
      var t := Steps(s, init);
      InAnyAppend(t.given, e.c, b);
      InAnyAppend(t.freed, e.c, b);
    }
  }

  lemma InAnyNone(b: int)
    ensures !InAny([], b)
  {
  }

  lemma {:induction false} RunTotals(s: State, es: seq<Change>)
    requires AllLegal(s, es) && s.nfree >= FreeCount(s.bits)
    ensures Steps(s, es).nfree + Total(Steps(s, es).given) - Total(Steps(s, es).freed)
         == s.nfree + Total(s.given) - Total(s.freed)
    decreases |es|
  {
    hide FreeCount, AllAre, Fill;
    if es != [] {
      var init, e := es[..|es| - 1], es[|es| - 1];
      RunTotals(s, init);
      CountCovers(s, init);
      CountStep(Steps(s, init), e);
      TotalAppend(Steps(s, init).given, e.c);
      TotalAppend(Steps(s, init).freed, e.c);
    }
  }

  lemma TotalAppend(cs: seq<Chunk>, c: Chunk)
    ensures Total(cs + [c]) == Total(cs) + c.length
  {
    assert (cs + [c])[..|cs|] == cs;
  }

  /** No block released since the last commit was free at that commit. */
  ghost predicate NoneReallocated(s: State, t: State) {
    forall b: nat :: b < |s.bits| && InAny(t.freed, b) ==> !s.bits[b]
  }

  /**
   A rollback restores the bitmap and the count of the last commit, whatever the interleaving of
   allocations and releases since then, exactly when no released block was free at that commit.
   */
  lemma RollbackRestores(s: State, es: seq<Change>)
    requires AllLegal(s, es) && s.given == s.freed == [] && s.nfree >= FreeCount(s.bits)
    ensures Undone(Steps(s, es)) == s <==> NoneReallocated(s, Steps(s, es))
    ensures Undone(Steps(s, es)).nfree == s.nfree
  {
    hide FreeCount, AllLegal, Steps, FillAll, InAny, Total;
    var t := Steps(s, es);
    RunTotals(s, es);
    TotalNone();
    CountCovers(s, es);
    RollbackBits(s, es);
    if NoneReallocated(s, t) {
      assert Undone(t).bits == s.bits;
    }
  }

  /** After a rollback a block is as it was at the commit, except that released blocks are in use. */
  lemma RollbackBits(s: State, es: seq<Change>)
    requires AllLegal(s, es) && s.given == s.freed == []
    ensures |Undone(Steps(s, es)).bits| == |s.bits|
    ensures forall b: nat :: b < |s.bits| ==> Undone(Steps(s, es)).bits[b] == if InAny(Steps(s, es).freed, b) then false else s.bits[b]
  {
    hide AllLegal, Steps, FillAll, InAny, Total;
    var t := Steps(s, es);
    StepsLength(s, es);
    var m := FillAll(t.bits, t.given, true);
    forall b: nat | b < |s.bits|
      ensures Undone(t).bits[b] == if InAny(t.freed, b) then false else s.bits[b]
    {
      RunTraced(s, es, b);
      FillAllAt(t.bits, t.given, true, b);
      FillAllAt(m, t.freed, false, b);
    }
  }

  lemma {:induction false} StepsLength(s: State, es: seq<Change>)
    ensures |Steps(s, es).bits| == |s.bits|
    decreases |es|
  {
    if es != [] {
      StepsLength(s, es[..|es| - 1]);
    }
  }

  lemma TotalNone()
    ensures Total([]) == 0
  {
  }

  /** When every release hit blocks in use, a released block was free at the commit only if it was allocated since. */
  lemma {:induction false} ReallocatedMeans(s: State, es: seq<Change>, b: nat)
    requires AllLegal(s, es) && s.given == s.freed == [] && ReleasesUsed(s, es) && b < |s.bits|
    ensures InAny(Steps(s, es).freed, b) && s.bits[b] ==> InAny(Steps(s, es).given, b)
    decreases |es|
  {
    hide InAny;
    InAnyNone(b);
    if es != [] {
      var init, e := es[..|es| - 1], es[|es| - 1];
      ReallocatedMeans(s, init, b);
      RunTraced(s, init, b);
      var t := Steps(s, init);
      InAnyAppend(t.given, e.c, b);
      InAnyAppend(t.freed, e.c, b);
    }
  }

  /** Blocks that are allocated and released again after a commit come out of the rollback in use. */
  lemma RollbackLeak(s: State, c: Chunk)
    requires s.given == s.freed == [] && s.nfree >= FreeCount(s.bits) && Legal(s, Allocated(c))
    ensures var es := [Allocated(c), Released(c)];
            AllLegal(s, es) && Undone(Steps(s, es)) != s && Steps(s, es).bits == s.bits
  {
    hide FreeCount, Undone;
    var e, f := Allocated(c), Released(c);
    var es := [e, f];
    StepsAppend(s, [], e);
    assert [] + [e] == [e] && [e] + [f] == es;
    StepsAppend(s, [e], f);
    RollbackRestores(s, es);
    var t := Steps(s, es);
    assert t.freed == [c];
    assert In(t.freed[0], c.address);
    assert s.bits[c.address];
  }

  lemma StepsAppend(s: State, es: seq<Change>, e: Change)
    ensures Steps(s, []) == s && AllLegal(s, [])
    ensures Steps(s, es + [e]) == Step(Steps(s, es), e)
    ensures AllLegal(s, es + [e]) <==> AllLegal(s, es) && Legal(Steps(s, es), e)
  {
    assert (es + [e])[..|es|] == es;
  }

  // ---- First fit ----

  function FitFrom(bits: seq<bool>, n: nat, from: nat): Option<nat>
    decreases |bits| - from
  {
    if from >= |bits| then None
    else if AllAre(bits, Chunk(from, n), true) then Some(from)
    else FitFrom(bits, n, from + 1)
  }

  /** The run the allocator chooses: the first at or behind the hint, or else the first of all. */
  function FirstFit(bits: seq<bool>, n: nat, hint: nat): Option<nat> {
    if FitFrom(bits, n, hint).Some? then FitFrom(bits, n, hint) else FitFrom(bits, n, 0)
  }

  lemma {:induction false} FitFromLeast(bits: seq<bool>, n: nat, from: nat)
    requires n > 0
    ensures var r := FitFrom(bits, n, from);
            && (r.Some? ==> from <= r.value && AllAre(bits, Chunk(r.value, n), true))
            && (forall s: nat :: from <= s && (r.Some? ==> s < r.value) ==> !AllAre(bits, Chunk(s, n), true))
    decreases |bits| - from
  {
    hide AllAre;
    if from >= |bits| {
      PastEnd(bits, n, from);
    } else if !AllAre(bits, Chunk(from, n), true) {
      FitFromLeast(bits, n, from + 1);
    }
  }

  /** First fit is the only run with the properties the allocator promises. */
  lemma FirstFitUnique(bits: seq<bool>, n: nat, hint: nat, s: nat)
    requires n > 0 && AllAre(bits, Chunk(s, n), true)
    requires forall t: nat :: (if s >= hint then hint <= t < s else t < s || hint <= t) ==> !AllAre(bits, Chunk(t, n), true)
    ensures FirstFit(bits, n, hint) == Some(s)
  {
    hide AllAre, FitFrom;
    FitFromLeast(bits, n, hint);
    FitFromLeast(bits, n, 0);
  }

  lemma FirstFitNone(bits: seq<bool>, n: nat, hint: nat)
    requires n > 0 && forall s: nat :: !AllAre(bits, Chunk(s, n), true)
    ensures FirstFit(bits, n, hint) == None
  {
    hide AllAre, FitFrom;
    FitFromLeast(bits, n, hint);
    FitFromLeast(bits, n, 0);
  }

  lemma FirstFitLegal(bits: seq<bool>, n: nat, hint: nat)
    requires n > 0 && FirstFit(bits, n, hint).Some?
    ensures AllAre(bits, Chunk(FirstFit(bits, n, hint).value, n), true)
  {
    hide AllAre, FitFrom;
    FitFromLeast(bits, n, hint);
    FitFromLeast(bits, n, 0);
  }

  // ---- The allocator ----

  datatype Result<+T> = Ok(value: T) | InvalidCount | NoSpace | BeyondEnd

  class BlockAllocMap {
    const freeMap: array<bool>
    var nfree: int
    var given: seq<Chunk>
    var freed: seq<Chunk>

    ghost function Model(): State
      reads this, freeMap
    {
      State(freeMap[..], nfree, given, freed)
    }

    constructor (bits: seq<bool>, count: int)
      ensures fresh(freeMap) && Model() == State(bits, count, [], [])
    {
      nfree, given, freed := count, [], [];
      freeMap := new bool[|bits|](i requires 0 <= i < |bits| => bits[i]);
    }

    /** The least start at or behind `from` of a run of free blocks; none only if there is no such run. */
    method FindFreeRun(n: nat, from: nat) returns (r: Option<nat>)
      requires n > 0
      ensures r.Some? ==> from <= r.value && AllAre(freeMap[..], Chunk(r.value, n), true)
      ensures forall s: nat :: from <= s && (r.Some? ==> s < r.value) ==> !AllAre(freeMap[..], Chunk(s, n), true)
    {
      hide AllAre;
      var runStart, runLen, blk := from, 0, from;
      NoRunYet(freeMap[..], from, n, from);
      while blk < freeMap.Length
        invariant from <= blk && runLen < n && (runLen > 0 ==> runStart + runLen == blk && from <= runStart)
        invariant blk <= freeMap.Length || runLen == 0
        invariant forall b :: blk - runLen <= b < blk && b < freeMap.Length ==> freeMap[b]
        invariant forall s: nat :: from <= s < blk - runLen ==> !AllAre(freeMap[..], Chunk(s, n), true)
      {
        if freeMap[blk] {
          if runLen == 0 {
            runStart := blk;
          }
          runLen := runLen + 1;
          if runLen >= n {
            RunFound(freeMap[..], Chunk(runStart, n));
            return Some(runStart);
          }
        } else {
          UsedBlocks(freeMap[..], blk, n);
          runLen := 0;
        }
        blk := blk + 1;
      }
      PastEnd(freeMap[..], n, blk - runLen);
      r := None;
    }

    /** Allocates the first run at or behind the hint, or else the first of all; fails only if there is none. */
    method AllocExtent(n: nat, hint: nat) returns (r: Result<Chunk>)
      modifies this, freeMap
      ensures r.InvalidCount? <==> n == 0 || n > freeMap.Length
      ensures r.NoSpace? ==> forall s: nat :: !AllAre(old(freeMap[..]), Chunk(s, n), true)
      ensures !r.Ok? ==> Model() == old(Model()) && !r.BeyondEnd?
      ensures r.Ok? ==> r.value.length == n && Legal(old(Model()), Allocated(r.value))
      ensures r.Ok? ==> Model() == Step(old(Model()), Allocated(r.value))
      ensures r.Ok? ==> nfree == (if old(nfree) >= n then old(nfree) - n else 0) && given == old(given) + [r.value] && freed == old(freed)
      ensures r.Ok? ==> forall b :: 0 <= b < freeMap.Length ==>
                freeMap[b] == (old(freeMap[b]) && !(r.value.address <= b < r.value.address + n))
      ensures r.Ok? ==> FirstFit(old(freeMap[..]), n, hint) == Some(r.value.address)
      ensures n > 0 && !r.Ok? ==> FirstFit(old(freeMap[..]), n, hint) == None
    {
      hide AllAre, FirstFit;
      if n == 0 || n > freeMap.Length {
        if n > 0 {
          PastEnd(freeMap[..], n, 0);
          FirstFitNone(freeMap[..], n, hint);
        }
        return InvalidCount;
      }
      var first := FindFreeRun(n, hint);
      var start := 0;
      match first {
        case Some(s) => start := s;
        case None =>
          var again := FindFreeRun(n, 0);
          if again.None? {
            FirstFitNone(freeMap[..], n, hint);
            return NoSpace;
          }
          start := again.value;
      }
      FitsRun(freeMap[..], Chunk(start, n));
      FirstFitUnique(freeMap[..], n, hint, start);
      SetRun(start, n, false);
      nfree := SaturatingSub(nfree, n);
      given := given + [Chunk(start, n)];
      r := Ok(Chunk(start, n));
    }

    /** Sets the state of a run of blocks, one by one. */
    method SetRun(start: nat, n: nat, free: bool)
      modifies freeMap
      ensures freeMap[..] == Fill(old(freeMap[..]), Chunk(start, n), free)
    {
      var i := 0;
      while i < n
        invariant i <= n
        invariant forall b :: 0 <= b < freeMap.Length ==>
                    freeMap[b] == if In(Chunk(start, i), b) then free else old(freeMap[b])
      {
        if start + i < freeMap.Length {
          freeMap[start + i] := free;
        }
        i := i + 1;
      }
    }

    /** Gives a chunk back; one that reaches beyond the map is refused. */
    method FreeExtent(c: Chunk) returns (r: Result<()>)
      modifies this, freeMap
      ensures r.Ok? <==> Legal(old(Model()), Released(c))
      ensures r.Ok? ==> Model() == Step(old(Model()), Released(c))
      ensures r.Ok? <==> c.address + c.length <= freeMap.Length
      ensures r.Ok? ==> nfree == old(nfree) + c.length && given == old(given) && freed == old(freed) + [c]
      ensures r.Ok? ==> forall b :: 0 <= b < freeMap.Length ==>
                freeMap[b] == (old(freeMap[b]) || c.address <= b < c.address + c.length)
      ensures !r.Ok? ==> r.BeyondEnd? && Model() == old(Model())
    {
      if c.address + c.length > freeMap.Length {
        return BeyondEnd;
      }
      SetRun(c.address, c.length, true);
      nfree := nfree + c.length;
      freed := freed + [c];
      r := Ok(());
    }

    /** Forgets what could be rolled back. */
    method Commit()
      modifies this
      ensures Model() == Committed(old(Model()))
    {
      given, freed := [], [];
    }

    method Rollback()
      modifies this, freeMap
      ensures Model() == Undone(old(Model()))
    {
      hide Fill, FillAll, Total;
      ghost var m := freeMap[..];
      var i := 0;
      FillAllStep(m, given, true, 0);
      while i < |given|
        invariant i <= |given| && given == old(given) && freed == old(freed)
        invariant freeMap[..] == FillAll(m, given[..i], true) && nfree == old(nfree) + Total(given[..i])
      {
        FillAllStep(m, given, true, i);
        SetRun(given[i].address, given[i].length, true);
        nfree := nfree + given[i].length;
        i := i + 1;
      }
      assert given[..i] == given;
      m := freeMap[..];
      FillAllStep(m, freed, false, 0);
      i := 0;
      while i < |freed|
        invariant i <= |freed| && given == old(given) && freed == old(freed)
        invariant freeMap[..] == FillAll(m, freed[..i], false)
        invariant nfree == old(nfree) + Total(given) - Total(freed[..i])
      {
        FillAllStep(m, freed, false, i);
        SetRun(freed[i].address, freed[i].length, false);
        nfree := nfree - freed[i].length;
        i := i + 1;
      }
      assert freed[..i] == freed;
      given, freed := [], [];
    }
  }

  lemma FillAllStep(m: seq<bool>, cs: seq<Chunk>, v: bool, i: nat)
    requires i <= |cs|
    ensures i == 0 ==> FillAll(m, cs[..i], v) == m && Total(cs[..i]) == 0
    ensures i < |cs| ==> FillAll(m, cs[..i + 1], v) == Fill(FillAll(m, cs[..i], v), cs[i], v)
    ensures i < |cs| ==> Total(cs[..i + 1]) == Total(cs[..i]) + cs[i].length
  {
    assert i < |cs| ==> cs[..i + 1][..i] == cs[..i];
  }

  lemma RunFound(m: seq<bool>, c: Chunk)
    requires Fits(m, c) && forall b :: c.address <= b < c.address + c.length ==> m[b]
    ensures AllAre(m, c, true)
  {
  }

  lemma FitsRun(m: seq<bool>, c: Chunk)
    ensures AllAre(m, c, true) ==> Fits(m, c)
  {
  }

  lemma NoRunYet(m: seq<bool>, from: nat, n: nat, blk: nat)
    requires n > 0
    ensures |m| <= blk ==> forall s: nat :: blk <= s ==> !AllAre(m, Chunk(s, n), true)
  {
  }

  lemma UsedBlocks(m: seq<bool>, blk: nat, n: nat)
    requires blk < |m| && !m[blk]
    ensures forall s: nat :: s <= blk < s + n ==> !AllAre(m, Chunk(s, n), true)
  {
  }

  lemma PastEnd(m: seq<bool>, n: nat, from: int)
    requires from + n > |m|
    ensures forall s: nat :: from <= s ==> !AllAre(m, Chunk(s, n), true)
  {
  }
}

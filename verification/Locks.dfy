/**
 Advisory locks: byte-range locks per inode and whole-file locks per inode, each kept as a list that
 requests rewrite. What they promise is stated on the bytes they cover.
 */
module Locks {
  import opened Bytes

  const TWO64 := 0x1_0000_0000_0000_0000
  const U64_MAX := TWO64 - 1
  const F_RDLCK := 0
  const F_WRLCK := 1
  const F_UNLCK := 2
  const SEEK_END := 2

  datatype PosixLock = PosixLock(kind: int, start: nat, end: nat, owner: nat)

  /** A request in terms of a position in the file; the length may be open. */
  datatype Request = Request(kind: int, whence: int, start: int, len: int)

  predicate Covers(l: PosixLock, b: nat) {
    l.start <= b < l.end
  }

  predicate Overlaps(l: PosixLock, start: nat, end: nat) {
    l.start < end && start < l.end
  }

  /** Two locks may stand side by side: where they share a byte they have different owners and only read. */
  ghost predicate Compatible(l: PosixLock, m: PosixLock) {
    forall b: nat :: Covers(l, b) && Covers(m, b) ==> l.owner != m.owner && l.kind != F_WRLCK && m.kind != F_WRLCK
  }

  predicate Typed(l: PosixLock) {
    l.kind == F_RDLCK || l.kind == F_WRLCK
  }

  /** Safety of the locks of one inode. */
  ghost predicate Safe(ls: seq<PosixLock>) {
    && (forall i :: 0 <= i < |ls| ==> Typed(ls[i]))
    && (forall i, j :: 0 <= i < j < |ls| ==> Compatible(ls[i], ls[j]))
  }

  /** An existing lock stands in the way of a request. */
  predicate Blocks(l: PosixLock, start: nat, end: nat, kind: int, owner: nat) {
    Overlaps(l, start, end) && l.owner != owner && (kind == F_WRLCK || l.kind == F_WRLCK)
  }

  predicate Blocked(ls: seq<PosixLock>, start: nat, end: nat, kind: int, owner: nat) {
    exists i :: 0 <= i < |ls| && Blocks(ls[i], start, end, kind, owner)
  }

  /** The locks that stay when an owner gives up those that overlap a range. */
  function Kept(ls: seq<PosixLock>, start: nat, end: nat, owner: nat): seq<PosixLock>
    decreases |ls|
  {
    if ls == [] then [] else
    var l := ls[|ls| - 1];
    Kept(ls[..|ls| - 1], start, end, owner)
    + if l.owner != owner || l.end <= start || l.start >= end then [l] else []
  }

  /** The locks of everyone else. */
  function Others(ls: seq<PosixLock>, owner: nat): seq<PosixLock>
    decreases |ls|
  {
    if ls == [] then [] else Others(ls[..|ls| - 1], owner) + if ls[|ls| - 1].owner != owner then [ls[|ls| - 1]] else []
  }

  function WithLock(ls: seq<PosixLock>, start: nat, end: nat, kind: int, owner: nat): Option<seq<PosixLock>> {
    if Blocked(ls, start, end, kind, owner) then None
    else Some(Kept(ls, start, end, owner) + [PosixLock(kind, start, end, owner)])
  }

  // ---- Safety ----

  lemma {:induction false} KeptAre(ls: seq<PosixLock>, start: nat, end: nat, owner: nat)
    ensures forall l :: l in Kept(ls, start, end, owner) <==> l in ls && (l.owner != owner || !Overlaps(l, start, end))
    decreases |ls|
  {
    if ls != [] {
      var n := |ls| - 1;
      KeptAre(ls[..n], start, end, owner);
      assert ls == ls[..n] + [ls[n]];
    }
  }

  lemma {:induction false} OthersAre(ls: seq<PosixLock>, owner: nat)
    ensures forall l :: l in Others(ls, owner) <==> l in ls && l.owner != owner
    decreases |ls|
  {
    if ls != [] {
      var n := |ls| - 1;
      OthersAre(ls[..n], owner);
      assert ls == ls[..n] + [ls[n]];
    }
  }

  lemma SafeAppend(ls: seq<PosixLock>, l: PosixLock)
    requires Safe(ls) && Typed(l) && forall m :: m in ls ==> Compatible(m, l)
    ensures Safe(ls + [l])
  {
    hide Compatible, Typed;
  }

  lemma SafeInit(ls: seq<PosixLock>)
    requires Safe(ls) && ls != []
    ensures Safe(ls[..|ls| - 1]) && Typed(ls[|ls| - 1])
    ensures var init, l := ls[..|ls| - 1], ls[|ls| - 1]; forall m :: m in init ==> Compatible(m, l)
  {
    hide Compatible, Typed;
  }

  lemma {:induction false} KeptSafe(ls: seq<PosixLock>, start: nat, end: nat, owner: nat)
    requires Safe(ls)
    ensures Safe(Kept(ls, start, end, owner))
    decreases |ls|
  {
    hide Safe, Compatible;
    if ls == [] {
      SafeNone();
    } else {
      var n := |ls| - 1;
      SafeInit(ls);
      KeptSafe(ls[..n], start, end, owner);
      KeptAre(ls[..n], start, end, owner);
      SafeAppend(Kept(ls[..n], start, end, owner), ls[n]);
      assert Kept(ls[..n], start, end, owner) + [] == Kept(ls[..n], start, end, owner);
    }
  }

  lemma {:induction false} OthersSafe(ls: seq<PosixLock>, owner: nat)
    requires Safe(ls)
    ensures Safe(Others(ls, owner))
    decreases |ls|
  {
    hide Safe, Compatible;
    if ls == [] {
      SafeNone();
    } else {
      var n := |ls| - 1;
      SafeInit(ls);
      OthersSafe(ls[..n], owner);
      OthersAre(ls[..n], owner);
      SafeAppend(Others(ls[..n], owner), ls[n]);
      assert Others(ls[..n], owner) + [] == Others(ls[..n], owner);
    }
  }

  lemma SafeNone()
    ensures Safe([])
  {
  }

  /** A granted request keeps the locks of an inode safe, whatever its range. */
  lemma GrantedIsSafe(ls: seq<PosixLock>, start: nat, end: nat, kind: int, owner: nat)
    requires Safe(ls) && (kind == F_RDLCK || kind == F_WRLCK) && !Blocked(ls, start, end, kind, owner)
    ensures Safe(WithLock(ls, start, end, kind, owner).value)
  {
    hide Safe;
    var l := PosixLock(kind, start, end, owner);
    var kept := Kept(ls, start, end, owner);
    KeptSafe(ls, start, end, owner);
    KeptAre(ls, start, end, owner);
    forall m | m in kept ensures Compatible(m, l) {
      var i :| 0 <= i < |ls| && ls[i] == m;
      assert !Blocks(ls[i], start, end, kind, owner);
    }
    SafeAppend(kept, l);
  }

  // ---- What a request changes ----

  /** An owner holds a byte in a mode. */
  predicate Holds(ls: seq<PosixLock>, owner: nat, b: nat, kind: int) {
    exists i :: 0 <= i < |ls| && ls[i].owner == owner && ls[i].kind == kind && Covers(ls[i], b)
  }

  lemma HoldsMember(ls: seq<PosixLock>, owner: nat, b: nat, kind: int)
    ensures Holds(ls, owner, b, kind) <==> exists l :: l in ls && l.owner == owner && l.kind == kind && Covers(l, b)
  {
    if l :| l in ls && l.owner == owner && l.kind == kind && Covers(l, b) {
      var i :| 0 <= i < |ls| && ls[i] == l;
    }
  }

  /** A granted request gives the range to its owner and changes nothing for other owners. */
  lemma GrantedHolds(ls: seq<PosixLock>, start: nat, end: nat, kind: int, owner: nat, o: nat, b: nat, k: int)
    requires !Blocked(ls, start, end, kind, owner)
    ensures o != owner ==> (Holds(WithLock(ls, start, end, kind, owner).value, o, b, k) <==> Holds(ls, o, b, k))
    ensures start <= b < end ==> (Holds(WithLock(ls, start, end, kind, owner).value, owner, b, k) <==> k == kind)
  {
    hide Blocked, Holds;
    var l := PosixLock(kind, start, end, owner);
    var kept := Kept(ls, start, end, owner);
    var after := kept + [l];
    KeptAre(ls, start, end, owner);
    HoldsMember(ls, o, b, k);
    HoldsMember(after, o, b, k);
    HoldsMember(after, owner, b, k);
    assert after[|kept|] == l;
    assert forall m :: m in after <==> m in kept || m == l;
  }

  /** Every lock of an owner that is not empty and overlaps the range lies inside it. */
  predicate OwnInside(ls: seq<PosixLock>, start: nat, end: nat, owner: nat) {
    forall i :: 0 <= i < |ls| && ls[i].owner == owner && ls[i].start < ls[i].end && Overlaps(ls[i], start, end) ==>
      start <= ls[i].start && ls[i].end <= end
  }

  ghost predicate OutsideKept(ls: seq<PosixLock>, start: nat, end: nat, kind: int, owner: nat, after: seq<PosixLock>) {
    forall b: nat, k: int :: b < start || end <= b ==> (Holds(after, owner, b, k) <==> Holds(ls, owner, b, k))
  }

  /**
   A request drops the owner's overlapping locks whole. The owner keeps its bytes outside the range
   exactly when those locks lie inside it or hold no byte. The range itself may be empty.
   */
  lemma OutsideKeptWhen(ls: seq<PosixLock>, start: nat, end: nat, kind: int, owner: nat)
    requires Safe(ls) && !Blocked(ls, start, end, kind, owner)
    ensures OutsideKept(ls, start, end, kind, owner, WithLock(ls, start, end, kind, owner).value)
       <==> OwnInside(ls, start, end, owner)
  {
    hide Safe, Blocked, Holds;
    var l := PosixLock(kind, start, end, owner);
    var kept := Kept(ls, start, end, owner);
    var after := kept + [l];
    KeptAre(ls, start, end, owner);
    assert forall m :: m in after <==> m in kept || m == l;
    if OwnInside(ls, start, end, owner) {
      forall b: nat, k: int | b < start || end <= b ensures Holds(after, owner, b, k) <==> Holds(ls, owner, b, k) {
        HoldsMember(ls, owner, b, k);
        HoldsMember(after, owner, b, k);
      }
    } else {
      var i :| 0 <= i < |ls| && ls[i].owner == owner && ls[i].start < ls[i].end && Overlaps(ls[i], start, end) && !(start <= ls[i].start && ls[i].end <= end);
      var m := ls[i];
      var b := if m.start < start then m.start else end;
      HoldsMember(ls, owner, b, m.kind);
      HoldsMember(after, owner, b, m.kind);
      forall x | x in after && x.owner == owner ensures !Covers(x, b) {
        if x in kept {
          OwnDisjoint(ls, m, x, b);
        }
      }
      assert Holds(ls, owner, b, m.kind) && !Holds(after, owner, b, m.kind);
    }
  }

  lemma OwnDisjoint(ls: seq<PosixLock>, l: PosixLock, m: PosixLock, b: nat)
    requires Safe(ls) && l in ls && m in ls && l.owner == m.owner && l != m
    ensures !(Covers(l, b) && Covers(m, b))
  {
    var i :| 0 <= i < |ls| && ls[i] == l;
    var j :| 0 <= j < |ls| && ls[j] == m;
    if i < j {
      assert Compatible(ls[i], ls[j]);
    } else {
      assert Compatible(ls[j], ls[i]);
    }
  }

  /** For ranges that are not empty, standing in the way means sharing a byte. */
  lemma BlocksMeans(l: PosixLock, start: nat, end: nat, kind: int, owner: nat)
    requires l.start < l.end && start < end
    ensures Blocks(l, start, end, kind, owner) <==>
            l.owner != owner && (kind == F_WRLCK || l.kind == F_WRLCK) && exists b: nat :: Covers(l, b) && start <= b < end
  {
    if Overlaps(l, start, end) {
      var b := if l.start < start then start else l.start;
      assert Covers(l, b);
    }
  }

  // ---- Whole-file locks ----

  const LOCK_SH := 1
  const LOCK_EX := 2
  const LOCK_NB := 4
  const LOCK_UN := 8

  datatype FileLock = FileLock(kind: int, owner: nat)

  predicate Clash(l: FileLock, kind: int, owner: nat) {
    l.owner != owner && (l.kind == LOCK_EX || kind == LOCK_EX)
  }

  predicate AnyClash(ls: seq<FileLock>, kind: int, owner: nat) {
    exists i :: 0 <= i < |ls| && Clash(ls[i], kind, owner)
  }

  function OtherHolders(ls: seq<FileLock>, owner: nat): (r: seq<FileLock>)
    ensures |r| <= |ls|
    ensures forall i :: 0 <= i < |r| ==> r[i] in ls && r[i].owner != owner
    ensures (forall i :: 0 <= i < |ls| ==> ls[i].owner == owner) ==> r == []
    decreases |ls|
  {
    if ls == [] then []
    else OtherHolders(ls[..|ls| - 1], owner) + if ls[|ls| - 1].owner != owner then [ls[|ls| - 1]] else []
  }

  lemma {:induction false} OtherHoldersAre(ls: seq<FileLock>, owner: nat)
    ensures forall l :: l in OtherHolders(ls, owner) <==> l in ls && l.owner != owner
    decreases |ls|
  {
    if ls != [] {
      var n := |ls| - 1;
      OtherHoldersAre(ls[..n], owner);
      assert ls == ls[..n] + [ls[n]];
    }
  }

  predicate DistinctOwners(ls: seq<FileLock>) {
    forall i, j :: 0 <= i < j < |ls| ==> ls[i].owner != ls[j].owner
  }

  /** Every owner at most once, and who holds the file exclusively holds it alone. */
  ghost predicate Exclusive(ls: seq<FileLock>) {
    DistinctOwners(ls) && (forall i :: 0 <= i < |ls| && ls[i].kind == LOCK_EX ==> |ls| == 1)
  }

  lemma DistinctAppend(r: seq<FileLock>, l: FileLock)
    requires DistinctOwners(r) && forall i :: 0 <= i < |r| ==> r[i].owner != l.owner
    ensures DistinctOwners(r + [l])
  {
  }

  lemma {:induction false} OthersDistinct(ls: seq<FileLock>, owner: nat)
    requires DistinctOwners(ls)
    ensures DistinctOwners(OtherHolders(ls, owner))
    decreases |ls|
  {
    if ls != [] {
      var n := |ls| - 1;
      var init := ls[..n];
      assert forall i :: 0 <= i < n ==> init[i] == ls[i];
      OthersDistinct(init, owner);
      var r := OtherHolders(init, owner);
      if ls[n].owner != owner {
        forall i | 0 <= i < |r| ensures r[i].owner != ls[n].owner {
          assert r[i] in init;
        }
        DistinctAppend(r, ls[n]);
      } else {
        assert OtherHolders(ls, owner) == r;
      }
    }
  }

  lemma ReleasedExclusive(ls: seq<FileLock>, owner: nat)
    requires Exclusive(ls)
    ensures Exclusive(OtherHolders(ls, owner))
  {
    OthersDistinct(ls, owner);
    var r := OtherHolders(ls, owner);
    forall i | 0 <= i < |r| && r[i].kind == LOCK_EX ensures |r| == 1 {
      assert r[i] in ls;
    }
  }

  lemma GrantedExclusive(ls: seq<FileLock>, kind: int, owner: nat)
    requires Exclusive(ls) && (kind == LOCK_SH || kind == LOCK_EX) && !AnyClash(ls, kind, owner)
    ensures Exclusive(OtherHolders(ls, owner) + [FileLock(kind, owner)])
  {
    OthersDistinct(ls, owner);
    var r := OtherHolders(ls, owner);
    forall i | 0 <= i < |r| ensures r[i].kind != LOCK_EX && kind != LOCK_EX {
      var j :| 0 <= j < |ls| && ls[j] == r[i];
      assert !Clash(ls[j], kind, owner);
    }
    DistinctAppend(r, FileLock(kind, owner));
  }

  // ---- The lock tables ----

  function Cast64(n: int): nat { n % TWO64 }

  /** Start and end of a request; a length that is not positive reaches to the last position. */
  function Resolve(f: Request, fileSize: nat): (r: (nat, nat))
    ensures f.whence != SEEK_END && 0 <= f.start < TWO64 ==> r.0 == f.start
    ensures f.whence != SEEK_END && -TWO64 <= f.start < 0 ==> r.0 == TWO64 + f.start
    ensures f.whence == SEEK_END && 0 <= f.start < TWO64 ==> r.0 == if fileSize + f.start < TWO64 then fileSize + f.start else U64_MAX
    ensures f.whence == SEEK_END && f.start < 0 && fileSize < TWO64 && -TWO64 < f.start ==>
              r.0 == if fileSize + f.start >= 0 then U64_MAX else TWO64 + fileSize + f.start
    ensures f.len <= 0 ==> r.1 == U64_MAX
    ensures 0 < f.len < TWO64 && r.0 < TWO64 ==> r.1 == if r.0 + f.len < TWO64 then r.0 + f.len else r.0 + f.len - TWO64
  {
    var start :=
      if f.whence == SEEK_END then (if fileSize + Cast64(f.start) > U64_MAX then U64_MAX else fileSize + Cast64(f.start))
      else Cast64(f.start);
    (start, if f.len <= 0 then U64_MAX else (start + f.len) % TWO64)
  }

  datatype Op =
    | SetLock(ino: nat, kind: int, start: nat, end: nat, owner: nat)
    | DropLocks(ino: nat, owner: nat)
    | SetFlock(ino: nat, kind: int, owner: nat)
    | DropFlock(ino: nat, owner: nat)

  datatype Tables = Tables(posix: map<nat, seq<PosixLock>>, file: map<nat, seq<FileLock>>)

  function LocksOf(t: Tables, ino: nat): seq<PosixLock> {
    if ino in t.posix then t.posix[ino] else []
  }

  function HoldersOf(t: Tables, ino: nat): seq<FileLock> {
    if ino in t.file then t.file[ino] else []
  }

  ghost predicate AllSafe(t: Tables) {
    (forall ino :: ino in t.posix ==> Safe(t.posix[ino])) && (forall ino :: ino in t.file ==> Exclusive(t.file[ino]))
  }

  predicate WellTyped(op: Op) {
    && (op.SetLock? ==> op.kind == F_RDLCK || op.kind == F_WRLCK)
    && (op.SetFlock? ==> op.kind == LOCK_SH || op.kind == LOCK_EX)
  }

  function Apply(t: Tables, op: Op): Tables {
    match op
    case SetLock(ino, kind, start, end, owner) =>
      var r := WithLock(LocksOf(t, ino), start, end, kind, owner);
      if r.None? then t else t.(posix := t.posix[ino := r.value])
    case DropLocks(ino, owner) =>
      if ino in t.posix then t.(posix := t.posix[ino := Others(t.posix[ino], owner)]) else t
    case SetFlock(ino, kind, owner) =>
      if AnyClash(HoldersOf(t, ino), kind, owner) then t
      else t.(file := t.file[ino := OtherHolders(HoldersOf(t, ino), owner) + [FileLock(kind, owner)]])
    case DropFlock(ino, owner) =>
      if ino in t.file then t.(file := t.file[ino := OtherHolders(t.file[ino], owner)]) else t
  }

  lemma ApplyKeepsSafe(t: Tables, op: Op)
    requires AllSafe(t) && WellTyped(op)
    ensures AllSafe(Apply(t, op))
  {
    hide Safe, Exclusive, Blocked, AnyClash, Kept, Others, OtherHolders;
    match op
    case SetLock(ino, kind, start, end, owner) =>
      SafeNone();
      if !Blocked(LocksOf(t, ino), start, end, kind, owner) {
        GrantedIsSafe(LocksOf(t, ino), start, end, kind, owner);
      }
    case DropLocks(ino, owner) =>
      if ino in t.posix {
        OthersSafe(t.posix[ino], owner);
      }
    case SetFlock(ino, kind, owner) =>
      ExclusiveNone();
      if !AnyClash(HoldersOf(t, ino), kind, owner) {
        GrantedExclusive(HoldersOf(t, ino), kind, owner);
      }
    case DropFlock(ino, owner) =>
      if ino in t.file {
        ReleasedExclusive(t.file[ino], owner);
      }
  }

  lemma ExclusiveNone()
    ensures Exclusive([])
  {
  }

  function Run(t: Tables, ops: seq<Op>): Tables
    decreases |ops|
  {
    if ops == [] then t else Apply(Run(t, ops[..|ops| - 1]), ops[|ops| - 1])
  }

  /**
   Lock safety over every run from empty tables: no byte is locked by two owners unless both only read,
   no owner covers a byte twice, and an exclusive holder of a file is its only holder.
   */
  lemma {:induction false} RunIsSafe(ops: seq<Op>)
    requires forall i :: 0 <= i < |ops| ==> WellTyped(ops[i])
    ensures AllSafe(Run(Tables(map[], map[]), ops))
    decreases |ops|
  {
    hide AllSafe, Apply, WellTyped;
    if ops == [] {
      NoLocks();
    } else {
      var n := |ops| - 1;
      assert forall i :: 0 <= i < n ==> ops[..n][i] == ops[i];
      RunIsSafe(ops[..n]);
      ApplyKeepsSafe(Run(Tables(map[], map[]), ops[..n]), ops[n]);
    }
  }

  lemma NoLocks()
    ensures AllSafe(Tables(map[], map[]))
  {
  }

  // ---- What the requests promise, on who holds what ----

  /** One inode's byte-range locks and whole-file locks are the only ones that may differ. */
  ghost predicate OthersSame(before: Tables, after: Tables, ino: nat) {
    forall j: nat :: j != ino ==> LocksOf(after, j) == LocksOf(before, j) && HoldersOf(after, j) == HoldersOf(before, j)
  }

  /** The owner holds a byte by a lock that lies clear of the range. */
  predicate HoldsClear(ls: seq<PosixLock>, owner: nat, b: nat, kind: int, start: nat, end: nat) {
    exists i :: 0 <= i < |ls| && ls[i].owner == owner && ls[i].kind == kind && Covers(ls[i], b) && (ls[i].end <= start || end <= ls[i].start)
  }

  /** The owner holds the range in the new mode and elsewhere what lay clear of it; others hold what they held. */
  ghost predicate RangeGranted(before: seq<PosixLock>, after: seq<PosixLock>, start: nat, end: nat, kind: int, owner: nat) {
    forall o: nat, b: nat, k: int ::
      Holds(after, o, b, k) <==>
      if o != owner then Holds(before, o, b, k)
      else if start <= b < end then k == kind
      else HoldsClear(before, owner, b, k, start, end)
  }

  /** The owner holds no byte any more; others hold what they held. */
  ghost predicate RangesDropped(before: seq<PosixLock>, after: seq<PosixLock>, owner: nat) {
    forall o: nat, b: nat, k: int :: Holds(after, o, b, k) <==> o != owner && Holds(before, o, b, k)
  }

  /** The owner holds the file in exactly this mode; others hold what they held. */
  ghost predicate FileGranted(before: seq<FileLock>, after: seq<FileLock>, kind: int, owner: nat) {
    forall o: nat, k: int :: FileLock(k, o) in after <==> if o == owner then k == kind else FileLock(k, o) in before
  }

  /** The owner holds the file in no mode; others hold what they held. */
  ghost predicate FileDropped(before: seq<FileLock>, after: seq<FileLock>, owner: nat) {
    forall o: nat, k: int :: FileLock(k, o) in after <==> o != owner && FileLock(k, o) in before
  }

  lemma GrantIs(t: Tables, ino: nat, start: nat, end: nat, kind: int, owner: nat)
    requires !Blocked(LocksOf(t, ino), start, end, kind, owner)
    ensures var u := Apply(t, SetLock(ino, kind, start, end, owner));
            RangeGranted(LocksOf(t, ino), LocksOf(u, ino), start, end, kind, owner) && OthersSame(t, u, ino) && u.file == t.file
  {
    hide Blocked, Holds, Kept, HoldsClear;
    var ls := LocksOf(t, ino);
    var l, kept := PosixLock(kind, start, end, owner), Kept(ls, start, end, owner);
    var after := kept + [l];
    KeptAre(ls, start, end, owner);
    assert forall m :: m in after <==> m in kept || m == l;
    forall o: nat, b: nat, k: int
      ensures Holds(after, o, b, k) <==>
              if o != owner then Holds(ls, o, b, k) else if start <= b < end then k == kind else HoldsClear(ls, owner, b, k, start, end)
    {
      HoldsMember(after, o, b, k);
      HoldsMember(ls, o, b, k);
      ClearMember(ls, owner, b, k, start, end);
      assert l in after;
    }
  }

  lemma BlockedMember(ls: seq<PosixLock>, start: nat, end: nat, kind: int, owner: nat)
    ensures Blocked(ls, start, end, kind, owner) <==>
            exists l :: l in ls && l.owner != owner && l.start < end && start < l.end && (kind == F_WRLCK || l.kind == F_WRLCK)
  {
    if l :| l in ls && l.owner != owner && l.start < end && start < l.end && (kind == F_WRLCK || l.kind == F_WRLCK) {
      var i :| 0 <= i < |ls| && ls[i] == l;
      assert Blocks(ls[i], start, end, kind, owner);
    }
  }

  lemma ClearMember(ls: seq<PosixLock>, owner: nat, b: nat, kind: int, start: nat, end: nat)
    ensures HoldsClear(ls, owner, b, kind, start, end) <==>
            exists l :: l in ls && l.owner == owner && l.kind == kind && Covers(l, b) && (l.end <= start || end <= l.start)
  {
    if l :| l in ls && l.owner == owner && l.kind == kind && Covers(l, b) && (l.end <= start || end <= l.start) {
      var i :| 0 <= i < |ls| && ls[i] == l;
    }
  }

  lemma DropIs(t: Tables, ino: nat, owner: nat)
    ensures var u := Apply(t, DropLocks(ino, owner));
            RangesDropped(LocksOf(t, ino), LocksOf(u, ino), owner) && OthersSame(t, u, ino) && u.file == t.file
  {
    hide Holds, Others;
    var ls, after := LocksOf(t, ino), LocksOf(Apply(t, DropLocks(ino, owner)), ino);
    OthersAre(ls, owner);
    forall o: nat, b: nat, k: int ensures Holds(after, o, b, k) <==> o != owner && Holds(ls, o, b, k) {
      HoldsMember(after, o, b, k);
      HoldsMember(ls, o, b, k);
    }
  }

  lemma FlockIs(t: Tables, ino: nat, kind: int, owner: nat)
    requires !AnyClash(HoldersOf(t, ino), kind, owner)
    ensures var u := Apply(t, SetFlock(ino, kind, owner));
            FileGranted(HoldersOf(t, ino), HoldersOf(u, ino), kind, owner) && OthersSame(t, u, ino) && u.posix == t.posix
  {
    hide AnyClash, OtherHolders;
    var ls, l := HoldersOf(t, ino), FileLock(kind, owner);
    OtherHoldersAre(ls, owner);
    var after := OtherHolders(ls, owner) + [l];
    assert forall m :: m in after <==> m in OtherHolders(ls, owner) || m == l;
  }

  lemma ClashMember(ls: seq<FileLock>, kind: int, owner: nat)
    ensures AnyClash(ls, kind, owner) <==> exists l :: l in ls && l.owner != owner && (l.kind == LOCK_EX || kind == LOCK_EX)
  {
    if l :| l in ls && l.owner != owner && (l.kind == LOCK_EX || kind == LOCK_EX) {
      var i :| 0 <= i < |ls| && ls[i] == l;
      assert Clash(ls[i], kind, owner);
    }
  }

  lemma UnflockIs(t: Tables, ino: nat, owner: nat)
    ensures var u := Apply(t, DropFlock(ino, owner));
            FileDropped(HoldersOf(t, ino), HoldersOf(u, ino), owner) && OthersSame(t, u, ino) && u.posix == t.posix
  {
    hide OtherHolders;
    OtherHoldersAre(HoldersOf(t, ino), owner);
  }

  datatype Reply = Reply(kind: int, whence: int, start: int, len: int, owner: nat)

  datatype Errno = Fine | EAGAIN | EINVAL

  class LockTable {
    var posix: map<nat, seq<PosixLock>>
    var file: map<nat, seq<FileLock>>

    ghost function Model(): Tables
      reads this
    {
      Tables(posix, file)
    }

    constructor ()
      ensures Model() == Tables(map[], map[]) && AllSafe(Model())
    {
      posix, file := map[], map[];
    }

    /** A lock that stands in the way of a request, if there is one. */
    method CheckConflict(ino: nat, start: nat, end: nat, kind: int, owner: nat) returns (r: Option<PosixLock>)
      ensures r.Some? <==> Blocked(LocksOf(Model(), ino), start, end, kind, owner)
      ensures r.Some? ==> r.value in LocksOf(Model(), ino) && Blocks(r.value, start, end, kind, owner)
    {
      if ino !in posix {
        return None;
      }
      var ls := posix[ino];
      var i := 0;
      while i < |ls|
        invariant 0 <= i <= |ls| && forall j :: 0 <= j < i ==> !Blocks(ls[j], start, end, kind, owner)
      {
        var l := ls[i];
        if !(l.start >= end || start >= l.end) && l.owner != owner && (kind == F_WRLCK || l.kind == F_WRLCK) {
          return Some(l);
        }
        i := i + 1;
      }
      r := None;
    }

    /** Sets a lock, or gives up all locks of the owner on the inode. */
    method SetLk(ino: nat, f: Request, owner: nat, fileSize: nat) returns (r: Errno)
      requires AllSafe(Model())
      modifies this
      ensures AllSafe(Model())
      ensures var (start, end) := Resolve(f, fileSize);
              && (r == EINVAL <==> f.kind != F_UNLCK && f.kind != F_RDLCK && f.kind != F_WRLCK)
              && (r == EAGAIN <==>
                    (f.kind == F_RDLCK || f.kind == F_WRLCK)
                    && exists l :: l in LocksOf(old(Model()), ino) && l.owner != owner && l.start < end && start < l.end
                                   && (f.kind == F_WRLCK || l.kind == F_WRLCK))
              && Model() == (if r == EINVAL then old(Model())
                             else if f.kind == F_UNLCK then Apply(old(Model()), DropLocks(ino, owner))
                             else Apply(old(Model()), SetLock(ino, f.kind, start, end, owner)))
      ensures r != Fine ==> Model() == old(Model())
      ensures OthersSame(old(Model()), Model(), ino) && file == old(file)
      ensures r == Fine && f.kind != F_UNLCK ==>
                RangeGranted(LocksOf(old(Model()), ino), LocksOf(Model(), ino), Resolve(f, fileSize).0, Resolve(f, fileSize).1, f.kind, owner)
      ensures r == Fine && f.kind == F_UNLCK ==> RangesDropped(LocksOf(old(Model()), ino), LocksOf(Model(), ino), owner)
    {
      hide Blocked, AllSafe, Resolve, Kept, Others, RangeGranted, RangesDropped;
      if f.kind != F_UNLCK && f.kind != F_RDLCK && f.kind != F_WRLCK {
        return EINVAL;
      }
      var (start, end) := Resolve(f, fileSize);
      if f.kind == F_UNLCK {
        ApplyKeepsSafe(Model(), DropLocks(ino, owner));
        DropIs(Model(), ino, owner);
        if ino in posix {
          var kept := RetainOthers(posix[ino], owner);
          posix := posix[ino := kept];
        }
        return Fine;
      }
      ApplyKeepsSafe(Model(), SetLock(ino, f.kind, start, end, owner));
      var conflict := CheckConflict(ino, start, end, f.kind, owner);
      BlockedMember(LocksOf(Model(), ino), start, end, f.kind, owner);
      if conflict.Some? {
        return EAGAIN;
      }
      GrantIs(Model(), ino, start, end, f.kind, owner);
      var kept := RetainClear(if ino in posix then posix[ino] else [], start, end, owner);
      posix := posix[ino := kept + [PosixLock(f.kind, start, end, owner)]];
      r := Fine;
    }

    static method RetainOthers(ls: seq<PosixLock>, owner: nat) returns (kept: seq<PosixLock>)
      ensures kept == Others(ls, owner)
    {
      kept := [];
      var i := 0;
      while i < |ls|
        invariant 0 <= i <= |ls| && kept == Others(ls[..i], owner)
      {
        assert ls[..i + 1][..i] == ls[..i];
        if ls[i].owner != owner {
          kept := kept + [ls[i]];
        }
        i := i + 1;
      }
      assert ls[..i] == ls;
    }

    static method RetainClear(ls: seq<PosixLock>, start: nat, end: nat, owner: nat) returns (kept: seq<PosixLock>)
      ensures kept == Kept(ls, start, end, owner)
    {
      kept := [];
      var i := 0;
      while i < |ls|
        invariant 0 <= i <= |ls| && kept == Kept(ls[..i], start, end, owner)
      {
        assert ls[..i + 1][..i] == ls[..i];
        if ls[i].owner != owner || ls[i].end <= start || ls[i].start >= end {
          kept := kept + [ls[i]];
        }
        i := i + 1;
      }
      assert ls[..i] == ls;
    }

    /** Reports a lock that stands in the way, or `F_UNLCK` exactly when the same request would be granted. */
    method GetLk(ino: nat, f: Request, owner: nat, fileSize: nat) returns (r: Option<Reply>)
      requires AllSafe(Model())
      ensures r.None? <==> f.kind != F_RDLCK && f.kind != F_WRLCK
      ensures r.Some? ==>
                (r.value.kind == F_UNLCK <==>
                 (var (start, end) := Resolve(f, fileSize); WithLock(LocksOf(Model(), ino), start, end, f.kind, owner).Some?))
      ensures r.Some? && r.value.kind != F_UNLCK ==>
                exists l :: l in LocksOf(Model(), ino) && Blocks(l, Resolve(f, fileSize).0, Resolve(f, fileSize).1, f.kind, owner)
                            && r.value == Reply(l.kind, 0, l.start, if l.end == U64_MAX then 0 else l.end - l.start, l.owner)
      ensures r.Some? && r.value.kind == F_UNLCK ==> r.value == Reply(F_UNLCK, f.whence, f.start, f.len, 0)
    {
      hide Blocked, Resolve, Kept;
      if f.kind != F_RDLCK && f.kind != F_WRLCK {
        return None;
      }
      var (start, end) := Resolve(f, fileSize);
      var conflict := CheckConflict(ino, start, end, f.kind, owner);
      match conflict {
        case Some(l) =>
          TypedMember(Model(), ino, l);
          r := Some(Reply(l.kind, 0, l.start, if l.end == U64_MAX then 0 else l.end - l.start, l.owner));
        case None =>
          r := Some(Reply(F_UNLCK, f.whence, f.start, f.len, 0));
      }
    }

    /** Takes or gives up a whole-file lock. */
    method Flock(ino: nat, operation: nat, owner: nat) returns (r: Errno)
      requires AllSafe(Model())
      modifies this
      ensures AllSafe(Model())
      ensures var kind := if operation / LOCK_NB % 2 == 1 then operation - LOCK_NB else operation;
              && (r == EINVAL <==> kind != LOCK_UN && kind != LOCK_SH && kind != LOCK_EX)
              && (r == EAGAIN <==>
                    (kind == LOCK_SH || kind == LOCK_EX)
                    && exists l :: l in HoldersOf(old(Model()), ino) && l.owner != owner && (l.kind == LOCK_EX || kind == LOCK_EX))
              && Model() == (if r == EINVAL then old(Model())
                             else if kind == LOCK_UN then Apply(old(Model()), DropFlock(ino, owner))
                             else Apply(old(Model()), SetFlock(ino, kind, owner)))
              && (r == Fine && kind != LOCK_UN ==> FileGranted(HoldersOf(old(Model()), ino), HoldersOf(Model(), ino), kind, owner))
              && (r == Fine && kind == LOCK_UN ==> FileDropped(HoldersOf(old(Model()), ino), HoldersOf(Model(), ino), owner))
      ensures r != Fine ==> Model() == old(Model())
      ensures OthersSame(old(Model()), Model(), ino) && posix == old(posix)
    {
      hide AllSafe, OtherHolders, FileGranted, FileDropped;
      var kind := if operation / LOCK_NB % 2 == 1 then operation - LOCK_NB else operation;
      if kind == LOCK_UN {
        ApplyKeepsSafe(Model(), DropFlock(ino, owner));
        UnflockIs(Model(), ino, owner);
        ReleaseFlock(ino, owner);
        return Fine;
      }
      if kind != LOCK_SH && kind != LOCK_EX {
        return EINVAL;
      }
      ApplyKeepsSafe(Model(), SetFlock(ino, kind, owner));
      var ls := if ino in file then file[ino] else [];
      var i := 0;
      while i < |ls|
        invariant 0 <= i <= |ls| && forall j :: 0 <= j < i ==> !Clash(ls[j], kind, owner)
      {
        if ls[i].owner != owner && (ls[i].kind == LOCK_EX || kind == LOCK_EX) {
          assert ls[i] in HoldersOf(Model(), ino);
          return EAGAIN;
        }
        i := i + 1;
      }
      ClashMember(ls, kind, owner);
      FlockIs(Model(), ino, kind, owner);
      var others := RetainHolders(ls, owner);
      file := file[ino := others + [FileLock(kind, owner)]];
      r := Fine;
    }

    static method RetainHolders(ls: seq<FileLock>, owner: nat) returns (kept: seq<FileLock>)
      ensures kept == OtherHolders(ls, owner)
    {
      kept := [];
      var i := 0;
      while i < |ls|
        invariant 0 <= i <= |ls| && kept == OtherHolders(ls[..i], owner)
      {
        assert ls[..i + 1][..i] == ls[..i];
        if ls[i].owner != owner {
          kept := kept + [ls[i]];
        }
        i := i + 1;
      }
      assert ls[..i] == ls;
    }

    method ReleaseFlock(ino: nat, owner: nat)
      modifies this
      ensures Model() == Apply(old(Model()), DropFlock(ino, owner))
    {
      hide OtherHolders;
      if ino in file {
        var kept := RetainHolders(file[ino], owner);
        file := file[ino := kept];
      }
    }

    /** Gives up everything an owner holds on an inode. */
    method ReleaseLocks(ino: nat, owner: nat)
      requires AllSafe(Model())
      modifies this
      ensures AllSafe(Model())
      ensures Model() == Apply(Apply(old(Model()), DropLocks(ino, owner)), DropFlock(ino, owner))
      ensures RangesDropped(LocksOf(old(Model()), ino), LocksOf(Model(), ino), owner)
      ensures FileDropped(HoldersOf(old(Model()), ino), HoldersOf(Model(), ino), owner)
      ensures OthersSame(old(Model()), Model(), ino)
    {
      hide AllSafe, OtherHolders, Others, RangesDropped, FileDropped;
      ApplyKeepsSafe(Model(), DropLocks(ino, owner));
      DropIs(Model(), ino, owner);
      if ino in posix {
        var kept := RetainOthers(posix[ino], owner);
        posix := posix[ino := kept];
      }
      ApplyKeepsSafe(Model(), DropFlock(ino, owner));
      UnflockIs(Model(), ino, owner);
      ReleaseFlock(ino, owner);
    }
  }

  lemma TypedMember(t: Tables, ino: nat, l: PosixLock)
    requires AllSafe(t) && l in LocksOf(t, ino)
    ensures l.kind != F_UNLCK
  {
    hide Compatible;
    var ls := LocksOf(t, ino);
    var i :| 0 <= i < |ls| && ls[i] == l;
    assert Typed(ls[i]);
  }
}

/**
 Commits that stop anywhere, on a log that an earlier failure may have left behind its buffer: the buffer
 keeps what was put into it, the device keeps what was flushed, and the next flush that succeeds carries
 everything to the device.
 */
module LateCommit {
  import opened Bytes
  import opened LogRecord
  import opened Device
  import opened LogWriter
  import opened LogLayout
  import opened LogScan
  import opened LogReadBack
  import opened LogFlush
  import opened LogCrash
  import opened Recovery
  import opened CrashSafety
  import opened CommitShape

  // ---- A unit that was flushed in part, perhaps several times ----

  /** A unit whose first page is that of `a` and whose second page is that of `b`. */
  function Torn(a: seq<Record>, b: seq<Record>): (m: seq<byte>)
    requires UnitOk(a) && UnitOk(b)
    ensures |m| == UNIT
  {
    UnitBytes(a)[..PAGE] + UnitBytes(b)[PAGE..]
  }

  /** Two stages of the last unit, both behind what is flushed. */
  predicate Stages(us: Units, fl: seq<Record>, a: seq<Record>, b: seq<Record>) {
    UnitOk(fl) && UnitOk(a) && UnitOk(b) && fl <= a <= Last(us) && fl <= b <= Last(us)
  }

  /**
   The writer's buffer is ahead of the device, whose end pointer stands behind `fl`. Flushes that failed
   have left the first page of the last unit as it was at stage `a`, and the second as it was at `b`.
   */
  ghost predicate Loose(d: Disk, s: LogState, us: Units, fl: seq<Record>, a: seq<Record>, b: seq<Record>) {
    && Writer(s, us) && Stages(us, fl, a, b)
    && HoldsBytes(d.log, us, Torn(a, b))
    && d.end == FlushedEnd(us, fl) && d.state == s.state && |d.log| < TWO32
  }

  lemma LooseParts(d: Disk, s: LogState, us: Units, fl: seq<Record>, a: seq<Record>, b: seq<Record>)
    requires Loose(d, s, us, fl, a, b)
    ensures Writer(s, us) && AllOk(us) && UnitOk(Last(us)) && Sized(s) && Stages(us, fl, a, b) && HoldsBytes(d.log, us, Torn(a, b))
    ensures d.end == FlushedEnd(us, fl) && d.state == s.state && |d.log| < TWO32
    ensures |us| > 1 ==> us[|us| - 2] != []
  {
    assert UnitOk(us[|us| - 1]);
  }

  lemma SettledLoose(d: Disk, s: LogState, us: Units)
    requires Settled(d, s, us)
    ensures Loose(d, s, us, Last(us), Last(us), Last(us))
  {
    hide EncodeAll, UnitBytes, Writer, HoldsBytes;
    var u := Last(us);
    SyncedParts(d, s, us, u, Records(us));
    HoldsAsBytes(d.log, us, u);
    assert Torn(u, u) == UnitBytes(u);
  }

  // ---- What can be read of it ----

  lemma TornPrefix(fl: seq<Record>, a: seq<Record>, b: seq<Record>)
    requires UnitOk(fl) && UnitOk(a) && UnitOk(b) && fl <= a && fl <= b
    ensures Torn(a, b)[..|EncodeAll(fl)|] == EncodeAll(fl)
  {
    hide EncodeAll, UnitBytes;
    PrefixBytes(a, fl);
    PrefixBytes(b, fl);
    var n := |EncodeAll(fl)|;
    forall i | 0 <= i < n ensures Torn(a, b)[i] == EncodeAll(fl)[i] {
      assert UnitBytes(a)[..n][i] == UnitBytes(a)[i];
      assert UnitBytes(b)[..n][i] == UnitBytes(b)[i];
    }
  }

  /** The first bytes behind the flushed records lie on one page: zeros, or the header of the next record. */
  lemma TornBehind(fl: seq<Record>, a: seq<Record>, b: seq<Record>) returns (v: seq<Record>)
    requires UnitOk(fl) && UnitOk(a) && UnitOk(b) && fl <= a && fl <= b
    ensures v == a || v == b
    ensures var n, m := |EncodeAll(fl)|, Torn(a, b);
            && n + 12 <= UNIT
            && (if |v| == |fl| then m[n..n + 4] == Zeros(4) else m[n + 10..n + 12] == UnitBytes(v)[n + 10..n + 12])
  {
    hide EncodeAll;
    UnitNeverFull(fl);
    var n, m := |EncodeAll(fl)|, Torn(a, b);
    v := if n + 12 <= PAGE then a else b;
    assert m[n..n + 12] == UnitBytes(v)[n..n + 12];
    if |v| == |fl| {
      assert v == fl;
      assert m[n..n + 4] == UnitBytes(v)[n..n + 4] == Zeros(4);
    } else {
      assert m[n + 10..n + 12] == m[n..n + 12][10..12] == UnitBytes(v)[n + 10..n + 12];
    }
  }

  /** The scan can step over the end of the flushed records. */
  lemma TornNotBad(log: seq<byte>, base: nat, fl: seq<Record>, a: seq<Record>, b: seq<Record>)
    requires UnitOk(fl) && UnitOk(a) && UnitOk(b) && fl <= a && fl <= b && At(log, base, Torn(a, b))
    ensures !NextRecord(log, base + |EncodeAll(fl)|).Bad?
  {
    hide EncodeAll, UnitBytes, Torn, NextRecord, ReadPadded, UnitOk, Le16;
    var n, m := |EncodeAll(fl)|, Torn(a, b);
    var v := TornBehind(fl, a, b);
    if |v| == |fl| {
      AtSlice(log, base, m, n, n + 4);
      ZeroEnds(log, base + n);
    } else {
      AtSlice(log, base, m, n + 10, n + 12);
      NextLength(v, fl);
      LengthInArea(log, base + n, |v[|fl|].data|);
    }
  }

  lemma LooseReadable(d: Disk, s: LogState, us: Units, fl: seq<Record>, a: seq<Record>, b: seq<Record>)
    requires Loose(d, s, us, fl, a, b)
    ensures Readable(d.log, us, fl)
  {
    hide EncodeAll, UnitBytes, Torn, NextRecord, Writer, UnitOk, Loose;
    LooseParts(d, s, us, fl, a, b);
    var log, base := d.log, UNIT * (|us| - 1);
    TornPrefix(fl, a, b);
    UnitNeverFull(fl);
    AtSlice(log, base, Torn(a, b), 0, |EncodeAll(fl)|);
    TornNotBad(log, base, fl, a, b);
  }

  /** Once the end pointer is set, recovery sees exactly the flushed records; as written, those of unit 0. */
  lemma LooseVisible(d: Disk, s: LogState, us: Units, fl: seq<Record>, a: seq<Record>, b: seq<Record>)
    requires Loose(d, s, us, fl, a, b) && d.end > 0
    ensures VisibleUnits(d) == Some(FlushedRecords(us, fl))
    ensures Visible(d) == Some(if |us| == 1 then fl else us[0])
  {
    hide EncodeAll, UnitBytes, Readable, UnitScan, Scan, HoldsBytes, Torn, Writer, Records;
    LooseParts(d, s, us, fl, a, b);
    LooseReadable(d, s, us, fl, a, b);
    UnitScanFindsAll(d.log, us, fl);
    ScanFindsFirstUnit(d.log, us, fl);
  }

  // ---- Flushing it ----

  lemma TornStep(u: seq<Record>, a: seq<Record>, b: seq<Record>)
    requires UnitOk(u) && UnitOk(a) && UnitOk(b)
    ensures Overwrite(Torn(a, b), 0, UnitBytes(u)[..PAGE]) == Torn(u, b)
    ensures Overwrite(Torn(a, b), PAGE, UnitBytes(u)[PAGE..]) == Torn(a, u)
  {
    hide UnitBytes;
  }

  function Stage1(u: seq<Record>, a: seq<Record>, j: nat): seq<Record> {
    if j >= 1 then u else a
  }

  function Stage2(u: seq<Record>, b: seq<Record>, j: nat): seq<Record> {
    if j >= 2 then u else b
  }

  /** The pages of a flush, one by one. */
  lemma {:induction false} PagesOver(d: Disk, s: LogState, us: Units, fl: seq<Record>, a: seq<Record>, b: seq<Record>, j: nat)
    requires Loose(d, s, us, fl, a, b) && Last(us) != [] && j <= |PageWrites(s)|
    ensures var r, u := ApplyAll(d, PageWrites(s)[..j]), Last(us);
            Loose(r, s, us, fl, Stage1(u, a, j), Stage2(u, b, j)) && r == d.(log := r.log)
    decreases j
  {
    hide EncodeAll, UnitBytes, HoldsBytes, PageWrites, Loose, Writer, UnitOk, Torn;
    LooseParts(d, s, us, fl, a, b);
    PageWritesShape(s, us);
    var ws := PageWrites(s);
    if j == 0 {
      assert ws[..0] == [];
    } else {
      PagesOver(d, s, us, fl, a, b, j - 1);
      assert ws[..j][..j - 1] == ws[..j - 1];
      PageOver(ApplyAll(d, ws[..j - 1]), s, us, fl, Stage1(Last(us), a, j - 1), Stage2(Last(us), b, j - 1), j - 1);
    }
  }

  lemma PageOver(d: Disk, s: LogState, us: Units, fl: seq<Record>, a: seq<Record>, b: seq<Record>, j: nat)
    requires Loose(d, s, us, fl, a, b) && Last(us) != [] && j < |PageWrites(s)|
    ensures var r, u := Apply(d, PageWrites(s)[j]), Last(us);
            Loose(r, s, us, fl, if j == 0 then u else a, if j == 1 then u else b) && r == d.(log := r.log)
  {
    hide EncodeAll, UnitBytes, HoldsBytes, PageWrites, Writer, UnitOk, Torn;
    LooseParts(d, s, us, fl, a, b);
    PageWritesShape(s, us);
    BufferIs(s, us);
    var u := Last(us);
    OverwritePage(d.log, us, Torn(a, b), j, UnitBytes(u)[j * PAGE..(j + 1) * PAGE]);
    TornStep(u, a, b);
    assert (2 * (|us| - 1) + j) * PAGE == UNIT * (|us| - 1) + j * PAGE;
    assert UnitBytes(u)[0 * PAGE..(0 + 1) * PAGE] == UnitBytes(u)[..PAGE];
    assert UnitBytes(u)[1 * PAGE..(1 + 1) * PAGE] == UnitBytes(u)[PAGE..];
  }

  lemma BufferIs(s: LogState, us: Units)
    requires Writer(s, us)
    ensures UnitOk(Last(us)) && s.buffer == UnitBytes(Last(us))
  {
    assert UnitOk(us[|us| - 1]);
  }

  /** A flush writes every page that holds records, so it makes up for all that was missed. */
  lemma FlushLoose(d: Disk, s: LogState, us: Units, fl: seq<Record>, a: seq<Record>, b: seq<Record>)
    requires Loose(d, s, us, fl, a, b) && Last(us) != []
    ensures var r := ApplyAll(d, FlushPlan(s));
            && Holds(r.log, us, Last(us))
            && r == Disk(r.log, FlushedEnd(us, Last(us)), s.state, d.blocks)
  {
    hide EncodeAll, UnitBytes, HoldsBytes, PageWrites, Holds, Writer, Loose, Torn, UnitOk, FlushPlan, FlushedEnd;
    LooseParts(d, s, us, fl, a, b);
    PageWritesShape(s, us);
    var ws, u := PageWrites(s), Last(us);
    PagesOver(d, s, us, fl, a, b, |ws|);
    assert ws[..|ws|] == ws;
    var c := ApplyAll(d, ws);
    LooseParts(c, s, us, fl, Stage1(u, a, |ws|), Stage2(u, b, |ws|));
    TornWhole(u, b, |ws|);
    assert Stage1(u, a, |ws|) == u;
    HoldsAsBytes(c.log, us, u);
    HoldsRoom(c.log, us, UnitBytes(u));
    EndInLog(s, us, |d.log|);
    FlushTail(d, s);
    WriterEnd(s, us);
  }

  lemma FlushTail(d: Disk, s: LogState)
    requires Sized(s)
    ensures ApplyAll(d, FlushPlan(s)) == ApplyAll(d, PageWrites(s)).(end := s.writeOffset % TWO32, state := s.state)
  {
    hide PageWrites;
    ApplyAllConcat(d, PageWrites(s), [FlushMetadata, Sync, SuperWrite(s.writeOffset % TWO32, s.state)]);
    TailApplied(ApplyAll(d, PageWrites(s)), s);
  }

  lemma HoldsRoom(log: seq<byte>, us: Units, m: seq<byte>)
    requires HoldsBytes(log, us, m)
    ensures UNIT * |us| <= |log|
  {
  }

  lemma WriterEnd(s: LogState, us: Units)
    requires Writer(s, us) && Last(us) != []
    ensures s.writeOffset == EndOf(us) == FlushedEnd(us, Last(us))
    ensures |EncodeAll(Last(us))| > 0
  {
  }

  /** With its data pages written, the unit is whole. */
  lemma TornWhole(u: seq<Record>, b: seq<Record>, n: nat)
    requires UnitOk(u) && UnitOk(b) && b <= u && u != [] && n == (|EncodeAll(u)| + PAGE - 1) / PAGE
    ensures n >= 1 && Torn(u, Stage2(u, b, n)) == UnitBytes(u)
  {
    hide EncodeAll;
    assert |EncodeAll(u)| > 0 by { SomeBytes(u); }
    PrefixBytes(u, b);
    if n < 2 {
      assert |EncodeAll(u)| <= PAGE;
      assert UnitBytes(u)[PAGE..] == UnitBytes(b)[PAGE..];
    }
  }

  lemma SomeBytes(u: seq<Record>)
    requires u != []
    ensures |EncodeAll(u)| > 0
  {
  }

  /** A flush that fails leaves the end pointer, and some page of the unit as it is now. */
  lemma FlushLooseCut(d: Disk, s: LogState, us: Units, fl: seq<Record>, a: seq<Record>, b: seq<Record>, k: nat)
    returns (a2: seq<Record>, b2: seq<Record>)
    requires Loose(d, s, us, fl, a, b) && Last(us) != [] && k < |FlushPlan(s)|
    ensures var r := ApplyAll(d, FlushPlan(s)[..k]);
            Loose(r, s, us, fl, a2, b2) && r == d.(log := r.log)
  {
    hide PageWrites, Loose, ApplyAll, Writer;
    LooseParts(d, s, us, fl, a, b);
    var ws, u := PageWrites(s), Last(us);
    var j := if k <= |ws| then k else |ws|;
    a2, b2 := Stage1(u, a, j), Stage2(u, b, j);
    PagesOver(d, s, us, fl, a, b, j);
    var c := ApplyAll(d, ws[..j]);
    var rest := FlushPlan(s)[j..k];
    assert FlushPlan(s)[..k] == ws[..j] + rest;
    ApplyAllConcat(d, ws[..j], rest);
    assert rest == [] || rest == [FlushMetadata] || rest == [FlushMetadata] + [Sync];
    NoEffect(c);
  }

  lemma NoEffect(c: Disk)
    ensures ApplyAll(c, []) == c && ApplyAll(c, [FlushMetadata]) == c && ApplyAll(c, [FlushMetadata] + [Sync]) == c
  {
    ApplyAllOne(c, FlushMetadata);
    ApplyAllOne(c, Sync);
    ApplyAllConcat(c, [FlushMetadata], [Sync]);
  }

  // ---- One record more ----

  /** What is flushed when room is made. */
  function FlushedBy(s: LogState, size: nat, fl: seq<Record>): seq<Record> {
    if Full(s, size) then [] else fl
  }

  lemma RoomLoose(d: Disk, s: LogState, us: Units, fl: seq<Record>, a: seq<Record>, b: seq<Record>, size: nat)
    returns (a2: seq<Record>, b2: seq<Record>)
    requires Loose(d, s, us, fl, a, b) && size <= LRD_SIZE + PAGE && UNIT * |Opened(s, us, size)| <= |d.log|
    ensures Sized(s)
    ensures var r := ApplyAll(d, RoomPlan(s, size));
            Loose(r, Room(s, size), Opened(s, us, size), FlushedBy(s, size, fl), a2, b2) && r.blocks == d.blocks
    ensures FlushedRecords(Opened(s, us, size), FlushedBy(s, size, fl))
         == if Full(s, size) then Records(us) else FlushedRecords(us, fl)
  {
    hide EncodeAll, UnitBytes, FlushPlan, Holds, Writer, Full, HoldsBytes, Records;
    LooseParts(d, s, us, fl, a, b);
    RoomKeepsWriter(s, us, size);
    a2, b2 := a, b;
    if Full(s, size) {
      FlushLoose(d, s, us, fl, a, b);
      var r := ApplyAll(d, FlushPlan(s));
      OpenUnit(r.log, us);
      EmptyUnit();
      var vs: Units := us + [[]];
      WriterSized(Room(s, size), vs);
      HoldsAsBytes(r.log, vs, []);
      a2, b2 := [], [];
      assert Torn([], []) == UnitBytes([]);
      WriterEnd(s, us);
    }
  }

  lemma PutLoose(d: Disk, s: LogState, us: Units, fl: seq<Record>, a: seq<Record>, b: seq<Record>, r: Record)
    requires Loose(d, s, us, fl, a, b) && WriterRecord(r) && Sized(s) && !Full(s, |Encode(r)|)
    ensures var vs: Units := Before(us) + [Last(us) + [r]];
            Loose(d, Put(s, r), vs, fl, a, b) && FlushedRecords(vs, fl) == FlushedRecords(us, fl)
  {
    hide Loose, Encode, Put, Writer, Torn, Stages, HoldsBytes, Records, FlushedEnd;
    LooseParts(d, s, us, fl, a, b);
    PutKeepsWriter(s, us, r);
    PutState(s, r);
    var vs: Units := Before(us) + [Last(us) + [r]];
    assert Last(vs) == Last(us) + [r] && Before(vs) == Before(us);
    LooseLonger(d, s, us, fl, a, b, Put(s, r), vs);
  }

  /** More records in the last unit of the buffer change nothing on the device. */
  lemma LooseLonger(d: Disk, s: LogState, us: Units, fl: seq<Record>, a: seq<Record>, b: seq<Record>, s2: LogState, vs: Units)
    requires Loose(d, s, us, fl, a, b) && Writer(s2, vs) && s2.state == s.state
    requires |vs| == |us| && Before(vs) == Before(us) && Last(us) <= Last(vs)
    ensures Loose(d, s2, vs, fl, a, b)
  {
    hide EncodeAll, Torn, UnitOk, HoldsBytes, Writer;
    WriterSized(s2, vs);
    HoldsPut(d.log, us, vs, Torn(a, b));
    assert |us| > 1 ==> vs[|vs| - 2] == Before(vs)[|vs| - 2] == us[|us| - 2];
  }

  lemma HoldsPut(log: seq<byte>, us: Units, vs: Units, m: seq<byte>)
    requires HoldsBytes(log, us, m) && AllOk(vs) && |vs| == |us| && Before(vs) == Before(us)
    ensures HoldsBytes(log, vs, m)
  {
    hide UnitBytes, At;
    forall i | 0 <= i < |vs| - 1 ensures vs[i] == us[i] {
      assert Before(vs)[i] == Before(us)[i];
    }
  }

  lemma PutState(s: LogState, r: Record)
    requires Sized(s) && !Full(s, |Encode(r)|)
    ensures Put(s, r).state == s.state
  {
  }

  lemma RecordLoose(d: Disk, s: LogState, us: Units, fl: seq<Record>, a: seq<Record>, b: seq<Record>, r: Record)
    returns (fl2: seq<Record>, a2: seq<Record>, b2: seq<Record>)
    requires Loose(d, s, us, fl, a, b) && WriterRecord(r) && UNIT * |AddRecord(us, r)| <= |d.log|
    ensures Sized(s) && !Full(Room(s, |Encode(r)|), |Encode(r)|)
    ensures var c := ApplyAll(d, RoomPlan(s, |Encode(r)|));
            Loose(c, Put(Room(s, |Encode(r)|), r), AddRecord(us, r), fl2, a2, b2) && c.blocks == d.blocks
    ensures FlushedRecords(us, fl) <= FlushedRecords(AddRecord(us, r), fl2)
  {
    hide EncodeAll, Encode, Put, Loose, Full, Writer, Records;
    LooseParts(d, s, us, fl, a, b);
    var size := |Encode(r)|;
    RoomKeepsWriter(s, us, size);
    RecordKeepsWriter(s, us, r);
    a2, b2 := RoomLoose(d, s, us, fl, a, b, size);
    fl2 := FlushedBy(s, size, fl);
    var vs := Opened(s, us, size);
    PutLoose(ApplyAll(d, RoomPlan(s, size)), Room(s, size), vs, fl2, a2, b2, r);
    if Full(s, size) {
      assert Before(vs) == us && Last(vs) + [r] == [r];
    }
    assert Before(vs) + [Last(vs) + [r]] == AddRecord(us, r);
    FlushedArePrefix(us, fl);
  }

  lemma RoomLooseCut(d: Disk, s: LogState, us: Units, fl: seq<Record>, a: seq<Record>, b: seq<Record>, size: nat, k: nat)
    returns (a2: seq<Record>, b2: seq<Record>)
    requires Loose(d, s, us, fl, a, b) && size <= LRD_SIZE + PAGE && Sized(s) && k < |RoomPlan(s, size)|
    ensures var r := ApplyAll(d, RoomPlan(s, size)[..k]);
            Loose(r, s, us, fl, a2, b2) && r.blocks == d.blocks
  {
    hide FlushPlan, Loose, Full, Writer;
    LooseParts(d, s, us, fl, a, b);
    RoomKeepsWriter(s, us, size);
    a2, b2 := FlushLooseCut(d, s, us, fl, a, b, k);
  }

  /** Chain and end pointers play no part. */
  lemma LooseLinks(d: Disk, s: LogState, us: Units, fl: seq<Record>, a: seq<Record>, b: seq<Record>, prev: nat, end: nat)
    requires Loose(d, s, us, fl, a, b)
    ensures Loose(d, s.(prevOffset := prev, end := end), us, fl, a, b)
  {
    hide HoldsBytes, Writer, Torn;
    LinksPlayNoPart(s, us, prev, end);
  }

  // ---- The pages of a transaction ----

  lemma AppendLoose(d: Disk, s: LogState, us: Units, fl: seq<Record>, a: seq<Record>, b: seq<Record>, tid: nat, block: nat, page: Page)
    returns (fl2: seq<Record>, a2: seq<Record>, b2: seq<Record>)
    requires Loose(d, s, us, fl, a, b) && Sized(s) && tid % TWO32 != 0
    requires UNIT * |AddRecord(us, NextRedo(s, tid, block, page))| <= |d.log|
    ensures var c, vs := ApplyAll(d, AppendPlan(s)), AddRecord(us, NextRedo(s, tid, block, page));
            && Loose(c, Append(s, tid, block, page), vs, fl2, a2, b2) && c.blocks == d.blocks
            && FlushedRecords(us, fl) <= FlushedRecords(vs, fl2)
  {
    hide Loose, RoomPlan, Put, Room, AddRecord, Encode, WriterRecord, FlushedRecords;
    var r, t := NextRedo(s, tid, block, page), Append(s, tid, block, page);
    RedoIsWriter(s, tid, block, page);
    fl2, a2, b2 := RecordLoose(d, s, us, fl, a, b, r);
    AppendIs(s, tid, block, page);
    LooseLinks(ApplyAll(d, AppendPlan(s)), Put(Room(s, |Encode(r)|), r), AddRecord(us, r), fl2, a2, b2, t.prevOffset, t.end);
  }

  lemma {:induction false} AppendAllLoose(d: Disk, s: LogState, us: Units, fl: seq<Record>, a: seq<Record>, b: seq<Record>, tid: nat,
                                          pages: seq<(nat, Page)>)
    returns (fl2: seq<Record>, a2: seq<Record>, b2: seq<Record>)
    requires Loose(d, s, us, fl, a, b) && Sized(s) && tid % TWO32 != 0 && UNIT * |AddPages(us, s, tid, pages)| <= |d.log|
    ensures var c, vs := ApplyAll(d, AppendAllPlan(s, tid, pages)), AddPages(us, s, tid, pages);
            && Loose(c, AppendAll(s, tid, pages), vs, fl2, a2, b2) && c.blocks == d.blocks
            && FlushedRecords(us, fl) <= FlushedRecords(vs, fl2)
    decreases |pages|
  {
    hide Loose, AddRecord, NextRedo, AppendPlan, Append, FlushedRecords;
    if pages == [] {
      fl2, a2, b2 := fl, a, b;
    } else {
      var n := |pages| - 1;
      AddPagesGrows(us, s, tid, pages, n);
      fl2, a2, b2 := AppendAllLoose(d, s, us, fl, a, b, tid, pages[..n]);
      var plan := AppendAllPlan(s, tid, pages[..n]);
      var c, s1, u1 := ApplyAll(d, plan), AppendAll(s, tid, pages[..n]), AddPages(us, s, tid, pages[..n]);
      fl2, a2, b2 := AppendLoose(c, s1, u1, fl2, a2, b2, tid, pages[n].0, pages[n].1);
      ApplyAllConcat(d, plan, AppendPlan(s1));
    }
  }

  lemma RedoIsWriter(s: LogState, tid: nat, block: nat, page: Page)
    requires tid % TWO32 != 0
    ensures WriterRecord(NextRedo(s, tid, block, page)) && |Encode(NextRedo(s, tid, block, page))| == LRD_SIZE + PAGE
  {
  }

  lemma CommitIsWriter(s: LogState, tid: nat)
    requires tid % TWO32 != 0
    ensures WriterRecord(NextCommit(s, tid))
  {
  }

  lemma AppendIs(s: LogState, tid: nat, block: nat, page: Page)
    requires Sized(s)
    ensures var r, t := NextRedo(s, tid, block, page), Append(s, tid, block, page);
            && !Full(Room(s, |Encode(r)|), |Encode(r)|)
            && t == Put(Room(s, |Encode(r)|), r).(prevOffset := t.prevOffset, end := t.end)
  {
  }

  /** The appends stop: the buffer holds the records of the first pages. */
  lemma {:induction false} AppendAllLooseCut(d: Disk, s: LogState, us: Units, fl: seq<Record>, a: seq<Record>, b: seq<Record>, tid: nat,
                                             pages: seq<(nat, Page)>, k: nat)
    returns (n: nat, fl2: seq<Record>, a2: seq<Record>, b2: seq<Record>)
    requires Loose(d, s, us, fl, a, b) && Sized(s) && tid % TWO32 != 0 && UNIT * |AddPages(us, s, tid, pages)| <= |d.log|
    requires k < |AppendAllPlan(s, tid, pages)|
    ensures n == PagesPut(s, tid, pages, k)
    ensures var c, vs := ApplyAll(d, AppendAllPlan(s, tid, pages)[..k]), AddPages(us, s, tid, pages[..n]);
            && Loose(c, AppendAll(s, tid, pages[..n]), vs, fl2, a2, b2) && c.blocks == d.blocks
            && FlushedRecords(us, fl) <= FlushedRecords(vs, fl2)
    decreases |pages|
  {
    hide Loose, AddRecord, NextRedo, Append, FlushedRecords, PagesPut, RoomPlan, AddPages, AppendAll;
    var m := |pages| - 1;
    var plan, s1 := AppendAllPlan(s, tid, pages[..m]), AppendAll(s, tid, pages[..m]);
    PagesPutStep(s, tid, pages, k);
    AddPagesGrows(us, s, tid, pages, m);
    if k < |plan| {
      n, fl2, a2, b2 := AppendAllLooseCut(d, s, us, fl, a, b, tid, pages[..m], k);
      assert pages[..m][..n] == pages[..n];
      assert AppendAllPlan(s, tid, pages)[..k] == plan[..k];
    } else {
      n := m;
      fl2, a2, b2 := AppendAllLoose(d, s, us, fl, a, b, tid, pages[..m]);
      a2, b2 := RoomLooseCut(ApplyAll(d, plan), s1, AddPages(us, s, tid, pages[..m]), fl2, a2, b2, LRD_SIZE + PAGE, k - |plan|);
      assert AppendAllPlan(s, tid, pages)[..k] == plan + AppendPlan(s1)[..k - |plan|];
      ApplyAllConcat(d, plan, AppendPlan(s1)[..k - |plan|]);
    }
  }

  // ---- The logging of a transaction ----

  /** Units after the logging of a transaction stopped after `k` calls, as far as records were put into the buffer. */
  function UnitsAfterFailure(us: Units, s: LogState, t: Txn, k: nat): Units
    requires Sized(s)
  {
    if k < CommitPut(s, t) then AddPages(us, s, t.tid, t.pages[..PagesPut(s, t.tid, t.pages, k)]) else AddTxn(us, s, t)
  }

  /** The pages and the commit record are in the buffer; the last flush is still to come. */
  lemma PutAllLoose(d: Disk, s: LogState, us: Units, fl: seq<Record>, a: seq<Record>, b: seq<Record>, t: Txn)
    returns (fl2: seq<Record>, a2: seq<Record>, b2: seq<Record>)
    requires Loose(d, s, us, fl, a, b) && Sized(s) && t.tid % TWO32 != 0 && UNIT * |AddTxn(us, s, t)| <= |d.log|
    ensures var s1 := AppendAll(s, t.tid, t.pages);
            var c := ApplyAll(d, AppendAllPlan(s, t.tid, t.pages) + RoomPlan(s1, LRD_SIZE));
            && Loose(c, Put(Room(s1, LRD_SIZE), NextCommit(s1, t.tid)), AddTxn(us, s, t), fl2, a2, b2) && c.blocks == d.blocks
            && FlushedRecords(us, fl) <= FlushedRecords(AddTxn(us, s, t), fl2)
  {
    hide Loose, AppendAll, AppendAllPlan, AddPages, AddRecord, RoomPlan, Put, Room, Encode, WriterRecord, FlushedRecords;
    AddTxnGrows(us, s, t);
    fl2, a2, b2 := AppendAllLoose(d, s, us, fl, a, b, t.tid, t.pages);
    var plan, s1, u1 := AppendAllPlan(s, t.tid, t.pages), AppendAll(s, t.tid, t.pages), AddPages(us, s, t.tid, t.pages);
    CommitIsWriter(s1, t.tid);
    fl2, a2, b2 := RecordLoose(ApplyAll(d, plan), s1, u1, fl2, a2, b2, NextCommit(s1, t.tid));
    ApplyAllConcat(d, plan, RoomPlan(s1, LRD_SIZE));
  }

  /** A logging that stops anywhere. */
  lemma LoggedLooseCut(d: Disk, s: LogState, us: Units, fl: seq<Record>, a: seq<Record>, b: seq<Record>, t: Txn, k: nat, end: nat)
    returns (fl2: seq<Record>, a2: seq<Record>, b2: seq<Record>)
    requires Loose(d, s, us, fl, a, b) && Sized(s) && t.tid % TWO32 != 0 && UNIT * |AddTxn(us, s, t)| <= |d.log|
    requires k < |LoggedPlan(s, t)|
    ensures var c, vs := ApplyAll(d, LoggedPlan(s, t)[..k]), UnitsAfterFailure(us, s, t, k);
            && Loose(c, AfterFailure(s, t, k, end), vs, fl2, a2, b2) && c.blocks == d.blocks
            && FlushedRecords(us, fl) <= FlushedRecords(vs, fl2)
  {
    hide Loose, AppendAll, AppendAllPlan, AddPages, RoomPlan, Put, FlushPlan, FlushedRecords, PagesPut, NextCommit, AddTxn;
    AddTxnGrows(us, s, t);
    var plan, s1 := AppendAllPlan(s, t.tid, t.pages), AppendAll(s, t.tid, t.pages);
    var room, s2 := RoomPlan(s1, LRD_SIZE), Put(Room(s1, LRD_SIZE), NextCommit(s1, t.tid));
    if k < |plan| {
      var n;
      n, fl2, a2, b2 := AppendAllLooseCut(d, s, us, fl, a, b, t.tid, t.pages, k);
      assert LoggedPlan(s, t)[..k] == plan[..k];
    } else if k < |plan| + |room| {
      AllPut(s, t.tid, t.pages, k);
      assert t.pages[..|t.pages|] == t.pages;
      fl2, a2, b2 := AppendAllLoose(d, s, us, fl, a, b, t.tid, t.pages);
      a2, b2 := RoomLooseCut(ApplyAll(d, plan), s1, AddPages(us, s, t.tid, t.pages), fl2, a2, b2, LRD_SIZE, k - |plan|);
      assert LoggedPlan(s, t)[..k] == plan + room[..k - |plan|];
      ApplyAllConcat(d, plan, room[..k - |plan|]);
    } else {
      fl2, a2, b2 := PutAllLoose(d, s, us, fl, a, b, t);
      AddTxnLast(us, s, t);
      a2, b2 := FlushLooseCut(ApplyAll(d, plan + room), s2, AddTxn(us, s, t), fl2, a2, b2, k - |plan| - |room|);
      assert LoggedPlan(s, t)[..k] == plan + room + FlushPlan(s2)[..k - |plan| - |room|];
      ApplyAllConcat(d, plan + room, FlushPlan(s2)[..k - |plan| - |room|]);
    }
    var r := if k < CommitPut(s, t) then AppendAll(s, t.tid, t.pages[..PagesPut(s, t.tid, t.pages, k)]) else s2;
    LooseLinks(ApplyAll(d, LoggedPlan(s, t)[..k]), r, UnitsAfterFailure(us, s, t, k), fl2, a2, b2, r.prevOffset, end);
  }

  lemma AddTxnLast(us: Units, s: LogState, t: Txn)
    requires Sized(s)
    ensures Last(AddTxn(us, s, t)) != []
  {
    hide AddRecord, AddPages, AppendAll;
    LastNotEmpty(AddPages(us, s, t.tid, t.pages), NextCommit(AppendAll(s, t.tid, t.pages), t.tid));
  }

  lemma AllPut(s: LogState, tid: nat, pages: seq<(nat, Page)>, k: nat)
    requires Sized(s) && k >= |AppendAllPlan(s, tid, pages)|
    ensures PagesPut(s, tid, pages, k) == |pages|
  {
  }

  /** A whole logging settles the log, with everything that was in the buffer. */
  lemma LooseSettles(d: Disk, s: LogState, us: Units, fl: seq<Record>, a: seq<Record>, b: seq<Record>, t: Txn)
    requires Loose(d, s, us, fl, a, b) && Sized(s) && t.tid % TWO32 != 0 && UNIT * |AddTxn(us, s, t)| <= |d.log|
    ensures var c := ApplyAll(d, LoggedPlan(s, t));
            Settled(c, Logged(s, t), AddTxn(us, s, t)) && c.blocks == d.blocks
  {
    hide Loose, AppendAll, AppendAllPlan, AddPages, RoomPlan, Put, FlushPlan, Writer, Holds, Records, NextCommit, AddRecord;
    var plan, s1 := AppendAllPlan(s, t.tid, t.pages), AppendAll(s, t.tid, t.pages);
    var room, s2, vs := RoomPlan(s1, LRD_SIZE), Put(Room(s1, LRD_SIZE), NextCommit(s1, t.tid)), AddTxn(us, s, t);
    var fl2, a2, b2 := PutAllLoose(d, s, us, fl, a, b, t);
    var c := ApplyAll(d, plan + room);
    AddTxnLast(us, s, t);
    FlushLoose(c, s2, vs, fl2, a2, b2);
    LooseParts(c, s2, vs, fl2, a2, b2);
    LooseParts(d, s, us, fl, a, b);
    AddPagesWriter(us, s, t.tid, t.pages);
    CommitKeepsWriter(s1, AddPages(us, s, t.tid, t.pages), t.tid);
    ApplyAllConcat(d, plan + room, FlushPlan(s2));
    assert plan + room + FlushPlan(s2) == LoggedPlan(s, t);
    FlushedArePrefix(vs, Last(vs));
  }

  // ---- The next commit ----

  /** A commit over a log that is ahead in the buffer: the log settles and the blocks are written. */
  lemma NextCommitRuns(d: Disk, s: LogState, us: Units, fl: seq<Record>, a: seq<Record>, b: seq<Record>, t: Txn, k: nat)
    requires Loose(d, s, us, fl, a, b) && Sized(s) && Fit(d.blocks, t) && UNIT * |AddTxn(us, s, t)| <= |d.log|
    requires |LoggedPlan(s, t)| < k <= |CommitPlan(s, t)|
    ensures var c := ApplyAll(d, CommitPlan(s, t)[..k]);
            && Settled(c, Logged(s, t), AddTxn(us, s, t))
            && c.blocks == ApplyWrites(d.blocks, TxnWrites(t)[..PagesPlaced(s, t, k)])
  {
    hide Loose, Settled, AddTxn, LoggedPlan, Logged, BlockWrites, TxnWrites, ApplyWrites, Fit, CommitPlan;
    FitId(d.blocks, t);
    LooseSettles(d, s, us, fl, a, b, t);
    var l, i := LoggedPlan(s, t), PagesPlaced(s, t, k);
    InPlacePrefix(d, s, t, k, i);
    ApplyAllOne(d, FlushData);
    ApplyAllConcat(d, [FlushData], l);
    var c := ApplyAll(d, l);
    BlockWritesApply(c, t, i);
    ApplyAllConcat(d, [FlushData] + l, BlockWrites(t)[..i]);
    SettledBlocks(c, Logged(s, t), AddTxn(us, s, t), ApplyWrites(c.blocks, TxnWrites(t)[..i]));
  }
}

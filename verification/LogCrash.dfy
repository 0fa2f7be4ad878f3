/**
 The log area at every device call of a transaction's logging: what has been flushed, what is being
 flushed, and which records recovery would see if the machine stopped there.
 */
module LogCrash {
  import opened Bytes
  import opened LogRecord
  import opened Device
  import opened LogWriter
  import opened LogLayout
  import opened LogScan
  import opened LogReadBack
  import opened LogFlush

  /** The page writes of a flush, named by unit. */
  lemma PageWritesShape(s: LogState, us: Units)
    requires Writer(s, us) && Last(us) != []
    ensures |PageWrites(s)| == (|EncodeAll(Last(us))| + PAGE - 1) / PAGE <= 2
    ensures forall i :: 0 <= i < |PageWrites(s)| ==>
              PageWrites(s)[i] == PageWrite(2 * (|us| - 1) + i, s.buffer[i * PAGE..(i + 1) * PAGE])
  {
    hide EncodeAll, UnitBytes;
    OffsetInUnit(s, us);
    assert |EncodeAll(Last(us))| > 0;
    assert (s.writeOffset - s.writeOffset % UNIT) / PAGE == 2 * (|us| - 1);
  }

  /** One page write of a flush. */
  lemma PageApplied(d: Disk, us: Units, u: seq<Record>, flushed: seq<Record>, j: nat)
    requires UnitOk(u) && UnitOk(flushed) && j < 2 && HoldsBytes(d.log, us, Mixed(u, flushed, j))
    ensures var r := Apply(d, PageWrite(2 * (|us| - 1) + j, UnitBytes(u)[j * PAGE..(j + 1) * PAGE]));
            HoldsBytes(r.log, us, Mixed(u, flushed, j + 1)) && r == d.(log := r.log)
  {
    hide EncodeAll, UnitBytes, HoldsBytes, Mixed;
    OverwritePage(d.log, us, Mixed(u, flushed, j), j, UnitBytes(u)[j * PAGE..(j + 1) * PAGE]);
    MixedStep(u, flushed, j);
    assert (2 * (|us| - 1) + j) * PAGE == UNIT * (|us| - 1) + j * PAGE;
  }

  /** After the first `j` page writes the last unit has its first `j` pages from the buffer. */
  lemma {:induction false} PagesApplied(d: Disk, s: LogState, us: Units, flushed: seq<Record>, j: nat)
    requires Writer(s, us) && Last(us) != [] && Holds(d.log, us, flushed) && j <= |PageWrites(s)|
    ensures UnitOk(Last(us)) && UnitOk(flushed) && j <= 2
    ensures var r := ApplyAll(d, PageWrites(s)[..j]);
            HoldsBytes(r.log, us, Mixed(Last(us), flushed, j)) && r == d.(log := r.log)
    decreases j
  {
    hide EncodeAll, UnitBytes, HoldsBytes, PageWrites, Apply;
    PageWritesShape(s, us);
    assert UnitOk(Last(us)) by { assert UnitOk(us[|us| - 1]); }
    var ws := PageWrites(s);
    if j == 0 {
      assert ws[..0] == [];
      HoldsAsBytes(d.log, us, flushed);
      assert Mixed(Last(us), flushed, 0) == UnitBytes(flushed);
    } else {
      PagesApplied(d, s, us, flushed, j - 1);
      assert ws[..j][..j - 1] == ws[..j - 1];
      PageApplied(ApplyAll(d, ws[..j - 1]), us, Last(us), flushed, j - 1);
    }
  }

  /** A crash left the end pointer behind `flushed` and the last unit with `j` pages from the buffer. */
  ghost predicate Cut(d: Disk, us: Units, flushed: seq<Record>, j: nat) {
    && AllOk(us) && UnitOk(Last(us)) && UnitOk(flushed) && flushed <= Last(us) && j <= 2
    && HoldsBytes(d.log, us, Mixed(Last(us), flushed, j))
    && d.end == FlushedEnd(us, flushed)
    && (|us| > 1 ==> us[|us| - 2] != [])
  }

  lemma CutIsReadable(d: Disk, us: Units, flushed: seq<Record>, j: nat)
    requires Cut(d, us, flushed, j)
    ensures Readable(d.log, us, flushed)
  {
    hide EncodeAll, UnitBytes, Mixed, NextRecord;
    NotBadBehind(d.log, us, flushed, j);
    MixedPrefix(Last(us), flushed, j);
    var m := Mixed(Last(us), flushed, j);
    AtSlice(d.log, UNIT * (|us| - 1), m, 0, |EncodeAll(flushed)|);
  }

  /** Everything in the buffer reaches the device: the end of a flush. */
  lemma FlushCompletes(d: Disk, s: LogState, us: Units, flushed: seq<Record>)
    requires Writer(s, us) && Last(us) != [] && Holds(d.log, us, flushed)
    requires EndOf(us) < TWO32
    ensures var r := ApplyAll(d, FlushPlan(s));
            && Holds(r.log, us, Last(us))
            && r == Disk(r.log, FlushedEnd(us, Last(us)), s.state, d.blocks)
  {
    hide EncodeAll, UnitBytes, HoldsBytes, PageWrites, Holds;
    PageWritesShape(s, us);
    var ws := PageWrites(s);
    PagesApplied(d, s, us, flushed, |ws|);
    assert ws[..|ws|] == ws;
    var m := ApplyAll(d, ws);
    assert flushed <= Last(us) by { HoldsPrefix(d.log, us, flushed); }
    MixedComplete(Last(us), flushed, |ws|);
    HoldsAsBytes(m.log, us, Last(us));
    var tail := [FlushMetadata, Sync, SuperWrite(s.writeOffset % TWO32, s.state)];
    ApplyAllConcat(d, ws, tail);
    TailApplied(m, s);
  }

  lemma HoldsPrefix(log: seq<byte>, us: Units, flushed: seq<Record>)
    requires Holds(log, us, flushed)
    ensures UnitOk(flushed) && flushed <= Last(us)
  {
  }

  lemma TailApplied(d: Disk, s: LogState)
    ensures ApplyAll(d, [FlushMetadata, Sync, SuperWrite(s.writeOffset % TWO32, s.state)])
         == d.(end := s.writeOffset % TWO32, state := s.state)
  {
    var es := [FlushMetadata, Sync, SuperWrite(s.writeOffset % TWO32, s.state)];
    assert es[..2] == [FlushMetadata, Sync];
    assert [FlushMetadata, Sync][..1] == [FlushMetadata];
    ApplyAllOne(d, FlushMetadata);
  }

  /** A crash inside a flush: the end pointer is where it was. */
  lemma FlushCut(d: Disk, s: LogState, us: Units, flushed: seq<Record>, k: nat) returns (j: nat)
    requires Writer(s, us) && Last(us) != [] && Holds(d.log, us, flushed)
    requires d.end == FlushedEnd(us, flushed) && k < |FlushPlan(s)|
    ensures var r := ApplyAll(d, FlushPlan(s)[..k]);
            Cut(r, us, flushed, j) && r == d.(log := r.log)
  {
    hide EncodeAll, UnitBytes, HoldsBytes, PageWrites, Holds;
    var ws := PageWrites(s);
    HoldsPrefix(d.log, us, flushed);
    assert AllOk(us);
    if k <= |ws| {
      j := k;
      PagesApplied(d, s, us, flushed, k);
      assert FlushPlan(s)[..k] == ws[..k];
    } else {
      j := |ws|;
      PagesApplied(d, s, us, flushed, |ws|);
      assert ws[..|ws|] == ws;
      var m := ApplyAll(d, ws);
      if k == |ws| + 1 {
        assert FlushPlan(s)[..k] == ws + [FlushMetadata];
        ApplyAllConcat(d, ws, [FlushMetadata]);
        ApplyAllOne(m, FlushMetadata);
      } else {
        assert FlushPlan(s)[..k] == ws + [FlushMetadata] + [Sync];
        ApplyAllConcat(d, ws, [FlushMetadata]);
        ApplyAllOne(m, FlushMetadata);
        ApplyAllConcat(d, ws + [FlushMetadata], [Sync]);
        ApplyAllOne(m, Sync);
      }
    }
  }

  // ---- The whole logging of a transaction ----

  /** The records whose flush has completed. */
  function FlushedRecords(us: Units, flushed: seq<Record>): seq<Record> {
    Records(Before(us)) + flushed
  }

  /** The device holds what the writer has flushed, and that includes the records `base`. */
  ghost predicate Synced(d: Disk, s: LogState, us: Units, flushed: seq<Record>, base: seq<Record>) {
    && Writer(s, us)
    && Holds(d.log, us, flushed)
    && d.end == FlushedEnd(us, flushed)
    && d.state == s.state
    && |d.log| < TWO32
    && base <= FlushedRecords(us, flushed)
  }

  lemma FlushedArePrefix(us: Units, flushed: seq<Record>)
    requires flushed <= Last(us)
    ensures FlushedRecords(us, flushed) <= Records(us)
    ensures FlushedRecords(us, Last(us)) == Records(us)
  {
  }

  /** A new unit behind a completely flushed one is empty on the device. */
  lemma OpenUnit(log: seq<byte>, us: Units)
    requires Holds(log, us, Last(us)) && UNIT * (|us| + 1) <= |log|
    ensures Holds(log, us + [[]], [])
    ensures FlushedEnd(us + [[]], []) == UNIT * (|us| - 1) + |EncodeAll(Last(us))|
    ensures FlushedRecords(us + [[]], []) == Records(us)
  {
    hide EncodeAll;
    EmptyUnit();
    var vs := us + [[]];
    assert Before(vs) == us && Last(vs) == [];
    assert Records(us) + [] == Records(us);
    forall i | 0 <= i < |vs| - 1 ensures At(log, UNIT * i, UnitBytes(vs[i])) {
      assert vs[i] == us[i];
    }
    assert log[UNIT * |us|..UNIT * |us| + UNIT] == Zeros(UNIT);
  }

  function Opened(s: LogState, us: Units, size: nat): Units {
    if Full(s, size) then us + [[]] else us
  }

  lemma RoomSynced(d: Disk, s: LogState, us: Units, flushed: seq<Record>, base: seq<Record>, size: nat)
    requires Synced(d, s, us, flushed, base) && size <= LRD_SIZE + PAGE
    requires UNIT * |Opened(s, us, size)| <= |d.log|
    ensures var r := ApplyAll(d, RoomPlan(s, size));
            && Synced(r, Room(s, size), Opened(s, us, size), if Full(s, size) then [] else flushed, base)
            && r.blocks == d.blocks
  {
    hide EncodeAll, UnitBytes, FlushPlan, Holds, Writer, Full;
    assert Sized(s) by { WriterSized(s, us); }
    RoomKeepsWriter(s, us, size);
    if Full(s, size) {
      EndInLog(s, us, |d.log|);
      FlushCompletes(d, s, us, flushed);
      var r := ApplyAll(d, FlushPlan(s));
      OpenUnit(r.log, us);
      HoldsPrefix(d.log, us, flushed);
      FlushedArePrefix(us, flushed);
      assert Room(s, size).state == s.state;
    }
  }

  lemma WriterSized(s: LogState, us: Units)
    requires Writer(s, us)
    ensures Sized(s) && AllOk(us)
  {
  }

  lemma EndInLog(s: LogState, us: Units, n: nat)
    requires Writer(s, us) && UNIT * |us| <= n
    ensures EndOf(us) <= n
  {
    assert UnitOk(us[|us| - 1]);
  }

  lemma PutSynced(d: Disk, s: LogState, us: Units, flushed: seq<Record>, base: seq<Record>, r: Record)
    requires Synced(d, s, us, flushed, base) && WriterRecord(r) && Sized(s) && !Full(s, |Encode(r)|)
    ensures var vs: Units := Before(us) + [Last(us) + [r]];
            && Synced(d, Put(s, r), vs, flushed, base)
            && FlushedRecords(vs, flushed) == FlushedRecords(us, flushed)
  {
    hide EncodeAll, Encode, UnitBytes, Put;
    PutKeepsWriter(s, us, r);
    var vs: Units := Before(us) + [Last(us) + [r]];
    assert Before(vs) == Before(us) && Last(vs) == Last(us) + [r];
    forall i | 0 <= i < |vs| - 1 ensures At(d.log, UNIT * i, UnitBytes(vs[i])) {
      assert vs[i] == us[i];
    }
    WriterSized(Put(s, r), vs);
    assert |us| > 1 ==> vs[|vs| - 2] == us[|us| - 2];
  }

  /** One record more, logged: room, then the record in the buffer. */
  lemma RecordSynced(d: Disk, s: LogState, us: Units, flushed: seq<Record>, base: seq<Record>, r: Record)
    requires Synced(d, s, us, flushed, base) && WriterRecord(r)
    requires UNIT * |AddRecord(us, r)| <= |d.log|
    ensures Sized(s) && !Full(Room(s, |Encode(r)|), |Encode(r)|)
    ensures var d' := ApplyAll(d, RoomPlan(s, |Encode(r)|));
            var fl := if Full(s, |Encode(r)|) then [] else flushed;
            && Synced(d', Put(Room(s, |Encode(r)|), r), AddRecord(us, r), fl, base)
            && FlushedRecords(AddRecord(us, r), fl) <= Records(us)
            && d'.blocks == d.blocks
  {
    hide EncodeAll, Encode, Put, Synced, Full, Records;
    assert Writer(s, us) && UnitOk(flushed) && flushed <= Last(us) by { SyncedParts(d, s, us, flushed, base); }
    WriterSized(s, us);
    var size := |Encode(r)|;
    RoomKeepsWriter(s, us, size);
    RoomSynced(d, s, us, flushed, base, size);
    RecordKeepsWriter(s, us, r);
    var d', vs := ApplyAll(d, RoomPlan(s, size)), Opened(s, us, size);
    var fl := if Full(s, size) then [] else flushed;
    PutSynced(d', Room(s, size), vs, fl, base, r);
    if Full(s, size) {
      assert Before(vs) == us && Last(vs) + [r] == [r];
      assert Records(us) + [] == Records(us);
    } else {
      FlushedArePrefix(us, flushed);
    }
    assert Before(vs) + [Last(vs) + [r]] == AddRecord(us, r);
  }

  lemma SyncedParts(d: Disk, s: LogState, us: Units, flushed: seq<Record>, base: seq<Record>)
    requires Synced(d, s, us, flushed, base)
    ensures Writer(s, us) && AllOk(us) && UnitOk(flushed) && flushed <= Last(us) && Holds(d.log, us, flushed)
    ensures base <= FlushedRecords(us, flushed)
    ensures d.end == FlushedEnd(us, flushed)
  {
  }

  /** A crash while room is made leaves the flushed records readable. */
  lemma RoomCut(d: Disk, s: LogState, us: Units, flushed: seq<Record>, base: seq<Record>, size: nat, k: nat)
    returns (j: nat)
    requires Synced(d, s, us, flushed, base) && size <= LRD_SIZE + PAGE
    requires k < |RoomPlan(s, size)|
    ensures var r := ApplyAll(d, RoomPlan(s, size)[..k]);
            Cut(r, us, flushed, j) && r == d.(log := r.log)
  {
    hide EncodeAll, FlushPlan, Cut, Full, Synced;
    SyncedParts(d, s, us, flushed, base);
    RoomKeepsWriter(s, us, size);
    j := FlushCut(d, s, us, flushed, k);
  }

  lemma AppendSynced(d: Disk, s: LogState, us: Units, flushed: seq<Record>, base: seq<Record>,
                     tid: nat, block: nat, page: Page)
    requires Synced(d, s, us, flushed, base) && tid % TWO32 != 0
    requires UNIT * |AddRecord(us, NextRedo(s, tid, block, page))| <= |d.log|
    ensures Sized(s)
    ensures var d' := ApplyAll(d, AppendPlan(s));
            var fl := if Full(s, LRD_SIZE + PAGE) then [] else flushed;
            var vs := AddRecord(us, NextRedo(s, tid, block, page));
            && Synced(d', Append(s, tid, block, page), vs, fl, base)
            && FlushedRecords(vs, fl) <= Records(us)
            && d'.blocks == d.blocks
  {
    hide EncodeAll, Encode, Put, Writer, Holds, AddRecord, Records, RoomPlan;
    var r := NextRedo(s, tid, block, page);
    assert WriterRecord(r);
    RecordSynced(d, s, us, flushed, base, r);
    var t := Append(s, tid, block, page);
    LinksPlayNoPart(Put(Room(s, |Encode(r)|), r), AddRecord(us, r), t.prevOffset, t.end);
  }

  /** Units only grow in number. */
  lemma {:induction false} AddPagesGrows(us: Units, s: LogState, tid: nat, pages: seq<(nat, Page)>, m: nat)
    requires Sized(s) && m <= |pages|
    ensures |AddPages(us, s, tid, pages[..m])| <= |AddPages(us, s, tid, pages)|
    decreases |pages|
  {
    hide EncodeAll, Encode;
    if m == |pages| {
      assert pages[..m] == pages;
    } else {
      var init := pages[..|pages| - 1];
      AddPagesGrows(us, s, tid, init, m);
      assert init[..m] == pages[..m];
    }
  }

  /** All redo records of a transaction, logged. */
  lemma {:induction false} AppendAllSynced(d: Disk, s: LogState, us: Units, base: seq<Record>, fl0: seq<Record>,
                                           tid: nat, pages: seq<(nat, Page)>) returns (fl: seq<Record>)
    requires Synced(d, s, us, fl0, base) && Sized(s) && tid % TWO32 != 0
    requires UNIT * |AddPages(us, s, tid, pages)| <= |d.log|
    ensures var d' := ApplyAll(d, AppendAllPlan(s, tid, pages));
            && Synced(d', AppendAll(s, tid, pages), AddPages(us, s, tid, pages), fl, base)
            && d'.blocks == d.blocks
    decreases |pages|
  {
    hide Synced, AppendPlan, Append, AddRecord, NextRedo;
    if pages == [] {
      fl := fl0;
    } else {
      var m := |pages| - 1;
      AddPagesGrows(us, s, tid, pages, m);
      fl := AppendAllSynced(d, s, us, base, fl0, tid, pages[..m]);
      var plan := AppendAllPlan(s, tid, pages[..m]);
      var d1, s1, u1 := ApplyAll(d, plan), AppendAll(s, tid, pages[..m]), AddPages(us, s, tid, pages[..m]);
      AppendSynced(d1, s1, u1, fl, base, tid, pages[m].0, pages[m].1);
      ApplyAllConcat(d, plan, AppendPlan(s1));
      fl := if Full(s1, LRD_SIZE + PAGE) then [] else fl;
    }
  }

  /** A crash while redo records are appended: the visible records are some of those appended so far. */
  lemma {:induction false} AppendAllCut(d: Disk, s: LogState, us: Units, base: seq<Record>, fl0: seq<Record>,
                                        tid: nat, pages: seq<(nat, Page)>, k: nat)
    returns (m: nat, fl: seq<Record>, j: nat)
    requires Synced(d, s, us, fl0, base) && Sized(s) && tid % TWO32 != 0
    requires UNIT * |AddPages(us, s, tid, pages)| <= |d.log|
    requires k < |AppendAllPlan(s, tid, pages)|
    ensures m == PagesPut(s, tid, pages, k)
    ensures var d' := ApplyAll(d, AppendAllPlan(s, tid, pages)[..k]);
            && Cut(d', AddPages(us, s, tid, pages[..m]), fl, j)
            && base <= FlushedRecords(AddPages(us, s, tid, pages[..m]), fl)
            && d' == d.(log := d'.log, end := d'.end)
            && d'.state == s.state
    decreases |pages|
  {
    hide Synced, Cut, AppendPlan, AddRecord, NextRedo, Append, PagesPut;
    m := |pages| - 1;
    var plan := AppendAllPlan(s, tid, pages[..m]);
    PagesPutStep(s, tid, pages, k);
    AddPagesGrows(us, s, tid, pages, m);
    if k < |plan| {
      var m';
      m', fl, j := AppendAllCut(d, s, us, base, fl0, tid, pages[..m], k);
      assert pages[..m][..m'] == pages[..m'];
      assert AppendAllPlan(s, tid, pages)[..k] == plan[..k];
      m := m';
    } else {
      fl, j := LastAppendCut(d, s, us, base, fl0, tid, pages, k);
    }
  }

  /** The same in the last of the appends. */
  lemma LastAppendCut(d: Disk, s: LogState, us: Units, base: seq<Record>, fl0: seq<Record>, tid: nat, pages: seq<(nat, Page)>, k: nat)
    returns (fl: seq<Record>, j: nat)
    requires Synced(d, s, us, fl0, base) && Sized(s) && tid % TWO32 != 0 && pages != []
    requires UNIT * |AddPages(us, s, tid, pages)| <= |d.log|
    requires |AppendAllPlan(s, tid, pages[..|pages| - 1])| <= k < |AppendAllPlan(s, tid, pages)|
    ensures var d', vs := ApplyAll(d, AppendAllPlan(s, tid, pages)[..k]), AddPages(us, s, tid, pages[..|pages| - 1]);
            && Cut(d', vs, fl, j) && base <= FlushedRecords(vs, fl)
            && d' == d.(log := d'.log, end := d'.end) && d'.state == s.state
  {
    hide Synced, Cut, AppendPlan, AddRecord, NextRedo, Append, AddPages;
    var m := |pages| - 1;
    var plan, s1 := AppendAllPlan(s, tid, pages[..m]), AppendAll(s, tid, pages[..m]);
    AddPagesGrows(us, s, tid, pages, m);
    fl := AppendAllSynced(d, s, us, base, fl0, tid, pages[..m]);
    var d1, u1 := ApplyAll(d, plan), AddPages(us, s, tid, pages[..m]);
    j := AppendCut(d1, s1, u1, fl, base, k - |plan|);
    assert AppendAllPlan(s, tid, pages)[..k] == plan + AppendPlan(s1)[..k - |plan|];
    ApplyAllConcat(d, plan, AppendPlan(s1)[..k - |plan|]);
    SyncedParts(d1, s1, u1, fl, base);
    AppendAllSuper(d, s, us, fl0, base, d1, s1, u1, fl);
  }

  lemma PagesPutStep(s: LogState, tid: nat, pages: seq<(nat, Page)>, k: nat)
    requires Sized(s) && pages != [] && k < |AppendAllPlan(s, tid, pages)|
    ensures var m := |pages| - 1;
            PagesPut(s, tid, pages, k)
            == if k < |AppendAllPlan(s, tid, pages[..m])| then PagesPut(s, tid, pages[..m], k) else m
  {
    hide AppendAllPlan;
  }

  lemma AppendCut(d: Disk, s: LogState, us: Units, flushed: seq<Record>, base: seq<Record>, k: nat)
    returns (j: nat)
    requires Synced(d, s, us, flushed, base) && Sized(s) && k < |AppendPlan(s)|
    ensures var r := ApplyAll(d, AppendPlan(s)[..k]);
            Cut(r, us, flushed, j) && r == d.(log := r.log)
  {
    hide Synced, Cut, RoomPlan;
    j := RoomCut(d, s, us, flushed, base, LRD_SIZE + PAGE, k);
  }

  lemma AppendAllSuper(d: Disk, s: LogState, us: Units, fl: seq<Record>, base: seq<Record>,
                       d1: Disk, s1: LogState, u1: Units, fl1: seq<Record>)
    requires Synced(d, s, us, fl, base) && Synced(d1, s1, u1, fl1, base) && s1.state == s.state
    ensures d1.state == d.state == s.state
  {
  }

  /** The commit record, logged and flushed: every record of the transaction is on the device. */
  lemma CommitSynced(d: Disk, s: LogState, us: Units, flushed: seq<Record>, base: seq<Record>, tid: nat)
    requires Synced(d, s, us, flushed, base) && Sized(s) && tid % TWO32 != 0
    requires UNIT * |AddRecord(us, NextCommit(s, tid))| <= |d.log|
    ensures var d' := ApplyAll(d, CommitRecordPlan(s, tid));
            var vs := AddRecord(us, NextCommit(s, tid));
            && Synced(d', Commit(s, tid), vs, Last(vs), Records(vs))
            && d'.blocks == d.blocks
  {
    hide EncodeAll, Encode, Put, Writer, Holds, AddRecord, Records, FlushPlan, RoomPlan;
    var r := NextCommit(s, tid);
    assert WriterRecord(r);
    RecordSynced(d, s, us, flushed, base, r);
    var d1, s1, vs := ApplyAll(d, RoomPlan(s, LRD_SIZE)), Put(Room(s, LRD_SIZE), r), AddRecord(us, r);
    var fl := if Full(s, LRD_SIZE) then [] else flushed;
    CommitKeepsWriter(s, us, tid);
    EndInLog(s1, vs, |d.log|);
    LastNotEmpty(us, r);
    FlushCompletes(d1, s1, vs, fl);
    ApplyAllConcat(d, RoomPlan(s, LRD_SIZE), FlushPlan(s1));
    FlushedArePrefix(vs, Last(vs));
  }

  lemma LastNotEmpty(us: Units, r: Record)
    ensures Last(AddRecord(us, r)) != []
  {
  }

  /** A crash before the commit record's flush is complete: the commit record is not visible. */
  lemma CommitCut(d: Disk, s: LogState, us: Units, flushed: seq<Record>, base: seq<Record>, tid: nat, k: nat)
    returns (vs: Units, fl: seq<Record>, j: nat)
    requires Synced(d, s, us, flushed, base) && Sized(s) && tid % TWO32 != 0
    requires UNIT * |AddRecord(us, NextCommit(s, tid))| <= |d.log|
    requires k < |CommitRecordPlan(s, tid)|
    ensures var d' := ApplyAll(d, CommitRecordPlan(s, tid)[..k]);
            && Cut(d', vs, fl, j)
            && (vs == us || vs == AddRecord(us, NextCommit(s, tid)))
            && base <= FlushedRecords(vs, fl) <= Records(us)
            && d' == d.(log := d'.log, end := d'.end)
  {
    hide EncodeAll, Encode, Put, Writer, Holds, AddRecord, Records, FlushPlan, RoomPlan, Cut;
    var r := NextCommit(s, tid);
    assert WriterRecord(r);
    SyncedParts(d, s, us, flushed, base);
    var plan := RoomPlan(s, LRD_SIZE);
    RecordSynced(d, s, us, flushed, base, r);
    var s1 := Put(Room(s, LRD_SIZE), r);
    if k < |plan| {
      vs, fl := us, flushed;
      j := RoomCut(d, s, us, flushed, base, LRD_SIZE, k);
      assert CommitRecordPlan(s, tid)[..k] == plan[..k];
      FlushedArePrefix(us, flushed);
    } else {
      vs, fl := AddRecord(us, r), if Full(s, LRD_SIZE) then [] else flushed;
      var d1 := ApplyAll(d, plan);
      SyncedParts(d1, s1, vs, fl, base);
      LastNotEmpty(us, r);
      j := FlushCut(d1, s1, vs, fl, k - |plan|);
      assert CommitRecordPlan(s, tid)[..k] == plan + FlushPlan(s1)[..k - |plan|];
      ApplyAllConcat(d, plan, FlushPlan(s1)[..k - |plan|]);
    }
  }

  /** Units after a whole transaction. */
  function AddTxn(us: Units, s: LogState, t: Txn): Units
    requires Sized(s)
  {
    AddRecord(AddPages(us, s, t.tid, t.pages), NextCommit(AppendAll(s, t.tid, t.pages), t.tid))
  }

  /** The records of a transaction: its page images, then its commit record. */
  function TxnRecords(s: LogState, t: Txn): seq<Record>
    requires Sized(s)
  {
    RedoRecords(s, t.tid, t.pages) + [NextCommit(AppendAll(s, t.tid, t.pages), t.tid)]
  }

  lemma AddTxnRecords(us: Units, s: LogState, t: Txn)
    requires Sized(s)
    ensures Records(AddTxn(us, s, t)) == Records(us) + TxnRecords(s, t)
  {
    hide Records, RedoRecords, AddPages, AppendAll, NextCommit, AddRecord;
    AddPagesRecords(us, s, t.tid, t.pages);
    AddRecordRecords(AddPages(us, s, t.tid, t.pages), NextCommit(AppendAll(s, t.tid, t.pages), t.tid));
  }

  lemma AddTxnGrows(us: Units, s: LogState, t: Txn)
    requires Sized(s)
    ensures |AddPages(us, s, t.tid, t.pages)| <= |AddTxn(us, s, t)|
  {
    hide EncodeAll, Encode, AddPages, AppendAll;
  }

  /** Between transactions: the device holds every record written. */
  ghost predicate Settled(d: Disk, s: LogState, us: Units) {
    Sized(s) && Synced(d, s, us, Last(us), Records(us))
  }

  /** The logging of a transaction leads from one settled state to the next. */
  lemma LoggedSettles(d: Disk, s: LogState, us: Units, t: Txn)
    requires Settled(d, s, us) && t.tid % TWO32 != 0
    requires UNIT * |AddTxn(us, s, t)| <= |d.log|
    ensures var d' := ApplyAll(d, LoggedPlan(s, t));
            Settled(d', Logged(s, t), AddTxn(us, s, t)) && d'.blocks == d.blocks
  {
    hide Synced, Records, AddRecord, AddPages, AppendAll, AppendAllPlan, CommitRecordPlan, Commit, NextCommit;
    AddTxnGrows(us, s, t);
    var fl := AppendAllSynced(d, s, us, Records(us), Last(us), t.tid, t.pages);
    var plan, s1 := AppendAllPlan(s, t.tid, t.pages), AppendAll(s, t.tid, t.pages);
    CommitSynced(ApplyAll(d, plan), s1, AddPages(us, s, t.tid, t.pages), fl, Records(us), t.tid);
    ApplyAllConcat(d, plan, CommitRecordPlan(s1, t.tid));
  }

  lemma AddTxnFirst(us: Units, s: LogState, t: Txn)
    requires Sized(s)
    ensures FirstKept(us, AddTxn(us, s, t))
  {
    hide FirstKept, AddRecord, AddPages, AppendAll;
    AddPagesFirst(us, s, t.tid, t.pages);
    AddRecordFirst(us, AddPages(us, s, t.tid, t.pages), NextCommit(AppendAll(s, t.tid, t.pages), t.tid));
  }

  /** What a crash during the logging leaves, in terms of the disk `r` it leaves behind. */
  ghost predicate LoggingCut(d: Disk, s: LogState, us: Units, t: Txn, r: Disk, vs: Units, fl: seq<Record>, j: nat)
    requires Sized(s)
  {
    && Cut(r, vs, fl, j)
    && Records(us) <= FlushedRecords(vs, fl) <= Records(us) + RedoRecords(s, t.tid, t.pages)
    && Records(vs) <= Records(us) + TxnRecords(s, t)
    && |vs| <= |AddTxn(us, s, t)|
    && FirstKept(us, vs)
    && r == d.(log := r.log, end := r.end)
  }

  /**
   A crash during the logging: the flushed records are those of before and some of the transaction's page
   images, never its commit record; what is being flushed is a part of the transaction's records.
   */
  lemma LoggedCut(d: Disk, s: LogState, us: Units, t: Txn, k: nat)
    returns (vs: Units, fl: seq<Record>, j: nat)
    requires Settled(d, s, us) && t.tid % TWO32 != 0
    requires UNIT * |AddTxn(us, s, t)| <= |d.log|
    requires k < |LoggedPlan(s, t)|
    ensures LoggingCut(d, s, us, t, ApplyAll(d, LoggedPlan(s, t)[..k]), vs, fl, j)
  {
    hide LoggingCut, AppendAll, AppendAllPlan, CommitRecordPlan, Synced;
    var plan := AppendAllPlan(s, t.tid, t.pages);
    if k < |plan| {
      vs, fl, j := LoggedCutInPages(d, s, us, t, k);
      assert LoggedPlan(s, t)[..k] == plan[..k];
    } else {
      var rest := CommitRecordPlan(AppendAll(s, t.tid, t.pages), t.tid)[..k - |plan|];
      vs, fl, j := LoggedCutInCommit(d, s, us, t, k - |plan|);
      assert LoggedPlan(s, t)[..k] == plan + rest;
      ApplyAllConcat(d, plan, rest);
    }
  }

  lemma LoggedCutInPages(d: Disk, s: LogState, us: Units, t: Txn, k: nat)
    returns (vs: Units, fl: seq<Record>, j: nat)
    requires Settled(d, s, us) && t.tid % TWO32 != 0
    requires UNIT * |AddTxn(us, s, t)| <= |d.log|
    requires k < |AppendAllPlan(s, t.tid, t.pages)|
    ensures LoggingCut(d, s, us, t, ApplyAll(d, AppendAllPlan(s, t.tid, t.pages)[..k]), vs, fl, j)
  {
    hide Synced, Records, AddRecord, AddTxn, AppendAll, AppendAllPlan, NextCommit, Cut, FlushedRecords, FirstKept;
    AddTxnGrows(us, s, t);
    var m;
    m, fl, j := AppendAllCut(d, s, us, Records(us), Last(us), t.tid, t.pages, k);
    vs := AddPages(us, s, t.tid, t.pages[..m]);
    AddPagesRecords(us, s, t.tid, t.pages[..m]);
    AddPagesFirst(us, s, t.tid, t.pages[..m]);
    RedoRecordsPrefix(s, t.tid, t.pages, m);
    AddPagesGrows(us, s, t.tid, t.pages, m);
    CutParts(ApplyAll(d, AppendAllPlan(s, t.tid, t.pages)[..k]), vs, fl, j);
    FlushedArePrefix(vs, fl);
  }

  lemma LoggedCutInCommit(d: Disk, s: LogState, us: Units, t: Txn, k: nat)
    returns (vs: Units, fl: seq<Record>, j: nat)
    requires Settled(d, s, us) && t.tid % TWO32 != 0
    requires UNIT * |AddTxn(us, s, t)| <= |d.log|
    requires k < |CommitRecordPlan(AppendAll(s, t.tid, t.pages), t.tid)|
    ensures LoggingCut(d, s, us, t, ApplyAll(ApplyAll(d, AppendAllPlan(s, t.tid, t.pages)),
                         CommitRecordPlan(AppendAll(s, t.tid, t.pages), t.tid)[..k]), vs, fl, j)
  {
    hide Synced, Records, AddRecord, AppendAll, AppendAllPlan, CommitRecordPlan, NextCommit, Cut, FlushedRecords, FirstKept;
    AddTxnGrows(us, s, t);
    AddPagesRecords(us, s, t.tid, t.pages);
    AddPagesFirst(us, s, t.tid, t.pages);
    AddTxnFirst(us, s, t);
    var s1, u1 := AppendAll(s, t.tid, t.pages), AddPages(us, s, t.tid, t.pages);
    fl := AppendAllSynced(d, s, us, Records(us), Last(us), t.tid, t.pages);
    var d1 := ApplyAll(d, AppendAllPlan(s, t.tid, t.pages));
    vs, fl, j := CommitCut(d1, s1, u1, fl, Records(us), t.tid, k);
    AddRecordRecords(u1, NextCommit(s1, t.tid));
    SyncedStates(d, s, us, d1, s1, u1);
  }

  lemma CutParts(d: Disk, us: Units, flushed: seq<Record>, j: nat)
    requires Cut(d, us, flushed, j)
    ensures flushed <= Last(us)
  {
  }

  lemma SyncedStates(d: Disk, s: LogState, us: Units, d1: Disk, s1: LogState, u1: Units)
    requires exists fl, base :: Synced(d, s, us, fl, base)
    requires exists fl, base :: Synced(d1, s1, u1, fl, base)
    requires s1.state == s.state
    ensures d1.state == d.state
  {
  }

  lemma {:induction false} RedoRecordsPrefix(s: LogState, tid: nat, pages: seq<(nat, Page)>, m: nat)
    requires Sized(s) && m <= |pages|
    ensures RedoRecords(s, tid, pages[..m]) <= RedoRecords(s, tid, pages)
    decreases |pages|
  {
    hide NextRedo, AppendAll;
    if m == |pages| {
      assert pages[..m] == pages;
    } else {
      var init := pages[..|pages| - 1];
      RedoRecordsPrefix(s, tid, init, m);
      assert init[..m] == pages[..m];
    }
  }
}

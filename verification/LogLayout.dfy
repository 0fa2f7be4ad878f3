/**
 The invariant of the log writer: its buffer and offset are those of a list of units, and appending a
 record adds it to the last unit or opens a new one.
 */
module LogLayout {
  import opened Bytes
  import opened LogRecord
  import opened Device
  import opened LogWriter

  type Units = us: seq<seq<Record>> | |us| >= 1 witness [[]]

  function Last(us: Units): seq<Record> {
    us[|us| - 1]
  }

  function Before(us: Units): seq<seq<Record>> {
    us[..|us| - 1]
  }

  /** All records of a list of units, oldest first. */
  function Records(us: seq<seq<Record>>): seq<Record>
    decreases |us|
  {
    if us == [] then [] else Records(us[..|us| - 1]) + us[|us| - 1]
  }

  predicate AllOk(us: seq<seq<Record>>) {
    forall i :: 0 <= i < |us| ==> UnitOk(us[i])
  }

  /** Byte offset just behind the last record. */
  function EndOf(us: Units): nat {
    UNIT * (|us| - 1) + |EncodeAll(Last(us))|
  }

  ghost predicate Writer(s: LogState, us: Units) {
    && AllOk(us)
    && Sized(s)
    && s.writeOffset == EndOf(us)
    && s.buffer == UnitBytes(Last(us))
    && (Last(us) != [] ==> s.dirty)
    && (|us| > 1 ==> forall i :: 0 <= i < |us| - 1 ==> us[i] != [])
  }

  function AddRecord(us: Units, r: Record): Units {
    if |EncodeAll(Last(us))| + |Encode(r)| > UNIT then us + [[r]]
    else Before(us) + [Last(us) + [r]]
  }

  lemma EncodeAllSnoc(u: seq<Record>, r: Record)
    ensures EncodeAll(u + [r]) == EncodeAll(u) + Encode(r)
  {
    EncodeAllAppend(u, [r]);
    assert EncodeAll([r]) == Encode(r) + EncodeAll([]);
  }

  lemma AddRecordRecords(us: Units, r: Record)
    ensures Records(AddRecord(us, r)) == Records(us) + [r]
  {
    var t := AddRecord(us, r);
    if |EncodeAll(Last(us))| + |Encode(r)| > UNIT {
      assert t[..|t| - 1] == us;
    } else {
      assert t[..|t| - 1] == Before(us);
    }
  }

  /** The first unit only grows, and not once there is a second. */
  predicate FirstKept(us: Units, vs: Units) {
    us[0] <= vs[0] && |us| <= |vs| && (|us| > 1 ==> vs[0] == us[0])
  }

  lemma FirstKeptSelf(us: Units)
    ensures FirstKept(us, us)
  {
  }

  lemma AddRecordFirst(us: Units, vs: Units, r: Record)
    requires FirstKept(us, vs)
    ensures FirstKept(us, AddRecord(vs, r))
  {
    hide EncodeAll, Encode;
    var ws := AddRecord(vs, r);
    if |vs| > 1 || |ws| > 1 {
      assert ws[0] == vs[0];
    } else {
      assert ws[0] == vs[0] + [r];
    }
  }

  /** The offset inside the buffer is the size of the current unit. */
  lemma OffsetInUnit(s: LogState, us: Units)
    requires Writer(s, us)
    ensures s.writeOffset % UNIT == |EncodeAll(Last(us))|
    ensures s.writeOffset / UNIT == |us| - 1
  {
    UnitNeverFull(Last(us));
    ModUnique(s.writeOffset, UNIT, |us| - 1, |EncodeAll(Last(us))|);
  }

  lemma RoundUpUnit(s: LogState, us: Units)
    requires Writer(s, us) && Last(us) != []
    ensures RoundUp(s.writeOffset) == UNIT * |us|
  {
    UnitNeverFull(Last(us));
    var n := |us| - 1;
    var x := |EncodeAll(Last(us))|;
    assert 0 < x < UNIT;
    ModUnique(s.writeOffset + UNIT - 1, UNIT, n + 1, x - 1);
  }

  /** Writing behind the records of a unit extends the unit by one record. */
  lemma OverwriteTail(u: seq<Record>, r: Record)
    requires UnitOk(u) && WriterRecord(r)
    requires |EncodeAll(u)| + |Encode(r)| <= UNIT
    ensures UnitOk(u + [r])
    ensures Overwrite(UnitBytes(u), |EncodeAll(u)|, Encode(r)) == UnitBytes(u + [r])
  {
    EncodeAllSnoc(u, r);
    var a, b := Overwrite(UnitBytes(u), |EncodeAll(u)|, Encode(r)), UnitBytes(u + [r]);
    assert |a| == |b|;
    forall i | 0 <= i < |a| ensures a[i] == b[i] {
    }
  }

  lemma EmptyUnit()
    ensures UnitOk([]) && UnitBytes([]) == Zeros(UNIT)
  {
  }

  /** Room for a record: nothing changes, or a new empty unit is opened. */
  lemma RoomKeepsWriter(s: LogState, us: Units, size: nat)
    requires Writer(s, us)
    requires size <= LRD_SIZE + PAGE
    ensures Full(s, size) <==> |EncodeAll(Last(us))| + size > UNIT
    ensures Writer(Room(s, size), if Full(s, size) then us + [[]] else us)
    ensures Full(s, size) ==> Last(us) != []
  {
    OffsetInUnit(s, us);
    if Full(s, size) {
      RoundUpUnit(s, us);
      EmptyUnit();
      assert Last(us + [[]]) == [];
      var t := Room(s, size);
      assert EndOf(us + [[]]) == UNIT * |us|;
      assert forall i :: 0 <= i < |us| ==> (us + [[]])[i] == us[i];
    }
  }

  lemma PutKeepsWriter(s: LogState, us: Units, r: Record)
    requires Writer(s, us) && WriterRecord(r) && !Full(s, |Encode(r)|)
    ensures Writer(Put(s, r), Before(us) + [Last(us) + [r]])
  {
    OffsetInUnit(s, us);
    OverwriteTail(Last(us), r);
    EncodeAllSnoc(Last(us), r);
    var t := Before(us) + [Last(us) + [r]];
    assert Last(t) == Last(us) + [r];
    assert forall i :: 0 <= i < |us| - 1 ==> t[i] == us[i];
  }

  /** One record more: room is made, the record is put, and the units grow by that record. */
  lemma RecordKeepsWriter(s: LogState, us: Units, r: Record)
    requires Writer(s, us) && WriterRecord(r)
    ensures !Full(Room(s, |Encode(r)|), |Encode(r)|)
    ensures Writer(Put(Room(s, |Encode(r)|), r), AddRecord(us, r))
  {
    assert Sized(s);
    hide Writer, Put, Encode, EncodeAll;
    RoomKeepsWriter(s, us, |Encode(r)|);
    var vs: Units := if Full(s, |Encode(r)|) then us + [[]] else us;
    PutKeepsWriter(Room(s, |Encode(r)|), vs, r);
    if Full(s, |Encode(r)|) {
      assert Before(vs) == us && Last(vs) + [r] == [r];
    }
    assert Before(vs) + [Last(vs) + [r]] == AddRecord(us, r);
  }

  /** The chain and end pointers play no part in the layout. */
  lemma LinksPlayNoPart(s: LogState, us: Units, prev: nat, end: nat)
    requires Writer(s, us)
    ensures Writer(s.(prevOffset := prev, end := end), us)
  {
  }

  lemma AppendKeepsWriter(s: LogState, us: Units, tid: nat, block: nat, page: Page)
    requires Writer(s, us) && tid % TWO32 != 0
    ensures Writer(Append(s, tid, block, page), AddRecord(us, NextRedo(s, tid, block, page)))
  {
    assert Sized(s);
    hide Writer, Put, Encode, AddRecord;
    var r := NextRedo(s, tid, block, page);
    assert WriterRecord(r);
    RecordKeepsWriter(s, us, r);
    var t := Append(s, tid, block, page);
    LinksPlayNoPart(Put(Room(s, |Encode(r)|), r), AddRecord(us, r), t.prevOffset, t.end);
  }

  /** The same for a commit record, before and after its flush. */
  lemma CommitKeepsWriter(s: LogState, us: Units, tid: nat)
    requires Writer(s, us) && tid % TWO32 != 0
    ensures Writer(Put(Room(s, LRD_SIZE), NextCommit(s, tid)), AddRecord(us, NextCommit(s, tid)))
    ensures Writer(Commit(s, tid), AddRecord(us, NextCommit(s, tid)))
  {
    assert Sized(s);
    hide Writer, Put, Encode, AddRecord;
    var r := NextCommit(s, tid);
    assert WriterRecord(r);
    RecordKeepsWriter(s, us, r);
    var t := Commit(s, tid);
    LinksPlayNoPart(Put(Room(s, LRD_SIZE), r), AddRecord(us, r), t.prevOffset, t.end);
  }

  /** The redo records a transaction appends, in order. */
  function RedoRecords(s: LogState, tid: nat, pages: seq<(nat, Page)>): seq<Record>
    requires Sized(s)
    decreases |pages|
  {
    if pages == [] then [] else
    var m := |pages| - 1;
    RedoRecords(s, tid, pages[..m]) + [NextRedo(AppendAll(s, tid, pages[..m]), tid, pages[m].0, pages[m].1)]
  }

  /** Units after appending a transaction's redo records. */
  function AddPages(us: Units, s: LogState, tid: nat, pages: seq<(nat, Page)>): Units
    requires Sized(s)
    decreases |pages|
  {
    if pages == [] then us else
    var m := |pages| - 1;
    AddRecord(AddPages(us, s, tid, pages[..m]),
              NextRedo(AppendAll(s, tid, pages[..m]), tid, pages[m].0, pages[m].1))
  }

  lemma {:induction false} AddPagesFirst(us: Units, s: LogState, tid: nat, pages: seq<(nat, Page)>)
    requires Sized(s)
    ensures FirstKept(us, AddPages(us, s, tid, pages))
    decreases |pages|
  {
    hide FirstKept, AddRecord, NextRedo, AppendAll;
    FirstKeptSelf(us);
    if pages != [] {
      var m := |pages| - 1;
      AddPagesFirst(us, s, tid, pages[..m]);
      AddRecordFirst(us, AddPages(us, s, tid, pages[..m]), NextRedo(AppendAll(s, tid, pages[..m]), tid, pages[m].0, pages[m].1));
    }
  }

  lemma {:induction false} AddPagesWriter(us: Units, s: LogState, tid: nat, pages: seq<(nat, Page)>)
    requires Writer(s, us) && tid % TWO32 != 0
    ensures Writer(AppendAll(s, tid, pages), AddPages(us, s, tid, pages))
    decreases |pages|
  {
    if pages != [] {
      var m := |pages| - 1;
      AddPagesWriter(us, s, tid, pages[..m]);
      AppendKeepsWriter(AppendAll(s, tid, pages[..m]), AddPages(us, s, tid, pages[..m]), tid, pages[m].0, pages[m].1);
    }
  }

  lemma {:induction false} AddPagesRecords(us: Units, s: LogState, tid: nat, pages: seq<(nat, Page)>)
    requires Sized(s)
    ensures Records(AddPages(us, s, tid, pages)) == Records(us) + RedoRecords(s, tid, pages)
    decreases |pages|
  {
    if pages == [] {
      assert Records(us) + [] == Records(us);
    } else {
      var m := |pages| - 1;
      AddPagesRecords(us, s, tid, pages[..m]);
      AddRecordRecords(AddPages(us, s, tid, pages[..m]),
                       NextRedo(AppendAll(s, tid, pages[..m]), tid, pages[m].0, pages[m].1));
    }
  }

  // ---- The chain of a transaction's records ----

  /** The manager remembers where the record it has just put starts. */
  lemma PutOffset(s: LogState, us: Units, tid: nat, block: nat, page: Page)
    requires Writer(s, us) && tid % TWO32 != 0
    ensures Append(s, tid, block, page).prevOffset + LRD_SIZE + PAGE == EndOf(AddRecord(us, NextRedo(s, tid, block, page)))
  {
    hide Encode, EncodeAll, UnitBytes, AddRecord, NextRedo;
    AppendKeepsWriter(s, us, tid, block, page);
  }

  /**
   Records of a transaction are chained: the record behind the pages logged so far points to the start of
   the last of them, and the first record to where the chain stood before, which is nowhere after a commit.
   */
  lemma {:induction false} BackchainLinks(us: Units, s: LogState, tid: nat, pages: seq<(nat, Page)>, block: nat, page: Page)
    requires Writer(s, us) && Sized(s) && tid % TWO32 != 0
    ensures var t := AppendAll(s, tid, pages);
            var at := if pages == [] then s.prevOffset else EndOf(AddPages(us, s, tid, pages)) - LRD_SIZE - PAGE;
            && NextRedo(t, tid, block, page).lrd.backchain == at % TWO32 && NextCommit(t, tid).lrd.backchain == at % TWO32
            && Commit(t, tid).prevOffset == 0
  {
    hide Put, Room, Writer, Append, AddRecord, Encode;
    if pages != [] {
      var m := |pages| - 1;
      AddPagesWriter(us, s, tid, pages[..m]);
      PutOffset(AppendAll(s, tid, pages[..m]), AddPages(us, s, tid, pages[..m]), tid, pages[m].0, pages[m].1);
    }
  }
}

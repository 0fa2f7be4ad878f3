/**
 Which records recovery sees when the machine stops during the logging of a transaction.
 */
module LogVisible {
  import opened Bytes
  import opened LogRecord
  import opened Device
  import opened LogWriter
  import opened LogLayout
  import opened LogScan
  import opened LogReadBack
  import opened LogFlush
  import opened LogCrash

  /** Once the end pointer is set, recovery sees exactly the flushed records; as written, those of unit 0. */
  lemma CutVisible(d: Disk, us: Units, flushed: seq<Record>, j: nat)
    requires Cut(d, us, flushed, j) && d.end > 0
    ensures VisibleUnits(d) == Some(FlushedRecords(us, flushed))
    ensures Visible(d) == Some(if |us| == 1 then flushed else us[0])
  {
    hide EncodeAll, UnitBytes, Mixed, Readable, UnitScan, Scan, HoldsBytes;
    CutIsReadable(d, us, flushed, j);
    UnitScanFindsAll(d.log, us, flushed);
    ScanFindsFirstUnit(d.log, us, flushed);
  }

  // ---- Before the first flush has completed ----

  lemma FindEndStep(log: seq<byte>, pos: nat, recs: seq<Record>)
    requires AllFindable(recs) && recs != [] && At(log, pos, EncodeAll(recs))
    ensures At(log, pos + |Encode(recs[0])|, EncodeAll(recs[1..]))
    ensures FindEnd(log, pos) == FindEnd(log, pos + |Encode(recs[0])|)
  {
    hide Encode, ParseLrd, ZeroAt;
    AtSplit(log, pos, Encode(recs[0]), EncodeAll(recs[1..]));
    NextRecordFinds(log, pos, recs[0]);
  }

  lemma {:induction false} FindEndRun(log: seq<byte>, pos: nat, recs: seq<Record>)
    requires AllFindable(recs) && At(log, pos, EncodeAll(recs))
    ensures FindEnd(log, pos) == FindEnd(log, pos + |EncodeAll(recs)|)
    decreases |recs|
  {
    hide Encode, FindEnd, At;
    if recs != [] {
      FindEndStep(log, pos, recs);
      FindEndRun(log, pos + |Encode(recs[0])|, recs[1..]);
    }
  }

  lemma FindEndStops(log: seq<byte>, pos: nat)
    requires ZeroAt(log, pos)
    ensures FindEnd(log, pos) == pos
  {
  }

  /** The first unit is complete on the device though the end pointer is not set: all of it is seen. */
  lemma FreshWhole(d: Disk, u: seq<Record>)
    requires UnitOk(u) && d.end == 0 && At(d.log, 0, UnitBytes(u))
    ensures VisibleUnits(d) == Visible(d) == Some(u)
  {
    hide EncodeAll, UnitBytes, UnitOk, At, Scan, UnitScan, FindEnd, ZeroAt;
    UnitsFindable(u);
    UnitTail(d.log, 0, u);
    FindEndRun(d.log, 0, u);
    FindEndStops(d.log, |EncodeAll(u)|);
    UnitNeverFull(u);
    ScanUnit(d.log, LogEnd(d), 0, u);
  }

  /** Only the first page of a page image is on the device: a record is seen, its image is damaged. */
  lemma FreshTorn(d: Disk, l: Lrd)
    requires InRange(l) && l.logtid != 0 && l.length == PAGE && d.end == 0
    requires UNIT <= |d.log| && d.log[..LRD_SIZE] == LrdBytes(l)
    requires d.log[LRD_SIZE + PAGE..LRD_SIZE + PAGE + 4] == Zeros(4)
    ensures var r := Record(l, d.log[LRD_SIZE..LRD_SIZE + PAGE]);
            VisibleUnits(d) == Visible(d) == Some([r])
  {
    hide LrdBytes, ParseLrd, Scan, UnitScan, FindEnd, ZeroAt;
    var r := Record(l, d.log[LRD_SIZE..LRD_SIZE + PAGE]);
    var n := LRD_SIZE + PAGE;
    assert d.log[0..n] == d.log[..LRD_SIZE] + d.log[LRD_SIZE..n];
    assert Encode(r) == d.log[0..n];
    assert [r][1..] == [];
    assert EncodeAll([r]) == Encode(r) + EncodeAll([]) == Encode(r);
    assert At(d.log, 0, EncodeAll([r]));
    assert AllFindable([r]);
    FindEndRun(d.log, 0, [r]);
    ZeroWordAt(d.log, n);
    FindEndStops(d.log, n);
    ScanRun(d.log, n, 0, [r]);
    TailStep(d.log, n, 0, n);
    PrependNothing([r]);
  }

  lemma ZeroWordAt(log: seq<byte>, pos: nat)
    requires pos + 4 <= |log| && log[pos..pos + 4] == Zeros(4)
    ensures ZeroAt(log, pos)
  {
  }

  /** A list of records longer than a page starts with a page image. */
  predicate ImageFirst(u: seq<Record>) {
    |EncodeAll(u)| > PAGE ==> u != [] && |u[0].data| == PAGE
  }

  /** What recovery sees of the first unit before the first flush is complete. */
  ghost predicate SeenOfFirst(recs: seq<Record>, u: seq<Record>) {
    || recs == []
    || recs == u
    || (|recs| == 1 && u != [] && |u[0].data| == PAGE && recs[0].lrd == u[0].lrd)
  }

  lemma CutFresh(d: Disk, us: Units, flushed: seq<Record>, j: nat) returns (recs: seq<Record>)
    requires Cut(d, us, flushed, j) && d.end == 0 && ImageFirst(Last(us))
    ensures |us| == 1 && flushed == []
    ensures VisibleUnits(d) == Visible(d) == Some(recs) && SeenOfFirst(recs, Last(us))
  {
    hide EncodeAll, UnitBytes, Mixed, UnitScan, Scan, FindEnd, LrdBytes, VisibleUnits, Visible;
    var u := Last(us);
    FreshIsFirst(us, flushed);
    if |EncodeAll(u)| <= j * PAGE {
      MixedComplete(u, flushed, j);
      FreshWhole(d, u);
      recs := u;
    } else if j == 0 {
      EmptyUnit();
      MixedNone(u);
      FreshWhole(d, []);
      recs := [];
    } else {
      TornBytes(d.log, u);
      assert WriterRecord(u[0]);
      FreshTorn(d, u[0].lrd);
      recs := [Record(u[0].lrd, d.log[LRD_SIZE..LRD_SIZE + PAGE])];
    }
  }

  lemma FreshIsFirst(us: Units, flushed: seq<Record>)
    requires FlushedEnd(us, flushed) == 0
    requires |us| > 1 ==> us[|us| - 2] != []
    ensures |us| == 1 && flushed == []
  {
  }

  lemma MixedNone(u: seq<Record>)
    requires UnitOk(u)
    ensures UnitOk([]) && Mixed(u, [], 0) == UnitBytes([])
  {
    hide UnitBytes;
  }

  /** One page of a longer unit on the device: the header is whole, the second page is zero. */
  lemma TornBytes(log: seq<byte>, u: seq<Record>)
    requires UnitOk(u) && UnitOk([]) && |EncodeAll(u)| > PAGE && ImageFirst(u)
    requires At(log, 0, Mixed(u, [], 1))
    ensures log[..LRD_SIZE] == LrdBytes(u[0].lrd)
    ensures log[LRD_SIZE + PAGE..LRD_SIZE + PAGE + 4] == Zeros(4)
  {
    hide LrdBytes, EncodeAll;
    var m := Mixed(u, [], 1);
    AtSlice(log, 0, m, 0, LRD_SIZE);
    AtSlice(log, 0, m, LRD_SIZE + PAGE, LRD_SIZE + PAGE + 4);
    HeadOf(u);
    assert m[0..LRD_SIZE] == EncodeAll(u)[..LRD_SIZE];
    EmptyUnit();
    assert m[LRD_SIZE + PAGE..LRD_SIZE + PAGE + 4] == Zeros(4);
  }

  lemma HeadOf(recs: seq<Record>)
    requires recs != []
    ensures EncodeAll(recs)[..LRD_SIZE] == LrdBytes(recs[0].lrd)
  {
    hide LrdBytes;
  }
}

/**
 The scan inverts the writer: whatever part of the log has been flushed is what the scan finds.
 */
module LogReadBack {
  import opened Bytes
  import opened LogRecord
  import opened LogWriter
  import opened LogLayout
  import opened LogScan

  ghost predicate ZeroFrom(log: seq<byte>, from: nat) {
    forall i :: from <= i < |log| ==> log[i] == 0
  }

  /**
   The log area holds the units `us`, of whose last unit only the records `flushed` have reached the
   device, and is zero behind them.
   */
  ghost predicate Holds(log: seq<byte>, us: Units, flushed: seq<Record>) {
    && AllOk(us) && UnitOk(flushed) && flushed <= Last(us)
    && UNIT * |us| <= |log|
    && (forall i :: 0 <= i < |us| - 1 ==> At(log, UNIT * i, UnitBytes(us[i])))
    && At(log, UNIT * (|us| - 1), UnitBytes(flushed))
    && ZeroFrom(log, UNIT * |us|)
  }

  /** The same with the last unit possibly torn behind the flushed records. */
  ghost predicate Readable(log: seq<byte>, us: Units, flushed: seq<Record>) {
    && AllOk(us) && UnitOk(flushed) && flushed <= Last(us)
    && UNIT * |us| <= |log|
    && (forall i :: 0 <= i < |us| - 1 ==> At(log, UNIT * i, UnitBytes(us[i])))
    && At(log, UNIT * (|us| - 1), EncodeAll(flushed))
    && !NextRecord(log, UNIT * (|us| - 1) + |EncodeAll(flushed)|).Bad?
  }

  /** Where the end pointer stands once `flushed` has reached the device. */
  function FlushedEnd(us: Units, flushed: seq<Record>): nat {
    if flushed != [] then UNIT * (|us| - 1) + |EncodeAll(flushed)|
    else if |us| == 1 then 0
    else UNIT * (|us| - 2) + |EncodeAll(us[|us| - 2])|
  }

  lemma UnitsFindable(u: seq<Record>)
    requires UnitOk(u)
    ensures AllFindable(u)
  {
    forall i | 0 <= i < |u| ensures Findable(u[i]) {
      assert WriterRecord(u[i]);
    }
  }

  /** A whole unit: its records are found, then the zero tail ends it. */
  lemma ScanUnit(log: seq<byte>, end: nat, i: nat, u: seq<Record>)
    requires UnitOk(u) && At(log, UNIT * i, UnitBytes(u)) && UNIT * i + |EncodeAll(u)| <= end
    ensures Scan(log, end, UNIT * i) == Some(u)
    ensures UnitScan(log, end, UNIT * i)
         == if UNIT * (i + 1) < end then Prepend(u, UnitScan(log, end, UNIT * (i + 1))) else Some(u)
  {
    hide EncodeAll, UnitOk, UnitBytes, At, Scan, UnitScan, ZeroAt, NextRecord;
    UnitsFindable(u);
    UnitTail(log, UNIT * i, u);
    ScanRun(log, end, UNIT * i, u);
    UnitNeverFull(u);
    AtBound(log, UNIT * i, UnitBytes(u));
    TailStep(log, end, i, |EncodeAll(u)|);
    PrependNothing(u);
  }

  lemma AtBound(log: seq<byte>, pos: nat, s: seq<byte>)
    requires At(log, pos, s)
    ensures pos + |s| <= |log|
  {
  }

  lemma PrependNothing(u: seq<Record>)
    ensures Prepend(u, Some([])) == Some(u)
  {
    assert u + [] == u;
  }

  lemma TailStep(log: seq<byte>, end: nat, i: nat, size: nat)
    requires size < UNIT && ZeroAt(log, UNIT * i + size) && UNIT * (i + 1) <= |log|
    ensures Scan(log, end, UNIT * i + size) == Some([])
    ensures UnitScan(log, end, UNIT * i + size)
         == if UNIT * (i + 1) < end then UnitScan(log, end, UNIT * (i + 1)) else Some([])
  {
    hide ZeroAt;
    var pos := UNIT * i + size;
    ModUnique(pos, UNIT, i, size);
    assert NextRecord(log, pos) == End;
  }

  /** The records that follow the flushed ones are not taken: they end behind the end pointer. */
  lemma LastUnit(log: seq<byte>, pos: nat, flushed: seq<Record>)
    requires UnitOk(flushed) && flushed != [] && At(log, pos, EncodeAll(flushed))
    requires pos % UNIT == 0
    requires !NextRecord(log, pos + |EncodeAll(flushed)|).Bad?
    ensures var end := pos + |EncodeAll(flushed)|;
            Scan(log, end, pos) == UnitScan(log, end, pos) == Some(flushed)
  {
    hide EncodeAll, UnitOk, At, Scan, UnitScan, NextRecord;
    UnitsFindable(flushed);
    var end := pos + |EncodeAll(flushed)|;
    ScanRun(log, end, pos, flushed);
    PastEnd(log, end);
    assert flushed + [] == flushed;
  }

  lemma PastEnd(log: seq<byte>, end: nat)
    requires !NextRecord(log, end).Bad?
    ensures Scan(log, end, end) == UnitScan(log, end, end) == Some([])
  {
    hide ZeroAt, ParseLrd, ReadPadded;
    assert (end / UNIT + 1) * UNIT > end;
  }

  /** The first `k` units are scanned in order. */
  lemma {:induction false} ScanUnits(log: seq<byte>, us: Units, flushed: seq<Record>, end: nat, k: nat)
    requires Readable(log, us, flushed) && k < |us|
    requires UNIT * k < end
    ensures UnitScan(log, end, 0) == Prepend(Records(us[..k]), UnitScan(log, end, UNIT * k))
  {
    hide UnitScan, Readable;
    if k == 0 {
      PrependPrepend([], [], UnitScan(log, end, 0));
    } else {
      ScanUnits(log, us, flushed, end, k - 1);
      UnitStep(log, us, flushed, end, k - 1);
      assert us[..k][..k - 1] == us[..k - 1];
      PrependPrepend(Records(us[..k - 1]), us[k - 1], UnitScan(log, end, UNIT * k));
    }
  }

  lemma UnitStep(log: seq<byte>, us: Units, flushed: seq<Record>, end: nat, i: nat)
    requires Readable(log, us, flushed) && i + 1 < |us|
    requires UNIT * (i + 1) < end
    ensures UnitScan(log, end, UNIT * i) == Prepend(us[i], UnitScan(log, end, UNIT * (i + 1)))
  {
    hide UnitBytes, UnitScan, NextRecord, EncodeAll;
    assert UnitOk(us[i]);
    assert At(log, UNIT * i, UnitBytes(us[i]));
    ScanUnit(log, end, i, us[i]);
  }

  /** Skipping unit tails, the scan finds every flushed record of every unit, in order. */
  lemma UnitScanFindsAll(log: seq<byte>, us: Units, flushed: seq<Record>)
    requires Readable(log, us, flushed) && FlushedEnd(us, flushed) > 0
    requires |us| > 1 ==> us[|us| - 2] != []
    ensures UnitScan(log, FlushedEnd(us, flushed), 0) == Some(Records(Before(us)) + flushed)
  {
    hide UnitScan, NextRecord, EncodeAll, UnitBytes;
    var end, n := FlushedEnd(us, flushed), |us|;
    if flushed != [] {
      assert |EncodeAll(flushed)| > 0;
      ScanUnits(log, us, flushed, end, n - 1);
      LastUnit(log, UNIT * (n - 1), flushed);
    } else {
      var u := us[n - 2];
      assert UnitOk(u) && At(log, UNIT * (n - 2), UnitBytes(u));
      assert |EncodeAll(u)| > 0;
      ScanUnits(log, us, flushed, end, n - 2);
      ScanUnit(log, end, n - 2, u);
      assert Before(us)[..n - 2] == us[..n - 2];
      assert Records(Before(us)) + flushed == Records(Before(us));
    }
  }

  /** As written, the scan finds the flushed records of the first unit and no others. */
  lemma ScanFindsFirstUnit(log: seq<byte>, us: Units, flushed: seq<Record>)
    requires Readable(log, us, flushed) && FlushedEnd(us, flushed) > 0
    ensures Scan(log, FlushedEnd(us, flushed), 0) == Some(if |us| == 1 then flushed else us[0])
  {
    hide Scan, NextRecord, EncodeAll, UnitBytes;
    if |us| == 1 {
      LastUnit(log, 0, flushed);
    } else {
      assert UnitOk(us[0]) && At(log, UNIT * 0, UnitBytes(us[0]));
      ScanUnit(log, FlushedEnd(us, flushed), 0, us[0]);
    }
  }
}

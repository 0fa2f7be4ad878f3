/**
 The reading side of the journal: the forward scan of recovery, as written and with unit tails skipped.
 */
module LogScan {
  import opened Bytes
  import opened LogRecord
  import opened Device
  import opened LogWriter

  /** What reading one record yields: nothing more, a read past the device, or a record. */
  datatype Step = End | Bad | Got(rec: Record, next: nat)

  /** `len` bytes at `pos`, all zero when the device cannot supply them. */
  function ReadPadded(log: seq<byte>, pos: nat, len: nat): (s: seq<byte>)
    ensures |s| == len
  {
    if pos + len <= |log| then log[pos..pos + len] else Zeros(len)
  }

  function RoundUp4(n: nat): nat {
    (n + 3) / 4 * 4
  }

  predicate ZeroAt(log: seq<byte>, pos: nat) {
    ReadPadded(log, pos, 4) == Zeros(4)
  }

  /** One step of the forward scan. */
  function NextRecord(log: seq<byte>, pos: nat): (r: Step)
    ensures r.Got? ==> pos < |log| && r.next >= pos + LRD_SIZE
  {
    if pos >= |log| || ZeroAt(log, pos) then End else
    var lrd := ParseLrd(ReadPadded(log, pos, LRD_SIZE));
    if lrd.length > 0 && pos + LRD_SIZE + lrd.length > |log| then Bad else
    Got(Record(lrd, if lrd.length > 0 then log[pos + LRD_SIZE..pos + LRD_SIZE + lrd.length] else []),
        pos + RoundUp4(LRD_SIZE + lrd.length))
  }

  /** All records up to `end`, as recovery collects them; `None` when a read fails. */
  function Scan(log: seq<byte>, end: nat, pos: nat): Option<seq<Record>>
    decreases if pos < |log| then |log| - pos else 0
  {
    match NextRecord(log, pos)
    case End => Some([])
    case Bad => None
    case Got(r, next) =>
      if next > end then Some([]) else
      match Scan(log, end, next)
      case None => None
      case Some(rest) => Some([r] + rest)
  }

  /** The same scan, except that a zero word ends the unit instead of the scan. */
  function UnitScan(log: seq<byte>, end: nat, pos: nat): Option<seq<Record>>
    decreases if pos < |log| then |log| - pos else 0
  {
    match NextRecord(log, pos)
    case End =>
      var next := (pos / UNIT + 1) * UNIT;
      if pos < |log| && next < end then UnitScan(log, end, next) else Some([])
    case Bad => None
    case Got(r, next) =>
      if next > end then Some([]) else
      match UnitScan(log, end, next)
      case None => None
      case Some(rest) => Some([r] + rest)
  }

  /** End of the log when the superblock does not record one: first zero word. */
  function FindEnd(log: seq<byte>, pos: nat): nat
    decreases if pos < |log| then |log| - pos else 0
  {
    if pos >= |log| || ZeroAt(log, pos) then pos else
    FindEnd(log, pos + RoundUp4(LRD_SIZE + ParseLrd(ReadPadded(log, pos, LRD_SIZE)).length))
  }

  function LogEnd(d: Disk): nat {
    if d.end > 0 then d.end else FindEnd(d.log, 0)
  }

  /** The records that recovery works on, as written. */
  function Visible(d: Disk): Option<seq<Record>> {
    Scan(d.log, LogEnd(d), 0)
  }

  /** The records that recovery works on when unit tails are skipped. */
  function VisibleUnits(d: Disk): Option<seq<Record>> {
    UnitScan(d.log, LogEnd(d), 0)
  }

  // ---- Reading back what was written ----

  /** Bytes `[pos, pos + |s|)` of the log are `s`. */
  predicate At(log: seq<byte>, pos: nat, s: seq<byte>) {
    pos + |s| <= |log| && log[pos..pos + |s|] == s
  }

  lemma AtSplit(log: seq<byte>, pos: nat, a: seq<byte>, b: seq<byte>)
    requires At(log, pos, a + b)
    ensures At(log, pos, a) && At(log, pos + |a|, b)
  {
    SliceOfSlice(log, pos, pos + |a + b|, 0, |a|);
    SliceOfSlice(log, pos, pos + |a + b|, |a|, |a + b|);
  }

  /** The scanner decodes any record it stands on. */
  lemma NextRecordFinds(log: seq<byte>, pos: nat, r: Record)
    requires Findable(r) && At(log, pos, Encode(r))
    ensures NextRecord(log, pos) == Got(r, pos + |Encode(r)|)
  {
    hide LrdBytes, ParseLrd, ZeroAt;
    AtSplit(log, pos, LrdBytes(r.lrd), r.data);
    LrdRoundTrip(r.lrd);
    FirstWord(log, pos, r.lrd);
    RoundUp4Exact(LRD_SIZE + |r.data|);
  }

  lemma RoundUp4Exact(n: nat)
    requires n % 4 == 0
    ensures RoundUp4(n) == n
  {
    assert (n + 3) / 4 == n / 4;
  }

  lemma FirstWord(log: seq<byte>, pos: nat, l: Lrd)
    requires At(log, pos, LrdBytes(l)) && InRange(l) && l.logtid != 0
    ensures !ZeroAt(log, pos)
  {
    hide LrdBytes, Le32, From32;
    LrdSlices(l);
    assert log[pos..pos + 4] == log[pos..pos + LRD_SIZE][0..4];
    assert ReadPadded(log, pos, 4) == Le32(l.logtid);
    Le32RoundTrip(l.logtid);
    ZeroWord(Le32(l.logtid));
  }

  function Prepend(recs: seq<Record>, rest: Option<seq<Record>>): Option<seq<Record>> {
    if rest.None? then None else Some(recs + rest.value)
  }

  lemma PrependPrepend(a: seq<Record>, b: seq<Record>, rest: Option<seq<Record>>)
    ensures Prepend(a, Prepend(b, rest)) == Prepend(a + b, rest)
    ensures Prepend([], rest) == rest
  {
    if rest.Some? {
      assert a + (b + rest.value) == a + b + rest.value;
      assert [] + rest.value == rest.value;
    }
  }

  predicate AllFindable(recs: seq<Record>) {
    forall i :: 0 <= i < |recs| ==> Findable(recs[i])
  }

  /** One record found is one record in front of what the rest of the scan finds. */
  lemma ScanStep(log: seq<byte>, end: nat, pos: nat, recs: seq<Record>)
    requires AllFindable(recs) && recs != []
    requires At(log, pos, EncodeAll(recs)) && pos + |EncodeAll(recs)| <= end
    ensures var mid := pos + |Encode(recs[0])|;
            && At(log, mid, EncodeAll(recs[1..]))
            && mid + |EncodeAll(recs[1..])| == pos + |EncodeAll(recs)|
            && Scan(log, end, pos) == Prepend([recs[0]], Scan(log, end, mid))
            && UnitScan(log, end, pos) == Prepend([recs[0]], UnitScan(log, end, mid))
  {
    hide NextRecord, Encode;
    AtSplit(log, pos, Encode(recs[0]), EncodeAll(recs[1..]));
    NextRecordFinds(log, pos, recs[0]);
  }

  /** Records that lie one after the other are scanned one after the other. */
  lemma {:induction false} ScanRun(log: seq<byte>, end: nat, pos: nat, recs: seq<Record>)
    requires AllFindable(recs)
    requires At(log, pos, EncodeAll(recs)) && pos + |EncodeAll(recs)| <= end
    ensures Scan(log, end, pos) == Prepend(recs, Scan(log, end, pos + |EncodeAll(recs)|))
    ensures UnitScan(log, end, pos) == Prepend(recs, UnitScan(log, end, pos + |EncodeAll(recs)|))
    decreases |recs|
  {
    hide NextRecord, Encode, At;
    var stop := pos + |EncodeAll(recs)|;
    if recs == [] {
      PrependPrepend([], [], Scan(log, end, stop));
      PrependPrepend([], [], UnitScan(log, end, stop));
    } else {
      ScanStep(log, end, pos, recs);
      ScanRun(log, end, pos + |Encode(recs[0])|, recs[1..]);
      PrependPrepend([recs[0]], recs[1..], Scan(log, end, stop));
      PrependPrepend([recs[0]], recs[1..], UnitScan(log, end, stop));
      assert recs == [recs[0]] + recs[1..];
    }
  }

  /** Behind the records of a whole unit there is a zero word. */
  lemma UnitTail(log: seq<byte>, pos: nat, u: seq<Record>)
    requires UnitOk(u) && At(log, pos, UnitBytes(u))
    ensures At(log, pos, EncodeAll(u))
    ensures ZeroAt(log, pos + |EncodeAll(u)|)
  {
    hide EncodeAll;
    UnitNeverFull(u);
    var n := |EncodeAll(u)|;
    AtSplit(log, pos, EncodeAll(u), Zeros(UNIT - n));
    assert Zeros(UNIT - n) == Zeros(4) + Zeros(UNIT - n - 4);
    AtSplit(log, pos + n, Zeros(4), Zeros(UNIT - n - 4));
  }
}

/**
 The writing side of the journal as a function of its state: how records are packed into 8192-byte
 buffer units, when a unit is flushed, and which device calls a flush makes.
 */
module LogWriter {
  import opened Bytes
  import opened LogRecord
  import opened Device

  /** Two log pages: a header and a full page image always fit one unit. */
  const UNIT := 8192

  datatype LogState = LogState(
    writeOffset: nat,
    prevOffset: nat,
    buffer: seq<byte>,
    dirty: bool,
    end: nat,
    state: nat)

  predicate Sized(s: LogState) {
    |s.buffer| == UNIT
  }

  function RoundUp(n: nat): nat {
    (n + UNIT - 1) / UNIT * UNIT
  }

  /** Page writes of a flush: the pages of the unit that hold data, none at a unit boundary. */
  function PageWrites(s: LogState): seq<Event>
    requires Sized(s)
  {
    if s.dirty && s.writeOffset > 0 then
      var used := s.writeOffset % UNIT;
      var first := (s.writeOffset - used) / PAGE;
      var n := (used + PAGE - 1) / PAGE;
      assert n <= 2;
      seq(n, i requires 0 <= i < n => PageWrite(first + i, s.buffer[i * 4096..(i + 1) * 4096]))
    else []
  }

  lemma NoPageWrites(s: LogState)
    requires Sized(s)
    ensures !(s.dirty && s.writeOffset > 0) ==> PageWrites(s) == []
  {
  }

  lemma PageWritesAre(s: LogState)
    requires Sized(s) && s.dirty && s.writeOffset > 0
    ensures |PageWrites(s)| == (s.writeOffset % UNIT + PAGE - 1) / PAGE <= 2
    ensures forall i :: 0 <= i < |PageWrites(s)| ==>
              PageWrites(s)[i] == PageWrite((s.writeOffset - s.writeOffset % UNIT) / PAGE + i, s.buffer[i * PAGE..(i + 1) * PAGE])
  {
  }

  /** All device calls of a flush: pages, then the two flushes, then the end pointer. */
  function FlushPlan(s: LogState): seq<Event>
    requires Sized(s)
  {
    PageWrites(s) + [FlushMetadata, Sync, SuperWrite(s.writeOffset % TWO32, s.state)]
  }

  function Flushed(s: LogState): LogState {
    s.(end := s.writeOffset % TWO32)
  }

  predicate Full(s: LogState, size: nat) {
    s.writeOffset % UNIT + size > UNIT
  }

  /** Makes room for `size` bytes: a unit that cannot take them is flushed and left behind. */
  function Room(s: LogState, size: nat): (r: LogState)
    requires Sized(s)
    ensures Sized(r) && r.state == s.state && r.prevOffset == s.prevOffset
    ensures Full(s, size) ==> r.writeOffset % UNIT == 0
  {
    if Full(s, size) then
      Flushed(s).(buffer := Zeros(UNIT), dirty := false, writeOffset := RoundUp(s.writeOffset))
    else s
  }

  function RoomPlan(s: LogState, size: nat): seq<Event>
    requires Sized(s)
  {
    if Full(s, size) then FlushPlan(s) else []
  }

  /** Writes one record at the current offset of the buffer. */
  function Put(s: LogState, r: Record): (t: LogState)
    requires Sized(s) && !Full(s, |Encode(r)|)
    ensures Sized(t) && t.state == s.state && t.prevOffset == s.prevOffset
  {
    s.(buffer := Overwrite(s.buffer, s.writeOffset % UNIT, Encode(r)),
       dirty := true,
       writeOffset := s.writeOffset + |Encode(r)|)
  }

  function NextRedo(s: LogState, tid: nat, block: nat, page: Page): (r: Record)
    ensures |Encode(r)| == LRD_SIZE + PAGE
  {
    RedoRecord(tid, s.prevOffset, block, page)
  }

  function NextCommit(s: LogState, tid: nat): (r: Record)
    ensures |Encode(r)| == LRD_SIZE
  {
    CommitRecord(tid, s.prevOffset)
  }

  function Append(s: LogState, tid: nat, block: nat, page: Page): (t: LogState)
    requires Sized(s)
    ensures Sized(t) && t.state == s.state
  {
    var m := Room(s, LRD_SIZE + PAGE);
    Put(m, NextRedo(s, tid, block, page)).(prevOffset := m.writeOffset)
  }

  function AppendPlan(s: LogState): seq<Event>
    requires Sized(s)
  {
    RoomPlan(s, LRD_SIZE + PAGE)
  }

  function Commit(s: LogState, tid: nat): (t: LogState)
    requires Sized(s)
    ensures Sized(t) && t.state == s.state
  {
    Flushed(Put(Room(s, LRD_SIZE), NextCommit(s, tid))).(prevOffset := 0)
  }

  function CommitRecordPlan(s: LogState, tid: nat): seq<Event>
    requires Sized(s)
  {
    RoomPlan(s, LRD_SIZE) + FlushPlan(Put(Room(s, LRD_SIZE), NextCommit(s, tid)))
  }

  /** A journaled transaction: its id and the after-images of its dirty pages, in order. */
  datatype Txn = Txn(tid: nat, pages: seq<(nat, Page)>)

  function AppendAll(s: LogState, tid: nat, pages: seq<(nat, Page)>): (t: LogState)
    requires Sized(s)
    ensures Sized(t) && t.state == s.state
    decreases |pages|
  {
    if pages == [] then s else
    var m := |pages| - 1;
    Append(AppendAll(s, tid, pages[..m]), tid, pages[m].0, pages[m].1)
  }

  function AppendAllPlan(s: LogState, tid: nat, pages: seq<(nat, Page)>): seq<Event>
    requires Sized(s)
    decreases |pages|
  {
    if pages == [] then [] else
    var m := |pages| - 1;
    AppendAllPlan(s, tid, pages[..m]) + AppendPlan(AppendAll(s, tid, pages[..m]))
  }

  /** State after a transaction's records and its commit record were written. */
  function Logged(s: LogState, t: Txn): (r: LogState)
    requires Sized(s)
    ensures Sized(r) && r.state == s.state
  {
    Commit(AppendAll(s, t.tid, t.pages), t.tid)
  }

  function LoggedPlan(s: LogState, t: Txn): seq<Event>
    requires Sized(s)
  {
    AppendAllPlan(s, t.tid, t.pages) + CommitRecordPlan(AppendAll(s, t.tid, t.pages), t.tid)
  }

  // ---- Failures: what the buffer keeps ----

  /** Pages whose records are in the buffer when the appending stops after `k` calls. */
  function PagesPut(s: LogState, tid: nat, pages: seq<(nat, Page)>, k: nat): (n: nat)
    requires Sized(s)
    ensures n <= |pages|
    decreases |pages|
  {
    if k >= |AppendAllPlan(s, tid, pages)| || pages == [] then |pages| else
    var m := |pages| - 1;
    if k < |AppendAllPlan(s, tid, pages[..m])| then PagesPut(s, tid, pages[..m], k) else m
  }

  /** Calls after which the commit record is in the buffer. */
  function CommitPut(s: LogState, t: Txn): nat
    requires Sized(s)
  {
    |AppendAllPlan(s, t.tid, t.pages)| + |RoomPlan(AppendAll(s, t.tid, t.pages), LRD_SIZE)|
  }

  /** The log manager when the logging of a transaction fails after `k` calls; the end in memory may have moved. */
  function AfterFailure(s: LogState, t: Txn, k: nat, end: nat): (r: LogState)
    requires Sized(s)
    ensures Sized(r) && r.state == s.state
  {
    if k < CommitPut(s, t) then AppendAll(s, t.tid, t.pages[..PagesPut(s, t.tid, t.pages, k)]).(end := end)
    else
      var s1 := AppendAll(s, t.tid, t.pages);
      Put(Room(s1, LRD_SIZE), NextCommit(s1, t.tid)).(end := end)
  }

  /** The log manager when a commit stops after `k` of its calls, the first of which flushes data. */
  function StateAfter(s: LogState, t: Txn, k: nat, end: nat): (r: LogState)
    requires Sized(s)
    ensures Sized(r) && r.state == s.state
  {
    if k == 0 then s else if k <= |LoggedPlan(s, t)| then AfterFailure(s, t, k - 1, end) else Logged(s, t)
  }

  // ---- Units: what the buffer and the log area mean ----

  /** A record of the two sizes the writer produces. */
  predicate WriterRecord(r: Record) {
    Findable(r) && (|r.data| == 0 || |r.data| == PAGE)
  }

  predicate UnitOk(u: seq<Record>) {
    && (forall i :: 0 <= i < |u| ==> WriterRecord(u[i]))
    && |EncodeAll(u)| <= UNIT
  }

  /** A unit on disk: its records from the start, zeros to the end. */
  function UnitBytes(u: seq<Record>): (s: seq<byte>)
    requires |EncodeAll(u)| <= UNIT
    ensures |s| == UNIT
  {
    EncodeAll(u) + Zeros(UNIT - |EncodeAll(u)|)
  }

  function Images(u: seq<Record>): nat {
    if u == [] then 0 else (if |u[0].data| == 0 then 0 else 1) + Images(u[1..])
  }

  /** The size of a unit is 36 bytes a record and 4096 bytes an image. */
  lemma {:induction false} UnitSize(u: seq<Record>)
    requires forall i :: 0 <= i < |u| ==> WriterRecord(u[i])
    ensures |EncodeAll(u)| == LRD_SIZE * |u| + PAGE * Images(u)
  {
    if u != [] {
      assert forall i :: 0 <= i < |u[1..]| ==> u[1..][i] == u[i + 1];
      UnitSize(u[1..]);
    }
  }

  /**
   The arithmetic the layout rests on: a unit is never exactly full, so a flush never finds the offset
   at a unit boundary; at least twelve bytes stay zero behind its records; and a header that starts
   behind its records never has its first twelve bytes on two different pages.
   */
  lemma UnitNeverFull(u: seq<Record>)
    requires UnitOk(u)
    ensures |EncodeAll(u)| + 12 <= UNIT
    ensures |EncodeAll(u)| % 4 == 0
    ensures |EncodeAll(u)| + 12 <= PAGE || PAGE <= |EncodeAll(u)|
  {
    hide Images, EncodeAll;
    UnitSize(u);
    ImagesAtMost(u);
    SizesMissTheEdge(|u|, Images(u));
  }

  lemma SizesMissTheEdge(k: nat, a: nat)
    requires a <= k && 36 * k + 4096 * a <= 8192
    ensures 36 * k + 4096 * a + 12 <= 8192
    ensures (36 * k + 4096 * a) % 4 == 0
    ensures 36 * k + 4096 * a + 12 <= 4096 || 4096 <= 36 * k + 4096 * a
  {
    assert 36 * k + 4096 * a == 4 * (9 * k + 1024 * a);
    if a == 0 {
      assert k <= 227 && (k <= 113 || k >= 114);
    } else {
      assert a == 1 && k <= 113;
    }
  }

  lemma {:induction false} ImagesAtMost(u: seq<Record>)
    ensures Images(u) <= |u|
  {
    if u != [] {
      ImagesAtMost(u[1..]);
    }
  }
}

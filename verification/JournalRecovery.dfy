/**
 The recovery object: reads the log forward, then replays its records backward, and marks the log as
 replayed. Tied to the scan and to the backward pass as functions.
 */
module JournalRecovery {
  import opened Bytes
  import opened LogRecord
  import opened Device
  import opened LogScan
  import opened Recovery
  import opened LogManager

  /** A cursor over the log data area. */
  class LogReader {
    const storage: Storage
    var pos: nat

    constructor (s: Storage)
      ensures storage == s && pos == 0
    {
      storage, pos := s, 0;
    }

    /** Reads the record at the cursor and moves behind it; stays put at the end of the records. */
    method NextForward() returns (r: Step)
      modifies this
      ensures r == NextRecord(storage.disk.log, old(pos))
      ensures pos == if r.Got? then r.next else old(pos)
    {
      hide ParseLrd;
      var log := storage.disk.log;
      if pos >= |log| {
        return End;
      }
      if ReadPadded(log, pos, 4) == Zeros(4) {
        return End;
      }
      var lrd := ParseLrd(ReadPadded(log, pos, LRD_SIZE));
      var data := [];
      if lrd.length > 0 {
        if pos + LRD_SIZE + lrd.length > |log| {
          return Bad;
        }
        data := log[pos + LRD_SIZE..pos + LRD_SIZE + lrd.length];
      }
      pos := pos + (LRD_SIZE + lrd.length + 3) / 4 * 4;
      return Got(Record(lrd, data), pos);
    }

    /** Scans for the first zero word, for logs whose end pointer was never written. */
    method ScanForEnd() returns (e: nat)
      requires pos == 0
      modifies this
      ensures e == FindEnd(storage.disk.log, 0)
    {
      hide ParseLrd;
      var log := storage.disk.log;
      e := 0;
      while e < |log| && ReadPadded(log, e, 4) != Zeros(4)
        invariant FindEnd(log, 0) == FindEnd(log, e)
        decreases |log| - e
      {
        e := e + (LRD_SIZE + ParseLrd(ReadPadded(log, e, LRD_SIZE)).length + 3) / 4 * 4;
      }
    }
  }

  lemma PrependSnoc(a: seq<Record>, r: Record, rest: Option<seq<Record>>)
    ensures Prepend(a, Prepend([r], rest)) == Prepend(a + [r], rest)
  {
    PrependPrepend(a, [r], rest);
  }

  lemma WriteEventsAppend(a: seq<Write>, b: seq<Write>)
    ensures WriteEvents(a + b) == WriteEvents(a) + WriteEvents(b)
  {
  }

  class JournalRecovery {
    const storage: Storage
    var state: nat
    var end: nat
    var commits: set<nat>
    var clean: set<nat>
    var pages: map<nat, nat>

    ghost function Progress(): Pass
      reads this
    {
      Pass(commits, clean, pages)
    }

    constructor (s: Storage)
      ensures storage == s && state == s.disk.state && end == s.disk.end
      ensures Progress() == FRESH
    {
      storage := s;
      state, end := s.disk.state, s.disk.end;
      commits, clean, pages := {}, {}, map[];
    }

    /** Phase 1: collects the records up to the end of the log. */
    method Collect() returns (r: Option<seq<Record>>)
      requires end == storage.disk.end
      ensures r == Visible(storage.disk)
    {
      hide NextRecord;
      var reader := new LogReader(storage);
      var logEnd := end;
      if logEnd == 0 {
        logEnd := reader.ScanForEnd();
      }
      ghost var log := storage.disk.log;
      assert logEnd == LogEnd(storage.disk);
      var recs: seq<Record> := [];
      reader := new LogReader(storage);
      PrependPrepend([], [], Scan(log, logEnd, 0));
      while true
        invariant reader.storage == storage && fresh(reader)
        invariant Scan(log, logEnd, 0) == Prepend(recs, Scan(log, logEnd, reader.pos))
        decreases if reader.pos < |log| then |log| - reader.pos else 0
      {
        ghost var at := reader.pos;
        var step := reader.NextForward();
        match step
        case End =>
          assert recs + [] == recs;
          return Some(recs);
        case Bad =>
          return None;
        case Got(rec, next) =>
          if next > logEnd {
            assert recs + [] == recs;
            return Some(recs);
          }
          PrependSnoc(recs, rec, Scan(log, logEnd, next));
          recs := recs + [rec];
      }
    }

    /** Phase 2, one record: notes commits and mounts, and writes the image of a record to be redone. */
    method ProcessRecord(r: Record) returns (ok: bool)
      modifies this`commits, this`clean, this`pages, storage
      ensures ok ==> Progress() == Next(old(Progress()), r.lrd)
      ensures Ran(old(storage.disk), old(storage.trace), storage.disk, storage.trace,
                  WriteEvents(Writes(old(Progress()), r)), ok)
    {
      hide KindOf, Ran;
      ok := true;
      RanNothing(storage.disk, storage.trace);
      var l := r.lrd;
      match KindOf(l)
      case CommitKind => commits := commits + {l.logtid};
      case MountKind => clean := clean + {l.aggregate};
      case SyncKind =>
      case OtherKind =>
      case NoRedoKind =>
        if l.logtid in commits {
          pages := MarkPages(pages, Marked(l));
        }
      case RedoKind =>
        if l.logtid in commits && l.aggregate !in clean {
          ok := UpdatePage(r);
        }
    }

    /** Writes the image unless the page counts as complete, and tracks inode pages. */
    method UpdatePage(r: Record) returns (ok: bool)
      requires KindOf(r.lrd) == RedoKind && r.lrd.logtid in commits && r.lrd.aggregate !in clean
      modifies this`pages, storage
      ensures ok ==> Progress() == Next(old(Progress()), r.lrd)
      ensures Ran(old(storage.disk), old(storage.trace), storage.disk, storage.trace,
                  WriteEvents(Writes(old(Progress()), r)), ok)
    {
      hide KindOf, Ran;
      ghost var d0, t0 := storage.disk, storage.trace;
      RanNothing(d0, t0);
      var b, pageType := r.lrd.pxd.address, r.lrd.pageType;
      if b in pages && pages[b] == COMPLETE {
        return true;
      }
      if pageType == LOG_INODE || HasBit(pageType, LOG_DATA) {
        ghost var e := BlockWrite(b, r.data);
        assert WriteEvents(Writes(Progress(), r)) == [] + [e];
        RanStep(d0, t0, storage.disk, storage.trace, [], e);
        ok := storage.Issue(BlockWrite(b, r.data));
        if ok && pageType == LOG_INODE {
          pages := pages[b := if b in pages then 0x07 else 0];
        }
      } else {
        return true;
      }
    }

    /** Phase 2: all records, newest first. */
    method ReplayBackward(recs: seq<Record>) returns (ok: bool)
      requires Progress() == FRESH
      modifies this`commits, this`clean, this`pages, storage
      ensures Ran(old(storage.disk), old(storage.trace), storage.disk, storage.trace,
                  WriteEvents(Backward(recs, FRESH)), ok)
    {
      hide Ran, Next, Writes;
      ghost var d0, t0 := storage.disk, storage.trace;
      ghost var done: seq<Write> := [];
      ghost var all := Backward(recs, FRESH);
      RanNothing(d0, t0);
      var i := |recs|;
      assert recs[..i] == recs && done + all == all;
      ok := true;
      while i > 0
        invariant 0 <= i <= |recs|
        invariant all == done + Backward(recs[..i], Progress())
        invariant Ran(d0, t0, storage.disk, storage.trace, WriteEvents(done), true)
      {
        i := i - 1;
        ghost var p, d1, t1 := Progress(), storage.disk, storage.trace;
        ghost var ws := Writes(p, recs[i]);
        ghost var rest := Backward(recs[..i], Next(p, recs[i].lrd));
        assert recs[..i + 1][..i] == recs[..i];
        assert all == (done + ws) + rest;
        ok := ProcessRecord(recs[i]);
        RanThen(d0, t0, d1, t1, storage.disk, storage.trace, WriteEvents(done), WriteEvents(ws), ok);
        WriteEventsAppend(done, ws);
        if !ok {
          WriteEventsAppend(done + ws, rest);
          RanLonger(d0, t0, storage.disk, storage.trace, WriteEvents(done + ws), WriteEvents(rest));
          return;
        }
        done := done + ws;
      }
      assert done + [] == done;
      ok := true;
    }

    /** The whole recovery. */
    method Replay() returns (ok: bool)
      requires state == storage.disk.state && end == storage.disk.end && Progress() == FRESH
      modifies this, storage
      ensures old(state) == LOGREDONE ==> ok && storage.trace == old(storage.trace) && storage.disk == old(storage.disk)
      ensures old(state) != LOGREDONE && Visible(old(storage.disk)).None? ==> !ok && storage.disk == old(storage.disk)
      ensures old(state) != LOGREDONE && Visible(old(storage.disk)).Some? ==>
                Ran(old(storage.disk), old(storage.trace), storage.disk, storage.trace,
                    ReplayPlan(old(storage.disk), Backward(Visible(old(storage.disk)).value, FRESH)), ok)
    {
      hide Ran, Visible, Backward;
      if state == LOGREDONE {
        return true;
      }
      var found := Collect();
      if found.None? {
        return false;
      }
      ghost var d0, t0, ws := storage.disk, storage.trace, Backward(found.value, FRESH);
      ok := ReplayBackward(found.value);
      if !ok {
        RanLonger(d0, t0, storage.disk, storage.trace, WriteEvents(ws), [SuperWrite(end, LOGREDONE)]);
        return;
      }
      state := LOGREDONE;
      RanStep(d0, t0, storage.disk, storage.trace, WriteEvents(ws), SuperWrite(end, LOGREDONE));
      ok := storage.Issue(SuperWrite(end, LOGREDONE));
    }
  }
}

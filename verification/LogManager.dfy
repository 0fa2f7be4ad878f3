/**
 The log manager: appends records to its two-page buffer, flushes it, and keeps the end pointer. Each
 method is tied to the state and the device calls that `LogWriter` gives it.
 */
module LogManager {
  import opened Bytes
  import opened LogRecord
  import opened Device
  import opened LogWriter

  /**
   The calls made between two traces are the plan, all of it on success and a proper part of it on
   failure, and the disk has changed accordingly.
   */
  ghost predicate Ran(d0: Disk, t0: seq<Event>, d1: Disk, t1: seq<Event>, plan: seq<Event>, ok: bool) {
    && |t0| <= |t1| <= |t0| + |plan|
    && t1 == t0 + plan[..|t1| - |t0|]
    && d1 == ApplyAll(d0, plan[..|t1| - |t0|])
    && ok == (|t1| - |t0| == |plan|)
  }

  lemma RanNothing(d: Disk, t: seq<Event>)
    ensures Ran(d, t, d, t, [], true)
  {
  }

  /** One more call, made or refused. */
  lemma RanStep(d0: Disk, t0: seq<Event>, d1: Disk, t1: seq<Event>, plan: seq<Event>, e: Event)
    requires Ran(d0, t0, d1, t1, plan, true)
    ensures Ran(d0, t0, Apply(d1, e), t1 + [e], plan + [e], true)
    ensures Ran(d0, t0, d1, t1, plan + [e], false)
  {
    assert plan[..|plan|] == plan;
    assert (plan + [e])[..|plan| + 1] == plan + [e];
    assert (plan + [e])[..|plan|] == plan;
    ApplyAllConcat(d0, plan, [e]);
    ApplyAllOne(d1, e);
  }

  /** A failure part of the way is a failure of any longer plan. */
  lemma RanLonger(d0: Disk, t0: seq<Event>, d1: Disk, t1: seq<Event>, plan: seq<Event>, more: seq<Event>)
    requires Ran(d0, t0, d1, t1, plan, false)
    ensures Ran(d0, t0, d1, t1, plan + more, false)
  {
    var n := |t1| - |t0|;
    assert (plan + more)[..n] == plan[..n];
  }

  /** One plan after another. */
  lemma RanThen(d0: Disk, t0: seq<Event>, d1: Disk, t1: seq<Event>, d2: Disk, t2: seq<Event>,
                a: seq<Event>, b: seq<Event>, ok: bool)
    requires Ran(d0, t0, d1, t1, a, true) && Ran(d1, t1, d2, t2, b, ok)
    ensures Ran(d0, t0, d2, t2, a + b, ok)
  {
    var n := |t2| - |t1|;
    assert a[..|a|] == a;
    assert (a + b)[..|a| + n] == a + b[..n];
    ApplyAllConcat(d0, a, b[..n]);
  }

  /** Calls made between two traces. */
  function Calls(t0: seq<Event>, t1: seq<Event>): nat {
    if |t0| <= |t1| then |t1| - |t0| else 0
  }

  lemma RanMade(d0: Disk, t0: seq<Event>, d1: Disk, t1: seq<Event>, plan: seq<Event>, ok: bool)
    requires Ran(d0, t0, d1, t1, plan, ok)
    ensures |t0| <= |t1| && Calls(t0, t1) <= |plan| && ok == (Calls(t0, t1) == |plan|)
  {
  }

  class LogManager {
    const storage: Storage
    var writeOffset: nat
    var prevOffset: nat
    var buffer: array<byte>
    var dirty: bool
    var end: nat
    var state: nat

    ghost predicate Valid()
      reads this
    {
      buffer.Length == UNIT
    }

    ghost function State(): (s: LogState)
      reads this, buffer
    {
      LogState(writeOffset, prevOffset, buffer[..], dirty, end, state)
    }

    /** A manager on a storage whose log superblock has been read. */
    constructor (s: Storage)
      ensures Valid() && fresh(buffer) && storage == s
      ensures State() == LogState(0, 0, Zeros(UNIT), false, s.disk.end, s.disk.state)
    {
      storage := s;
      writeOffset, prevOffset, dirty := 0, 0, false;
      buffer := new byte[UNIT](_ => 0);
      end, state := s.disk.end, s.disk.state;
      new;
      assert buffer[..] == Zeros(UNIT);
    }

    /** Writes the pages of the unit that hold data, flushes, and records the end of the log. */
    method FlushJournal() returns (ok: bool)
      requires Valid()
      modifies this`end, storage
      ensures Valid()
      ensures State() == old(State()).(end := end)
      ensures ok ==> State() == Flushed(old(State()))
      ensures Ran(old(storage.disk), old(storage.trace), storage.disk, storage.trace, FlushPlan(old(State())), ok)
    {
      hide PageWrites, Ran;
      ghost var plan, d0, t0 := PageWrites(State()), storage.disk, storage.trace;
      ok := WritePages();
      if !ok {
        RanLonger(d0, t0, storage.disk, storage.trace, plan,
                  [FlushMetadata, Sync, SuperWrite(writeOffset % TWO32, state)]);
        return;
      }
      ok := IssueTail(plan, d0, t0);
    }

    /** The page writes of a flush, in order; none when the offset stands at a unit boundary. */
    method WritePages() returns (ok: bool)
      requires Valid()
      modifies storage
      ensures Ran(old(storage.disk), old(storage.trace), storage.disk, storage.trace, PageWrites(State()), ok)
    {
      hide PageWrites, Ran;
      ghost var plan, d0, t0 := PageWrites(State()), storage.disk, storage.trace;
      ok := true;
      RanNothing(d0, t0);
      assert !(dirty && writeOffset > 0) ==> plan == [] by { NoPageWrites(State()); }
      if dirty && writeOffset > 0 {
        var used := writeOffset % UNIT;
        var first := (writeOffset - used) / PAGE;
        var pages := (used + PAGE - 1) / PAGE;
        PageWritesAre(State());
        assert plan[..0] == [];
        var i := 0;
        while i < pages
          invariant 0 <= i <= pages
          invariant Ran(d0, t0, storage.disk, storage.trace, plan[..i], true)
        {
          var e := PageWrite(first + i, buffer[i * PAGE..(i + 1) * PAGE]);
          assert e == plan[i];
          assert plan[..i + 1] == plan[..i] + [e];
          RanStep(d0, t0, storage.disk, storage.trace, plan[..i], e);
          ok := storage.Issue(e);
          if !ok {
            assert plan == plan[..i + 1] + plan[i + 1..];
            RanLonger(d0, t0, storage.disk, storage.trace, plan[..i + 1], plan[i + 1..]);
            return;
          }
          i := i + 1;
        }
        assert plan[..pages] == plan;
        ok := true;
      }
    }

    /** The two flushes and the superblock write that end every flush of the journal. */
    method IssueTail(ghost plan: seq<Event>, ghost d0: Disk, ghost t0: seq<Event>) returns (ok: bool)
      requires Ran(d0, t0, storage.disk, storage.trace, plan, true)
      modifies this`end, storage
      ensures State() == old(State()).(end := end)
      ensures ok ==> end == writeOffset % TWO32
      ensures Ran(d0, t0, storage.disk, storage.trace,
                  plan + [FlushMetadata, Sync, SuperWrite(writeOffset % TWO32, state)], ok)
    {
      hide Ran;
      var e := SuperWrite(writeOffset % TWO32, state);
      ghost var tail := [FlushMetadata, Sync, e];
      assert plan + tail == (plan + [FlushMetadata]) + [Sync, e] == (plan + [FlushMetadata] + [Sync]) + [e];
      RanStep(d0, t0, storage.disk, storage.trace, plan, FlushMetadata);
      ok := storage.Issue(FlushMetadata);
      if !ok {
        RanLonger(d0, t0, storage.disk, storage.trace, plan + [FlushMetadata], [Sync, e]);
        return;
      }
      RanStep(d0, t0, storage.disk, storage.trace, plan + [FlushMetadata], Sync);
      ok := storage.Issue(Sync);
      if !ok {
        RanLonger(d0, t0, storage.disk, storage.trace, plan + [FlushMetadata] + [Sync], [e]);
        return;
      }
      end := writeOffset % TWO32;
      RanStep(d0, t0, storage.disk, storage.trace, plan + [FlushMetadata] + [Sync], e);
      ok := storage.Issue(e);
    }

    /** Flushes and leaves the unit behind when `size` bytes do not fit it. */
    method MakeRoom(size: nat) returns (ok: bool)
      requires Valid() && size <= UNIT
      modifies this, buffer, storage
      ensures Valid() && buffer == old(buffer)
      ensures ok ==> State() == Room(old(State()), size)
      ensures !ok ==> State() == old(State()).(end := end)
      ensures Ran(old(storage.disk), old(storage.trace), storage.disk, storage.trace, RoomPlan(old(State()), size), ok)
    {
      ok := true;
      if writeOffset % UNIT + size > UNIT {
        ok := FlushJournal();
        if ok {
          forall i | 0 <= i < UNIT {
            buffer[i] := 0;
          }
          assert buffer[..] == Zeros(UNIT);
          dirty := false;
          writeOffset := (writeOffset + UNIT - 1) / UNIT * UNIT;
        }
      } else {
        RanNothing(storage.disk, storage.trace);
      }
    }

    /** Copies one encoded record into the buffer and advances the offset. */
    method PutRecord(r: Record)
      requires Valid() && !Full(State(), |Encode(r)|)
      modifies this, buffer
      ensures Valid() && buffer == old(buffer)
      ensures State() == Put(old(State()), r)
    {
      hide LrdBytes;
      var bytes, off := Encode(r), writeOffset % UNIT;
      forall i | 0 <= i < |bytes| {
        buffer[off + i] := bytes[i];
      }
      assert buffer[..] == Overwrite(old(buffer[..]), off, bytes);
      dirty := true;
      writeOffset := writeOffset + |bytes|;
    }

    /** Appends the after-image of one metadata page. */
    method AppendLogRecord(tid: nat, block: nat, page: Page) returns (ok: bool)
      requires Valid()
      modifies this, buffer, storage
      ensures Valid() && buffer == old(buffer)
      ensures ok ==> State() == Append(old(State()), tid, block, page)
      ensures !ok ==> State() == old(State()).(end := end)
      ensures Ran(old(storage.disk), old(storage.trace), storage.disk, storage.trace, AppendPlan(old(State())), ok)
    {
      var r := RedoRecord(tid, prevOffset, block, page);
      ok := MakeRoom(LRD_SIZE + PAGE);
      if ok {
        var at := writeOffset;
        PutRecord(r);
        prevOffset := at;
      }
    }

    /**
     Appends the commit record and flushes: from here on the transaction is durable. When the flush fails
     the commit record stays in the buffer.
     */
    method CommitTransaction(tid: nat) returns (ok: bool)
      requires Valid()
      modifies this, buffer, storage
      ensures Valid() && buffer == old(buffer)
      ensures ok ==> State() == Commit(old(State()), tid)
      ensures !ok ==>
                State() == (if Calls(old(storage.trace), storage.trace) < |RoomPlan(old(State()), LRD_SIZE)| then old(State())
                            else Put(Room(old(State()), LRD_SIZE), NextCommit(old(State()), tid))).(end := end)
      ensures Ran(old(storage.disk), old(storage.trace), storage.disk, storage.trace,
                  CommitRecordPlan(old(State()), tid), ok)
    {
      var r := CommitRecord(tid, prevOffset);
      ghost var d0, t0, s0 := storage.disk, storage.trace, State();
      ok := MakeRoom(LRD_SIZE);
      if !ok {
        RanLonger(d0, t0, storage.disk, storage.trace, RoomPlan(s0, LRD_SIZE),
                  FlushPlan(Put(Room(s0, LRD_SIZE), NextCommit(s0, tid))));
        return;
      }
      PutRecord(r);
      ghost var d1, t1, s1 := storage.disk, storage.trace, State();
      ok := FlushJournal();
      RanThen(d0, t0, d1, t1, storage.disk, storage.trace, RoomPlan(s0, LRD_SIZE), FlushPlan(s1), ok);
      if ok {
        prevOffset := 0;
      }
    }
  }
}

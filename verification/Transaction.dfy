/**
 The transaction manager: at most one transaction at a time, ordered commit, and abort.
 */
module Transaction {
  import opened Bytes
  import opened LogRecord
  import opened Device
  import opened LogWriter
  import opened LogLayout
  import opened LogCrash
  import opened LogManager
  import opened Recovery
  import opened CrashSafety
  import opened CommitShape
  import opened FirstUnit
  import opened AsWritten
  import opened WriteAhead

  /** A cached page is found under its inode and its block. */
  datatype Key = Key(inode: nat, block: nat)

  datatype CachedPage = CachedPage(data: Page, dirty: bool, txid: nat, pins: nat)

  type Pages = map<Key, CachedPage>

  function Unpin(p: CachedPage): CachedPage {
    p.(pins := if p.pins > 0 then p.pins - 1 else 0)
  }

  /** What an abort does to a page: it forgets the transaction and keeps the bytes. */
  function Cleaned(p: CachedPage): CachedPage {
    Unpin(Unpin(p.(dirty := false, txid := 0)))
  }

  /** The pages of the transaction that are in the cache, in the order they were marked. */
  function Collected(cache: Pages, keys: seq<Key>): seq<(nat, Page)>
    decreases |keys|
  {
    if keys == [] then [] else
    var k := keys[|keys| - 1];
    Collected(cache, keys[..|keys| - 1]) + if k in cache then [(k.block, cache[k].data)] else []
  }

  function CleanPages(cache: Pages, keys: set<Key>): Pages {
    map k | k in cache :: if k in keys then Cleaned(cache[k]) else cache[k]
  }

  function KeySet(keys: seq<Key>): set<Key> {
    set i | 0 <= i < |keys| :: keys[i]
  }

  predicate NoRepeats(keys: seq<Key>) {
    forall i, j :: 0 <= i < j < |keys| ==> keys[i] != keys[j]
  }

  lemma KeySetPrefix(keys: seq<Key>, i: nat)
    requires i < |keys| && NoRepeats(keys)
    ensures KeySet(keys[..i + 1]) == KeySet(keys[..i]) + {keys[i]}
    ensures keys[i] !in KeySet(keys[..i])
  {
    assert keys[..i + 1][i] == keys[i];
    forall k | k in KeySet(keys[..i]) ensures k in KeySet(keys[..i + 1]) {
      var x :| 0 <= x < i && keys[..i][x] == k;
      assert keys[..i + 1][x] == k;
    }
  }

  datatype ActiveTxn = ActiveTxn(txid: nat, dirtyPages: seq<Key>)

  /** The device calls of a commit without a journal. */
  function PlainPlan(t: Txn): seq<Event> {
    [FlushData] + BlockWrites(t) + [FlushMetadata]
  }

  // ---- What the operations promise, on pages, keys and calls ----

  /** The page of the key is in the cache, and this call writes it to its block. */
  predicate WritesPage(e: Event, cache: Pages, k: Key) {
    k in cache && e == BlockWrite(k.block, cache[k].data)
  }

  /** Every cached page of the list is written, and in the order of the list. */
  ghost predicate AllWritten(es: seq<Event>, cache: Pages, keys: seq<Key>) {
    && (forall i :: 0 <= i < |keys| && keys[i] in cache ==> exists p :: 0 <= p < |es| && WritesPage(es[p], cache, keys[i]))
    && (forall i, j :: 0 <= i < j < |keys| && keys[i] in cache && keys[j] in cache ==>
          exists p, q :: 0 <= p < q < |es| && WritesPage(es[p], cache, keys[i]) && WritesPage(es[q], cache, keys[j]))
  }

  /** No other block is written. */
  ghost predicate NoOtherWritten(es: seq<Event>, cache: Pages, keys: seq<Key>) {
    forall p :: 0 <= p < |es| && es[p].BlockWrite? ==> exists i :: 0 <= i < |keys| && WritesPage(es[p], cache, keys[i])
  }

  /** Data is flushed before anything else, and metadata when everything is written. */
  predicate FlushesAround(es: seq<Event>) {
    |es| >= 2 && es[0] == FlushData && es[|es| - 1] == FlushMetadata
  }

  /** An image record of a block and, behind it, the commit record of its transaction. */
  ghost predicate ImageIn(recs: seq<Record>, tid: nat, b: nat, image: seq<byte>) {
    exists x, y :: 0 <= x < y < |recs| && IsImageRecord(recs[x], tid, b, image) && IsCommitRecord(recs[y], tid)
  }

  predicate IsImageRecord(r: Record, tid: nat, b: nat, image: seq<byte>) {
    && r.lrd.kind == 0x0800 && r.lrd.pageType == 1 && r.lrd.logtid == tid % TWO32 && r.lrd.aggregate == 0
    && r.lrd.pxd == Pxd(1, b) && r.lrd.length == |image| && r.data == image
  }

  predicate IsCommitRecord(r: Record, tid: nat) {
    r.lrd.kind == 0x8000 && r.lrd.logtid == tid % TWO32 && r.lrd.aggregate == 0 && r.lrd.length == 0 && r.data == []
  }

  /** When a page is written in place, the log on the device holds its image and the commit record. */
  ghost predicate LoggedFirst(d: Disk, es: seq<Event>, tid: nat) {
    forall p :: 0 <= p < |es| && es[p].BlockWrite? ==>
      exists s: LogState, us: Units :: Settled(ApplyAll(d, es[..p]), s, us) && ImageIn(Records(us), tid, es[p].block, es[p].image)
  }

  /** The pages of the list have lost their marks and two pins, and keep their bytes; all others are as they were. */
  predicate Unmarked(before: Pages, after: Pages, keys: seq<Key>) {
    && after.Keys == before.Keys
    && (forall k :: k in before && k in keys ==>
          && !after[k].dirty && after[k].txid == 0 && after[k].data == before[k].data
          && after[k].pins == if before[k].pins >= 2 then before[k].pins - 2 else 0)
    && (forall k :: k in before && k !in keys ==> after[k] == before[k])
  }

  /** The pages of the list are gone, all others are as they were. */
  ghost predicate Dropped(before: Pages, after: Pages, keys: seq<Key>) {
    && (forall k :: k in after <==> k in before && k !in keys)
    && (forall k :: k in after ==> after[k] == before[k])
  }

  lemma CleanedIs(before: Pages, keys: seq<Key>)
    ensures Unmarked(before, CleanPages(before, KeySet(keys)), keys)
  {
    forall k | k in keys ensures k in KeySet(keys) {
      var i :| 0 <= i < |keys| && keys[i] == k;
    }
  }

  lemma DroppedIs(before: Pages, keys: seq<Key>)
    ensures Dropped(before, before - KeySet(keys), keys)
  {
    forall k | k in keys ensures k in KeySet(keys) {
      var i :| 0 <= i < |keys| && keys[i] == k;
    }
  }

  class PageCache {
    var pages: Pages

    constructor ()
      ensures pages == map[]
    {
      pages := map[];
    }
  }

  class TransactionManager {
    var nextTxid: nat
    var active: Option<ActiveTxn>
    var lastCommitted: nat

    /** Ids are handed out in increasing order, and a page is listed once. */
    ghost predicate Valid()
      reads this
    {
      && lastCommitted < nextTxid
      && (active.Some? ==> lastCommitted < active.value.txid < nextTxid && NoRepeats(active.value.dirtyPages))
    }

    constructor ()
      ensures Valid() && nextTxid == 1 && active == None && lastCommitted == 0
    {
      nextTxid, active, lastCommitted := 1, None, 0;
    }

    /** Starts a transaction unless one is active; its id is greater than every id before it. */
    method Begin() returns (txid: Option<nat>)
      requires Valid()
      modifies this
      ensures Valid() && lastCommitted == old(lastCommitted)
      ensures txid.Some? <==> old(active).None?
      ensures txid.Some? ==> txid.value == old(nextTxid) && nextTxid == old(nextTxid) + 1
      ensures txid.Some? ==> active == Some(ActiveTxn(old(nextTxid), []))
      ensures txid.None? ==> nextTxid == old(nextTxid) && active == old(active)
    {
      if active.Some? {
        return None;
      }
      txid := Some(nextTxid);
      active := Some(ActiveTxn(nextTxid, []));
      nextTxid := nextTxid + 1;
    }

    /** Puts a page under the active transaction. */
    method MarkDirty(cache: PageCache, inode: nat, block: nat) returns (ok: bool)
      requires Valid()
      modifies this`active, cache
      ensures Valid()
      ensures ok <==> old(active).Some?
      ensures !ok ==> active == old(active) && cache.pages == old(cache.pages)
      ensures ok ==> active.Some? && active.value.txid == old(active).value.txid && Key(inode, block) in active.value.dirtyPages
      ensures ok ==> active.value.dirtyPages
                     == old(active).value.dirtyPages + if Key(inode, block) in old(active).value.dirtyPages then [] else [Key(inode, block)]
      ensures ok ==> cache.pages.Keys == old(cache.pages).Keys
      ensures ok ==> forall k :: k in cache.pages ==>
                cache.pages[k] == if k == Key(inode, block) then old(cache.pages)[k].(dirty := true, txid := old(active).value.txid)
                                  else old(cache.pages)[k]
    {
      if active.None? {
        return false;
      }
      var a, k := active.value, Key(inode, block);
      if k in cache.pages {
        cache.pages := cache.pages[k := cache.pages[k].(dirty := true, txid := a.txid)];
      }
      if k !in a.dirtyPages {
        active := Some(a.(dirtyPages := a.dirtyPages + [k]));
      }
      ok := true;
    }

    /** Clears the transaction's marks from its pages; the modified bytes stay in the cache. */
    method AbortPages(cache: PageCache, keys: seq<Key>)
      requires NoRepeats(keys)
      modifies cache
      ensures cache.pages == CleanPages(old(cache.pages), KeySet(keys))
    {
      assert KeySet(keys[..0]) == {};
      for i := 0 to |keys|
        invariant cache.pages == CleanPages(old(cache.pages), KeySet(keys[..i]))
      {
        KeySetPrefix(keys, i);
        var k := keys[i];
        if k in cache.pages {
          cache.pages := cache.pages[k := Cleaned(cache.pages[k])];
        }
      }
      assert keys[..|keys|] == keys;
    }

    /** Gives up the active transaction. */
    method Abort(cache: PageCache)
      requires Valid()
      modifies this`active, cache
      ensures Valid() && active == None
      ensures Unmarked(old(cache.pages), cache.pages, if old(active).Some? then old(active).value.dirtyPages else [])
    {
      if active.Some? {
        CleanedIs(cache.pages, active.value.dirtyPages);
        AbortPages(cache, active.value.dirtyPages);
        active := None;
      }
    }

    /** Appends the image of every dirty page to the journal. */
    method LogPages(cache: PageCache, jm: LogManager, keys: seq<Key>, txid: nat) returns (ok: bool)
      requires jm.Valid()
      modifies jm, jm.buffer, jm.storage
      ensures jm.Valid() && jm.buffer == old(jm.buffer) && cache.pages == old(cache.pages)
      ensures ok ==> jm.State() == AppendAll(old(jm.State()), txid, Collected(cache.pages, keys))
      ensures Ran(old(jm.storage.disk), old(jm.storage.trace), jm.storage.disk, jm.storage.trace,
                  AppendAllPlan(old(jm.State()), txid, Collected(cache.pages, keys)), ok)
      ensures !ok ==>
                (var k, all := Calls(old(jm.storage.trace), jm.storage.trace), Collected(cache.pages, keys);
                 && k < |AppendAllPlan(old(jm.State()), txid, all)|
                 && jm.State() == AppendAll(old(jm.State()), txid, all[..PagesPut(old(jm.State()), txid, all, k)]).(end := jm.end))
    {
      hide Ran, Append, AppendPlan, AppendAll, AppendAllPlan, Collected, PagesPut;
      NothingCollected(cache.pages, txid);
      AppendNothing(jm.State(), txid);
      ghost var d0, t0, s0 := jm.storage.disk, jm.storage.trace, jm.State();
      RanNothing(d0, t0);
      ok := true;
      assert keys[..0] == [];
      for i := 0 to |keys|
        invariant jm.Valid() && jm.buffer == old(jm.buffer)
        invariant jm.State() == AppendAll(s0, txid, Collected(cache.pages, keys[..i]))
        invariant Ran(d0, t0, jm.storage.disk, jm.storage.trace, AppendAllPlan(s0, txid, Collected(cache.pages, keys[..i])), true)
      {
        var k := keys[i];
        CollectedStep(cache.pages, keys, i);
        ghost var before := Collected(cache.pages, keys[..i]);
        if k in cache.pages {
          ghost var d1, t1, s1 := jm.storage.disk, jm.storage.trace, jm.State();
          AppendAllSnoc(s0, txid, before, (k.block, cache.pages[k].data));
          ok := jm.AppendLogRecord(txid, k.block, cache.pages[k].data);
          if !ok {
            CollectedPrefix(cache.pages, keys, i + 1);
            AppendFails(s0, txid, Collected(cache.pages, keys), before, (k.block, cache.pages[k].data),
                        d0, t0, d1, t1, jm.storage.disk, jm.storage.trace);
            return;
          }
          RanThen(d0, t0, d1, t1, jm.storage.disk, jm.storage.trace, AppendAllPlan(s0, txid, before), AppendPlan(s1), true);
        }
      }
      assert keys[..|keys|] == keys;
      ok := true;
    }

    /** Writes every dirty page to its block. */
    method WritePages(cache: PageCache, storage: Storage, keys: seq<Key>, ghost txid: nat) returns (ok: bool)
      modifies storage
      ensures cache.pages == old(cache.pages)
      ensures Ran(old(storage.disk), old(storage.trace), storage.disk, storage.trace,
                  BlockWrites(Txn(txid, Collected(cache.pages, keys))), ok)
    {
      hide Ran, Collected, BlockWrites;
      ghost var d0, t0 := storage.disk, storage.trace;
      ghost var all := BlockWrites(Txn(txid, Collected(cache.pages, keys)));
      RanNothing(d0, t0);
      ok := true;
      assert keys[..0] == [];
      NothingCollected(cache.pages, txid);
      for i := 0 to |keys|
        invariant cache.pages == old(cache.pages)
        invariant Ran(d0, t0, storage.disk, storage.trace, BlockWrites(Txn(txid, Collected(cache.pages, keys[..i]))), true)
      {
        var k := keys[i];
        CollectedStep(cache.pages, keys, i);
        ghost var before := BlockWrites(Txn(txid, Collected(cache.pages, keys[..i])));
        if k in cache.pages {
          ghost var e := BlockWrite(k.block, cache.pages[k].data);
          BlockWritesSnoc(txid, Collected(cache.pages, keys[..i]), (k.block, cache.pages[k].data));
          RanStep(d0, t0, storage.disk, storage.trace, before, e);
          ok := storage.Issue(BlockWrite(k.block, cache.pages[k].data));
          if !ok {
            CollectedPrefix(cache.pages, keys, i + 1);
            BlockWritesPrefix(txid, Collected(cache.pages, keys[..i + 1]), Collected(cache.pages, keys));
            RanPart(d0, t0, storage.disk, storage.trace, before + [e], all);
            return;
          }
        }
      }
      assert keys[..|keys|] == keys;
      ok := true;
    }

    /** Drops written pages from the cache. */
    method ReleasePages(cache: PageCache, keys: seq<Key>)
      modifies cache
      ensures cache.pages == old(cache.pages) - KeySet(keys)
    {
      assert KeySet(keys[..0]) == {};
      for i := 0 to |keys|
        invariant cache.pages == old(cache.pages) - KeySet(keys[..i])
      {
        var k := keys[i];
        KeySetSnoc(keys, i);
        cache.pages := cache.pages - {k};
      }
      assert keys[..|keys|] == keys;
    }

    /**
     Commits the active transaction in order: data flush, log records, commit record and journal flush,
     blocks in place, metadata flush. The calls made are those of the plan, all of them on success.
     For a journal in a quiet state the commit is atomic against a crash after any of its calls,
     and so is a commit that fails. On a log that is marked as replayed recovery does nothing.
     */
    method Commit(storage: Storage, cache: PageCache, journal: LogManager?, ghost us: Units) returns (ok: bool)
      requires Valid()
      requires journal != null ==> journal.Valid() && journal.storage == storage
      modifies this, cache, storage, journal, if journal == null then {} else {journal.buffer}
      ensures Valid() && active == None && nextTxid == old(nextTxid)
      ensures old(active).None? ==> !ok && storage.trace == old(storage.trace) && storage.disk == old(storage.disk)
      ensures ok ==> old(active).Some? && lastCommitted == old(active).value.txid
      ensures !ok ==> lastCommitted == old(lastCommitted)
      ensures ok ==> Dropped(old(cache.pages), cache.pages, old(active).value.dirtyPages)
      ensures !ok ==> Unmarked(old(cache.pages), cache.pages, if old(active).Some? then old(active).value.dirtyPages else [])
      ensures |old(storage.trace)| <= |storage.trace|
      ensures old(active).Some? ==>
                (var calls := storage.trace[|old(storage.trace)|..];
                 && NoOtherWritten(calls, old(cache.pages), old(active).value.dirtyPages)
                 && (ok ==> AllWritten(calls, old(cache.pages), old(active).value.dirtyPages) && FlushesAround(calls))
                 && (journal != null && LogReady(old(storage.disk), old(journal.State()), us, TxnOf(old(active).value, old(cache.pages))) ==>
                       LoggedFirst(old(storage.disk), calls, old(active).value.txid)))
      ensures old(active).Some? && journal == null ==>
                Ran(old(storage.disk), old(storage.trace), storage.disk, storage.trace,
                    PlainPlan(TxnOf(old(active).value, old(cache.pages))), ok)
      ensures old(active).Some? && journal != null ==>
                Ran(old(storage.disk), old(storage.trace), storage.disk, storage.trace,
                    CommitPlan(old(journal.State()), TxnOf(old(active).value, old(cache.pages))), ok)
      ensures old(active).Some? && journal != null ==>
                journal.State() == StateAfter(old(journal.State()), TxnOf(old(active).value, old(cache.pages)),
                                              Calls(old(storage.trace), storage.trace), journal.end)
      ensures old(active).Some? && journal != null
              && Ready(old(storage.disk), old(journal.State()), us, TxnOf(old(active).value, old(cache.pages))) ==>
                var r := RecoverUnits(storage.disk);
                && r.Some?
                && (r.value.blocks == old(storage.disk).blocks
                    || r.value.blocks == ApplyWrites(old(storage.disk).blocks, TxnWrites(TxnOf(old(active).value, old(cache.pages)))))
                && (ok ==> r.value.blocks == ApplyWrites(old(storage.disk).blocks, TxnWrites(TxnOf(old(active).value, old(cache.pages)))))
      ensures old(active).Some? && journal != null
              && SafeAsWritten(old(storage.disk), old(journal.State()), us, TxnOf(old(active).value, old(cache.pages))) ==>
                AllOrNothing(old(storage.disk), storage.disk, TxnOf(old(active).value, old(cache.pages)))
      ensures old(active).Some? && journal != null && old(storage.disk).state == old(journal.State()).state == LOGREDONE ==>
                storage.disk.state == LOGREDONE && LeftAlone(storage.disk)
    {
      hide Ran, RecoverUnits, LoggedPlan, Quiet, Fit, AddTxn, ApplyWrites, TxnWrites, Ready, SafeAsWritten, AllOrNothing, LeftAlone, LogReady, Unmarked, Dropped,
           AllWritten, NoOtherWritten, FlushesAround, LoggedFirst, CommitPlan, PlainPlan, KeySet, CleanPages, StateAfter, TxnOf;
      if active.None? {
        NothingUnmarked(cache.pages);
        return false;
      }
      var a := active.value;
      CleanedIs(cache.pages, a.dirtyPages);
      DroppedIs(cache.pages, a.dirtyPages);
      ghost var before := cache.pages;
      active := None;
      ghost var d0, t0, t := storage.disk, storage.trace, TxnOf(a, cache.pages);
      ghost var s0 := if journal == null then LogState(0, 0, Zeros(UNIT), false, 0, 0) else journal.State();
      ok := RunCommit(storage, cache, journal, a);
      if ok {
        ReleasePages(cache, a.dirtyPages);
        lastCommitted := a.txid;
      } else {
        AbortPages(cache, a.dirtyPages);
      }
      RunCarries(d0, t0, storage.disk, storage.trace, if journal == null then PlainPlan(t) else CommitPlan(s0, t), ok, journal == null, s0, a, before);
      if journal != null && LogReady(d0, s0, us, t) {
        RunLogsFirst(d0, t0, storage.disk, storage.trace, ok, s0, us, a, before);
      }
      if journal != null && Ready(d0, s0, us, t) {
        RanAtomic(d0, s0, us, t, t0, storage.disk, storage.trace, ok);
      }
      if journal != null && SafeAsWritten(d0, s0, us, t) {
        RanAsWritten(d0, s0, us, t, t0, storage.disk, storage.trace, ok);
      }
      if journal != null && d0.state == s0.state == LOGREDONE {
        RanReplayed(d0, s0, t, t0, storage.disk, storage.trace, ok);
      }
    }

    /** The device side of a commit. */
    method RunCommit(storage: Storage, cache: PageCache, journal: LogManager?, a: ActiveTxn) returns (ok: bool)
      requires journal != null ==> journal.Valid() && journal.storage == storage
      modifies storage, journal, if journal == null then {} else {journal.buffer}
      ensures cache.pages == old(cache.pages)
      ensures journal == null ==>
                Ran(old(storage.disk), old(storage.trace), storage.disk, storage.trace, PlainPlan(TxnOf(a, cache.pages)), ok)
      ensures journal != null ==>
                Ran(old(storage.disk), old(storage.trace), storage.disk, storage.trace,
                    CommitPlan(old(journal.State()), TxnOf(a, cache.pages)), ok)
      ensures journal != null ==>
                journal.State() == StateAfter(old(journal.State()), TxnOf(a, cache.pages), Calls(old(storage.trace), storage.trace), journal.end)
    {
      hide Ran, LoggedPlan, BlockWrites, Logged, AfterFailure, CommitPlan, PlainPlan;
      ghost var d0, t0, t := storage.disk, storage.trace, TxnOf(a, cache.pages);
      PlanShapes(t);
      RanNothing(d0, t0);
      RanStep(d0, t0, d0, t0, [], FlushData);
      assert [] + [FlushData] == [FlushData];
      ok := storage.Issue(FlushData);
      if !ok {
        RanPart(d0, t0, storage.disk, storage.trace, [FlushData],
                if journal == null then PlainPlan(t) else CommitPlan(journal.State(), t));
        return;
      }
      if journal == null {
        ok := FinishCommit(storage, cache, a, [FlushData], d0, t0);
        return;
      }
      ghost var d1, t1, s0 := storage.disk, storage.trace, journal.State();
      ok := Journal(cache, journal, a);
      ghost var done := [FlushData] + LoggedPlan(s0, t);
      RanThen(d0, t0, d1, t1, storage.disk, storage.trace, [FlushData], LoggedPlan(s0, t), ok);
      RanMade(d1, t1, storage.disk, storage.trace, LoggedPlan(s0, t), ok);
      if !ok {
        RanPart(d0, t0, storage.disk, storage.trace, done, CommitPlan(s0, t));
        return;
      }
      ok := FinishCommit(storage, cache, a, done, d0, t0);
    }

    /** The blocks in place and the metadata flush. */
    method FinishCommit(storage: Storage, cache: PageCache, a: ActiveTxn, ghost done: seq<Event>, ghost d0: Disk, ghost t0: seq<Event>)
      returns (ok: bool)
      requires Ran(d0, t0, storage.disk, storage.trace, done, true)
      modifies storage
      ensures cache.pages == old(cache.pages) && |old(storage.trace)| <= |storage.trace|
      ensures Ran(d0, t0, storage.disk, storage.trace, done + BlockWrites(TxnOf(a, cache.pages)) + [FlushMetadata], ok)
    {
      hide Ran, BlockWrites;
      ghost var d2, t2, t := storage.disk, storage.trace, TxnOf(a, cache.pages);
      ok := WritePages(cache, storage, a.dirtyPages, a.txid);
      RanThen(d0, t0, d2, t2, storage.disk, storage.trace, done, BlockWrites(t), ok);
      RanMade(d2, t2, storage.disk, storage.trace, BlockWrites(t), ok);
      if !ok {
        RanLonger(d0, t0, storage.disk, storage.trace, done + BlockWrites(t), [FlushMetadata]);
        return;
      }
      RanStep(d0, t0, storage.disk, storage.trace, done + BlockWrites(t), FlushMetadata);
      ok := storage.Issue(FlushMetadata);
    }

    /** The journal side of a commit: all records of the transaction, then its commit record. */
    method Journal(cache: PageCache, jm: LogManager, a: ActiveTxn) returns (ok: bool)
      requires jm.Valid()
      modifies jm, jm.buffer, jm.storage
      ensures jm.Valid() && jm.buffer == old(jm.buffer) && cache.pages == old(cache.pages)
      ensures ok ==> jm.State() == Logged(old(jm.State()), TxnOf(a, cache.pages))
      ensures !ok ==> jm.State()
                      == AfterFailure(old(jm.State()), TxnOf(a, cache.pages), Calls(old(jm.storage.trace), jm.storage.trace), jm.end)
      ensures Ran(old(jm.storage.disk), old(jm.storage.trace), jm.storage.disk, jm.storage.trace,
                  LoggedPlan(old(jm.State()), TxnOf(a, cache.pages)), ok)
    {
      hide Ran, LogWriter.Commit, CommitRecordPlan, AppendAll, AppendAllPlan, AfterFailure, PagesPut, RoomPlan, Room, Put;
      ghost var d0, t0, s0, t := jm.storage.disk, jm.storage.trace, jm.State(), TxnOf(a, cache.pages);
      ghost var plan := AppendAllPlan(s0, a.txid, t.pages);
      ok := LogPages(cache, jm, a.dirtyPages, a.txid);
      ghost var d1, t1, s1 := jm.storage.disk, jm.storage.trace, AppendAll(s0, a.txid, t.pages);
      if !ok {
        FailureIs(s0, t, Calls(t0, t1), jm.end);
        RanLonger(d0, t0, d1, t1, plan, CommitRecordPlan(s1, a.txid));
        return;
      }
      ok := jm.CommitTransaction(a.txid);
      if !ok {
        RanMade(d0, t0, d1, t1, plan, true);
        RanMade(d1, t1, jm.storage.disk, jm.storage.trace, CommitRecordPlan(s1, a.txid), false);
        FailureIs(s0, t, Calls(t0, jm.storage.trace), jm.end);
      }
      RanThen(d0, t0, d1, t1, jm.storage.disk, jm.storage.trace, plan, CommitRecordPlan(s1, a.txid), ok);
    }
  }

  /** The journaled transaction: its id and the cached images of its pages. */
  function TxnOf(a: ActiveTxn, cache: Pages): Txn {
    Txn(a.txid, Collected(cache, a.dirtyPages))
  }

  // ---- What a commit carries ----

  lemma NothingUnmarked(pages: Pages)
    ensures Unmarked(pages, pages, [])
  {
  }

  /** Where the page of key `i` stands among the collected ones. */
  lemma {:induction false} CollectedAt(cache: Pages, keys: seq<Key>, i: nat)
    requires i < |keys| && keys[i] in cache
    ensures var j := |Collected(cache, keys[..i])|;
            j < |Collected(cache, keys)| && Collected(cache, keys)[j] == (keys[i].block, cache[keys[i]].data)
    decreases |keys|
  {
    var n := |keys| - 1;
    if i < n {
      CollectedAt(cache, keys[..n], i);
      assert keys[..n][..i] == keys[..i];
    }
  }

  lemma {:induction false} CollectedFrom(cache: Pages, keys: seq<Key>, j: nat) returns (i: nat)
    requires j < |Collected(cache, keys)|
    ensures i < |keys| && keys[i] in cache && Collected(cache, keys)[j] == (keys[i].block, cache[keys[i]].data)
    decreases |keys|
  {
    var n := |keys| - 1;
    if j < |Collected(cache, keys[..n])| {
      i := CollectedFrom(cache, keys[..n], j);
    } else {
      i := n;
    }
  }

  lemma CollectedLater(cache: Pages, keys: seq<Key>, i: nat, j: nat)
    requires i < j < |keys| && keys[i] in cache
    ensures |Collected(cache, keys[..i])| < |Collected(cache, keys[..j])|
  {
    CollectedAt(cache, keys[..j], i);
    assert keys[..j][..i] == keys[..i];
  }

  /** A plan whose block writes are those of the transaction, in order, from position `n` on. */
  ghost predicate BlocksFrom(plan: seq<Event>, t: Txn, n: nat) {
    && n + |t.pages| <= |plan|
    && (forall j :: 0 <= j < |t.pages| ==> plan[n + j] == BlockWrite(t.pages[j].0, t.pages[j].1))
    && (forall p :: 0 <= p < |plan| && plan[p].BlockWrite? ==> n <= p < n + |t.pages|)
  }

  lemma PlanCarries(plan: seq<Event>, n: nat, a: ActiveTxn, cache: Pages)
    requires BlocksFrom(plan, TxnOf(a, cache), n)
    ensures AllWritten(plan, cache, a.dirtyPages) && NoOtherWritten(plan, cache, a.dirtyPages)
  {
    hide Collected;
    var keys, ps := a.dirtyPages, Collected(cache, a.dirtyPages);
    forall i | 0 <= i < |keys| && keys[i] in cache ensures exists p :: 0 <= p < |plan| && WritesPage(plan[p], cache, keys[i]) {
      CollectedAt(cache, keys, i);
      assert WritesPage(plan[n + |Collected(cache, keys[..i])|], cache, keys[i]);
    }
    forall i, j | 0 <= i < j < |keys| && keys[i] in cache && keys[j] in cache
      ensures exists p, q :: 0 <= p < q < |plan| && WritesPage(plan[p], cache, keys[i]) && WritesPage(plan[q], cache, keys[j])
    {
      CollectedAt(cache, keys, i);
      CollectedAt(cache, keys, j);
      CollectedLater(cache, keys, i, j);
      var p, q := n + |Collected(cache, keys[..i])|, n + |Collected(cache, keys[..j])|;
      assert WritesPage(plan[p], cache, keys[i]) && WritesPage(plan[q], cache, keys[j]);
    }
    forall p | 0 <= p < |plan| && plan[p].BlockWrite? ensures exists i :: 0 <= i < |keys| && WritesPage(plan[p], cache, keys[i]) {
      var i := CollectedFrom(cache, keys, p - n);
      assert WritesPage(plan[p], cache, keys[i]);
    }
  }

  lemma NoOtherPart(plan: seq<Event>, k: nat, cache: Pages, keys: seq<Key>)
    requires NoOtherWritten(plan, cache, keys) && k <= |plan|
    ensures NoOtherWritten(plan[..k], cache, keys)
  {
    hide WritesPage;
    forall p | 0 <= p < k && plan[..k][p].BlockWrite? ensures exists i :: 0 <= i < |keys| && WritesPage(plan[..k][p], cache, keys[i]) {
      assert plan[..k][p] == plan[p];
    }
  }

  lemma PlanBlocks(s: LogState, t: Txn)
    requires Sized(s)
    ensures BlocksFrom(CommitPlan(s, t), t, 1 + |LoggedPlan(s, t)|) && FlushesAround(CommitPlan(s, t))
  {
    hide LoggedPlan;
    LoggedPlanShape(s, t);
    var l, plan, n := LoggedPlan(s, t), CommitPlan(s, t), 1 + |LoggedPlan(s, t)|;
    forall j | 0 <= j < |t.pages| ensures plan[n + j] == BlockWrite(t.pages[j].0, t.pages[j].1) {
      assert plan[n + j] == BlockWrites(t)[j];
    }
    assert forall p :: 1 <= p < n ==> plan[p] == l[p - 1];
  }

  lemma PlainBlocks(t: Txn)
    ensures BlocksFrom(PlainPlan(t), t, 1) && FlushesAround(PlainPlan(t))
  {
    var plan := PlainPlan(t);
    forall j | 0 <= j < |t.pages| ensures plan[1 + j] == BlockWrite(t.pages[j].0, t.pages[j].1) {
      assert plan[1 + j] == BlockWrites(t)[j];
    }
  }

  /** The calls that were made, in terms of the pages of the transaction. */
  lemma RunCarries(d0: Disk, t0: seq<Event>, d1: Disk, t1: seq<Event>, plan: seq<Event>, ok: bool, plain: bool, s: LogState, a: ActiveTxn, cache: Pages)
    requires Sized(s) && Ran(d0, t0, d1, t1, plan, ok) && plan == if plain then PlainPlan(TxnOf(a, cache)) else CommitPlan(s, TxnOf(a, cache))
    ensures |t0| <= |t1|
    ensures var calls := t1[|t0|..];
            && NoOtherWritten(calls, cache, a.dirtyPages)
            && (ok ==> AllWritten(calls, cache, a.dirtyPages) && FlushesAround(calls))
  {
    hide CommitPlan, PlainPlan, BlocksFrom, AllWritten, NoOtherWritten, FlushesAround, TxnOf;
    var t, n := TxnOf(a, cache), |t1| - |t0|;
    PlanBlocks(s, t);
    PlainBlocks(t);
    PlanCarries(plan, if plain then 1 else 1 + |LoggedPlan(s, t)|, a, cache);
    NoOtherPart(plan, n, cache, a.dirtyPages);
    assert t1[|t0|..] == plan[..n];
    assert ok ==> plan[..n] == plan;
  }

  /** A log that holds all its records, in whatever state, with room for a transaction the volume can take. */
  ghost predicate LogReady(d: Disk, s: LogState, us: Units, t: Txn) {
    Settled(d, s, us) && Fit(d.blocks, t) && UNIT * |AddTxn(us, s, t)| <= |d.log|
  }

  lemma {:induction false} RedoRecordAt(s: LogState, tid: nat, pages: seq<(nat, Page)>, i: nat)
    requires Sized(s) && i < |pages| && pages[i].0 < TWO40
    ensures |RedoRecords(s, tid, pages)| == |pages| && IsImageRecord(RedoRecords(s, tid, pages)[i], tid, pages[i].0, pages[i].1)
    decreases |pages|
  {
    hide AppendAll, RedoRecord, IsImageRecord, RedoRecords;
    var m := |pages| - 1;
    RecordCount(s, tid, pages[..m]);
    LastRecord(s, tid, pages);
    if i < m {
      RedoRecordAt(s, tid, pages[..m], i);
    } else {
      RecordIs(tid, AppendAll(s, tid, pages[..m]).prevOffset, pages[m].0, pages[m].1);
    }
  }

  lemma LastRecord(s: LogState, tid: nat, pages: seq<(nat, Page)>)
    requires Sized(s) && pages != []
    ensures var m := |pages| - 1;
            RedoRecords(s, tid, pages)
            == RedoRecords(s, tid, pages[..m]) + [RedoRecord(tid, AppendAll(s, tid, pages[..m]).prevOffset, pages[m].0, pages[m].1)]
  {
    hide AppendAll, RedoRecord;
  }

  lemma RecordIs(tid: nat, prev: nat, block: nat, page: Page)
    requires block < TWO40
    ensures IsImageRecord(RedoRecord(tid, prev, block, page), tid, block, page)
  {
  }

  lemma {:induction false} RecordCount(s: LogState, tid: nat, pages: seq<(nat, Page)>)
    requires Sized(s)
    ensures |RedoRecords(s, tid, pages)| == |pages|
    decreases |pages|
  {
    hide AppendAll, NextRedo;
    if pages != [] {
      RecordCount(s, tid, pages[..|pages| - 1]);
    }
  }

  /** The records of a transaction hold the image of each of its pages, and its commit record behind them. */
  lemma ImagesInRecords(us: Units, s: LogState, t: Txn, i: nat)
    requires Sized(s) && i < |t.pages| && t.pages[i].0 < TWO40
    ensures ImageIn(Records(AddTxn(us, s, t)), t.tid, t.pages[i].0, t.pages[i].1)
  {
    hide Records, RedoRecords, AppendAll, AddTxn, IsImageRecord;
    AddTxnRecords(us, s, t);
    RedoRecordAt(s, t.tid, t.pages, i);
    var base, p, c := Records(us), RedoRecords(s, t.tid, t.pages), NextCommit(AppendAll(s, t.tid, t.pages), t.tid);
    var all := base + (p + [c]);
    assert all == Records(AddTxn(us, s, t));
    assert all[|base| + i] == p[i] && all[|base| + |p|] == c;
    assert IsCommitRecord(c, t.tid);
  }

  /** When a block is written, the whole transaction lies in the log on the device. */
  lemma LoggedAt(d: Disk, s: LogState, us: Units, t: Txn, p: nat)
    requires LogReady(d, s, us, t) && Sized(s) && p < |CommitPlan(s, t)| && CommitPlan(s, t)[p].BlockWrite?
    ensures var e := CommitPlan(s, t)[p];
            && Settled(ApplyAll(d, CommitPlan(s, t)[..p]), Logged(s, t), AddTxn(us, s, t))
            && ImageIn(Records(AddTxn(us, s, t)), t.tid, e.block, e.image)
  {
    hide Settled, CommitPlan, AddTxn, LoggedPlan, BlockWrites, Logged, ImageIn, FlushedBefore, TxnWrites, ApplyWrites;
    BlockWritePosition(s, t, p);
    FitId(d.blocks, t);
    var l, i := LoggedPlan(s, t), p - 1 - |LoggedPlan(s, t)|;
    LoggedSettles(d, s, us, t);
    ApplyAllOne(d, FlushData);
    ApplyAllConcat(d, [FlushData], l);
    var c := ApplyAll(d, l);
    BlockWritesApply(c, t, i);
    ApplyAllConcat(d, [FlushData] + l, BlockWrites(t)[..i]);
    SettledBlocks(c, Logged(s, t), AddTxn(us, s, t), ApplyWrites(c.blocks, TxnWrites(t)[..i]));
    ImagesInRecords(us, s, t, i);
  }

  lemma RunLogsFirst(d0: Disk, t0: seq<Event>, d1: Disk, t1: seq<Event>, ok: bool, s: LogState, us: Units, a: ActiveTxn, cache: Pages)
    requires Sized(s) && LogReady(d0, s, us, TxnOf(a, cache)) && Ran(d0, t0, d1, t1, CommitPlan(s, TxnOf(a, cache)), ok)
    ensures |t0| <= |t1| && LoggedFirst(d0, t1[|t0|..], a.txid)
  {
    hide LogReady, CommitPlan, Settled, ImageIn, Collected, AddTxn, Logged;
    var t, n := TxnOf(a, cache), |t1| - |t0|;
    var plan, es := CommitPlan(s, t), t1[|t0|..];
    assert es == plan[..n];
    forall p | 0 <= p < |es| && es[p].BlockWrite?
      ensures exists s2: LogState, vs: Units :: Settled(ApplyAll(d0, es[..p]), s2, vs) && ImageIn(Records(vs), a.txid, es[p].block, es[p].image)
    {
      assert es[p] == plan[p] && es[..p] == plan[..p];
      LoggedAt(d0, s, us, t, p);
    }
  }

  /** A quiet journal with room for a transaction the volume can take. */
  ghost predicate Ready(d: Disk, s: LogState, us: Units, t: Txn) {
    Quiet(d, s, us) && Fit(d.blocks, t) && UNIT * |AddTxn(us, s, t)| <= |d.log|
  }

  /** Whatever part of the commit plan was carried out, recovery gives the old or the new blocks. */
  lemma RanAtomic(d: Disk, s: LogState, us: Units, t: Txn, t0: seq<Event>, d1: Disk, t1: seq<Event>, ok: bool)
    requires Ready(d, s, us, t) && Ran(d, t0, d1, t1, CommitPlan(s, t), ok)
    ensures var r := RecoverUnits(d1);
            && r.Some?
            && (r.value.blocks == d.blocks || r.value.blocks == ApplyWrites(d.blocks, TxnWrites(t)))
            && (ok ==> r.value.blocks == ApplyWrites(d.blocks, TxnWrites(t)))
  {
    hide Quiet, Fit, AddTxn, CommitPlan, LoggedPlan, RecoverUnits, ApplyWrites, TxnWrites;
    QuietParts(d, s, us);
    CommitPlanLonger(s, t);
    CommitAtomic(d, s, us, t, |t1| - |t0|);
  }

  /** A log in any state, with the condition under which recovery as written is atomic. */
  ghost predicate SafeAsWritten(d: Disk, s: LogState, us: Units, t: Txn) {
    Takes(d, s, us, t) && StagesSafe(d.blocks, RedoAsWritten(s, us), t)
  }

  /** Whatever part of the plan was carried out, recovery as written gives the old or the new blocks. */
  lemma RanAsWritten(d: Disk, s: LogState, us: Units, t: Txn, t0: seq<Event>, d1: Disk, t1: seq<Event>, ok: bool)
    requires SafeAsWritten(d, s, us, t) && Ran(d, t0, d1, t1, CommitPlan(s, t), ok)
    ensures AllOrNothing(d, d1, t)
  {
    hide Quiet, Fit, AddTxn, CommitPlan, AllOrNothing, StagesSafe, FirstLive;
    CommitSafeAt(d, s, us, t, |t1| - |t0|);
  }

  /** On a log that is marked as replayed, recovery leaves whatever part was carried out. */
  lemma RanReplayed(d: Disk, s: LogState, t: Txn, t0: seq<Event>, d1: Disk, t1: seq<Event>, ok: bool)
    requires Sized(s) && d.state == s.state == LOGREDONE && Ran(d, t0, d1, t1, CommitPlan(s, t), ok)
    ensures d1.state == LOGREDONE && LeftAlone(d1)
  {
    hide CommitPlan, LeftAlone;
    MarkStays(d, s, t, |t1| - |t0|);
  }

  lemma KeySetSnoc(keys: seq<Key>, i: nat)
    requires i < |keys|
    ensures KeySet(keys[..i + 1]) == KeySet(keys[..i]) + {keys[i]}
  {
    assert keys[..i + 1][i] == keys[i];
    forall k | k in KeySet(keys[..i]) ensures k in KeySet(keys[..i + 1]) {
      var x :| 0 <= x < i && keys[..i][x] == k;
      assert keys[..i + 1][x] == k;
    }
  }

  lemma NothingCollected(cache: Pages, txid: nat)
    ensures Collected(cache, []) == [] && BlockWrites(Txn(txid, [])) == []
  {
  }

  lemma CollectedStep(cache: Pages, keys: seq<Key>, i: nat)
    requires i < |keys|
    ensures Collected(cache, keys[..i + 1])
         == if keys[i] in cache then Collected(cache, keys[..i]) + [(keys[i].block, cache[keys[i]].data)]
            else Collected(cache, keys[..i])
  {
    assert keys[..i + 1][..i] == keys[..i];
    assert Collected(cache, keys[..i]) + [] == Collected(cache, keys[..i]);
  }

  lemma AppendNothing(s: LogState, txid: nat)
    requires Sized(s)
    ensures AppendAll(s, txid, []) == s && AppendAllPlan(s, txid, []) == []
  {
  }

  lemma AppendAllSnoc(s: LogState, txid: nat, ps: seq<(nat, Page)>, p: (nat, Page))
    requires Sized(s)
    ensures AppendAll(s, txid, ps + [p]) == Append(AppendAll(s, txid, ps), txid, p.0, p.1)
    ensures AppendAllPlan(s, txid, ps + [p]) == AppendAllPlan(s, txid, ps) + AppendPlan(AppendAll(s, txid, ps))
  {
    assert (ps + [p])[..|ps|] == ps;
  }

  /** An append that fails part of the way through the pages. */
  lemma AppendFails(s: LogState, tid: nat, all: seq<(nat, Page)>, before: seq<(nat, Page)>, p: (nat, Page),
                    d0: Disk, t0: seq<Event>, d1: Disk, t1: seq<Event>, d2: Disk, t2: seq<Event>)
    requires Sized(s) && before + [p] <= all
    requires Ran(d0, t0, d1, t1, AppendAllPlan(s, tid, before), true)
    requires Ran(d1, t1, d2, t2, AppendPlan(AppendAll(s, tid, before)), false)
    ensures Ran(d0, t0, d2, t2, AppendAllPlan(s, tid, all), false)
    ensures Calls(t0, t2) < |AppendAllPlan(s, tid, all)|
    ensures PagesPut(s, tid, all, Calls(t0, t2)) == |before| && all[..|before|] == before
  {
    hide Ran, AppendAllPlan, AppendAll, AppendPlan, PagesPut;
    var a, b := AppendAllPlan(s, tid, before), AppendPlan(AppendAll(s, tid, before));
    AppendAllSnoc(s, tid, before, p);
    RanMade(d0, t0, d1, t1, a, true);
    RanMade(d1, t1, d2, t2, b, false);
    RanThen(d0, t0, d1, t1, d2, t2, a, b, false);
    FailedPage(s, tid, all, before, p, Calls(t0, t2));
    RanPart(d0, t0, d2, t2, AppendAllPlan(s, tid, before + [p]), AppendAllPlan(s, tid, all));
  }

  lemma PlanShapes(t: Txn)
    ensures PlainPlan(t) == [FlushData] + BlockWrites(t) + [FlushMetadata] && [FlushData] <= PlainPlan(t)
    ensures forall s: LogState :: Sized(s) ==>
              && CommitPlan(s, t) == [FlushData] + LoggedPlan(s, t) + BlockWrites(t) + [FlushMetadata]
              && [FlushData] <= CommitPlan(s, t) && [FlushData] + LoggedPlan(s, t) <= CommitPlan(s, t)
  {
    hide LoggedPlan, BlockWrites;
  }

  lemma RanPart(d0: Disk, t0: seq<Event>, d1: Disk, t1: seq<Event>, part: seq<Event>, plan: seq<Event>)
    requires Ran(d0, t0, d1, t1, part, false) && part <= plan
    ensures Ran(d0, t0, d1, t1, plan, false)
  {
    hide Ran;
    var rest := plan[|part|..];
    assert plan == part + rest;
    RanLonger(d0, t0, d1, t1, part, rest);
  }

  lemma FailedPage(s: LogState, tid: nat, all: seq<(nat, Page)>, before: seq<(nat, Page)>, p: (nat, Page), k: nat)
    requires Sized(s) && before + [p] <= all
    requires |AppendAllPlan(s, tid, before)| <= k < |AppendAllPlan(s, tid, before + [p])|
    ensures AppendAllPlan(s, tid, before + [p]) <= AppendAllPlan(s, tid, all)
    ensures k < |AppendAllPlan(s, tid, all)| && PagesPut(s, tid, all, k) == |before| && all[..|before|] == before
  {
    hide AppendAllPlan, PagesPut;
    var n := |before|;
    assert all[..n + 1] == before + [p];
    assert all[..n] == before;
    PagesPutIs(s, tid, all, n, k);
    AppendAllPlanPrefix(s, tid, all, n + 1);
  }

  /** The state the buffer is left in, by the number of calls made. */
  lemma FailureIs(s: LogState, t: Txn, k: nat, end: nat)
    requires Sized(s)
    ensures var s1, n, r := AppendAll(s, t.tid, t.pages), |AppendAllPlan(s, t.tid, t.pages)|, AfterFailure(s, t, k, end);
            && (k < n ==> r == AppendAll(s, t.tid, t.pages[..PagesPut(s, t.tid, t.pages, k)]).(end := end))
            && (n <= k < n + |RoomPlan(s1, LRD_SIZE)| ==> r == s1.(end := end))
            && (n + |RoomPlan(s1, LRD_SIZE)| <= k ==> r == Put(Room(s1, LRD_SIZE), NextCommit(s1, t.tid)).(end := end))
  {
    hide AppendAll, AppendAllPlan, RoomPlan, Room, Put;
    if k >= |AppendAllPlan(s, t.tid, t.pages)| {
      assert t.pages[..|t.pages|] == t.pages;
    }
  }

  lemma {:induction false} PagesPutIs(s: LogState, tid: nat, pages: seq<(nat, Page)>, n: nat, k: nat)
    requires Sized(s) && n < |pages|
    requires |AppendAllPlan(s, tid, pages[..n])| <= k < |AppendAllPlan(s, tid, pages[..n + 1])|
    ensures PagesPut(s, tid, pages, k) == n && k < |AppendAllPlan(s, tid, pages)|
    decreases |pages|
  {
    hide AppendAllPlan;
    AppendAllPlanPrefix(s, tid, pages, n + 1);
    var m := |pages| - 1;
    if n == m {
      assert pages[..n + 1] == pages;
    } else {
      assert pages[..m][..n] == pages[..n] && pages[..m][..n + 1] == pages[..n + 1];
      PagesPutIs(s, tid, pages[..m], n, k);
    }
  }

  lemma BlockWritesSnoc(txid: nat, ps: seq<(nat, Page)>, p: (nat, Page))
    ensures BlockWrites(Txn(txid, ps + [p])) == BlockWrites(Txn(txid, ps)) + [BlockWrite(p.0, p.1)]
  {
  }

  lemma BlockWritesPrefix(txid: nat, ps: seq<(nat, Page)>, qs: seq<(nat, Page)>)
    requires ps <= qs
    ensures BlockWrites(Txn(txid, ps)) <= BlockWrites(Txn(txid, qs))
  {
  }

  lemma {:induction false} CollectedPrefix(cache: Pages, keys: seq<Key>, i: nat)
    requires i <= |keys|
    ensures Collected(cache, keys[..i]) <= Collected(cache, keys)
    decreases |keys|
  {
    if i == |keys| {
      assert keys[..i] == keys;
    } else {
      var init := keys[..|keys| - 1];
      CollectedPrefix(cache, init, i);
      assert init[..i] == keys[..i];
    }
  }

  lemma {:induction false} AppendAllPlanPrefix(s: LogState, tid: nat, pages: seq<(nat, Page)>, m: nat)
    requires Sized(s) && m <= |pages|
    ensures AppendAllPlan(s, tid, pages[..m]) <= AppendAllPlan(s, tid, pages)
    decreases |pages|
  {
    hide AppendAll, AppendPlan;
    if m == |pages| {
      assert pages[..m] == pages;
    } else {
      var init := pages[..|pages| - 1];
      AppendAllPlanPrefix(s, tid, init, m);
      assert init[..m] == pages[..m];
    }
  }
}

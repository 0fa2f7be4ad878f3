/**
 Synchronising a volume: dirty pages of the cache are written to their blocks first, and only then is a
 transaction that is still open committed. When that keeps the write-ahead order.
 */
module VolumeSync {
  import opened Bytes
  import opened Device
  import opened LogWriter
  import opened LogLayout
  import opened LogScan
  import opened LogCrash
  import opened LogManager
  import opened Recovery
  import opened CrashSafety
  import opened FirstUnit
  import opened Restarting
  import opened WriteAhead
  import opened Transaction

  /** The images of the dirty pages, in the order the cache lists them. */
  function DirtyWrites(cache: Pages, keys: seq<Key>): seq<Write>
    decreases |keys|
  {
    if keys == [] then [] else
    var k := keys[|keys| - 1];
    DirtyWrites(cache, keys[..|keys| - 1]) + if k in cache && cache[k].dirty then [Write(k.block, cache[k].data)] else []
  }

  function WrittenBack(cache: Pages): Pages {
    map k | k in cache :: if cache[k].dirty then cache[k].(dirty := false, txid := 0) else cache[k]
  }

  /** Every dirty page of the cache is written to its block. */
  ghost predicate AllDirtyWritten(es: seq<Event>, cache: Pages) {
    forall k :: k in cache && cache[k].dirty ==> exists p :: 0 <= p < |es| && WritesPage(es[p], cache, k)
  }

  /** All calls write a dirty page of the cache to its block. */
  ghost predicate OnlyDirtyWritten(es: seq<Event>, cache: Pages) {
    forall p :: 0 <= p < |es| ==> WritesDirty(es[p], cache)
  }

  ghost predicate WritesDirty(e: Event, cache: Pages) {
    exists k :: k in cache && cache[k].dirty && WritesPage(e, cache, k)
  }

  /** Every page is clean and belongs to no transaction if it was dirty; nothing else has changed. */
  predicate AllClean(before: Pages, after: Pages) {
    && after.Keys == before.Keys
    && forall k :: k in before ==> after[k] == if before[k].dirty then before[k].(dirty := false, txid := 0) else before[k]
  }

  lemma {:induction false} DirtyAt(cache: Pages, keys: seq<Key>, i: nat)
    requires i < |keys| && keys[i] in cache && cache[keys[i]].dirty
    ensures Write(keys[i].block, cache[keys[i]].data) in DirtyWrites(cache, keys)
    decreases |keys|
  {
    if i < |keys| - 1 {
      DirtyAt(cache, keys[..|keys| - 1], i);
    }
  }

  lemma {:induction false} DirtyFrom(cache: Pages, keys: seq<Key>, j: nat) returns (i: nat)
    requires j < |DirtyWrites(cache, keys)|
    ensures i < |keys| && keys[i] in cache && cache[keys[i]].dirty
    ensures DirtyWrites(cache, keys)[j] == Write(keys[i].block, cache[keys[i]].data)
    decreases |keys|
  {
    var n := |keys| - 1;
    if j < |DirtyWrites(cache, keys[..n])| {
      i := DirtyFrom(cache, keys[..n], j);
    } else {
      i := n;
    }
  }

  lemma DirtyCarries(cache: Pages, order: seq<Key>, n: nat)
    requires KeySet(order) == cache.Keys && n <= |DirtyWrites(cache, order)|
    ensures var es := WriteEvents(DirtyWrites(cache, order));
            OnlyDirtyWritten(es[..n], cache) && (n == |es| ==> AllDirtyWritten(es[..n], cache))
  {
    hide DirtyWrites;
    var ws := DirtyWrites(cache, order);
    var es := WriteEvents(ws);
    var fs := es[..n];
    forall p | 0 <= p < |fs| ensures WritesDirty(fs[p], cache) {
      var i := DirtyFrom(cache, order, p);
      assert WritesPage(fs[p], cache, order[i]);
    }
    if n == |es| {
      forall k | k in cache && cache[k].dirty ensures exists p :: 0 <= p < |fs| && WritesPage(fs[p], cache, k) {
        assert k in KeySet(order);
        var i :| 0 <= i < |order| && order[i] == k;
        DirtyAt(cache, order, i);
        var p :| 0 <= p < |ws| && ws[p] == Write(k.block, cache[k].data);
        assert WritesPage(fs[p], cache, k);
      }
    }
  }

  lemma FlushCarries(d0: Disk, t0: seq<Event>, d1: Disk, t1: seq<Event>, cache: Pages, order: seq<Key>, ok: bool)
    requires KeySet(order) == cache.Keys && Ran(d0, t0, d1, t1, WriteEvents(DirtyWrites(cache, order)), ok)
    ensures |t0| <= |t1| && OnlyDirtyWritten(t1[|t0|..], cache) && (ok ==> AllDirtyWritten(t1[|t0|..], cache))
  {
    hide DirtyWrites, OnlyDirtyWritten, AllDirtyWritten, WriteEvents, KeySet;
    var es, n := WriteEvents(DirtyWrites(cache, order)), |t1| - |t0|;
    assert t1[|t0|..] == es[..n];
    DirtyCarries(cache, order, n);
  }

  /** All device calls of a sync. */
  function SyncPlan(dirty: seq<Write>, commit: seq<Event>, journaled: bool): seq<Event> {
    WriteEvents(dirty) + commit + (if journaled then [Sync] else []) + [Sync]
  }

  /** Writes every dirty page to its block, and only then marks them clean. */
  method FlushAll(cache: PageCache, storage: Storage, order: seq<Key>) returns (ok: bool)
    requires KeySet(order) == cache.pages.Keys
    modifies cache, storage
    ensures if ok then AllClean(old(cache.pages), cache.pages) else cache.pages == old(cache.pages)
    ensures |old(storage.trace)| <= |storage.trace|
    ensures OnlyDirtyWritten(storage.trace[|old(storage.trace)|..], old(cache.pages))
    ensures ok ==> AllDirtyWritten(storage.trace[|old(storage.trace)|..], old(cache.pages))
    ensures ok ==> cache.pages == WrittenBack(old(cache.pages))
    ensures Ran(old(storage.disk), old(storage.trace), storage.disk, storage.trace, WriteEvents(DirtyWrites(old(cache.pages), order)), ok)
  {
    hide Ran, DirtyWrites, WriteEvents, OnlyDirtyWritten, AllDirtyWritten, KeySet;
    ghost var d0, t0, pages := storage.disk, storage.trace, cache.pages;
    ghost var all := DirtyWrites(pages, order);
    RanNothing(d0, t0);
    assert order[..0] == [];
    NothingDirty(pages);
    for i := 0 to |order|
      invariant cache.pages == pages
      invariant Ran(d0, t0, storage.disk, storage.trace, WriteEvents(DirtyWrites(pages, order[..i])), true)
    {
      var k := order[i];
      DirtyStep(pages, order, i);
      if k in cache.pages && cache.pages[k].dirty {
        ghost var before, w := DirtyWrites(pages, order[..i]), Write(k.block, cache.pages[k].data);
        WriteEventsSnoc(before, w);
        RanStep(d0, t0, storage.disk, storage.trace, WriteEvents(before), BlockWrite(w.block, w.data));
        ok := storage.Issue(BlockWrite(k.block, cache.pages[k].data));
        if !ok {
          DirtyPrefix(pages, order, i + 1);
          WriteEventsPrefix(before + [w], all);
          RanPart(d0, t0, storage.disk, storage.trace, WriteEvents(before + [w]), WriteEvents(all));
          FlushCarries(d0, t0, storage.disk, storage.trace, pages, order, false);
          return;
        }
      } else {
        assert DirtyWrites(pages, order[..i]) + [] == DirtyWrites(pages, order[..i]);
      }
    }
    assert order[..|order|] == order;
    FlushCarries(d0, t0, storage.disk, storage.trace, pages, order, true);
    cache.pages := map k | k in cache.pages :: if cache.pages[k].dirty then cache.pages[k].(dirty := false, txid := 0) else cache.pages[k];
    ok := true;
  }

  lemma NothingDirty(cache: Pages)
    ensures DirtyWrites(cache, []) == [] && WriteEvents([]) == []
  {
  }

  lemma DirtyStep(cache: Pages, keys: seq<Key>, i: nat)
    requires i < |keys|
    ensures DirtyWrites(cache, keys[..i + 1])
         == DirtyWrites(cache, keys[..i])
            + if keys[i] in cache && cache[keys[i]].dirty then [Write(keys[i].block, cache[keys[i]].data)] else []
  {
    assert keys[..i + 1][..i] == keys[..i];
  }

  lemma {:induction false} DirtyPrefix(cache: Pages, keys: seq<Key>, i: nat)
    requires i <= |keys|
    ensures DirtyWrites(cache, keys[..i]) <= DirtyWrites(cache, keys)
    decreases |keys|
  {
    if i == |keys| {
      assert keys[..i] == keys;
    } else {
      DirtyPrefix(cache, keys[..|keys| - 1], i);
      assert keys[..|keys| - 1][..i] == keys[..i];
    }
  }

  lemma WriteEventsSnoc(ws: seq<Write>, w: Write)
    ensures WriteEvents(ws + [w]) == WriteEvents(ws) + [BlockWrite(w.block, w.data)]
  {
  }

  lemma WriteEventsPrefix(a: seq<Write>, b: seq<Write>)
    requires a <= b
    ensures WriteEvents(a) <= WriteEvents(b)
  {
  }

  /** The whole sync of a journaled volume: dirty pages in place, the open transaction, the log, the device. */
  method SyncVolume(tx: TransactionManager, storage: Storage, cache: PageCache, journal: LogManager, order: seq<Key>, ghost us: Units)
    returns (ok: bool)
    requires tx.Valid() && journal.Valid() && journal.storage == storage && KeySet(order) == cache.pages.Keys
    modifies tx, cache, storage, journal, journal.buffer
    ensures tx.Valid() && |old(storage.trace)| <= |storage.trace|
    ensures ok ==>
              SyncDid(storage.trace[|old(storage.trace)|..], old(cache.pages), if old(tx.active).Some? then Some(old(tx.active).value.dirtyPages) else None)
    ensures var commit := if old(tx.active).Some? then CommitPlan(old(journal.State()), TxnOf(old(tx.active).value, old(cache.pages))) else [];
            Ran(old(storage.disk), old(storage.trace), storage.disk, storage.trace,
                SyncPlan(DirtyWrites(old(cache.pages), order), commit, true), ok)
  {
    hide Ran, DirtyWrites, WriteEvents, CommitPlan, RecoverUnits, Ready, SafeAsWritten, AllOrNothing, StateAfter, Collected, SyncDid, AllWritten, NoOtherWritten,
         OnlyDirtyWritten, AllDirtyWritten, LogReady, LoggedFirst, Dropped, Unmarked, FlushesAround, KeySet, SyncPlan;
    ghost var d0, t0, s0, pages := storage.disk, storage.trace, journal.State(), cache.pages;
    ghost var back := WriteEvents(DirtyWrites(pages, order));
    ghost var commit: seq<Event> := if tx.active.Some? then CommitPlan(s0, TxnOf(tx.active.value, pages)) else [];
    SyncShape(DirtyWrites(pages, order), commit);
    ok := FlushAll(cache, storage, order);
    if !ok {
      RanPart(d0, t0, storage.disk, storage.trace, back, SyncPlan(DirtyWrites(pages, order), commit, true));
      return;
    }
    ghost var d1, t1 := storage.disk, storage.trace;
    if tx.active.Some? {
      SameCollected(pages, tx.active.value.dirtyPages);
      ok := tx.Commit(storage, cache, journal, us);
      RanThen(d0, t0, d1, t1, storage.disk, storage.trace, back, commit, ok);
      if !ok {
        RanPart(d0, t0, storage.disk, storage.trace, back + commit, SyncPlan(DirtyWrites(pages, order), commit, true));
        return;
      }
    } else {
      assert back + commit == back;
    }
    RanStep(d0, t0, storage.disk, storage.trace, back + commit, Sync);
    ok := storage.Issue(Sync);
    if !ok {
      RanPart(d0, t0, storage.disk, storage.trace, back + commit + [Sync], SyncPlan(DirtyWrites(pages, order), commit, true));
      return;
    }
    RanStep(d0, t0, storage.disk, storage.trace, back + commit + [Sync], Sync);
    ok := storage.Issue(Sync);
    if ok {
      ghost var plan := SyncPlan(DirtyWrites(pages, order), commit, true);
      RanAll(d0, t0, storage.disk, storage.trace, plan);
      SyncCarries(pages, order, s0, old(tx.active), plan);
    }
  }

  lemma RanAll(d0: Disk, t0: seq<Event>, d1: Disk, t1: seq<Event>, plan: seq<Event>)
    requires Ran(d0, t0, d1, t1, plan, true)
    ensures |t0| <= |t1| && t1[|t0|..] == plan
  {
  }

  /** Dirty pages first, then the pages of the open transaction between its flushes, then the device. */
  ghost predicate SyncDid(es: seq<Event>, cache: Pages, keys: Option<seq<Key>>) {
    exists n: nat :: n <= |es|
      && OnlyDirtyWritten(es[..n], cache) && AllDirtyWritten(es[..n], cache)
      && |es| >= n + 2 && es[|es| - 2] == Sync && es[|es| - 1] == Sync
      && (keys.None? ==> |es| == n + 2)
      && (keys.Some? ==> (var commit := es[n..|es| - 2];
                          FlushesAround(commit) && AllWritten(commit, cache, keys.value) && NoOtherWritten(commit, cache, keys.value)))
  }

  lemma SyncCarries(cache: Pages, order: seq<Key>, s: LogState, a: Option<ActiveTxn>, es: seq<Event>)
    requires KeySet(order) == cache.Keys && Sized(s)
    requires es == SyncPlan(DirtyWrites(cache, order), if a.Some? then CommitPlan(s, TxnOf(a.value, cache)) else [], true)
    ensures SyncDid(es, cache, if a.Some? then Some(a.value.dirtyPages) else None)
  {
    hide DirtyWrites, OnlyDirtyWritten, AllDirtyWritten, WriteEvents, KeySet, CommitPlan, FlushesAround, AllWritten, NoOtherWritten, BlocksFrom, LoggedPlan, TxnOf;
    var back := WriteEvents(DirtyWrites(cache, order));
    var n := |back|;
    var commit := if a.Some? then CommitPlan(s, TxnOf(a.value, cache)) else [];
    assert es == back + commit + [Sync] + [Sync];
    DirtyCarries(cache, order, n);
    assert es[..n] == back && back[..n] == back;
    assert es[n..|es| - 2] == commit;
    if a.Some? {
      PlanBlocks(s, TxnOf(a.value, cache));
      PlanCarries(commit, 1 + |LoggedPlan(s, TxnOf(a.value, cache))|, a.value, cache);
    }
  }

  lemma SyncShape(dirty: seq<Write>, commit: seq<Event>)
    ensures var plan, back := SyncPlan(dirty, commit, true), WriteEvents(dirty);
            && back <= plan && back + commit <= plan && back + commit + [Sync] <= plan && plan == back + commit + [Sync] + [Sync]
  {
    hide WriteEvents;
  }

  /** Writing pages back does not change what the open transaction will commit. */
  lemma {:induction false} SameCollected(cache: Pages, keys: seq<Key>)
    ensures Collected(WrittenBack(cache), keys) == Collected(cache, keys)
    decreases |keys|
  {
    if keys != [] {
      SameCollected(cache, keys[..|keys| - 1]);
    }
  }

  // ---- Write-ahead order under a sync ----

  lemma QuietVisible(d: Disk, s: LogState, us: Units)
    requires Quiet(d, s, us)
    ensures VisibleUnits(d) == Some(Records(us))
  {
    hide Quiet, Settled, VisibleUnits, Records;
    QuietParts(d, s, us);
    if Last(us) != [] {
      SettledVisible(d, s, us);
    } else {
      EmptyVisible(d, s, us);
    }
  }

  /** The disk after the first `p` pages were written back. */
  lemma WrittenBackAt(d: Disk, ws: seq<Write>, p: nat)
    requires Acceptable(d.blocks, ws) && p <= |ws|
    ensures var c := ApplyAll(d, WriteEvents(ws)[..p]);
            && c == d.(blocks := ApplyWrites(d.blocks, ws[..p])) && c.blocks.Keys == d.blocks.Keys
            && Visible(c) == Visible(d) && VisibleUnits(c) == VisibleUnits(d)
  {
    hide Acceptable, WriteEvents, ApplyWrites, Visible, VisibleUnits;
    WriteEventsApply(d, ws, p);
    SameLogSameRecords(ApplyAll(d, WriteEvents(ws)[..p]), d);
  }

  /**
   A page that a sync writes back is covered by the log exactly when its image is already there and will
   be redone. For the pages of an open transaction it is not, unless an earlier one logged the same images.
   */
  lemma WriteBackAhead(d: Disk, s: LogState, us: Units, ws: seq<Write>, p: nat)
    requires Resting(d, s, us) && Acceptable(d.blocks, ws) && p < |ws|
    ensures var c := ApplyAll(d, WriteEvents(ws)[..p]);
            && (Covered(c, ws[p].block, ws[p].data) <==> s.state != LOGREDONE && ws[p] in ImagesOf(Records(us)))
            && (CoveredAsWritten(c, ws[p].block, ws[p].data) <==> ws[p] in RedoAsWritten(s, us))
  {
    hide Quiet, Settled, Acceptable, Visible, VisibleUnits, Records, ImagesOf, Closed, Pending, LiveWrites, Live, ApplyWrites, WriteEvents;
    WrittenBackAt(d, ws, p);
    if s.state != LOGREDONE {
      QuietParts(d, s, us);
      QuietVisible(d, s, us);
      SeesFirstUnit(d, s, us);
      var recs, u := Records(us), us[0];
      EmptyLog();
      assert recs + [] == recs && recs[..|recs|] == recs;
      LiveAreImages(recs, [], |recs|);
      LiveMember(recs, |recs|, ws[p].block, ws[p].data);
      LiveMember(u, |u|, ws[p].block, ws[p].data);
    }
  }

  /** A sync keeps the write-ahead order exactly when every dirty page has its image in a log that is to be replayed. */
  lemma SyncAheadWhen(d: Disk, s: LogState, us: Units, ws: seq<Write>)
    requires Resting(d, s, us) && Acceptable(d.blocks, ws)
    ensures (forall p :: 0 <= p < |ws| ==> Covered(ApplyAll(d, WriteEvents(ws)[..p]), ws[p].block, ws[p].data))
       <==> ws == [] || (s.state != LOGREDONE && forall p :: 0 <= p < |ws| ==> ws[p] in ImagesOf(Records(us)))
    ensures (forall p :: 0 <= p < |ws| ==> CoveredAsWritten(ApplyAll(d, WriteEvents(ws)[..p]), ws[p].block, ws[p].data))
       <==> (forall p :: 0 <= p < |ws| ==> ws[p] in RedoAsWritten(s, us))
  {
    hide Quiet, Acceptable, Covered, CoveredAsWritten, ImagesOf, Records, WriteEvents, RedoAsWritten, ApplyAll;
    if ws != [] {
      WriteBackAhead(d, s, us, ws, 0);
    }
    forall p | 0 <= p < |ws|
      ensures Covered(ApplyAll(d, WriteEvents(ws)[..p]), ws[p].block, ws[p].data) <==> s.state != LOGREDONE && ws[p] in ImagesOf(Records(us))
      ensures CoveredAsWritten(ApplyAll(d, WriteEvents(ws)[..p]), ws[p].block, ws[p].data) <==> ws[p] in RedoAsWritten(s, us)
    {
      WriteBackAhead(d, s, us, ws, p);
    }
  }

  /** A crash after the first `p` pages were written back: recovery keeps them, under the images it redoes. */
  lemma WriteBackCrash(d: Disk, s: LogState, us: Units, ws: seq<Write>, p: nat)
    requires Resting(d, s, us) && Acceptable(d.blocks, ws) && p <= |ws|
    ensures var c, m := ApplyAll(d, WriteEvents(ws)[..p]), ApplyWrites(d.blocks, ws[..p]);
            && RecoverUnits(c).Some? && RecoverUnits(c).value.blocks == ApplyWrites(m, if s.state == LOGREDONE then [] else ImagesOf(Records(us)))
            && Recover(c).Some? && Recover(c).value.blocks == ApplyWrites(m, RedoAsWritten(s, us))
  {
    hide Quiet, Settled, Acceptable, Visible, VisibleUnits, Records, ImagesOf, Closed, Pending, ApplyWrites, WriteEvents, FirstLive, Backward;
    WrittenBackAt(d, ws, p);
    var c, m := ApplyAll(d, WriteEvents(ws)[..p]), ApplyWrites(d.blocks, ws[..p]);
    NothingToDo(m);
    if s.state != LOGREDONE {
      QuietParts(d, s, us);
      QuietVisible(d, s, us);
      SeesFirstUnit(d, s, us);
      FirstLiveIs(d, s, us);
      var recs := Records(us);
      EmptyAcceptable(d.blocks);
      AcceptableBoth(d.blocks, c.blocks, [], ImagesOf(recs));
      AcceptableBoth(d.blocks, c.blocks, [], FirstLive(us));
      assert [] + ImagesOf(recs) == ImagesOf(recs) && [] + FirstLive(us) == FirstLive(us) && recs + [] == recs;
      EmptyLog();
      RecoverClosed(c, recs, []);
    }
  }
}

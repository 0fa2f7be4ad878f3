/**
 The storage under the journal: the log data area as bytes, the two fields of the log superblock
 that matter to recovery, and the filesystem blocks. Every call that reaches the device is an event;
 a crash leaves the effect of a prefix of the events.
 */
module Device {
  import opened Bytes

  /** Log superblock state after a completed replay. */
  const LOGREDONE := 1

  type Page = p: seq<byte> | |p| == 4096 witness seq(4096, _ => 0)

  datatype Disk = Disk(log: seq<byte>, end: nat, state: nat, blocks: map<nat, seq<byte>>)

  datatype Event =
    | PageWrite(page: nat, data: Page)
    | SuperWrite(end: nat, state: nat)
    | BlockWrite(block: nat, image: seq<byte>)
    | FlushData
    | FlushMetadata
    | Sync

  predicate IsWrite(e: Event) {
    e.PageWrite? || e.SuperWrite? || e.BlockWrite?
  }

  /** The device accepts the call: log pages lie in the log area, whole blocks on the volume. */
  predicate Accepts(d: Disk, e: Event) {
    match e
    case PageWrite(p, _) => (p + 1) * PAGE <= |d.log|
    case BlockWrite(b, image) => b in d.blocks && |image| == PAGE
    case _ => true
  }

  function Overwrite(s: seq<byte>, at: nat, data: seq<byte>): (r: seq<byte>)
    requires at + |data| <= |s|
    ensures |r| == |s|
  {
    s[..at] + data + s[at + |data|..]
  }

  /** Effect of one event; a refused call has none. */
  function Apply(d: Disk, e: Event): (r: Disk)
    ensures |r.log| == |d.log| && r.blocks.Keys == d.blocks.Keys
  {
    if !Accepts(d, e) then d else
    match e
    case PageWrite(p, data) => d.(log := Overwrite(d.log, p * PAGE, data))
    case SuperWrite(end, state) => d.(end := end, state := state)
    case BlockWrite(b, image) => d.(blocks := d.blocks[b := image])
    case _ => d
  }

  function ApplyAll(d: Disk, es: seq<Event>): (r: Disk)
    ensures |r.log| == |d.log| && r.blocks.Keys == d.blocks.Keys
    decreases |es|
  {
    if es == [] then d else Apply(ApplyAll(d, es[..|es| - 1]), es[|es| - 1])
  }

  lemma {:induction false} ApplyAllConcat(d: Disk, a: seq<Event>, b: seq<Event>)
    ensures ApplyAll(d, a + b) == ApplyAll(ApplyAll(d, a), b)
    decreases |b|
  {
    if b == [] {
      assert a + b == a;
    } else {
      var m := |b| - 1;
      assert (a + b)[..|a + b| - 1] == a + b[..m];
      ApplyAllConcat(d, a, b[..m]);
    }
  }

  lemma ApplyAllOne(d: Disk, e: Event)
    ensures ApplyAll(d, [e]) == Apply(d, e)
  {
    assert [e][..0] == [];
    assert ApplyAll(d, []) == d;
  }

  /**
   The device with injected faults: after `writesLeft` successful writes every further write fails, and
   after `syncsLeft` successful flushes every further flush fails. `trace` lists the calls that succeeded.
   */
  class Storage {
    var disk: Disk
    var trace: seq<Event>
    var writesLeft: nat
    var syncsLeft: nat

    constructor (d: Disk, writes: nat, syncs: nat)
      ensures disk == d && trace == [] && writesLeft == writes && syncsLeft == syncs
    {
      disk, trace, writesLeft, syncsLeft := d, [], writes, syncs;
    }

    /** Issues one call. A call either takes full effect and is traced, or does nothing. */
    method Issue(e: Event) returns (ok: bool)
      modifies this
      ensures ok == (old(Accepts(disk, e)) && (if IsWrite(e) then old(writesLeft) > 0 else old(syncsLeft) > 0))
      ensures trace == if ok then old(trace) + [e] else old(trace)
      ensures disk == if ok then Apply(old(disk), e) else old(disk)
    {
      if IsWrite(e) {
        ok := writesLeft > 0 && Accepts(disk, e);
        if writesLeft > 0 { writesLeft := writesLeft - 1; }
      } else {
        ok := syncsLeft > 0 && Accepts(disk, e);
        if syncsLeft > 0 { syncsLeft := syncsLeft - 1; }
      }
      if ok {
        disk, trace := Apply(disk, e), trace + [e];
      }
    }
  }
}

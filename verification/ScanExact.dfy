/**
 The forward scan on raw bytes: what one step reads from any log area, and which chain of steps the records
 of a scan are.
 */
module ScanExact {
  import opened Bytes
  import opened LogRecord
  import opened LogScan

  // ---- One step ----

  /** The four bytes at `pos` are zero, or the area ends before them. */
  predicate NoWord(log: seq<byte>, pos: nat) {
    pos + 4 > |log| || (log[pos] == 0 && log[pos + 1] == 0 && log[pos + 2] == 0 && log[pos + 3] == 0)
  }

  lemma NoWordIs(log: seq<byte>, pos: nat)
    ensures NoWord(log, pos) <==> ZeroAt(log, pos)
  {
    if pos + 4 <= |log| {
      var s := log[pos..pos + 4];
      assert s[0] == log[pos] && s[1] == log[pos + 1] && s[2] == log[pos + 2] && s[3] == log[pos + 3];
      if NoWord(log, pos) {
        assert s == Zeros(4);
      }
    }
  }

  /** Two and four bytes as a number, the lowest first. */
  function Word16(s: seq<byte>, i: nat): nat
    requires i + 2 <= |s|
  {
    var a: int, b: int := s[i], s[i + 1];
    a + 0x100 * b
  }

  function Word32(s: seq<byte>, i: nat): nat
    requires i + 4 <= |s|
  {
    var a: int, b: int, c: int, d: int := s[i], s[i + 1], s[i + 2], s[i + 3];
    a + 0x100 * b + 0x1_0000 * c + 0x100_0000 * d
  }

  lemma Word16Is(s: seq<byte>, i: nat)
    requires i + 2 <= |s|
    ensures From16(s[i..i + 2]) == Word16(s, i)
  {
  }

  lemma Word32Is(s: seq<byte>, i: nat)
    requires i + 4 <= |s|
    ensures From32(s[i..i + 4]) == Word32(s, i)
  {
    hide From16;
    var w := s[i..i + 4];
    assert w[..2] == s[i..i + 2] && w[2..] == s[i + 2..i + 4];
    Word16Is(s, i);
    Word16Is(s, i + 2);
  }

  /** The 36 bytes of a header, field by field. */
  predicate HeaderIs(h: seq<byte>, l: Lrd)
    requires |h| == 36
  {
    var top: int := h[31];
    && l.logtid == Word32(h, 0) && l.backchain == Word32(h, 4) && l.kind == Word16(h, 8) && l.length == Word16(h, 10)
    && l.aggregate == Word32(h, 12) && l.fileset == Word32(h, 16) && l.inode == Word32(h, 20)
    && l.pageType == Word16(h, 24) && l.l2linesize == Word16(h, 26)
    && l.pxd.length == Word32(h, 28) % 0x100_0000
    && l.pxd.address == 0x1_0000_0000 * top + Word32(h, 32)
  }

  lemma ParsedHeader(h: seq<byte>)
    requires |h| == 36
    ensures HeaderIs(h, ParseLrd(h))
  {
    hide Word16, Word32, From16, From32;
    Word32Is(h, 0);
    Word32Is(h, 4);
    Word16Is(h, 8);
    Word16Is(h, 10);
    Word32Is(h, 12);
    Word32Is(h, 16);
    Word32Is(h, 20);
    Word16Is(h, 24);
    Word16Is(h, 26);
    ParsedExtent(h);
  }

  lemma ParsedExtent(h: seq<byte>)
    requires |h| == 36
    ensures var p, top: int := ParsePxd(h[28..36]), h[31];
            p.length == Word32(h, 28) % 0x100_0000 && p.address == 0x1_0000_0000 * top + Word32(h, 32)
  {
    hide Word32, From32;
    var s := h[28..36];
    assert s[..4] == h[28..32] && s[4..] == h[32..36];
    Word32Is(h, 28);
    Word32Is(h, 32);
    TopByte(h, 28);
  }

  lemma TopByte(h: seq<byte>, i: nat)
    requires i + 4 <= |h|
    ensures var top: int := h[i + 3]; Word32(h, i) / 0x100_0000 == top
  {
  }

  /** The bytes of the header at `pos`; zeros when the area does not hold all of them. */
  function HeaderAt(log: seq<byte>, pos: nat): (h: seq<byte>)
    ensures |h| == 36
  {
    if pos + 36 <= |log| then log[pos..pos + 36] else Zeros(36)
  }

  /** Where the next record starts: behind the payload, on the next boundary of four bytes. */
  predicate Behind(pos: nat, len: nat, next: nat) {
    pos + 36 + len <= next < pos + 36 + len + 4 && (next - pos) % 4 == 0
  }

  /**
   One step of the scan on any bytes: the end at a zero word, a read error when the announced payload
   reaches beyond the area, and otherwise the header's fields, the payload and the place behind it.
   */
  lemma StepIs(log: seq<byte>, pos: nat)
    ensures var r, len := NextRecord(log, pos), Word16(HeaderAt(log, pos), 10);
            && (r.End? <==> NoWord(log, pos))
            && (r.Bad? <==> !NoWord(log, pos) && len > 0 && pos + 36 + len > |log|)
            && (r.Got? ==>
                  && HeaderIs(HeaderAt(log, pos), r.rec.lrd) && Behind(pos, len, r.next)
                  && (if len == 0 then r.rec.data == [] else pos + 36 + len <= |log| && r.rec.data == log[pos + 36..pos + 36 + len]))
  {
    hide ParseLrd, ZeroAt, HeaderIs;
    NoWordIs(log, pos);
    ParsedHeader(HeaderAt(log, pos));
    LengthIs(HeaderAt(log, pos), ParseLrd(HeaderAt(log, pos)));
  }

  lemma LengthIs(h: seq<byte>, l: Lrd)
    requires |h| == 36 && HeaderIs(h, l)
    ensures l.length == Word16(h, 10)
  {
  }

  // ---- The whole scan ----

  /** Records read one after the other, each where the one before ended. */
  predicate Chain(log: seq<byte>, ps: seq<nat>, recs: seq<Record>) {
    |ps| == |recs| + 1 && forall i :: 0 <= i < |recs| ==> NextRecord(log, ps[i]) == Got(recs[i], ps[i + 1])
  }

  predicate WithinEnd(ps: seq<nat>, end: nat) {
    forall i :: 0 < i < |ps| ==> ps[i] <= end
  }

  lemma ChainFront(log: seq<byte>, pos: nat, r: Record, ps: seq<nat>, recs: seq<Record>)
    requires ps != [] && NextRecord(log, pos) == Got(r, ps[0]) && Chain(log, ps, recs)
    ensures Chain(log, [pos] + ps, [r] + recs)
  {
    hide NextRecord;
    var qs, all := [pos] + ps, [r] + recs;
    forall i | 0 <= i < |all| ensures NextRecord(log, qs[i]) == Got(all[i], qs[i + 1]) {
      if i > 0 {
        assert qs[i] == ps[i - 1] && qs[i + 1] == ps[i] && all[i] == recs[i - 1];
      }
    }
  }

  /**
   The scan as written returns the longest chain of records from its start whose places stay within the
   end pointer, and fails exactly when the step behind such a chain is a read error.
   */
  lemma {:induction false} ScanIs(log: seq<byte>, end: nat, pos: nat) returns (ps: seq<nat>, recs: seq<Record>)
    ensures ps != [] && ps[0] == pos && Chain(log, ps, recs) && WithinEnd(ps, end)
    ensures var last := NextRecord(log, ps[|ps| - 1]);
            && (last.Got? ==> last.next > end)
            && Scan(log, end, pos) == if last.Bad? then None else Some(recs)
    decreases if pos < |log| then |log| - pos else 0
  {
    hide NextRecord;
    NextMoves(log, pos);
    match NextRecord(log, pos)
    case End => ps, recs := [pos], [];
    case Bad => ps, recs := [pos], [];
    case Got(r, next) =>
      if next > end {
        ps, recs := [pos], [];
      } else {
        ps, recs := ScanIs(log, end, next);
        ChainFront(log, pos, r, ps, recs);
        WithinFront(pos, ps, end);
        ps, recs := [pos] + ps, [r] + recs;
      }
  }

  lemma WithinFront(pos: nat, ps: seq<nat>, end: nat)
    requires ps != [] && ps[0] <= end && WithinEnd(ps, end)
    ensures WithinEnd([pos] + ps, end)
  {
    var qs := [pos] + ps;
    forall i | 0 < i < |qs| ensures qs[i] <= end {
      assert qs[i] == ps[i - 1];
    }
  }

  lemma NextMoves(log: seq<byte>, pos: nat)
    ensures NextRecord(log, pos).Got? ==> pos < |log| && NextRecord(log, pos).next > pos
  {
  }

  /** Positions of headers, each behind the payload that the one before announces. */
  predicate Headers(log: seq<byte>, ps: seq<nat>) {
    forall i :: 0 <= i < |ps| - 1 ==> !NoWord(log, ps[i]) && Behind(ps[i], Word16(HeaderAt(log, ps[i]), 10), ps[i + 1])
  }

  lemma HeadersFront(log: seq<byte>, pos: nat, ps: seq<nat>)
    requires ps != [] && Headers(log, ps) && !NoWord(log, pos) && Behind(pos, Word16(HeaderAt(log, pos), 10), ps[0])
    ensures Headers(log, [pos] + ps)
  {
    hide NoWord, Behind, Word16;
    var qs := [pos] + ps;
    forall i | 0 <= i < |qs| - 1 ensures !NoWord(log, qs[i]) && Behind(qs[i], Word16(HeaderAt(log, qs[i]), 10), qs[i + 1]) {
      if i > 0 {
        assert qs[i] == ps[i - 1] && qs[i + 1] == ps[i];
      }
    }
  }

  /** The end of a log without an end pointer: the first zero word behind a chain of headers. */
  lemma {:induction false} FindEndIs(log: seq<byte>, pos: nat) returns (ps: seq<nat>)
    ensures ps != [] && ps[0] == pos && ps[|ps| - 1] == FindEnd(log, pos) && Headers(log, ps) && NoWord(log, FindEnd(log, pos))
    decreases if pos < |log| then |log| - pos else 0
  {
    hide ParseLrd, ZeroAt, HeaderIs, Word16;
    NoWordIs(log, pos);
    ps := [pos];
    if pos < |log| && !ZeroAt(log, pos) {
      var h := HeaderAt(log, pos);
      ParsedHeader(h);
      LengthIs(h, ParseLrd(h));
      var next := pos + RoundUp4(LRD_SIZE + ParseLrd(ReadPadded(log, pos, LRD_SIZE)).length);
      var qs := FindEndIs(log, next);
      HeadersFront(log, pos, qs);
      ps := [pos] + qs;
    }
  }
}

/**
 Log record descriptors (Lrd): the 36-byte header that precedes every page image in the journal,
 its on-disk bytes and its decoder.
 */
module LogRecord {
  import opened Bytes

  const LRD_SIZE := 36

  const LOG_COMMIT := 0x8000
  const LOG_SYNCPT := 0x4000
  const LOG_MOUNT := 0x2000
  const LOG_REDOPAGE := 0x0800
  const LOG_NOREDOPAGE := 0x0080
  const LOG_NOREDOINOEXT := 0x0040

  const LOG_INODE := 0x0001
  const LOG_DATA := 0x0080

  /** `word & mask != 0` for a mask of one bit. */
  predicate HasBit(word: nat, mask: nat)
    requires mask > 0
  {
    word / mask % 2 == 1
  }

  /** A physical extent: 24-bit length, 40-bit block address. */
  datatype Pxd = Pxd(length: nat, address: nat)

  datatype Lrd = Lrd(
    logtid: nat,
    backchain: nat,
    kind: nat,
    length: nat,
    aggregate: nat,
    fileset: nat,
    inode: nat,
    pageType: nat,
    l2linesize: nat,
    pxd: Pxd)

  /** A header together with the payload that follows it. */
  datatype Record = Record(lrd: Lrd, data: seq<byte>)

  /** Every field fits the width it has on disk. */
  predicate InRange(l: Lrd) {
    && l.logtid < TWO32 && l.backchain < TWO32 && l.kind < TWO16 && l.length < TWO16
    && l.aggregate < TWO32 && l.fileset < TWO32 && l.inode < TWO32
    && l.pageType < TWO16 && l.l2linesize < TWO16
    && l.pxd.length < TWO24 && l.pxd.address < TWO40
  }

  function LenAddr(p: Pxd): nat {
    p.length % TWO24 + TWO24 * (p.address / TWO32 % 256)
  }

  function PxdBytes(p: Pxd): (s: seq<byte>)
    ensures |s| == 8
  {
    Le32(LenAddr(p)) + Le32(p.address)
  }

  function ParsePxd(s: seq<byte>): (p: Pxd)
    requires |s| == 8
    ensures p.length < TWO24 && p.address < TWO40
  {
    var l, a := From32(s[..4]), From32(s[4..]);
    assert l / TWO24 <= 255;
    Pxd(l % TWO24, l / TWO24 * TWO32 + a)
  }

  /** The 24-bit length and the high address byte share one word without disturbing each other. */
  lemma LenAddrSplits(p: Pxd)
    requires p.length < TWO24 && p.address < TWO40
    ensures LenAddr(p) < TWO32
    ensures LenAddr(p) % TWO24 == p.length
    ensures LenAddr(p) / TWO24 == p.address / TWO32
  {
    var high := p.address / TWO32;
    assert high % 256 == high;
    assert LenAddr(p) == p.length + TWO24 * high;
  }

  lemma PxdRoundTrip(p: Pxd)
    requires p.length < TWO24 && p.address < TWO40
    ensures ParsePxd(PxdBytes(p)) == p
  {
    hide LenAddr, Le32, From32;
    var s := PxdBytes(p);
    assert s[..4] == Le32(LenAddr(p)) && s[4..] == Le32(p.address);
    LenAddrSplits(p);
    Le32RoundTrip(LenAddr(p));
    Le32RoundTrip(p.address);
    assert From32(s[..4]) == LenAddr(p);
    assert From32(s[4..]) == p.address % TWO32;
  }

  /** The words that name the record: transaction, chain, kind, payload length, aggregate. */
  function HeadBytes(l: Lrd): (s: seq<byte>)
    ensures |s| == 16
  {
    Le32(l.logtid) + Le32(l.backchain) + Le16(l.kind) + Le16(l.length) + Le32(l.aggregate)
  }

  /** The words that name the target page. */
  function TargetBytes(l: Lrd): (s: seq<byte>)
    ensures |s| == 20
  {
    Le32(l.fileset) + Le32(l.inode) + Le16(l.pageType) + Le16(l.l2linesize) + PxdBytes(l.pxd)
  }

  function LrdBytes(l: Lrd): (s: seq<byte>)
    ensures |s| == LRD_SIZE
  {
    HeadBytes(l) + TargetBytes(l)
  }

  function ParseLrd(s: seq<byte>): (l: Lrd)
    requires |s| == LRD_SIZE
    ensures InRange(l)
  {
    Lrd(From32(s[0..4]), From32(s[4..8]), From16(s[8..10]), From16(s[10..12]), From32(s[12..16]),
        From32(s[16..20]), From32(s[20..24]), From16(s[24..26]), From16(s[26..28]), ParsePxd(s[28..36]))
  }

  lemma LrdSlices(l: Lrd)
    ensures var s := LrdBytes(l);
            && s[0..4] == Le32(l.logtid) && s[4..8] == Le32(l.backchain)
            && s[8..10] == Le16(l.kind) && s[10..12] == Le16(l.length)
            && s[12..16] == Le32(l.aggregate)
            && s[16..20] == Le32(l.fileset) && s[20..24] == Le32(l.inode)
            && s[24..26] == Le16(l.pageType) && s[26..28] == Le16(l.l2linesize)
            && s[28..36] == PxdBytes(l.pxd)
  {
    hide PxdBytes, Le16, Le32;
  }

  /** Decoding a header gives back the header that was written. */
  lemma LrdRoundTrip(l: Lrd)
    requires InRange(l)
    ensures ParseLrd(LrdBytes(l)) == l
  {
    hide LrdBytes, PxdBytes, ParsePxd, Le16, Le32, From16, From32;
    LrdSlices(l);
    Le32RoundTrip(l.logtid);
    Le32RoundTrip(l.backchain);
    Le16RoundTrip(l.kind);
    Le16RoundTrip(l.length);
    Le32RoundTrip(l.aggregate);
    Le32RoundTrip(l.fileset);
    Le32RoundTrip(l.inode);
    Le16RoundTrip(l.pageType);
    Le16RoundTrip(l.l2linesize);
    PxdRoundTrip(l.pxd);
  }

  /** A record as the writer lays it out: header, then payload. */
  function Encode(r: Record): (s: seq<byte>)
    ensures |s| == LRD_SIZE + |r.data|
  {
    LrdBytes(r.lrd) + r.data
  }

  function EncodeAll(recs: seq<Record>): (s: seq<byte>)
    ensures |recs| > 0 ==> |s| >= LRD_SIZE
  {
    if recs == [] then [] else Encode(recs[0]) + EncodeAll(recs[1..])
  }

  lemma {:induction false} EncodeAllAppend(a: seq<Record>, b: seq<Record>)
    ensures EncodeAll(a + b) == EncodeAll(a) + EncodeAll(b)
  {
    if a == [] {
      assert a + b == b;
    } else {
      assert (a + b)[1..] == a[1..] + b;
      EncodeAllAppend(a[1..], b);
    }
  }

  /** The after-image record of one metadata page. */
  function RedoRecord(tid: nat, backchain: nat, block: nat, page: seq<byte>): Record {
    Record(Lrd(tid % TWO32, backchain % TWO32, LOG_REDOPAGE, |page| % TWO16, 0, 0, 0, LOG_INODE, 0,
               Pxd(1, block % TWO40)), page)
  }

  function CommitRecord(tid: nat, backchain: nat): Record {
    Record(Lrd(tid % TWO32, backchain % TWO32, LOG_COMMIT, 0, 0, 0, 0, 0, 0, Pxd(0, 0)), [])
  }

  /** A record that the scanner can find again: decodable header, nonzero first word, and a payload of
      the announced length that ends on a word boundary. */
  predicate Findable(r: Record) {
    && InRange(r.lrd)
    && r.lrd.logtid != 0
    && r.lrd.length == |r.data|
    && |r.data| % 4 == 0
  }
}

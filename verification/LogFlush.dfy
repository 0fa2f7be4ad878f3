/**
 What a flush does to the log area, page write by page write: at every point in between the records
 flushed before stay readable, and at the end every record of the buffer is on the device.
 */
module LogFlush {
  import opened Bytes
  import opened LogRecord
  import opened Device
  import opened LogWriter
  import opened LogLayout
  import opened LogScan
  import opened LogReadBack

  /** The units before the last are on the device, the last unit's bytes are `m`, zeros follow. */
  ghost predicate HoldsBytes(log: seq<byte>, us: Units, m: seq<byte>) {
    && |m| == UNIT && UNIT * |us| <= |log| && AllOk(us)
    && (forall i :: 0 <= i < |us| - 1 ==> At(log, UNIT * i, UnitBytes(us[i])))
    && At(log, UNIT * (|us| - 1), m)
    && ZeroFrom(log, UNIT * |us|)
  }

  lemma HoldsAsBytes(log: seq<byte>, us: Units, flushed: seq<Record>)
    requires AllOk(us) && UnitOk(flushed) && flushed <= Last(us)
    ensures Holds(log, us, flushed) <==> HoldsBytes(log, us, UnitBytes(flushed))
  {
    hide UnitBytes, At;
  }

  lemma AtOverwriteApart(log: seq<byte>, at: nat, data: seq<byte>, pos: nat, s: seq<byte>)
    requires at + |data| <= |log| && At(log, pos, s)
    requires pos + |s| <= at || at + |data| <= pos
    ensures At(Overwrite(log, at, data), pos, s)
  {
    var r := Overwrite(log, at, data);
    forall i | 0 <= i < |s| ensures r[pos + i] == s[i] {
      assert log[pos..pos + |s|][i] == log[pos + i];
    }
    assert r[pos..pos + |s|] == s;
  }

  lemma AtOverwriteInside(log: seq<byte>, at: nat, data: seq<byte>, pos: nat, s: seq<byte>)
    requires At(log, pos, s) && pos <= at && at + |data| <= pos + |s|
    ensures At(Overwrite(log, at, data), pos, Overwrite(s, at - pos, data))
  {
    var r, t := Overwrite(log, at, data), Overwrite(s, at - pos, data);
    forall i | 0 <= i < |s| ensures r[pos + i] == t[i] {
      assert log[pos..pos + |s|][i] == log[pos + i];
    }
    assert r[pos..pos + |t|] == t;
  }

  /** Writing page `j` of the last unit changes that page of it and nothing else. */
  lemma OverwritePage(log: seq<byte>, us: Units, m: seq<byte>, j: nat, data: Page)
    requires HoldsBytes(log, us, m) && j < 2
    ensures UNIT * (|us| - 1) + j * PAGE + PAGE <= |log|
    ensures HoldsBytes(Overwrite(log, UNIT * (|us| - 1) + j * PAGE, data), us, Overwrite(m, j * PAGE, data))
  {
    hide UnitBytes, At;
    var base := UNIT * (|us| - 1);
    var at := base + j * PAGE;
    var r := Overwrite(log, at, data);
    forall i | 0 <= i < |us| - 1 ensures At(r, UNIT * i, UnitBytes(us[i])) {
      assert UNIT * i + UNIT <= base;
      AtOverwriteApart(log, at, data, UNIT * i, UnitBytes(us[i]));
    }
    AtOverwriteInside(log, at, data, base, m);
  }

  /** The last unit with its first `j` pages from `u` and the rest as it was. */
  function Mixed(u: seq<Record>, flushed: seq<Record>, j: nat): (m: seq<byte>)
    requires UnitOk(u) && UnitOk(flushed) && j <= 2
    ensures |m| == UNIT
  {
    UnitBytes(u)[..j * PAGE] + UnitBytes(flushed)[j * PAGE..]
  }

  lemma MixedStep(u: seq<Record>, flushed: seq<Record>, j: nat)
    requires UnitOk(u) && UnitOk(flushed) && j < 2
    ensures Overwrite(Mixed(u, flushed, j), j * PAGE, UnitBytes(u)[j * PAGE..(j + 1) * PAGE])
         == Mixed(u, flushed, j + 1)
  {
    hide UnitBytes;
    var a := Overwrite(Mixed(u, flushed, j), j * PAGE, UnitBytes(u)[j * PAGE..(j + 1) * PAGE]);
    var b := Mixed(u, flushed, j + 1);
    forall i | 0 <= i < UNIT ensures a[i] == b[i] {
    }
  }

  /** Units that agree on their first records agree on those bytes. */
  lemma PrefixBytes(u: seq<Record>, p: seq<Record>)
    requires UnitOk(u) && UnitOk(p) && p <= u
    ensures |EncodeAll(p)| <= |EncodeAll(u)|
    ensures UnitBytes(u)[..|EncodeAll(p)|] == UnitBytes(p)[..|EncodeAll(p)|] == EncodeAll(p)
  {
    assert u == p + u[|p|..];
    EncodeAllAppend(p, u[|p|..]);
  }

  /** Once the pages that hold records are written, the whole unit is. */
  lemma MixedComplete(u: seq<Record>, flushed: seq<Record>, j: nat)
    requires UnitOk(u) && UnitOk(flushed) && flushed <= u && j <= 2
    requires |EncodeAll(u)| <= j * PAGE
    ensures Mixed(u, flushed, j) == UnitBytes(u)
  {
    hide EncodeAll;
    PrefixBytes(u, flushed);
    var a, b := Mixed(u, flushed, j), UnitBytes(u);
    forall i | 0 <= i < UNIT ensures a[i] == b[i] {
      if i >= j * PAGE {
        assert UnitBytes(flushed)[i] == 0 && UnitBytes(u)[i] == 0;
      }
    }
  }

  lemma MixedPrefix(u: seq<Record>, flushed: seq<Record>, j: nat)
    requires UnitOk(u) && UnitOk(flushed) && flushed <= u && j <= 2
    ensures Mixed(u, flushed, j)[..|EncodeAll(flushed)|] == EncodeAll(flushed)
  {
    hide EncodeAll, UnitBytes;
    PrefixBytes(u, flushed);
    var n := |EncodeAll(flushed)|;
    var a := Mixed(u, flushed, j)[..n];
    forall i | 0 <= i < n ensures a[i] == EncodeAll(flushed)[i] {
      assert UnitBytes(u)[..n][i] == UnitBytes(u)[i];
      assert UnitBytes(flushed)[..n][i] == UnitBytes(flushed)[i];
    }
  }

  /** A header whose length field can be read, and whose payload lies in the area, is no read error. */
  lemma LengthInArea(log: seq<byte>, pos: nat, len: nat)
    requires pos + LRD_SIZE + len <= |log| && len < TWO16
    requires log[pos + 10..pos + 12] == Le16(len)
    ensures !NextRecord(log, pos).Bad?
  {
    hide ZeroAt, Le16, From16;
    Le16RoundTrip(len);
    var h := ReadPadded(log, pos, LRD_SIZE);
    assert h == log[pos..pos + LRD_SIZE];
    SliceOfSlice(log, pos, pos + LRD_SIZE, 10, 12);
    LengthOf(h);
  }

  lemma LengthOf(h: seq<byte>)
    requires |h| == LRD_SIZE
    ensures ParseLrd(h).length == From16(h[10..12])
  {
  }

  /** Bytes 10 and 11 of a record that starts a list of records announce its payload. */
  lemma LengthField(recs: seq<Record>)
    requires recs != [] && InRange(recs[0].lrd)
    ensures |EncodeAll(recs)| >= LRD_SIZE + |recs[0].data|
    ensures EncodeAll(recs)[10..12] == Le16(recs[0].lrd.length)
  {
    hide LrdBytes, Le16;
    LrdSlices(recs[0].lrd);
    assert EncodeAll(recs)[10..12] == LrdBytes(recs[0].lrd)[10..12];
  }

  /** The first bytes behind the flushed records all lie on one page, old or new. */
  lemma OnePage(u: seq<Record>, flushed: seq<Record>, j: nat)
    requires UnitOk(u) && UnitOk(flushed) && flushed <= u && j <= 2
    ensures var n, m := |EncodeAll(flushed)|, Mixed(u, flushed, j);
            && n + 12 <= UNIT
            && (m[n..n + 4] == Zeros(4)
                || (|flushed| < |u| && m[n + 10..n + 12] == UnitBytes(u)[n + 10..n + 12]))
  {
    hide EncodeAll;
    UnitNeverFull(flushed);
    var n, m := |EncodeAll(flushed)|, Mixed(u, flushed, j);
    if |flushed| == |u| {
      assert u == flushed;
      forall i | n <= i < n + 4 ensures m[i] == 0 {
      }
      assert m[n..n + 4] == Zeros(4);
    } else if n + 12 <= j * PAGE {
      assert m[n + 10..n + 12] == UnitBytes(u)[n + 10..n + 12];
    } else {
      assert j * PAGE <= n;
      forall i | n <= i < n + 4 ensures m[i] == 0 {
        assert m[i] == UnitBytes(flushed)[i];
      }
      assert m[n..n + 4] == Zeros(4);
    }
  }

  /** At every moment of a flush the scan can step over the end of the flushed records. */
  lemma NotBadBehind(log: seq<byte>, us: Units, flushed: seq<Record>, j: nat)
    requires AllOk(us) && UnitOk(flushed) && flushed <= Last(us) && j <= 2
    requires UnitOk(Last(us)) && HoldsBytes(log, us, Mixed(Last(us), flushed, j))
    ensures !NextRecord(log, UNIT * (|us| - 1) + |EncodeAll(flushed)|).Bad?
  {
    hide EncodeAll, UnitBytes, Mixed, NextRecord, ReadPadded;
    var u, base, n := Last(us), UNIT * (|us| - 1), |EncodeAll(flushed)|;
    var m := Mixed(u, flushed, j);
    assert At(log, base, m);
    OnePage(u, flushed, j);
    if m[n..n + 4] == Zeros(4) {
      AtSlice(log, base, m, n, n + 4);
      ZeroEnds(log, base + n);
    } else {
      AtSlice(log, base, m, n + 10, n + 12);
      NextLength(u, flushed);
      LengthInArea(log, base + n, |u[|flushed|].data|);
    }
  }

  lemma AtSlice(log: seq<byte>, base: nat, m: seq<byte>, i: nat, j: nat)
    requires At(log, base, m) && i <= j <= |m|
    ensures log[base + i..base + j] == m[i..j]
  {
    SliceOfSlice(log, base, base + |m|, i, j);
  }

  lemma ZeroEnds(log: seq<byte>, pos: nat)
    requires pos + 4 <= |log| && log[pos..pos + 4] == Zeros(4)
    ensures NextRecord(log, pos) == End
  {
  }

  /** The length field behind the flushed records, in the new buffer. */
  lemma NextLength(u: seq<Record>, flushed: seq<Record>)
    requires UnitOk(u) && UnitOk(flushed) && flushed <= u && |flushed| < |u|
    ensures var n, len := |EncodeAll(flushed)|, |u[|flushed|].data|;
            && len < TWO16
            && n + LRD_SIZE + len <= UNIT
            && UnitBytes(u)[n + 10..n + 12] == Le16(len)
  {
    hide Le16, EncodeAll;
    var rest := u[|flushed|..];
    assert WriterRecord(u[|flushed|]);
    LengthField(rest);
    RestBytes(u, flushed, 10, 12);
  }

  /** The bytes behind the flushed records are those of the remaining records. */
  lemma RestBytes(u: seq<Record>, p: seq<Record>, i: nat, j: nat)
    requires UnitOk(u) && p <= u && i <= j <= |EncodeAll(u[|p|..])|
    ensures |EncodeAll(u)| == |EncodeAll(p)| + |EncodeAll(u[|p|..])|
    ensures UnitBytes(u)[|EncodeAll(p)| + i..|EncodeAll(p)| + j] == EncodeAll(u[|p|..])[i..j]
  {
    hide EncodeAll;
    assert u == p + u[|p|..];
    EncodeAllAppend(p, u[|p|..]);
  }
}

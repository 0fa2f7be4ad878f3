/**
 Inline extended attributes: a list of name-value entries packed into the inode. The codec is inverted
 by the parser exactly on lists whose lengths fit their fields, and the operations refine a finite map.
 */
module Xattr {
  import opened Bytes

  /** Bytes of an inode set aside for attributes, and size of the area they lie in. */
  const IXATTRSIZE := 128
  const AREA := 384
  const MAX_NAME := 255
  const MAX_VALUE := 65535

  datatype Entry = Entry(name: seq<byte>, value: seq<byte>)

  /** Two lengths, the name cut to its limit, and the whole value. */
  function EncodeEntry(e: Entry): seq<byte> {
    Le16(Min(|e.name|, MAX_NAME)) + Le16(Min(|e.value|, MAX_VALUE)) + e.name[..Min(|e.name|, MAX_NAME)] + e.value
  }

  function EncodeList(es: seq<Entry>): seq<byte>
    decreases |es|
  {
    if es == [] then [] else EncodeList(es[..|es| - 1]) + EncodeEntry(es[|es| - 1])
  }

  /** Entries from the front, as long as one fits whole. */
  function ParseList(data: seq<byte>): seq<Entry>
    decreases |data|
  {
    if |data| < 4 then [] else
    var n, v := From16(data[..2]), From16(data[2..4]);
    if 4 + n + v > |data| then []
    else [Entry(data[4..4 + n], data[4 + n..4 + n + v])] + ParseList(data[4 + n + v..])
  }

  predicate Fits(e: Entry) {
    |e.name| <= MAX_NAME && |e.value| <= MAX_VALUE
  }

  predicate AllFit(es: seq<Entry>) {
    forall i :: 0 <= i < |es| ==> Fits(es[i])
  }

  // ---- The codec ----

  lemma {:induction false} EncodeFirst(es: seq<Entry>)
    requires es != []
    ensures EncodeList(es) == EncodeEntry(es[0]) + EncodeList(es[1..])
    decreases |es|
  {
    hide EncodeEntry;
    var n := |es| - 1;
    if n > 0 {
      EncodeFirst(es[..n]);
      assert es[..n][1..] == es[1..][..n - 1];
    }
  }

  lemma ParseParts(l: seq<byte>, m: seq<byte>, name: seq<byte>, value: seq<byte>, rest: seq<byte>)
    requires |l| == |m| == 2 && From16(l) == |name| && From16(m) == |value|
    ensures ParseList(l + m + name + value + rest) == [Entry(name, value)] + ParseList(rest)
  {
    hide From16;
    var data, n, v := l + m + name + value + rest, |name|, |value|;
    assert data[..2] == l;
    assert data[2..4] == m;
    assert data[4..4 + n] == name;
    assert data[4 + n..4 + n + v] == value;
    assert data[4 + n + v..] == rest;
  }

  /** Reading back one entry in front of anything. */
  lemma ParseEntry(e: Entry, rest: seq<byte>)
    ensures var n, v := Min(|e.name|, MAX_NAME), Min(|e.value|, MAX_VALUE);
            ParseList(EncodeEntry(e) + rest) == [Entry(e.name[..n], e.value[..v])] + ParseList(e.value[v..] + rest)
  {
    hide Le16, From16, ParseList;
    var n, v := Min(|e.name|, MAX_NAME), Min(|e.value|, MAX_VALUE);
    Le16RoundTrip(n);
    Le16RoundTrip(v);
    ParseParts(Le16(n), Le16(v), e.name[..n], e.value[..v], e.value[v..] + rest);
    assert EncodeEntry(e) + rest == Le16(n) + Le16(v) + e.name[..n] + e.value[..v] + (e.value[v..] + rest);
  }

  /** Parsing inverts writing exactly for lists whose names and values fit their length fields. */
  lemma {:induction false} CodecRoundTrip(es: seq<Entry>)
    ensures ParseList(EncodeList(es)) == es <==> AllFit(es)
    decreases |es|
  {
    hide EncodeEntry, ParseList;
    if es == [] {
      ParseNothing();
    } else {
      var e, rest := es[0], es[1..];
      CodecRoundTrip(rest);
      EncodeFirst(es);
      ParseEntry(e, EncodeList(rest));
      assert es == [e] + rest;
      var n, v := Min(|e.name|, MAX_NAME), Min(|e.value|, MAX_VALUE);
      if Fits(e) {
        assert e.name[..n] == e.name && e.value[..v] == e.value && e.value[v..] + EncodeList(rest) == EncodeList(rest);
        assert AllFit(es) <==> AllFit(rest);
        if ParseList(EncodeList(es)) == es {
          assert ParseList(EncodeList(es))[1..] == ParseList(EncodeList(rest));
        }
      } else {
        assert ParseList(EncodeList(es))[0] == Entry(e.name[..n], e.value[..v]) != e;
      }
    }
  }

  lemma ParseNothing()
    ensures ParseList([]) == []
  {
  }

  /** The bytes of one entry: both lengths, lowest byte first, then name and value. */
  lemma EntryLayout(e: Entry)
    requires |e.name| <= 255 && |e.value| <= 65535
    ensures var s, n, v := EncodeEntry(e), |e.name|, |e.value|;
            && |s| == 4 + n + v
            && s[0] == n && s[1] == 0 && s[2] == v % 256 && s[3] == v / 256
            && s[4..4 + n] == e.name && s[4 + n..] == e.value
  {
    var n, v := |e.name|, |e.value|;
    assert e.name[..n] == e.name;
    assert EncodeEntry(e) == Le16(n) + Le16(v) + e.name + e.value;
  }

  /** The room a list takes is the sum over its entries. */
  lemma {:induction false} ListSize(es: seq<Entry>, e: Entry)
    requires Fits(e)
    ensures EncodeList([]) == [] && |EncodeList(es + [e])| == |EncodeList(es)| + 4 + |e.name| + |e.value|
  {
    assert (es + [e])[..|es|] == es;
    EntryLayout(e);
  }

  /** A list that takes no more room than there is for it fits its length fields. */
  lemma {:induction false} SmallFits(es: seq<Entry>)
    requires |EncodeList(es)| <= IXATTRSIZE
    ensures AllFit(es)
    decreases |es|
  {
    if es != [] {
      SmallFits(es[..|es| - 1]);
    }
  }

  // ---- Lists as maps ----

  type Attrs = map<seq<byte>, seq<byte>>

  /** The attributes of a list; the first entry of a name counts. */
  function MapOf(es: seq<Entry>): Attrs {
    if es == [] then map[] else MapOf(es[1..])[es[0].name := es[0].value]
  }

  predicate HasName(es: seq<Entry>, name: seq<byte>) {
    exists i :: 0 <= i < |es| && es[i].name == name
  }

  predicate Unique(es: seq<Entry>) {
    forall i, j :: 0 <= i < j < |es| ==> es[i].name != es[j].name
  }

  /** Every entry of the name with the new value. */
  function Replaced(es: seq<Entry>, name: seq<byte>, value: seq<byte>): (r: seq<Entry>)
    ensures |r| == |es|
  {
    seq(|es|, i requires 0 <= i < |es| => if es[i].name == name then Entry(name, value) else es[i])
  }

  function WithAttr(es: seq<Entry>, name: seq<byte>, value: seq<byte>): seq<Entry> {
    if HasName(es, name) then Replaced(es, name, value) else es + [Entry(name, value)]
  }

  function WithoutAttr(es: seq<Entry>, name: seq<byte>): seq<Entry>
    decreases |es|
  {
    if es == [] then []
    else WithoutAttr(es[..|es| - 1], name) + if es[|es| - 1].name == name then [] else [es[|es| - 1]]
  }

  lemma {:induction false} MapOfAppend(a: seq<Entry>, b: seq<Entry>)
    ensures MapOf(a + b) == MapOf(b) + MapOf(a)
  {
    if a == [] {
      assert a + b == b;
      assert MapOf(b) + map[] == MapOf(b);
    } else {
      assert (a + b)[1..] == a[1..] + b;
      MapOfAppend(a[1..], b);
    }
  }

  lemma MapOfOne(e: Entry)
    ensures MapOf([]) == map[] && MapOf([e]) == map[e.name := e.value]
  {
    assert [e][1..] == [];
    assert MapOf([]) == map[];
  }

  lemma {:induction false} MapHasName(es: seq<Entry>, name: seq<byte>)
    ensures name in MapOf(es) <==> HasName(es, name)
  {
    if es != [] {
      MapHasName(es[1..], name);
      if HasName(es[1..], name) {
        var i :| 0 <= i < |es[1..]| && es[1..][i].name == name;
        assert es[i + 1].name == name;
      }
      if HasName(es, name) && es[0].name != name {
        var i :| 0 <= i < |es| && es[i].name == name;
        assert es[1..][i - 1].name == name;
      }
    }
  }

  lemma {:induction false} ReplacedIs(es: seq<Entry>, name: seq<byte>, value: seq<byte>)
    ensures MapOf(Replaced(es, name, value)) == if HasName(es, name) then MapOf(es)[name := value] else MapOf(es)
    decreases |es|
  {
    hide HasName;
    MapHasName(es, name);
    if es != [] {
      var tail := es[1..];
      assert Replaced(es, name, value)[1..] == Replaced(tail, name, value);
      ReplacedIs(tail, name, value);
      MapHasName(tail, name);
    }
  }

  /** Setting an attribute is a map update, and keeps names unique. */
  lemma SetRefines(es: seq<Entry>, name: seq<byte>, value: seq<byte>)
    ensures MapOf(WithAttr(es, name, value)) == MapOf(es)[name := value]
    ensures Unique(es) ==> Unique(WithAttr(es, name, value))
  {
    hide MapOf;
    if HasName(es, name) {
      ReplacedIs(es, name, value);
    } else {
      MapOfAppend(es, [Entry(name, value)]);
      MapOfOne(Entry(name, value));
      MapHasName(es, name);
    }
  }

  lemma {:induction false} WithoutNames(es: seq<Entry>, name: seq<byte>)
    ensures forall i :: 0 <= i < |WithoutAttr(es, name)| ==> WithoutAttr(es, name)[i] in es
    ensures Unique(es) ==> Unique(WithoutAttr(es, name))
    decreases |es|
  {
    if es != [] {
      var n := |es| - 1;
      var init := es[..n];
      WithoutNames(init, name);
      assert forall i :: 0 <= i < n ==> init[i] == es[i];
      if es[n].name != name && Unique(es) {
        UniqueAppend(init, WithoutAttr(init, name), es[n]);
      }
    }
  }

  lemma UniqueAppend(init: seq<Entry>, w: seq<Entry>, e: Entry)
    requires Unique(w) && (forall i :: 0 <= i < |w| ==> w[i] in init)
    requires forall j :: 0 <= j < |init| ==> init[j].name != e.name
    ensures Unique(w + [e])
  {
    forall i | 0 <= i < |w| ensures w[i].name != e.name {
      assert w[i] in init;
    }
  }

  lemma {:induction false} WithoutShorter(es: seq<Entry>, name: seq<byte>)
    ensures |EncodeList(WithoutAttr(es, name))| <= |EncodeList(es)|
    decreases |es|
  {
    hide EncodeEntry;
    if es != [] {
      var n := |es| - 1;
      WithoutShorter(es[..n], name);
      var w := WithoutAttr(es[..n], name);
      if es[n].name == name {
        assert WithoutAttr(es, name) == w;
      } else {
        assert (w + [es[n]])[..|w|] == w;
        assert EncodeList(w + [es[n]]) == EncodeList(w) + EncodeEntry(es[n]);
      }
    }
  }

  /** Removing an attribute is removal from the map, and keeps names unique. */
  lemma {:induction false} RemoveRefines(es: seq<Entry>, name: seq<byte>)
    ensures MapOf(WithoutAttr(es, name)) == MapOf(es) - {name}
    decreases |es|
  {
    hide MapOf;
    MapOfOne(Entry([], []));
    if es != [] {
      var n := |es| - 1;
      var init, e := es[..n], es[n];
      RemoveRefines(init, name);
      assert es == init + [e];
      MapOfAppend(init, [e]);
      MapOfOne(e);
      if e.name != name {
        MapOfAppend(WithoutAttr(init, name), [e]);
      } else {
        assert WithoutAttr(init, name) + [] == WithoutAttr(init, name);
      }
    }
  }

  // ---- The operations ----

  datatype Result<+T> = Ok(value: T) | NameTooLong | ValueTooLarge | AlreadyExists | NotFound | DataTooLarge

  /** The attribute part of an inode. */
  class XattrArea {
    var inline: bool
    var size: nat
    var area: seq<byte>

    /** The bytes in use. */
    function Stored(): seq<byte>
      reads this
    {
      if !inline || size == 0 then [] else area[..Min(size, |area|)]
    }

    /** The stored list has unique names and takes no more room than there is. */
    ghost predicate Valid()
      reads this
    {
      |area| == AREA && |Stored()| <= IXATTRSIZE && Unique(List()) && EncodeList(List()) == Stored()
    }

    ghost function List(): seq<Entry>
      reads this
    {
      ParseList(Stored())
    }

    /** The attributes as a map. */
    ghost function Attributes(): Attrs
      reads this
    {
      MapOf(List())
    }

    constructor ()
      ensures Valid() && Attributes() == map[]
    {
      inline, size, area := false, 0, Zeros(AREA);
    }

    /** Entries of a packed list, one after the other. */
    static method Parse(data: seq<byte>) returns (es: seq<Entry>)
      ensures es == ParseList(data)
    {
      hide From16, ParseList;
      es := [];
      var pos := 0;
      assert data[0..] == data;
      while pos + 4 <= |data|
        invariant 0 <= pos <= |data| && ParseList(data) == es + ParseList(data[pos..])
      {
        ParseAt(data, pos);
        var n, v := From16(data[pos..pos + 2]), From16(data[pos + 2..pos + 4]);
        pos := pos + 4;
        if pos + n + v > |data| {
          return;
        }
        es := es + [Entry(data[pos..pos + n], data[pos + n..pos + n + v])];
        pos := pos + n + v;
      }
      ParseShort(data[pos..]);
    }

    static method WriteEntry(buf: seq<byte>, name: seq<byte>, value: seq<byte>) returns (r: seq<byte>)
      ensures r == buf + EncodeEntry(Entry(name, value))
    {
      var n, v := Min(|name|, MAX_NAME), Min(|value|, MAX_VALUE);
      r := buf + Le16(n) + Le16(v) + name[..n] + value;
    }

    static method Exists(es: seq<Entry>, name: seq<byte>) returns (found: bool)
      ensures found == HasName(es, name) == (name in MapOf(es))
    {
      MapHasName(es, name);
      var i := 0;
      while i < |es|
        invariant 0 <= i <= |es| && forall j :: 0 <= j < i ==> es[j].name != name
      {
        if es[i].name == name {
          return true;
        }
        i := i + 1;
      }
      found := false;
    }

    /** The value of an attribute. */
    method Get(name: seq<byte>) returns (r: Option<seq<byte>>)
      ensures r == if name in Attributes() then Some(Attributes()[name]) else None
    {
      var es := Parse(Stored());
      var i := 0;
      assert es[0..] == es;
      while i < |es|
        invariant 0 <= i <= |es|
        invariant name in MapOf(es) <==> name in MapOf(es[i..])
        invariant name in MapOf(es) ==> MapOf(es)[name] == MapOf(es[i..])[name]
      {
        assert es[i..][1..] == es[i + 1..];
        if es[i].name == name {
          return Some(es[i].value);
        }
        i := i + 1;
      }
      r := None;
    }

    /** Packs a list with one attribute replaced, or added at the end. */
    static method Pack(es: seq<Entry>, name: seq<byte>, value: seq<byte>, present: bool) returns (buf: seq<byte>)
      requires present == HasName(es, name)
      ensures buf == EncodeList(WithAttr(es, name, value))
    {
      hide EncodeEntry, HasName;
      buf := [];
      ghost var all := Replaced(es, name, value);
      var i := 0;
      while i < |es|
        invariant 0 <= i <= |es| && buf == EncodeList(all[..i])
      {
        assert all[..i + 1][..i] == all[..i];
        if es[i].name == name {
          buf := WriteEntry(buf, es[i].name, value);
        } else {
          buf := WriteEntry(buf, es[i].name, es[i].value);
        }
        i := i + 1;
      }
      assert all[..i] == all;
      if !present {
        NotReplaced(es, name, value);
        assert (es + [Entry(name, value)])[..|es|] == es;
        buf := WriteEntry(buf, name, value);
      }
    }

    static method PackWithout(es: seq<Entry>, name: seq<byte>) returns (buf: seq<byte>)
      ensures buf == EncodeList(WithoutAttr(es, name))
    {
      hide EncodeEntry;
      buf := [];
      var i := 0;
      while i < |es|
        invariant 0 <= i <= |es| && buf == EncodeList(WithoutAttr(es[..i], name))
      {
        assert es[..i + 1][..i] == es[..i];
        ghost var w := WithoutAttr(es[..i], name);
        if es[i].name != name {
          assert (w + [es[i]])[..|w|] == w;
          buf := WriteEntry(buf, es[i].name, es[i].value);
        } else {
          assert w + [] == w;
        }
        i := i + 1;
      }
      assert es[..i] == es;
    }

    /** Writes a packed list to the inode. */
    method Store(buf: seq<byte>)
      requires |buf| <= IXATTRSIZE && |area| == AREA
      modifies this
      ensures |area| == AREA && Stored() == buf && area[IXATTRSIZE..] == old(area)[IXATTRSIZE..]
      ensures inline == (|buf| > 0) && size == |buf| && forall i :: |buf| <= i < IXATTRSIZE ==> area[i] == 0
    {
      area := buf + Zeros(IXATTRSIZE - |buf|) + area[IXATTRSIZE..];
      inline, size := |buf| > 0, |buf|;
    }

    /**
     Sets an attribute. It fails, without a change, when a limit is exceeded, when it may only be created
     but exists, or when it may only be replaced but does not.
     */
    method Set(name: seq<byte>, value: seq<byte>, flags: nat) returns (r: Result<()>)
      requires Valid()
      modifies this
      ensures Valid()
      ensures r == if |name| > 255 then NameTooLong
                   else if |value| > 128 then ValueTooLarge
                   else if flags % 2 == 1 && name in old(Attributes()) then AlreadyExists
                   else if flags / 2 % 2 == 1 && name !in old(Attributes()) then NotFound
                   else if |EncodeList(WithAttr(old(List()), name, value))| > 128 then DataTooLarge
                   else Ok(())
      ensures r.Ok? ==> Attributes() == old(Attributes())[name := value] && inline && size == |Stored()|
      ensures area[128..] == old(area)[128..]
      ensures !r.Ok? ==> Attributes() == old(Attributes()) && List() == old(List()) && area == old(area) && inline == old(inline) && size == old(size)
    {
      hide EncodeList, ParseList, MapOf, WithAttr, Unique, HasName;
      if |name| > MAX_NAME {
        return NameTooLong;
      }
      if |value| > IXATTRSIZE {
        return ValueTooLarge;
      }
      var es := Parse(Stored());
      var present := Exists(es, name);
      if flags % 2 == 1 && present {
        return AlreadyExists;
      }
      if flags / 2 % 2 == 1 && !present {
        return NotFound;
      }
      var buf := Pack(es, name, value, present);
      if |buf| > IXATTRSIZE {
        return DataTooLarge;
      }
      SetRefines(es, name, value);
      NotEmpty(es, name, value);
      SmallFits(WithAttr(es, name, value));
      CodecRoundTrip(WithAttr(es, name, value));
      Store(buf);
      r := Ok(());
    }

    /** Removes an attribute and says whether there was one. */
    method Remove(name: seq<byte>) returns (found: bool)
      requires Valid()
      modifies this
      ensures Valid()
      ensures found == (name in old(Attributes()))
      ensures Attributes() == old(Attributes()) - {name} && area[128..] == old(area)[128..]
      ensures found ==> size == |Stored()| && inline == (Stored() != [])
    {
      hide EncodeList, ParseList, MapOf, WithoutAttr, Unique, HasName;
      var es := Parse(Stored());
      found := Exists(es, name);
      RemoveRefines(es, name);
      if !found {
        return;
      }
      var buf := PackWithout(es, name);
      WithoutNames(es, name);
      WithoutShorter(es, name);
      SmallFits(WithoutAttr(es, name));
      CodecRoundTrip(WithoutAttr(es, name));
      Store(buf);
    }
  }

  lemma NotEmpty(es: seq<Entry>, name: seq<byte>, value: seq<byte>)
    ensures |EncodeList(WithAttr(es, name, value))| > 0
  {
    var ws := WithAttr(es, name, value);
    assert ws != [] && EncodeList(ws) == EncodeList(ws[..|ws| - 1]) + EncodeEntry(ws[|ws| - 1]);
  }

  lemma ParseShort(data: seq<byte>)
    requires |data| < 4
    ensures ParseList(data) == []
  {
  }

  /** The parser at a position of the data. */
  lemma ParseAt(data: seq<byte>, pos: nat)
    requires pos + 4 <= |data|
    ensures var n, v := From16(data[pos..pos + 2]), From16(data[pos + 2..pos + 4]);
            ParseList(data[pos..])
            == if pos + 4 + n + v > |data| then []
               else [Entry(data[pos + 4..pos + 4 + n], data[pos + 4 + n..pos + 4 + n + v])] + ParseList(data[pos + 4 + n + v..])
  {
    hide From16, ParseList;
    var rest := data[pos..];
    ParseUnfold(rest);
    assert rest[..2] == data[pos..pos + 2] && rest[2..4] == data[pos + 2..pos + 4];
    var n, v := From16(data[pos..pos + 2]), From16(data[pos + 2..pos + 4]);
    if pos + 4 + n + v <= |data| {
      TailSlices(data, pos, 4 + n, 4 + n + v);
      TailSlices(data, pos, 4, 4 + n);
    }
  }

  lemma TailSlices(data: seq<byte>, pos: nat, i: nat, j: nat)
    requires i <= j && pos + j <= |data|
    ensures data[pos..][i..j] == data[pos + i..pos + j] && data[pos..][j..] == data[pos + j..]
  {
  }

  lemma ParseUnfold(data: seq<byte>)
    requires |data| >= 4
    ensures var n, v := From16(data[..2]), From16(data[2..4]);
            ParseList(data)
            == if 4 + n + v > |data| then []
               else [Entry(data[4..4 + n], data[4 + n..4 + n + v])] + ParseList(data[4 + n + v..])
  {
  }

  lemma NotReplaced(es: seq<Entry>, name: seq<byte>, value: seq<byte>)
    requires !HasName(es, name)
    ensures Replaced(es, name, value) == es
  {
  }
}

/** Directory contents: packed variable-length records (struct kfs_dirent), the
    entry list they denote, and the scan that every directory operation runs. */
module KfsDirent {
  import opened Bits
  import opened KfsFormat

  type Name = seq<U8>

  datatype Entry = Entry(ino: U32, typ: U8, name: Name)

  const Dot: Name := [46]
  const DotDot: Name := [46, 46]

  predicate IsDots(name: Name)
  {
    name == [46] || name == [46, 46]
  }

  /** What fits a record: a nonempty C string of at most 255 bytes. */
  predicate ValidName(name: Name)
  {
    1 <= |name| <= 255 && NoNul(name)
  }

  predicate ValidEntries(es: seq<Entry>)
  {
    forall i :: 0 <= i < |es| ==> ValidName(es[i].name)
  }

  // -------------------------------------------------------------- records

  function LE16(x: U16): (r: seq<U8>)
    ensures |r| == 2
  {
    [x % 256, x / 256]
  }

  function U16At(s: seq<U8>, i: nat): U16
    requires i + 2 <= |s|
  {
    s[i] as int + s[i + 1] as int * 256
  }

  /** The bytes up to the first NUL. */
  function CStr(s: seq<U8>): (r: seq<U8>)
  {
    if s == [] || s[0] == 0 then [] else [s[0]] + CStr(s[1..])
  }

  lemma CStrOf(name: seq<U8>, rest: seq<U8>)
    requires NoNul(name) && rest != [] && rest[0] == 0
    ensures CStr(name + rest) == name
  {
    if name == [] {
      assert name + rest == rest;
    } else {
      assert (name + rest)[1..] == name[1..] + rest;
      CStrOf(name[1..], rest);
    }
  }

  function RecLen(name: Name): (r: nat)
    ensures r % 4 == 0 && 8 + |name| <= r <= 11 + |name|
  {
    (8 + |name| + 3) / 4 * 4
  }

  function Zeros(k: nat): (r: seq<U8>)
    ensures |r| == k && forall i :: 0 <= i < k ==> r[i] == 0
  {
    seq(k, _ => 0)
  }

  function Encode(e: Entry): (r: seq<U8>)
    requires ValidName(e.name)
    ensures |r| == RecLen(e.name) && 8 < |r| <= 264
  {
    LE32(e.ino) + LE16(RecLen(e.name)) + [e.typ] + e.name + Zeros(RecLen(e.name) - 7 - |e.name|)
  }

  /** The record on disk: inode number, record length and type, then the name, padded with
      zeros to the next multiple of four behind at least one. */
  lemma EncodeMeans(e: Entry)
    requires ValidName(e.name)
    ensures var r, n := Encode(e), |e.name|;
            && U32At(r, 0) == e.ino && U16At(r, 4) == |r| && r[6] == e.typ && r[7..7 + n] == e.name
            && |r| % 4 == 0 && n + 8 <= |r| < n + 12 && forall i :: 7 + n <= i < |r| ==> r[i] == 0
  {
    var r := Encode(e);
    U32RoundTrip(e.ino, r, 0);
  }

  /** The fields of the record at `off`, as the kernel reads them. */
  function RecordIno(data: seq<U8>, off: nat): U32
    requires off + 8 <= |data|
  {
    U32At(data, off)
  }

  function RecordLen(data: seq<U8>, off: nat): U16
    requires off + 8 <= |data|
  {
    U16At(data, off + 4)
  }

  function RecordName(data: seq<U8>, off: nat): seq<U8>
    requires off + 8 <= |data|
  {
    CStr(data[off + 7..])
  }

  /** Reading back a record that stands at `off`. */
  lemma RecordRoundTrip(data: seq<U8>, off: nat, e: Entry)
    requires ValidName(e.name) && off + RecLen(e.name) <= |data|
    requires data[off..off + RecLen(e.name)] == Encode(e)
    ensures RecordIno(data, off) == e.ino && RecordLen(data, off) == RecLen(e.name)
    ensures data[off + 6] == e.typ && RecordName(data, off) == e.name
  {
    var r := Encode(e);
    assert forall i :: 0 <= i < |r| ==> data[off + i] == r[i] by {
      forall i | 0 <= i < |r| ensures data[off + i] == r[i] { assert data[off..off + RecLen(e.name)][i] == r[i]; }
    }
    assert r[0] == LE32(e.ino)[0] && r[1] == LE32(e.ino)[1] && r[2] == LE32(e.ino)[2] && r[3] == LE32(e.ino)[3];
    assert data[off + 0] == r[0] && data[off + 1] == r[1] && data[off + 2] == r[2] && data[off + 3] == r[3];
    U32RoundTrip(e.ino, data, off);
    assert data[off + 4] == r[4] && data[off + 5] == r[5] && data[off + 6] == r[6];
    var tail := Zeros(RecLen(e.name) - 7 - |e.name|) + data[off + RecLen(e.name)..];
    assert data[off + 7..] == e.name + tail by {
      assert r[7..] == e.name + Zeros(RecLen(e.name) - 7 - |e.name|);
      assert data[off + 7..off + RecLen(e.name)] == r[7..];
      assert data[off + 7..] == data[off + 7..off + RecLen(e.name)] + data[off + RecLen(e.name)..];
    }
    CStrOf(e.name, tail);
  }

  // ---------------------------------------------------------- directories

  function EncodeAll(es: seq<Entry>): (r: seq<U8>)
    requires ValidEntries(es)
    ensures |r| % 4 == 0
  {
    if es == [] then [] else Encode(es[0]) + EncodeAll(es[1..])
  }

  lemma {:induction false} EncodeAllConcat(a: seq<Entry>, b: seq<Entry>)
    requires ValidEntries(a) && ValidEntries(b)
    ensures ValidEntries(a + b) && EncodeAll(a + b) == EncodeAll(a) + EncodeAll(b)
  {
    hide Encode, RecLen;
    if a == [] {
      assert a + b == b;
    } else {
      assert (a + b)[1..] == a[1..] + b;
      assert (a + b)[0] == a[0];
      EncodeAllConcat(a[1..], b);
    }
  }

  lemma EncodeOne(e: Entry)
    requires ValidName(e.name)
    ensures EncodeAll([e]) == Encode(e)
  {
    assert EncodeAll([e][1..]) == [];
  }

  /** Where record `i` starts. */
  function Offset(es: seq<Entry>, i: nat): (r: nat)
    requires ValidEntries(es) && i <= |es|
  {
    |EncodeAll(es[..i])|
  }

  /** Record `i` stands at `Offset(es, i)`, and the next one right behind it. */
  lemma RecordAt(es: seq<Entry>, i: nat)
    requires ValidEntries(es) && i < |es|
    ensures Offset(es, i + 1) == Offset(es, i) + RecLen(es[i].name) <= |EncodeAll(es)|
    ensures EncodeAll(es)[Offset(es, i)..Offset(es, i + 1)] == Encode(es[i])
    ensures EncodeAll(es)[..Offset(es, i)] == EncodeAll(es[..i])
    ensures EncodeAll(es)[Offset(es, i + 1)..] == EncodeAll(es[i + 1..])
  {
    assert es == es[..i] + [es[i]] + es[i + 1..];
    assert es[..i + 1] == es[..i] + [es[i]];
    EncodeAllConcat(es[..i], [es[i]]);
    EncodeAllConcat(es[..i + 1], es[i + 1..]);
    EncodeOne(es[i]);
  }

  /** The bytes of a directory determine its entries: the list read back by
      following record lengths. */
  function Parse(data: seq<U8>): (r: seq<Entry>)
    decreases |data|
  {
    if |data| < 8 then []
    else
      var len := RecordLen(data, 0);
      if len < 8 || len % 4 != 0 || len > |data| then []
      else [Entry(RecordIno(data, 0), data[6], RecordName(data, 0))] + Parse(data[len..])
  }

  lemma ParseStep(e: Entry, rest: seq<U8>)
    requires ValidName(e.name)
    ensures Parse(Encode(e) + rest) == [e] + Parse(rest)
  {
    hide Encode, RecLen;
    var data := Encode(e) + rest;
    var len := RecLen(e.name);
    assert data[0..len] == Encode(e);
    assert data[len..] == rest;
    RecordRoundTrip(data, 0, e);
    hide RecordLen, RecordIno, RecordName;
  }

  lemma {:induction false} ParseConcat(es: seq<Entry>, tail: seq<U8>)
    requires ValidEntries(es)
    ensures Parse(EncodeAll(es) + tail) == es + Parse(tail)
  {
    hide Encode, RecLen, Parse;
    if es == [] {
      assert EncodeAll(es) + tail == tail;
    } else {
      var rest := EncodeAll(es[1..]) + tail;
      assert EncodeAll(es) + tail == Encode(es[0]) + rest;
      ParseStep(es[0], rest);
      ParseConcat(es[1..], tail);
    }
  }

  lemma ParseEncodeAll(es: seq<Entry>)
    requires ValidEntries(es)
    ensures Parse(EncodeAll(es)) == es
  {
    ParseConcat(es, []);
    assert EncodeAll(es) + [] == EncodeAll(es);
  }

  /** `data` is a well-formed directory. */
  predicate WellFormed(data: seq<U8>)
  {
    ValidEntries(Parse(data)) && EncodeAll(Parse(data)) == data
  }

  // ------------------------------------------------------------- the scan

  /** The first entry with the given name, or `|es|`. */
  function IndexOf(es: seq<Entry>, name: Name): (i: nat)
    ensures i <= |es|
    ensures i < |es| ==> es[i].name == name
    ensures forall j :: 0 <= j < i ==> es[j].name != name
  {
    if es == [] then 0 else if es[0].name == name then 0
    else
      var i := IndexOf(es[1..], name);
      assert forall j :: 1 <= j < i + 1 ==> es[j].name != name by {
        forall j | 1 <= j < i + 1 ensures es[j].name != name { assert es[j] == es[1..][j - 1]; }
      }
      i + 1
  }

  /** The scan of lookup, unlink and rmdir: follow the record lengths until the
      name matches. On a well-formed directory it finds the first entry of that
      name, and where its record starts. */
  method FindEntry(data: seq<U8>, name: Name) returns (found: bool, off: nat)
    requires WellFormed(data)
    ensures found <==> IndexOf(Parse(data), name) < |Parse(data)|
    ensures found ==> off == Offset(Parse(data), IndexOf(Parse(data), name))
  {
    hide Encode, EncodeAll, Parse, IndexOf, RecLen, CStr;
    ghost var es := Parse(data);
    ghost var i: nat := 0;
    off := 0;
    FirstOffset(es);
    while off < |data|
      invariant i <= |es| && off == Offset(es, i) <= |data|
      invariant forall j :: 0 <= j < i ==> es[j].name != name
    {
      assert i < |es| by { if i == |es| { LastOffset(es); } }
      RecordAt(es, i);
      RecordRoundTrip(data, off, es[i]);
      var len := RecordLen(data, off);
      if len == 0 || len % 4 != 0 { return false, off; }
      if RecordName(data, off) == name {
        return true, off;
      }
      off := off + len;
      i := i + 1;
    }
    if i < |es| { RecordAt(es, i); }
    return false, off;
  }

  lemma FirstOffset(es: seq<Entry>)
    requires ValidEntries(es)
    ensures Offset(es, 0) == 0
  {
  }

  lemma LastOffset(es: seq<Entry>)
    requires ValidEntries(es)
    ensures Offset(es, |es|) == |EncodeAll(es)|
  {
    assert es[..|es|] == es;
  }

  /** rmdir's emptiness test: only `.` and `..` are left. */
  predicate OnlyDots(es: seq<Entry>)
  {
    forall i :: 0 <= i < |es| ==> IsDots(es[i].name)
  }

  method IsEmptyDir(data: seq<U8>) returns (empty: bool)
    requires WellFormed(data)
    ensures empty <==> OnlyDots(Parse(data))
  {
    hide Encode, EncodeAll, Parse, RecLen, CStr;
    ghost var es := Parse(data);
    ghost var i: nat := 0;
    var off: nat := 0;
    FirstOffset(es);
    while off < |data|
      invariant i <= |es| && off == Offset(es, i) <= |data|
      invariant forall j :: 0 <= j < i ==> IsDots(es[j].name)
    {
      assert i < |es| by { if i == |es| { LastOffset(es); } }
      RecordAt(es, i);
      RecordRoundTrip(data, off, es[i]);
      var len := RecordLen(data, off);
      if len == 0 || len % 4 != 0 { break; }
      var name := RecordName(data, off);
      if name != [46] && name != [46, 46] {
        return false;
      }
      off := off + len;
      i := i + 1;
    }
    if i < |es| { RecordAt(es, i); }
    return true;
  }

  // ---------------------------------------- appending and removing records

  /** Appending a record appends the entry. */
  lemma AppendRecord(data: seq<U8>, e: Entry)
    requires WellFormed(data) && ValidName(e.name)
    ensures WellFormed(data + Encode(e)) && Parse(data + Encode(e)) == Parse(data) + [e]
  {
    hide Encode, EncodeAll, Parse, RecLen;
    var es := Parse(data);
    EncodeAllConcat(es, [e]);
    EncodeOne(e);
    ParseEncodeAll(es + [e]);
  }

  /** Cutting a record out and closing the gap removes that entry. */
  lemma CutRecord(data: seq<U8>, i: nat)
    requires WellFormed(data) && i < |Parse(data)|
    ensures var es := Parse(data);
            var off := Offset(es, i);
            var len := RecLen(es[i].name);
            && off + len <= |data|
            && WellFormed(data[..off] + data[off + len..])
            && Parse(data[..off] + data[off + len..]) == es[..i] + es[i + 1..]
  {
    hide Encode, EncodeAll, Parse, RecLen, ValidName;
    var es := Parse(data);
    RecordAt(es, i);
    CutEntries(es, i);
  }

  lemma CutEntries(es: seq<Entry>, i: nat)
    requires ValidEntries(es) && i < |es|
    ensures ValidEntries(es[..i]) && ValidEntries(es[i + 1..]) && ValidEntries(es[..i] + es[i + 1..])
    ensures EncodeAll(es[..i] + es[i + 1..]) == EncodeAll(es[..i]) + EncodeAll(es[i + 1..])
    ensures Parse(EncodeAll(es[..i]) + EncodeAll(es[i + 1..])) == es[..i] + es[i + 1..]
  {
    hide Encode, EncodeAll, Parse, RecLen, ValidName;
    EncodeAllConcat(es[..i], es[i + 1..]);
    ParseEncodeAll(es[..i] + es[i + 1..]);
  }

  /** A record that is cut short leaves a directory that is not well formed. */
  lemma ShortRecord(data: seq<U8>, e: Entry, w: nat)
    requires WellFormed(data) && ValidName(e.name) && 0 < w < |Encode(e)|
    ensures !WellFormed(data + Encode(e)[..w])
  {
    var tail := Encode(e)[..w];
    ParseConcat(Parse(data), tail);
    NoRecord(e, w);
    hide Encode, EncodeAll, Parse, RecLen;
    assert Parse(data) + [] == Parse(data);
  }

  lemma NoRecord(e: Entry, w: nat)
    requires ValidName(e.name) && w < |Encode(e)|
    ensures Parse(Encode(e)[..w]) == []
  {
    if w >= 8 {
      var r := Encode(e);
      assert r[0..RecLen(e.name)] == r;
      RecordRoundTrip(r, 0, e);
      assert RecordLen(r[..w], 0) == RecordLen(r, 0);
    }
  }
}

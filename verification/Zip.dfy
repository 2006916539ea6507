/**
 The store-only archive writer of docs/src/components/zip.ts, and a reader that follows the
 archive's own directory (PKWARE APPNOTE, sections 4.3.16, 4.3.12 and 4.3.7).
 */
module Zip {
  import opened Prelude
  import opened Crc32

  /** A file to store: its path as UTF-8 bytes, and its content. */
  datatype Entry = Entry(name: seq<byte>, data: seq<byte>)

  /** The time and date fields, as the caller's clock gives them. */
  datatype Stamp = Stamp(time: nat, date: nat)

  // ----- Little-endian fields -----

  /** Byte `k` of a field; writing a field drops what does not fit in it. */
  function FieldByte(v: nat, k: nat): byte {
    if k == 0 then (v % 256) as byte
    else if k == 1 then (v / 256 % 256) as byte
    else if k == 2 then (v / 65536 % 256) as byte
    else (v / 16777216 % 256) as byte
  }

  function Read16(a: seq<byte>, at: nat): (v: nat)
    requires at + 2 <= |a|
    ensures v < 65536
  {
    a[at] as nat + 256 * (a[at + 1] as nat)
  }

  function Read32(a: seq<byte>, at: nat): nat
    requires at + 4 <= |a|
  {
    a[at] as nat + 256 * (a[at + 1] as nat) + 65536 * (a[at + 2] as nat) + 16777216 * (a[at + 3] as nat)
  }

  lemma Field16(v: nat)
    requires v < 65536
    ensures FieldByte(v, 0) as nat + 256 * (FieldByte(v, 1) as nat) == v
  {
  }

  lemma Field32(v: nat)
    requires v < 0x1_0000_0000
    ensures FieldByte(v, 0) as nat + 256 * (FieldByte(v, 1) as nat) + 65536 * (FieldByte(v, 2) as nat)
            + 16777216 * (FieldByte(v, 3) as nat) == v
  {
    assert v / 256 / 256 == v / 65536 && v / 65536 / 256 == v / 16777216;
  }

  /** A field as the writer places it: where it starts, how wide it is, what it holds. */
  datatype Field = Field(at: nat, width: nat, value: nat)

  /** The bytes of a header: every field in its place, zero everywhere else. */
  function HeaderByte(fields: seq<Field>, i: nat): byte {
    if fields == [] then 0
    else
      var f := fields[|fields| - 1];
      if f.at <= i < f.at + f.width then FieldByte(f.value, i - f.at)
      else HeaderByte(fields[..|fields| - 1], i)
  }

  function Header(size: nat, fields: seq<Field>): (h: seq<byte>)
    ensures |h| == size
  {
    seq(size, i requires 0 <= i => HeaderByte(fields, i))
  }

  /** The fields do not overlap and lie inside the header. */
  ghost predicate Laid(size: nat, fields: seq<Field>) {
    && (forall i :: 0 <= i < |fields| ==> fields[i].at + fields[i].width <= size)
    && (forall i, j :: 0 <= i < j < |fields| ==> fields[i].at + fields[i].width <= fields[j].at)
  }

  lemma {:induction false} HeaderHolds(fields: seq<Field>, size: nat, i: nat, k: nat)
    requires Laid(size, fields) && i < |fields| && k < fields[i].width
    ensures HeaderByte(fields, fields[i].at + k) == FieldByte(fields[i].value, k)
    decreases |fields|
  {
    if i < |fields| - 1 {
      HeaderHolds(fields[..|fields| - 1], size, i, k);
    }
  }

  lemma Reads16(fields: seq<Field>, size: nat, i: nat)
    requires Laid(size, fields) && i < |fields| && fields[i].width == 2 && fields[i].value < 65536
    ensures Read16(Header(size, fields), fields[i].at) == fields[i].value
  {
    HeaderHolds(fields, size, i, 0);
    HeaderHolds(fields, size, i, 1);
    Field16(fields[i].value);
  }

  lemma Reads32(fields: seq<Field>, size: nat, i: nat)
    requires Laid(size, fields) && i < |fields| && fields[i].width == 4 && fields[i].value < 0x1_0000_0000
    ensures Read32(Header(size, fields), fields[i].at) == fields[i].value
  {
    HeaderHolds(fields, size, i, 0);
    HeaderHolds(fields, size, i, 1);
    HeaderHolds(fields, size, i, 2);
    HeaderHolds(fields, size, i, 3);
    Field32(fields[i].value);
  }

  // ----- The three records -----

  function CrcField(data: seq<byte>): (v: nat)
    ensures v < 0x1_0000_0000
  {
    BitwiseCrc(data).bits as nat
  }

  /** Section 4.3.7: the local file header. */
  function LocalFields(e: Entry, s: Stamp): seq<Field> {
    [ Field(0, 4, 0x0403_4b50), Field(4, 2, 20), Field(6, 2, 0x0800), Field(8, 2, 0), Field(10, 2, s.time),
      Field(12, 2, s.date), Field(14, 4, CrcField(e.data)), Field(18, 4, |e.data|), Field(22, 4, |e.data|),
      Field(26, 2, |e.name|), Field(28, 2, 0) ]
  }

  /** Section 4.3.12: the central directory header. */
  function CentralFields(e: Entry, s: Stamp, offset: nat): seq<Field> {
    [ Field(0, 4, 0x0201_4b50), Field(4, 2, 20), Field(6, 2, 20), Field(8, 2, 0x0800), Field(10, 2, 0),
      Field(12, 2, s.time), Field(14, 2, s.date), Field(16, 4, CrcField(e.data)), Field(20, 4, |e.data|),
      Field(24, 4, |e.data|), Field(28, 2, |e.name|), Field(42, 4, offset) ]
  }

  /** Section 4.3.16: the end of central directory record. */
  function EndFields(count: nat, size: nat, offset: nat): seq<Field> {
    [ Field(0, 4, 0x0605_4b50), Field(8, 2, count), Field(10, 2, count), Field(12, 4, size), Field(16, 4, offset) ]
  }

  function Local(e: Entry, s: Stamp): seq<byte> {
    Header(30, LocalFields(e, s)) + e.name + e.data
  }

  function Central(e: Entry, s: Stamp, offset: nat): seq<byte> {
    Header(46, CentralFields(e, s, offset)) + e.name
  }

  // ----- Parts laid end to end -----

  function Concat(parts: seq<seq<byte>>): seq<byte> {
    if parts == [] then [] else Concat(parts[..|parts| - 1]) + parts[|parts| - 1]
  }

  function LocalParts(entries: seq<Entry>, s: Stamp): (parts: seq<seq<byte>>)
    ensures |parts| == |entries|
  {
    seq(|entries|, i requires 0 <= i < |entries| => Local(entries[i], s))
  }

  /** Where the local header of an entry starts. */
  function Offset(entries: seq<Entry>, s: Stamp, i: nat): nat
    requires i <= |entries|
  {
    |Concat(LocalParts(entries, s)[..i])|
  }

  function CentralParts(entries: seq<Entry>, s: Stamp): (parts: seq<seq<byte>>)
    ensures |parts| == |entries|
  {
    seq(|entries|, i requires 0 <= i < |entries| => Central(entries[i], s, Offset(entries, s, i)))
  }

  function EndPart(entries: seq<Entry>, s: Stamp): seq<byte> {
    Header(22, EndFields(|entries|, |Concat(CentralParts(entries, s))|, Offset(entries, s, |entries|)))
  }

  function Archive(entries: seq<Entry>, s: Stamp): seq<byte> {
    Concat(LocalParts(entries, s) + CentralParts(entries, s) + [EndPart(entries, s)])
  }

  lemma {:induction false} ConcatOfSum(a: seq<seq<byte>>, b: seq<seq<byte>>)
    ensures Concat(a + b) == Concat(a) + Concat(b)
    decreases |b|
  {
    if b == [] {
      assert a + b == a && Concat(a) + [] == Concat(a);
    } else {
      var front := b[..|b| - 1];
      assert (a + b)[..|a + b| - 1] == a + front;
      ConcatOfSum(a, front);
    }
  }

  /** Part `i` lies in the whole where the parts before it end. */
  lemma ConcatHolds(parts: seq<seq<byte>>, i: nat)
    requires i < |parts|
    ensures var at := |Concat(parts[..i])|;
      at + |parts[i]| <= |Concat(parts)| && Concat(parts)[at..at + |parts[i]|] == parts[i]
      && |Concat(parts[..i + 1])| == at + |parts[i]|
  {
    var before, after := parts[..i], parts[i + 1..];
    assert parts[..i + 1][..i] == before;
    assert parts == parts[..i + 1] + after;
    ConcatOfSum(parts[..i + 1], after);
    assert Concat(parts[..i + 1]) == Concat(before) + parts[i];
  }

  // ----- The reader -----

  /** The run of fields that the local and the central header of a file both hold. */
  datatype Shared = Shared(version: nat, flags: nat, storage: nat, time: nat, date: nat, crc: nat, packed: nat,
                           size: nat, name: nat)

  function ReadShared(a: seq<byte>, at: nat): Shared
    requires at + 24 <= |a|
  {
    Shared(Read16(a, at), Read16(a, at + 2), Read16(a, at + 4), Read16(a, at + 6), Read16(a, at + 8),
           Read32(a, at + 10), Read32(a, at + 14), Read32(a, at + 18), Read16(a, at + 22))
  }

  const UTF8_FLAG := 0x0800
  const VERSION := 20

  /**
   A file an unpacker of version 2.0 may take as it stands: stored, so that both sizes are one; neither
   encrypted nor followed by a descriptor, and named in UTF-8; and dated as the archive is.
   */
  predicate Stored(h: Shared, s: Stamp) {
    h.version == VERSION && h.flags == UTF8_FLAG && h.storage == 0 && h.packed == h.size
    && h.time == s.time && h.date == s.date
  }

  /** Reads the entry whose central header starts at `at`, and says where the next one starts. */
  function ReadEntry(a: seq<byte>, at: nat, s: Stamp): Option<(Entry, nat)> {
    if at + 46 > |a| || Read32(a, at) != 0x0201_4b50 || Read16(a, at + 4) != VERSION then None
    else
      var h := ReadShared(a, at + 6);
      var nameEnd := at + 46 + h.name;
      if !Stored(h, s) || Read16(a, at + 34) != 0 || nameEnd > |a| then None
      else
        match ReadLocal(a, Read32(a, at + 42), h)
        case None => None
        case Some(e) =>
          if e.name != a[at + 46..nameEnd] then None
          else Some((e, nameEnd + Read16(a, at + 30) + Read16(a, at + 32)))
  }

  /** Reads the stored file whose local header starts at `at`, if it says what the directory does. */
  function ReadLocal(a: seq<byte>, at: nat, h: Shared): Option<Entry> {
    if at + 30 > |a| || Read32(a, at) != 0x0403_4b50 || ReadShared(a, at + 4) != h then None
    else
      var nameEnd := at + 30 + h.name;
      var dataAt := nameEnd + Read16(a, at + 28);
      if dataAt + h.size > |a| || CrcField(a[dataAt..dataAt + h.size]) != h.crc then None
      else Some(Entry(a[at + 30..nameEnd], a[dataAt..dataAt + h.size]))
  }

  /** Reads `count` entries, which have to fill the directory up to `end`. */
  function ReadEntries(a: seq<byte>, at: nat, count: nat, end: nat, s: Stamp): Option<seq<Entry>>
    decreases count
  {
    if count == 0 then if at == end then Some([]) else None
    else
      match ReadEntry(a, at, s)
      case None => None
      case Some((e, next)) =>
        match ReadEntries(a, next, count - 1, end, s)
        case None => None
        case Some(rest) => Some([e] + rest)
  }

  /** One disk, no comment, one count of entries, and a directory that lies right before the record. */
  predicate EndAgrees(a: seq<byte>, end: nat)
    requires end + 22 <= |a|
  {
    && Read32(a, end) == 0x0605_4b50 && Read16(a, end + 4) == 0 && Read16(a, end + 6) == 0
    && Read16(a, end + 8) == Read16(a, end + 10) && Read16(a, end + 20) == 0
    && Read32(a, end + 16) + Read32(a, end + 12) == end
  }

  /** Follows the end record to the central directory, and that to the local headers. */
  function ReadArchive(a: seq<byte>, s: Stamp): Option<seq<Entry>> {
    if |a| < 22 || !EndAgrees(a, |a| - 22) then None
    else ReadEntries(a, Read32(a, |a| - 22 + 16), Read16(a, |a| - 22 + 10), |a| - 22, s)
  }

  // ----- What was written is what is read -----

  /** Every number the archive has to hold fits its 16- or 32-bit field. */
  ghost predicate Fits(entries: seq<Entry>, s: Stamp) {
    && |entries| < 65536
    && (forall i :: 0 <= i < |entries| ==> |entries[i].name| < 65536 && |entries[i].data| < 0x1_0000_0000)
    && Offset(entries, s, |entries|) < 0x1_0000_0000
    && |Concat(CentralParts(entries, s))| < 0x1_0000_0000
    && s.time < 65536 && s.date < 65536
  }

  /** What both headers of an entry have to say. */
  function SharedOf(e: Entry, s: Stamp): Shared {
    Shared(VERSION, UTF8_FLAG, 0, s.time, s.date, CrcField(e.data), |e.data|, |e.data|, |e.name|)
  }

  ghost predicate FitsOne(e: Entry, s: Stamp) {
    |e.name| < 65536 && |e.data| < 0x1_0000_0000 && s.time < 65536 && s.date < 65536
  }

  lemma {:induction false} HeaderZero(fields: seq<Field>, i: nat)
    requires forall k :: 0 <= k < |fields| ==> !(fields[k].at <= i < fields[k].at + fields[k].width)
    ensures HeaderByte(fields, i) == 0
    decreases |fields|
  {
    if fields != [] {
      HeaderZero(fields[..|fields| - 1], i);
    }
  }

  /** A header that lays the shared run of fields from field `i` on, at `at`. */
  ghost predicate SharedFrom(fields: seq<Field>, i: nat, at: nat, h: Shared) {
    && i + 9 <= |fields|
    && fields[i] == Field(at, 2, h.version) && fields[i + 1] == Field(at + 2, 2, h.flags)
    && fields[i + 2] == Field(at + 4, 2, h.storage) && fields[i + 3] == Field(at + 6, 2, h.time)
    && fields[i + 4] == Field(at + 8, 2, h.date) && fields[i + 5] == Field(at + 10, 4, h.crc)
    && fields[i + 6] == Field(at + 14, 4, h.packed) && fields[i + 7] == Field(at + 18, 4, h.size)
    && fields[i + 8] == Field(at + 22, 2, h.name)
    && h.version < 65536 && h.flags < 65536 && h.storage < 65536 && h.time < 65536 && h.date < 65536
    && h.crc < 0x1_0000_0000 && h.packed < 0x1_0000_0000 && h.size < 0x1_0000_0000 && h.name < 65536
  }

  lemma SharedReads(fields: seq<Field>, size: nat, i: nat, at: nat, h: Shared)
    requires Laid(size, fields) && SharedFrom(fields, i, at, h) && at + 24 <= size
    ensures ReadShared(Header(size, fields), at) == h
  {
    hide HeaderByte, Header, Read16, Read32, Laid;
    Reads16(fields, size, i);
    Reads16(fields, size, i + 1);
    Reads16(fields, size, i + 2);
    Reads16(fields, size, i + 3);
    Reads16(fields, size, i + 4);
    Reads32(fields, size, i + 5);
    Reads32(fields, size, i + 6);
    Reads32(fields, size, i + 7);
    Reads16(fields, size, i + 8);
  }

  lemma LocalReads(e: Entry, s: Stamp)
    requires FitsOne(e, s)
    ensures var h := Header(30, LocalFields(e, s));
      Read32(h, 0) == 0x0403_4b50 && ReadShared(h, 4) == SharedOf(e, s) && Read16(h, 28) == 0
  {
    hide HeaderByte, Header, Read16, Read32, ReadShared, CrcField;
    var fields := LocalFields(e, s);
    assert Laid(30, fields);
    SharedReads(fields, 30, 1, 4, SharedOf(e, s));
    Reads32(fields, 30, 0);
    Reads16(fields, 30, 10);
  }

  lemma CentralGap(e: Entry, s: Stamp, offset: nat, i: nat)
    requires 30 <= i < 42
    ensures HeaderByte(CentralFields(e, s, offset), i) == 0
  {
    hide HeaderByte, CrcField;
    HeaderZero(CentralFields(e, s, offset), i);
  }

  lemma CentralGaps(e: Entry, s: Stamp, offset: nat)
    ensures var h := Header(46, CentralFields(e, s, offset));
      Read16(h, 30) == 0 && Read16(h, 32) == 0 && Read16(h, 34) == 0
  {
    hide HeaderByte, CentralFields;
    CentralGap(e, s, offset, 30);
    CentralGap(e, s, offset, 31);
    CentralGap(e, s, offset, 32);
    CentralGap(e, s, offset, 33);
    CentralGap(e, s, offset, 34);
    CentralGap(e, s, offset, 35);
  }

  lemma CentralReads(e: Entry, s: Stamp, offset: nat)
    requires FitsOne(e, s) && offset < 0x1_0000_0000
    ensures var h := Header(46, CentralFields(e, s, offset));
      && Read32(h, 0) == 0x0201_4b50 && Read16(h, 4) == VERSION && ReadShared(h, 6) == SharedOf(e, s)
      && Read32(h, 42) == offset && Read16(h, 30) == 0 && Read16(h, 32) == 0 && Read16(h, 34) == 0
  {
    hide HeaderByte, Header, Read16, Read32, ReadShared, CrcField;
    CentralGaps(e, s, offset);
    var fields := CentralFields(e, s, offset);
    assert Laid(46, fields);
    SharedReads(fields, 46, 2, 6, SharedOf(e, s));
    Reads32(fields, 46, 0);
    Reads16(fields, 46, 1);
    Reads32(fields, 46, 11);
  }

  lemma EndGap(count: nat, size: nat, offset: nat, i: nat)
    requires 4 <= i < 8 || 20 <= i < 22
    ensures HeaderByte(EndFields(count, size, offset), i) == 0
  {
    hide HeaderByte;
    HeaderZero(EndFields(count, size, offset), i);
  }

  lemma EndGaps(count: nat, size: nat, offset: nat)
    ensures var h := Header(22, EndFields(count, size, offset));
      Read16(h, 4) == 0 && Read16(h, 6) == 0 && Read16(h, 20) == 0
  {
    hide HeaderByte, EndFields;
    EndGap(count, size, offset, 4);
    EndGap(count, size, offset, 5);
    EndGap(count, size, offset, 6);
    EndGap(count, size, offset, 7);
    EndGap(count, size, offset, 20);
    EndGap(count, size, offset, 21);
  }

  lemma EndReads(count: nat, size: nat, offset: nat)
    requires count < 65536 && size < 0x1_0000_0000 && offset < 0x1_0000_0000
    ensures var h := Header(22, EndFields(count, size, offset));
      && Read32(h, 0) == 0x0605_4b50 && Read16(h, 8) == count && Read16(h, 10) == count
      && Read32(h, 12) == size && Read32(h, 16) == offset
  {
    hide HeaderByte, Header, Read16, Read32;
    var fields := EndFields(count, size, offset);
    assert Laid(22, fields);
    Reads32(fields, 22, 0);
    Reads16(fields, 22, 1);
    Reads16(fields, 22, 2);
    Reads32(fields, 22, 3);
    Reads32(fields, 22, 4);
  }

  /** `part` lies in `a` at `at`. */
  ghost predicate LiesAt(a: seq<byte>, at: nat, part: seq<byte>) {
    at + |part| <= |a| && a[at..at + |part|] == part
  }

  lemma Sliced(a: seq<byte>, at: nat, part: seq<byte>)
    requires LiesAt(a, at, part)
    ensures at + |part| <= |a| && a[at..at + |part|] == part
  {
  }

  lemma SameFields(a: seq<byte>, at: nat, part: seq<byte>, k: nat)
    requires LiesAt(a, at, part)
    ensures at + |part| <= |a|
    ensures k + 2 <= |part| ==> Read16(a, at + k) == Read16(part, k)
    ensures k + 4 <= |part| ==> Read32(a, at + k) == Read32(part, k)
  {
    assert forall j :: 0 <= j < |part| ==> part[j] == a[at..at + |part|][j] == a[at + j];
  }

  lemma SameShared(a: seq<byte>, at: nat, part: seq<byte>, k: nat)
    requires LiesAt(a, at, part) && k + 24 <= |part|
    ensures at + |part| <= |a| && ReadShared(a, at + k) == ReadShared(part, k)
  {
    hide LiesAt, Read16, Read32;
    SameFields(a, at, part, k);
    SameFields(a, at, part, k + 2);
    SameFields(a, at, part, k + 4);
    SameFields(a, at, part, k + 6);
    SameFields(a, at, part, k + 8);
    SameFields(a, at, part, k + 10);
    SameFields(a, at, part, k + 14);
    SameFields(a, at, part, k + 18);
    SameFields(a, at, part, k + 22);
  }

  lemma LiesWithin(a: seq<byte>, at: nat, part: seq<byte>, k: nat, piece: seq<byte>)
    requires LiesAt(a, at, part) && LiesAt(part, k, piece)
    ensures LiesAt(a, at + k, piece)
  {
    forall j | 0 <= j < |piece| ensures a[at + k + j] == piece[j] {
      assert piece[j] == part[k..k + |piece|][j] == part[k + j];
      assert part[k + j] == a[at..at + |part|][k + j];
    }
  }

  lemma LocalPieces(e: Entry, s: Stamp)
    ensures |Local(e, s)| == 30 + |e.name| + |e.data|
    ensures LiesAt(Local(e, s), 0, Header(30, LocalFields(e, s)))
    ensures LiesAt(Local(e, s), 30, e.name)
    ensures LiesAt(Local(e, s), 30 + |e.name|, e.data)
  {
    hide Header, LocalFields;
  }

  lemma ReadsLocal(a: seq<byte>, at: nat, e: Entry, s: Stamp)
    requires LiesAt(a, at, Local(e, s)) && FitsOne(e, s)
    ensures ReadLocal(a, at, SharedOf(e, s)) == Some(e)
  {
    hide Header, LocalFields, Read16, Read32, ReadShared, Local, LiesAt, CrcField;
    var header := Header(30, LocalFields(e, s));
    LocalReads(e, s);
    LocalPieces(e, s);
    LiesWithin(a, at, Local(e, s), 0, header);
    LiesWithin(a, at, Local(e, s), 30, e.name);
    LiesWithin(a, at, Local(e, s), 30 + |e.name|, e.data);
    Sliced(a, at + 30, e.name);
    Sliced(a, at + 30 + |e.name|, e.data);
    SameFields(a, at, header, 0);
    SameShared(a, at, header, 4);
    SameFields(a, at, header, 28);
  }

  lemma CentralPieces(e: Entry, s: Stamp, offset: nat)
    ensures |Central(e, s, offset)| == 46 + |e.name|
    ensures LiesAt(Central(e, s, offset), 0, Header(46, CentralFields(e, s, offset)))
    ensures LiesAt(Central(e, s, offset), 46, e.name)
  {
    hide Header, CentralFields;
  }

  lemma ReadsEntry(a: seq<byte>, at: nat, e: Entry, s: Stamp, offset: nat)
    requires LiesAt(a, at, Central(e, s, offset)) && LiesAt(a, offset, Local(e, s))
    requires FitsOne(e, s) && offset < 0x1_0000_0000
    ensures ReadEntry(a, at, s) == Some((e, at + |Central(e, s, offset)|))
  {
    hide Header, CentralFields, Read16, Read32, ReadShared, ReadLocal, CrcField, Central, Local, LiesAt;
    var header, part := Header(46, CentralFields(e, s, offset)), Central(e, s, offset);
    CentralReads(e, s, offset);
    CentralPieces(e, s, offset);
    ReadsLocal(a, offset, e, s);
    LiesWithin(a, at, part, 0, header);
    LiesWithin(a, at, part, 46, e.name);
    Sliced(a, at, header);
    Sliced(a, at + 46, e.name);
    SameFields(a, at, header, 0);
    SameFields(a, at, header, 4);
    SameShared(a, at, header, 6);
    SameFields(a, at, header, 30);
    SameFields(a, at, header, 32);
    SameFields(a, at, header, 34);
    SameFields(a, at, header, 42);
  }

  lemma LiesInSum(a: seq<byte>, b: seq<byte>, c: seq<byte>)
    ensures LiesAt(a + b + c, 0, a) && LiesAt(a + b + c, |a|, b) && LiesAt(a + b + c, |a| + |b|, c)
  {
  }

  lemma ConcatLies(parts: seq<seq<byte>>, i: nat)
    requires i < |parts|
    ensures LiesAt(Concat(parts), |Concat(parts[..i])|, parts[i])
    ensures |Concat(parts[..i + 1])| == |Concat(parts[..i])| + |parts[i]|
  {
    ConcatHolds(parts, i);
  }

  lemma WholeOffset(entries: seq<Entry>, s: Stamp)
    ensures Offset(entries, s, |entries|) == |Concat(LocalParts(entries, s))|
  {
    assert LocalParts(entries, s)[..|entries|] == LocalParts(entries, s);
  }

  /** The parts of the whole archive lie where the directory says. */
  lemma ArchiveHolds(entries: seq<Entry>, s: Stamp, i: nat)
    requires i < |entries|
    ensures var a, base := Archive(entries, s), Offset(entries, s, |entries|);
      && LiesAt(a, Offset(entries, s, i), LocalParts(entries, s)[i])
      && LiesAt(a, base + |Concat(CentralParts(entries, s)[..i])|, CentralParts(entries, s)[i])
      && |Concat(CentralParts(entries, s)[..i + 1])|
         == |Concat(CentralParts(entries, s)[..i])| + |CentralParts(entries, s)[i]|
  {
    hide Archive, Concat, LocalParts, CentralParts, EndPart, LiesAt;
    var locals, centrals := LocalParts(entries, s), CentralParts(entries, s);
    ArchiveSplits(entries, s);
    WholeOffset(entries, s);
    ConcatLies(locals, i);
    ConcatLies(centrals, i);
    assert Offset(entries, s, i) == |Concat(locals[..i])|;
    var a := Archive(entries, s);
    LiesInSum(Concat(locals), Concat(centrals), EndPart(entries, s));
    LiesWithin(a, 0, Concat(locals), Offset(entries, s, i), locals[i]);
    LiesWithin(a, |Concat(locals)|, Concat(centrals), |Concat(centrals[..i])|, centrals[i]);
  }

  lemma ArchiveSplits(entries: seq<Entry>, s: Stamp)
    ensures Archive(entries, s)
         == Concat(LocalParts(entries, s)) + Concat(CentralParts(entries, s)) + EndPart(entries, s)
  {
    var locals, centrals, end := LocalParts(entries, s), CentralParts(entries, s), EndPart(entries, s);
    ConcatOfSum(locals + centrals, [end]);
    ConcatOfSum(locals, centrals);
    assert [end][..0] == [] && Concat([end]) == [] + end == end;
  }

  lemma ReadsEntryOf(entries: seq<Entry>, s: Stamp, i: nat)
    requires Fits(entries, s) && i < |entries|
    ensures ReadEntry(Archive(entries, s),
                      Offset(entries, s, |entries|) + |Concat(CentralParts(entries, s)[..i])|, s)
         == Some((entries[i], Offset(entries, s, |entries|) + |Concat(CentralParts(entries, s)[..i + 1])|))
  {
    hide Archive, Concat, ReadEntry, Offset, Central, Local;
    ArchiveHolds(entries, s, i);
    OffsetsGrow(entries, s, i);
    var at := Offset(entries, s, |entries|) + |Concat(CentralParts(entries, s)[..i])|;
    ReadsEntry(Archive(entries, s), at, entries[i], s, Offset(entries, s, i));
  }

  lemma {:induction false} ReadsEntries(entries: seq<Entry>, s: Stamp, i: nat)
    requires Fits(entries, s) && i <= |entries|
    ensures ReadEntries(Archive(entries, s),
                        Offset(entries, s, |entries|) + |Concat(CentralParts(entries, s)[..i])|,
                        |entries| - i, |Archive(entries, s)| - 22, s) == Some(entries[i..])
    decreases |entries| - i
  {
    hide Archive, Concat, CentralParts, ReadEntry, Offset;
    if i == |entries| {
      DirectoryEnds(entries, s);
      assert entries[i..] == [];
    } else {
      ReadsEntryOf(entries, s, i);
      ReadsEntries(entries, s, i + 1);
      assert entries[i..] == [entries[i]] + entries[i + 1..];
    }
  }

  lemma DirectoryEnds(entries: seq<Entry>, s: Stamp)
    ensures CentralParts(entries, s)[..|entries|] == CentralParts(entries, s)
    ensures Offset(entries, s, |entries|) + |Concat(CentralParts(entries, s))| == |Archive(entries, s)| - 22
  {
    hide Archive, Concat, Header;
    WholeOffset(entries, s);
    ArchiveSplits(entries, s);
  }

  lemma OffsetsGrow(entries: seq<Entry>, s: Stamp, i: nat)
    requires i <= |entries|
    ensures Offset(entries, s, i) <= Offset(entries, s, |entries|)
  {
    var parts := LocalParts(entries, s);
    assert parts[..|entries|] == parts && parts == parts[..i] + parts[i..];
    ConcatOfSum(parts[..i], parts[i..]);
  }

  lemma EndLies(entries: seq<Entry>, s: Stamp)
    ensures |Archive(entries, s)| >= 22
    ensures LiesAt(Archive(entries, s), |Archive(entries, s)| - 22, EndPart(entries, s))
  {
    hide Archive, Concat, LocalParts, CentralParts;
    ArchiveSplits(entries, s);
    LiesInSum(Concat(LocalParts(entries, s)), Concat(CentralParts(entries, s)), EndPart(entries, s));
  }

  lemma NoParts(parts: seq<seq<byte>>)
    ensures |Concat(parts[..0])| == 0
  {
  }

  lemma EndOfArchive(entries: seq<Entry>, s: Stamp)
    requires Fits(entries, s)
    ensures var a := Archive(entries, s);
      && |a| >= 22 && EndAgrees(a, |a| - 22)
      && Read32(a, |a| - 22 + 16) == Offset(entries, s, |entries|) && Read16(a, |a| - 22 + 10) == |entries|
  {
    hide Archive, Header, EndFields, Read16, Read32, Concat, CentralParts, Offset, LiesAt;
    EndLies(entries, s);
    DirectoryEnds(entries, s);
    EndGaps(|entries|, |Concat(CentralParts(entries, s))|, Offset(entries, s, |entries|));
    EndReads(|entries|, |Concat(CentralParts(entries, s))|, Offset(entries, s, |entries|));
    var a, end := Archive(entries, s), EndPart(entries, s);
    SameFields(a, |a| - 22, end, 0);
    SameFields(a, |a| - 22, end, 4);
    SameFields(a, |a| - 22, end, 6);
    SameFields(a, |a| - 22, end, 8);
    SameFields(a, |a| - 22, end, 10);
    SameFields(a, |a| - 22, end, 12);
    SameFields(a, |a| - 22, end, 16);
    SameFields(a, |a| - 22, end, 20);
  }

  /** A strict reader that follows the directory gets back exactly the names and data that were stored. */
  lemma ArchiveReadsBack(entries: seq<Entry>, s: Stamp)
    requires Fits(entries, s)
    ensures ReadArchive(Archive(entries, s), s) == Some(entries)
  {
    hide Archive, EndAgrees, Read16, Read32, ReadEntries, Concat, CentralParts, Offset;
    EndOfArchive(entries, s);
    NoParts(CentralParts(entries, s));
    assert entries[0..] == entries;
    ReadsEntries(entries, s, 0);
  }

  // ----- The writer -----

  /** A buffer whose bytes are those of a header with the given fields. */
  ghost predicate Written(a: array<byte>, fields: seq<Field>)
    reads a
  {
    forall i :: 0 <= i < a.Length ==> a[i] == HeaderByte(fields, i)
  }

  /** `setUint16` or `setUint32`, little-endian. */
  method SetField(a: array<byte>, ghost done: seq<Field>, f: Field) returns (ghost now: seq<Field>)
    requires f.at + f.width <= a.Length && f.width <= 4 && Written(a, done)
    modifies a
    ensures now == done + [f] && Written(a, now)
  {
    for k := 0 to f.width
      invariant forall i :: 0 <= i < a.Length ==>
        a[i] == if f.at <= i < f.at + k then FieldByte(f.value, i - f.at) else HeaderByte(done, i)
    {
      a[f.at + k] := FieldByte(f.value, k);
    }
    now := done + [f];
    assert now[..|now| - 1] == done;
  }

  method SetBytes(a: array<byte>, part: seq<byte>, at: nat)
    requires at + |part| <= a.Length
    modifies a
    ensures a[..] == old(a[..at]) + part + old(a[at + |part|..])
  {
    for k := 0 to |part|
      invariant forall i :: 0 <= i < a.Length ==> a[i] == if at <= i < at + k then part[i - at] else old(a[i])
    {
      a[at + k] := part[k];
    }
  }

  method WriteLocal(e: Entry, s: Stamp, crc: nat) returns (local: seq<byte>)
    requires crc == CrcField(e.data)
    ensures local == Local(e, s)
  {
    hide HeaderByte, CrcField, Written, Header;
    var a := new byte[30 + |e.name| + |e.data|](_ => 0);
    ghost var w: seq<Field> := [];
    StartsBlank(a);
    w := SetField(a, w, Field(0, 4, 0x0403_4b50));
    w := SetField(a, w, Field(4, 2, 20));
    w := SetField(a, w, Field(6, 2, 0x0800));
    w := SetField(a, w, Field(8, 2, 0));
    w := SetField(a, w, Field(10, 2, s.time));
    w := SetField(a, w, Field(12, 2, s.date));
    w := SetField(a, w, Field(14, 4, crc));
    w := SetField(a, w, Field(18, 4, |e.data|));
    w := SetField(a, w, Field(22, 4, |e.data|));
    w := SetField(a, w, Field(26, 2, |e.name|));
    w := SetField(a, w, Field(28, 2, 0));
    assert w == LocalFields(e, s);
    WrittenHeader(a, 30, w);
    SetBytes(a, e.name, 30);
    assert a[..30 + |e.name|] == Header(30, w) + e.name;
    SetBytes(a, e.data, 30 + |e.name|);
    local := a[..];
  }

  lemma WrittenHeader(a: array<byte>, size: nat, w: seq<Field>)
    requires Written(a, w) && size <= a.Length
    ensures a[..size] == Header(size, w)
  {
    hide HeaderByte;
  }

  lemma StartsBlank(a: array<byte>)
    requires forall i :: 0 <= i < a.Length ==> a[i] == 0
    ensures Written(a, [])
  {
  }

  method WriteCentral(e: Entry, s: Stamp, crc: nat, offset: nat) returns (central: seq<byte>)
    requires crc == CrcField(e.data)
    ensures central == Central(e, s, offset)
  {
    hide HeaderByte, CrcField, Written, Header;
    var a := new byte[46 + |e.name|](_ => 0);
    ghost var w: seq<Field> := [];
    StartsBlank(a);
    w := SetField(a, w, Field(0, 4, 0x0201_4b50));
    w := SetField(a, w, Field(4, 2, 20));
    w := SetField(a, w, Field(6, 2, 20));
    w := SetField(a, w, Field(8, 2, 0x0800));
    w := SetField(a, w, Field(10, 2, 0));
    assert w == CentralFields(e, s, offset)[..5];
    w := SetField(a, w, Field(12, 2, s.time));
    w := SetField(a, w, Field(14, 2, s.date));
    w := SetField(a, w, Field(16, 4, crc));
    w := SetField(a, w, Field(20, 4, |e.data|));
    assert w == CentralFields(e, s, offset)[..9];
    w := SetField(a, w, Field(24, 4, |e.data|));
    w := SetField(a, w, Field(28, 2, |e.name|));
    w := SetField(a, w, Field(42, 4, offset));
    assert w == CentralFields(e, s, offset);
    WrittenHeader(a, 46, w);
    SetBytes(a, e.name, 46);
    central := a[..];
  }

  method WriteEnd(count: nat, size: nat, offset: nat) returns (end: seq<byte>)
    ensures end == Header(22, EndFields(count, size, offset))
  {
    hide HeaderByte;
    var a := new byte[22](_ => 0);
    ghost var w: seq<Field> := [];
    StartsBlank(a);
    w := SetField(a, w, Field(0, 4, 0x0605_4b50));
    w := SetField(a, w, Field(8, 2, count));
    w := SetField(a, w, Field(10, 2, count));
    w := SetField(a, w, Field(12, 4, size));
    w := SetField(a, w, Field(16, 4, offset));
    assert w == EndFields(count, size, offset);
    end := a[..];
  }

  method CreateZip(entries: seq<Entry>, s: Stamp) returns (archive: seq<byte>)
    ensures archive == Archive(entries, s)
  {
    hide Concat, Local, Central, EndPart, Header;
    var table := BuildTable();
    var locals: seq<seq<byte>>, centrals: seq<seq<byte>> := [], [];
    var offset, centralSize := 0, 0;
    NoParts(LocalParts(entries, s));
    NoParts(CentralParts(entries, s));
    for i := 0 to |entries|
      invariant locals == LocalParts(entries, s)[..i] && centrals == CentralParts(entries, s)[..i]
      invariant offset == Offset(entries, s, i)
      invariant centralSize == |Concat(centrals)|
    {
      var e := entries[i];
      var checksum := TableCrc(table, e.data);
      var crc := checksum.bits as nat;
      var local := WriteLocal(e, s, crc);
      var central := WriteCentral(e, s, crc, offset);
      ConcatGrows(LocalParts(entries, s), i);
      ConcatGrows(CentralParts(entries, s), i);
      locals, centrals := locals + [local], centrals + [central];
      offset, centralSize := offset + |local|, centralSize + |central|;
    }
    assert CentralParts(entries, s)[..|entries|] == CentralParts(entries, s);
    assert LocalParts(entries, s)[..|entries|] == LocalParts(entries, s);
    var end := WriteEnd(|entries|, centralSize, offset);
    EndPartIs(entries, s);
    archive := Joined(locals + centrals + [end]);
  }

  lemma EndPartIs(entries: seq<Entry>, s: Stamp)
    ensures EndPart(entries, s)
         == Header(22, EndFields(|entries|, |Concat(CentralParts(entries, s))|, Offset(entries, s, |entries|)))
  {
  }

  lemma ConcatGrows(parts: seq<seq<byte>>, i: nat)
    requires i < |parts|
    ensures parts[..i + 1] == parts[..i] + [parts[i]]
    ensures |Concat(parts[..i + 1])| == |Concat(parts[..i])| + |parts[i]|
  {
    ConcatHolds(parts, i);
  }

  /** Copies the parts one behind the other into one buffer. */
  method Joined(parts: seq<seq<byte>>) returns (whole: seq<byte>)
    ensures whole == Concat(parts)
  {
    var a := new byte[TotalLength(parts)](_ => 0);
    var cursor := 0;
    for i := 0 to |parts|
      invariant cursor == |Concat(parts[..i])| && cursor + TotalLength(parts[i..]) == a.Length
      invariant a[..cursor] == Concat(parts[..i])
    {
      ghost var before := a[..cursor];
      assert parts[i..][1..] == parts[i + 1..];
      assert parts[..i + 1][..i] == parts[..i];
      SetBytes(a, parts[i], cursor);
      cursor := cursor + |parts[i]|;
      assert a[..cursor] == before + parts[i];
    }
    assert parts[|parts|..] == [] && parts[..|parts|] == parts;
    whole := a[..];
    assert a[..] == a[..cursor];
  }

  function TotalLength(parts: seq<seq<byte>>): nat {
    if parts == [] then 0 else |parts[0]| + TotalLength(parts[1..])
  }
}

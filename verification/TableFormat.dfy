/** The bytes of a table file: data block, sparse index, Bloom filter, footer. */
module TableFormat {
  import opened Records
  import opened Bytes
  import opened BloomFilter

  const MAGIC: nat := 0x4C534D00
  const INDEX_INTERVAL: nat := 16
  const FOOTER_SIZE: nat := 40

  datatype IndexEntry = IndexEntry(key: string, offset: nat)

  datatype Footer = Footer(indexOffset: nat, indexSize: nat, filterOffset: nat, filterSize: nat, entryCount: nat,
                           magic: nat)

  /** Lengths are stored in 32 bits, and only that many bytes of the string are written. */
  function Stored(s: string): string {
    s[..|s| % TWO_32]
  }

  predicate Small(s: string) { |s| < TWO_32 }

  predicate AllSmall(recs: seq<Rec>) {
    forall i :: 0 <= i < |recs| ==> Small(recs[i].key) && Small(recs[i].value)
  }

  function RecordBytes(r: Rec): string {
    EncodeU32(|r.key|) + EncodeU32(|r.value|) + Stored(r.key) + Stored(r.value)
    + [if r.deleted then 1 as char else 0 as char]
  }

  function DataBytes(recs: seq<Rec>): string {
    if recs == [] then [] else DataBytes(recs[..|recs| - 1]) + RecordBytes(recs[|recs| - 1])
  }

  /** Where record `i` starts. */
  function Offset(recs: seq<Rec>, i: nat): nat
    requires i <= |recs|
  {
    |DataBytes(recs[..i])|
  }

  /** The sampled entries: one for every sixteenth record. */
  function IndexOf(recs: seq<Rec>): seq<IndexEntry> {
    if recs == [] then []
    else
      var n := |recs| - 1;
      IndexOf(recs[..n]) + (if n % INDEX_INTERVAL == 0 then [IndexEntry(recs[n].key, |DataBytes(recs[..n])|)] else [])
  }

  function EntryBytes(e: IndexEntry): string {
    EncodeU32(|e.key|) + Stored(e.key) + EncodeU64(e.offset)
  }

  function IndexBytes(entries: seq<IndexEntry>): string {
    if entries == [] then [] else IndexBytes(entries[..|entries| - 1]) + EntryBytes(entries[|entries| - 1])
  }

  function FooterBytes(f: Footer): (s: string)
    ensures |s| == FOOTER_SIZE
  {
    EncodeU64(f.indexOffset) + EncodeU64(f.indexSize) + EncodeU64(f.filterOffset) + EncodeU64(f.filterSize)
    + EncodeU32(f.entryCount) + EncodeU32(f.magic)
  }

  function FooterOf(recs: seq<Rec>, filter: Filter): Footer {
    var data, index := |DataBytes(recs)|, |IndexBytes(IndexOf(recs))|;
    Footer(data, index, data + index, |FilterBytes(filter)|, |recs|, MAGIC)
  }

  /** The whole file for a list of records. */
  function TableBytes(recs: seq<Rec>, filter: Filter): string {
    DataBytes(recs) + IndexBytes(IndexOf(recs)) + FilterBytes(filter) + FooterBytes(FooterOf(recs, filter))
  }

  // ---- reading back ----

  /** The last 40 bytes; none when the file is too short or the magic number differs. */
  function ReadFooter(file: string): Option<Footer> {
    if |file| < FOOTER_SIZE then None
    else
      var pos := |file| - FOOTER_SIZE;
      var footer := Footer(ReadU64(file, pos).value, ReadU64(file, pos + 8).value, ReadU64(file, pos + 16).value,
                           ReadU64(file, pos + 24).value, ReadU32(file, pos + 32).value, ReadU32(file, pos + 36).value);
      if footer.magic == MAGIC then Some(footer) else None
  }

  /** One record and the position after it. */
  function ReadRecord(file: string, pos: nat): Option<(Rec, nat)> {
    var keyLen, valueLen := ReadU32(file, pos), ReadU32(file, pos + 4);
    if valueLen.None? then None
    else
      var key := Read(file, pos + 8, keyLen.value);
      if key.None? then None
      else
        var at := pos + 8 + keyLen.value;
        var value, flag := Read(file, at, valueLen.value), Read(file, at + valueLen.value, 1);
        if flag.None? then None
        else Some((Rec(key.value, value.value, flag.value[0] != 0 as char), at + valueLen.value + 1))
  }

  /** One index entry and the position after it. */
  function ReadEntry(file: string, pos: nat): Option<(IndexEntry, nat)> {
    var keyLen := ReadU32(file, pos);
    if keyLen.None? then None
    else
      var key, offset := Read(file, pos + 4, keyLen.value), ReadU64(file, pos + 4 + keyLen.value);
      if offset.None? then None
      else Some((IndexEntry(key.value, offset.value), pos + 12 + keyLen.value))
  }

  /** The records an iterator yields from `pos` up to the end of the data block. */
  function Scan(file: string, dataEnd: nat, pos: nat): seq<Rec>
    decreases |file| - pos
  {
    if pos >= dataEnd then []
    else
      var r := ReadRecord(file, pos);
      if r.None? || r.value.1 > dataEnd then [] else [r.value.0] + Scan(file, dataEnd, r.value.1)
  }

  // ---- round trips ----

  lemma SmallStored(s: string)
    requires Small(s)
    ensures Stored(s) == s && |s| % TWO_32 == |s|
  {
  }

  lemma RecordPieces(r: Rec, file: string, pos: nat)
    requires LiesAt(file, pos, RecordBytes(r)) && Small(r.key) && Small(r.value)
    ensures LiesAt(file, pos, EncodeU32(|r.key|)) && LiesAt(file, pos + 4, EncodeU32(|r.value|))
    ensures LiesAt(file, pos + 8, r.key) && LiesAt(file, pos + 8 + |r.key|, r.value)
    ensures LiesAt(file, pos + 8 + |r.key| + |r.value|, [if r.deleted then 1 as char else 0 as char])
    ensures |RecordBytes(r)| == 9 + |r.key| + |r.value|
  {
    hide EncodeU32;
    SmallStored(r.key);
    SmallStored(r.value);
    var a := EncodeU32(|r.key|);
    var b := a + EncodeU32(|r.value|);
    var c := b + r.key;
    var d := c + r.value;
    LiesConcat(file, pos, d, [if r.deleted then 1 as char else 0 as char]);
    LiesConcat(file, pos, c, r.value);
    LiesConcat(file, pos, b, r.key);
    LiesConcat(file, pos, a, EncodeU32(|r.value|));
  }

  lemma RecordFromPieces(r: Rec, file: string, pos: nat)
    requires Small(r.key) && Small(r.value)
    requires LiesAt(file, pos, EncodeU32(|r.key|)) && LiesAt(file, pos + 4, EncodeU32(|r.value|))
    requires LiesAt(file, pos + 8, r.key) && LiesAt(file, pos + 8 + |r.key|, r.value)
    requires LiesAt(file, pos + 8 + |r.key| + |r.value|, [if r.deleted then 1 as char else 0 as char])
    ensures ReadRecord(file, pos) == Some((r, pos + 9 + |r.key| + |r.value|))
  {
    hide EncodeU32, DecodeU32;
    U32At(file, pos, |r.key|);
    U32At(file, pos + 4, |r.value|);
    SmallStored(r.key);
    SmallStored(r.value);
  }

  lemma RecordRoundTrip(r: Rec, file: string, pos: nat)
    requires LiesAt(file, pos, RecordBytes(r)) && Small(r.key) && Small(r.value)
    ensures ReadRecord(file, pos) == Some((r, pos + |RecordBytes(r)|))
  {
    hide RecordBytes;
    RecordPieces(r, file, pos);
    RecordFromPieces(r, file, pos);
  }

  lemma EntryRoundTrip(e: IndexEntry, file: string, pos: nat)
    requires LiesAt(file, pos, EntryBytes(e)) && Small(e.key) && e.offset < TWO_64
    ensures ReadEntry(file, pos) == Some((e, pos + |EntryBytes(e)|)) && |EntryBytes(e)| == 12 + |e.key|
  {
    hide EncodeU32, DecodeU32, EncodeU64, DecodeU64;
    SmallStored(e.key);
    var a := EncodeU32(|e.key|);
    LiesConcat(file, pos, a + e.key, EncodeU64(e.offset));
    LiesConcat(file, pos, a, e.key);
    U32At(file, pos, |e.key|);
    U64At(file, pos + 4 + |e.key|, e.offset);
  }

  lemma OffsetNext(recs: seq<Rec>, i: nat)
    requires i < |recs|
    ensures Offset(recs, i + 1) == Offset(recs, i) + |RecordBytes(recs[i])|
    ensures Offset(recs, i) < Offset(recs, i + 1)
  {
    hide RecordBytes;
    var t := recs[..i + 1];
    assert t[..i] == recs[..i] && t[i] == recs[i];
    assert 0 < |RecordBytes(recs[i])| by { RecordSize(recs[i]); }
  }

  lemma RecordSize(r: Rec)
    ensures |RecordBytes(r)| >= 9
  {
  }

  /** Every record lies at its offset in the data block. */
  lemma {:induction false} RecordLies(recs: seq<Rec>, i: nat, file: string)
    requires i < |recs| && LiesAt(file, 0, DataBytes(recs))
    ensures LiesAt(file, Offset(recs, i), RecordBytes(recs[i]))
  {
    hide RecordBytes;
    var n := |recs| - 1;
    LiesConcat(file, 0, DataBytes(recs[..n]), RecordBytes(recs[n]));
    if i < n {
      RecordLies(recs[..n], i, file);
      assert recs[..n][..i] == recs[..i];
    }
  }

  /** Reading at the offset of record `i` gives it and the offset of the next. */
  lemma RecordAt(recs: seq<Rec>, i: nat, file: string)
    requires i < |recs| && LiesAt(file, 0, DataBytes(recs)) && AllSmall(recs)
    ensures ReadRecord(file, Offset(recs, i)) == Some((recs[i], Offset(recs, i + 1)))
    ensures Offset(recs, i) < Offset(recs, i + 1)
  {
    hide RecordBytes, ReadRecord, Offset, DataBytes, LiesAt;
    RecordLies(recs, i, file);
    RecordRoundTrip(recs[i], file, Offset(recs, i));
    OffsetNext(recs, i);
  }

  lemma {:induction false} OffsetMonotone(recs: seq<Rec>, i: nat, j: nat)
    requires i <= j <= |recs|
    ensures Offset(recs, i) <= Offset(recs, j) && (i < j ==> Offset(recs, i) < Offset(recs, j))
    decreases j - i
  {
    hide Offset;
    if i < j {
      OffsetNext(recs, i);
      OffsetMonotone(recs, i + 1, j);
    }
  }

  lemma OffsetEnd(recs: seq<Rec>)
    ensures Offset(recs, |recs|) == |DataBytes(recs)|
  {
    assert recs[..|recs|] == recs;
  }

  /** Iterating from the offset of record `i` yields the records from `i` on, and stops
      exactly at the end of the data block. */
  lemma {:induction false} ScanFrom(recs: seq<Rec>, i: nat, file: string)
    requires i <= |recs| && LiesAt(file, 0, DataBytes(recs)) && AllSmall(recs)
    ensures Scan(file, |DataBytes(recs)|, Offset(recs, i)) == recs[i..]
    decreases |recs| - i
  {
    hide ReadRecord, Offset, DataBytes;
    OffsetEnd(recs);
    if i < |recs| {
      RecordAt(recs, i, file);
      OffsetMonotone(recs, i + 1, |recs|);
      ScanFrom(recs, i + 1, file);
    }
  }

  lemma ScanAll(recs: seq<Rec>, file: string)
    requires LiesAt(file, 0, DataBytes(recs)) && AllSmall(recs)
    ensures Scan(file, |DataBytes(recs)|, 0) == recs
  {
    ScanFrom(recs, 0, file);
  }

  /** Entry `j` of the sparse index is the key and offset of record `16 * j`, and there are
      `ceil(n / 16)` entries. */
  lemma {:induction false} IndexEntries(recs: seq<Rec>)
    ensures |IndexOf(recs)| == (|recs| + 15) / 16
    ensures forall j :: 0 <= j < |IndexOf(recs)| ==>
      16 * j < |recs| && IndexOf(recs)[j] == IndexEntry(recs[16 * j].key, Offset(recs, 16 * j))
  {
    hide DataBytes;
    if recs != [] {
      var n := |recs| - 1;
      var t := recs[..n];
      IndexEntries(t);
      forall j | 0 <= j < |IndexOf(recs)|
        ensures 16 * j < |recs| && IndexOf(recs)[j] == IndexEntry(recs[16 * j].key, Offset(recs, 16 * j))
      {
        if j < |IndexOf(t)| {
          assert t[..16 * j] == recs[..16 * j];
        }
      }
    }
  }

  lemma FooterPieces(f: Footer, file: string, pos: nat)
    requires LiesAt(file, pos, FooterBytes(f))
    ensures LiesAt(file, pos, EncodeU64(f.indexOffset)) && LiesAt(file, pos + 8, EncodeU64(f.indexSize))
    ensures LiesAt(file, pos + 16, EncodeU64(f.filterOffset)) && LiesAt(file, pos + 24, EncodeU64(f.filterSize))
    ensures LiesAt(file, pos + 32, EncodeU32(f.entryCount)) && LiesAt(file, pos + 36, EncodeU32(f.magic))
  {
    hide EncodeU32, EncodeU64;
    var a := EncodeU64(f.indexOffset);
    var b := a + EncodeU64(f.indexSize);
    var c := b + EncodeU64(f.filterOffset);
    var d := c + EncodeU64(f.filterSize);
    LiesConcat(file, pos, d + EncodeU32(f.entryCount), EncodeU32(f.magic));
    LiesConcat(file, pos, d, EncodeU32(f.entryCount));
    LiesConcat(file, pos, c, EncodeU64(f.filterSize));
    LiesConcat(file, pos, b, EncodeU64(f.filterOffset));
    LiesConcat(file, pos, a, EncodeU64(f.indexSize));
  }

  predicate FooterFits(f: Footer) {
    f.indexOffset < TWO_64 && f.indexSize < TWO_64 && f.filterOffset < TWO_64 && f.filterSize < TWO_64
  }

  lemma EntryPieces(e: IndexEntry, file: string, pos: nat)
    requires LiesAt(file, pos, EntryBytes(e)) && Small(e.key)
    ensures LiesAt(file, pos, EncodeU32(|e.key|)) && LiesAt(file, pos + 4, e.key)
    ensures LiesAt(file, pos + 4 + |e.key|, EncodeU64(e.offset)) && |EntryBytes(e)| == 12 + |e.key|
  {
    hide EncodeU32, EncodeU64;
    SmallStored(e.key);
    LiesConcat(file, pos, EncodeU32(|e.key|) + e.key, EncodeU64(e.offset));
    LiesConcat(file, pos, EncodeU32(|e.key|), e.key);
  }

  /** A table file is the data block, the sparse index, the filter and a footer of forty bytes, which says
      where the blocks lie, how long they are, and how many records there are. */
  lemma TableLayout(recs: seq<Rec>, filter: Filter)
    ensures var file, data := TableBytes(recs, filter), DataBytes(recs);
      var index, block := IndexBytes(IndexOf(recs)), FilterBytes(filter);
      && |file| == |data| + |index| + |block| + 40
      && LiesAt(file, 0, data) && LiesAt(file, |data|, index) && LiesAt(file, |data| + |index|, block)
      && LiesAt(file, |data| + |index| + |block|,
                FooterBytes(Footer(|data|, |index|, |data| + |index|, |block|, |recs|, 0x4C534D00)))
  {
    hide *;
    TableBlocks(recs, filter);
    BlocksLie(DataBytes(recs), IndexBytes(IndexOf(recs)), FilterBytes(filter), FooterBytes(FooterOf(recs, filter)));
  }

  lemma TableBlocks(recs: seq<Rec>, filter: Filter)
    ensures TableBytes(recs, filter) ==
      DataBytes(recs) + IndexBytes(IndexOf(recs)) + FilterBytes(filter) + FooterBytes(FooterOf(recs, filter))
    ensures var data, index := |DataBytes(recs)|, |IndexBytes(IndexOf(recs))|;
      FooterOf(recs, filter) == Footer(data, index, data + index, |FilterBytes(filter)|, |recs|, 0x4C534D00)
    ensures |FooterBytes(FooterOf(recs, filter))| == 40
  {
    hide DataBytes, IndexBytes, IndexOf, FilterBytes, FooterBytes;
  }

  lemma BlocksLie(a: string, b: string, c: string, d: string)
    ensures var file := a + b + c + d;
      && |file| == |a| + |b| + |c| + |d| && LiesAt(file, 0, a) && LiesAt(file, |a|, b)
      && LiesAt(file, |a| + |b|, c) && LiesAt(file, |a| + |b| + |c|, d)
  {
    var file := a + b + c + d;
    LiesWithin(file, 0, file, [], a, b + c + d);
    LiesWithin(file, 0, file, a, b, c + d);
    LiesWithin(file, 0, file, a + b, c, d);
    LiesWithin(file, 0, file, a + b + c, d, []);
  }

  /** A footer is found exactly in a file of forty bytes or more whose last four are the magic number. */
  lemma FooterFound(file: string)
    ensures ReadFooter(file).Some? <==> |file| >= 40 && DecodeU32(file[|file| - 4..]) == 0x4C534D00
    ensures ReadFooter(file).Some? ==>
      var (f, pos) := (ReadFooter(file).value, |file| - 40);
      && f.indexOffset == DecodeU64(file[pos..pos + 8]) && f.indexSize == DecodeU64(file[pos + 8..pos + 16])
      && f.filterOffset == DecodeU64(file[pos + 16..pos + 24]) && f.filterSize == DecodeU64(file[pos + 24..pos + 32])
      && f.entryCount == DecodeU32(file[pos + 32..pos + 36]) && f.magic == 0x4C534D00
  {
    hide DecodeU32, DecodeU64;
    if |file| >= 40 {
      assert file[|file| - 4..] == file[|file| - 40 + 36..|file| - 40 + 40];
    }
  }

  /** A record is read exactly where its lengths, its key, its value and its flag all lie in the file; any
      flag but 0 is a tombstone's. */
  lemma RecordFound(file: string, pos: nat)
    ensures ReadRecord(file, pos).Some? <==>
      && pos + 8 <= |file|
      && pos + 9 + DecodeU32(file[pos..pos + 4]) + DecodeU32(file[pos + 4..pos + 8]) <= |file|
    ensures ReadRecord(file, pos).Some? ==>
      var (k, v) := (DecodeU32(file[pos..pos + 4]), DecodeU32(file[pos + 4..pos + 8]));
      var (r, next) := ReadRecord(file, pos).value;
      && r.key == file[pos + 8..pos + 8 + k] && r.value == file[pos + 8 + k..pos + 8 + k + v]
      && (r.deleted <==> file[pos + 8 + k + v] != 0 as char) && next == pos + 9 + k + v
  {
    hide DecodeU32;
  }

  /** The four offsets survive; the record count keeps its low 32 bits. */
  lemma FooterRoundTrip(f: Footer, before: string)
    requires FooterFits(f) && f.magic == MAGIC
    ensures ReadFooter(before + FooterBytes(f)) == Some(f.(entryCount := f.entryCount % TWO_32))
  {
    hide FooterBytes, EncodeU32, DecodeU32, EncodeU64, DecodeU64;
    var file, pos := before + FooterBytes(f), |before|;
    assert LiesAt(file, pos, FooterBytes(f));
    FooterPieces(f, file, pos);
    U64At(file, pos, f.indexOffset);
    U64At(file, pos + 8, f.indexSize);
    U64At(file, pos + 16, f.filterOffset);
    U64At(file, pos + 24, f.filterSize);
    U32At(file, pos + 32, f.entryCount);
    U32At(file, pos + 36, f.magic);
  }
}

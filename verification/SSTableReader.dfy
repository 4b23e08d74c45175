/** Opening a table file and looking one key up in it (src/core/sstable_reader.cpp). */
module SSTableReader {
  import opened Keys
  import opened Records
  import opened Bytes
  import opened BloomFilter
  import opened TableFormat
  import opened SSTableBuilder

  /** The index entries read from `pos`, until `left` bytes are read or a read fails. */
  function ReadIndex(file: string, pos: nat, left: int): seq<IndexEntry>
    decreases |file| - pos
  {
    if left <= 0 then []
    else
      var e := ReadEntry(file, pos);
      if e.None? then [] else [e.value.0] + ReadIndex(file, e.value.1, left - (e.value.1 - pos))
  }

  lemma EntryAdvances(file: string, pos: nat)
    requires ReadEntry(file, pos).Some?
    ensures pos < ReadEntry(file, pos).value.1 <= |file|
  {
    hide DecodeU32, DecodeU64;
  }

  class SSTableReader {
    const path: string
    const file: string
    const footer: Footer
    const bloom: BloomFilter
    var sparseIndex: seq<IndexEntry>

    /** Every field is what `Serves` needs to answer lookups in `recs`. */
    ghost predicate Serves(recs: seq<Rec>)
      reads this, bloom
    {
      && Sorted(recs) && AllSmall(recs)
      && LiesAt(file, 0, DataBytes(recs)) && footer.indexOffset == |DataBytes(recs)|
      && sparseIndex == IndexOf(recs)
      && bloom.Value().WellFormed() && Covers(bloom.Value(), bloom.hash, recs)
    }

    /** Reads the footer, the filter and the sparse index. */
    constructor (path: string, file: string, bloom: BloomFilter)
      requires ReadFooter(file).Some?
      modifies bloom
      ensures this.path == path && this.file == file && this.bloom == bloom
      ensures footer == ReadFooter(file).value
      ensures var filter := ReadFilter(file, footer.filterOffset);
        if filter.None? then sparseIndex == []
        else bloom.Value() == filter.value && sparseIndex == ReadIndex(file, footer.indexOffset, footer.indexSize)
    {
      this.path, this.file, this.bloom := path, file, bloom;
      footer := ReadFooter(file).value;
      sparseIndex := [];
      new;
      var good := bloom.Deserialize(file, footer.filterOffset);
      sparseIndex := LoadIndex(file, footer.indexOffset, footer.indexSize, good);
    }

    static method LoadIndex(file: string, start: nat, size: nat, good: bool) returns (index: seq<IndexEntry>)
      ensures index == if good then ReadIndex(file, start, size) else []
    {
      hide ReadEntry;
      index := [];
      var ok, pos, bytesRead := good, start, 0;
      while bytesRead < size && ok
        invariant ok ==> index + ReadIndex(file, pos, size - bytesRead) == ReadIndex(file, start, size)
        invariant !ok ==> index == if good then ReadIndex(file, start, size) else []
        decreases ok, |file| - pos
      {
        var e := ReadEntry(file, pos);
        if e.None? {
          ok := false;
        } else {
          EntryAdvances(file, pos);
          bytesRead := bytesRead + (e.value.1 - pos);
          pos := e.value.1;
          index := index + [e.value.0];
        }
      }
    }

    /** The first entry whose key is not below `key`, by halving. */
    method LowerBound(key: string) returns (at: nat)
      requires forall i, j :: 0 <= i < j < |sparseIndex| ==> Less(sparseIndex[i].key, sparseIndex[j].key)
      ensures at <= |sparseIndex|
      ensures forall i :: 0 <= i < at ==> Less(sparseIndex[i].key, key)
      ensures forall i :: at <= i < |sparseIndex| ==> !Less(sparseIndex[i].key, key)
    {
      at := 0;
      var count := |sparseIndex|;
      while count > 0
        invariant 0 <= at <= at + count <= |sparseIndex|
        invariant forall i :: 0 <= i < at ==> Less(sparseIndex[i].key, key)
        invariant forall i :: at + count <= i < |sparseIndex| ==> !Less(sparseIndex[i].key, key)
      {
        var half := count / 2;
        var mid := at + half;
        if Less(sparseIndex[mid].key, key) {
          forall i | 0 <= i < mid ensures Less(sparseIndex[i].key, key) {
            Transitive(sparseIndex[i].key, sparseIndex[mid].key, key);
          }
          at, count := mid + 1, count - half - 1;
        } else {
          forall i | mid < i < |sparseIndex| ensures !Less(sparseIndex[i].key, key) {
            if Less(sparseIndex[i].key, key) { Transitive(sparseIndex[mid].key, sparseIndex[i].key, key); }
          }
          count := half;
        }
      }
    }

    /** Bloom check, lower bound on the sparse index, forward scan. On the table of a strictly
        ascending list this is lookup in the list, and at most one block and the first record
        of the next are decoded. */
    method Get(key: string, ghost recs: seq<Rec>)
      returns (found: bool, value: string, deleted: bool, ghost decoded: nat)
      requires Serves(recs)
      ensures Find(Contents(recs), key) == if found then Some(Entry(value, deleted)) else None
      ensures decoded <= 17
    {
      hide DataBytes, IndexOf, Covers, Contents, Probe, IsSet, LiesAt;
      var may := bloom.MayContain(key);
      if !may {
        NotCovered(bloom.Value(), bloom.hash, recs, key);
        Missing(recs, key);
        return false, "", false, 0;
      }
      IndexEntries(recs);
      if sparseIndex == [] {
        Missing(recs, key);
        return false, "", false, 0;
      }
      var at := LowerBound(key);
      var block := if at == |sparseIndex| then at - 1
                   else if sparseIndex[at].key == key || at == 0 then at
                   else at - 1;
      Direct(recs, key, sparseIndex, at, block);
      found, value, deleted, decoded := ScanBlock(key, sparseIndex[block].offset, recs, block);
    }

    /** The forward scan from the start of a block. */
    method ScanBlock(key: string, start: nat, ghost recs: seq<Rec>, ghost block: nat)
      returns (found: bool, value: string, deleted: bool, ghost decoded: nat)
      requires Serves(recs) && Directed(recs, key, block) && start == Offset(recs, 16 * block)
      ensures Find(Contents(recs), key) == if found then Some(Entry(value, deleted)) else None
      ensures decoded <= 17
    {
      hide DataBytes, IndexOf, Covers, Contents, LiesAt, ReadRecord, Offset, AllSmall;
      decoded := 0;
      var pos := start;
      ghost var first, i := 16 * block, 16 * block;
      BlockStart(recs, key, block);
      OffsetEnd(recs);
      while true
        invariant first <= i <= |recs| && i <= first + 16 && decoded == i - first
        invariant pos == Offset(recs, i)
        invariant forall j :: 0 <= j < i ==> Less(recs[j].key, key)
        decreases |recs| - i
      {
        if pos >= footer.indexOffset {
          OffsetMonotone(recs, i, |recs|);
          break;
        }
        RecordAt(recs, i, file);
        var r := ReadRecord(file, pos);
        if r.None? {
          break;
        }
        decoded := decoded + 1;
        var rec := r.value.0;
        if rec.key == key {
          FoundAt(recs, i);
          return true, rec.value, rec.deleted, decoded;
        }
        if Less(key, rec.key) {
          Passed(recs, key, i);
          return false, "", false, decoded;
        }
        Total(rec.key, key);
        NotPastBlock(recs, key, block, i);
        pos := r.value.1;
        i := i + 1;
      }
      AllBelow(recs, key);
      return false, "", false, decoded;
    }
  }

  lemma NotCovered(filter: Filter, hash: Hash, recs: seq<Rec>, key: string)
    requires Covers(filter, hash, recs) && !filter.Contains(hash, key)
    ensures forall j :: 0 <= j < |recs| ==> recs[j].key != key
  {
    hide Probe, IsSet;
  }

  lemma Passed(recs: seq<Rec>, key: string, i: nat)
    requires Sorted(recs) && i < |recs| && Less(key, recs[i].key)
    requires forall j :: 0 <= j < i ==> Less(recs[j].key, key)
    ensures Find(Contents(recs), key) == None
  {
    forall j | 0 <= j < |recs| ensures recs[j].key != key {
      if j < i {
        Asymmetric(recs[j].key, key);
      } else {
        Transitive(key, recs[i].key, recs[j].key);
        Irreflexive(key);
      }
    }
    Missing(recs, key);
  }

  lemma AllBelow(recs: seq<Rec>, key: string)
    requires Sorted(recs) && forall j :: 0 <= j < |recs| ==> Less(recs[j].key, key)
    ensures Find(Contents(recs), key) == None
  {
    forall j | 0 <= j < |recs| ensures recs[j].key != key {
      Asymmetric(recs[j].key, key);
    }
    Missing(recs, key);
  }

  /** A record below the key is not yet the first record of the next block. */
  lemma NotPastBlock(recs: seq<Rec>, key: string, block: nat, i: nat)
    requires Sorted(recs) && Directed(recs, key, block) && 16 * block <= i < |recs|
    requires i <= 16 * block + 16 && Less(recs[i].key, key)
    ensures i < 16 * block + 16
  {
    if i == 16 * block + 16 {
      Asymmetric(recs[i].key, key);
    }
  }

  lemma FoundAt(recs: seq<Rec>, i: nat)
    requires Sorted(recs) && i < |recs|
    ensures Find(Contents(recs), recs[i].key) == Some(recs[i].ToEntry())
  {
    ContentsAt(recs);
  }

  lemma Missing(recs: seq<Rec>, key: string)
    requires Sorted(recs) && forall j :: 0 <= j < |recs| ==> recs[j].key != key
    ensures Find(Contents(recs), key) == None
  {
    ContentsAt(recs);
  }

  /** `block` is where the lower bound sends a lookup of `key`: its first record is not above the
      key unless it is the very first, and the next block's first record is above the key. */
  predicate Directed(recs: seq<Rec>, key: string, block: nat) {
    && 16 * block < |recs|
    && (block == 0 || AtMost(recs[16 * block].key, key))
    && (16 * block + 16 < |recs| ==> Less(key, recs[16 * block + 16].key) || recs[16 * block].key == key)
  }

  lemma Direct(recs: seq<Rec>, key: string, index: seq<IndexEntry>, at: nat, block: nat)
    requires Sorted(recs) && |index| == (|recs| + 15) / 16 && index != []
    requires forall j :: 0 <= j < |index| ==> 16 * j < |recs| && index[j].key == recs[16 * j].key
    requires at <= |index| && (forall i :: 0 <= i < at ==> Less(index[i].key, key))
    requires forall i :: at <= i < |index| ==> !Less(index[i].key, key)
    requires block == if at == |index| then at - 1 else if index[at].key == key || at == 0 then at else at - 1
    ensures Directed(recs, key, block)
  {
    if 16 * block + 16 < |recs| && index[block].key != key {
      assert block + 1 < |index|;
      Total(key, index[block + 1].key);
      if block == at {
        Total(key, index[at].key);
        Transitive(key, index[at].key, index[block + 1].key);
      }
    }
  }

  lemma BlockStart(recs: seq<Rec>, key: string, block: nat)
    requires Sorted(recs) && Directed(recs, key, block)
    ensures forall j :: 0 <= j < 16 * block ==> Less(recs[j].key, key)
  {
    forall j | 0 <= j < 16 * block ensures Less(recs[j].key, key) {
      Transitive(recs[j].key, recs[16 * block].key, key);
    }
  }

  // ---- a built table, opened ----

  lemma {:induction false} EntryLies(entries: seq<IndexEntry>, j: nat, file: string, base: nat)
    requires j < |entries| && LiesAt(file, base, IndexBytes(entries))
    ensures LiesAt(file, base + |IndexBytes(entries[..j])|, EntryBytes(entries[j]))
    ensures |IndexBytes(entries[..j + 1])| == |IndexBytes(entries[..j])| + |EntryBytes(entries[j])|
    ensures |IndexBytes(entries[..j + 1])| <= |IndexBytes(entries)|
  {
    hide EntryBytes;
    var n := |entries| - 1;
    LiesConcat(file, base, IndexBytes(entries[..n]), EntryBytes(entries[n]));
    if j < n {
      EntryLies(entries[..n], j, file, base);
      assert entries[..n][..j] == entries[..j] && entries[..n][..j + 1] == entries[..j + 1];
    } else {
      assert entries[..n + 1] == entries;
    }
  }

  lemma {:induction false} ReadIndexFrom(entries: seq<IndexEntry>, j: nat, file: string, base: nat)
    requires j <= |entries| && LiesAt(file, base, IndexBytes(entries))
    requires forall i :: 0 <= i < |entries| ==> Small(entries[i].key) && entries[i].offset < TWO_64
    ensures |IndexBytes(entries[..j])| <= |IndexBytes(entries)|
    ensures ReadIndex(file, base + |IndexBytes(entries[..j])|, |IndexBytes(entries)| - |IndexBytes(entries[..j])|)
            == entries[j..]
    decreases |entries| - j
  {
    hide EntryBytes, ReadEntry, IndexBytes, LiesAt;
    if j < |entries| {
      EntryLies(entries, j, file, base);
      EntryRoundTrip(entries[j], file, base + |IndexBytes(entries[..j])|);
      ReadIndexFrom(entries, j + 1, file, base);
    } else {
      assert entries[..j] == entries;
    }
  }

  /** The index entries of a table that fits can be stored without loss. */
  lemma EntriesFit(recs: seq<Rec>)
    requires AllSmall(recs) && |DataBytes(recs)| < TWO_64
    ensures forall j :: 0 <= j < |IndexOf(recs)| ==> Small(IndexOf(recs)[j].key) && IndexOf(recs)[j].offset < TWO_64
  {
    hide DataBytes, IndexOf, Offset;
    IndexEntries(recs);
    OffsetEnd(recs);
    forall j | 0 <= j < |IndexOf(recs)| ensures Small(IndexOf(recs)[j].key) && IndexOf(recs)[j].offset < TWO_64 {
      OffsetMonotone(recs, 16 * j, |recs|);
    }
  }

  lemma TablePieces(recs: seq<Rec>, filter: Filter)
    ensures var file, footer := TableBytes(recs, filter), FooterOf(recs, filter);
      && LiesAt(file, 0, DataBytes(recs)) && LiesAt(file, footer.indexOffset, IndexBytes(IndexOf(recs)))
      && LiesAt(file, footer.filterOffset, FilterBytes(filter))
      && footer.indexOffset <= |file| && footer.filterOffset <= |file|
      && footer.indexSize <= |file| && footer.filterSize <= |file|
  {
    hide DataBytes, IndexBytes, IndexOf, FilterBytes, FooterBytes;
    var file := TableBytes(recs, filter);
    var a := DataBytes(recs);
    var b := a + IndexBytes(IndexOf(recs));
    var c := b + FilterBytes(filter);
    var d := FooterBytes(FooterOf(recs, filter));
    assert LiesAt(file, 0, c + d);
    LiesConcat(file, 0, c, d);
    LiesConcat(file, 0, b, FilterBytes(filter));
    LiesConcat(file, 0, a, IndexBytes(IndexOf(recs)));
  }

  /** What a reader finds in the bytes a builder wrote: the builder's footer, filter and index. */
  lemma TableOpens(recs: seq<Rec>, filter: Filter)
    requires AllSmall(recs) && filter.WellFormed() && |TableBytes(recs, filter)| < TWO_64
    ensures var file, footer := TableBytes(recs, filter), FooterOf(recs, filter);
      && LiesAt(file, 0, DataBytes(recs))
      && ReadFooter(file) == Some(footer.(entryCount := |recs| % TWO_32))
      && ReadFilter(file, footer.filterOffset) == Some(filter)
      && ReadIndex(file, footer.indexOffset, footer.indexSize) == IndexOf(recs)
  {
    hide DataBytes, IndexBytes, IndexOf, FilterBytes, FooterBytes, ReadFooter, ReadFilter, ReadIndex, LiesAt;
    var file, footer := TableBytes(recs, filter), FooterOf(recs, filter);
    TablePieces(recs, filter);
    FooterRoundTrip(footer, DataBytes(recs) + IndexBytes(IndexOf(recs)) + FilterBytes(filter));
    FilterRoundTrip(filter, file, footer.filterOffset);
    EntriesFit(recs);
    ReadIndexFrom(IndexOf(recs), 0, file, footer.indexOffset);
    EmptyIndex();
  }

  // Default sizes: 1000 expected items at a rate of 0.01, the double 0x3F847AE147AE147B.
  const EXPECTED_ITEMS: nat := 1000
  const BIT_COUNT: nat := 9586
  const HASH_COUNT: nat := 7
  const RATE: string :=
    [0x7B as char, 0x14 as char, 0xAE as char, 0x47 as char, 0xE1 as char, 0x7A as char, 0x84 as char, 0x3F as char]

  /** A reader opened on the bytes of a built table answers lookups in the records it was built from. */
  method OpenReader(path: string, file: string, hash: Hash, ghost recs: seq<Rec>) returns (reader: SSTableReader?)
    ensures reader == null <==> ReadFooter(file).None?
    ensures reader != null ==>
      fresh(reader) && fresh(reader.bloom) && reader.path == path && reader.file == file && reader.bloom.hash == hash
    ensures IsTable(file, recs, hash) && Sorted(recs) && AllSmall(recs) && |file| < TWO_64 ==>
      reader != null && reader.Serves(recs)
  {
    hide DataBytes, IndexBytes, IndexOf, FilterBytes, FooterBytes, ReadFooter, ReadFilter, ReadIndex, LiesAt,
         TableBytes;
    ghost var built := IsTable(file, recs, hash) && Sorted(recs) && AllSmall(recs) && |file| < TWO_64;
    if built {
      ghost var filter: Filter :| Covers(filter, hash, recs) && file == TableBytes(recs, filter);
      TableOpens(recs, filter);
    }
    if ReadFooter(file).None? {
      return null;
    }
    var bloom := new BloomFilter(hash, EXPECTED_ITEMS, RATE, BIT_COUNT, HASH_COUNT);
    reader := new SSTableReader(path, file, bloom);
  }
}

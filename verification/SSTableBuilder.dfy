/** Writing a table file (src/core/sstable_builder.cpp). */
module SSTableBuilder {
  import opened Records
  import opened BloomFilter
  import opened TableFormat

  /** `filter` has no false negative on the keys of `recs`. */
  predicate Covers(filter: Filter, hash: Hash, recs: seq<Rec>) {
    filter.WellFormed() && forall i :: 0 <= i < |recs| ==> filter.Contains(hash, recs[i].key)
  }

  /** The file is what a builder writes for `recs`. */
  ghost predicate IsTable(file: string, recs: seq<Rec>, hash: Hash) {
    exists filter: Filter :: Covers(filter, hash, recs) && file == TableBytes(recs, filter)
  }

  class SSTableBuilder {
    var file: string
    var entryCount: nat
    var currentOffset: nat
    var indexEntries: seq<IndexEntry>
    const bloom: BloomFilter
    var finished: bool
    ghost var added: seq<Rec>

    ghost predicate Valid()
      reads this, bloom
    {
      && bloom.Value().WellFormed() && bloom.bitCount > 0 && Covers(bloom.Value(), bloom.hash, added)
      && (!finished ==>
            && file == DataBytes(added) && indexEntries == IndexOf(added)
            && entryCount == |added| && currentOffset == |file|)
    }

    constructor (bloom: BloomFilter)
      requires bloom.Value().WellFormed() && bloom.bitCount > 0
      ensures Valid() && !finished && added == [] && this.bloom == bloom
    {
      this.bloom := bloom;
      file, entryCount, currentOffset, indexEntries, finished := "", 0, 0, [], false;
      added := [];
    }

    method Add(key: string, value: string, deleted: bool) returns (ok: bool)
      requires Valid()
      modifies this, bloom`bits
      ensures Valid() && ok == !old(finished) && finished == old(finished)
      ensures added == if ok then old(added) + [Rec(key, value, deleted)] else old(added)
    {
      hide Covers, DataBytes, IndexOf, RecordBytes, IsSet, Probe;
      if finished {
        return false;
      }
      var r := Rec(key, value, deleted);
      var offset := |file|;
      file := file + RecordBytes(r);
      if entryCount % INDEX_INTERVAL == 0 {
        indexEntries := indexEntries + [IndexEntry(key, offset)];
      }
      ghost var before := bloom.Value();
      bloom.Add(key);
      entryCount := entryCount + 1;
      currentOffset := |file|;
      Extend(added, r, before, bloom.Value(), bloom.hash);
      added := added + [r];
      return true;
    }

    /** Appends the sparse index, the filter and the footer. */
    method Finish() returns (ok: bool)
      requires Valid()
      modifies this
      ensures Valid() && ok == !old(finished) && added == old(added) && finished
      ensures ok ==> file == TableBytes(added, bloom.Value()) && IsTable(file, added, bloom.hash)
    {
      hide Covers, DataBytes, IndexOf, IndexBytes, EntryBytes, FilterBytes, FooterBytes;
      if finished {
        return false;
      }
      var indexOffset := |file|;
      var i := 0;
      assert IndexBytes([]) == [] by { EmptyIndex(); }
      while i < |indexEntries|
        invariant i <= |indexEntries| && unchanged(bloom) && unchanged(`indexEntries, `added, `finished, `entryCount)
        invariant file == DataBytes(added) + IndexBytes(indexEntries[..i])
      {
        IndexBytesNext(indexEntries, i);
        file := file + EntryBytes(indexEntries[i]);
        i := i + 1;
      }
      assert indexEntries[..i] == indexEntries;
      var indexSize := |file| - indexOffset;
      var filterOffset := |file|;
      var block := bloom.Serialize();
      file := file + block;
      var filterSize := |file| - filterOffset;
      file := file + FooterBytes(Footer(indexOffset, indexSize, filterOffset, filterSize, entryCount, MAGIC));
      finished := true;
      return true;
    }
  }

  lemma EmptyIndex()
    ensures IndexBytes([]) == []
  {
  }

  lemma IndexBytesNext(entries: seq<IndexEntry>, i: nat)
    requires i < |entries|
    ensures IndexBytes(entries[..i + 1]) == IndexBytes(entries[..i]) + EntryBytes(entries[i])
  {
    hide EntryBytes;
    assert entries[..i + 1][..i] == entries[..i];
  }

  lemma Extend(recs: seq<Rec>, r: Rec, before: Filter, after: Filter, hash: Hash)
    requires Covers(before, hash, recs) && after.WellFormed() && after.Contains(hash, r.key)
    requires after.bitCount == before.bitCount && after.hashCount == before.hashCount
    requires forall bit: nat :: IsSet(before.bits, bit) ==> IsSet(after.bits, bit)
    ensures Covers(after, hash, recs + [r])
    ensures DataBytes(recs + [r]) == DataBytes(recs) + RecordBytes(r)
    ensures IndexOf(recs + [r]) == IndexOf(recs) +
      (if |recs| % INDEX_INTERVAL == 0 then [IndexEntry(r.key, |DataBytes(recs)|)] else [])
  {
    hide RecordBytes;
    var all := recs + [r];
    assert all[..|recs|] == recs;
    forall i | 0 <= i < |all| ensures after.Contains(hash, all[i].key) {
      if i < |recs| {
        ContainsMonotone(before, after, hash, recs[i].key);
      }
    }
  }
}

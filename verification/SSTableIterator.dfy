/** Forward iteration over the data block of a table file (src/core/sstable_iterator.cpp). */
module SSTableIterator {
  import opened Records
  import opened Bytes
  import opened TableFormat

  class SSTableIterator {
    const file: string
    const dataEnd: nat
    var offset: nat
    var record: Rec
    var valid: bool

    /** The records still to come, the current one first. */
    ghost function Rest(): seq<Rec>
      reads this
    {
      if valid then [record] + Scan(file, dataEnd, offset) else []
    }

    constructor (file: string)
      requires ReadFooter(file).Some?
      ensures this.file == file && dataEnd == ReadFooter(file).value.indexOffset
      ensures Rest() == Scan(file, dataEnd, 0)
    {
      this.file := file;
      dataEnd := ReadFooter(file).value.indexOffset;
      offset, valid, record := 0, false, Rec("", "", false);
      new;
      SeekToFirst();
    }

    method SeekToFirst()
      modifies this
      ensures Rest() == Scan(file, dataEnd, 0)
    {
      offset := 0;
      ReadNextRecord();
    }

    method Next()
      modifies this
      ensures Rest() == if old(Rest()) == [] then [] else old(Rest())[1..]
    {
      if !valid {
        return;
      }
      ReadNextRecord();
    }

    /** Decodes one record at the file position; past the data block, or when a read fails or
        runs over its end, the iterator becomes invalid. */
    method ReadNextRecord()
      modifies this
      ensures Rest() == Scan(file, dataEnd, old(offset))
    {
      if offset >= dataEnd {
        valid := false;
        return;
      }
      var r := ReadRecord(file, offset);
      if r.None? || r.value.1 > dataEnd {
        valid := false;
        return;
      }
      record, offset, valid := r.value.0, r.value.1, true;
    }
  }

  /** Opening a file: the footer must be there and carry the magic number. */
  method OpenIterator(file: string) returns (it: SSTableIterator?)
    ensures it == null <==> ReadFooter(file).None?
    ensures it == null <==> |file| < 40 || DecodeU32(file[|file| - 4..]) != 0x4C534D00
    ensures it != null ==> it.dataEnd == DecodeU64(file[|file| - 40..|file| - 32])
    ensures it != null ==> fresh(it) && it.file == file && it.dataEnd == ReadFooter(file).value.indexOffset
    ensures it != null ==> it.Rest() == Scan(file, it.dataEnd, 0)
  {
    FooterFound(file);
    if ReadFooter(file).None? {
      return null;
    }
    it := new SSTableIterator(file);
  }
}

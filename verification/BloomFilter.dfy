/** The double-hashing Bloom filter: bits packed into bytes, 64-bit wrap-around in the probe index. */
module BloomFilter {
  import opened Records
  import opened Bytes

  /** `std::hash<std::string>`: some function to 64-bit numbers, the same in every process. */
  type Hash = string -> nat

  function H1(hash: Hash, key: string): nat { hash(key) % TWO_64 }

  function H2(hash: Hash, key: string): nat {
    var h := hash(key + [1 as char]) % TWO_64;
    if h == 0 then 1 else h
  }

  /** The bit the `i`-th probe of `key` looks at; the sum wraps at 64 bits. */
  function Probe(hash: Hash, key: string, i: nat, bitCount: nat): (bit: nat)
    requires bitCount > 0
    ensures bit < bitCount
  {
    (i * H2(hash, key) + H1(hash, key)) % TWO_64 % bitCount
  }

  /** `1u << b`. */
  function Mask(b: nat): bv8
    requires b < 8
  {
    if b == 0 then 1 else if b == 1 then 2 else if b == 2 then 4 else if b == 3 then 8
    else if b == 4 then 16 else if b == 5 then 32 else if b == 6 then 64 else 128
  }

  /** The probes start at the key's hash and step by the hash of the key with a byte 1 behind it, or by 1
      when that is 0, all modulo 2^64. */
  lemma ProbeSteps(hash: Hash, key: string, i: nat, bitCount: nat)
    requires bitCount > 0
    ensures var h := hash(key + [1 as char]) % 0x1_0000_0000_0000_0000;
      var n := i * (if h == 0 then 1 else h) + hash(key) % 0x1_0000_0000_0000_0000;
      Probe(hash, key, i, bitCount) == n % 0x1_0000_0000_0000_0000 % bitCount
  {
  }

  lemma MaskIs(b: nat)
    requires b < 8
    ensures Mask(0) == 1 && (b > 0 ==> Mask(b) == Mask(b - 1) << 1)
  {
  }

  predicate TestMask(byte: bv8, b: nat)
    requires b < 8
  {
    byte & Mask(b) != 0
  }

  function SetMask(byte: bv8, b: nat): bv8
    requires b < 8
  {
    byte | Mask(b)
  }

  lemma MaskBits(byte: bv8, b: nat, c: nat)
    requires b < 8 && c < 8
    ensures TestMask(SetMask(byte, b), c) <==> TestMask(byte, c) || b == c
  {
  }

  predicate IsSet(bits: seq<bv8>, bit: nat) {
    bit / 8 < |bits| && TestMask(bits[bit / 8], bit % 8)
  }

  function SetBit(bits: seq<bv8>, bit: nat): (r: seq<bv8>)
    requires bit / 8 < |bits|
    ensures |r| == |bits|
  {
    bits[bit / 8 := SetMask(bits[bit / 8], bit % 8)]
  }

  /** Setting a bit sets that bit and no other, across the packing into bytes. */
  lemma SetBitExactly(bits: seq<bv8>, bit: nat, other: nat)
    requires bit / 8 < |bits|
    ensures IsSet(SetBit(bits, bit), other) <==> IsSet(bits, other) || other == bit
  {
    hide TestMask, SetMask;
    if other / 8 == bit / 8 {
      MaskBits(bits[bit / 8], bit % 8, other % 8);
      assert other == 8 * (other / 8) + other % 8 && bit == 8 * (bit / 8) + bit % 8;
    }
  }

  /** The bits of a filter, as data. */
  datatype Filter = Filter(expectedItems: nat, rate: string, bitCount: nat, hashCount: nat, bits: seq<bv8>) {
    predicate WellFormed() {
      && |rate| == 8
      && expectedItems < TWO_64 && bitCount < TWO_64 && hashCount < TWO_64 && |bits| < TWO_64
      && |bits| == (bitCount + 7) / 8
    }

    predicate Contains(hash: Hash, key: string) {
      bitCount > 0 && forall i :: 0 <= i < hashCount ==> IsSet(bits, Probe(hash, key, i, bitCount))
    }
  }

  /** A byte as it lies in a file. */
  function ToChar(b: bv8): char { (b as int) as char }

  function ToByte(c: char): bv8 { (c as int % 256) as bv8 }

  lemma ByteCode(b: bv8)
    ensures ((b as int) as char) as int == b as int && (b as int) as bv8 == b
  {
  }

  lemma ByteRoundTrip(b: bv8)
    ensures ToByte(ToChar(b)) == b && ToChar(b) as int == b as int
  {
    ByteCode(b);
    assert ToChar(b) as int % 256 == b as int;
  }

  function BitBytes(bits: seq<bv8>): (s: string)
    ensures |s| == |bits|
  {
    seq(|bits|, i requires 0 <= i < |bits| => ToChar(bits[i]))
  }

  function BytesBits(s: string): (bits: seq<bv8>)
    ensures |bits| == |s|
  {
    seq(|s|, i requires 0 <= i < |s| => ToByte(s[i]))
  }

  lemma BitsRoundTrip(bits: seq<bv8>)
    ensures BytesBits(BitBytes(bits)) == bits
  {
    var s := BitBytes(bits);
    forall i | 0 <= i < |bits| ensures BytesBits(s)[i] == bits[i] {
      ByteRoundTrip(bits[i]);
      assert s[i] == ToChar(bits[i]);
    }
  }

  /** The layout `Serialize` writes. */
  function FilterBytes(f: Filter): string {
    EncodeU64(f.expectedItems) + f.rate + EncodeU64(f.bitCount) + EncodeU64(f.hashCount)
    + EncodeU64(|f.bits|) + BitBytes(f.bits)
  }

  /** The filter that lies in the stream at `pos`; none when the stream ends inside it. */
  function ReadFilter(file: string, pos: nat): Option<Filter> {
    var items, rate := ReadU64(file, pos), Read(file, pos + 8, 8);
    var bitCount, hashCount := ReadU64(file, pos + 16), ReadU64(file, pos + 24);
    var byteCount := ReadU64(file, pos + 32);
    if byteCount.None? then None
    else
      var body := Read(file, pos + 40, byteCount.value);
      if body.None? then None
      else Some(Filter(items.value, rate.value, bitCount.value, hashCount.value, BytesBits(body.value)))
  }

  /** `n` bytes at `pos`, with zeros where the file has ended. */
  function Padded(file: string, pos: nat, n: nat): (s: string)
    ensures |s| == n
  {
    seq(n, i requires 0 <= i < n => if pos + i < |file| then file[pos + i] else 0 as char)
  }

  /** `std::vector::resize`. */
  function Resized(bits: seq<bv8>, n: nat): (r: seq<bv8>)
    ensures |r| == n
  {
    seq(n, i requires 0 <= i < n => if i < |bits| then bits[i] else 0)
  }

  /** The bits after reading what the file still has into them. */
  function ReadInto(file: string, pos: nat, bits: seq<bv8>): (r: seq<bv8>)
    ensures |r| == |bits|
  {
    seq(|bits|, i requires 0 <= i < |bits| => if pos + i < |file| then ToByte(file[pos + i]) else bits[i])
  }

  /** What `Deserialize` leaves in the fields, wherever the stream ends. */
  function Overread(file: string, pos: nat, bits: seq<bv8>): Filter {
    var header := Padded(file, pos, 40);
    var byteCount := DecodeU64(header[32..]);
    Filter(DecodeU64(header[..8]), header[8..16], DecodeU64(header[16..24]), DecodeU64(header[24..32]),
           ReadInto(file, pos + 40, Resized(bits, byteCount)))
  }

  /** A stream that is long enough decides every field; otherwise some old bit or a zero is left in. */
  lemma OverreadIsRead(file: string, pos: nat, bits: seq<bv8>)
    ensures ReadFilter(file, pos).Some? ==> Overread(file, pos, bits) == ReadFilter(file, pos).value
    ensures ReadFilter(file, pos).Some?
            <==> pos + 40 + DecodeU64(Padded(file, pos, 40)[32..]) <= |file|
  {
    hide DecodeU64, ToByte;
    if pos + 40 <= |file| {
      var header := Padded(file, pos, 40);
      assert header == file[pos..pos + 40];
      assert header[..8] == file[pos..pos + 8] && header[8..16] == file[pos + 8..pos + 16];
      assert header[16..24] == file[pos + 16..pos + 24] && header[24..32] == file[pos + 24..pos + 32];
      assert header[32..] == file[pos + 32..pos + 40];
      var n := DecodeU64(header[32..]);
      if pos + 40 + n <= |file| {
        assert ReadInto(file, pos + 40, Resized(bits, n)) == BytesBits(file[pos + 40..pos + 40 + n]);
      }
    }
  }

  lemma NothingRead(file: string, pos: nat)
    requires pos >= |file|
    ensures var header := Padded(file, pos, 40);
      DecodeU64(header[..8]) == DecodeU64(header[16..24]) == DecodeU64(header[24..32]) == DecodeU64(header[32..]) == 0
  {
    hide DecodeU64;
    var header := Padded(file, pos, 40);
    AllZero(header[..8]);
    AllZero(header[16..24]);
    AllZero(header[24..32]);
    AllZero(header[32..]);
  }

  lemma AllZero(s: string)
    requires |s| == 8 && forall i :: 0 <= i < 8 ==> s[i] == 0 as char
    ensures DecodeU64(s) == 0
  {
  }

  /** A filter read back from where it was written is the filter that was written. */
  lemma FilterRoundTrip(f: Filter, file: string, pos: nat)
    requires f.WellFormed() && LiesAt(file, pos, FilterBytes(f))
    ensures ReadFilter(file, pos) == Some(f)
  {
    FilterPieces(f, file, pos);
    FilterFromPieces(f, file, pos);
  }

  lemma FilterFromPieces(f: Filter, file: string, pos: nat)
    requires f.WellFormed()
    requires LiesAt(file, pos, EncodeU64(f.expectedItems)) && LiesAt(file, pos + 8, f.rate)
    requires LiesAt(file, pos + 16, EncodeU64(f.bitCount)) && LiesAt(file, pos + 24, EncodeU64(f.hashCount))
    requires LiesAt(file, pos + 32, EncodeU64(|f.bits|)) && LiesAt(file, pos + 40, BitBytes(f.bits))
    ensures ReadFilter(file, pos) == Some(f)
  {
    hide EncodeU64, DecodeU64;
    U64At(file, pos, f.expectedItems);
    U64At(file, pos + 16, f.bitCount);
    U64At(file, pos + 24, f.hashCount);
    U64At(file, pos + 32, |f.bits|);
    BitsRoundTrip(f.bits);
  }

  lemma FilterPieces(f: Filter, file: string, pos: nat)
    requires |f.rate| == 8 && LiesAt(file, pos, FilterBytes(f))
    ensures LiesAt(file, pos, EncodeU64(f.expectedItems)) && LiesAt(file, pos + 8, f.rate)
    ensures LiesAt(file, pos + 16, EncodeU64(f.bitCount)) && LiesAt(file, pos + 24, EncodeU64(f.hashCount))
    ensures LiesAt(file, pos + 32, EncodeU64(|f.bits|)) && LiesAt(file, pos + 40, BitBytes(f.bits))
  {
    hide EncodeU64;
    var a := EncodeU64(f.expectedItems);
    var b := a + f.rate;
    var c := b + EncodeU64(f.bitCount);
    var d := c + EncodeU64(f.hashCount);
    var e := d + EncodeU64(|f.bits|);
    LiesConcat(file, pos, e, BitBytes(f.bits));
    LiesConcat(file, pos, d, EncodeU64(|f.bits|));
    LiesConcat(file, pos, c, EncodeU64(f.hashCount));
    LiesConcat(file, pos, b, EncodeU64(f.bitCount));
    LiesConcat(file, pos, a, f.rate);
  }

  class BloomFilter {
    const hash: Hash
    var expectedItems: nat
    var rate: string
    var bitCount: nat
    var hashCount: nat
    var bits: seq<bv8>

    ghost function Value(): Filter
      reads this
    {
      Filter(expectedItems, rate, bitCount, hashCount, bits)
    }

    /** Sizes come from a floating-point formula in the source; any positive sizes are covered. */
    constructor (hash: Hash, expectedItems: nat, rate: string, bitCount: nat, hashCount: nat)
      requires |rate| == 8 && expectedItems < TWO_64 && 0 < bitCount < TWO_64 && 0 < hashCount < TWO_64
      ensures Value().WellFormed() && this.hash == hash
      ensures Value() == Filter(expectedItems, rate, bitCount, hashCount, bits)
      ensures forall bit: nat :: !IsSet(bits, bit)
    {
      this.hash := hash;
      this.expectedItems := expectedItems;
      this.rate := rate;
      this.bitCount := bitCount;
      this.hashCount := hashCount;
      bits := seq((bitCount + 7) / 8, _ => 0);
    }

    /** Sets exactly the key's probe bits: earlier bits stay, and no other bit is set. A filter of no
        bits stays as it is. */
    method Add(key: string)
      requires Value().WellFormed()
      modifies `bits
      ensures Value().WellFormed()
      ensures Value().Contains(hash, key) <==> bitCount > 0
      ensures bitCount == 0 ==> bits == old(bits)
      ensures bitCount > 0 ==> forall bit: nat :: IsSet(bits, bit) <==>
        old(IsSet(bits, bit)) || exists i :: 0 <= i < hashCount && bit == Probe(hash, key, i, bitCount)
    {
      if bitCount == 0 {
        return;
      }
      for i := 0 to hashCount
        invariant Value().WellFormed()
        invariant forall bit: nat :: IsSet(bits, bit) <==>
          old(IsSet(bits, bit)) || exists j :: 0 <= j < i && bit == Probe(hash, key, j, bitCount)
      {
        var bit := Probe(hash, key, i, bitCount);
        hide TestMask, SetMask;
        ghost var was := bits;
        bits := SetBit(bits, bit);
        forall other: nat ensures IsSet(bits, other) <==> IsSet(was, other) || other == bit {
          SetBitExactly(was, bit, other);
        }
      }
    }

    /** True exactly when every probe bit is set; every access is in bounds. */
    method MayContain(key: string) returns (may: bool)
      requires Value().WellFormed()
      ensures may == Value().Contains(hash, key)
      ensures may <==>
        bitCount > 0 && forall i :: 0 <= i < hashCount ==> IsSet(bits, Probe(hash, key, i, bitCount))
    {
      hide TestMask;
      if bitCount == 0 {
        return false;
      }
      for i := 0 to hashCount
        invariant forall j :: 0 <= j < i ==> IsSet(bits, Probe(hash, key, j, bitCount))
      {
        var bit := Probe(hash, key, i, bitCount);
        if !TestMask(bits[bit / 8], bit % 8) {
          assert !IsSet(bits, Probe(hash, key, i, bitCount));
          return false;
        }
      }
      return true;
    }

    method Serialize() returns (out: string)
      ensures out == FilterBytes(Value())
    {
      out := EncodeU64(expectedItems);
      out := out + rate;
      out := out + EncodeU64(bitCount);
      out := out + EncodeU64(hashCount);
      out := out + EncodeU64(|bits|);
      if |bits| > 0 {
        out := out + BitBytes(bits);
      }
    }

    /** Overwrites every field with what the stream holds at `pos`. Where it ends too early the rest of
        the header reads as zeros, and the bits that are not there keep what they were. */
    method Deserialize(file: string, pos: nat) returns (ok: bool)
      modifies this
      ensures Value() == Overread(file, pos, old(bits))
      ensures ok == ReadFilter(file, pos).Some?
      ensures ok ==> Value() == ReadFilter(file, pos).value
      ensures pos >= |file| ==> expectedItems == bitCount == hashCount == |bits| == 0
      ensures forall i :: 0 <= i < |bits| && pos + 40 + i >= |file| ==>
        bits[i] == if i < |old(bits)| then old(bits)[i] else 0
    {
      hide DecodeU64;
      OverreadIsRead(file, pos, bits);
      if pos >= |file| {
        NothingRead(file, pos);
      }
      var header := Padded(file, pos, 40);
      expectedItems, rate := DecodeU64(header[..8]), header[8..16];
      bitCount, hashCount := DecodeU64(header[16..24]), DecodeU64(header[24..32]);
      var byteCount := DecodeU64(header[32..]);
      bits := ReadInto(file, pos + 40, Resized(bits, byteCount));
      ok := pos + 40 + byteCount <= |file|;
    }
  }

  /** No false negatives: growing the set of bits never loses a key. */
  lemma ContainsMonotone(f: Filter, g: Filter, hash: Hash, key: string)
    requires f.Contains(hash, key) && g.bitCount == f.bitCount && g.hashCount == f.hashCount
    requires forall bit: nat :: IsSet(f.bits, bit) ==> IsSet(g.bits, bit)
    ensures g.Contains(hash, key)
  {
  }
}

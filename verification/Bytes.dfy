/** Fixed-width little-endian integers as they lie in a file, and reads that may run off its end. */
module Bytes {
  import opened Records

  const TWO_32: nat := 0x1_0000_0000
  const TWO_64: nat := 0x1_0000_0000_0000_0000

  /** The four bytes of `static_cast<uint32_t>(n)`. */
  function EncodeU32(n: nat): (s: string)
    ensures |s| == 4
  {
    var (n1, n2, n3) := (n / 0x100, n / 0x100 / 0x100, n / 0x100 / 0x100 / 0x100);
    [(n % 0x100) as char, (n1 % 0x100) as char, (n2 % 0x100) as char, (n3 % 0x100) as char]
  }

  function DecodeU32(s: string): nat
    requires |s| == 4
  {
    s[0] as nat + 0x100 * s[1] as nat + 0x1_0000 * s[2] as nat + 0x100_0000 * s[3] as nat
  }

  /** The eight bytes of `static_cast<uint64_t>(n)`. */
  function EncodeU64(n: nat): (s: string)
    ensures |s| == 8
  {
    EncodeU32(n) + EncodeU32(n / TWO_32)
  }

  function DecodeU64(s: string): nat
    requires |s| == 8
  {
    DecodeU32(s[..4]) + TWO_32 * DecodeU32(s[4..])
  }

  /** Little endian: the low byte first, then the bytes of the rest; a 64-bit number has its low half first. */
  lemma LittleEndian(n: nat)
    ensures EncodeU32(n)[0] as nat == n % 0x100
    ensures forall i :: 0 <= i < 3 ==> EncodeU32(n)[i + 1] == EncodeU32(n / 0x100)[i]
    ensures EncodeU64(n)[..4] == EncodeU32(n) && EncodeU64(n)[4..] == EncodeU32(n / 0x1_0000_0000)
  {
  }

  lemma Remainder32(q: nat, r: nat)
    requires r < TWO_32
    ensures (r + TWO_32 * q) % TWO_32 == r
  {
  }

  lemma Remainder64(q: nat, r: nat)
    requires r < TWO_64
    ensures (r + TWO_64 * q) % TWO_64 == r
  {
  }

  /** A stored length is the length modulo the field's width. */
  lemma U32RoundTrip(n: nat)
    ensures DecodeU32(EncodeU32(n)) == n % TWO_32
  {
    var n1 := n / 0x100;
    var n2 := n1 / 0x100;
    var n3 := n2 / 0x100;
    var r := n % 0x100 + 0x100 * (n1 % 0x100) + 0x1_0000 * (n2 % 0x100) + 0x100_0000 * (n3 % 0x100);
    assert DecodeU32(EncodeU32(n)) == r;
    Remainder32(n3 / 0x100, r);
  }

  lemma U64RoundTrip(n: nat)
    ensures DecodeU64(EncodeU64(n)) == n % TWO_64
  {
    hide EncodeU32, DecodeU32;
    var hi := n / TWO_32;
    assert EncodeU64(n)[..4] == EncodeU32(n) && EncodeU64(n)[4..] == EncodeU32(hi);
    U32RoundTrip(n);
    U32RoundTrip(hi);
    Remainder64(hi / TWO_32, n % TWO_32 + TWO_32 * (hi % TWO_32));
  }

  /** `n` bytes at `pos`, or the failure of a read that meets the end of the file. */
  function Read(file: string, pos: nat, n: nat): Option<string> {
    if pos + n <= |file| then Some(file[pos..pos + n]) else None
  }

  function ReadU32(file: string, pos: nat): Option<nat> {
    if pos + 4 <= |file| then Some(DecodeU32(file[pos..pos + 4])) else None
  }

  function ReadU64(file: string, pos: nat): Option<nat> {
    if pos + 8 <= |file| then Some(DecodeU64(file[pos..pos + 8])) else None
  }

  /** `piece` lies in `file` at `pos`. */
  predicate LiesAt(file: string, pos: nat, piece: string) {
    pos + |piece| <= |file| && file[pos..pos + |piece|] == piece
  }

  lemma U32At(file: string, pos: nat, n: nat)
    requires LiesAt(file, pos, EncodeU32(n))
    ensures ReadU32(file, pos) == Some(n % TWO_32)
  {
    hide EncodeU32, DecodeU32;
    U32RoundTrip(n);
  }

  lemma U64At(file: string, pos: nat, n: nat)
    requires LiesAt(file, pos, EncodeU64(n))
    ensures ReadU64(file, pos) == Some(n % TWO_64)
  {
    hide EncodeU64, DecodeU64;
    U64RoundTrip(n);
  }

  lemma LiesConcat(file: string, pos: nat, a: string, b: string)
    requires LiesAt(file, pos, a + b)
    ensures LiesAt(file, pos, a) && LiesAt(file, pos + |a|, b)
  {
    LiesWithin(file, pos, a + b, [], a, b);
    LiesWithin(file, pos, a + b, a, b, []);
  }

  /** What lies in a piece lies in the file. */
  lemma LiesWithin(file: string, pos: nat, piece: string, before: string, part: string, after: string)
    requires LiesAt(file, pos, piece) && piece == before + part + after
    ensures LiesAt(file, pos + |before|, part)
  {
    SliceOfSlice(file, pos, pos + |piece|, |before|, |before| + |part|);
    assert part == piece[|before|..|before| + |part|];
  }

  lemma SliceOfSlice(s: string, a: nat, b: nat, i: nat, j: nat)
    requires a <= b <= |s| && i <= j <= b - a
    ensures s[a..b][i..j] == s[a + i..a + j]
  {
    var (x, y) := (s[a..b][i..j], s[a + i..a + j]);
    assert |x| == |y|;
    forall k | 0 <= k < |x| ensures x[k] == y[k] {
      assert x[k] == s[a..b][i + k] == s[a + i + k];
    }
  }
}

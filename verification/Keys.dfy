/** Keys and values are byte strings: a byte is a character whose code is below 256, and
    every result here holds for strings over any characters. `std::string` orders them
    lexicographically by unsigned character code. */
module Keys {

  /** `a < b` in the order of `std::string`. */
  predicate Less(a: string, b: string) {
    LessFrom(a, b, 0)
  }

  predicate LessFrom(a: string, b: string, i: nat)
    decreases |a| - i
  {
    if |b| <= i then false
    else if |a| <= i then true
    else a[i] < b[i] || (a[i] == b[i] && LessFrom(a, b, i + 1))
  }

  predicate AtMost(a: string, b: string) {
    a == b || Less(a, b)
  }

  lemma {:induction false} LessFromIrreflexive(a: string, i: nat)
    ensures !LessFrom(a, a, i)
    decreases |a| - i
  {
    if i < |a| {
      LessFromIrreflexive(a, i + 1);
    }
  }

  lemma {:induction false} LessFromAsymmetric(a: string, b: string, i: nat)
    requires LessFrom(a, b, i)
    ensures !LessFrom(b, a, i) && a != b
    decreases |a| - i
  {
    if i < |a| && a[i] == b[i] {
      LessFromAsymmetric(a, b, i + 1);
    }
  }

  lemma {:induction false} LessFromTransitive(a: string, b: string, c: string, i: nat)
    requires LessFrom(a, b, i) && LessFrom(b, c, i)
    ensures LessFrom(a, c, i)
    decreases |a| - i
  {
    if i < |a| && a[i] == b[i] && b[i] == c[i] {
      LessFromTransitive(a, b, c, i + 1);
    }
  }

  lemma {:induction false} LessFromTotal(a: string, b: string, i: nat)
    requires i <= |a| && i <= |b| && a[..i] == b[..i]
    ensures LessFrom(a, b, i) || a == b || LessFrom(b, a, i)
    decreases |a| - i
  {
    if i < |a| && i < |b| && a[i] == b[i] {
      assert a[..i + 1] == a[..i] + [a[i]] && b[..i + 1] == b[..i] + [b[i]];
      LessFromTotal(a, b, i + 1);
    } else if |a| == i && |b| == i {
      assert a == a[..i] && b == b[..i];
    }
  }

  lemma Irreflexive(a: string)
    ensures !Less(a, a)
  {
    LessFromIrreflexive(a, 0);
  }

  lemma Asymmetric(a: string, b: string)
    requires Less(a, b)
    ensures !Less(b, a) && a != b
  {
    LessFromAsymmetric(a, b, 0);
  }

  lemma Transitive(a: string, b: string, c: string)
    requires AtMost(a, b) && AtMost(b, c)
    ensures AtMost(a, c)
    ensures Less(a, b) || Less(b, c) ==> Less(a, c)
  {
    if Less(a, b) && Less(b, c) {
      LessFromTransitive(a, b, c, 0);
    }
  }

  lemma Total(a: string, b: string)
    ensures Less(a, b) || a == b || Less(b, a)
  {
    LessFromTotal(a, b, 0);
  }

  /** `key.rfind(prefix, 0) == 0`. */
  predicate HasPrefix(key: string, prefix: string) {
    |prefix| <= |key| && key[..|prefix|] == prefix
  }

  lemma {:induction false} PrefixFrom(prefix: string, key: string, i: nat)
    requires HasPrefix(key, prefix) && i <= |prefix|
    ensures key == prefix || LessFrom(prefix, key, i)
    decreases |prefix| - i
  {
    if i < |prefix| {
      assert key[i] == key[..|prefix|][i];
      PrefixFrom(prefix, key, i + 1);
    } else if |key| == |prefix| {
      assert key == key[..|prefix|];
    }
  }

  lemma {:induction false} PrefixBetweenFrom(prefix: string, a: string, b: string, i: nat)
    requires HasPrefix(b, prefix) && i <= |prefix|
    requires i <= |a| && a[..i] == prefix[..i]
    requires !LessFrom(a, prefix, i) && LessFrom(a, b, i)
    ensures HasPrefix(a, prefix)
    decreases |prefix| - i
  {
    if i < |prefix| {
      assert b[i] == b[..|prefix|][i];
      assert a[..i + 1] == a[..i] + [a[i]] && prefix[..i + 1] == prefix[..i] + [prefix[i]];
      PrefixBetweenFrom(prefix, a, b, i + 1);
    }
  }

  /** In byte order the keys with one prefix form a contiguous run that starts at the first
      key not below the prefix: this is what lets a scan stop at the first mismatch. */
  lemma PrefixRun(prefix: string, a: string, b: string)
    requires HasPrefix(b, prefix)
    ensures AtMost(prefix, b)
    ensures AtMost(prefix, a) && AtMost(a, b) ==> HasPrefix(a, prefix)
  {
    PrefixFrom(prefix, b, 0);
    if AtMost(prefix, a) && Less(a, b) {
      assert !Less(a, prefix) by {
        if a == prefix { Irreflexive(a); } else { Asymmetric(prefix, a); }
      }
      PrefixBetweenFrom(prefix, a, b, 0);
    }
  }
}

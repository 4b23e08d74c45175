/** Numbers as the clients put them in keys: eight digits with leading zeros, and when byte order is
    the order of the numbers. */
module PaddedKeys {
  import opened Keys
  import opened Decimal

  const WIDTH: nat := 8
  const TEN_TO_THE_8: nat := 100_000_000

  function Zeros(n: nat): (s: string)
    ensures |s| == n && forall i :: 0 <= i < n ==> s[i] == '0'
  {
    seq(n, _ => '0')
  }

  /** `{n:08d}`. */
  function Padded(n: nat): string {
    var d := Digits(n);
    Zeros(if |d| < WIDTH then WIDTH - |d| else 0) + d
  }

  lemma {:induction false} ZerosValue(k: nat, s: string)
    requires AllDigits(s)
    ensures AllDigits(Zeros(k) + s) && Value(Zeros(k) + s) == Value(s)
  {
    var t := Zeros(k) + s;
    if s != "" {
      assert t[..|t| - 1] == Zeros(k) + s[..|s| - 1];
      ZerosValue(k, s[..|s| - 1]);
    } else if k > 0 {
      assert t[..|t| - 1] == Zeros(k - 1) + "";
      ZerosValue(k - 1, "");
    }
  }

  /** The number can be read back, so different numbers have different keys. */
  lemma PaddedValue(n: nat)
    ensures AllDigits(Padded(n)) && Padded(n) != "" && Value(Padded(n)) == n
  {
    hide Digits, Value;
    ZerosValue(if |Digits(n)| < WIDTH then WIDTH - |Digits(n)| else 0, Digits(n));
    DigitsValue(n);
  }

  /** At least eight digits, with leading zeros only up to there: with its value, this is the text. */
  lemma PaddedText(n: nat)
    ensures |Padded(n)| >= 8 && AllDigits(Padded(n)) && Value(Padded(n)) == n
    ensures |Padded(n)| > 8 ==> Padded(n)[0] != '0'
  {
    hide Digits, Value;
    PaddedValue(n);
    if n > 0 {
      DigitsCanonical(n);
    } else {
      assert |Digits(0)| == 1 by { ZeroDigits(); }
    }
  }

  lemma ZeroDigits()
    ensures Digits(0) == "0"
  {
  }

  lemma PaddedInjective(a: nat, b: nat)
    requires Padded(a) == Padded(b)
    ensures a == b
  {
    hide Padded, Value;
    PaddedValue(a);
    PaddedValue(b);
  }

  function Power(k: nat): (p: nat)
    ensures p >= 1
  {
    if k == 0 then 1 else 10 * Power(k - 1)
  }

  lemma {:induction false} DigitsLength(n: nat, k: nat)
    requires k > 0
    ensures |Digits(n)| <= k <==> n < Power(k)
  {
    if k == 1 {
      assert Power(1) == 10 * Power(0);
      if n >= 10 { assert |Digits(n)| == |Digits(n / 10)| + 1; }
    } else if n >= 10 {
      DigitsLength(n / 10, k - 1);
      assert n / 10 < Power(k - 1) <==> n < 10 * Power(k - 1);
    } else {
      PowerGrows(k);
    }
  }

  lemma {:induction false} PowerGrows(k: nat)
    requires k > 0
    ensures Power(k) >= 10
  {
    if k > 1 { PowerGrows(k - 1); }
  }

  lemma WidthPower()
    ensures Power(WIDTH) == TEN_TO_THE_8
  {
    assert Power(1) == 10 && Power(2) == 100 && Power(3) == 1000 && Power(4) == 10_000;
    assert Power(5) == 100_000 && Power(6) == 1_000_000 && Power(7) == 10_000_000;
  }

  lemma PaddedLength(n: nat)
    ensures |Padded(n)| == WIDTH <==> n < TEN_TO_THE_8
  {
    hide Digits, Power;
    DigitsLength(n, WIDTH);
    WidthPower();
  }

  // ---- byte order of digits ----

  lemma {:induction false} LessExtends(a: string, b: string, c: char, d: char, i: nat)
    requires |a| == |b| && LessFrom(a, b, i)
    ensures LessFrom(a + [c], b + [d], i)
    decreases |a| - i
  {
    if a[i] == b[i] {
      LessExtends(a, b, c, d, i + 1);
    }
  }

  lemma {:induction false} LessAfter(p: string, a: string, b: string, i: nat)
    requires i <= |p|
    ensures LessFrom(p + a, p + b, i) <==> LessFrom(a, b, 0)
    decreases |p| - i
  {
    if i < |p| {
      LessAfter(p, a, b, i + 1);
    } else {
      LessShifted(p, a, b, 0);
    }
  }

  lemma {:induction false} LessShifted(p: string, a: string, b: string, i: nat)
    ensures LessFrom(p + a, p + b, |p| + i) <==> LessFrom(a, b, i)
    decreases |a| + |b| - i
  {
    if i < |a| && i < |b| && a[i] == b[i] {
      LessShifted(p, a, b, i + 1);
    }
  }

  /** Behind one prefix, order is that of what follows. */
  lemma SamePrefixOrder(p: string, a: string, b: string)
    ensures Less(p + a, p + b) <==> Less(a, b)
  {
    LessAfter(p, a, b, 0);
  }

  lemma {:induction false} SameValue(a: string, b: string)
    requires |a| == |b| && AllDigits(a) && AllDigits(b) && Value(a) == Value(b)
    ensures a == b
  {
    hide Value;
    if a != "" {
      var n := |a| - 1;
      ValueLast(a);
      ValueLast(b);
      SameValue(a[..n], b[..n]);
      SameButLast(a, b);
    }
  }

  lemma SameButLast(a: string, b: string)
    requires |a| == |b| > 0 && a[..|a| - 1] == b[..|a| - 1] && a[|a| - 1] == b[|a| - 1]
    ensures a == b
  {
    assert a == a[..|a| - 1] + [a[|a| - 1]] && b == b[..|a| - 1] + [b[|a| - 1]];
  }

  lemma LastDiffers(p: string, c: char, d: char)
    requires c < d
    ensures Less(p + [c], p + [d])
  {
    LessAfter(p, [c], [d], 0);
  }

  /** Among digit strings of one length byte order is numeric order. */
  lemma {:induction false} SameLengthOrder(a: string, b: string)
    requires |a| == |b| && AllDigits(a) && AllDigits(b) && Value(a) < Value(b)
    ensures Less(a, b)
  {
    var n := |a| - 1;
    var (s, t) := (a[..n], b[..n]);
    assert a == s + [a[n]] && b == t + [b[n]];
    if Value(s) < Value(t) {
      SameLengthOrder(s, t);
      LessExtends(s, t, a[n], b[n], 0);
    } else {
      SameValue(s, t);
      LastDiffers(s, a[n], b[n]);
    }
  }

  lemma PaddedOrder(a: nat, b: nat)
    requires a < b < TEN_TO_THE_8
    ensures Less(Padded(a), Padded(b))
  {
    hide Padded, Less, Value;
    PaddedLength(a);
    PaddedLength(b);
    PaddedValue(a);
    PaddedValue(b);
    SameLengthOrder(Padded(a), Padded(b));
  }

  lemma {:induction false} FirstDigit(n: nat, k: nat)
    requires Power(k) <= n < 2 * Power(k)
    ensures Digits(n)[0] == '1'
  {
    if k > 0 {
      assert Power(k) == 10 * Power(k - 1);
      PowerGrows(k);
      FirstDigit(n / 10, k - 1);
    }
  }

  lemma {:induction false} LastFullNumber(k: nat)
    requires k > 0
    ensures Digits(Power(k) - 1)[0] == '9'
  {
    if k > 1 {
      PowerGrows(k - 1);
      var n := Power(k) - 1;
      assert n / 10 == Power(k - 1) - 1;
      LastFullNumber(k - 1);
    }
  }

  /** The first number of nine digits sorts before the last of eight. */
  lemma PaddedOverflow()
    ensures Less(Padded(TEN_TO_THE_8), Padded(TEN_TO_THE_8 - 1))
  {
    hide Digits, Power;
    WidthPower();
    FirstDigit(TEN_TO_THE_8, WIDTH);
    LastFullNumber(WIDTH);
    DigitsLength(TEN_TO_THE_8, WIDTH);
    PaddedLength(TEN_TO_THE_8 - 1);
    DigitsLength(TEN_TO_THE_8 - 1, WIDTH);
    ShortByOne();
  }

  lemma ShortByOne()
    ensures |Digits(TEN_TO_THE_8 - 1)| == WIDTH
  {
    hide Digits, Power;
    WidthPower();
    assert Power(7) == 10_000_000 by { PowerSeven(); }
    DigitsLength(TEN_TO_THE_8 - 1, WIDTH);
    DigitsLength(TEN_TO_THE_8 - 1, 7);
  }

  lemma PowerSeven()
    ensures Power(7) == 10_000_000
  {
    assert Power(1) == 10 && Power(2) == 100 && Power(3) == 1000 && Power(4) == 10_000;
    assert Power(5) == 100_000 && Power(6) == 1_000_000;
  }

  ghost predicate KeysInOrder(n: nat) {
    forall i, j :: 0 <= i < j < n ==> Less(Padded(i), Padded(j))
  }

  /** The keys of the first `n` numbers are in order exactly up to 10^8. */
  lemma KeysInOrderIff(n: nat)
    ensures KeysInOrder(n) <==> n <= TEN_TO_THE_8
  {
    hide Padded, Less;
    if n <= TEN_TO_THE_8 {
      forall i, j | 0 <= i < j < n ensures Less(Padded(i), Padded(j)) {
        PaddedOrder(i, j);
      }
    } else {
      PaddedOverflow();
      if KeysInOrder(n) {
        Asymmetric(Padded(TEN_TO_THE_8 - 1), Padded(TEN_TO_THE_8));
      }
    }
  }
}

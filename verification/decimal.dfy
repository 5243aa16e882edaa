/** Decimal text of natural numbers, as Python's `str(n)`, `int(s)` and the
    `"%0.Ni"` format produce and read it. The reference-date code in
    bufr2nc.py goes through this text, so its slicing is modelled here. */
module Decimal {

  predicate IsDigit(c: char) {
    '0' <= c <= '9'
  }

  predicate IsDigits(s: string) {
    forall i :: 0 <= i < |s| ==> IsDigit(s[i])
  }

  function DigitChar(d: nat): (c: char)
    requires d < 10
    ensures IsDigit(c) && c as int - '0' as int == d
  {
    ('0' as int + d) as char
  }

  function Pow10(k: nat): (p: nat)
    ensures p >= 1
  {
    if k == 0 then 1 else 10 * Pow10(k - 1)
  }

  /** `int(s)` for a non-empty digit string; the empty string reads as 0 here
      and callers reject it separately, as `int('')` raises. */
  function Parse(s: string): nat
    requires IsDigits(s)
  {
    if s == [] then 0 else Parse(s[..|s| - 1]) * 10 + (s[|s| - 1] as int - '0' as int)
  }

  /** `str(n)`: the shortest decimal text of `n`. */
  function Show(n: nat): (s: string)
    ensures IsDigits(s) && |s| >= 1
    ensures Parse(s) == n
    ensures |s| > 1 ==> s[0] != '0'
    ensures n < 10 <==> |s| == 1
  {
    if n < 10 then [DigitChar(n)]
    else
      var s := Show(n / 10) + [DigitChar(n % 10)];
      assert s[..|s| - 1] == Show(n / 10);
      s
  }

  function Zeros(k: nat): (z: string)
    ensures |z| == k && IsDigits(z)
  {
    seq(k, _ => '0')
  }

  /** `"%0.<width>i" % n`: the decimal text of `n`, left-padded with zeros to
      at least `width` characters. */
  function Pad(n: nat, width: nat): (s: string)
    ensures IsDigits(s)
    ensures |s| == if |Show(n)| < width then width else |Show(n)|
    ensures Parse(s) == n
  {
    var t := Show(n);
    if |t| < width then
      ParseConcat(Zeros(width - |t|), t);
      ParseZeros(width - |t|);
      Zeros(width - |t|) + t
    else t
  }

  /** Python's `s[i:j]` for `0 <= i <= j`: both bounds clamp to the length. */
  function PySlice(s: string, i: nat, j: nat): (r: string)
    requires i <= j
    ensures |r| == (if j <= |s| then j - i else if i <= |s| then |s| - i else 0)
    ensures forall k :: 0 <= k < |r| ==> r[k] == s[i + k]
  {
    if i >= |s| then [] else if j >= |s| then s[i..] else s[i..j]
  }

  lemma {:induction false} ParseZeros(k: nat)
    ensures Parse(Zeros(k)) == 0
  {
    if k > 0 {
      assert Zeros(k)[..k - 1] == Zeros(k - 1);
      ParseZeros(k - 1);
    }
  }

  lemma DigitsConcat(a: string, b: string)
    requires IsDigits(a) && IsDigits(b)
    ensures IsDigits(a + b)
  {
    forall i | 0 <= i < |a + b| ensures IsDigit((a + b)[i]) {
      if i < |a| { assert (a + b)[i] == a[i]; } else { assert (a + b)[i] == b[i - |a|]; }
    }
  }

  /** Reading a concatenation: the left part is shifted by the right part's length. */
  lemma {:induction false} ParseConcat(a: string, b: string)
    requires IsDigits(a) && IsDigits(b)
    ensures IsDigits(a + b)
    ensures Parse(a + b) == Parse(a) * Pow10(|b|) + Parse(b)
  {
    DigitsConcat(a, b);
    if b == [] {
      assert a + b == a;
    } else {
      var b' := b[..|b| - 1];
      var d := b[|b| - 1] as int - '0' as int;
      assert (a + b)[..|a + b| - 1] == a + b';
      DigitsConcat(a, b');
      ParseConcat(a, b');
      var x, y := Parse(a) * Pow10(|b'|), Parse(b');
      assert Parse(a + b) == (x + y) * 10 + d;
      assert Parse(b) == y * 10 + d;
      assert Pow10(|b|) == 10 * Pow10(|b'|);
      MulAssoc(Parse(a), Pow10(|b'|), 10);
    }
  }

  lemma MulAssoc(a: int, b: int, c: int)
    ensures a * b * c == a * (c * b)
  {
  }

  lemma {:induction false} ParseUpperBound(s: string)
    requires IsDigits(s)
    ensures Parse(s) < Pow10(|s|)
  {
    if s != [] {
      ParseUpperBound(s[..|s| - 1]);
    }
  }

  lemma {:induction false} ParseLowerBound(s: string)
    requires IsDigits(s) && |s| >= 1 && s[0] != '0'
    ensures Parse(s) >= Pow10(|s| - 1)
  {
    if |s| > 1 {
      var s' := s[..|s| - 1];
      assert s'[0] == s[0];
      ParseLowerBound(s');
    }
  }

  /** The text of a number has exactly as many digits as its magnitude says. */
  lemma ShowLength(n: nat)
    ensures n < Pow10(|Show(n)|)
    ensures |Show(n)| > 1 ==> Pow10(|Show(n)| - 1) <= n
  {
    ParseUpperBound(Show(n));
    if |Show(n)| > 1 {
      ParseLowerBound(Show(n));
    }
  }

  /** `str(int(s)) == s` for a digit text without a leading zero. */
  lemma {:induction false} ShowParse(s: string)
    requires IsDigits(s) && |s| >= 1
    requires |s| > 1 ==> s[0] != '0'
    ensures Show(Parse(s)) == s
  {
    if |s| > 1 {
      var s' := s[..|s| - 1];
      assert s'[0] == s[0];
      ParseLowerBound(s');
      ShowParse(s');
      var d := s[|s| - 1] as int - '0' as int;
      assert Parse(s) / 10 == Parse(s') && Parse(s) % 10 == d;
      assert s == s' + [s[|s| - 1]];
    }
  }

  /** A number below `10^k` has at most `k` digits. */
  lemma {:induction false} ShowLengthAtMost(n: nat, k: nat)
    requires 1 <= k && n < Pow10(k)
    ensures |Show(n)| <= k
  {
    if n >= 10 {
      ShowLengthAtMost(n / 10, k - 1);
    }
  }

  /** A number in `[10^(k-1), 10^k)` has exactly `k` digits. */
  lemma ShowLengthExact(n: nat, k: nat)
    requires 1 <= k && n < Pow10(k)
    requires k > 1 ==> Pow10(k - 1) <= n
    ensures |Show(n)| == k
  {
    ShowLengthAtMost(n, k);
    ShowLength(n);
    if |Show(n)| < k {
      Pow10Monotone(|Show(n)|, k - 1);
    }
  }

  lemma TenDigits(n: nat)
    ensures |Show(n)| == 10 <==> 1000000000 <= n < 10000000000
  {
    ShowLength(n);
    assert Pow10(9) == 1000000000 && Pow10(10) == 10000000000;
    if 1000000000 <= n < 10000000000 {
      ShowLengthExact(n, 10);
    }
  }

  lemma {:induction false} Pow10Monotone(i: nat, j: nat)
    requires i <= j
    ensures Pow10(i) <= Pow10(j)
  {
    if i < j {
      Pow10Monotone(i, j - 1);
    }
  }
}

/** Hexadecimal digit strings: the digit alphabet, the value a digit string
    denotes (most significant digit first), the zero-padded lowercase rendering
    used by Go's `%016x` and the unpadded uppercase rendering used by `%X`. */
module HexText {

  predicate IsLowerHex(c: char) {
    '0' <= c <= '9' || 'a' <= c <= 'f'
  }

  predicate IsUpperHex(c: char) {
    '0' <= c <= '9' || 'A' <= c <= 'F'
  }

  /** Go's hexadecimal scanning accepts digits of either case. */
  predicate IsHexDigit(c: char) {
    IsLowerHex(c) || IsUpperHex(c)
  }

  predicate AllHex(s: seq<char>) {
    forall i :: 0 <= i < |s| ==> IsHexDigit(s[i])
  }

  predicate AllLowerHex(s: seq<char>) {
    forall i :: 0 <= i < |s| ==> IsLowerHex(s[i])
  }

  predicate AllUpperHex(s: seq<char>) {
    forall i :: 0 <= i < |s| ==> IsUpperHex(s[i])
  }

  function DigitValue(c: char): (d: nat)
    requires IsHexDigit(c)
    ensures d < 16
    ensures c == '0' <==> d == 0
  {
    if '0' <= c <= '9' then c as nat - '0' as nat
    else if 'a' <= c <= 'f' then c as nat - 'a' as nat + 10
    else c as nat - 'A' as nat + 10
  }

  function LowerDigit(d: nat): (c: char)
    requires d < 16
    ensures IsLowerHex(c) && DigitValue(c) == d
  {
    if d < 10 then ('0' as nat + d) as char else ('a' as nat + d - 10) as char
  }

  function UpperDigit(d: nat): (c: char)
    requires d < 16
    ensures IsUpperHex(c) && DigitValue(c) == d
  {
    if d < 10 then ('0' as nat + d) as char else ('A' as nat + d - 10) as char
  }

  function Pow16(k: nat): (p: nat)
    ensures p >= 1
  {
    if k == 0 then 1 else 16 * Pow16(k - 1)
  }

  /** The number a digit string denotes, most significant digit first. */
  function Value(s: seq<char>): nat
    requires AllHex(s)
  {
    if s == [] then 0 else Value(s[..|s| - 1]) * 16 + DigitValue(s[|s| - 1])
  }

  /** The last `width` hexadecimal digits of `n`, lowercase, zero-padded on
      the left: Go's `%0<width>x` for a value that fits. */
  function PadHex(n: nat, width: nat): (r: seq<char>)
    ensures |r| == width
    ensures AllLowerHex(r)
  {
    if width == 0 then [] else PadHex(n / 16, width - 1) + [LowerDigit(n % 16)]
  }

  /** The digits of `n` in uppercase with no leading zeros: Go's `%X`. */
  function UpperHex(n: nat): (r: seq<char>)
    ensures 1 <= |r|
    ensures AllUpperHex(r)
  {
    if n < 16 then [UpperDigit(n)] else UpperHex(n / 16) + [UpperDigit(n % 16)]
  }

  /** A digit string as `%X` prints it: uppercase with no superfluous leading zero. */
  predicate IsCanonicalUpper(s: seq<char>) {
    1 <= |s| && AllUpperHex(s) && (|s| > 1 ==> s[0] != '0')
  }

  lemma AllLowerIsHex(s: seq<char>)
    requires AllLowerHex(s)
    ensures AllHex(s)
  {
  }

  lemma AllUpperIsHex(s: seq<char>)
    requires AllUpperHex(s)
    ensures AllHex(s)
  {
  }

  /** Appending one digit multiplies by sixteen and adds the digit. */
  lemma ValueSnoc(s: seq<char>, c: char)
    requires AllHex(s) && IsHexDigit(c)
    ensures AllHex(s + [c])
    ensures Value(s + [c]) == Value(s) * 16 + DigitValue(c)
  {
    assert (s + [c])[..|s|] == s;
  }

  /** A string of `k` digits denotes a number below 16^k. */
  lemma {:induction false} ValueBound(s: seq<char>)
    requires AllHex(s)
    ensures Value(s) < Pow16(|s|)
  {
    if s != [] {
      ValueBound(s[..|s| - 1]);
    }
  }

  lemma DivModStep(n: nat, p: nat)
    requires p >= 1
    ensures (n / 16) % p * 16 + n % 16 == n % (16 * p)
  {
    var q := n / 16;
    var a := q / p;
    var b := q % p;
    assert q == p * a + b;
    assert n == 16 * q + n % 16;
    assert n == (16 * p) * a + (16 * b + n % 16);
    assert 0 <= 16 * b + n % 16 < 16 * p;
    ModOfDecomposition(n, 16 * p, a, 16 * b + n % 16);
  }

  lemma ModOfDecomposition(n: nat, d: nat, q: nat, r: nat)
    requires d >= 1 && r < d && n == d * q + r
    ensures n % d == r
  {
    var q', r' := n / d, n % d;
    assert n == d * q' + r';
    if q > q' {
      MulGap(d, q, q');
    } else if q < q' {
      MulGap(d, q', q);
    }
  }

  lemma MulGap(d: nat, a: nat, b: nat)
    requires a > b
    ensures d * a - d * b >= d
  {
    var k := a - b;
    assert d * a == d * b + d * k;
    MulAtLeast(d, k);
  }

  lemma {:induction false} MulAtLeast(d: nat, k: nat)
    requires k >= 1
    ensures d * k >= d
  {
    if k > 1 {
      MulAtLeast(d, k - 1);
      assert d * k == d * (k - 1) + d;
    }
  }

  /** `PadHex` keeps exactly the low `width` digits of its argument. */
  lemma {:induction false} PadHexValue(n: nat, width: nat)
    ensures AllHex(PadHex(n, width))
    ensures Value(PadHex(n, width)) == n % Pow16(width)
  {
    AllLowerIsHex(PadHex(n, width));
    if width > 0 {
      PadHexValue(n / 16, width - 1);
      ValueSnoc(PadHex(n / 16, width - 1), LowerDigit(n % 16));
      DivModStep(n, Pow16(width - 1));
    }
  }

  /** A lowercase digit string is the padded rendering of its own value. */
  lemma {:induction false} PadHexOfValue(s: seq<char>)
    requires AllLowerHex(s)
    ensures AllHex(s)
    ensures PadHex(Value(s), |s|) == s
  {
    AllLowerIsHex(s);
    if s != [] {
      var init := s[..|s| - 1];
      var last := s[|s| - 1];
      PadHexOfValue(init);
      var n := Value(s);
      assert n == Value(init) * 16 + DigitValue(last);
      assert n / 16 == Value(init) && n % 16 == DigitValue(last);
      assert LowerDigit(DigitValue(last)) == last;
      assert s == init + [last];
    }
  }

  /** Zero pads to all zeros. */
  lemma {:induction false} PadHexZero(w: nat)
    ensures PadHex(0, w) == seq(w, i => '0')
  {
    if w > 0 {
      PadHexZero(w - 1);
    }
  }

  /** `UpperHex` denotes its argument. */
  lemma {:induction false} UpperHexValue(n: nat)
    ensures AllHex(UpperHex(n))
    ensures Value(UpperHex(n)) == n
  {
    AllUpperIsHex(UpperHex(n));
    if n < 16 {
      assert UpperHex(n)[..0] == [];
    } else {
      UpperHexValue(n / 16);
      ValueSnoc(UpperHex(n / 16), UpperDigit(n % 16));
    }
  }

  /** `UpperHex` never prints a superfluous leading zero, and a value below
      16^k takes at most `k` digits. */
  lemma {:induction false} UpperHexShape(n: nat, k: nat)
    requires 1 <= k && n < Pow16(k)
    ensures IsCanonicalUpper(UpperHex(n))
    ensures |UpperHex(n)| <= k
  {
    if n >= 16 {
      assert Pow16(k) == 16 * Pow16(k - 1);
      assert k - 1 >= 1;
      assert n / 16 < Pow16(k - 1);
      UpperHexShape(n / 16, k - 1);
      assert UpperHex(n)[0] == UpperHex(n / 16)[0];
    }
  }

  /** A canonical uppercase digit string is the `%X` rendering of its value. */
  lemma {:induction false} UpperHexOfValue(s: seq<char>)
    requires IsCanonicalUpper(s)
    ensures AllHex(s)
    ensures UpperHex(Value(s)) == s
  {
    AllUpperIsHex(s);
    if |s| == 1 {
      assert s[..0] == [];
      assert UpperDigit(DigitValue(s[0])) == s[0];
    } else {
      var init := s[..|s| - 1];
      var last := s[|s| - 1];
      assert init[0] == s[0];
      UpperHexOfValue(init);
      LeadingDigitPositive(init);
      var n := Value(s);
      assert n == Value(init) * 16 + DigitValue(last);
      assert n / 16 == Value(init) && n % 16 == DigitValue(last);
      assert UpperDigit(DigitValue(last)) == last;
      assert s == init + [last];
    }
  }

  /** A digit string with a nonzero leading digit denotes a positive number. */
  lemma {:induction false} LeadingDigitPositive(s: seq<char>)
    requires AllHex(s) && 1 <= |s| && s[0] != '0'
    ensures Value(s) >= 1
  {
    if |s| == 1 {
      assert s[..0] == [];
    } else {
      assert s[..|s| - 1][0] == s[0];
      LeadingDigitPositive(s[..|s| - 1]);
    }
  }
}

// Positional numerals, most significant digit first, and the lexicographic order on digit sequences.

module Positional {
  type Byte = x: int | 0 <= x < 256

  function Pow(base: nat, exponent: nat): nat {
    if exponent == 0 then 1 else base * Pow(base, exponent - 1)
  }

  ghost predicate AllDigits(base: nat, s: seq<int>) {
    forall i :: 0 <= i < |s| ==> 0 <= s[i] < base
  }

  // The number a digit sequence denotes.
  function Eval(base: nat, s: seq<int>): int {
    if s == [] then 0 else Eval(base, s[..|s| - 1]) * base + s[|s| - 1]
  }

  // The last `width` digits of n.
  function ToDigits(base: nat, width: nat, n: nat): (s: seq<int>)
    requires base > 0
    ensures |s| == width
    ensures AllDigits(base, s)
  {
    if width == 0 then [] else ToDigits(base, width - 1, n / base) + [n % base]
  }

  predicate LexLess(a: seq<int>, b: seq<int>) {
    if b == [] then false
    else if a == [] then true
    else a[0] < b[0] || (a[0] == b[0] && LexLess(a[1..], b[1..]))
  }

  function Codes(s: string): (r: seq<int>)
    ensures |r| == |s|
    ensures forall i :: 0 <= i < |s| ==> r[i] == s[i] as int
  {
    seq(|s|, i requires 0 <= i < |s| => s[i] as int)
  }

  function HexDigit(n: int): (c: char)
    requires 0 <= n < 16
    ensures '0' <= c <= '9' || 'a' <= c <= 'f'
  {
    if n < 10 then '0' + n as char else 'a' + (n - 10) as char
  }

  lemma HexDigitMeans(n: nat)
    requires n < 16
    ensures HexDigit(n) == "0123456789abcdef"[n]
  {}

  // Byte-wise order of strings.
  predicate StringLess(a: string, b: string) {
    LexLess(Codes(a), Codes(b))
  }

  lemma {:induction false} LexDiffers(a: seq<int>, b: seq<int>) returns (k: nat)
    requires LexLess(a, b)
    ensures k <= |a| && k < |b| && a[..k] == b[..k] && (k == |a| || a[k] < b[k])
  {
    k := 0;
    if a != [] && a[0] == b[0] {
      k := LexDiffers(a[1..], b[1..]);
      assert a[..k + 1] == [a[0]] + a[1..][..k] && b[..k + 1] == [b[0]] + b[1..][..k];
      k := k + 1;
    }
  }

  lemma {:induction false} LexAt(a: seq<int>, b: seq<int>, k: nat)
    requires k <= |a| && k < |b| && a[..k] == b[..k] && (k == |a| || a[k] < b[k])
    ensures LexLess(a, b)
    decreases k
  {
    if k > 0 {
      assert a[0] == a[..k][0] == b[..k][0] == b[0];
      assert a[1..][..k - 1] == a[..k][1..] && b[1..][..k - 1] == b[..k][1..];
      LexAt(a[1..], b[1..], k - 1);
    }
  }

  lemma CodesPrefix(a: string, b: string, k: nat)
    requires k <= |a| && k <= |b|
    ensures Codes(a)[..k] == Codes(b)[..k] <==> a[..k] == b[..k]
  {
    if Codes(a)[..k] == Codes(b)[..k] {
      forall i | 0 <= i < k ensures a[i] == b[i] { assert Codes(a)[..k][i] == Codes(b)[..k][i]; }
    }
    if a[..k] == b[..k] {
      forall i | 0 <= i < k ensures Codes(a)[i] == Codes(b)[i] { assert a[..k][i] == b[..k][i]; }
    }
  }

  // At the first place where they differ, one string ends or has the smaller character.
  lemma StringLessMeans(a: string, b: string)
    ensures StringLess(a, b) <==>
      exists k :: 0 <= k <= |a| && k < |b| && a[..k] == b[..k] && (k == |a| || a[k] < b[k])
  {
    if StringLess(a, b) {
      var k := LexDiffers(Codes(a), Codes(b));
      CodesPrefix(a, b, k);
    }
    if k :| 0 <= k <= |a| && k < |b| && a[..k] == b[..k] && (k == |a| || a[k] < b[k]) {
      CodesPrefix(a, b, k);
      LexAt(Codes(a), Codes(b), k);
    }
  }

  lemma {:induction false} EvalBound(base: nat, s: seq<int>)
    requires AllDigits(base, s)
    ensures 0 <= Eval(base, s) < Pow(base, |s|)
  {
    if s != [] {
      var front, last := s[..|s| - 1], s[|s| - 1];
      EvalBound(base, front);
      AppendDigitBound(Eval(base, front), Pow(base, |front|), base, last);
    }
  }

  lemma AppendDigitBound(e: int, p: int, base: int, digit: int)
    requires 0 <= e < p && 0 <= digit < base
    ensures 0 <= e * base + digit < base * p
  {
    MulMonotone(e + 1, p, base);
    MulMonotone(0, e, base);
  }

  lemma MulMonotone(x: int, y: int, k: nat)
    requires x <= y
    ensures x * k <= y * k
  {
    ProductNonNegative(y - x, k);
    assert (y - x) * k == y * k - x * k;
  }

  lemma ProductNonNegative(a: nat, b: nat)
    ensures a * b >= 0
  {}

  lemma MulAssociates(a: int, b: int, c: int)
    ensures a * (b * c) == (a * b) * c
  {}

  lemma ConsArithmetic(base: int, d: int, p: int, e: int)
    ensures (d * p + e) * base == d * (base * p) + e * base
  {
    assert d * (base * p) == d * p * base;
  }

  lemma {:induction false} EvalCons(base: nat, d: int, s: seq<int>)
    ensures Eval(base, [d] + s) == d * Pow(base, |s|) + Eval(base, s)
  {
    if s == [] {
      assert ([d] + s)[..0] == [];
    } else {
      var front, last := s[..|s| - 1], s[|s| - 1];
      assert ([d] + s)[..|s|] == [d] + front;
      EvalCons(base, d, front);
      ConsArithmetic(base, d, Pow(base, |front|), Eval(base, front));
    }
  }

  lemma {:induction false} PowLeadingDigit(base: nat, s: seq<int>)
    requires AllDigits(base, s) && s != [] && s[0] != 0
    ensures Pow(base, |s| - 1) <= Eval(base, s)
  {
    assert s == [s[0]] + s[1..];
    EvalCons(base, s[0], s[1..]);
    EvalBound(base, s[1..]);
    MulMonotone(1, s[0], Pow(base, |s| - 1));
  }

  lemma {:induction false} PowMonotone(base: nat, i: nat, j: nat)
    requires base > 0 && i <= j
    ensures 0 < Pow(base, i) <= Pow(base, j)
    decreases j
  {
    if i < j {
      PowMonotone(base, i, j - 1);
      MulMonotone(1, base, Pow(base, j - 1));
    } else if i > 0 {
      PowMonotone(base, i - 1, i - 1);
      MulMonotone(1, base, Pow(base, i - 1));
    }
  }

  lemma {:induction false} PowSum(base: nat, i: nat, j: nat)
    ensures Pow(base, i + j) == Pow(base, i) * Pow(base, j)
  {
    if i > 0 {
      PowSum(base, i - 1, j);
      MulAssociates(base, Pow(base, i - 1), Pow(base, j));
    }
  }

  lemma DivModUnique(base: nat, q: int, r: int)
    requires base > 0 && 0 <= r < base
    ensures (q * base + r) / base == q && (q * base + r) % base == r
  {
    var n := q * base + r;
    var d := n / base - q;
    assert n == base * (n / base) + n % base;
    assert d * base == r - n % base;
    if d >= 1 { MulMonotone(1, d, base); } else if d <= -1 { MulMonotone(d, -1, base); }
  }

  // Fixed-width digits and values determine each other.
  lemma {:induction false} DigitsOfEval(base: nat, s: seq<int>)
    requires base > 0 && AllDigits(base, s)
    ensures Eval(base, s) >= 0 && ToDigits(base, |s|, Eval(base, s)) == s
  {
    EvalBound(base, s);
    if s != [] {
      var front, last := s[..|s| - 1], s[|s| - 1];
      EvalBound(base, front);
      DigitsOfEval(base, front);
      DivModUnique(base, Eval(base, front), last);
      assert s == front + [last];
    }
  }

  lemma QuotientBound(n: nat, base: nat, p: nat)
    requires base > 0 && n < base * p
    ensures n / base < p && n == (n / base) * base + n % base
  {
    if n / base >= p { MulMonotone(p, n / base, base); }
  }

  lemma {:induction false} EvalOfDigits(base: nat, width: nat, n: nat)
    requires base > 0 && n < Pow(base, width)
    ensures Eval(base, ToDigits(base, width, n)) == n
  {
    if width > 0 {
      QuotientBound(n, base, Pow(base, width - 1));
      EvalOfDigits(base, width - 1, n / base);
      var s := ToDigits(base, width, n);
      assert s[..|s| - 1] == ToDigits(base, width - 1, n / base);
    }
  }

  lemma HeadDecides(p: nat, x: int, xRest: int, y: int, yRest: int)
    requires x < y && xRest < p && 0 <= yRest
    ensures x * p + xRest < y * p + yRest
  {
    MulMonotone(x + 1, y, p);
  }

  // Between numerals of one width, lexicographic order is numeric order.
  lemma {:induction false} LexIsNumeric(base: nat, a: seq<int>, b: seq<int>)
    requires AllDigits(base, a) && AllDigits(base, b) && |a| == |b|
    ensures LexLess(a, b) <==> Eval(base, a) < Eval(base, b)
  {
    if a != [] {
      var p := Pow(base, |a| - 1);
      assert a == [a[0]] + a[1..] && b == [b[0]] + b[1..];
      EvalCons(base, a[0], a[1..]);
      EvalCons(base, b[0], b[1..]);
      EvalBound(base, a[1..]);
      EvalBound(base, b[1..]);
      LexIsNumeric(base, a[1..], b[1..]);
      if a[0] < b[0] {
        HeadDecides(p, a[0], Eval(base, a[1..]), b[0], Eval(base, b[1..]));
      } else if b[0] < a[0] {
        HeadDecides(p, b[0], Eval(base, b[1..]), a[0], Eval(base, a[1..]));
      }
    }
  }
}

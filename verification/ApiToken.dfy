// API tokens: base-62 text of 32 random bytes (internal/apitoken/apitoken.go).

module ApiToken {
  import opened Prelude
  import opened Positional

  const TOKEN_PREFIX := "agyn_"
  const TOKEN_RANDOM_CHARS := 44
  const DIGITS := "0123456789"
  const UPPER := "ABCDEFGHIJKLMNOPQRSTUVWXYZ"
  const LOWER := "abcdefghijklmnopqrstuvwxyz"
  const ALPHABET := DIGITS + UPPER + LOWER

  datatype GeneratedToken = GeneratedToken(plaintext: string, hash: string, tokenPrefix: string)

  datatype GenerateError = RandomnessUnavailable | TokenTooLong(length: int)

  // The decoder: what a character of a token is worth, -1 outside the alphabet.
  function DigitOf(c: char): int {
    if '0' <= c <= '9' then c as int - '0' as int
    else if 'A' <= c <= 'Z' then c as int - 'A' as int + 10
    else if 'a' <= c <= 'z' then c as int - 'a' as int + 36
    else -1
  }

  function DigitsOf(s: string): (r: seq<int>)
    ensures |r| == |s|
    ensures forall i :: 0 <= i < |s| ==> r[i] == DigitOf(s[i])
  {
    seq(|s|, i requires 0 <= i < |s| => DigitOf(s[i]))
  }

  ghost predicate IsNumeral(s: string) {
    AllDigits(62, DigitsOf(s))
  }

  function Value62(s: string): int {
    Eval(62, DigitsOf(s))
  }

  // Recovers the random bytes from a token.
  function DecodeToken(plaintext: string): seq<int>
    requires |plaintext| >= |TOKEN_PREFIX| && Value62(plaintext[|TOKEN_PREFIX|..]) >= 0
  {
    ToDigits(256, 32, Value62(plaintext[|TOKEN_PREFIX|..]))
  }

  // plaintext is the prefix followed by the fixed-width base-62 numeral of the bytes' value.
  ghost predicate IsTokenFor(bytes: seq<Byte>, plaintext: string) {
    && |plaintext| == |TOKEN_PREFIX| + TOKEN_RANDOM_CHARS
    && plaintext[..|TOKEN_PREFIX|] == TOKEN_PREFIX
    && IsNumeral(plaintext[|TOKEN_PREFIX|..])
    && Value62(plaintext[|TOKEN_PREFIX|..]) == Eval(256, bytes)
  }

  // The characters of s are worth from, from + 1, and so on.
  ghost predicate WorthFrom(s: string, from: nat) {
    forall i :: 0 <= i < |s| ==> DigitOf(s[i]) == from + i
  }

  lemma DigitsWorth()
    ensures |DIGITS| == 10 && WorthFrom(DIGITS, 0)
  {}

  lemma UpperWorth()
    ensures |UPPER| == 26 && WorthFrom(UPPER, 10)
  {}

  lemma LowerWorth()
    ensures |LOWER| == 26 && WorthFrom(LOWER, 36)
  {}

  lemma WorthAppend(s: string, t: string, from: nat)
    requires WorthFrom(s, from) && WorthFrom(t, from + |s|)
    ensures WorthFrom(s + t, from)
  {}

  lemma AlphabetDigits(d: nat)
    requires d < 62
    ensures |ALPHABET| == 62 && DigitOf(ALPHABET[d]) == d
  {
    DigitsWorth();
    UpperWorth();
    LowerWorth();
    WorthAppend(DIGITS, UPPER, 0);
    WorthAppend(DIGITS + UPPER, LOWER, 0);
    assert WorthFrom(ALPHABET, 0);
  }

  // The base-62 text of a big-endian byte string: the canonical numeral (no leading zero) of its value.
  method EncodeBase62(input: seq<Byte>) returns (encoded: string)
    ensures IsNumeral(encoded) && Value62(encoded) == Eval(256, input)
    ensures encoded == "0" || (encoded != "" && encoded[0] != '0')
  {
    EvalBound(256, input);
    var value: nat := Eval(256, input);
    if value == 0 {
      encoded := "0";
      assert DigitsOf("0") == [0];
      assert [0][..0] == [];
      return;
    }
    encoded := [];
    ghost var big: seq<int> := [];
    while value > 0
      invariant |big| == |encoded| && AllDigits(62, big)
      invariant forall i :: 0 <= i < |big| ==> DigitOf(encoded[|big| - 1 - i]) == big[i]
      invariant value * Pow(62, |big|) + Eval(62, big) == Eval(256, input)
      invariant value == 0 ==> big != [] && big[0] != 0
    {
      var mod := value % 62;
      AlphabetDigits(mod);
      DivModStep(value, mod, big);
      value := value / 62;
      encoded := encoded + [ALPHABET[mod]];
      big := [mod] + big;
    }
    encoded := Reverse(encoded);
    assert DigitsOf(encoded) == big;
    assert DigitOf(encoded[0]) == big[0] && DigitOf('0') == 0;
  }

  // The two-index swap loop at the end of the encoder.
  method Reverse(s: string) returns (r: string)
    ensures |r| == |s| && forall k :: 0 <= k < |s| ==> r[k] == s[|s| - 1 - k]
  {
    r := s;
    var i, j := 0, |r| - 1;
    while i < j
      invariant 0 <= i <= j + 1 && i + j == |s| - 1 && |r| == |s|
      invariant forall k :: i <= k <= j ==> r[k] == s[k]
      invariant forall k :: 0 <= k < i ==> r[k] == s[|s| - 1 - k] && r[|s| - 1 - k] == s[k]
    {
      assert j == |s| - 1 - i;
      r := r[i := r[j]][j := r[i]];
      i, j := i + 1, j - 1;
    }
  }

  // Moving the low digit of value into the numeral keeps the number they denote together.
  lemma DivModStep(value: nat, mod: nat, big: seq<int>)
    requires mod == value % 62
    ensures (value / 62) * Pow(62, |big| + 1) + Eval(62, [mod] + big) == value * Pow(62, |big|) + Eval(62, big)
  {
    EvalCons(62, mod, big);
    var q, p := value / 62, Pow(62, |big|);
    assert value == q * 62 + mod;
    assert Pow(62, |big| + 1) == 62 * p;
    ScaleSplit(q, mod, p, Eval(62, big));
  }

  lemma ScaleSplit(q: int, r: int, p: int, e: int)
    ensures q * (62 * p) + (r * p + e) == (q * 62 + r) * p + e
  {}

  // 2^256 < 62^43, so 43 digits always suffice for 32 bytes.
  lemma {:induction false} LengthBound(input: seq<Byte>, encoded: string)
    requires |input| == 32
    requires IsNumeral(encoded) && Value62(encoded) == Eval(256, input)
    requires encoded == "0" || (encoded != "" && encoded[0] != '0')
    ensures |encoded| <= 43
  {
    if |encoded| > 43 {
      EvalBound(256, input);
      assert encoded[0] != '0';
      assert DigitsOf(encoded)[0] != 0;
      PowLeadingDigit(62, DigitsOf(encoded));
      PowMonotone(62, 43, |encoded| - 1);
      ThirtyTwoBytesFit();
    }
  }

  lemma ThirtyTwoBytesFit()
    ensures Pow(256, 32) < Pow(62, 43)
  {
    PowSum(256, 4, 4);
    PowSum(256, 8, 8);
    PowSum(256, 16, 16);
    PowSum(62, 5, 5);
    PowSum(62, 10, 10);
    PowSum(62, 20, 20);
    PowSum(62, 40, 3);
  }

  lemma {:induction false} LeadingZeros(zeros: string, s: string)
    requires forall i :: 0 <= i < |zeros| ==> zeros[i] == '0'
    ensures IsNumeral(s) ==> IsNumeral(zeros + s)
    ensures Value62(zeros + s) == Value62(s)
  {
    if zeros == "" {
      assert zeros + s == s;
    } else {
      LeadingZeros(zeros[1..], s);
      assert DigitsOf(zeros + s) == [0] + DigitsOf(zeros[1..] + s);
      EvalCons(62, 0, DigitsOf(zeros[1..] + s));
    }
  }

  // Generate on the bytes the random source delivered (None when it failed). The too-long error never happens.
  method Generate(random: Option<seq<Byte>>, sha256Hex: string -> string)
    returns (r: Result<GeneratedToken, GenerateError>)
    requires random.Some? ==> |random.value| == 32
    ensures r.Err? <==> random.None?
    ensures r.Err? ==> r.error == RandomnessUnavailable
    ensures r.Ok? ==> IsTokenFor(random.value, r.value.plaintext)
    ensures r.Ok? ==> |r.value.plaintext| == 49 && r.value.plaintext[..6] == "agyn_0"
    ensures r.Ok? ==> |r.value.tokenPrefix| == 8 && r.value.tokenPrefix <= r.value.plaintext
    ensures r.Ok? ==> r.value.hash == sha256Hex(r.value.plaintext)
  {
    if random.None? {
      return Err(RandomnessUnavailable);
    }
    var encoded := EncodeBase62(random.value);
    LengthBound(random.value, encoded);
    if |encoded| > TOKEN_RANDOM_CHARS {
      return Err(TokenTooLong(|encoded|));
    }
    if |encoded| < TOKEN_RANDOM_CHARS {
      var zeros := seq(TOKEN_RANDOM_CHARS - |encoded|, _ => '0');
      LeadingZeros(zeros, encoded);
      encoded := zeros + encoded;
      assert encoded[0] == '0';
    }
    var plaintext := TOKEN_PREFIX + encoded;
    assert plaintext[|TOKEN_PREFIX|..] == encoded;
    assert plaintext[..6] == TOKEN_PREFIX + [encoded[0]];
    return Ok(GeneratedToken(plaintext, sha256Hex(plaintext), plaintext[..8]));
  }

  // Decoding a token gives back the bytes it was made from.
  lemma TokenRoundTrip(bytes: seq<Byte>, plaintext: string)
    requires |bytes| == 32 && IsTokenFor(bytes, plaintext)
    ensures Value62(plaintext[|TOKEN_PREFIX|..]) >= 0 && DecodeToken(plaintext) == bytes
  {
    DigitsOfEval(256, bytes);
  }

  // Different bytes give different tokens, and the bytes determine the token.
  lemma TokenInjective(a: seq<Byte>, s: string, b: seq<Byte>, t: string)
    requires |a| == 32 && |b| == 32 && IsTokenFor(a, s) && IsTokenFor(b, t)
    ensures s == t <==> a == b
  {
    TokenRoundTrip(a, s);
    TokenRoundTrip(b, t);
    if a == b {
      var x, y := s[|TOKEN_PREFIX|..], t[|TOKEN_PREFIX|..];
      DigitsOfEval(62, DigitsOf(x));
      DigitsOfEval(62, DigitsOf(y));
      forall i | 0 <= i < |x| ensures x[i] == y[i] {
        assert DigitsOf(x)[i] == DigitsOf(y)[i];
        DigitDeterminesChar(x[i], y[i]);
      }
      assert s == s[..|TOKEN_PREFIX|] + x && t == t[..|TOKEN_PREFIX|] + y;
    }
  }

  lemma DigitDeterminesChar(c: char, d: char)
    requires DigitOf(c) >= 0 && DigitOf(d) >= 0
    ensures c < d <==> DigitOf(c) < DigitOf(d)
    ensures c == d <==> DigitOf(c) == DigitOf(d)
  {}

  lemma {:induction false} NumeralOrder(x: string, y: string)
    requires IsNumeral(x) && IsNumeral(y)
    ensures LexLess(Codes(x), Codes(y)) <==> LexLess(DigitsOf(x), DigitsOf(y))
  {
    if x != "" && y != "" {
      assert DigitsOf(x)[1..] == DigitsOf(x[1..]) && DigitsOf(y)[1..] == DigitsOf(y[1..]);
      assert Codes(x)[1..] == Codes(x[1..]) && Codes(y)[1..] == Codes(y[1..]);
      assert DigitOf(x[0]) == DigitsOf(x)[0] && DigitOf(y[0]) == DigitsOf(y)[0];
      NumeralOrder(x[1..], y[1..]);
      DigitDeterminesChar(x[0], y[0]);
    }
  }

  lemma CodesTail(p: string, x: string)
    requires p != ""
    ensures Codes(p + x) != [] && Codes(p + x)[0] == p[0] as int && Codes(p + x)[1..] == Codes(p[1..] + x)
  {}

  lemma {:induction false} CommonPrefixOrder(p: string, x: string, y: string)
    ensures StringLess(p + x, p + y) <==> StringLess(x, y)
  {
    if p == "" {
      assert p + x == x && p + y == y;
    } else {
      CommonPrefixOrder(p[1..], x, y);
      CodesTail(p, x);
      CodesTail(p, y);
    }
  }

  // Sorting tokens as text sorts the random bytes they carry.
  lemma TokenOrder(a: seq<Byte>, s: string, b: seq<Byte>, t: string)
    requires |a| == 32 && |b| == 32 && IsTokenFor(a, s) && IsTokenFor(b, t)
    ensures StringLess(s, t) <==> LexLess(a, b)
  {
    var x, y := s[|TOKEN_PREFIX|..], t[|TOKEN_PREFIX|..];
    assert s == TOKEN_PREFIX + x && t == TOKEN_PREFIX + y;
    CommonPrefixOrder(TOKEN_PREFIX, x, y);
    NumeralOrder(x, y);
    LexIsNumeric(62, DigitsOf(x), DigitsOf(y));
    LexIsNumeric(256, a, b);
  }
}

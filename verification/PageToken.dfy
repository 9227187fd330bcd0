// Page tokens: the text form of a UUID (section 4 of RFC 9562) in unpadded base64url (section 5 of RFC 4648).

module PageToken {
  import opened Prelude
  import opened Positional
  import opened Pagination

  datatype TokenError = EmptyToken | BadBase64 | BadUuid

  // ---- UUID text

  function HexValue(c: char): int {
    if '0' <= c <= '9' then c as int - '0' as int
    else if 'a' <= c <= 'f' then c as int - 'a' as int + 10
    else if 'A' <= c <= 'F' then c as int - 'A' as int + 10
    else -1
  }

  function HexText(digits: seq<int>): (s: string)
    requires forall i :: 0 <= i < |digits| ==> 0 <= digits[i] < 16
    ensures |s| == |digits|
    ensures forall i :: 0 <= i < |s| ==> s[i] == HexDigit(digits[i])
  {
    seq(|digits|, i requires 0 <= i < |digits| => HexDigit(digits[i]))
  }

  function HexValues(s: string): (digits: seq<int>)
    ensures |digits| == |s|
    ensures forall i :: 0 <= i < |s| ==> digits[i] == HexValue(s[i])
  {
    seq(|s|, i requires 0 <= i < |s| => HexValue(s[i]))
  }

  function Dashed(hex: string): (s: string)
    requires |hex| == 32
    ensures |s| == 36
  {
    hex[..8] + "-" + hex[8..12] + "-" + hex[12..16] + "-" + hex[16..20] + "-" + hex[20..]
  }

  function Undashed(s: string): Option<string> {
    if |s| != 36 || s[8] != '-' || s[13] != '-' || s[18] != '-' || s[23] != '-' then None
    else Some(s[..8] + s[9..13] + s[14..18] + s[19..23] + s[24..])
  }

  lemma DashesRoundTrip(hex: string)
    requires |hex| == 32
    ensures Undashed(Dashed(hex)) == Some(hex)
  {
    var s := Dashed(hex);
    assert s[..8] == hex[..8] && s[9..13] == hex[8..12] && s[14..18] == hex[12..16];
    assert s[19..23] == hex[16..20] && s[24..] == hex[20..];
    assert hex[..8] + hex[8..12] + hex[12..16] + hex[16..20] + hex[20..] == hex;
  }

  function UuidText(id: Uuid): (s: string)
    ensures |s| == 36
  {
    Dashed(HexText(ToDigits(16, 32, id)))
  }

  function ParseHex(hex: string): Option<Uuid>
    requires |hex| == 32
  {
    var digits := HexValues(hex);
    if forall i :: 0 <= i < |digits| ==> 0 <= digits[i] < 16 then
      HexInRange(digits);
      Some(Eval(16, digits))
    else None
  }

  const URN_PREFIX := "urn:uuid:"

  predicate HasUrnPrefix(s: string) {
    |URN_PREFIX| <= |s| && forall i :: 0 <= i < |URN_PREFIX| ==>
      s[i] == URN_PREFIX[i] || ('A' <= s[i] <= 'Z' && s[i] as int + 32 == URN_PREFIX[i] as int)
  }

  // uuid.Parse: 36 characters with dashes, the same behind "urn:uuid:" or between any two characters, or 32 without.
  function ParseUuid(s: string): Option<Uuid> {
    if |s| == 32 then ParseHex(s)
    else
      var text := if |s| == 45 && HasUrnPrefix(s) then s[9..] else if |s| == 38 then s[1..37] else s;
      var hex := Undashed(text);
      if hex.None? then None else ParseHex(hex.value)
  }

  lemma UuidLimit()
    ensures Pow(16, 32) == UUID_LIMIT
  {
    PowSum(16, 4, 4);
    PowSum(16, 8, 8);
    PowSum(16, 16, 16);
    assert Pow(16, 8) == 0x1_0000_0000;
    assert Pow(16, 16) == 0x1_0000_0000_0000_0000;
  }

  lemma HexInRange(digits: seq<int>)
    requires |digits| == 32 && AllDigits(16, digits)
    ensures 0 <= Eval(16, digits) < UUID_LIMIT
  {
    EvalBound(16, digits);
    UuidLimit();
  }

  lemma HexRoundTrip(id: Uuid)
    ensures ParseHex(HexText(ToDigits(16, 32, id))) == Some(id)
  {
    var digits := ToDigits(16, 32, id);
    assert HexValues(HexText(digits)) == digits;
    UuidLimit();
    EvalOfDigits(16, 32, id);
  }

  lemma UuidTextRoundTrip(id: Uuid)
    ensures ParseUuid(UuidText(id)) == Some(id)
  {
    DashesRoundTrip(HexText(ToDigits(16, 32, id)));
    HexRoundTrip(id);
  }

  // Where the k-th hexadecimal digit stands in the text.
  function DigitPlace(k: nat): nat
    requires k < 32
  {
    k + (if k < 8 then 0 else if k < 12 then 1 else if k < 16 then 2 else if k < 20 then 3 else 4)
  }

  // The text is the id's 32 hexadecimal digits, most significant first, in groups of 8, 4, 4, 4 and 12.
  lemma UuidTextMeans(id: Uuid)
    ensures var s, digits := UuidText(id), ToDigits(16, 32, id);
      && |s| == 36 && s[8] == '-' && s[13] == '-' && s[18] == '-' && s[23] == '-'
      && Eval(16, digits) == id
      && forall k :: 0 <= k < 32 ==> s[DigitPlace(k)] == "0123456789abcdef"[digits[k]]
    ensures DigitPlace(0) == 0 && DigitPlace(7) == 7 && DigitPlace(8) == 9 && DigitPlace(11) == 12
    ensures DigitPlace(12) == 14 && DigitPlace(15) == 17 && DigitPlace(16) == 19 && DigitPlace(19) == 22
    ensures DigitPlace(20) == 24 && DigitPlace(31) == 35
  {
    var digits := ToDigits(16, 32, id);
    UuidLimit();
    EvalOfDigits(16, 32, id);
    DashedMeans(HexText(digits));
    forall k | 0 <= k < 32 ensures UuidText(id)[DigitPlace(k)] == "0123456789abcdef"[digits[k]] {
      assert HexText(digits)[k] == HexDigit(digits[k]);
      HexDigitMeans(digits[k]);
    }
  }

  lemma DashedMeans(hex: string)
    requires |hex| == 32
    ensures var s := Dashed(hex);
      && s[8] == '-' && s[13] == '-' && s[18] == '-' && s[23] == '-'
      && forall k :: 0 <= k < 32 ==> s[DigitPlace(k)] == hex[k]
  {}

  // A digit is worth the same in either case, and nothing else is a digit.
  lemma HexValueMeans(c: char, n: nat)
    requires n < 16
    ensures HexValue(c) == n <==> c == "0123456789abcdef"[n] || c == "0123456789ABCDEF"[n]
  {}

  // Every spelling of an id is read back.
  lemma UuidSpellings(id: Uuid, urn: string, open: char, close: char)
    requires |urn| == |URN_PREFIX| && HasUrnPrefix(urn)
    ensures ParseUuid(urn + UuidText(id)) == Some(id)
    ensures ParseUuid([open] + UuidText(id) + [close]) == Some(id)
    ensures ParseUuid(HexText(ToDigits(16, 32, id))) == Some(id)
  {
    UuidTextRoundTrip(id);
    HexRoundTrip(id);
    var text := UuidText(id);
    assert HasUrnPrefix(urn + text) && (urn + text)[9..] == text;
    assert ([open] + text + [close])[1..37] == text;
  }

  // ---- unpadded base64url

  function SextetChar(d: int): char
    requires 0 <= d < 64
  {
    if d < 26 then 'A' + d as char
    else if d < 52 then 'a' + (d - 26) as char
    else if d < 62 then '0' + (d - 52) as char
    else if d == 62 then '-' else '_'
  }

  function SextetOf(c: char): int {
    if 'A' <= c <= 'Z' then c as int - 'A' as int
    else if 'a' <= c <= 'z' then c as int - 'a' as int + 26
    else if '0' <= c <= '9' then c as int - '0' as int + 52
    else if c == '-' then 62 else if c == '_' then 63 else -1
  }

  function Sextets(s: string): (digits: seq<int>)
    ensures |digits| == |s|
    ensures forall i :: 0 <= i < |s| ==> digits[i] == SextetOf(s[i])
  {
    seq(|s|, i requires 0 <= i < |s| => SextetOf(s[i]))
  }

  function SextetText(digits: seq<int>): (s: string)
    requires forall i :: 0 <= i < |digits| ==> 0 <= digits[i] < 64
    ensures |s| == |digits|
    ensures forall i :: 0 <= i < |s| ==> s[i] == SextetChar(digits[i])
  {
    seq(|digits|, i requires 0 <= i < |digits| => SextetChar(digits[i]))
  }

  // A last group of one or two bytes fills two or three sextets; the four or two bits left over are zero.
  function Padding(n: nat): (pad: nat)
    ensures pad > 0
  {
    if n % 3 == 1 then 16 else if n % 3 == 2 then 4 else 1
  }

  function EncodeGroup(group: seq<Byte>): (s: string)
    requires 1 <= |group| <= 3
    ensures |s| == |group| + 1
  {
    EvalBound(256, group);
    SextetText(ToDigits(64, |group| + 1, Eval(256, group) * Padding(|group|)))
  }

  function EncodeBase64(bytes: seq<Byte>): string {
    if |bytes| == 0 then ""
    else if |bytes| <= 3 then EncodeGroup(bytes)
    else EncodeGroup(bytes[..3]) + EncodeBase64(bytes[3..])
  }

  function DecodeGroup(s: string): Option<seq<Byte>>
    requires 1 <= |s| <= 4
  {
    var digits := Sextets(s);
    if |s| == 1 || exists i :: 0 <= i < |digits| && digits[i] < 0 then None
    else
      SextetsAreDigits(s);
      EvalBound(64, digits);
      Some(ToDigits(256, |s| - 1, Eval(64, digits) / Padding(|s| - 1)))
  }

  lemma SextetsAreDigits(s: string)
    requires !exists i :: 0 <= i < |s| && Sextets(s)[i] < 0
    ensures AllDigits(64, Sextets(s))
  {}

  function WithoutNewlines(s: string): (r: string)
    ensures forall i :: 0 <= i < |r| ==> r[i] != '\r' && r[i] != '\n'
  {
    if s == "" then ""
    else if s[0] == '\r' || s[0] == '\n' then WithoutNewlines(s[1..])
    else [s[0]] + WithoutNewlines(s[1..])
  }

  function DecodeGroups(s: string): Option<seq<Byte>> {
    if s == "" then Some([])
    else if |s| <= 4 then DecodeGroup(s)
    else
      var head, tail := DecodeGroup(s[..4]), DecodeGroups(s[4..]);
      if head.None? || tail.None? then None else Some(head.value + tail.value)
  }

  // The decoder of Go's encoding/base64 ignores line breaks and left-over bits.
  function DecodeBase64(s: string): Option<seq<Byte>> {
    DecodeGroups(WithoutNewlines(s))
  }

  lemma GroupPowers(n: nat)
    requires 1 <= n <= 3
    ensures Pow(256, n) * Padding(n) == Pow(64, n + 1)
  {
    assert Pow(256, 1) == 256 && Pow(256, 2) == 65536 && Pow(256, 3) == 16777216;
    assert Pow(64, 2) == 4096 && Pow(64, 3) == 262144 && Pow(64, 4) == 16777216;
  }

  lemma GroupFits(size: nat, n: nat)
    requires 1 <= size <= 3 && n < Pow(256, size)
    ensures n * Padding(size) < Pow(64, size + 1) && (n * Padding(size)) / Padding(size) == n
  {
    GroupPowers(size);
    MulMonotone(n + 1, Pow(256, size), Padding(size));
    DivModUnique(Padding(size), n, 0);
  }

  lemma GroupRoundTrip(group: seq<Byte>)
    requires 1 <= |group| <= 3
    ensures DecodeGroup(EncodeGroup(group)) == Some(group)
    ensures forall i :: 0 <= i < |EncodeGroup(group)| ==> EncodeGroup(group)[i] != '\r' && EncodeGroup(group)[i] != '\n'
  {
    var n, pad := Eval(256, group), Padding(|group|);
    EvalBound(256, group);
    GroupFits(|group|, n);
    var digits := ToDigits(64, |group| + 1, n * pad);
    assert Sextets(SextetText(digits)) == digits;
    EvalOfDigits(64, |group| + 1, n * pad);
    DigitsOfEval(256, group);
  }

  lemma {:induction false} GroupsRoundTrip(bytes: seq<Byte>)
    ensures DecodeGroups(EncodeBase64(bytes)) == Some(bytes)
    ensures forall i :: 0 <= i < |EncodeBase64(bytes)| ==> EncodeBase64(bytes)[i] != '\r' && EncodeBase64(bytes)[i] != '\n'
  {
    if |bytes| == 0 {
    } else if |bytes| <= 3 {
      GroupRoundTrip(bytes);
    } else {
      GroupRoundTrip(bytes[..3]);
      GroupsRoundTrip(bytes[3..]);
      var head, tail := EncodeGroup(bytes[..3]), EncodeBase64(bytes[3..]);
      var s := EncodeBase64(bytes);
      assert s[..4] == head && s[4..] == tail;
      assert tail != "";
      assert bytes == bytes[..3] + bytes[3..];
    }
  }

  lemma {:induction false} NoNewlinesKept(s: string)
    requires forall i :: 0 <= i < |s| ==> s[i] != '\r' && s[i] != '\n'
    ensures WithoutNewlines(s) == s
  {
    if s != "" { NoNewlinesKept(s[1..]); }
  }

  // The alphabet of section 5 of RFC 4648.
  lemma SextetMeans(d: nat)
    requires d < 64
    ensures SextetChar(d) == ("ABCDEFGHIJKLMNOPQRSTUVWXYZ" + "abcdefghijklmnopqrstuvwxyz" + "0123456789-_")[d]
  {
    if d < 26 {
      UpperAt(d);
    } else if d < 52 {
      LowerAt(d - 26);
    } else {
      RestAt(d - 52);
    }
  }

  lemma UpperAt(i: nat)
    requires i < 26
    ensures |"ABCDEFGHIJKLMNOPQRSTUVWXYZ"| == 26 && "ABCDEFGHIJKLMNOPQRSTUVWXYZ"[i] as int == 'A' as int + i
  {}

  lemma LowerAt(i: nat)
    requires i < 26
    ensures |"abcdefghijklmnopqrstuvwxyz"| == 26 && "abcdefghijklmnopqrstuvwxyz"[i] as int == 'a' as int + i
  {}

  lemma RestAt(i: nat)
    requires i < 12
    ensures |"0123456789-_"| == 12
    ensures "0123456789-_"[i] == if i < 10 then '0' + i as char else if i == 10 then '-' else '_'
  {}

  lemma {:induction false} EvalAppend(base: nat, s: seq<int>, t: seq<int>)
    ensures Eval(base, s + t) == Eval(base, s) * Pow(base, |t|) + Eval(base, t)
  {
    if t == [] {
      assert s + t == s;
    } else {
      var front, last := t[..|t| - 1], t[|t| - 1];
      assert (s + t)[..|s + t| - 1] == s + front;
      EvalAppend(base, s, front);
      ConsArithmetic(base, Eval(base, s), Pow(base, |front|), Eval(base, front));
    }
  }

  lemma SextetsOfText(digits: seq<int>)
    requires AllDigits(64, digits)
    ensures Sextets(SextetText(digits)) == digits
  {}

  lemma NumberFits(size: nat, n: nat)
    requires 1 <= size <= 3 && n < Pow(256, size)
    ensures Eval(64, ToDigits(64, size + 1, n * Padding(size))) == n * Padding(size)
  {
    GroupFits(size, n);
    EvalOfDigits(64, size + 1, n * Padding(size));
  }

  lemma GroupDigits(group: seq<Byte>)
    requires 1 <= |group| <= 3
    ensures 0 <= Eval(256, group) < Pow(256, |group|)
    ensures Sextets(EncodeGroup(group)) == ToDigits(64, |group| + 1, Eval(256, group) * Padding(|group|))
  {
    EvalBound(256, group);
    SextetsOfText(ToDigits(64, |group| + 1, Eval(256, group) * Padding(|group|)));
  }

  lemma GroupMeans(group: seq<Byte>)
    requires 1 <= |group| <= 3
    ensures Eval(64, Sextets(EncodeGroup(group))) == Eval(256, group) * Padding(|group|)
  {
    GroupDigits(group);
    NumberFits(|group|, Eval(256, group));
  }

  lemma PowStep(sextets: nat, bytes: nat, pad: nat)
    requires Pow(64, sextets) == Pow(256, bytes) * pad
    ensures Pow(64, 4 + sextets) == Pow(256, 3 + bytes) * pad
  {
    PowSum(64, 4, sextets);
    PowSum(256, 3, bytes);
    GroupPowers(3);
    MulAssociates(Pow(256, 3), Pow(256, bytes), pad);
  }

  // How long the text of n bytes is.
  function TextLength(n: nat): nat {
    if n == 0 then 0 else if n <= 3 then n + 1 else 4 + TextLength(n - 3)
  }

  lemma {:induction false} EncodedLength(bytes: seq<Byte>)
    ensures |EncodeBase64(bytes)| == TextLength(|bytes|)
  {
    if |bytes| > 3 { EncodedLength(bytes[3..]); }
  }

  lemma {:induction false} EncodedPow(n: nat)
    ensures Pow(64, TextLength(n)) == Pow(256, n) * Padding(n)
  {
    if n == 0 {
      EmptyPow();
    } else if n <= 3 {
      GroupPowers(n);
    } else {
      EncodedPow(n - 3);
      PowStep(TextLength(n - 3), n - 3, Padding(n));
    }
  }

  lemma EmptyPow()
    ensures Pow(64, TextLength(0)) == Pow(256, 0) * Padding(0)
  {}

  lemma Distribute(e: int, p: int, pad: int, f: int)
    ensures e * (p * pad) + f * pad == (e * p + f) * pad
  {
    MulAssociates(e, p, pad);
  }

  // In digits of six bits, the number the bytes denote times pad.
  ghost predicate Carries(sextets: seq<int>, bytes: seq<int>, pad: nat) {
    Eval(64, sextets) == Eval(256, bytes) * pad
  }

  lemma AppendEval(a: nat, b: nat, s: seq<int>, t: seq<int>, h: seq<int>, r: seq<int>, pad: int)
    requires Eval(a, s) == Eval(b, h) && Eval(a, t) == Eval(b, r) * pad && Pow(a, |t|) == Pow(b, |r|) * pad
    ensures Eval(a, s + t) == Eval(b, h + r) * pad
  {
    var e, f, p := Eval(b, h), Eval(b, r), Pow(b, |r|);
    EvalAppend(a, s, t);
    assert Eval(a, s + t) == e * (p * pad) + f * pad;
    EvalAppend(b, h, r);
    assert Eval(b, h + r) == e * p + f;
    Distribute(e, p, pad, f);
  }

  lemma AppendCarries(s: seq<int>, t: seq<int>, h: seq<int>, r: seq<int>, pad: nat)
    requires Carries(s, h, 1) && Carries(t, r, pad) && Pow(64, |t|) == Pow(256, |r|) * pad
    ensures Carries(s + t, h + r, pad)
  {
    AppendEval(64, 256, s, t, h, r, pad);
  }

  lemma SextetsAppend(s: string, t: string)
    ensures Sextets(s + t) == Sextets(s) + Sextets(t)
  {}

  lemma GroupCarries(group: seq<Byte>)
    requires 1 <= |group| <= 3
    ensures Carries(Sextets(EncodeGroup(group)), group, Padding(|group|))
  {
    GroupMeans(group);
  }

  lemma RestPow(bytes: seq<Byte>)
    ensures Pow(64, |Sextets(EncodeBase64(bytes))|) == Pow(256, |bytes|) * Padding(|bytes|)
  {
    EncodedLength(bytes);
    EncodedPow(|bytes|);
  }

  lemma GroupThenRest(head: seq<Byte>, rest: seq<Byte>, pad: nat)
    requires |head| == 3 && pad == Padding(|rest|) && Carries(Sextets(EncodeBase64(rest)), rest, pad)
    ensures Carries(Sextets(EncodeGroup(head) + EncodeBase64(rest)), head + rest, pad)
  {
    GroupCarries(head);
    RestPow(rest);
    AppendCarries(Sextets(EncodeGroup(head)), Sextets(EncodeBase64(rest)), head, rest, pad);
    SextetsAppend(EncodeGroup(head), EncodeBase64(rest));
  }

  // The text is the number the bytes denote, most significant first, in digits of six bits, padded with zero bits.
  lemma {:induction false} EncodedMeans(bytes: seq<Byte>)
    ensures Carries(Sextets(EncodeBase64(bytes)), bytes, Padding(|bytes|))
  {
    if |bytes| == 0 {
      assert Sextets("") == [];
    } else if |bytes| <= 3 {
      GroupCarries(bytes);
    } else {
      EncodedMeans(bytes[3..]);
      assert bytes == bytes[..3] + bytes[3..];
      GroupThenRest(bytes[..3], bytes[3..], Padding(|bytes|));
    }
  }

  // Decoding undoes encoding for every byte string.
  lemma Base64RoundTrip(bytes: seq<Byte>)
    ensures DecodeBase64(EncodeBase64(bytes)) == Some(bytes)
  {
    GroupsRoundTrip(bytes);
    NoNewlinesKept(EncodeBase64(bytes));
  }

  // ---- tokens

  function Bytes(s: string): (r: seq<Byte>)
    requires forall i :: 0 <= i < |s| ==> s[i] as int < 256
    ensures |r| == |s| && forall i :: 0 <= i < |s| ==> r[i] == s[i] as int
  {
    seq(|s|, i requires 0 <= i < |s| => s[i] as int)
  }

  function Text(bytes: seq<Byte>): (s: string)
    ensures |s| == |bytes| && forall i :: 0 <= i < |s| ==> s[i] as int == bytes[i]
  {
    seq(|bytes|, i requires 0 <= i < |bytes| => bytes[i] as char)
  }

  lemma DashedIsAscii(hex: string)
    requires |hex| == 32 && forall i :: 0 <= i < 32 ==> hex[i] as int < 256
    ensures forall i :: 0 <= i < 36 ==> Dashed(hex)[i] as int < 256
  {}

  lemma UuidTextIsAscii(id: Uuid)
    ensures forall i :: 0 <= i < 36 ==> UuidText(id)[i] as int < 256
  {
    DashedIsAscii(HexText(ToDigits(16, 32, id)));
  }

  function EncodePageToken(id: Uuid): string {
    UuidTextIsAscii(id);
    EncodeBase64(Bytes(UuidText(id)))
  }

  function DecodePageToken(token: string): Result<Uuid, TokenError> {
    if token == "" then Err(EmptyToken)
    else
      var decoded := DecodeBase64(token);
      if decoded.None? then Err(BadBase64)
      else
        var value := ParseUuid(Text(decoded.value));
        if value.None? then Err(BadUuid) else Ok(value.value)
  }

  function DecodePageCursor(token: string): Result<Option<Uuid>, TokenError> {
    if token == "" then Ok(None)
    else
      var id := DecodePageToken(token);
      if id.Err? then Err(id.error) else Ok(Some(id.value))
  }

  // mapListResult's token for the next page.
  function NextPageToken(nextCursor: Option<Uuid>): string {
    if nextCursor.None? then "" else EncodePageToken(nextCursor.value)
  }

  lemma PageTokenRoundTrip(id: Uuid)
    ensures DecodePageToken(EncodePageToken(id)) == Ok(id)
    ensures DecodeBase64(EncodePageToken(id)).Some? && Text(DecodeBase64(EncodePageToken(id)).value) == UuidText(id)
  {
    UuidTextIsAscii(id);
    var bytes := Bytes(UuidText(id));
    Base64RoundTrip(bytes);
    assert Text(bytes) == UuidText(id);
    UuidTextRoundTrip(id);
    assert EncodeBase64(bytes) == EncodeGroup(bytes[..3]) + EncodeBase64(bytes[3..]);
  }

  // The token carries the cursor through the RPC; it is empty exactly when there is no next page.
  lemma PageCursorRoundTrip(next: Option<Uuid>)
    ensures DecodePageCursor(NextPageToken(next)) == Ok(next)
    ensures NextPageToken(next) == "" <==> next.None?
  {
    if next.Some? { PageTokenRoundTrip(next.value); }
  }

  // A list request: the p-th query, from a cursor, yields a page and the next cursor.
  type Query<!T> = (nat, Option<Uuid>) -> (seq<Entity<T>>, Option<Uuid>)

  // The first n pages met by following the store's cursors from the p-th query on.
  function FollowCursors<T>(query: Query<T>, cursor: Option<Uuid>, p: nat, n: nat): seq<seq<Entity<T>>>
    decreases n
  {
    if n == 0 then []
    else
      var (items, next) := query(p, cursor);
      [items] + if next.None? then [] else FollowCursors(query, next, p + 1, n - 1)
  }

  // The same through the RPC: each request carries the token of the last response.
  function FollowTokens<T>(query: Query<T>, decode: string -> Result<Option<Uuid>, TokenError>,
                           encode: Option<Uuid> -> string, token: string, p: nat, n: nat):
    Result<seq<seq<Entity<T>>>, TokenError>
    decreases n
  {
    if n == 0 then Ok([])
    else
      var cursor := decode(token);
      if cursor.Err? then Err(cursor.error)
      else
        var (items, next) := query(p, cursor.value);
        var nextToken := encode(next);
        if nextToken == "" then Ok([items])
        else
          var rest := FollowTokens(query, decode, encode, nextToken, p + 1, n - 1);
          if rest.Err? then rest else Ok([items] + rest.value)
  }

  lemma {:induction false} CodecFollowsCursors<T>(query: Query<T>, decode: string -> Result<Option<Uuid>, TokenError>,
                                                  encode: Option<Uuid> -> string, cursor: Option<Uuid>, p: nat, n: nat)
    requires forall c :: decode(encode(c)) == Ok(c) && (encode(c) == "" <==> c.None?)
    ensures FollowTokens(query, decode, encode, encode(cursor), p, n) == Ok(FollowCursors(query, cursor, p, n))
    decreases n
  {
    if n > 0 {
      var (items, next) := query(p, cursor);
      assert [items] + [] == [items];
      if next.Some? {
        CodecFollowsCursors(query, decode, encode, next, p + 1, n - 1);
      }
    }
  }

  // The page queries of a table under change, filter and page size.
  function TableQuery<T>(views: nat -> Table<T>, keep: T -> bool, pageSize: int): Query<T> {
    (p: nat, cursor: Option<Uuid>) => PageOf(views(p), keep, cursor, NormalizePageSize(pageSize))
  }

  // A client following tokens sees the pages the store's cursors yield, whatever happens to the table meanwhile.
  lemma TokensFollowCursors<T>(views: nat -> Table<T>, keep: T -> bool, pageSize: int, cursor: Option<Uuid>, p: nat, n: nat)
    ensures FollowTokens(TableQuery(views, keep, pageSize), DecodePageCursor, NextPageToken, NextPageToken(cursor), p, n)
      == Ok(FollowCursors(TableQuery(views, keep, pageSize), cursor, p, n))
  {
    forall c ensures DecodePageCursor(NextPageToken(c)) == Ok(c) && (NextPageToken(c) == "" <==> c.None?) {
      PageCursorRoundTrip(c);
    }
    CodecFollowsCursors(TableQuery(views, keep, pageSize), DecodePageCursor, NextPageToken, cursor, p, n);
  }
}

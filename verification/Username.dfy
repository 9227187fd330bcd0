// Username derivation (internal/server/username.go): normaliser, suffixer and base.

module Username {
  import opened Positional

  const MAX_LENGTH := 32

  predicate IsWord(c: char) {
    'a' <= c <= 'z' || '0' <= c <= '9' || c == '_'
  }

  predicate IsAllowed(c: char) {
    IsWord(c) || c == '-'
  }

  // validateUsername (and the identical validateUsernamePrefix) returns no error.
  predicate ValidUsername(value: string) {
    value != "" && |value| <= MAX_LENGTH && forall i :: 0 <= i < |value| ==> IsAllowed(value[i])
  }

  // The accepted texts are those of the service's pattern, of 1 to 32 characters.
  lemma ValidUsernameMeans(value: string)
    ensures ValidUsername(value) <==>
      1 <= |value| <= 32 && forall i :: 0 <= i < |value| ==> value[i] in "abcdefghijklmnopqrstuvwxyz0123456789_-"
  {
    forall i | 0 <= i < |value|
      ensures IsAllowed(value[i]) <==> value[i] in "abcdefghijklmnopqrstuvwxyz0123456789_-"
    {
      AllowedMeans(value[i]);
    }
  }

  lemma AllowedMeans(c: char)
    ensures IsAllowed(c) <==> c in "abcdefghijklmnopqrstuvwxyz0123456789_-"
    ensures IsWord(c) <==> c in "abcdefghijklmnopqrstuvwxyz0123456789_"
  {
    var letters, digits := "abcdefghijklmnopqrstuvwxyz", "0123456789";
    LetterMeans(c);
    DigitMeans(c);
    assert "abcdefghijklmnopqrstuvwxyz0123456789_" == letters + digits + "_";
    assert "abcdefghijklmnopqrstuvwxyz0123456789_-" == letters + digits + "_" + "-";
  }

  lemma LetterMeans(c: char)
    ensures 'a' <= c <= 'z' <==> c in "abcdefghijklmnopqrstuvwxyz"
  {
    var letters := "abcdefghijklmnopqrstuvwxyz";
    assert forall i :: 0 <= i < |letters| ==> letters[i] as int == 'a' as int + i;
    if 'a' <= c <= 'z' { assert letters[c as int - 'a' as int] == c; }
  }

  lemma DigitMeans(c: char)
    ensures '0' <= c <= '9' <==> c in "0123456789"
  {
    var digits := "0123456789";
    assert forall i :: 0 <= i < |digits| ==> digits[i] as int == '0' as int + i;
    if '0' <= c <= '9' { assert digits[c as int - '0' as int] == c; }
  }

  ghost predicate NoDoubleDash(s: string) {
    forall i :: 0 <= i < |s| - 1 ==> s[i] != '-' || s[i + 1] != '-'
  }

  // Allowed characters, no leading dash, no adjacent dashes.
  ghost predicate Tidy(s: string) {
    && (forall i :: 0 <= i < |s| ==> IsAllowed(s[i]))
    && (s != "" ==> s[0] != '-')
    && NoDoubleDash(s)
  }

  ghost predicate EndsInDash(s: string) {
    s != "" && s[|s| - 1] == '-'
  }

  // strings.ToLower rewrites rune by rune; which rune becomes which is Unicode's business.
  function Lowered(lower: char -> char, s: string): (r: string)
    ensures |r| == |s|
    ensures forall i :: 0 <= i < |s| ==> r[i] == lower(s[i])
  {
    seq(|s|, i requires 0 <= i < |s| => lower(s[i]))
  }

  ghost predicate LowerKeepsAllowed(lower: char -> char) {
    forall c :: IsAllowed(c) ==> lower(c) == c
  }

  // ---- the meaning of normalisation: maximal runs of word characters, joined by single dashes

  function WordChars(s: string): string {
    if s == "" then "" else (if IsWord(s[0]) then [s[0]] else "") + WordChars(s[1..])
  }

  function Runs(s: string): (r: seq<string>)
    ensures s != "" && IsWord(s[0]) ==> r != []
    ensures forall i :: 0 <= i < |r| ==> r[i] != "" && forall j :: 0 <= j < |r[i]| ==> IsWord(r[i][j])
  {
    if s == "" then []
    else if !IsWord(s[0]) then Runs(s[1..])
    else
      var rest := Runs(s[1..]);
      if |s| > 1 && IsWord(s[1]) then [[s[0]] + rest[0]] + rest[1..] else [[s[0]]] + rest
  }

  function Join(words: seq<string>): string {
    if words == [] then "" else if |words| == 1 then words[0] else words[0] + "-" + Join(words[1..])
  }

  function Take(s: string, n: nat): string {
    if |s| > n then s[..n] else s
  }

  function Normalized(lower: char -> char, value: string): string {
    Take(Join(Runs(Lowered(lower, value))), MAX_LENGTH)
  }

  // ---- strings.Trim and friends on the cutset "-"

  function TrimLeft(s: string): string {
    if s != "" && s[0] == '-' then TrimLeft(s[1..]) else s
  }

  function TrimRight(s: string): (r: string)
    ensures r <= s && !EndsInDash(r)
    ensures forall i :: |r| <= i < |s| ==> s[i] == '-'
  {
    if s != "" && s[|s| - 1] == '-' then TrimRight(s[..|s| - 1]) else s
  }

  // What the builder loop appends for s, given whether the last written character is a dash.
  function Collapse(s: string, lastDash: bool): string {
    if s == "" then ""
    else if IsWord(s[0]) then [s[0]] + Collapse(s[1..], false)
    else (if lastDash then "" else "-") + Collapse(s[1..], true)
  }

  method NormalizeUsernameCandidate(lower: char -> char, value: string) returns (normalized: string)
    ensures normalized == Normalized(lower, value)
  {
    if value == "" {
      return "";
    }
    var lowered := Lowered(lower, value);
    var builder := "";
    var lastDash := false;
    for i := 0 to |lowered|
      invariant builder + Collapse(lowered[i..], lastDash) == Collapse(lowered, false)
    {
      var r := lowered[i];
      CollapseStep(builder, lowered, i, lastDash);
      if !IsAllowed(r) {
        if !lastDash {
          builder := builder + ['-'];
          lastDash := true;
        }
      } else if r == '-' {
        if !lastDash {
          lastDash := true;
          builder := builder + [r];
        }
      } else {
        lastDash := false;
        builder := builder + [r];
      }
    }
    assert lowered[|lowered|..] == "" && builder + "" == builder;
    TrimmedCollapse(lowered);
    normalized := TrimRight(TrimLeft(builder));
    if |normalized| > MAX_LENGTH {
      normalized := normalized[..MAX_LENGTH];
    }
  }

  lemma CollapseStep(builder: string, s: string, i: nat, lastDash: bool)
    requires i < |s|
    ensures builder + Collapse(s[i..], lastDash) ==
      (if IsWord(s[i]) then builder + [s[i]] + Collapse(s[i + 1..], false)
       else if lastDash then builder + Collapse(s[i + 1..], true)
       else builder + ['-'] + Collapse(s[i + 1..], true))
  {
    assert s[i..][1..] == s[i + 1..];
    if IsWord(s[i]) {
      assert builder + ([s[i]] + Collapse(s[i + 1..], false)) == builder + [s[i]] + Collapse(s[i + 1..], false);
    } else if !lastDash {
      assert builder + (['-'] + Collapse(s[i + 1..], true)) == builder + ['-'] + Collapse(s[i + 1..], true);
    }
  }

  lemma {:induction false} RunsEmpty(s: string)
    ensures Runs(s) == [] <==> WordChars(s) == ""
    ensures WordChars(s) == "" ==> forall i :: 0 <= i < |s| ==> !IsWord(s[i])
  {
    if s != "" {
      RunsEmpty(s[1..]);
      if WordChars(s) == "" {
        forall i | 0 <= i < |s| ensures !IsWord(s[i]) {
          if i > 0 { assert s[i] == s[1..][i - 1]; }
        }
      }
    }
  }

  function Tail(s: string): string {
    if s != "" && !IsWord(s[|s| - 1]) && Runs(s) != [] then "-" else ""
  }

  // After a dash, the loop writes the joined runs, plus one dash when the input runs on past the last word.
  lemma {:induction false} CollapseShape(s: string)
    ensures Collapse(s, true) == Join(Runs(s)) + Tail(s)
  {
    if s == "" {
    } else if !IsWord(s[0]) {
      CollapseShape(s[1..]);
    } else if |s| == 1 {
    } else if IsWord(s[1]) {
      CollapseShape(s[1..]);
      JoinGrowHead(s[0], Runs(s[1..]));
      assert Collapse(s[1..], false) == Collapse(s[1..], true);
    } else {
      CollapseShape(s[2..]);
      CollapseAcrossGap(s);
    }
  }

  lemma RunsAcrossGap(s: string)
    requires |s| > 1 && IsWord(s[0]) && !IsWord(s[1])
    ensures Runs(s) == [[s[0]]] + Runs(s[2..])
  {
    assert s[1..][1..] == s[2..];
    assert s[1..] != "" && !IsWord(s[1..][0]);
  }

  lemma WritesAcrossGap(s: string)
    requires |s| > 1 && IsWord(s[0]) && !IsWord(s[1])
    ensures Collapse(s, true) == [s[0]] + "-" + Collapse(s[2..], true)
  {
    assert s[1..][1..] == s[2..];
    assert s[1..] != "" && !IsWord(s[1..][0]);
    assert Collapse(s, true) == [s[0]] + ("-" + Collapse(s[2..], true));
  }

  lemma JoinOneMore(w: string, rest: seq<string>)
    ensures Join([w] + rest) == if rest == [] then w else w + "-" + Join(rest)
  {
    assert ([w] + rest)[1..] == rest;
  }

  lemma TailAcrossGap(s: string)
    requires |s| > 1 && IsWord(s[0]) && !IsWord(s[1])
    ensures Tail(s) == if Runs(s[2..]) == [] then "-" else Tail(s[2..])
  {
    var rest := s[2..];
    RunsAcrossGap(s);
    RunsEmpty(rest);
    if |s| > 2 { assert rest[|rest| - 1] == s[|s| - 1]; }
  }

  lemma Regroup(a: string, b: string, c: string)
    ensures a + (b + c) == a + b + c
    ensures a + "" == a
  {}

  lemma LeadingDash(s: string)
    requires s != ""
    ensures Collapse(s, false) == (if IsWord(s[0]) then "" else "-") + Collapse(s, true)
  {}

  // A word character followed by something else.
  lemma CollapseAcrossGap(s: string)
    requires |s| > 1 && IsWord(s[0]) && !IsWord(s[1])
    requires Collapse(s[2..], true) == Join(Runs(s[2..])) + Tail(s[2..])
    ensures Collapse(s, true) == Join(Runs(s)) + Tail(s)
  {
    var rest := s[2..];
    RunsAcrossGap(s);
    WritesAcrossGap(s);
    JoinOneMore([s[0]], Runs(rest));
    TailAcrossGap(s);
    Regroup([s[0]] + "-", Join(Runs(rest)), Tail(rest));
  }

  lemma JoinGrowHead(c: char, words: seq<string>)
    requires words != []
    ensures Join([[c] + words[0]] + words[1..]) == [c] + Join(words)
  {
    var grown := [[c] + words[0]] + words[1..];
    assert grown[1..] == words[1..];
    if |words| > 1 {
      assert [c] + words[0] + "-" + Join(words[1..]) == [c] + (words[0] + "-" + Join(words[1..]));
    }
  }

  lemma {:induction false} JoinTidy(words: seq<string>)
    requires forall i :: 0 <= i < |words| ==> words[i] != "" && forall j :: 0 <= j < |words[i]| ==> IsWord(words[i][j])
    ensures Tidy(Join(words)) && !EndsInDash(Join(words))
    ensures Join(words) == "" <==> words == []
  {
    if |words| > 1 {
      JoinTidy(words[1..]);
      var w, r := words[0], Join(words[1..]);
      var s := Join(words);
      assert s == w + "-" + r;
      forall i | 0 <= i < |s| ensures IsAllowed(s[i]) {
        if i < |w| { assert s[i] == w[i]; } else if i > |w| { assert s[i] == r[i - |w| - 1]; }
      }
      forall i | 0 <= i < |s| - 1 ensures s[i] != '-' || s[i + 1] != '-' {
        if i < |w| { assert s[i] == w[i]; } else if i > |w| {
          assert s[i] == r[i - |w| - 1] && s[i + 1] == r[i - |w|];
        }
      }
    }
  }

  lemma TrimStripsEnds(lead: string, x: string, tail: string)
    requires lead == "" || lead == "-"
    requires tail == "" || tail == "-"
    requires x != "" && x[0] != '-' && !EndsInDash(x)
    ensures TrimRight(TrimLeft(lead + x + tail)) == x
  {
    var whole := lead + x + tail;
    if lead == "-" { assert whole[1..] == x + tail; } else { assert whole == x + tail; }
    assert (x + tail)[0] == x[0];
    assert TrimLeft(whole) == x + tail;
    assert TrimRight(x) == x;
    if tail == "-" { assert (x + tail)[..|x|] == x; } else { assert x + tail == x; }
  }

  lemma TrimDashesOnly(s: string)
    requires s == "" || s == "-"
    ensures TrimRight(TrimLeft(s)) == ""
  {
    if s == "-" { assert s[1..] == ""; }
  }

  lemma TrimmedCollapse(s: string)
    ensures TrimRight(TrimLeft(Collapse(s, false))) == Join(Runs(s))
  {
    if s != "" {
      var joined := Join(Runs(s));
      var lead := if IsWord(s[0]) then "" else "-";
      CollapseShape(s);
      JoinTidy(Runs(s));
      RunsEmpty(s);
      LeadingDash(s);
      Regroup(lead, joined, Tail(s));
      if joined == "" {
        Regroup(lead, "", "");
        TrimDashesOnly(lead);
      } else {
        TrimStripsEnds(lead, joined, Tail(s));
      }
    }
  }

  // ---- what normalisation keeps

  lemma {:induction false} JoinedContent(s: string)
    ensures WordChars(Join(Runs(s))) == WordChars(s)
  {
    if s == "" {
    } else if !IsWord(s[0]) {
      JoinedContent(s[1..]);
    } else {
      JoinedContent(s[1..]);
      var rest := Runs(s[1..]);
      if |s| > 1 && IsWord(s[1]) {
        JoinGrowHead(s[0], rest);
        assert Join(Runs(s))[1..] == Join(rest);
      } else if rest == [] {
        RunsEmpty(s[1..]);
        assert Join(Runs(s)) == [s[0]];
      } else {
        assert Runs(s)[1..] == rest;
        var j := Join(Runs(s));
        assert j == [s[0]] + "-" + Join(rest);
        assert j[1..] == "-" + Join(rest);
        assert j[1..][1..] == Join(rest);
        assert WordChars(j) == [s[0]] + WordChars(j[1..]);
      }
    }
  }

  lemma {:induction false} WordCharsPrefix(s: string, n: nat)
    requires n <= |s|
    ensures WordChars(s[..n]) <= WordChars(s)
  {
    if n > 0 {
      WordCharsPrefix(s[1..], n - 1);
      assert s[..n][1..] == s[1..][..n - 1];
    }
  }

  // The word characters of the result are a prefix of the input's, all of them when nothing was cut;
  // the result is tidy, and can end in a dash only where the cut left one.
  lemma NormalizedKeepsContent(lower: char -> char, value: string)
    ensures var low, r := Lowered(lower, value), Normalized(lower, value);
      && WordChars(r) <= WordChars(low)
      && (|Join(Runs(low))| <= MAX_LENGTH ==> WordChars(r) == WordChars(low))
      && (r == "" <==> WordChars(low) == "")
      && Tidy(r) && |r| <= MAX_LENGTH
      && (EndsInDash(r) ==> |r| == MAX_LENGTH)
  {
    var low := Lowered(lower, value);
    JoinedContent(low);
    JoinTidy(Runs(low));
    RunsEmpty(low);
    var joined := Join(Runs(low));
    if |joined| > MAX_LENGTH {
      WordCharsPrefix(joined, MAX_LENGTH);
    }
  }

  lemma {:induction false} TidyCollapses(s: string, lastDash: bool)
    requires forall i :: 0 <= i < |s| ==> IsAllowed(s[i])
    requires NoDoubleDash(s)
    requires lastDash && s != "" ==> s[0] != '-'
    ensures Collapse(s, lastDash) == s
  {
    if s != "" {
      assert forall i :: 0 <= i < |s| - 1 ==> s[1..][i] == s[i + 1];
      TidyCollapses(s[1..], !IsWord(s[0]));
      assert s == [s[0]] + s[1..];
    }
  }

  lemma TidyIsStable(lower: char -> char, s: string)
    requires LowerKeepsAllowed(lower) && Tidy(s) && |s| <= MAX_LENGTH
    ensures Normalized(lower, s) == TrimRight(s)
  {
    assert Lowered(lower, s) == s;
    TidyCollapses(s, false);
    TrimmedCollapse(s);
  }

  // A second application only strips trailing dashes; from then on nothing changes.
  lemma NormalizeTwice(lower: char -> char, value: string)
    requires LowerKeepsAllowed(lower)
    ensures var once := Normalized(lower, value);
      var twice := Normalized(lower, once);
      twice == TrimRight(once) && Normalized(lower, twice) == twice
  {
    NormalizedKeepsContent(lower, value);
    var once := Normalized(lower, value);
    TidyIsStable(lower, once);
    var twice := TrimRight(once);
    assert Tidy(twice);
    TidyIsStable(lower, twice);
    assert TrimRight(twice) == twice;
  }

  // ---- what normalisation is, in three laws: nothing gives nothing, a word stays whole, and a character that is no word
  // character separates what stands on its two sides

  lemma JoinAppend(a: seq<string>, b: seq<string>)
    ensures Join(a + b) == if a == [] then Join(b) else if b == [] then Join(a) else Join(a) + "-" + Join(b)
  {
    if a == [] {
      assert a + b == b;
    } else if b == [] {
      assert a + b == a;
    } else if |a| == 1 {
      assert a + b == [a[0]] + b;
      JoinOneMore(a[0], b);
    } else {
      assert a + b == [a[0]] + (a[1..] + b) && a == [a[0]] + a[1..];
      JoinOneMore(a[0], a[1..] + b);
      JoinOneMore(a[0], a[1..]);
      JoinAppend(a[1..], b);
      Dashes(a[0], Join(a[1..]), Join(b));
    }
  }

  lemma Dashes(a: string, b: string, c: string)
    ensures a + "-" + (b + "-" + c) == a + "-" + b + "-" + c
  {}

  lemma {:induction false} RunsAtBreak(a: string, c: char, b: string)
    requires !IsWord(c)
    ensures Runs(a + [c] + b) == Runs(a) + Runs(b)
  {
    if a == "" {
      assert (a + [c] + b)[1..] == b;
    } else {
      RunsAtBreak(a[1..], c, b);
      assert a + [c] + b == [a[0]] + (a[1..] + [c] + b);
      RunsCons(a[0], a[1..] + [c] + b);
      RunsCons(a[0], a[1..]);
      assert a == [a[0]] + a[1..];
      FirstRunGrows(a[0], Runs(a[1..]), Runs(b));
    }
  }

  lemma RunsCons(c: char, s: string)
    ensures s != "" && IsWord(s[0]) ==> Runs(s) != []
    ensures Runs([c] + s) ==
      if !IsWord(c) then Runs(s)
      else if s != "" && IsWord(s[0]) then [[c] + Runs(s)[0]] + Runs(s)[1..]
      else [[c]] + Runs(s)
  {
    assert ([c] + s)[1..] == s;
  }

  lemma FirstRunGrows(c: char, a: seq<string>, b: seq<string>)
    ensures a != [] ==> [[c] + (a + b)[0]] + (a + b)[1..] == ([[c] + a[0]] + a[1..]) + b
    ensures [[c]] + (a + b) == ([[c]] + a) + b
  {}

  lemma {:induction false} RunsOfWord(s: string)
    requires s != "" && forall i :: 0 <= i < |s| ==> IsWord(s[i])
    ensures Runs(s) == [s]
  {
    if |s| > 1 {
      RunsOfWord(s[1..]);
      assert s == [s[0]] + s[1..];
    } else {
      assert s[1..] == "" && s == [s[0]];
    }
  }

  lemma TakeOfTaken(x: string, y: string, n: nat)
    ensures Take(x + "-" + y, n) == Take(Take(x, n) + "-" + Take(y, n), n)
    ensures Take(Take(x, n), n) == Take(x, n)
  {}

  lemma NormalizedWord(lower: char -> char, value: string)
    requires forall i :: 0 <= i < |value| ==> IsWord(lower(value[i]))
    ensures |Normalized(lower, value)| == if |value| <= 32 then |value| else 32
    ensures forall i :: 0 <= i < |Normalized(lower, value)| ==> Normalized(lower, value)[i] == lower(value[i])
  {
    if value != "" { RunsOfWord(Lowered(lower, value)); }
  }

  lemma NormalizedAtBreak(lower: char -> char, a: string, c: char, b: string)
    requires !IsWord(lower(c))
    ensures var x, y := Normalized(lower, a), Normalized(lower, b);
      var whole := if x == "" then y else if y == "" then x else x + "-" + y;
      Normalized(lower, a + [c] + b) == if |whole| <= 32 then whole else whole[..32]
  {
    var low, high := Lowered(lower, a), Lowered(lower, b);
    assert Lowered(lower, a + [c] + b) == low + [lower(c)] + high;
    RunsAtBreak(low, lower(c), high);
    JoinAppend(Runs(low), Runs(high));
    JoinTidy(Runs(low));
    JoinTidy(Runs(high));
    TakeOfTaken(Join(Runs(low)), Join(Runs(high)), 32);
    TakeOfTaken(Join(Runs(high)), "", 32);
  }

  // ---- base of the candidates

  function EmailLocalPart(email: string): (r: string)
    ensures r <= email && '@' !in r
    ensures |r| < |email| ==> email[|r|] == '@'
  {
    if email == "" || email[0] == '@' then "" else [email[0]] + EmailLocalPart(email[1..])
  }

  function HexEncode(bytes: seq<Byte>): (s: string)
    ensures |s| == 2 * |bytes|
    ensures forall i :: 0 <= i < |s| ==> IsWord(s[i])
    ensures forall i :: 0 <= i < |bytes| ==>
      s[2 * i] == HexDigit(bytes[i] / 16) && s[2 * i + 1] == HexDigit(bytes[i] % 16)
  {
    if bytes == [] then "" else [HexDigit(bytes[0] / 16), HexDigit(bytes[0] % 16)] + HexEncode(bytes[1..])
  }

  // "user-" and the hash's first eight hexadecimal digits, the upper half of a byte first.
  ghost predicate IsFallback(base: string, hash: seq<Byte>)
    requires |hash| >= 4
  {
    && |base| == 13 && base[..5] == "user-"
    && forall i :: 0 <= i < 4 ==>
        base[5 + 2 * i] == "0123456789abcdef"[hash[i] / 16] && base[6 + 2 * i] == "0123456789abcdef"[hash[i] % 16]
  }

  lemma FallbackDigits(sha256: string -> seq<Byte>, oidcSubject: string)
    requires |sha256(oidcSubject)| == 32
    ensures IsFallback(FallbackUsername(sha256, oidcSubject), sha256(oidcSubject))
  {
    var hash := sha256(oidcSubject);
    var base, hex := FallbackUsername(sha256, oidcSubject), HexEncode(hash)[..8];
    assert base[..5] == "user-";
    forall i | 0 <= i < 4
      ensures base[5 + 2 * i] == "0123456789abcdef"[hash[i] / 16] && base[6 + 2 * i] == "0123456789abcdef"[hash[i] % 16]
    {
      assert base[5 + 2 * i] == hex[2 * i] && base[6 + 2 * i] == hex[2 * i + 1];
      HexDigitMeans(hash[i] / 16);
      HexDigitMeans(hash[i] % 16);
    }
  }

  function FallbackUsername(sha256: string -> seq<Byte>, oidcSubject: string): string
    requires |sha256(oidcSubject)| == 32
  {
    "user-" + HexEncode(sha256(oidcSubject))[..8]
  }

  method DeriveUsernameBase(lower: char -> char, sha256: string -> seq<Byte>,
                            preferredUsername: string, email: string, name: string, oidcSubject: string)
    returns (base: string)
    requires |sha256(oidcSubject)| == 32
    ensures base == DerivedBase(lower, sha256, preferredUsername, email, name, oidcSubject)
    // the preferred username if it leaves anything, else the email's local part, else the name
    ensures Normalized(lower, preferredUsername) != "" ==> base == Normalized(lower, preferredUsername)
    ensures Normalized(lower, preferredUsername) == "" && Normalized(lower, EmailLocalPart(email)) != "" ==>
      base == Normalized(lower, EmailLocalPart(email))
    ensures
      && Normalized(lower, preferredUsername) == "" && Normalized(lower, EmailLocalPart(email)) == ""
      && Normalized(lower, name) != ""
      ==> base == Normalized(lower, name)
    // else the first eight hexadecimal digits of the subject's hash
    ensures
      && Normalized(lower, preferredUsername) == "" && Normalized(lower, EmailLocalPart(email)) == ""
      && Normalized(lower, name) == ""
      ==> IsFallback(base, sha256(oidcSubject))
  {
    var candidates := [preferredUsername, EmailLocalPart(email), name];
    assert candidates[0] == preferredUsername && candidates[1] == EmailLocalPart(email) && candidates[2] == name;
    for i := 0 to |candidates|
      invariant forall j :: 0 <= j < i ==> Normalized(lower, candidates[j]) == ""
    {
      var normalized := NormalizeUsernameCandidate(lower, candidates[i]);
      if normalized != "" {
        return normalized;
      }
    }
    FallbackDigits(sha256, oidcSubject);
    return FallbackUsername(sha256, oidcSubject);
  }

  function DerivedBase(lower: char -> char, sha256: string -> seq<Byte>,
                       preferredUsername: string, email: string, name: string, oidcSubject: string): string
    requires |sha256(oidcSubject)| == 32
  {
    var a, b, c :=
      Normalized(lower, preferredUsername), Normalized(lower, EmailLocalPart(email)), Normalized(lower, name);
    if a != "" then a else if b != "" then b else if c != "" then c else FallbackUsername(sha256, oidcSubject)
  }

  // What every derived base has, and all that the candidate guarantees need.
  ghost predicate GoodBase(base: string) {
    base != "" && |base| <= MAX_LENGTH && Tidy(base) && (EndsInDash(base) ==> |base| == MAX_LENGTH)
  }

  lemma DerivedBaseIsGood(lower: char -> char, sha256: string -> seq<Byte>,
                          preferredUsername: string, email: string, name: string, oidcSubject: string)
    requires |sha256(oidcSubject)| == 32
    ensures GoodBase(DerivedBase(lower, sha256, preferredUsername, email, name, oidcSubject))
  {
    NormalizedKeepsContent(lower, preferredUsername);
    NormalizedKeepsContent(lower, EmailLocalPart(email));
    NormalizedKeepsContent(lower, name);
    var hex := HexEncode(sha256(oidcSubject))[..8];
    var fallback := "user-" + hex;
    assert forall i :: 5 <= i < |fallback| ==> fallback[i] == hex[i - 5];
  }

  // ---- suffixes

  function UsernameWithSuffix(base: string, suffix: string): string
    requires |suffix| <= MAX_LENGTH
  {
    (if |base| > MAX_LENGTH - |suffix| then TrimRight(base[..MAX_LENGTH - |suffix|]) else base) + suffix
  }

  // The suffix is whole; before it stands the base, or where that is too long its first characters, as many as fit, less
  // the dashes at the cut.
  lemma SuffixedKeepsBase(base: string, suffix: string)
    requires |suffix| <= 32
    ensures var r := UsernameWithSuffix(base, suffix);
      && |suffix| <= |r| && r[|r| - |suffix|..] == suffix
      && var kept := r[..|r| - |suffix|];
         && kept <= base
         && (|base| + |suffix| <= 32 ==> kept == base)
         && (|base| + |suffix| > 32 ==>
             && |kept| <= 32 - |suffix| && (kept != "" ==> kept[|kept| - 1] != '-')
             && forall i :: |kept| <= i < 32 - |suffix| ==> base[i] == '-')
  {}

  // A dash followed by one to four word characters: every suffix the iterator appends.
  ghost predicate DashSuffix(suffix: string) {
    && 2 <= |suffix| <= 5 && suffix[0] == '-'
    && forall i :: 1 <= i < |suffix| ==> IsWord(suffix[i])
  }

  // Every suffixed candidate of a good base is a valid username without stray dashes.
  lemma SuffixedIsWellFormed(base: string, suffix: string)
    requires GoodBase(base) && DashSuffix(suffix)
    ensures var r := UsernameWithSuffix(base, suffix);
      ValidUsername(r) && Tidy(r) && !EndsInDash(r)
  {
    var max := MAX_LENGTH - |suffix|;
    var kept := if |base| > max then TrimRight(base[..max]) else base;
    assert kept != "" && !EndsInDash(kept);
    var r := UsernameWithSuffix(base, suffix);
    assert forall i :: 0 <= i < |kept| ==> r[i] == kept[i] == base[i];
    assert forall i :: |kept| <= i < |r| ==> r[i] == suffix[i - |kept|];
    forall i | 0 <= i < |r| - 1 ensures r[i] != '-' || r[i + 1] != '-' {
      if i < |kept| - 1 { assert base[i] != '-' || base[i + 1] != '-'; }
    }
  }

  function AfterLastDash(s: string): string {
    if s == "" || s[|s| - 1] == '-' then "" else AfterLastDash(s[..|s| - 1]) + [s[|s| - 1]]
  }

  lemma {:induction false} AfterLastDashOfSuffix(kept: string, word: string)
    requires forall i :: 0 <= i < |word| ==> IsWord(word[i])
    ensures AfterLastDash(kept + "-" + word) == word
  {
    var s := kept + "-" + word;
    if word != "" {
      assert s[..|s| - 1] == kept + "-" + word[..|word| - 1];
      AfterLastDashOfSuffix(kept, word[..|word| - 1]);
      assert word == word[..|word| - 1] + [word[|word| - 1]];
    }
  }

  // The suffix can be read back off a candidate, so different suffixes give different candidates.
  lemma SuffixIsRecoverable(base: string, suffix: string)
    requires DashSuffix(suffix)
    ensures AfterLastDash(UsernameWithSuffix(base, suffix)) == suffix[1..]
  {
    var max := MAX_LENGTH - |suffix|;
    var kept := if |base| > max then TrimRight(base[..max]) else base;
    assert suffix == "-" + suffix[1..];
    assert UsernameWithSuffix(base, suffix) == kept + "-" + suffix[1..];
    AfterLastDashOfSuffix(kept, suffix[1..]);
  }

  ghost predicate EndsWith(s: string, suffix: string) {
    |suffix| <= |s| && s[|s| - |suffix|..] == suffix
  }

  // What a cut to max characters keeps once trailing dashes are stripped: all of it, or all but a final dash.
  lemma CutKeeps(base: string, max: nat)
    requires NoDoubleDash(base) && 2 <= max <= |base|
    ensures TrimRight(base[..max]) == if base[max - 1] == '-' then base[..max - 1] else base[..max]
  {
    var cut := base[..max];
    if base[max - 1] == '-' {
      assert base[max - 2] != '-';
      assert cut[..max - 1] == base[..max - 1];
      assert TrimRight(cut) == TrimRight(base[..max - 1]) == base[..max - 1];
    }
  }

  lemma SuffixStartsWithDash(base: string, suffix: string)
    requires DashSuffix(suffix) && EndsWith(base, suffix)
    ensures base[|base| - |suffix|] == '-'
    ensures forall i :: |base| - |suffix| < i < |base| ==> base[i] != '-'
  {
    var head := |base| - |suffix|;
    assert forall i :: head <= i < |base| ==> base[i] == base[head..][i - head];
  }

  lemma SuffixedEqualsBaseWhen(base: string, suffix: string)
    requires GoodBase(base) && DashSuffix(suffix) && |base| >= 31 && EndsWith(base, suffix)
    ensures UsernameWithSuffix(base, suffix) == base
  {
    var max, head := MAX_LENGTH - |suffix|, |base| - |suffix|;
    SuffixStartsWithDash(base, suffix);
    assert base == base[..head] + base[head..];
    assert base[head - 1] != '-';
    if |base| > max {
      CutKeeps(base, max);
      assert TrimRight(base[..max]) == base[..head];
    }
  }

  lemma SuffixedEqualsBaseOnlyWhen(base: string, suffix: string)
    requires GoodBase(base) && DashSuffix(suffix) && UsernameWithSuffix(base, suffix) == base
    ensures |base| >= 31 && EndsWith(base, suffix)
  {
    var max := MAX_LENGTH - |suffix|;
    if |base| > max {
      CutKeeps(base, max);
      var kept := TrimRight(base[..max]);
      assert (kept + suffix)[|kept|..] == suffix;
    }
  }

  // Exactly when suffixing reproduces the base itself.
  lemma SuffixedEqualsBase(base: string, suffix: string)
    requires GoodBase(base) && DashSuffix(suffix)
    ensures UsernameWithSuffix(base, suffix) == base <==> |base| >= 31 && EndsWith(base, suffix)
  {
    if UsernameWithSuffix(base, suffix) == base { SuffixedEqualsBaseOnlyWhen(base, suffix); }
    if |base| >= 31 && EndsWith(base, suffix) { SuffixedEqualsBaseWhen(base, suffix); }
  }
}

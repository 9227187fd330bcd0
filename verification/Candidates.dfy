// The username candidate iterator (internal/server/username.go).

module Candidates {
  import opened Prelude
  import opened Positional
  import opened Username

  const NUMERIC_SUFFIX_MAX := 99
  const RANDOM_SUFFIX_LEN := 4
  const RANDOM_SUFFIX_TRIES := 5
  const CANDIDATES := NUMERIC_SUFFIX_MAX + RANDOM_SUFFIX_TRIES
  const LETTERS := "abcdefghijklmnopqrstuvwxyz" + "0123456789"

  ghost predicate IsRandomSuffix(s: string) {
    |s| == RANDOM_SUFFIX_LEN && forall i :: 0 <= i < |s| ==> IsWord(s[i])
  }

  // One entry per call of the random source; None is an error of that source.
  ghost predicate AreDraws(draws: seq<Option<string>>) {
    |draws| == RANDOM_SUFFIX_TRIES && forall i :: 0 <= i < |draws| && draws[i].Some? ==> IsRandomSuffix(draws[i].value)
  }

  // fmt's %d.
  function Decimal(n: nat): (s: string)
    ensures s != "" && forall i :: 0 <= i < |s| ==> '0' <= s[i] <= '9'
  {
    var last := ['0' + (n % 10) as char];
    if n < 10 then last else Decimal(n / 10) + last
  }

  function DigitValues(s: string): (r: seq<int>)
    ensures |r| == |s| && forall i :: 0 <= i < |s| ==> r[i] == s[i] as int - '0' as int
  {
    seq(|s|, i requires 0 <= i < |s| => s[i] as int - '0' as int)
  }

  // The digits denote n, and there is no leading zero.
  lemma {:induction false} DecimalDenotes(n: nat)
    ensures Eval(10, DigitValues(Decimal(n))) == n
    ensures if n == 0 then Decimal(n) == "0" else Decimal(n)[0] != '0'
  {
    var s := Decimal(n);
    if n < 10 {
      assert DigitValues(s)[..0] == [];
    } else {
      DecimalDenotes(n / 10);
      assert DigitValues(s)[..|s| - 1] == DigitValues(Decimal(n / 10));
      assert s[0] == Decimal(n / 10)[0];
    }
  }

  lemma {:induction false} DecimalInjective(m: nat, n: nat)
    requires Decimal(m) == Decimal(n)
    ensures m == n
  {
    var s, t := Decimal(m), Decimal(n);
    assert s[|s| - 1] as int - '0' as int == m % 10;
    assert t[|t| - 1] as int - '0' as int == n % 10;
    if m >= 10 && n >= 10 {
      assert s[..|s| - 1] == Decimal(m / 10) && t[..|t| - 1] == Decimal(n / 10);
      DecimalInjective(m / 10, n / 10);
    }
  }

  function NumericSuffix(k: nat): string {
    "-" + Decimal(k + 1)
  }

  lemma NumericSuffixShape(k: nat)
    requires k < NUMERIC_SUFFIX_MAX
    ensures DashSuffix(NumericSuffix(k)) && |NumericSuffix(k)| <= 3
    ensures NumericSuffix(k)[1..] == Decimal(k + 1)
  {
    var d := Decimal(k + 1);
    assert k + 1 >= 10 ==> |Decimal((k + 1) / 10)| == 1;
    var s := NumericSuffix(k);
    assert forall i :: 1 <= i < |s| ==> s[i] == d[i - 1];
  }

  // The k-th candidate does not depend on a random suffix that was not delivered.
  ghost predicate Drawn(draws: seq<Option<string>>, k: nat)
    requires AreDraws(draws) && k < CANDIDATES
  {
    k >= NUMERIC_SUFFIX_MAX ==> draws[k - NUMERIC_SUFFIX_MAX].Some?
  }

  // -2 to -99, then the random suffixes drawn.
  ghost function Suffix(draws: seq<Option<string>>, k: nat): (s: string)
    requires AreDraws(draws) && 1 <= k < CANDIDATES
    requires Drawn(draws, k)
    ensures |s| <= 1 + RANDOM_SUFFIX_LEN
  {
    if k < NUMERIC_SUFFIX_MAX then (NumericSuffixShape(k); NumericSuffix(k))
    else "-" + draws[k - NUMERIC_SUFFIX_MAX].value
  }

  // The k-th candidate: the base, then the base with one suffix after the other.
  ghost function Candidate(base: string, draws: seq<Option<string>>, k: nat): string
    requires AreDraws(draws) && k < CANDIDATES
    requires Drawn(draws, k)
  {
    if k == 0 then base else UsernameWithSuffix(base, Suffix(draws, k))
  }

  datatype NextResult = Next(candidate: string) | Exhausted | RandomnessFailed

  // What the k-th call delivers, counting from 0.
  ghost function NextOf(base: string, draws: seq<Option<string>>, k: nat): NextResult
    requires AreDraws(draws) && k <= CANDIDATES
  {
    if k == CANDIDATES then Exhausted
    else if !Drawn(draws, k) then RandomnessFailed
    else NextResult.Next(Candidate(base, draws, k))
  }

  class UsernameCandidateIterator {
    const base: string
    var nextIndex: nat
    var randomGenerated: nat

    constructor (base: string)
      ensures this.base == base && Valid() && Position() == 0
    {
      this.base := base;
      nextIndex, randomGenerated := 0, 0;
    }

    ghost predicate Valid()
      reads this
    {
      && nextIndex <= NUMERIC_SUFFIX_MAX && randomGenerated <= RANDOM_SUFFIX_TRIES
      && (randomGenerated > 0 ==> nextIndex == NUMERIC_SUFFIX_MAX)
    }

    // How many candidates have been handed out.
    ghost function Position(): nat
      reads this
    {
      nextIndex + randomGenerated
    }

    // draws[i] is what the i-th call of the random source would deliver; only entry randomGenerated is consulted.
    method Next(draws: seq<Option<string>>) returns (r: NextResult)
      requires Valid() && AreDraws(draws)
      modifies this
      ensures Valid() && old(Position()) <= CANDIDATES
      ensures r == NextOf(base, draws, old(Position()))
      ensures Position() == if r.Next? then old(Position()) + 1 else old(Position())
      // the base; then the base with -2 to -99; then with five random suffixes
      ensures old(Position()) == 0 ==> r == NextResult.Next(base)
      ensures 1 <= old(Position()) < 99 ==>
        |Decimal(old(Position()) + 1)| <= 2 && r == NextResult.Next(UsernameWithSuffix(base, "-" + Decimal(old(Position()) + 1)))
      ensures 99 <= old(Position()) < 104 ==>
        var draw := draws[old(Position()) - 99];
        r == if draw.None? then RandomnessFailed else NextResult.Next(UsernameWithSuffix(base, "-" + draw.value))
      ensures old(Position()) == 104 ==> r == Exhausted
    {
      ghost var k := Position();
      if nextIndex == 0 {
        r := NextResult.Next(base);
        nextIndex := nextIndex + 1;
      } else if nextIndex < NUMERIC_SUFFIX_MAX {
        r := WithNumber(base, draws, nextIndex, k);
        nextIndex := nextIndex + 1;
      } else if randomGenerated < RANDOM_SUFFIX_TRIES {
        r := WithDraw(base, draws, randomGenerated, k);
        randomGenerated := if r.Next? then randomGenerated + 1 else randomGenerated;
      } else {
        r := Exhausted;
      }
    }
  }

  method WithNumber(base: string, ghost draws: seq<Option<string>>, index: nat, ghost k: nat) returns (r: NextResult)
    requires AreDraws(draws) && 1 <= index < NUMERIC_SUFFIX_MAX && k == index
    ensures r == NextOf(base, draws, k) && r.Next?
  {
    NumericSuffixShape(index);
    return NextResult.Next(UsernameWithSuffix(base, "-" + Decimal(index + 1)));
  }

  method WithDraw(base: string, draws: seq<Option<string>>, index: nat, ghost k: nat) returns (r: NextResult)
    requires AreDraws(draws) && index < RANDOM_SUFFIX_TRIES && k == NUMERIC_SUFFIX_MAX + index
    ensures r == NextOf(base, draws, k) && !r.Exhausted?
  {
    if draws[index].None? {
      return RandomnessFailed;
    }
    return NextResult.Next(UsernameWithSuffix(base, "-" + draws[index].value));
  }

  // One random suffix from numbers below |LETTERS|; None where the random source fails.
  method RandomUsernameSuffix(length: nat, numbers: seq<Option<int>>) returns (r: Option<string>)
    requires |numbers| == length
    requires forall i :: 0 <= i < length && numbers[i].Some? ==> 0 <= numbers[i].value < |LETTERS|
    ensures r.None? <==> exists i :: 0 <= i < length && numbers[i].None?
    ensures r.Some? ==>
      && |r.value| == length
      && forall i :: 0 <= i < length ==> IsWord(r.value[i]) && r.value[i] == "abcdefghijklmnopqrstuvwxyz0123456789"[numbers[i].value]
  {
    var b := new char[length](_ => '\0');
    for i := 0 to length
      invariant forall j :: 0 <= j < i ==>
        numbers[j].Some? && IsWord(b[j]) && b[j] == LETTERS[numbers[j].value]
    {
      if numbers[i].None? {
        return None;
      }
      LettersAreWords(numbers[i].value);
      b[i] := LETTERS[numbers[i].value];
    }
    return Some(b[..]);
  }

  lemma LettersAreWords(n: nat)
    requires n < |LETTERS|
    ensures IsWord(LETTERS[n])
  {
    var letters, digits := "abcdefghijklmnopqrstuvwxyz", "0123456789";
    assert forall i :: 0 <= i < |letters| ==> 'a' <= letters[i] <= 'z';
    assert forall i :: 0 <= i < |digits| ==> '0' <= digits[i] <= '9';
    if n < 26 { assert LETTERS[n] == letters[n]; } else { assert LETTERS[n] == digits[n - 26]; }
  }

  // ---- guarantees over the whole sequence of candidates

  lemma DrawSuffixShape(w: string)
    requires IsRandomSuffix(w)
    ensures DashSuffix("-" + w) && ("-" + w)[1..] == w
  {
    assert forall i :: 1 <= i <= |w| ==> ("-" + w)[i] == w[i - 1];
  }

  // Every candidate after the base is a valid username without stray dashes; the base is valid too.
  lemma CandidatesWellFormed(base: string, draws: seq<Option<string>>, k: nat)
    requires GoodBase(base) && AreDraws(draws) && k < CANDIDATES
    requires Drawn(draws, k)
    ensures var c := Candidate(base, draws, k);
      ValidUsername(c) && Tidy(c) && (EndsInDash(c) ==> k == 0 && |base| == MAX_LENGTH)
  {
    if k == 0 {
    } else if k < NUMERIC_SUFFIX_MAX {
      NumericSuffixShape(k);
      SuffixedIsWellFormed(base, NumericSuffix(k));
    } else {
      DrawSuffixShape(draws[k - NUMERIC_SUFFIX_MAX].value);
      SuffixedIsWellFormed(base, "-" + draws[k - NUMERIC_SUFFIX_MAX].value);
    }
  }

  ghost function SuffixWord(draws: seq<Option<string>>, k: nat): string
    requires AreDraws(draws) && k < CANDIDATES
    requires Drawn(draws, k)
  {
    if k < NUMERIC_SUFFIX_MAX then Decimal(k + 1) else draws[k - NUMERIC_SUFFIX_MAX].value
  }

  lemma SuffixWordsDistinct(draws: seq<Option<string>>, i: nat, j: nat)
    requires AreDraws(draws) && 1 <= i < NUMERIC_SUFFIX_MAX && 1 <= j < CANDIDATES && i != j
    requires Drawn(draws, j)
    ensures SuffixWord(draws, i) != SuffixWord(draws, j)
  {
    if j < NUMERIC_SUFFIX_MAX {
      if Decimal(i + 1) == Decimal(j + 1) { DecimalInjective(i + 1, j + 1); }
    } else {
      NumericSuffixShape(i);
      assert |NumericSuffix(i)| == |Decimal(i + 1)| + 1;
    }
  }

  // What follows a suffixed candidate's last dash is its number, or the random suffix drawn for it.
  lemma CandidateTail(base: string, draws: seq<Option<string>>, k: nat)
    requires AreDraws(draws) && 1 <= k < CANDIDATES
    requires Drawn(draws, k)
    ensures AfterLastDash(Candidate(base, draws, k)) == SuffixWord(draws, k)
  {
    if k < NUMERIC_SUFFIX_MAX {
      NumericSuffixShape(k);
      SuffixIsRecoverable(base, NumericSuffix(k));
    } else {
      DrawSuffixShape(draws[k - NUMERIC_SUFFIX_MAX].value);
      SuffixIsRecoverable(base, "-" + draws[k - NUMERIC_SUFFIX_MAX].value);
    }
  }

  // A numeric candidate differs from every other numeric candidate and from every random one.
  lemma NumericCandidatesDistinct(base: string, draws: seq<Option<string>>, i: nat, j: nat)
    requires AreDraws(draws) && 1 <= i < NUMERIC_SUFFIX_MAX && 1 <= j < CANDIDATES && i != j
    requires Drawn(draws, j)
    ensures Candidate(base, draws, i) != Candidate(base, draws, j)
  {
    CandidateTail(base, draws, i);
    CandidateTail(base, draws, j);
    SuffixWordsDistinct(draws, i, j);
  }

  // A numeric candidate repeats the base exactly when the base is nearly full and already ends in that suffix.
  lemma NumericCandidateVersusBase(base: string, draws: seq<Option<string>>, i: nat)
    requires GoodBase(base) && AreDraws(draws) && 1 <= i < NUMERIC_SUFFIX_MAX
    ensures Candidate(base, draws, i) == base <==> |base| >= 31 && EndsWith(base, NumericSuffix(i))
  {
    NumericSuffixShape(i);
    SuffixedEqualsBase(base, NumericSuffix(i));
  }

  // The numeric candidates, in order.
  ghost function NumericCandidates(base: string, draws: seq<Option<string>>): (names: seq<string>)
    requires AreDraws(draws)
    ensures |names| == 98
    ensures forall i :: 0 <= i < 98 ==> names[i] == Candidate(base, draws, i + 1)
  {
    seq(98, i requires 0 <= i < 98 && AreDraws(draws) => Candidate(base, draws, i + 1))
  }

  lemma {:induction false} DistinctSize<T>(s: seq<T>)
    requires forall i, j :: 0 <= i < j < |s| ==> s[i] != s[j]
    ensures |set x | x in s| == |s|
  {
    if s != [] {
      var front, last := s[..|s| - 1], s[|s| - 1];
      DistinctSize(front);
      assert last !in front;
      assert (set x | x in s) == (set x | x in front) + {last} by {
        assert s == front + [last];
      }
    }
  }

  // Pigeonhole: fewer than 98 taken names leave a numeric candidate free.
  lemma SomeNumericCandidateFree(base: string, draws: seq<Option<string>>, taken: set<string>) returns (k: nat)
    requires AreDraws(draws) && |taken| < 98
    ensures 1 <= k < NUMERIC_SUFFIX_MAX && Candidate(base, draws, k) !in taken
  {
    var names := NumericCandidates(base, draws);
    forall i, j | 0 <= i < j < 98 ensures names[i] != names[j] {
      NumericCandidatesDistinct(base, draws, i + 1, j + 1);
    }
    DistinctSize(names);
    var i := FreeOne(names, taken);
    k := i + 1;
  }

  lemma FreeOne(names: seq<string>, taken: set<string>) returns (i: nat)
    requires |taken| < |names| == |set x | x in names|
    ensures i < |names| && names[i] !in taken
  {
    if forall x :: x in names ==> x in taken {
      SubsetSize((set x | x in names), taken);
      assert false;
    }
    var x :| x in names && x !in taken;
    i :| 0 <= i < |names| && names[i] == x;
  }
}

// Sorting duplicate-free string lists, as sort.Strings does for role attributes.

module SortedStrings {
  import opened Positional

  ghost predicate Sorted(s: seq<string>) {
    forall i, j :: 0 <= i < j < |s| ==> StringLess(s[i], s[j])
  }

  ghost function Elements(s: seq<string>): set<string> {
    set x | x in s
  }

  lemma {:induction false} LexTrichotomy(a: seq<int>, b: seq<int>)
    ensures LexLess(a, b) || LexLess(b, a) || a == b
    ensures !(LexLess(a, b) && LexLess(b, a))
  {
    if a != [] && b != [] {
      LexTrichotomy(a[1..], b[1..]);
      assert a == [a[0]] + a[1..] && b == [b[0]] + b[1..];
    }
  }

  lemma {:induction false} LexTransitive(a: seq<int>, b: seq<int>, c: seq<int>)
    requires LexLess(a, b) && LexLess(b, c)
    ensures LexLess(a, c)
  {
    if a != [] && a[0] == b[0] == c[0] {
      LexTransitive(a[1..], b[1..], c[1..]);
    }
  }

  lemma CodesInjective(s: string, t: string)
    requires Codes(s) == Codes(t)
    ensures s == t
  {
    assert |s| == |t|;
    forall i | 0 <= i < |s| ensures s[i] == t[i] {
      assert Codes(s)[i] == Codes(t)[i];
    }
  }

  // Puts one new string into a sorted list.
  method InsertSorted(s: seq<string>, x: string) returns (r: seq<string>)
    requires Sorted(s) && x !in s
    ensures Sorted(r) && Elements(r) == Elements(s) + {x} && |r| == |s| + 1
  {
    var i := 0;
    while i < |s| && StringLess(s[i], x)
      invariant 0 <= i <= |s|
      invariant forall j :: 0 <= j < i ==> StringLess(s[j], x)
    {
      i := i + 1;
    }
    forall j | i <= j < |s| ensures StringLess(x, s[j]) {
      LexTrichotomy(Codes(s[i]), Codes(x));
      if Codes(s[i]) == Codes(x) { CodesInjective(s[i], x); }
      if i < j { LexTransitive(Codes(x), Codes(s[i]), Codes(s[j])); }
    }
    r := s[..i] + [x] + s[i..];
    assert forall y :: y in r <==> y in s || y == x by {
      assert s == s[..i] + s[i..];
    }
  }

  method SortStrings(s: seq<string>) returns (r: seq<string>)
    requires forall i, j :: 0 <= i < j < |s| ==> s[i] != s[j]
    ensures Sorted(r) && Elements(r) == Elements(s) && |r| == |s|
  {
    r := [];
    for i := 0 to |s|
      invariant Sorted(r) && Elements(r) == Elements(s[..i]) && |r| == i
    {
      assert s[i] !in s[..i];
      assert forall x :: x in r <==> x in Elements(r);
      r := InsertSorted(r, s[i]);
      assert s[..i + 1] == s[..i] + [s[i]];
    }
    assert s[..|s|] == s;
  }
}

// Prefix search: LIKE escaping and the directory query (internal/store/store.go).

module UserSearch {
  import opened Prelude
  import opened UpdateBuilder
  import opened UserStore

  // PostgreSQL LIKE (documentation section 9.7.1): backslash escapes, % matches any string, _ any character.
  ghost predicate Like(s: string, pattern: string)
    decreases |pattern|, |s|
  {
    if pattern == "" then s == ""
    else if pattern[0] == '\\' then
      |pattern| >= 2 && s != "" && s[0] == pattern[1] && Like(s[1..], pattern[2..])
    else if pattern[0] == '%' then Like(s, pattern[1..]) || (s != "" && Like(s[1..], pattern))
    else s != "" && (pattern[0] == '_' || s[0] == pattern[0]) && Like(s[1..], pattern[1..])
  }

  function EscapeLikePattern(value: string): string {
    if value == "" then ""
    else
      (if value[0] == '\\' then "\\\\" else if value[0] == '%' then "\\%" else if value[0] == '_' then "\\_"
       else [value[0]])
      + EscapeLikePattern(value[1..])
  }

  lemma {:induction false} PercentMatchesAll(s: string)
    ensures Like(s, "%")
    decreases |s|
  {
    assert "%"[1..] == "";
    if s != "" { PercentMatchesAll(s[1..]); }
  }

  // The escaped text consumes exactly the text itself; what follows it in the pattern meets the rest.
  lemma {:induction false} EscapedThenRest(s: string, p: string, rest: string)
    ensures Like(s, EscapeLikePattern(p) + rest) <==> p <= s && Like(s[|p|..], rest)
  {
    if p == "" {
      assert EscapeLikePattern(p) + rest == rest && s[0..] == s;
    } else {
      EscapedHead(s, p, rest);
      if s != "" && s[0] == p[0] {
        EscapedThenRest(s[1..], p[1..], rest);
        assert |p| <= |s| ==> s[1..][|p| - 1..] == s[|p|..];
        assert p <= s <==> p[1..] <= s[1..] by {
          assert p == [p[0]] + p[1..] && s == [s[0]] + s[1..];
        }
      }
    }
  }

  lemma LikeEscaped(s: string, c: char, tail: string)
    ensures Like(s, ['\\', c] + tail) <==> s != "" && s[0] == c && Like(s[1..], tail)
  {
    assert (['\\', c] + tail)[2..] == tail;
  }

  lemma LikePlain(s: string, c: char, tail: string)
    requires c != '\\' && c != '%' && c != '_'
    ensures Like(s, [c] + tail) <==> s != "" && s[0] == c && Like(s[1..], tail)
  {
    assert ([c] + tail)[1..] == tail;
  }

  lemma EscapedHead(s: string, p: string, rest: string)
    requires p != ""
    ensures Like(s, EscapeLikePattern(p) + rest) <==>
      s != "" && s[0] == p[0] && Like(s[1..], EscapeLikePattern(p[1..]) + rest)
  {
    var tail := EscapeLikePattern(p[1..]) + rest;
    if p[0] == '\\' || p[0] == '%' || p[0] == '_' {
      assert EscapeLikePattern(p) + rest == ['\\', p[0]] + tail;
      LikeEscaped(s, p[0], tail);
    } else {
      assert EscapeLikePattern(p) + rest == [p[0]] + tail;
      LikePlain(s, p[0], tail);
    }
  }

  // A name matches the search pattern exactly when it starts with the searched text, whatever that text is.
  lemma EscapedLikeIsPrefix(name: string, p: string)
    ensures Like(name, EscapeLikePattern(p) + "%") <==> p <= name
  {
    EscapedThenRest(name, p, "%");
    if p <= name { PercentMatchesAll(name[|p|..]); }
  }

  // And without the appended %, only the text itself matches.
  lemma EscapedLikeIsEquality(name: string, p: string)
    ensures Like(name, EscapeLikePattern(p)) <==> name == p
  {
    assert EscapeLikePattern(p) + "" == EscapeLikePattern(p);
    EscapedThenRest(name, p, "");
    if p <= name { assert name == p + name[|p|..]; }
  }

  // ---- the directory query

  datatype Entry = Entry(id: Uuid, username: string, name: string, photoUrl: string)

  // The column's collation: some strict total order on text.
  ghost predicate StrictTotal(less: (string, string) -> bool) {
    && (forall a :: !less(a, a))
    && (forall a, b :: a != b ==> less(a, b) || less(b, a))
    && (forall a, b, c :: less(a, b) && less(b, c) ==> less(a, c))
  }

  ghost predicate Selected(row: User, pattern: string) {
    row.username.Some? && row.username.value != "" && Like(row.username.value, pattern)
  }

  function EntryOf(row: User): Entry
    requires row.username.Some?
  {
    Entry(row.id, row.username.value, row.name, row.photoUrl)
  }

  // ORDER BY (username = exact) DESC, username ASC.
  ghost predicate Precedes(less: (string, string) -> bool, exact: string, a: string, b: string) {
    (a == exact && b != exact) || ((a == exact <==> b == exact) && less(a, b))
  }

  // The first `limit` of the hits in ORDER BY order.
  ghost predicate IsTop(hits: set<Entry>, less: (string, string) -> bool, exact: string, limit: nat, out: seq<Entry>) {
    && (forall i :: 0 <= i < |out| ==> out[i] in hits)
    && (forall i, j :: 0 <= i < j < |out| ==> Precedes(less, exact, out[i].username, out[j].username))
    && |out| == (if |hits| < limit then |hits| else limit)
    && (forall e, i :: e in hits && e !in out && 0 <= i < |out| ==> Precedes(less, exact, out[i].username, e.username))
  }

  ghost function Hits(rows: Rows, pattern: string): set<Entry> {
    set k | k in rows && Selected(rows[k], pattern) :: EntryOf(rows[k])
  }

  // The answer to SELECT ... WHERE username LIKE pattern ORDER BY ... LIMIT limit.
  ghost predicate IsAnswer(rows: Rows, less: (string, string) -> bool, pattern: string, exact: string,
                           limit: nat, out: seq<Entry>) {
    IsTop(Hits(rows, pattern), less, exact, limit, out)
  }

  ghost predicate DistinctNames(hits: set<Entry>) {
    forall a, b :: a in hits && b in hits && a.username == b.username ==> a == b
  }

  lemma {:induction false} LeastExists(hits: set<Entry>, less: (string, string) -> bool, exact: string)
    returns (least: Entry)
    requires hits != {} && DistinctNames(hits) && StrictTotal(less)
    ensures least in hits && forall e :: e in hits && e != least ==> Precedes(less, exact, least.username, e.username)
    decreases hits
  {
    var e :| e in hits;
    least := e;
    if hits != {e} {
      var other := LeastExists(hits - {e}, less, exact);
      least := if Precedes(less, exact, e.username, other.username) then e else other;
    }
  }

  lemma {:induction false} TopExists(hits: set<Entry>, less: (string, string) -> bool, exact: string, limit: nat)
    returns (out: seq<Entry>)
    requires DistinctNames(hits) && StrictTotal(less)
    ensures IsTop(hits, less, exact, limit, out)
    decreases limit
  {
    out := [];
    if hits != {} && limit > 0 {
      var least := LeastExists(hits, less, exact);
      var rest := TopExists(hits - {least}, less, exact, limit - 1);
      out := [least] + rest;
      forall e, i | e in hits && e !in out && 0 <= i < |out|
        ensures Precedes(less, exact, out[i].username, e.username)
      {
        assert e != out[0];
        assert e !in rest;
      }
    }
  }

  // The query has an answer on every table.
  lemma AnswerExists(rows: Rows, less: (string, string) -> bool, pattern: string, exact: string, limit: nat)
    requires UniqueUsernames(rows) && StrictTotal(less)
    ensures exists out :: IsAnswer(rows, less, pattern, exact, limit, out)
  {
    var out := TopExists(Hits(rows, pattern), less, exact, limit);
    assert IsAnswer(rows, less, pattern, exact, limit, out);
  }

  // The users whose name starts with the prefix.
  ghost function PrefixMatches(rows: Rows, prefix: string): set<Entry> {
    set k | k in rows && rows[k].username.Some? && rows[k].username.value != "" && prefix <= rows[k].username.value ::
      EntryOf(rows[k])
  }

  // SearchUsers returns the first `limit` prefix matches in name order, a stored exact match always among them and first.
  lemma SearchReturnsPrefixMatches(rows: Rows, less: (string, string) -> bool, prefix: string, limit: nat, out: seq<Entry>)
    requires Keyed(rows) && UniqueUsernames(rows) && StrictTotal(less) && limit > 0
    requires IsAnswer(rows, less, EscapeLikePattern(prefix) + "%", prefix, limit, out)
    ensures var hits := PrefixMatches(rows, prefix);
      && (forall i :: 0 <= i < |out| ==> out[i] in hits)
      && (forall i, j :: 0 <= i < j < |out| ==> out[i] != out[j])
      && (|out| == limit || forall e :: e in hits ==> e in out)
      && (forall i, j :: 0 <= i < j < |out| && out[i].username != prefix ==> less(out[i].username, out[j].username))
      && (forall e, i :: e in hits && e !in out && 0 <= i < |out| && out[i].username != prefix ==>
          less(out[i].username, e.username))
    ensures forall e :: e in PrefixMatches(rows, prefix) && e.username == prefix ==> out != [] && out[0] == e
  {
    var hits := PrefixMatches(rows, prefix);
    forall k | k in rows && rows[k].username.Some?
      ensures Selected(rows[k], EscapeLikePattern(prefix) + "%") <==>
              rows[k].username.value != "" && prefix <= rows[k].username.value
    {
      EscapedLikeIsPrefix(rows[k].username.value, prefix);
    }
    assert hits == Hits(rows, EscapeLikePattern(prefix) + "%");
    if |out| < limit {
      DistinctCover(hits, out);
    }
    forall e | e in hits && e.username == prefix ensures out != [] && out[0] == e {
      ExactFirst(hits, less, prefix, limit, out, e);
      SameNameSameEntry(rows, prefix, e, out[0]);
    }
  }

  // In terms of the table: each entry has the columns of its row, every row that matches has an entry unless the limit is
  // reached, and the row with exactly this name comes first.
  lemma SearchReturnsRows(rows: Rows, less: (string, string) -> bool, prefix: string, limit: nat, out: seq<Entry>)
    requires Keyed(rows) && UniqueUsernames(rows) && StrictTotal(less) && limit > 0
    requires IsAnswer(rows, less, EscapeLikePattern(prefix) + "%", prefix, limit, out)
    ensures forall i :: 0 <= i < |out| ==>
      && out[i].id in rows && rows[out[i].id].username == Some(out[i].username)
      && out[i].username != "" && prefix <= out[i].username
      && out[i].name == rows[out[i].id].name && out[i].photoUrl == rows[out[i].id].photoUrl
    ensures |out| == limit ||
      forall k :: k in rows && rows[k].username.Some? && rows[k].username.value != "" && prefix <= rows[k].username.value ==>
        exists i :: 0 <= i < |out| && out[i].id == k
    ensures forall k :: k in rows && rows[k].username == Some(prefix) && prefix != "" ==> out != [] && out[0].id == k
  {
    SearchReturnsPrefixMatches(rows, less, prefix, limit, out);
    forall k | k in rows && rows[k].username.Some? && rows[k].username.value != "" && prefix <= rows[k].username.value
      ensures EntryOf(rows[k]) in PrefixMatches(rows, prefix) && EntryOf(rows[k]).id == k
    {
    }
  }

  // A hit with the exact name is not beaten by another name.
  lemma ExactFirst(hits: set<Entry>, less: (string, string) -> bool, exact: string, limit: nat, out: seq<Entry>, e: Entry)
    requires IsTop(hits, less, exact, limit, out) && StrictTotal(less) && limit > 0
    requires e in hits && e.username == exact
    ensures out != [] && out[0].username == exact
  {
    if e in out {
      var i :| 0 <= i < |out| && out[i] == e;
      if i > 0 { assert Precedes(less, exact, out[0].username, out[i].username); }
    }
  }

  lemma SameNameSameEntry(rows: Rows, prefix: string, a: Entry, b: Entry)
    requires UniqueUsernames(rows) && a in PrefixMatches(rows, prefix) && b in PrefixMatches(rows, prefix)
    ensures a.username == b.username ==> a == b
  {
    var j :| j in rows && rows[j].username.Some? && a == EntryOf(rows[j]);
    var k :| k in rows && rows[k].username.Some? && b == EntryOf(rows[k]);
  }

  lemma {:induction false} DistinctCover(hits: set<Entry>, out: seq<Entry>)
    requires forall i :: 0 <= i < |out| ==> out[i] in hits
    requires forall i, j :: 0 <= i < j < |out| ==> out[i] != out[j]
    requires |out| == |hits|
    ensures forall e :: e in hits ==> e in out
  {
    if out != [] {
      var last, front := out[|out| - 1], out[..|out| - 1];
      DistinctCover(hits - {last}, front);
      forall e | e in hits ensures e in out {
        if e != last { assert e in front; }
      }
    }
  }
}

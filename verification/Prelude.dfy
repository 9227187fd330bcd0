// Shared value types.

module Prelude {
  // UUIDs by their 128-bit value, which is also their order in the database.
  const UUID_LIMIT: nat := 0x1_0000000000000000_0000000000000000

  type Uuid = x: nat | x < UUID_LIMIT

  datatype Option<+T> = None | Some(value: T)

  datatype Result<+T, +E> = Ok(value: T) | Err(error: E)

  lemma SubsetSize<T>(a: set<T>, b: set<T>)
    requires a <= b
    ensures |a| <= |b|
  {
    assert b == a + (b - a);
  }

  // Finite sets leave numbers and texts over.
  lemma NewKey(s: set<nat>) returns (k: nat)
    ensures k !in s
  {
    k := 0;
    if s != {} {
      k := Top(s);
      k := k + 1;
    }
  }

  lemma {:induction false} Top(s: set<nat>) returns (top: nat)
    requires s != {}
    ensures top in s && forall k :: k in s ==> k <= top
  {
    var k :| k in s;
    top := k;
    if s != {k} {
      assert forall j :: j in s && j != k ==> j in s - {k};
      var other := Top(s - {k});
      top := if k < other then other else k;
    }
  }

  lemma NewText(s: set<string>) returns (t: string)
    ensures t !in s
  {
    var lengths: set<nat> := set x | x in s :: |x|;
    var k := NewKey(lengths);
    t := seq(k, _ => 'a');
    assert t in s ==> |t| in lengths;
  }
}

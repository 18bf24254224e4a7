/** Values and limits shared by the whole model. */
module Basics {
  newtype byte = x: int | 0 <= x < 256
  type Bytes = seq<byte>

  /** A Go string is a byte sequence; its length is counted in bytes. */
  type Id = Bytes

  /** Nanoseconds since the Unix epoch. */
  type Time = int

  datatype Option<+T> = None | Some(value: T)

  const SECOND: int := 1_000_000_000
  const TTL_MAX: int := 30 * 60 * SECOND
  const CLUSTER_TTL: int := TTL_MAX

  const CLUSTER_ID_MAX: nat := 256
  const AFFILIATE_ID_MAX: nat := 256
  const AFFILIATE_DATA_MAX: nat := 2048
  const AFFILIATE_ENDPOINT_MAX: nat := 32
  const AFFILIATES_MAX: nat := 1024
  const AFFILIATE_ENDPOINTS_MAX: nat := 64

  /** The zero value of Go's time.Time: 0001-01-01T00:00:00Z. */
  const ZERO_TIME: Time := -62135596800 * SECOND

  function Max(a: int, b: int): int {
    if a < b then b else a
  }

  lemma TakeNext<T>(s: seq<T>, j: nat)
    requires j < |s|
    ensures s[..j + 1] == s[..j] + [s[j]]
    ensures s[..j + 1][..j] == s[..j]
    ensures j + 1 == |s| ==> s[..j + 1] == s
  {
  }

  lemma FrontLast<T>(s: seq<T>)
    requires s != []
    ensures s == s[..|s| - 1] + [s[|s| - 1]]
  {
  }

  ghost function Elems<T>(s: seq<T>): set<T> {
    set x | x in s
  }

  lemma ElemsConcat<T>(s: seq<T>, t: seq<T>)
    ensures Elems(s + t) == Elems(s) + Elems(t)
  {
  }

  ghost predicate NoDuplicates<T>(s: seq<T>) {
    s == [] || (s[|s| - 1] !in s[..|s| - 1] && NoDuplicates(s[..|s| - 1]))
  }

  lemma NoDuplicatesAt<T>(s: seq<T>, j: nat)
    requires NoDuplicates(s) && j < |s|
    ensures s[j] !in s[..j]
  {
    forall i | 0 <= i < j
      ensures s[i] != s[j]
    {
      NoDuplicatesDiffer(s, i, j);
    }
  }

  lemma {:induction false} NoDuplicatesDiffer<T>(s: seq<T>, i: nat, j: nat)
    requires NoDuplicates(s) && i < j < |s|
    ensures s[i] != s[j]
  {
    if j < |s| - 1 {
      NoDuplicatesDiffer(s[..|s| - 1], i, j);
    } else {
      assert s[i] == s[..j][i];
    }
  }

  lemma NoDuplicatesAppend<T>(s: seq<T>, x: T)
    requires NoDuplicates(s) && x !in s
    ensures NoDuplicates(s + [x])
  {
    assert (s + [x])[..|s|] == s;
  }

  lemma {:induction false} NoDuplicatesPrefix<T>(s: seq<T>, k: nat)
    requires NoDuplicates(s) && k <= |s|
    ensures NoDuplicates(s[..k])
    decreases |s|
  {
    if k < |s| {
      NoDuplicatesPrefix(s[..|s| - 1], k);
      assert s[..|s| - 1][..k] == s[..k];
    } else {
      assert s[..k] == s;
    }
  }

  lemma {:induction false} NoDuplicatesCardinality<T>(s: seq<T>)
    requires NoDuplicates(s)
    ensures |Elems(s)| == |s|
  {
    if |s| == 0 {
      assert Elems(s) == {};
    } else {
      var last := |s| - 1;
      NoDuplicatesCardinality(s[..last]);
      assert s == s[..last] + [s[last]];
      assert Elems(s) == Elems(s[..last]) + {s[last]};
    }
  }

  lemma {:induction false} SubsetCardinality<T>(a: set<T>, b: set<T>)
    requires a <= b
    ensures |a| <= |b|
    ensures |a| == |b| ==> a == b
  {
    assert b == a + (b - a);
    assert |b| == |a| + |b - a|;
  }

  /** The first j elements of an ordering have been visited. */
  ghost predicate Visited<T>(done: set<T>, order: seq<T>, j: nat) {
    j <= |order| && done == Elems(order[..j])
  }

  lemma VisitNext<T>(done: set<T>, order: seq<T>, j: nat)
    requires Visited(done, order, j) && NoDuplicates(order) && j < |order|
    ensures order[j] !in done && Visited(done + {order[j]}, order, j + 1)
  {
    if order[j] in done {
      var m :| 0 <= m < j && order[..j][m] == order[j];
      NoDuplicatesDiffer(order, m, j);
    }
    assert order[..j + 1] == order[..j] + [order[j]];
  }

  lemma VisitedAll<T>(done: set<T>, order: seq<T>)
    requires Visited(done, order, |order|)
    ensures forall x :: x in done <==> x in order
  {
    assert order[..|order|] == order;
  }

  /** The elements of a set in some order: Go iterates a map in an order nobody may rely on. */
  method AnyOrder<T>(s: set<T>) returns (r: seq<T>)
    ensures NoDuplicates(r) && forall x :: x in r <==> x in s
  {
    r := [];
    var todo := s;
    while todo != {}
      invariant NoDuplicates(r)
      invariant forall x :: x in s <==> x in r || x in todo
      invariant forall x :: x in r ==> x !in todo
      decreases |todo|
    {
      var x :| x in todo;
      NoDuplicatesAppend(r, x);
      r := r + [x];
      todo := todo - {x};
    }
  }
}

/** Total orders, lexicographic order on sequences, and sorting. */
module Ordering {

  ghost predicate TotalOrder<T(!new)>(le: (T, T) -> bool) {
    && (forall x :: le(x, x))
    && (forall x, y :: le(x, y) || le(y, x))
    && (forall x, y :: le(x, y) && le(y, x) ==> x == y)
    && (forall x, y, z :: le(x, y) && le(y, z) ==> le(x, z))
  }

  ghost predicate Sorted<T>(s: seq<T>, le: (T, T) -> bool) {
    forall i, j :: 0 <= i < j < |s| ==> le(s[i], s[j])
  }

  function Insert<T>(x: T, s: seq<T>, le: (T, T) -> bool): (r: seq<T>)
    ensures multiset(r) == multiset(s) + multiset{x}
  {
    if s == [] then [x]
    else if le(x, s[0]) then [x] + s
    else
      assert s == [s[0]] + s[1..];
      [s[0]] + Insert(x, s[1..], le)
  }

  function Sort<T>(s: seq<T>, le: (T, T) -> bool): (r: seq<T>)
    ensures multiset(r) == multiset(s)
  {
    if s == [] then []
    else
      assert s == [s[0]] + s[1..];
      Insert(s[0], Sort(s[1..], le), le)
  }

  lemma {:induction false} InsertSorted<T(!new)>(x: T, s: seq<T>, le: (T, T) -> bool)
    requires TotalOrder(le) && Sorted(s, le)
    ensures Sorted(Insert(x, s, le), le)
  {
    if s != [] && !le(x, s[0]) {
      InsertSorted(x, s[1..], le);
      var rest := Insert(x, s[1..], le);
      forall j | 0 <= j < |rest|
        ensures le(s[0], rest[j])
      {
        assert rest[j] in multiset(rest);
        assert rest[j] == x || rest[j] in s[1..];
      }
    }
  }

  lemma {:induction false} SortSorted<T(!new)>(s: seq<T>, le: (T, T) -> bool)
    requires TotalOrder(le)
    ensures Sorted(Sort(s, le), le)
  {
    if s != [] {
      SortSorted(s[1..], le);
      InsertSorted(s[0], Sort(s[1..], le), le);
    }
  }

  /** Sorted permutations of each other start with the same element. */
  lemma SameLeast<T(!new)>(a: seq<T>, b: seq<T>, le: (T, T) -> bool)
    requires TotalOrder(le) && Sorted(a, le) && Sorted(b, le) && multiset(a) == multiset(b) && a != [] && b != []
    ensures a[0] == b[0]
  {
    assert a[0] in multiset(b) && b[0] in multiset(a);
    var i :| 0 <= i < |b| && b[i] == a[0];
    var j :| 0 <= j < |a| && a[j] == b[0];
    assert le(b[0], b[i]) && le(a[0], a[j]);
  }

  lemma WithoutFirst<T>(s: seq<T>)
    requires s != []
    ensures multiset(s[1..]) == multiset(s) - multiset{s[0]}
  {
    assert s == [s[0]] + s[1..];
  }

  /** There is only one sorted order of the same elements. */
  lemma {:induction false} OneSortedOrder<T(!new)>(a: seq<T>, b: seq<T>, le: (T, T) -> bool)
    requires TotalOrder(le) && Sorted(a, le) && Sorted(b, le) && multiset(a) == multiset(b)
    ensures a == b
    decreases |a|
  {
    assert |multiset(a)| == |multiset(b)|;
    if a != [] {
      SameLeast(a, b, le);
      WithoutFirst(a);
      WithoutFirst(b);
      hide TotalOrder;
      OneSortedOrder(a[1..], b[1..], le);
    }
  }

  /** In a permutation, the first element is found somewhere, and the others permute what is left. */
  lemma TakeOut<T>(a: seq<T>, b: seq<T>) returns (j: nat)
    requires a != [] && multiset(a) == multiset(b)
    ensures j < |b| && b[j] == a[0]
    ensures b == b[..j] + ([a[0]] + b[j + 1..])
    ensures multiset(a[1..]) == multiset(b[..j] + b[j + 1..])
  {
    assert a[0] in multiset(b);
    j :| 0 <= j < |b| && b[j] == a[0];
    assert a == [a[0]] + a[1..];
    assert b == b[..j] + ([a[0]] + b[j + 1..]);
    assert multiset(b) == multiset(b[..j]) + (multiset{a[0]} + multiset(b[j + 1..]));
    assert multiset(a) == multiset{a[0]} + multiset(a[1..]);
    var left := multiset(b[..j]) + multiset(b[j + 1..]);
    assert multiset(a[1..]) == multiset(a) - multiset{a[0]};
    assert left == (multiset{a[0]} + left) - multiset{a[0]};
    assert multiset(b) == multiset{a[0]} + left;
  }

  // ----- lexicographic order

  function LexLe<T(==)>(a: seq<T>, b: seq<T>, le: (T, T) -> bool): bool {
    if a == [] then true
    else if b == [] then false
    else if a[0] == b[0] then LexLe(a[1..], b[1..], le)
    else le(a[0], b[0])
  }

  lemma {:induction false} LexRefl<T(!new)>(a: seq<T>, le: (T, T) -> bool)
    ensures LexLe(a, a, le)
  {
    if a != [] {
      LexRefl(a[1..], le);
    }
  }

  lemma {:induction false} LexTotal<T(!new)>(a: seq<T>, b: seq<T>, le: (T, T) -> bool)
    requires TotalOrder(le)
    ensures LexLe(a, b, le) || LexLe(b, a, le)
    ensures LexLe(a, b, le) && LexLe(b, a, le) ==> a == b
  {
    if a != [] && b != [] && a[0] == b[0] {
      LexTotal(a[1..], b[1..], le);
      assert a == [a[0]] + a[1..] && b == [b[0]] + b[1..];
    }
  }

  lemma {:induction false} LexTrans<T(!new)>(a: seq<T>, b: seq<T>, c: seq<T>, le: (T, T) -> bool)
    requires TotalOrder(le) && LexLe(a, b, le) && LexLe(b, c, le)
    ensures LexLe(a, c, le)
  {
    if a != [] {
      if a[0] == b[0] && b[0] == c[0] {
        LexTrans(a[1..], b[1..], c[1..], le);
      }
    }
  }
}

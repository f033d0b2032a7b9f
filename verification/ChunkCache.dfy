/** The least-recently-used cache of decoded chunks. */
module ChunkCaching {
  import opened Bytes

  predicate NoDuplicates(s: seq<nat>) {
    forall i, j :: 0 <= i < j < |s| ==> s[i] != s[j]
  }

  /** `s` without its occurrences of `x`. */
  function Without(s: seq<nat>, x: nat): seq<nat> {
    if s == [] then []
    else (if s[0] == x then [] else [s[0]]) + Without(s[1..], x)
  }

  /** The distinct elements of a history of uses, the longest unused first. */
  function ByRecency(uses: seq<nat>): seq<nat> {
    if uses == [] then []
    else
      var n := |uses| - 1;
      Without(ByRecency(uses[..n]), uses[n]) + [uses[n]]
  }

  /** The last `n` elements, or all of them. */
  function LastN<T>(s: seq<T>, n: nat): seq<T> {
    if |s| <= n then s else s[|s| - n..]
  }

  lemma {:induction false} WithoutAbsent(s: seq<nat>, x: nat)
    requires x !in s
    ensures Without(s, x) == s
  {
    if s != [] {
      WithoutAbsent(s[1..], x);
    }
  }

  lemma {:induction false} WithoutAppend(a: seq<nat>, b: seq<nat>, x: nat)
    ensures Without(a + b, x) == Without(a, x) + Without(b, x)
  {
    if a == [] {
      assert a + b == b;
    } else {
      assert (a + b)[1..] == a[1..] + b;
      WithoutAppend(a[1..], b, x);
    }
  }

  lemma {:induction false} WithoutElements(s: seq<nat>, x: nat)
    ensures forall y :: y in Without(s, x) <==> y in s && y != x
    ensures NoDuplicates(s) ==> NoDuplicates(Without(s, x))
    ensures |Without(s, x)| <= |s|
  {
    if s != [] {
      WithoutElements(s[1..], x);
      var rest := Without(s[1..], x);
      assert s == [s[0]] + s[1..];
      if s[0] != x && NoDuplicates(s) {
        assert s[0] !in s[1..];
        assert NoDuplicates([s[0]] + rest);
      }
    }
  }

  lemma WithoutHead(x: nat, s: seq<nat>)
    ensures Without([x] + s, x) == Without(s, x)
  {
    assert ([x] + s)[1..] == s;
  }

  lemma OnceAt(s: seq<nat>, pos: nat)
    requires pos < |s| && NoDuplicates(s)
    ensures s[pos] !in s[..pos] && s[pos] !in s[pos + 1..]
    ensures s == s[..pos] + ([s[pos]] + s[pos + 1..])
  {
  }

  /** Removing the element at `pos` of a duplicate-free sequence removes it altogether. */
  lemma WithoutAt(s: seq<nat>, pos: nat)
    requires pos < |s| && NoDuplicates(s)
    ensures Without(s, s[pos]) == s[..pos] + s[pos + 1..]
  {
    hide *;
    var x := s[pos];
    var front, back := s[..pos], s[pos + 1..];
    OnceAt(s, pos);
    WithoutAppend(front, [x] + back, x);
    WithoutHead(x, back);
    WithoutAbsent(front, x);
    WithoutAbsent(back, x);
  }

  lemma {:induction false} ByRecencyElements(uses: seq<nat>)
    ensures NoDuplicates(ByRecency(uses))
    ensures forall x :: x in ByRecency(uses) <==> x in uses
  {
    if uses != [] {
      var n := |uses| - 1;
      ByRecencyElements(uses[..n]);
      var kept := Without(ByRecency(uses[..n]), uses[n]);
      WithoutElements(ByRecency(uses[..n]), uses[n]);
      DistinctSnoc(kept, uses[n]);
      assert uses == uses[..n] + [uses[n]];
    }
  }

  lemma DistinctSnoc(s: seq<nat>, x: nat)
    requires NoDuplicates(s) && x !in s
    ensures NoDuplicates(s + [x])
  {
  }

  lemma ByRecencySnoc(uses: seq<nat>, x: nat)
    ensures ByRecency(uses + [x]) == Without(ByRecency(uses), x) + [x]
  {
    assert (uses + [x])[..|uses|] == uses;
  }

  /** The recency order is what a cache of `capacity` keeps, after what it has dropped. */
  lemma KeptPart(uses: seq<nat>, capacity: nat) returns (dropped: seq<nat>)
    ensures ByRecency(uses) == dropped + LastN(ByRecency(uses), capacity)
    ensures |LastN(ByRecency(uses), capacity)| < capacity ==> dropped == []
    ensures NoDuplicates(dropped + LastN(ByRecency(uses), capacity))
  {
    var all := ByRecency(uses);
    ByRecencyElements(uses);
    dropped := all[..|all| - |LastN(all, capacity)|];
    assert all == dropped + LastN(all, capacity);
  }

  lemma KeptDistinct(dropped: seq<nat>, order: seq<nat>)
    requires NoDuplicates(dropped + order)
    ensures NoDuplicates(order)
    ensures forall x :: x in order ==> x !in dropped
  {
    assert forall i :: 0 <= i < |order| ==> (dropped + order)[|dropped| + i] == order[i];
    assert forall i :: 0 <= i < |dropped| ==> (dropped + order)[i] == dropped[i];
  }

  lemma LastNOfAppend<T>(a: seq<T>, b: seq<T>, n: nat)
    requires |b| == n || (|b| < n && a == [])
    ensures LastN(a + b, n) == b
  {
  }

  /** Using a kept element moves it to the end. */
  lemma {:induction false} UseKept(uses: seq<nat>, x: nat, capacity: nat)
    requires capacity >= 1 && x in LastN(ByRecency(uses), capacity)
    ensures var order := LastN(ByRecency(uses), capacity);
      NoDuplicates(order) && LastN(ByRecency(uses + [x]), capacity) == Without(order, x) + [x]
  {
    hide *;
    var order := LastN(ByRecency(uses), capacity);
    var dropped := KeptPart(uses, capacity);
    KeptDistinct(dropped, order);
    ByRecencySnoc(uses, x);
    WithoutAppend(dropped, order, x);
    WithoutAbsent(dropped, x);
    assert dropped + Without(order, x) + [x] == dropped + (Without(order, x) + [x]);
    WithoutLength(order, x);
    KeptLength(ByRecency(uses), capacity);
    LastNOfAppend(dropped, Without(order, x) + [x], capacity);
  }

  lemma KeptLength<T>(s: seq<T>, n: nat)
    ensures |LastN(s, n)| <= n
  {
  }

  lemma WithoutLength(s: seq<nat>, x: nat)
    requires NoDuplicates(s) && x in s
    ensures |Without(s, x)| == |s| - 1
  {
    var i :| 0 <= i < |s| && s[i] == x;
    WithoutAt(s, i);
  }

  /** Using anything else drops the first kept element of a full cache. */
  lemma {:induction false} UseOther(uses: seq<nat>, x: nat, capacity: nat)
    requires capacity >= 1 && x !in LastN(ByRecency(uses), capacity)
    ensures var order := LastN(ByRecency(uses), capacity);
      LastN(ByRecency(uses + [x]), capacity) == (if |order| < capacity then order else order[1..]) + [x]
  {
    hide *;
    var order := LastN(ByRecency(uses), capacity);
    var dropped := KeptPart(uses, capacity);
    ByRecencySnoc(uses, x);
    WithoutAppend(dropped, order, x);
    WithoutAbsent(order, x);
    KeptLength(ByRecency(uses), capacity);
    if |order| < capacity {
      WithoutAbsent(dropped, x);
      assert dropped + order + [x] == [] + (order + [x]);
      LastNOfAppend([], order + [x], capacity);
    } else {
      var gone := Without(dropped, x) + [order[0]];
      assert Without(dropped, x) + order + [x] == gone + (order[1..] + [x]);
      LastNOfAppend(gone, order[1..] + [x], capacity);
    }
  }

  /** What a cache keeps is duplicate-free. */
  lemma KeptOrder(uses: seq<nat>, capacity: nat)
    ensures NoDuplicates(LastN(ByRecency(uses), capacity))
  {
    hide *;
    var dropped := KeptPart(uses, capacity);
    KeptDistinct(dropped, LastN(ByRecency(uses), capacity));
  }

  lemma FirstIsUnique(s: seq<nat>)
    requires NoDuplicates(s)
    ensures s != [] ==> forall x :: x in s[1..] <==> x in s && x != s[0]
  {
    if s != [] {
      assert s == [s[0]] + s[1..];
    }
  }

  /** A cache that holds exactly the `capacity` most recently used chunks. */
  ghost predicate Coherent(entries: map<nat, seq<byte>>, order: seq<nat>, capacity: nat, uses: seq<nat>) {
    && capacity >= 1
    && order == LastN(ByRecency(uses), capacity)
    && (forall i :: i in order <==> i in entries)
  }

  lemma HitKeeps(entries: map<nat, seq<byte>>, order: seq<nat>, capacity: nat, uses: seq<nat>, pos: nat)
    requires Coherent(entries, order, capacity, uses) && pos < |order|
    ensures Coherent(entries, order[..pos] + order[pos + 1..] + [order[pos]], capacity, uses + [order[pos]])
  {
    hide ByRecency, LastN, Without, NoDuplicates;
    var x := order[pos];
    UseKept(uses, x, capacity);
    WithoutAt(order, pos);
    WithoutElements(order, x);
  }

  lemma InsertKeeps(entries: map<nat, seq<byte>>, order: seq<nat>, capacity: nat, uses: seq<nat>, idx: nat, value: seq<byte>)
    requires Coherent(entries, order, capacity, uses) && idx !in entries
    ensures |order| <= capacity
    ensures |order| < capacity ==> Coherent(entries[idx := value], order + [idx], capacity, uses + [idx])
    ensures |order| == capacity ==>
      Coherent((entries - {order[0]})[idx := value], order[1..] + [idx], capacity, uses + [idx])
  {
    hide ByRecency, LastN, Without, NoDuplicates;
    KeptLength(ByRecency(uses), capacity);
    KeptOrder(uses, capacity);
    FirstIsUnique(order);
    UseOther(uses, idx, capacity);
  }

  class ChunkCache {
    var entries: map<nat, seq<byte>>
    var order: seq<nat>
    const capacity: nat
    /** Every chunk index hit or inserted so far. */
    ghost var uses: seq<nat>

    ghost predicate Valid()
      reads this
    {
      Coherent(entries, order, capacity, uses)
    }

    constructor (capacity: nat)
      ensures Valid() && uses == [] && entries == map[]
      ensures this.capacity == if capacity < 1 then 1 else capacity
    {
      this.capacity := if capacity < 1 then 1 else capacity;
      entries := map[];
      order := [];
      uses := [];
    }

    method Get(idx: nat) returns (r: Option<seq<byte>>)
      requires Valid()
      modifies this
      ensures Valid() && entries == old(entries)
      ensures r == if idx in entries then Some(entries[idx]) else None
      ensures uses == if idx in entries then old(uses) + [idx] else old(uses)
    {
      if idx !in entries {
        return None;
      }
      r := Some(entries[idx]);
      var pos :| 0 <= pos < |order| && order[pos] == idx;
      HitKeeps(entries, order, capacity, uses, pos);
      hide Coherent;
      order := order[..pos] + order[pos + 1..];
      order := order + [idx];
      uses := uses + [idx];
    }

    /** Inserting into a full cache drops the least recently used chunk and nothing else. */
    method Insert(idx: nat, value: seq<byte>)
      requires Valid()
      modifies this
      ensures Valid()
      ensures idx in old(entries) ==> entries == old(entries) && uses == old(uses)
      ensures idx !in old(entries) ==>
        && uses == old(uses) + [idx]
        && entries == (if |old(order)| < capacity then old(entries) else old(entries) - {old(order)[0]})[idx := value]
    {
      hide Coherent;
      if idx in entries {
        return;
      }
      InsertKeeps(entries, order, capacity, uses, idx, value);
      CapacityPositive(entries, order, capacity, uses);
      while |order| >= capacity
        invariant uses == old(uses)
        invariant if |order| == |old(order)| then order == old(order) && entries == old(entries)
                  else |old(order)| == capacity && order == old(order)[1..] && entries == old(entries) - {old(order)[0]}
        decreases |order|
      {
        var evict := order[0];
        order := order[1..];
        entries := entries - {evict};
      }
      order := order + [idx];
      entries := entries[idx := value];
      uses := uses + [idx];
    }
  }

  lemma CapacityPositive(entries: map<nat, seq<byte>>, order: seq<nat>, capacity: nat, uses: seq<nat>)
    requires Coherent(entries, order, capacity, uses)
    ensures capacity >= 1
  {
  }

  /** What coherence means: a duplicate-free order of exactly the cached keys, within capacity, all of them used. */
  lemma CoherentOrder(entries: map<nat, seq<byte>>, order: seq<nat>, capacity: nat, uses: seq<nat>)
    requires Coherent(entries, order, capacity, uses)
    ensures NoDuplicates(order) && |order| <= capacity
    ensures |entries| == |order|
    ensures forall i <- entries :: i in uses
  {
    KeptOrder(uses, capacity);
    KeptLength(ByRecency(uses), capacity);
    ByRecencyElements(uses);
    DistinctCount(order);
    hide ByRecency, NoDuplicates;
    assert entries.Keys == Elements(order);
  }

  ghost function Elements(s: seq<nat>): set<nat> {
    set x | x in s
  }

  lemma {:induction false} DistinctCount(s: seq<nat>)
    requires NoDuplicates(s)
    ensures |Elements(s)| == |s|
  {
    if s != [] {
      FirstIsUnique(s);
      DistinctCount(s[1..]);
      assert Elements(s) == Elements(s[1..]) + {s[0]};
    }
  }
}

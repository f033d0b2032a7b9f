/** Machine-width integers, byte strings and the outcome types shared by every module. */
module Bytes {

  type byte = b: int | 0 <= b < 256

  const U64_LIMIT: int := 0x1_0000_0000_0000_0000
  const I64_LIMIT: int := 0x8000_0000_0000_0000

  type u64 = v: int | 0 <= v < U64_LIMIT
  type i64 = v: int | -I64_LIMIT <= v < I64_LIMIT

  datatype Option<+T> = None | Some(value: T)

  datatype Result<+T, +E> = Ok(value: T) | Err(error: E)

  lemma Associative<T>(a: seq<T>, b: seq<T>, c: seq<T>)
    ensures (a + b) + c == a + (b + c)
  {
  }

  lemma MiddleSlice<T>(a: seq<T>, b: seq<T>, c: seq<T>)
    ensures (a + (b + c))[|a|..|a| + |b|] == b
  {
  }

  /** Slicing the part of `s` from `k` on, around position `pos`. */
  lemma SliceAround<T>(s: seq<T>, k: nat, pos: nat)
    requires k <= pos <= |s|
    ensures s[k..][..pos - k] == s[..pos][k..]
    ensures s[k..][pos - k..] == s[pos..]
    ensures s[..pos][..k] == s[..k]
  {
  }

  lemma Rejoin<T>(s: seq<T>, i: nat)
    requires i < |s|
    ensures s[..i + 1] == s[..i] + [s[i]]
    ensures s == s[..i + 1] + s[i + 1..]
  {
  }

  /** The concatenation of a sequence of byte strings. */
  function Flatten<T>(parts: seq<seq<T>>): seq<T> {
    if parts == [] then [] else parts[0] + Flatten(parts[1..])
  }

  lemma {:induction false} FlattenAppend<T>(a: seq<seq<T>>, b: seq<seq<T>>)
    ensures Flatten(a + b) == Flatten(a) + Flatten(b)
  {
    if a == [] {
      assert a + b == b;
    } else {
      assert (a + b)[1..] == a[1..] + b;
      FlattenAppend(a[1..], b);
    }
  }

  lemma FlattenSnoc<T>(a: seq<seq<T>>, x: seq<T>)
    ensures Flatten(a + [x]) == Flatten(a) + x
  {
    FlattenAppend(a, [x]);
    assert Flatten([x]) == x + Flatten<T>([]);
  }

  /** The `n` low-order bytes of `v`, least significant first. */
  function LittleEndian(v: nat, n: nat): (s: seq<byte>)
    ensures |s| == n
  {
    if n == 0 then [] else [v % 256] + LittleEndian(v / 256, n - 1)
  }

  function FromLittleEndian(s: seq<byte>): nat {
    if s == [] then 0 else s[0] + 256 * FromLittleEndian(s[1..])
  }

  function Pow256(n: nat): nat {
    if n == 0 then 1 else 256 * Pow256(n - 1)
  }

  lemma {:induction false} LittleEndianRoundTrip(v: nat, n: nat)
    requires v < Pow256(n)
    ensures FromLittleEndian(LittleEndian(v, n)) == v
  {
    if n > 0 {
      LittleEndianRoundTrip(v / 256, n - 1);
      assert LittleEndian(v, n)[1..] == LittleEndian(v / 256, n - 1);
    }
  }

  lemma U64FitsEightBytes(v: u64)
    ensures v < Pow256(8)
    ensures FromLittleEndian(LittleEndian(v, 8)) == v
  {
    assert Pow256(8) == 256 * 256 * Pow256(6);
    assert Pow256(6) == 256 * 256 * Pow256(4);
    assert Pow256(4) == 256 * 256 * Pow256(2);
    assert Pow256(2) == 256 * 256 * Pow256(0);
    LittleEndianRoundTrip(v, 8);
  }

  /** Eight bytes always read back as a 64-bit value. */
  lemma {:induction false} FromLittleEndianBound(s: seq<byte>)
    ensures FromLittleEndian(s) < Pow256(|s|)
  {
    if s != [] {
      FromLittleEndianBound(s[1..]);
    }
  }

  lemma EightBytesAreU64(s: seq<byte>)
    requires |s| == 8
    ensures FromLittleEndian(s) < U64_LIMIT
  {
    FromLittleEndianBound(s);
    assert Pow256(8) == 256 * 256 * Pow256(6);
    assert Pow256(6) == 256 * 256 * Pow256(4);
    assert Pow256(4) == 256 * 256 * Pow256(2);
    assert Pow256(2) == 256 * 256 * Pow256(0);
  }

  // ----- text

  const NEWLINE: byte := 10

  /** The position of the first newline, or the length if there is none. */
  function FirstNewline(s: seq<byte>): (p: nat)
    ensures p <= |s|
    ensures forall i :: 0 <= i < p ==> s[i] != NEWLINE
    ensures p < |s| ==> s[p] == NEWLINE
  {
    if s == [] || s[0] == NEWLINE then 0 else 1 + FirstNewline(s[1..])
  }

  lemma FirstNewlineOf(s: seq<byte>, p: nat)
    requires p < |s| && s[p] == NEWLINE && forall i :: 0 <= i < p ==> s[i] != NEWLINE
    ensures FirstNewline(s) == p
  {
  }

  lemma NoNewlineOf(s: seq<byte>)
    requires forall i :: 0 <= i < |s| ==> s[i] != NEWLINE
    ensures FirstNewline(s) == |s|
  {
  }
}

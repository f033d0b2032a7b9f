/**
 The catalog's variable-length integers: seven payload bits a byte, least
 significant group first, with the top bit marking continuation. The signed form
 keeps its sign in bit six of the final byte.
 */
module Varint {
  import opened Bytes

  /** The ways a catalog can be malformed. */
  datatype DecodeError =
    | InvalidMagic
    | UnexpectedEnd
    | VarintTooLong
    | LengthOverflow
    | SliceOutOfRange
    | InvalidName
    | OffsetUnderflow
    | UnknownEntryType
    | NestingTooDeep
    | BlockRevisited
    | TooManyEntries

  function Pow2(n: nat): (p: nat)
    ensures p >= 1
  {
    if n == 0 then 1 else 2 * Pow2(n - 1)
  }

  // ----- encoding

  /** The unsigned encoding of `v`. */
  function Unsigned(v: nat): (s: seq<byte>)
    ensures 1 <= |s|
  {
    if v < 0x80 then [v] else [0x80 + v % 0x80] + Unsigned(v / 0x80)
  }

  /** The groups of a signed encoding whose sign is `negative`. */
  function SignedGroups(magnitude: nat, negative: bool): (s: seq<byte>)
    ensures 1 <= |s|
  {
    if magnitude < 0x40 then [(if negative then 0x40 else 0) + magnitude]
    else [0x80 + magnitude % 0x80] + SignedGroups(magnitude / 0x80, negative)
  }

  /** Negative values are stored as the magnitude of their successor. */
  function Signed(v: int): (s: seq<byte>)
    ensures 1 <= |s|
  {
    SignedGroups(if v < 0 then -(v + 1) else v, v < 0)
  }

  /** What the groups of seven bits add up to, the first one counting least. */
  function GroupSum(s: seq<byte>): nat {
    if s == [] then 0 else s[0] % 0x80 + 0x80 * GroupSum(s[1..])
  }

  /** Only the last byte has its top bit clear. */
  ghost predicate OneVarint(s: seq<byte>) {
    s != [] && s[|s| - 1] < 0x80 && forall i :: 0 <= i < |s| - 1 ==> s[i] >= 0x80
  }

  /** The unsigned format: the groups add up to the value, and there is no group too many. */
  lemma {:induction false} UnsignedFormat(v: nat)
    ensures var s := Unsigned(v);
      OneVarint(s) && GroupSum(s) == v && (|s| > 1 ==> s[|s| - 1] != 0)
  {
    var s := Unsigned(v);
    if v >= 0x80 {
      UnsignedFormat(v / 0x80);
      assert s[1..] == Unsigned(v / 0x80);
      assert forall i :: 1 <= i < |s| ==> s[i] == s[1..][i - 1];
    }
  }

  /** The same with six bits in the last group. */
  function MagnitudeSum(s: seq<byte>): nat
    requires s != []
  {
    if |s| == 1 then s[0] % 0x40 else s[0] % 0x80 + 0x80 * MagnitudeSum(s[1..])
  }

  lemma GroupBefore(b: byte, t: seq<byte>)
    requires b >= 0x80 && OneVarint(t)
    ensures var s := [b] + t;
      OneVarint(s) && s[|s| - 1] == t[|t| - 1] && MagnitudeSum(s) == b % 0x80 + 0x80 * MagnitudeSum(t)
  {
    assert ([b] + t)[1..] == t;
  }

  lemma OneGroup(magnitude: nat, negative: bool)
    requires magnitude < 0x40
    ensures var s := SignedGroups(magnitude, negative);
      |s| == 1 && OneVarint(s) && (negative <==> s[0] >= 0x40) && MagnitudeSum(s) == magnitude
  {
  }

  lemma MoreGroups(magnitude: nat, negative: bool)
    requires magnitude >= 0x40
    ensures SignedGroups(magnitude, negative) == [0x80 + magnitude % 0x80] + SignedGroups(magnitude / 0x80, negative)
    ensures (0x80 + magnitude % 0x80) % 0x80 + 0x80 * (magnitude / 0x80) == magnitude
  {
  }

  /** The signed format: bit six of the last byte is the sign, and without it the groups add up to the magnitude. */
  lemma {:induction false} SignedFormat(magnitude: nat, negative: bool)
    ensures var s := SignedGroups(magnitude, negative);
      OneVarint(s) && (negative <==> s[|s| - 1] >= 0x40) && MagnitudeSum(s) == magnitude
  {
    hide *;
    if magnitude < 0x40 {
      OneGroup(magnitude, negative);
    } else {
      MoreGroups(magnitude, negative);
      SignedFormat(magnitude / 0x80, negative);
      GroupBefore(0x80 + magnitude % 0x80, SignedGroups(magnitude / 0x80, negative));
    }
  }

  /** The value a signed encoding of this magnitude and sign stands for. */
  function SignedValue(magnitude: nat, negative: bool): int {
    if negative then -1 - magnitude else magnitude
  }

  /** Pushes `v` onto `out`. Positions and lengths are unbounded here; a file below 2^64 bytes keeps them in range. */
  method EncodeU64(out: seq<byte>, v: nat) returns (r: seq<byte>)
    ensures r == out + Unsigned(v)
  {
    var value := v;
    r := out;
    while value >= 0x80
      invariant r + Unsigned(value) == out + Unsigned(v)
      decreases value
    {
      assert r + Unsigned(value) == r + [0x80 + value % 0x80] + Unsigned(value / 0x80);
      r := r + [0x80 + value % 0x80];
      value := value / 0x80;
    }
    r := r + [value];
  }

  method EncodeI64(out: seq<byte>, v: i64) returns (r: seq<byte>)
    ensures r == out + Signed(v)
  {
    var negative := v < 0;
    var magnitude: nat := if negative then -(v + 1) else v;
    r := out;
    while magnitude >= 0x40
      invariant r + SignedGroups(magnitude, negative) == out + Signed(v)
      decreases magnitude
    {
      assert r + SignedGroups(magnitude, negative)
          == r + [0x80 + magnitude % 0x80] + SignedGroups(magnitude / 0x80, negative);
      r := r + [0x80 + magnitude % 0x80];
      magnitude := magnitude / 0x80;
    }
    r := r + [(if negative then 0x40 else 0) + magnitude];
  }

  // ----- decoding

  /** `group << shift` on 64 bits, the bits above position 63 lost. */
  function Shifted(group: nat, shift: nat): (r: u64) {
    (group * Pow2(shift)) % U64_LIMIT
  }

  /** The 64-bit sum used for `|`: the operands of the decoder never share a bit. */
  function Wrap64(v: nat): (r: u64) {
    v % U64_LIMIT
  }

  /** `value as i64`. */
  function AsSigned(v: u64): (r: i64) {
    if v < I64_LIMIT then v else v - U64_LIMIT
  }

  /** `-(value as i64) - 1` in wrapping arithmetic. */
  function NegatedPredecessor(v: u64): (r: i64) {
    AsSigned(U64_LIMIT - 1 - v)
  }

  /** Reads an unsigned varint at `pos`, given the groups read so far. */
  function ReadUnsigned(data: seq<byte>, pos: nat, value: u64, shift: nat): (r: Result<(u64, nat), DecodeError>)
    ensures r.Ok? ==> pos < r.value.1 <= |data|
    decreases |data| - pos
  {
    if pos >= |data| then Err(UnexpectedEnd)
    else if shift >= 64 then Err(VarintTooLong)
    else
      var b := data[pos];
      var next := Wrap64(value + Shifted(b % 0x80, shift));
      if b < 0x80 then Ok((next, pos + 1))
      else ReadUnsigned(data, pos + 1, next, shift + 7)
  }

  function ReadSigned(data: seq<byte>, pos: nat, value: u64, shift: nat): (r: Result<(i64, nat), DecodeError>)
    ensures r.Ok? ==> pos < r.value.1 <= |data|
    decreases |data| - pos
  {
    if pos >= |data| then Err(UnexpectedEnd)
    else if shift >= 64 then Err(VarintTooLong)
    else
      var b := data[pos];
      if b >= 0x80 then
        ReadSigned(data, pos + 1, Wrap64(value + Shifted(b % 0x80, shift)), shift + 7)
      else
        var last := Wrap64(value + Shifted(b % 0x40, shift));
        Ok((if b >= 0x40 then NegatedPredecessor(last) else AsSigned(last), pos + 1))
  }

  /** `s` stands in `data` at position `pos`. */
  ghost predicate At(data: seq<byte>, pos: nat, s: seq<byte>) {
    pos + |s| <= |data| && data[pos..pos + |s|] == s
  }

  lemma AtSplit(data: seq<byte>, pos: nat, a: seq<byte>, b: seq<byte>)
    requires At(data, pos, a + b)
    ensures At(data, pos, a) && At(data, pos + |a|, b)
  {
    assert a == (a + b)[..|a|];
    assert b == (a + b)[|a|..];
    assert data[pos..pos + |a|] == data[pos..pos + |a + b|][..|a|];
    assert data[pos + |a|..pos + |a| + |b|] == data[pos..pos + |a + b|][|a|..];
  }

  // ----- arithmetic of seven-bit groups

  lemma Pow2Add(a: nat, b: nat)
    ensures Pow2(a + b) == Pow2(a) * Pow2(b)
    decreases b
  {
    if b > 0 {
      Pow2Add(a, b - 1);
      assert Pow2(a + b) == 2 * Pow2(a + b - 1);
      assert Pow2(a) * Pow2(b) == 2 * (Pow2(a) * Pow2(b - 1));
    }
  }

  lemma Pow2Seven(shift: nat)
    ensures Pow2(shift + 7) == 128 * Pow2(shift)
  {
    Pow2Add(shift, 7);
    assert Pow2(7) == 128;
  }

  lemma Pow2Values()
    ensures Pow2(56) == 0x100_0000_0000_0000
    ensures Pow2(57) == 0x200_0000_0000_0000
    ensures Pow2(63) == I64_LIMIT
    ensures Pow2(64) == U64_LIMIT
  {
    assert Pow2(7) == 128;
    assert Pow2(57) == 2 * Pow2(56) && Pow2(64) == 2 * Pow2(63);
    hide Pow2;
    Pow2Seven(7);
    Pow2Seven(14);
    Pow2Seven(21);
    Pow2Seven(28);
    Pow2Seven(35);
    Pow2Seven(42);
    Pow2Seven(49);
    Pow2Seven(56);
  }

  lemma {:induction false} Pow2Mono(a: nat, b: nat)
    requires a <= b
    ensures Pow2(a) <= Pow2(b)
  {
    if a < b {
      Pow2Mono(a, b - 1);
    }
  }

  /** Splitting off one group moves value from the pending part to the accumulator. */
  lemma GroupSplit(v: nat, p: nat)
    ensures (v % 128) * p + (v / 128) * (128 * p) == v * p
  {
    assert v == (v % 128) + 128 * (v / 128);
    assert v * p == (v % 128) * p + 128 * (v / 128) * p;
  }

  /** `value` together with `v` still to come at `shift` make up `total`. */
  ghost predicate Pending(v: nat, value: nat, shift: nat, total: nat) {
    value + v * Pow2(shift) == total < U64_LIMIT
  }

  /** A pending part that fits 64 bits is at a shift the decoder still accepts. */
  lemma ShiftInRange(v: nat, value: nat, shift: nat, total: nat)
    requires 1 <= v && Pending(v, value, shift, total)
    ensures shift < 64
  {
    assert v * Pow2(shift) >= Pow2(shift);
    if shift >= 64 {
      Pow2Mono(64, shift);
      Pow2Values();
    }
  }

  lemma SignedShiftInRange(m: nat, value: nat, shift: nat, total: nat)
    requires 0x40 <= m && Pending(m, value, shift, total) && total < I64_LIMIT
    ensures shift < 57
  {
    assert m * Pow2(shift) >= 0x40 * Pow2(shift);
    if shift >= 57 {
      Pow2Mono(57, shift);
      Pow2Values();
    }
  }

  /** Adding the next group neither overflows nor changes what the whole number is. */
  lemma GroupStep(v: nat, value: nat, shift: nat, total: nat) returns (next: u64)
    requires Pending(v, value, shift, total)
    ensures next == Wrap64(value + Shifted(v % 128, shift)) <= total
    ensures Pending(v / 128, next, shift + 7, total)
  {
    var p := Pow2(shift);
    GroupSplit(v, p);
    Pow2Seven(shift);
    assert (v / 128) * (128 * p) >= 0;
    var low := (v % 128) * p;
    assert 0 <= low < U64_LIMIT;
    assert low % U64_LIMIT == low;
    assert (value + low) % U64_LIMIT == value + low;
    next := value + low;
  }

  lemma LastGroup(v: nat, value: nat, shift: nat, total: nat)
    requires Pending(v, value, shift, total)
    ensures Wrap64(value + Shifted(v, shift)) == total
  {
    var low := v * Pow2(shift);
    assert low % U64_LIMIT == low;
    assert (value + low) % U64_LIMIT == value + low;
  }

  lemma FirstByte(data: seq<byte>, pos: nat, s: seq<byte>)
    requires At(data, pos, s) && s != []
    ensures pos < |data| && data[pos] == s[0]
  {
    assert data[pos] == data[pos..pos + |s|][0];
  }

  /**
   Decoding an unsigned encoding consumes exactly that encoding, whatever
   follows it, and adds its value to the groups already read.
   */
  lemma {:induction false} ReadUnsignedEncoded(data: seq<byte>, pos: nat, v: nat, value: u64, shift: nat, total: nat)
    requires At(data, pos, Unsigned(v))
    requires Pending(v, value, shift, total)
    requires shift == 0 || v >= 1
    ensures ReadUnsigned(data, pos, value, shift) == Ok((total, pos + |Unsigned(v)|))
    decreases v
  {
    hide Pending, Pow2, Shifted, Wrap64, At;
    FirstByte(data, pos, Unsigned(v));
    if shift > 0 {
      ShiftInRange(v, value, shift, total);
    }
    if v < 0x80 {
      LastGroup(v, value, shift, total);
    } else {
      AtSplit(data, pos, [0x80 + v % 0x80], Unsigned(v / 0x80));
      var next := GroupStep(v, value, shift, total);
      ReadUnsignedEncoded(data, pos + 1, v / 0x80, next, shift + 7, total);
    }
  }

  lemma SignedLast(data: seq<byte>, pos: nat, m: nat, negative: bool, value: u64, shift: nat, total: nat)
    requires m < 0x40 && pos < |data| && data[pos] == SignedGroups(m, negative)[0] && shift < 64
    requires Wrap64(value + Shifted(m, shift)) == total < I64_LIMIT
    ensures ReadSigned(data, pos, value, shift)
         == Ok((SignedValue(total, negative), pos + |SignedGroups(m, negative)|))
  {
    hide Shifted, Wrap64;
  }

  lemma SignedMore(data: seq<byte>, pos: nat, m: nat, negative: bool, value: u64, shift: nat)
    requires m >= 0x40 && At(data, pos, SignedGroups(m, negative))
    requires pos < |data| && data[pos] == SignedGroups(m, negative)[0] && shift < 64
    ensures ReadSigned(data, pos, value, shift)
         == ReadSigned(data, pos + 1, Wrap64(value + Shifted(m % 0x80, shift)), shift + 7)
    ensures At(data, pos + 1, SignedGroups(m / 0x80, negative))
    ensures |SignedGroups(m, negative)| == 1 + |SignedGroups(m / 0x80, negative)|
  {
    hide Shifted, Wrap64, At;
    AtSplit(data, pos, [0x80 + m % 0x80], SignedGroups(m / 0x80, negative));
  }

  /** The signed counterpart; the magnitude of a 64-bit value stays below 2^63, so nothing wraps. */
  lemma {:induction false} ReadSignedEncoded(data: seq<byte>, pos: nat, m: nat, negative: bool, value: u64, shift: nat, total: nat)
    requires At(data, pos, SignedGroups(m, negative))
    requires Pending(m, value, shift, total) && total < I64_LIMIT
    requires shift <= 63
    ensures ReadSigned(data, pos, value, shift)
         == Ok((SignedValue(total, negative), pos + |SignedGroups(m, negative)|))
    decreases m
  {
    hide *;
    FirstByte(data, pos, SignedGroups(m, negative));
    if m < 0x40 {
      LastGroup(m, value, shift, total);
      SignedLast(data, pos, m, negative, value, shift, total);
    } else {
      SignedMore(data, pos, m, negative, value, shift);
      var next := GroupStep(m, value, shift, total);
      SignedShiftInRange(m, value, shift, total);
      ReadSignedEncoded(data, pos + 1, m / 0x80, negative, next, shift + 7, total);
    }
  }

  /** Both codecs undo their encoders before any suffix, over the whole 64-bit range. */
  lemma {:induction false} VarintRoundTrip(prefix: seq<byte>, u: u64, i: i64, suffix: seq<byte>)
    ensures ReadUnsigned(prefix + Unsigned(u) + suffix, |prefix|, 0, 0) == Ok((u, |prefix| + |Unsigned(u)|))
    ensures ReadSigned(prefix + Signed(i) + suffix, |prefix|, 0, 0) == Ok((i, |prefix| + |Signed(i)|))
  {
    assert At(prefix + Unsigned(u) + suffix, |prefix|, Unsigned(u));
    ReadUnsignedEncoded(prefix + Unsigned(u) + suffix, |prefix|, u, 0, 0, u);
    assert At(prefix + Signed(i) + suffix, |prefix|, Signed(i));
    var m := if i < 0 then -(i + 1) else i;
    ReadSignedEncoded(prefix + Signed(i) + suffix, |prefix|, m, i < 0, 0, 0, m);
  }
}

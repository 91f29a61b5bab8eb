/** Base-128 variable-length integers ("Base 128 Varints", Protocol Buffers encoding). */
module Varint {
  import opened Bytes
  import opened Types

  function VarintBytes(v: nat): (r: Bytes)
    ensures |r| >= 1
  {
    if v < 128 then [v] else [v % 128 + 128] + VarintBytes(v / 128)
  }

  // ---------- Size ----------

  /** math/bits.Len64. */
  function BitLength(x: nat): nat {
    if x == 0 then 0 else 1 + BitLength(x / 2)
  }

  /** sovSwap: the bit length of x|1, in groups of seven. */
  function Sov(x: nat): nat {
    (BitLength(if x % 2 == 0 then x + 1 else x) + 6) / 7
  }

  lemma BitLengthOfGroup(x: nat)
    requires x >= 128
    ensures BitLength(x) == 7 + BitLength(x / 128)
  {
    assert x / 2 / 2 / 2 / 2 / 2 / 2 / 2 == x / 128;
    var x1, x2, x3 := x / 2, x / 4, x / 8;
    assert BitLength(x) == 3 + BitLength(x3);
    assert BitLength(x3) == 3 + BitLength(x3 / 8);
    assert x3 / 8 == x / 64 && BitLength(x / 64) == 1 + BitLength(x / 64 / 2);
  }

  lemma LowBitIgnored(x: nat)
    requires x >= 1
    ensures BitLength(if x % 2 == 0 then x + 1 else x) == BitLength(x)
  {
    if x % 2 == 0 {
      assert (x + 1) / 2 == x / 2;
    }
  }

  /** sovSwap is the exact length of the encoding. */
  lemma {:induction false} SovExact(v: nat)
    ensures Sov(v) == |VarintBytes(v)|
  {
    if v < 128 {
      SmallBitLength(if v % 2 == 0 then v + 1 else v, 7);
    } else {
      SovExact(v / 128);
      LowBitIgnored(v);
      LowBitIgnored(v / 128);
      BitLengthOfGroup(v);
    }
  }

  function Pow2(n: nat): nat {
    if n == 0 then 1 else 2 * Pow2(n - 1)
  }

  lemma {:induction false} SmallBitLength(x: nat, n: nat)
    requires 1 <= x < Pow2(n)
    ensures 1 <= BitLength(x) <= n
  {
    if x > 1 {
      SmallBitLength(x / 2, n - 1);
    }
  }

  function Pow128(n: nat): nat {
    if n == 0 then 1 else 128 * Pow128(n - 1)
  }

  lemma {:induction false} VarintLength(v: nat, n: nat)
    requires n >= 1 && v < Pow128(n)
    ensures |VarintBytes(v)| <= n
  {
    if v >= 128 {
      assert n > 1;
      VarintLength(v / 128, n - 1);
    }
  }

  lemma VarintAtMostTen(v: uint64)
    ensures |VarintBytes(v)| <= 10
  {
    assert Pow128(3) == 128 * 128 * 128;
    assert Pow128(6) == 128 * 128 * 128 * Pow128(3);
    assert Pow128(9) == 128 * 128 * 128 * Pow128(6);
    assert Pow128(10) == 128 * Pow128(9);
    VarintLength(v, 10);
  }

  // ---------- Decoding ----------

  /** The left shift by `k` groups of seven bits. */
  function ShiftLeft(x: nat, k: nat): (r: nat) {
    if k == 0 then x else 128 * ShiftLeft(x, k - 1)
  }

  /** The conversion of a longer result to 64 bits. */
  function Cut64(x: nat): (r: uint64)
    ensures x < TWO64 ==> r == x
    ensures r <= x
  {
    x % 0x1_0000_0000_0000_0000
  }

  /** A value and the number of bytes it took. */
  datatype Varint = Malformed | Varint(value: uint64, size: nat)

  /** The decoding loop after `k` bytes, with the value `acc` of their groups. Fails on the eleventh byte
      and at the end of the data. Groups do not overlap, so the bitwise or of the loop is an addition. */
  function ReadFrom(data: Bytes, k: nat, acc: nat): (r: Varint)
    ensures r.Varint? ==> k < r.size <= k + |data|
  {
    if k >= 10 || data == [] then Malformed
    else
      var acc' := Cut64(acc + ShiftLeft(data[0] % 128, k));
      if data[0] < 128 then Varint(acc', k + 1) else ReadFrom(data[1..], k + 1, acc')
  }

  /** The number at the start of `data`. */
  function ReadVarint(data: Bytes): (r: Varint)
    ensures r.Varint? ==> 0 < r.size <= |data|
  {
    ReadFrom(data, 0, 0)
  }

  lemma {:induction false} ShiftSplits(low: nat, high: nat, k: nat)
    ensures ShiftLeft(low + 128 * high, k) == ShiftLeft(low, k) + ShiftLeft(high, k + 1)
  {
    if k > 0 {
      ShiftSplits(low, high, k - 1);
    }
  }

  /** One turn of the decoding loop on a continuation byte. */
  lemma ReadGroup(m: nat, tail: Bytes, data: Bytes, k: nat, acc: nat)
    requires m < 128 && data == [m + 128] + tail && k < 10
    ensures ReadFrom(data, k, acc) == ReadFrom(tail, k + 1, Cut64(acc + ShiftLeft(m, k)))
  {
    assert data[0] % 128 == m && data[1..] == tail;
  }

  /** The last turn of the decoding loop. */
  lemma ReadLast(v: nat, rest: Bytes, data: Bytes, k: nat, acc: nat)
    requires v < 128 && data == [v] + rest && k < 10
    ensures ReadFrom(data, k, acc) == Varint(Cut64(acc + ShiftLeft(v, k)), k + 1)
  {
    assert data[0] % 128 == v;
  }

  lemma {:induction false} ReadBack(v: nat, rest: Bytes, k: nat, acc: nat)
    requires acc + ShiftLeft(v, k) < TWO64 && k + |VarintBytes(v)| <= 10
    ensures ReadFrom(VarintBytes(v) + rest, k, acc) == Varint(acc + ShiftLeft(v, k), k + |VarintBytes(v)|)
  {
    var data := VarintBytes(v) + rest;
    if v < 128 {
      ReadLast(v, rest, data, k, acc);
    } else {
      var low, high := v % 128, v / 128;
      assert data == [low + 128] + (VarintBytes(high) + rest);
      ShiftSplits(low, high, k);
      ReadGroup(low, VarintBytes(high) + rest, data, k, acc);
      ReadBack(high, rest, k + 1, acc + ShiftLeft(low, k));
    }
  }

  /** Decoding undoes encoding for every 64-bit value, whatever follows it. */
  lemma VarintRoundTrip(v: uint64, rest: Bytes)
    ensures ReadVarint(VarintBytes(v) + rest) == Varint(v, Sov(v))
  {
    VarintAtMostTen(v);
    ReadBack(v, rest, 0, 0);
    SovExact(v);
  }

  /** Bytes behind a complete varint do not change what is read. */
  lemma {:induction false} ReadFromExtends(a: Bytes, b: Bytes, k: nat, acc: nat)
    requires ReadFrom(a, k, acc).Varint?
    ensures ReadFrom(a + b, k, acc) == ReadFrom(a, k, acc)
  {
    assert (a + b)[0] == a[0];
    if a[0] >= 128 {
      assert (a + b)[1..] == a[1..] + b;
      ReadFromExtends(a[1..], b, k + 1, Cut64(acc + ShiftLeft(a[0] % 128, k)));
    }
  }

  lemma ReadVarintExtends(a: Bytes, b: Bytes)
    requires ReadVarint(a).Varint?
    ensures ReadVarint(a + b) == ReadVarint(a)
  {
    ReadFromExtends(a, b, 0, 0);
  }

  // ---------- The format, without either loop ----------

  /** The little-endian value of the first `n` groups of seven bits. */
  function GroupSum(data: Bytes, n: nat): nat
    requires n <= |data|
  {
    if n == 0 then 0 else data[0] % 128 + 128 * GroupSum(data[1..], n - 1)
  }

  /** `n` bytes of which the last one alone has a clear high bit. */
  predicate EndsAt(data: Bytes, n: nat) {
    && 1 <= n <= |data|
    && (forall i | 0 <= i < n - 1 :: data[i] >= 128)
    && data[n - 1] < 128
  }

  /** The encoding of a value: its groups, least significant first, the high bit set on all but the last,
      and no more groups than needed. */
  lemma {:induction false} VarintLayout(v: nat)
    ensures EndsAt(VarintBytes(v), |VarintBytes(v)|) && GroupSum(VarintBytes(v), |VarintBytes(v)|) == v
    ensures |VarintBytes(v)| > 1 ==> VarintBytes(v)[|VarintBytes(v)| - 1] != 0
  {
    if v >= 128 {
      VarintLayout(v / 128);
      assert VarintBytes(v)[1..] == VarintBytes(v / 128);
    }
  }

  lemma CutTwice(x: nat, y: nat)
    ensures Cut64(Cut64(x) + y) == Cut64(x + y)
  {
    var q, m := x / 0x1_0000_0000_0000_0000, 0x1_0000_0000_0000_0000;
    assert x + y == (Cut64(x) + y) + q * m;
    CutMultiple(Cut64(x) + y, q);
  }

  lemma {:induction false} CutMultiple(x: nat, q: nat)
    ensures Cut64(x + q * 0x1_0000_0000_0000_0000) == Cut64(x)
  {
    if q > 0 {
      CutMultiple(x, q - 1);
      assert x + q * 0x1_0000_0000_0000_0000 == (x + (q - 1) * 0x1_0000_0000_0000_0000) + 0x1_0000_0000_0000_0000;
    }
  }

  lemma ShiftSum(low: nat, high: nat, acc: nat, k: nat)
    ensures Cut64(Cut64(acc + ShiftLeft(low, k)) + ShiftLeft(high, k + 1)) == Cut64(acc + ShiftLeft(low + 128 * high, k))
  {
    ShiftSplits(low, high, k);
    CutTwice(acc + ShiftLeft(low, k), ShiftLeft(high, k + 1));
  }

  lemma {:induction false} ReadFromExact(data: Bytes, k: nat, acc: nat, n: nat)
    requires EndsAt(data, n)
    ensures ReadFrom(data, k, acc) == if k + n <= 10 then Varint(Cut64(acc + ShiftLeft(GroupSum(data, n), k)), k + n) else Malformed
    decreases n
  {
    var low := data[0] % 128;
    if n == 1 {
      assert GroupSum(data[1..], 0) == 0;
    } else {
      assert EndsAt(data[1..], n - 1);
      if k < 10 {
        ReadFromExact(data[1..], k + 1, Cut64(acc + ShiftLeft(low, k)), n - 1);
        ShiftSum(low, GroupSum(data[1..], n - 1), acc, k);
      }
    }
  }

  lemma {:induction false} ReadFromEnds(data: Bytes, k: nat, acc: nat)
    requires ReadFrom(data, k, acc).Varint?
    ensures EndsAt(data, ReadFrom(data, k, acc).size - k)
  {
    if data[0] >= 128 {
      ReadFromEnds(data[1..], k + 1, Cut64(acc + ShiftLeft(data[0] % 128, k)));
    }
  }

  /** The decoding loop on any bytes, over-long encodings included: it reads the groups up to the first
      byte with a clear high bit, if that is among the first ten, and keeps 64 bits of their sum. */
  lemma ReadVarintExact(data: Bytes, n: nat)
    ensures EndsAt(data, n) ==>
              ReadVarint(data) == if n <= 10 then Varint(GroupSum(data, n) % 0x1_0000_0000_0000_0000, n) else Malformed
    ensures ReadVarint(data).Varint? ==> EndsAt(data, ReadVarint(data).size)
  {
    if EndsAt(data, n) {
      ReadFromExact(data, 0, 0, n);
    }
    if ReadVarint(data).Varint? {
      ReadFromEnds(data, 0, 0);
    }
  }

  // ---------- The loops ----------

  /** The group of byte `k` lies above everything read before it. */
  lemma {:induction false} GroupsDisjoint(group: nat, k: nat)
    requires group < 128
    ensures ShiftLeft(group, k) + Pow128(k) <= Pow128(k + 1)
  {
    if k > 0 {
      GroupsDisjoint(group, k - 1);
    }
  }

  lemma NextGroup(written: Bytes, rest: nat, low: nat, high: nat)
    requires rest >= 128 && low == rest % 128 && high == rest / 128
    ensures |VarintBytes(rest)| == 1 + |VarintBytes(high)|
    ensures written + VarintBytes(rest) == (written + [low + 128]) + VarintBytes(high)
  {
    assert VarintBytes(rest) == [low + 128] + VarintBytes(high);
  }

  /** encodeVarintSwap: writes the groups forward into the space that ends at `offset`. */
  method EncodeVarint(data: array<byte>, offset: nat, v: uint64) returns (base: nat)
    requires Sov(v) <= offset <= data.Length
    modifies data
    ensures base == offset - Sov(v)
    ensures data[base..offset] == VarintBytes(v)
    ensures data[..base] == old(data[..base]) && data[offset..] == old(data[offset..])
  {
    SovExact(v);
    base := offset - Sov(v);
    var pos, rest := base, v;
    while rest >= 128
      invariant base <= pos && pos + |VarintBytes(rest)| == offset && 0 <= rest
      invariant data[base..pos] + VarintBytes(rest) == VarintBytes(v)
      invariant data[..base] == old(data[..base]) && data[offset..] == old(data[offset..])
    {
      ghost var written := data[base..pos];
      NextGroup(written, rest, rest % 128, rest / 128);
      data[pos] := rest % 128 + 128;
      assert data[base..pos + 1] == written + [rest % 128 + 128];
      rest := rest / 128;
      pos := pos + 1;
    }
    ghost var written := data[base..pos];
    data[pos] := rest;
    assert data[base..offset] == written + [rest];
  }

  /** The decoding loop at index `start`; `next` is the index behind the varint. */
  method DecodeVarint(data: Bytes, start: nat) returns (ok: bool, value: uint64, next: nat)
    requires start <= |data|
    ensures ok <==> ReadVarint(data[start..]).Varint?
    ensures ok ==> start < next <= |data| && ReadVarint(data[start..]) == Varint(value, next - start)
  {
    value, next := 0, start;
    var k := 0;
    while true
      invariant 0 <= k <= 10 && next == start + k <= |data|
      invariant value < Pow128(k)
      invariant ReadVarint(data[start..]) == ReadFrom(data[next..], k, value)
      decreases 10 - k
    {
      if k >= 10 || next >= |data| {
        ok := false;
        return;
      }
      var b: int := data[next];
      assert data[next..][1..] == data[next + 1..];
      GroupsDisjoint(b % 128, k);
      next := next + 1;
      value := Cut64(value + ShiftLeft(b % 128, k));
      if b < 128 {
        ok := true;
        return;
      }
      k := k + 1;
    }
  }
}

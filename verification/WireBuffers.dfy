/** The codec's buffer algorithms: sizes, backwards writing in place, looping readers. */
module WireBuffers {
  import opened Wrappers
  import opened Bytes
  import opened Types
  import opened Varint
  import opened Wire

  // ---------- Sizes ----------

  /** A length-delimited field: tag, length, payload. */
  function FieldSize(b: Bytes): nat {
    1 + |b| + Sov(|b|)
  }

  function TextSize(b: Bytes): nat {
    if |b| > 0 then FieldSize(b) else 0
  }

  function NumberSize(v: uint64): nat {
    if v != 0 then 1 + Sov(v) else 0
  }

  function CoinsSize(cc: CoinCodec, coins: seq<Coin>): nat {
    if coins == [] then 0
    else FieldSize(cc.encode(coins[0])) + CoinsSize(cc, coins[1..])
  }

  function Size(cc: CoinCodec, m: Message): nat {
    match m
    case ClaimMsg(from, swapID, randomNumber) => TextSize(from) + TextSize(swapID) + TextSize(randomNumber)
    case RefundMsg(from, swapID) => TextSize(from) + TextSize(swapID)
    case SwapMsg(w) =>
      CoinsSize(cc, w.amount) + LowSize(w) + HighSize(w)
  }

  /** Fields 7 to 12. */
  function HighSize(w: AtomicSwap): nat {
    TextSize(w.senderOtherChain) + TextSize(w.recipientOtherChain) + NumberSize(ToUint64(w.closedBlock)) + NumberSize(w.status)
    + (if w.crossChain then 2 else 0) + NumberSize(w.direction)
  }

  /** Fields 2 to 6. */
  function LowSize(w: AtomicSwap): nat {
    TextSize(w.randomNumberHash) + NumberSize(ToUint64(w.expireTimestamp)) + NumberSize(ToUint64(w.timestamp))
    + TextSize(w.sender) + TextSize(w.recipient)
  }

  lemma TextSizeExact(num: int, b: Bytes)
    requires 1 <= num <= 15 && |b| < TWO63
    ensures TokensOk(TextTokens(num, b)) && |Encode(TextTokens(num, b))| == TextSize(b)
  {
    SovExact(|b|);
    if b != [] {
      EncodeOne(TextToken(num, b));
    }
  }

  lemma NumberSizeExact(num: int, v: uint64)
    requires 1 <= num <= 15
    ensures TokensOk(NumberTokens(num, v)) && |Encode(NumberTokens(num, v))| == NumberSize(v)
  {
    SovExact(v);
    if v != 0 {
      EncodeOne(NumberToken(num, v));
    }
  }

  lemma EncodeOne(t: Token)
    requires TokenOk(t)
    ensures Encode([t]) == TokenBytes(t)
  {
    assert [t][1..] == [];
  }

  // ---------- Writing ----------

  /** The buffer from `j` on holds `front` followed by what it held from `i` on; the rest is untouched. */
  ghost predicate Wrote(before: Bytes, after: Bytes, i: nat, j: nat, front: Bytes) {
    && j <= i <= |before| == |after|
    && |front| == i - j
    && after[j..] == front + before[i..]
    && after[..j] == before[..j]
  }

  lemma WroteTwice(b0: Bytes, b1: Bytes, b2: Bytes, i: nat, j: nat, k: nat, f1: Bytes, f2: Bytes)
    requires Wrote(b0, b1, i, j, f1) && Wrote(b1, b2, j, k, f2)
    ensures Wrote(b0, b2, i, k, f2 + f1)
  {
    assert b2[k..] == f2 + (f1 + b0[i..]);
    assert b1[..j][..k] == b1[..k] && b0[..j][..k] == b0[..k];
  }

  method CopyBefore(data: array<byte>, i: nat, b: Bytes) returns (j: nat)
    requires |b| <= i <= data.Length
    modifies data
    ensures j == i - |b| && Wrote(old(data[..]), data[..], i, j, b)
  {
    j := i - |b|;
    forall k | 0 <= k < |b| {
      data[j + k] := b[k];
    }
    assert data[..][j..] == b + old(data[..])[i..];
  }

  method PutByte(data: array<byte>, i: nat, b: byte) returns (j: nat)
    requires 1 <= i <= data.Length
    modifies data
    ensures j == i - 1 && Wrote(old(data[..]), data[..], i, j, [b])
  {
    j := i - 1;
    data[j] := b;
    assert data[..][j..] == [b] + old(data[..])[i..];
  }

  method PutVarint(data: array<byte>, i: nat, v: uint64) returns (j: nat)
    requires Sov(v) <= i <= data.Length
    modifies data
    ensures j == i - Sov(v) && Wrote(old(data[..]), data[..], i, j, VarintBytes(v))
  {
    SovExact(v);
    ghost var before := data[..];
    j := EncodeVarint(data, i, v);
    assert data[..][j..] == data[j..i] + data[i..];
    assert before[i..] == old(data[i..]) && before[..j] == old(data[..j]);
  }

  /** Payload, length and tag in front of each other are one field. */
  lemma WroteField(b0: Bytes, b1: Bytes, b2: Bytes, b3: Bytes, i: nat, j1: nat, j2: nat, j: nat, num: int, b: Bytes)
    requires 1 <= num <= 15 && |b| < TWO63
    requires Wrote(b0, b1, i, j1, b) && Wrote(b1, b2, j1, j2, VarintBytes(|b|)) && Wrote(b2, b3, j2, j, [num * 8 + 2])
    ensures Wrote(b0, b3, i, j, TokenBytes(TextToken(num, b)))
  {
    WroteTwice(b0, b1, b2, i, j1, j2, b, VarintBytes(|b|));
    WroteTwice(b0, b2, b3, i, j2, j, VarintBytes(|b|) + b, [num * 8 + 2]);
  }

  /** A length-delimited field, written back to front: payload, length, tag. */
  method PutText(data: array<byte>, i: nat, num: int, b: Bytes) returns (j: nat)
    requires 1 <= num <= 15 && |b| < TWO63 && FieldSize(b) <= i <= data.Length
    modifies data
    ensures j == i - FieldSize(b) && Wrote(old(data[..]), data[..], i, j, TokenBytes(TextToken(num, b)))
  {
    var j1 := CopyBefore(data, i, b);
    ghost var b1 := data[..];
    var j2 := PutVarint(data, j1, |b|);
    ghost var b2 := data[..];
    j := PutByte(data, j2, num * 8 + 2);
    WroteField(old(data[..]), b1, b2, data[..], i, j1, j2, j, num, b);
  }

  method PutTextIfSet(data: array<byte>, i: nat, num: int, b: Bytes) returns (j: nat)
    requires 1 <= num <= 15 && |b| < TWO63 && TextSize(b) <= i <= data.Length
    modifies data
    ensures TokensOk(TextTokens(num, b))
    ensures j == i - TextSize(b) && Wrote(old(data[..]), data[..], i, j, Encode(TextTokens(num, b)))
  {
    TextSizeExact(num, b);
    j := i;
    if |b| > 0 {
      EncodeOne(TextToken(num, b));
      j := PutText(data, i, num, b);
    }
  }

  method PutNumberIfSet(data: array<byte>, i: nat, num: int, v: uint64) returns (j: nat)
    requires 1 <= num <= 15 && NumberSize(v) <= i <= data.Length
    modifies data
    ensures TokensOk(NumberTokens(num, v))
    ensures j == i - NumberSize(v) && Wrote(old(data[..]), data[..], i, j, Encode(NumberTokens(num, v)))
  {
    NumberSizeExact(num, v);
    j := i;
    if v != 0 {
      EncodeOne(NumberToken(num, v));
      ghost var b0 := data[..];
      var j1 := PutVarint(data, i, v);
      ghost var b1 := data[..];
      j := PutByte(data, j1, num * 8);
      WroteTwice(b0, b1, data[..], i, j1, j, VarintBytes(v), [num * 8]);
    }
  }

  method PutBoolIfSet(data: array<byte>, i: nat, num: int, set_: bool) returns (j: nat)
    requires 1 <= num <= 15 && (if set_ then 2 else 0) <= i <= data.Length
    modifies data
    ensures TokensOk(NumberTokens(num, if set_ then 1 else 0))
    ensures j == i - (if set_ then 2 else 0)
    ensures Wrote(old(data[..]), data[..], i, j, Encode(NumberTokens(num, if set_ then 1 else 0)))
  {
    NumberSizeExact(num, if set_ then 1 else 0);
    j := i;
    if set_ {
      EncodeOne(NumberToken(num, 1));
      ghost var b0 := data[..];
      var j1 := PutByte(data, i, 1);
      ghost var b1 := data[..];
      j := PutByte(data, j1, num * 8);
      WroteTwice(b0, b1, data[..], i, j1, j, [1], [num * 8]);
    }
  }

  /** The coins from number `k` on are written between `j` and `i`. */
  ghost predicate CoinsWritten(cc: CoinCodec, coins: seq<Coin>, k: nat, before: Bytes, after: Bytes, i: nat, j: nat)
    requires k <= |coins|
  {
    && TokensOk(CoinTokens(cc, coins[k..]))
    && j == i - CoinsSize(cc, coins[k..])
    && Wrote(before, after, i, j, Encode(CoinTokens(cc, coins[k..])))
  }

  /** One turn of the backward loop. */
  method PutCoin(cc: CoinCodec, data: array<byte>, coins: seq<Coin>, k: nat, next: nat, ghost b0: Bytes, ghost i: nat) returns (j: nat)
    requires CoinsFit(cc, coins) && k < |coins| && CoinsSize(cc, coins) <= i <= data.Length
    requires CoinsWritten(cc, coins, k + 1, b0, data[..], i, next)
    modifies data
    ensures CoinsWritten(cc, coins, k, b0, data[..], i, j)
  {
    CoinsStep(cc, coins, k);
    ghost var b1 := data[..];
    j := PutText(data, next, 1, cc.encode(coins[k]));
    WroteTwice(b0, b1, data[..], i, next, j, Encode(CoinTokens(cc, coins[k + 1..])), TokenBytes(TextToken(1, cc.encode(coins[k]))));
  }

  /** The coins, from the last to the first. */
  method PutCoins(cc: CoinCodec, data: array<byte>, i: nat, coins: seq<Coin>) returns (j: nat)
    requires CoinsFit(cc, coins)
    requires CoinsSize(cc, coins) <= i <= data.Length
    modifies data
    ensures TokensOk(CoinTokens(cc, coins))
    ensures j == i - CoinsSize(cc, coins) && Wrote(old(data[..]), data[..], i, j, Encode(CoinTokens(cc, coins)))
  {
    CoinTokensEncode(cc, coins);
    j := i;
    ghost var b0 := data[..];
    var k := |coins|;
    assert coins[k..] == [];
    while k > 0
      invariant 0 <= k <= |coins| && CoinsWritten(cc, coins, k, b0, data[..], i, j)
    {
      k := k - 1;
      j := PutCoin(cc, data, coins, k, j, b0, i);
    }
    assert coins[0..] == coins;
  }

  lemma CoinsStep(cc: CoinCodec, coins: seq<Coin>, k: nat)
    requires CoinsFit(cc, coins) && k < |coins|
    ensures CoinsSize(cc, coins[k..]) == FieldSize(cc.encode(coins[k])) + CoinsSize(cc, coins[k + 1..]) <= CoinsSize(cc, coins)
    ensures TokensOk(CoinTokens(cc, coins[k..])) && TokensOk(CoinTokens(cc, coins[k + 1..]))
    ensures Encode(CoinTokens(cc, coins[k..]))
            == TokenBytes(TextToken(1, cc.encode(coins[k]))) + Encode(CoinTokens(cc, coins[k + 1..]))
  {
    assert coins[k..][1..] == coins[k + 1..];
    CoinTokensEncode(cc, coins[k..]);
    CoinsSizeTail(cc, coins, k);
  }

  lemma {:induction false} CoinsSizeTail(cc: CoinCodec, coins: seq<Coin>, k: nat)
    requires k <= |coins|
    ensures CoinsSize(cc, coins[k..]) <= CoinsSize(cc, coins)
  {
    if k > 0 {
      CoinsSizeTail(cc, coins[1..], k - 1);
      assert coins[1..][k - 1..] == coins[k..];
    } else {
      assert coins[k..] == coins;
    }
  }

  lemma {:induction false} CoinTokensEncode(cc: CoinCodec, coins: seq<Coin>)
    requires CoinsFit(cc, coins)
    ensures TokensOk(CoinTokens(cc, coins)) && |Encode(CoinTokens(cc, coins))| == CoinsSize(cc, coins)
    ensures coins != [] ==>
              TokensOk(CoinTokens(cc, coins[1..]))
              && Encode(CoinTokens(cc, coins)) == TokenBytes(TextToken(1, cc.encode(coins[0]))) + Encode(CoinTokens(cc, coins[1..]))
  {
    if coins != [] {
      CoinTokensEncode(cc, coins[1..]);
      var t := TextToken(1, cc.encode(coins[0]));
      assert CoinTokens(cc, coins)[1..] == CoinTokens(cc, coins[1..]);
      SovExact(|t.bytes|);
    }
  }

  // ---------- Whole messages ----------

  /** Writing `first` before what encodes `rest` encodes their concatenation. */
  lemma WroteBefore(b0: Bytes, b1: Bytes, b2: Bytes, i: nat, j: nat, k: nat, first: seq<Token>, rest: seq<Token>)
    requires TokensOk(first) && TokensOk(rest)
    requires Wrote(b0, b1, i, j, Encode(rest)) && Wrote(b1, b2, j, k, Encode(first))
    ensures TokensOk(first + rest) && Wrote(b0, b2, i, k, Encode(first + rest))
  {
    EncodeConcat(first, rest);
    WroteTwice(b0, b1, b2, i, j, k, Encode(rest), Encode(first));
  }

  method PutClaim(data: array<byte>, from: Bytes, swapID: Bytes, randomNumber: Bytes) returns (i: nat)
    requires |from| < TWO63 && |swapID| < TWO63 && |randomNumber| < TWO63
    requires TextSize(from) + TextSize(swapID) + TextSize(randomNumber) <= data.Length
    modifies data
    ensures var ts := TextTokens(1, from) + (TextTokens(2, swapID) + TextTokens(3, randomNumber));
            TokensOk(ts) && Wrote(old(data[..]), data[..], data.Length, i, Encode(ts))
    ensures i == data.Length - (TextSize(from) + TextSize(swapID) + TextSize(randomNumber))
  {
    ghost var b0 := data[..];
    var i3 := PutTextIfSet(data, data.Length, 3, randomNumber);
    ghost var b3 := data[..];
    var i2 := PutTextIfSet(data, i3, 2, swapID);
    ghost var b2 := data[..];
    WroteBefore(b0, b3, b2, data.Length, i3, i2, TextTokens(2, swapID), TextTokens(3, randomNumber));
    i := PutTextIfSet(data, i2, 1, from);
    WroteBefore(b0, b2, data[..], data.Length, i2, i, TextTokens(1, from), TextTokens(2, swapID) + TextTokens(3, randomNumber));
  }

  method PutRefund(data: array<byte>, from: Bytes, swapID: Bytes) returns (i: nat)
    requires |from| < TWO63 && |swapID| < TWO63 && TextSize(from) + TextSize(swapID) <= data.Length
    modifies data
    ensures TokensOk(TextTokens(1, from) + TextTokens(2, swapID))
    ensures Wrote(old(data[..]), data[..], data.Length, i, Encode(TextTokens(1, from) + TextTokens(2, swapID)))
    ensures i == data.Length - (TextSize(from) + TextSize(swapID))
  {
    ghost var b0 := data[..];
    var i2 := PutTextIfSet(data, data.Length, 2, swapID);
    ghost var b2 := data[..];
    i := PutTextIfSet(data, i2, 1, from);
    WroteBefore(b0, b2, data[..], data.Length, i2, i, TextTokens(1, from), TextTokens(2, swapID));
  }

  method PutHigh(data: array<byte>, w: AtomicSwap) returns (i: nat)
    requires TextsFit(w) && HighSize(w) <= data.Length
    modifies data
    ensures TokensOk(HighTokens(w)) && i == data.Length - HighSize(w)
    ensures Wrote(old(data[..]), data[..], data.Length, i, Encode(HighTokens(w)))
  {
    ghost var n := data.Length;
    ghost var b0 := data[..];
    ghost var ts := NumberTokens(12, w.direction);
    var i12 := PutNumberIfSet(data, data.Length, 12, w.direction);
    assert ts + [] == ts;
    ghost var b1 := data[..];
    var i11 := PutBoolIfSet(data, i12, 11, w.crossChain);
    ghost var b2 := data[..];
    WroteBefore(b0, b1, b2, n, i12, i11, NumberTokens(11, if w.crossChain then 1 else 0), ts + []);
    ts := NumberTokens(11, if w.crossChain then 1 else 0) + (ts + []);
    var i10 := PutNumberIfSet(data, i11, 10, w.status);
    ghost var b3 := data[..];
    WroteBefore(b0, b2, b3, n, i11, i10, NumberTokens(10, w.status), ts);
    ts := NumberTokens(10, w.status) + ts;
    var i9 := PutNumberIfSet(data, i10, 9, ToUint64(w.closedBlock));
    ghost var b4 := data[..];
    WroteBefore(b0, b3, b4, n, i10, i9, NumberTokens(9, ToUint64(w.closedBlock)), ts);
    ts := NumberTokens(9, ToUint64(w.closedBlock)) + ts;
    var i8 := PutTextIfSet(data, i9, 8, w.recipientOtherChain);
    ghost var b5 := data[..];
    WroteBefore(b0, b4, b5, n, i9, i8, TextTokens(8, w.recipientOtherChain), ts);
    ts := TextTokens(8, w.recipientOtherChain) + ts;
    i := PutTextIfSet(data, i8, 7, w.senderOtherChain);
    WroteBefore(b0, b5, data[..], n, i8, i, TextTokens(7, w.senderOtherChain), ts);
  }

  method PutLow(data: array<byte>, start: nat, w: AtomicSwap, ghost b0: Bytes, ghost rest: seq<Token>) returns (i: nat)
    requires TextsFit(w) && LowSize(w) <= start <= data.Length
    requires TokensOk(rest) && Wrote(b0, data[..], data.Length, start, Encode(rest))
    modifies data
    ensures TokensOk(LowTokens(w, rest)) && i == start - LowSize(w)
    ensures Wrote(b0, data[..], data.Length, i, Encode(LowTokens(w, rest)))
  {
    ghost var n := data.Length;
    ghost var b1 := data[..];
    var i6 := PutTextIfSet(data, start, 6, w.recipient);
    ghost var b2 := data[..];
    WroteBefore(b0, b1, b2, n, start, i6, TextTokens(6, w.recipient), rest);
    ghost var ts := TextTokens(6, w.recipient) + rest;
    var i5 := PutTextIfSet(data, i6, 5, w.sender);
    ghost var b3 := data[..];
    WroteBefore(b0, b2, b3, n, i6, i5, TextTokens(5, w.sender), ts);
    ts := TextTokens(5, w.sender) + ts;
    var i4 := PutNumberIfSet(data, i5, 4, ToUint64(w.timestamp));
    ghost var b4 := data[..];
    WroteBefore(b0, b3, b4, n, i5, i4, NumberTokens(4, ToUint64(w.timestamp)), ts);
    ts := NumberTokens(4, ToUint64(w.timestamp)) + ts;
    var i3 := PutNumberIfSet(data, i4, 3, ToUint64(w.expireTimestamp));
    ghost var b5 := data[..];
    WroteBefore(b0, b4, b5, n, i4, i3, NumberTokens(3, ToUint64(w.expireTimestamp)), ts);
    ts := NumberTokens(3, ToUint64(w.expireTimestamp)) + ts;
    i := PutTextIfSet(data, i3, 2, w.randomNumberHash);
    WroteBefore(b0, b5, data[..], n, i3, i, TextTokens(2, w.randomNumberHash), ts);
  }

  method PutSwap(cc: CoinCodec, w: AtomicSwap, data: array<byte>) returns (i: nat)
    requires Encodable(cc, SwapMsg(w))
    requires CoinsSize(cc, w.amount) + LowSize(w) + HighSize(w) <= data.Length
    modifies data
    ensures TokensOk(CoinTokens(cc, w.amount) + SwapTokens(w))
    ensures i == data.Length - (CoinsSize(cc, w.amount) + LowSize(w) + HighSize(w))
    ensures Wrote(old(data[..]), data[..], data.Length, i, Encode(CoinTokens(cc, w.amount) + SwapTokens(w)))
  {
    ghost var b0 := data[..];
    var i7 := PutHigh(data, w);
    var i2 := PutLow(data, i7, w, b0, HighTokens(w));
    ghost var b2 := data[..];
    i := PutCoins(cc, data, i2, w.amount);
    WroteBefore(b0, b2, data[..], data.Length, i2, i, CoinTokens(cc, w.amount), SwapTokens(w));
  }

  /** MarshalToSizedBuffer: fills exactly the last Size() bytes of the buffer. */
  method MarshalToSizedBuffer(cc: CoinCodec, m: Message, data: array<byte>) returns (n: nat)
    requires Encodable(cc, m) && Size(cc, m) <= data.Length
    modifies data
    ensures TokensOk(Tokens(cc, m)) && n == Size(cc, m)
    ensures Wrote(old(data[..]), data[..], data.Length, data.Length - n, MarshalBytes(cc, m))
  {
    match m
    case ClaimMsg(from, swapID, randomNumber) =>
      var i := PutClaim(data, from, swapID, randomNumber);
      n := data.Length - i;
    case RefundMsg(from, swapID) =>
      var i := PutRefund(data, from, swapID);
      n := data.Length - i;
    case SwapMsg(w) =>
      var i := PutSwap(cc, w, data);
      n := data.Length - i;
  }

  /** Marshal: a fresh buffer of Size() bytes, filled completely. */
  method Marshal(cc: CoinCodec, m: Message) returns (data: array<byte>)
    requires Encodable(cc, m)
    ensures TokensOk(Tokens(cc, m)) && fresh(data)
    ensures data[..] == MarshalBytes(cc, m) && data.Length == Size(cc, m)
  {
    data := new byte[Size(cc, m)](_ => 0);
    var n := MarshalToSizedBuffer(cc, m, data);
    assert data[..][0..] == MarshalBytes(cc, m) + [];
  }

  // ---------- Reading ----------

  function Shifted(o: Option<nat>, start: nat): Option<nat> {
    if o.None? then None else Some(start + o.value)
  }

  /** The value part of one turn of the skip loop; `next` is the index behind the tag. */
  method PassValue(data: Bytes, i: nat, wire: uint64, next: nat, depth: nat) returns (r: Turn)
    requires i < next <= |data|
    ensures r == SkipValue(data[i..], wire, next - i, depth)
  {
    assert data[i..][next - i..] == data[next..];
    var wireType := wire % 8;
    if wireType == 0 {
      var ok, _, behind := DecodeVarint(data, next);
      r := if ok then Turn(behind - i, depth) else BadTurn;
    } else if wireType == 1 {
      r := Turn(next - i + 8, depth);
    } else if wireType == 2 {
      var ok, length, behind := DecodeVarint(data, next);
      r := if ok && length < TWO63 then Turn(behind - i + length, depth) else BadTurn;
    } else if wireType == 3 {
      r := Turn(next - i, depth + 1);
    } else if wireType == 4 {
      r := if depth == 0 then BadTurn else Turn(next - i, depth - 1);
    } else if wireType == 5 {
      r := Turn(next - i + 4, depth);
    } else {
      r := BadTurn;
    }
  }

  /** A skip that has reached index `i` inside `depth` groups ends, counted from the start of the data,
      where `target` says. */
  ghost predicate SkipsTo(data: Bytes, i: nat, depth: nat, target: Option<nat>) {
    target == if i < |data| then Shifted(SkipFrom(data[i..], depth), i) else None
  }

  lemma SkipStarts(data: Bytes)
    ensures SkipsTo(data, 0, 0, SkipFrom(data, 0))
  {
    assert data[0..] == data;
  }

  /** The index behind one value still ends where `target` says. */
  ghost predicate SkipsOnTo(data: Bytes, i: nat, turn: Turn, target: Option<nat>) {
    if turn.BadTurn? then target == None
    else if turn.inner == 0 then target == Some(i + turn.passed)
    else SkipsTo(data, i + turn.passed, turn.inner, target)
  }

  lemma SkipContinues(data: Bytes, i: nat, passed: nat, inner: nat, target: Option<nat>)
    requires i < |data| && passed > 0 && target == Shifted(SkipOn(data[i..], passed, inner), i)
    ensures SkipsOnTo(data, i, Turn(passed, inner), target)
  {
    if inner != 0 && i + passed < |data| {
      assert data[i..][passed..] == data[i + passed..];
    }
  }

  /** One turn of the skip loop at index `i`: the tag, then the value behind it. */
  method NextTurn(data: Bytes, i: nat, depth: nat, ghost target: Option<nat>) returns (r: Turn)
    requires i < |data| && SkipsTo(data, i, depth, target)
    ensures r.Turn? ==> r.passed > 0
    ensures SkipsOnTo(data, i, r, target)
  {
    var ok, wire, next := DecodeVarint(data, i);
    if !ok { return BadTurn; }
    r := PassValue(data, i, wire, next, depth);
    assert target == Shifted(SkipTagged(data[i..], wire, next - i, depth), i);
    if r.Turn? {
      SkipContinues(data, i, r.passed, r.inner, target);
    }
  }

  /** The skip loop: the group depth goes up and down. */
  method SkipLoop(data: Bytes, ghost target: Option<nat>) returns (r: Option<nat>)
    requires SkipsTo(data, 0, 0, target)
    ensures r == target
  {
    var i, depth := 0, 0;
    while i < |data|
      invariant SkipsTo(data, i, depth, target)
      decreases |data| - i
    {
      var turn := NextTurn(data, i, depth, target);
      if turn.BadTurn? { return None; }
      if turn.inner == 0 { return Some(i + turn.passed); }
      i, depth := i + turn.passed, turn.inner;
    }
    r := None;
  }

  /** skipSwap. */
  method SkipField(data: Bytes) returns (r: Option<nat>)
    ensures r == SkipFrom(data, 0)
  {
    SkipStarts(data);
    r := SkipLoop(data, SkipFrom(data, 0));
  }

  /** The value of a known field at index `next`. */
  method NextValue(num: int, wireType: int, text: bool, data: Bytes, next: nat) returns (r: Field)
    requires next <= |data|
    ensures r == ReadValue(num, wireType, text, data[next..])
  {
    if wireType != (if text then 2 else 0) { return BadField; }
    var ok, v, behind := DecodeVarint(data, next);
    if !ok { return BadField; }
    if !text { return KnownField(NumberToken(num, v), behind - next); }
    if v >= TWO63 || behind + v > |data| { return BadField; }
    assert data[next..][behind - next..behind - next + v] == data[behind..behind + v];
    r := KnownField(TextToken(num, data[behind..behind + v]), behind - next + v);
  }

  /** The checks and the value behind a tag that ends at index `next`. */
  method NextTagged(m: Message, data: Bytes, i: nat, wire: uint64, next: nat) returns (r: Field)
    requires i < next <= |data|
    ensures r == ReadTagged(m, data[i..], wire, next - i)
  {
    var num, wireType := ToInt32(wire / 8), wire % 8;
    if wireType == 4 || num <= 0 { return BadField; }
    if KindOf(m, num) == Unknown {
      var skipped := SkipField(data[i..]);
      if skipped.None? || i + skipped.value > |data| { return BadField; }
      return UnknownField(skipped.value);
    }
    assert data[i..][next - i..] == data[next..];
    var value := NextValue(num, wireType, KindOf(m, num) == Text, data, next);
    if value.BadField? { return BadField; }
    r := KnownField(value.token, next - i + value.size);
  }

  /** The body of the decoding loop: tag, checks, value. */
  method NextField(m: Message, data: Bytes, i: nat) returns (r: Field)
    requires i < |data|
    ensures r == ReadField(m, data[i..])
  {
    var ok, wire, next := DecodeVarint(data, i);
    if !ok { return BadField; }
    r := NextTagged(m, data, i, wire, next);
  }

  /** Decoding that has reached index `i` with the message `m` ends in `target`. */
  ghost predicate DecodesTo(cc: CoinCodec, m: Message, data: Bytes, i: nat, target: Option<Message>) {
    i <= |data| && target == Unmarshal(cc, m, data[i..])
  }

  lemma DecodingStarts(cc: CoinCodec, m: Message, data: Bytes)
    ensures DecodesTo(cc, m, data, 0, Unmarshal(cc, m, data))
  {
    assert data[0..] == data;
  }

  lemma DecodingContinues(cc: CoinCodec, m: Message, data: Bytes, i: nat, target: Option<Message>, field: Field, applied: Option<Message>)
    requires i < |data| && DecodesTo(cc, m, data, i, target)
    requires field == ReadField(m, data[i..]) && applied == ApplyField(cc, m, field)
    ensures applied.None? ==> target == None
    ensures applied.Some? ==> 0 < field.size <= |data| - i && DecodesTo(cc, applied.value, data, i + field.size, target)
  {
    assert target == UnmarshalNext(cc, m, data[i..]);
    if applied.Some? {
      assert data[i..][field.size..] == data[i + field.size..];
    }
  }

  lemma DecodingEnds(cc: CoinCodec, m: Message, data: Bytes, target: Option<Message>)
    requires DecodesTo(cc, m, data, |data|, target)
    ensures target == Some(m)
  {
  }

  /** One turn of the decoding loop: a field read and applied. */
  method UnmarshalStep(cc: CoinCodec, m: Message, data: Bytes, i: nat, ghost target: Option<Message>)
    returns (applied: Option<Message>, n: nat)
    requires i < |data| && DecodesTo(cc, m, data, i, target)
    ensures applied.None? ==> target == None
    ensures applied.Some? ==> 0 < n <= |data| - i && DecodesTo(cc, applied.value, data, i + n, target)
  {
    var field := NextField(m, data, i);
    applied := ApplyField(cc, m, field);
    DecodingContinues(cc, m, data, i, target, field, applied);
    n := if field.BadField? then 0 else field.size;
  }

  /** The decoding loop. */
  method UnmarshalLoop(cc: CoinCodec, empty: Message, data: Bytes, ghost target: Option<Message>) returns (r: Option<Message>)
    requires DecodesTo(cc, empty, data, 0, target)
    ensures r == target
  {
    var m, i := empty, 0;
    while i < |data|
      invariant 0 <= i <= |data| && DecodesTo(cc, m, data, i, target)
      decreases |data| - i
    {
      var applied, n := UnmarshalStep(cc, m, data, i, target);
      if applied.None? { return None; }
      m, i := applied.value, i + n;
    }
    DecodingEnds(cc, m, data, target);
    r := Some(m);
  }

  /** Unmarshal: terminates on every byte string and reads what the specification reads. */
  method UnmarshalMessage(cc: CoinCodec, empty: Message, data: Bytes) returns (r: Option<Message>)
    ensures r == Unmarshal(cc, empty, data)
  {
    DecodingStarts(cc, empty, data);
    r := UnmarshalLoop(cc, empty, data, Unmarshal(cc, empty, data));
  }
}

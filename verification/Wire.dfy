/** The wire format ("Message Structure", Protocol Buffers encoding) of three of the module's messages. */
module Wire {
  import opened Wrappers
  import opened Bytes
  import opened Types
  import opened Varint

  // ---------- Messages and their fields ----------

  datatype Message =
    | ClaimMsg(from: Bytes, swapID: Bytes, randomNumber: Bytes)
    | RefundMsg(from: Bytes, swapID: Bytes)
    | SwapMsg(swap: AtomicSwap)

  /** A coin is a nested message of the SDK: an abstract byte string that can be decoded again. */
  datatype CoinCodec = CoinCodec(encode: Coin -> Bytes, decode: Bytes -> Option<Coin>)

  /** The encodings of these coins have machine lengths. */
  ghost predicate CoinsFit(cc: CoinCodec, coins: seq<Coin>) {
    forall coin | coin in coins :: |cc.encode(coin)| < TWO63
  }

  /** The encodings of these coins can be decoded again. */
  ghost predicate CoinsInvertible(cc: CoinCodec, coins: seq<Coin>) {
    forall coin | coin in coins :: cc.decode(cc.encode(coin)) == Some(coin)
  }

  datatype Kind = Unknown | Number | Text

  function KindOf(m: Message, num: int): Kind {
    match m
    case ClaimMsg(_, _, _) => if 1 <= num <= 3 then Text else Unknown
    case RefundMsg(_, _) => if 1 <= num <= 2 then Text else Unknown
    case SwapMsg(_) =>
      if 1 <= num <= 2 || 5 <= num <= 8 then Text
      else if 3 <= num <= 4 || 9 <= num <= 12 then Number
      else Unknown
  }

  /** One field on the wire. */
  datatype Token = NumberToken(num: int, value: uint64) | TextToken(num: int, bytes: Bytes)

  /** What the decoder does with a known field; only a nested coin can be malformed. */
  function Apply(cc: CoinCodec, m: Message, t: Token): Option<Message> {
    match m
    case ClaimMsg(from, id, number) =>
      (match t
       case TextToken(1, b) => Some(ClaimMsg(b, id, number))
       case TextToken(2, b) => Some(ClaimMsg(from, b, number))
       case TextToken(3, b) => Some(ClaimMsg(from, id, b))
       case _ => Some(m))
    case RefundMsg(from, id) =>
      (match t
       case TextToken(1, b) => Some(RefundMsg(b, id))
       case TextToken(2, b) => Some(RefundMsg(from, b))
       case _ => Some(m))
    case SwapMsg(w) =>
      (match t
       case TextToken(1, b) =>
         var coin :- cc.decode(b);
         Some(SwapMsg(w.(amount := w.amount + [coin])))
       case TextToken(2, b) => Some(SwapMsg(w.(randomNumberHash := b)))
       case NumberToken(3, v) => Some(SwapMsg(w.(expireTimestamp := Wrap64(v))))
       case NumberToken(4, v) => Some(SwapMsg(w.(timestamp := Wrap64(v))))
       case TextToken(5, b) => Some(SwapMsg(w.(sender := b)))
       case TextToken(6, b) => Some(SwapMsg(w.(recipient := b)))
       case TextToken(7, b) => Some(SwapMsg(w.(senderOtherChain := b)))
       case TextToken(8, b) => Some(SwapMsg(w.(recipientOtherChain := b)))
       case NumberToken(9, v) => Some(SwapMsg(w.(closedBlock := Wrap64(v))))
       case NumberToken(10, v) => Some(SwapMsg(w.(status := v % 256)))
       case NumberToken(11, v) => Some(SwapMsg(w.(crossChain := v != 0)))
       case NumberToken(12, v) => Some(SwapMsg(w.(direction := v % 256)))
       case _ => Some(m))
  }

  /** Decoding never turns one message type into another. */
  ghost predicate SameKinds(m1: Message, m2: Message) {
    forall num :: KindOf(m1, num) == KindOf(m2, num)
  }

  lemma ApplyKeepsKinds(cc: CoinCodec, m: Message, t: Token)
    requires Apply(cc, m, t).Some?
    ensures SameKinds(m, Apply(cc, m, t).value)
  {
  }

  // ---------- Encoding ----------

  function TextTokens(num: int, b: Bytes): seq<Token> {
    if b == [] then [] else [TextToken(num, b)]
  }

  function NumberTokens(num: int, v: uint64): seq<Token> {
    if v == 0 then [] else [NumberToken(num, v)]
  }

  function CoinTokens(cc: CoinCodec, coins: seq<Coin>): seq<Token> {
    if coins == [] then [] else [TextToken(1, cc.encode(coins[0]))] + CoinTokens(cc, coins[1..])
  }

  /** The fields present on the wire; zero values are absent, coins never are. */
  function Tokens(cc: CoinCodec, m: Message): seq<Token> {
    match m
    case ClaimMsg(from, swapID, randomNumber) =>
      TextTokens(1, from) + (TextTokens(2, swapID) + TextTokens(3, randomNumber))
    case RefundMsg(from, swapID) =>
      TextTokens(1, from) + TextTokens(2, swapID)
    case SwapMsg(w) =>
      CoinTokens(cc, w.amount) + SwapTokens(w)
  }

  function SwapTokens(w: AtomicSwap): seq<Token> {
    LowTokens(w, HighTokens(w))
  }

  /** Fields 2 to 6, followed by `rest`. */
  function LowTokens(w: AtomicSwap, rest: seq<Token>): seq<Token> {
    TextTokens(2, w.randomNumberHash)
    + (NumberTokens(3, ToUint64(w.expireTimestamp))
       + (NumberTokens(4, ToUint64(w.timestamp))
          + (TextTokens(5, w.sender)
             + (TextTokens(6, w.recipient) + rest))))
  }

  /** Fields 7 to 12. */
  function HighTokens(w: AtomicSwap): seq<Token> {
    TextTokens(7, w.senderOtherChain)
    + (TextTokens(8, w.recipientOtherChain)
       + (NumberTokens(9, ToUint64(w.closedBlock))
          + (NumberTokens(10, w.status)
             + (NumberTokens(11, if w.crossChain then 1 else 0)
                + (NumberTokens(12, w.direction) + [])))))
  }

  predicate TokenOk(t: Token) {
    1 <= t.num <= 15 && (t.TextToken? ==> |t.bytes| < TWO63)
  }

  function TokenBytes(t: Token): Bytes
    requires TokenOk(t)
  {
    match t
    case NumberToken(num, v) => [num * 8] + VarintBytes(v)
    case TextToken(num, b) => [num * 8 + 2] + (VarintBytes(|b|) + b)
  }

  predicate TokensOk(ts: seq<Token>) {
    forall i | 0 <= i < |ts| :: TokenOk(ts[i])
  }

  function Encode(ts: seq<Token>): Bytes
    requires TokensOk(ts)
  {
    if ts == [] then [] else TokenBytes(ts[0]) + Encode(ts[1..])
  }

  lemma {:induction false} EncodeConcat(a: seq<Token>, b: seq<Token>)
    requires TokensOk(a) && TokensOk(b)
    ensures Encode(a + b) == Encode(a) + Encode(b)
  {
    if a == [] {
      assert a + b == b;
    } else {
      assert (a + b)[1..] == a[1..] + b;
      EncodeConcat(a[1..], b);
    }
  }

  // ---------- Decoding ----------

  /** The conversion int32(x) of an unsigned value. */
  function ToInt32(x: nat): (r: int)
    ensures (x - r) % 0x1_0000_0000 == 0 && -0x8000_0000 <= r < 0x8000_0000
  {
    var m := x % 0x1_0000_0000;
    if m >= 0x8000_0000 then m - 0x1_0000_0000 else m
  }

  /** One turn of the skip loop: the index behind the value and the new group depth. */
  datatype Turn = BadTurn | Turn(passed: nat, inner: nat)

  /** What one turn of the decoding loop found, and its length. */
  datatype Field = BadField | UnknownField(size: nat) | KnownField(token: Token, size: nat)

  /** skipSwap from inside `depth` groups: the bytes to pass over, which may point behind the data. */
  function SkipFrom(data: Bytes, depth: nat): (r: Option<nat>)
    ensures r.Some? ==> r.value >= 1 && |data| >= 1
    decreases |data|, 2
  {
    var tag := ReadVarint(data);
    if tag.Malformed? then None else SkipTagged(data, tag.value, tag.size, depth)
  }

  /** The skip behind a tag of `n` bytes. */
  function SkipTagged(data: Bytes, wire: uint64, n: nat, depth: nat): (r: Option<nat>)
    requires 0 < n <= |data|
    ensures r.Some? ==> r.value >= 1
    decreases |data|, 1
  {
    var turn := SkipValue(data, wire, n, depth);
    if turn.BadTurn? then None else SkipOn(data, turn.passed, turn.inner)
  }

  /** The skip goes on inside `inner` groups after `passed` bytes. */
  function SkipOn(data: Bytes, passed: nat, inner: nat): (r: Option<nat>)
    requires passed > 0
    ensures r.Some? ==> r.value >= 1
    decreases |data|, 0
  {
    if inner == 0 then Some(passed)
    else if passed >= |data| then None
    else
      var more := SkipFrom(data[passed..], inner);
      if more.None? then None else Some(passed + more.value)
  }

  /** The value behind a tag of `n` bytes. */
  function SkipValue(data: Bytes, wire: uint64, n: nat, depth: nat): (r: Turn)
    requires 0 < n <= |data|
    ensures r.Turn? ==> r.passed >= n
  {
    var kind := wire % 8;
    if kind == 0 || kind == 2 then
      var v := ReadVarint(data[n..]);
      if v.Malformed? then BadTurn
      else if kind == 0 then Turn(n + v.size, depth)
      else if v.value >= TWO63 then BadTurn
      else Turn(n + v.size + v.value, depth)
    else if kind == 1 then Turn(n + 8, depth)
    else if kind == 3 then Turn(n, depth + 1)
    else if kind == 4 then if depth == 0 then BadTurn else Turn(n, depth - 1)
    else if kind == 5 then Turn(n + 4, depth)
    else BadTurn
  }

  /** The value of a known field, at the start of `data`. */
  function ReadValue(num: int, wireType: int, text: bool, data: Bytes): (r: Field)
    ensures !r.UnknownField? && (r.KnownField? ==> 0 < r.size <= |data|)
  {
    if wireType != (if text then 2 else 0) then BadField
    else
      var v := ReadVarint(data);
      if v.Malformed? then BadField
      else if !text then KnownField(NumberToken(num, v.value), v.size)
      else if v.value >= TWO63 || v.value > |data| - v.size then BadField
      else KnownField(TextToken(num, data[v.size..v.size + v.value]), v.size + v.value)
  }

  /** One turn of the decoding loop: the field read, if it is a known one, and its length. */
  function ReadField(m: Message, data: Bytes): (r: Field)
    ensures !r.BadField? ==> 0 < r.size <= |data|
  {
    var tag := ReadVarint(data);
    if tag.Malformed? then BadField else ReadTagged(m, data, tag.value, tag.size)
  }

  /** The checks and the value behind the tag `wire` of `n` bytes. */
  function ReadTagged(m: Message, data: Bytes, wire: uint64, n: nat): (r: Field)
    requires 0 < n <= |data|
    ensures !r.BadField? ==> 0 < r.size <= |data|
  {
    var num, wireType := ToInt32(wire / 8), wire % 8;
    if wireType == 4 || num <= 0 then BadField
    else if KindOf(m, num).Unknown? then
      var skipped := SkipFrom(data, 0);
      if skipped.None? || skipped.value > |data| then BadField else UnknownField(skipped.value)
    else
      var value := ReadValue(num, wireType, KindOf(m, num).Text?, data[n..]);
      if value.BadField? then BadField else KnownField(value.token, n + value.size)
  }

  function ApplyField(cc: CoinCodec, m: Message, f: Field): Option<Message> {
    match f
    case BadField => None
    case UnknownField(_) => Some(m)
    case KnownField(t, _) => Apply(cc, m, t)
  }

  /** Decode `data` into the fields of `m`. */
  function Unmarshal(cc: CoinCodec, m: Message, data: Bytes): Option<Message>
    decreases |data|, 1
  {
    if data == [] then Some(m) else UnmarshalNext(cc, m, data)
  }

  /** One field, and then the rest. */
  function UnmarshalNext(cc: CoinCodec, m: Message, data: Bytes): Option<Message>
    decreases |data|, 0
  {
    var field := ReadField(m, data);
    var m' := ApplyField(cc, m, field);
    if m'.None? then None else Unmarshal(cc, m'.value, data[field.size..])
  }

  // ---------- Decoding one part after another ----------

  lemma SkipValueExtends(a: Bytes, b: Bytes, wire: uint64, n: nat, depth: nat)
    requires 0 < n <= |a| && SkipValue(a, wire, n, depth).Turn?
    ensures SkipValue(a + b, wire, n, depth) == SkipValue(a, wire, n, depth)
  {
    assert (a + b)[n..] == a[n..] + b;
    if ReadVarint(a[n..]).Varint? {
      ReadVarintExtends(a[n..], b);
    }
  }

  lemma {:induction false} SkipExtends(a: Bytes, b: Bytes, depth: nat)
    requires SkipFrom(a, depth).Some? && SkipFrom(a, depth).value <= |a|
    ensures SkipFrom(a + b, depth) == SkipFrom(a, depth)
    decreases |a|, 2
  {
    var tag := ReadVarint(a);
    ReadVarintExtends(a, b);
    SkipTaggedExtends(a, b, tag.value, tag.size, depth);
  }

  lemma {:induction false} SkipTaggedExtends(a: Bytes, b: Bytes, wire: uint64, n: nat, depth: nat)
    requires 0 < n <= |a| && SkipTagged(a, wire, n, depth).Some? && SkipTagged(a, wire, n, depth).value <= |a|
    ensures SkipTagged(a + b, wire, n, depth) == SkipTagged(a, wire, n, depth)
    decreases |a|, 1
  {
    var turn := SkipValue(a, wire, n, depth);
    SkipValueExtends(a, b, wire, n, depth);
    SkipOnExtends(a, b, turn.passed, turn.inner);
  }

  lemma {:induction false} SkipOnExtends(a: Bytes, b: Bytes, passed: nat, inner: nat)
    requires passed > 0 && SkipOn(a, passed, inner).Some? && SkipOn(a, passed, inner).value <= |a|
    ensures SkipOn(a + b, passed, inner) == SkipOn(a, passed, inner)
    decreases |a|, 0
  {
    if inner != 0 {
      assert (a + b)[passed..] == a[passed..] + b;
      SkipExtends(a[passed..], b, inner);
    }
  }

  lemma ReadValueExtends(num: int, wireType: int, text: bool, a: Bytes, b: Bytes)
    requires !ReadValue(num, wireType, text, a).BadField?
    ensures ReadValue(num, wireType, text, a + b) == ReadValue(num, wireType, text, a)
  {
    ReadVarintExtends(a, b);
    var v := ReadVarint(a);
    if text {
      assert (a + b)[v.size..v.size + v.value] == a[v.size..v.size + v.value];
    }
  }

  lemma ReadFieldExtends(m: Message, a: Bytes, b: Bytes)
    requires !ReadField(m, a).BadField?
    ensures ReadField(m, a + b) == ReadField(m, a)
  {
    ReadVarintExtends(a, b);
    var tag := ReadVarint(a);
    var num := ToInt32(tag.value / 8);
    assert (a + b)[tag.size..] == a[tag.size..] + b;
    if KindOf(m, num).Unknown? {
      SkipExtends(a, b, 0);
    } else {
      ReadValueExtends(num, tag.value % 8, KindOf(m, num).Text?, a[tag.size..], b);
    }
  }

  lemma ReadFieldSameKind(m1: Message, m2: Message, data: Bytes)
    requires SameKinds(m1, m2)
    ensures ReadField(m1, data) == ReadField(m2, data)
  {
  }

  /** A message decodes part by part: after a complete prefix, decoding goes on from its result. */
  lemma {:induction false} UnmarshalConcat(cc: CoinCodec, m: Message, a: Bytes, b: Bytes)
    requires Unmarshal(cc, m, a).Some?
    ensures Unmarshal(cc, m, a + b) == Unmarshal(cc, Unmarshal(cc, m, a).value, b)
    ensures SameKinds(m, Unmarshal(cc, m, a).value)
    decreases |a|
  {
    if a == [] {
      assert a + b == b;
    } else {
      var field := ReadField(m, a);
      ReadFieldExtends(m, a, b);
      assert (a + b)[field.size..] == a[field.size..] + b;
      if field.KnownField? {
        ApplyKeepsKinds(cc, m, field.token);
      }
      UnmarshalConcat(cc, ApplyField(cc, m, field).value, a[field.size..], b);
    }
  }

  /** One complete field that the message does not know, of any wire type, groups included. */
  predicate IsUnknownField(m: Message, u: Bytes) {
    ReadField(m, u) == UnknownField(|u|)
  }

  /** An unknown field between two known ones leaves the decoded message as it is. */
  lemma UnknownFieldIgnored(cc: CoinCodec, m: Message, pre: Bytes, u: Bytes, post: Bytes)
    requires Unmarshal(cc, m, pre).Some? && IsUnknownField(m, u)
    ensures Unmarshal(cc, m, pre + u + post) == Unmarshal(cc, m, pre + post)
  {
    UnmarshalConcat(cc, m, pre, u + post);
    UnmarshalConcat(cc, m, pre, post);
    assert pre + u + post == pre + (u + post);
    var mid := Unmarshal(cc, m, pre).value;
    ReadFieldSameKind(m, mid, u);
    ReadFieldExtends(mid, u, post);
    assert (u + post)[|u|..] == post;
  }

  // ---------- One field at a time ----------

  function TagOf(t: Token): uint64
    requires TokenOk(t)
  {
    if t.NumberToken? then t.num * 8 else t.num * 8 + 2
  }

  function Payload(t: Token): Bytes {
    match t
    case NumberToken(num, v) => VarintBytes(v)
    case TextToken(num, b) => VarintBytes(|b|) + b
  }

  lemma TagRead(t: Token, rest: Bytes)
    requires TokenOk(t)
    ensures TokenBytes(t) + rest == [TagOf(t)] + (Payload(t) + rest)
    ensures ReadVarint(TokenBytes(t) + rest) == Varint(TagOf(t), 1)
    ensures ToInt32(TagOf(t) / 8) == t.num && TagOf(t) % 8 == if t.NumberToken? then 0 else 2
  {
    assert TokenBytes(t) + rest == [TagOf(t)] + (Payload(t) + rest);
    assert VarintBytes(TagOf(t)) == [TagOf(t)];
    VarintRoundTrip(TagOf(t), Payload(t) + rest);
    SovExact(TagOf(t));
  }

  lemma PayloadRead(t: Token, rest: Bytes)
    requires TokenOk(t)
    ensures t.NumberToken? ==> ReadVarint(Payload(t) + rest) == Varint(t.value, |Payload(t)|)
    ensures t.TextToken? ==>
              var k := |VarintBytes(|t.bytes|)|;
              && ReadVarint(Payload(t) + rest) == Varint(|t.bytes|, k)
              && |Payload(t)| == k + |t.bytes|
              && (Payload(t) + rest)[k..k + |t.bytes|] == t.bytes
  {
    match t
    case NumberToken(num, v) =>
      VarintRoundTrip(v, rest);
      SovExact(v);
    case TextToken(num, b) =>
      assert Payload(t) + rest == VarintBytes(|b|) + (b + rest);
      VarintRoundTrip(|b|, b + rest);
      SovExact(|b|);
  }

  lemma ValueRoundTrip(t: Token, rest: Bytes)
    requires TokenOk(t)
    ensures ReadValue(t.num, if t.TextToken? then 2 else 0, t.TextToken?, Payload(t) + rest) == KnownField(t, |Payload(t)|)
  {
    PayloadRead(t, rest);
  }

  lemma TokenRoundTrip(m: Message, t: Token, rest: Bytes)
    requires TokenOk(t) && KindOf(m, t.num) == (if t.NumberToken? then Number else Text)
    ensures ReadField(m, TokenBytes(t) + rest) == KnownField(t, |TokenBytes(t)|)
  {
    TagRead(t, rest);
    ValueRoundTrip(t, rest);
    assert (TokenBytes(t) + rest)[1..] == Payload(t) + rest;
    assert |TokenBytes(t)| == 1 + |Payload(t)|;
  }

  // ---------- Round trip ----------

  /** The effect of a sequence of known fields. */
  function Fold(cc: CoinCodec, m: Message, ts: seq<Token>): Option<Message>
    decreases ts
  {
    if ts == [] then Some(m)
    else
      var m' := Apply(cc, m, ts[0]);
      if m'.None? then None else Fold(cc, m'.value, ts[1..])
  }

  predicate Known(m: Message, ts: seq<Token>) {
    forall i | 0 <= i < |ts| :: KindOf(m, ts[i].num) == (if ts[i].NumberToken? then Number else Text)
  }

  /** Decoding an encoded field sequence has the effect of its fields. */
  lemma {:induction false} DecodeEncoded(cc: CoinCodec, m: Message, ts: seq<Token>)
    requires TokensOk(ts) && Known(m, ts)
    ensures Unmarshal(cc, m, Encode(ts)) == Fold(cc, m, ts)
    decreases ts
  {
    if ts != [] {
      TokenRoundTrip(m, ts[0], Encode(ts[1..]));
      assert Encode(ts)[|TokenBytes(ts[0])|..] == Encode(ts[1..]);
      var applied := Apply(cc, m, ts[0]);
      if applied.Some? {
        ApplyKeepsKinds(cc, m, ts[0]);
        DecodeEncoded(cc, applied.value, ts[1..]);
      }
    }
  }

  function Zero(m: Message): Message {
    match m
    case ClaimMsg(_, _, _) => ClaimMsg([], [], [])
    case RefundMsg(_, _) => RefundMsg([], [])
    case SwapMsg(_) => SwapMsg(AtomicSwap([], [], 0, 0, [], [], [], [], 0, 0, false, 0))
  }

  lemma FoldText(cc: CoinCodec, m: Message, num: int, b: Bytes, rest: seq<Token>, m': Message)
    requires if b == [] then m' == m else Apply(cc, m, TextToken(num, b)) == Some(m')
    ensures Fold(cc, m, TextTokens(num, b) + rest) == Fold(cc, m', rest)
  {
    if b == [] {
      assert TextTokens(num, b) + rest == rest;
    } else {
      assert (TextTokens(num, b) + rest)[1..] == rest;
    }
  }

  lemma FoldNumber(cc: CoinCodec, m: Message, num: int, v: uint64, rest: seq<Token>, m': Message)
    requires if v == 0 then m' == m else Apply(cc, m, NumberToken(num, v)) == Some(m')
    ensures Fold(cc, m, NumberTokens(num, v) + rest) == Fold(cc, m', rest)
  {
    if v == 0 {
      assert NumberTokens(num, v) + rest == rest;
    } else {
      assert (NumberTokens(num, v) + rest)[1..] == rest;
    }
  }

  lemma {:induction false} FoldCoins(cc: CoinCodec, w: AtomicSwap, coins: seq<Coin>, rest: seq<Token>)
    requires CoinsInvertible(cc, coins)
    ensures Fold(cc, SwapMsg(w), CoinTokens(cc, coins) + rest) == Fold(cc, SwapMsg(w.(amount := w.amount + coins)), rest)
    decreases coins
  {
    if coins == [] {
      assert CoinTokens(cc, coins) + rest == rest && w.amount + coins == w.amount;
    } else {
      var ts := CoinTokens(cc, coins) + rest;
      assert ts[1..] == CoinTokens(cc, coins[1..]) + rest;
      FoldCoins(cc, w.(amount := w.amount + [coins[0]]), coins[1..], rest);
      assert w.amount + [coins[0]] + coins[1..] == w.amount + coins;
    }
  }

  lemma FoldLow(cc: CoinCodec, w: AtomicSwap, rest: seq<Token>)
    ensures Fold(cc, SwapMsg(AtomicSwap(w.amount, [], 0, 0, [], [], [], [], 0, 0, false, 0)), LowTokens(w, rest))
            == Fold(cc, SwapMsg(AtomicSwap(w.amount, w.randomNumberHash, w.expireTimestamp, w.timestamp, w.sender, w.recipient,
                                           [], [], 0, 0, false, 0)), rest)
  {
    var w1 := AtomicSwap(w.amount, [], 0, 0, [], [], [], [], 0, 0, false, 0);
    var w2 := w1.(randomNumberHash := w.randomNumberHash);
    var w3 := w2.(expireTimestamp := w.expireTimestamp);
    var w4 := w3.(timestamp := w.timestamp);
    var w5 := w4.(sender := w.sender);
    var w6 := w5.(recipient := w.recipient);
    var t6 := TextTokens(6, w.recipient) + rest;
    var t5 := TextTokens(5, w.sender) + t6;
    var t4 := NumberTokens(4, ToUint64(w.timestamp)) + t5;
    var t3 := NumberTokens(3, ToUint64(w.expireTimestamp)) + t4;
    FoldText(cc, SwapMsg(w1), 2, w.randomNumberHash, t3, SwapMsg(w2));
    FoldNumber(cc, SwapMsg(w2), 3, ToUint64(w.expireTimestamp), t4, SwapMsg(w3));
    FoldNumber(cc, SwapMsg(w3), 4, ToUint64(w.timestamp), t5, SwapMsg(w4));
    FoldText(cc, SwapMsg(w4), 5, w.sender, t6, SwapMsg(w5));
    FoldText(cc, SwapMsg(w5), 6, w.recipient, rest, SwapMsg(w6));
  }

  /** Fields 9 to 12 on top of a swap without them. */
  lemma FoldNumbers(cc: CoinCodec, w: AtomicSwap, start: AtomicSwap)
    requires start == w.(closedBlock := 0, status := 0, crossChain := false, direction := 0)
    ensures Fold(cc, SwapMsg(start), NumberTokens(9, ToUint64(w.closedBlock))
                                     + (NumberTokens(10, w.status)
                                        + (NumberTokens(11, if w.crossChain then 1 else 0)
                                           + (NumberTokens(12, w.direction) + [])))) == Some(SwapMsg(w))
  {
    var w9 := start.(closedBlock := w.closedBlock);
    var w10 := w9.(status := w.status);
    var w11 := w10.(crossChain := w.crossChain);
    var t12 := NumberTokens(12, w.direction) + [];
    var t11 := NumberTokens(11, if w.crossChain then 1 else 0) + t12;
    var t10 := NumberTokens(10, w.status) + t11;
    FoldNumber(cc, SwapMsg(start), 9, ToUint64(w.closedBlock), t10, SwapMsg(w9));
    FoldNumber(cc, SwapMsg(w9), 10, w.status, t11, SwapMsg(w10));
    FoldNumber(cc, SwapMsg(w10), 11, if w.crossChain then 1 else 0, t12, SwapMsg(w11));
    FoldNumber(cc, SwapMsg(w11), 12, w.direction, [], SwapMsg(w));
  }

  lemma FoldHigh(cc: CoinCodec, w: AtomicSwap)
    ensures Fold(cc, SwapMsg(w.(senderOtherChain := [], recipientOtherChain := [], closedBlock := 0, status := 0,
                                crossChain := false, direction := 0)), HighTokens(w))
            == Some(SwapMsg(w))
  {
    var w8 := w.(closedBlock := 0, status := 0, crossChain := false, direction := 0);
    var w7 := w8.(recipientOtherChain := []);
    var t9 := NumberTokens(9, ToUint64(w.closedBlock))
              + (NumberTokens(10, w.status) + (NumberTokens(11, if w.crossChain then 1 else 0) + (NumberTokens(12, w.direction) + [])));
    FoldText(cc, SwapMsg(w7.(senderOtherChain := [])), 7, w.senderOtherChain, TextTokens(8, w.recipientOtherChain) + t9, SwapMsg(w7));
    FoldText(cc, SwapMsg(w7), 8, w.recipientOtherChain, t9, SwapMsg(w8));
    FoldNumbers(cc, w, w8);
  }

  /** The fields of a swap rebuild the swap on top of a message that holds only its coins. */
  lemma FoldSwap(cc: CoinCodec, w: AtomicSwap)
    ensures Fold(cc, SwapMsg(AtomicSwap(w.amount, [], 0, 0, [], [], [], [], 0, 0, false, 0)), SwapTokens(w)) == Some(SwapMsg(w))
  {
    FoldLow(cc, w, HighTokens(w));
    FoldHigh(cc, w);
  }

  /** Byte strings have machine lengths. */
  ghost predicate Encodable(cc: CoinCodec, m: Message) {
    match m
    case ClaimMsg(a, b, d) => |a| < TWO63 && |b| < TWO63 && |d| < TWO63
    case RefundMsg(a, b) => |a| < TWO63 && |b| < TWO63
    case SwapMsg(w) => TextsFit(w) && CoinsFit(cc, w.amount)
  }

  predicate TextsFit(w: AtomicSwap) {
    && |w.randomNumberHash| < TWO63 && |w.sender| < TWO63 && |w.recipient| < TWO63
    && |w.senderOtherChain| < TWO63 && |w.recipientOtherChain| < TWO63
  }

  /** The coins of the message, if any, can be decoded again. */
  ghost predicate Invertible(cc: CoinCodec, m: Message) {
    m.SwapMsg? ==> CoinsInvertible(cc, m.swap.amount)
  }

  ghost predicate FieldsOk(m: Message, ts: seq<Token>) {
    forall t | t in ts :: TokenOk(t) && KindOf(m, t.num) == (if t.NumberToken? then Number else Text)
  }

  lemma {:induction false} CoinTokensOk(cc: CoinCodec, w: AtomicSwap, coins: seq<Coin>)
    requires CoinsFit(cc, coins)
    ensures FieldsOk(SwapMsg(w), CoinTokens(cc, coins))
  {
    if coins != [] {
      CoinTokensOk(cc, w, coins[1..]);
    }
  }

  lemma LowTokensOk(w: AtomicSwap, rest: seq<Token>)
    requires TextsFit(w) && FieldsOk(SwapMsg(w), rest)
    ensures FieldsOk(SwapMsg(w), LowTokens(w, rest))
  {
    var t6 := TextTokens(6, w.recipient) + rest;
    var t5 := TextTokens(5, w.sender) + t6;
    var t4 := NumberTokens(4, ToUint64(w.timestamp)) + t5;
    var t3 := NumberTokens(3, ToUint64(w.expireTimestamp)) + t4;
    assert FieldsOk(SwapMsg(w), t6) && FieldsOk(SwapMsg(w), t5);
    assert FieldsOk(SwapMsg(w), t4) && FieldsOk(SwapMsg(w), t3);
  }

  lemma HighTokensOk(w: AtomicSwap)
    requires TextsFit(w)
    ensures FieldsOk(SwapMsg(w), HighTokens(w))
  {
    var t12 := NumberTokens(12, w.direction) + [];
    var t11 := NumberTokens(11, if w.crossChain then 1 else 0) + t12;
    var t10 := NumberTokens(10, w.status) + t11;
    var t9 := NumberTokens(9, ToUint64(w.closedBlock)) + t10;
    var t8 := TextTokens(8, w.recipientOtherChain) + t9;
    assert FieldsOk(SwapMsg(w), t12) && FieldsOk(SwapMsg(w), t11);
    assert FieldsOk(SwapMsg(w), t10) && FieldsOk(SwapMsg(w), t9) && FieldsOk(SwapMsg(w), t8);
  }

  lemma TokensOfMessage(cc: CoinCodec, m: Message)
    requires Encodable(cc, m)
    ensures TokensOk(Tokens(cc, m)) && Known(Zero(m), Tokens(cc, m))
  {
    if m.SwapMsg? {
      CoinTokensOk(cc, m.swap, m.swap.amount);
      HighTokensOk(m.swap);
      LowTokensOk(m.swap, HighTokens(m.swap));
      var ts := Tokens(cc, m);
      forall i | 0 <= i < |ts| ensures TokenOk(ts[i]) && KindOf(Zero(m), ts[i].num) == if ts[i].NumberToken? then Number else Text {
        assert ts[i] in CoinTokens(cc, m.swap.amount) || ts[i] in SwapTokens(m.swap);
      }
    }
  }

  function MarshalBytes(cc: CoinCodec, m: Message): Bytes
    requires TokensOk(Tokens(cc, m))
  {
    Encode(Tokens(cc, m))
  }

  lemma FoldMessage(cc: CoinCodec, m: Message)
    requires Invertible(cc, m)
    ensures Fold(cc, Zero(m), Tokens(cc, m)) == Some(m)
  {
    match m
    case ClaimMsg(from, swapID, randomNumber) =>
      FoldText(cc, ClaimMsg([], [], []), 1, from, TextTokens(2, swapID) + TextTokens(3, randomNumber), ClaimMsg(from, [], []));
      FoldText(cc, ClaimMsg(from, [], []), 2, swapID, TextTokens(3, randomNumber), ClaimMsg(from, swapID, []));
      assert TextTokens(3, randomNumber) + [] == TextTokens(3, randomNumber);
      FoldText(cc, ClaimMsg(from, swapID, []), 3, randomNumber, [], m);
    case RefundMsg(from, swapID) =>
      FoldText(cc, RefundMsg([], []), 1, from, TextTokens(2, swapID), RefundMsg(from, []));
      assert TextTokens(2, swapID) + [] == TextTokens(2, swapID);
      FoldText(cc, RefundMsg(from, []), 2, swapID, [], m);
    case SwapMsg(w) =>
      FoldCoins(cc, Zero(m).swap, w.amount, SwapTokens(w));
      assert [] + w.amount == w.amount;
      FoldSwap(cc, w);
  }

  /** Round trip: decoding an encoded message gives the message back, whenever the coin codec decodes the
      message's own coins. */
  lemma CodecRoundTrip(cc: CoinCodec, m: Message)
    requires Encodable(cc, m) && Invertible(cc, m)
    ensures TokensOk(Tokens(cc, m))
    ensures Unmarshal(cc, Zero(m), MarshalBytes(cc, m)) == Some(m)
  {
    TokensOfMessage(cc, m);
    DecodeEncoded(cc, Zero(m), Tokens(cc, m));
    FoldMessage(cc, m);
  }

  // ---------- A coin codec ----------

  /** One codec that decodes every coin again: the amount as an unbounded varint, its sign in the lowest
      bit, followed by the denomination. */
  function AmountCode(amount: int): nat {
    if amount >= 0 then 2 * amount else -2 * amount - 1
  }

  function CodedAmount(code: nat): int {
    if code % 2 == 0 then code / 2 else -(code + 1) / 2
  }

  /** The unbounded number at the start of `data` and the bytes it took. */
  function ReadUnbounded(data: Bytes): (r: Option<(nat, nat)>)
    ensures r.Some? ==> 0 < r.value.1 <= |data|
  {
    if data == [] then None
    else if data[0] < 128 then Some((data[0] as nat, 1))
    else
      var rest := ReadUnbounded(data[1..]);
      if rest.None? then None else Some((data[0] - 128 + 128 * rest.value.0, 1 + rest.value.1))
  }

  lemma {:induction false} ReadUnboundedBack(v: nat, rest: Bytes)
    ensures ReadUnbounded(VarintBytes(v) + rest) == Some((v, |VarintBytes(v)|))
  {
    var data := VarintBytes(v) + rest;
    if v < 128 {
      assert data[0] == v;
    } else {
      assert data == [v % 128 + 128] + (VarintBytes(v / 128) + rest);
      assert data[1..] == VarintBytes(v / 128) + rest;
      ReadUnboundedBack(v / 128, rest);
    }
  }

  function EncodeCoin(coin: Coin): Bytes {
    VarintBytes(AmountCode(coin.amount)) + coin.denom
  }

  function DecodeCoin(data: Bytes): Option<Coin> {
    var code := ReadUnbounded(data);
    if code.None? then None else Some(Coin(data[code.value.1..], CodedAmount(code.value.0)))
  }

  lemma CoinRoundTrip(coin: Coin)
    ensures DecodeCoin(EncodeCoin(coin)) == Some(coin)
    ensures 0 <= coin.amount < TWO63 && |coin.denom| < TWO63 - 10 ==> |EncodeCoin(coin)| < TWO63
  {
    ReadUnboundedBack(AmountCode(coin.amount), coin.denom);
    var code := VarintBytes(AmountCode(coin.amount));
    assert (code + coin.denom)[|code|..] == coin.denom;
    if 0 <= coin.amount < TWO63 {
      VarintAtMostTen(AmountCode(coin.amount));
    }
  }

  /** What the round trip asks for can be met: with this codec every message is invertible, and a swap with
      ordinary coins and addresses is encodable. */
  lemma CodecExists()
    ensures var cc := CoinCodec(EncodeCoin, DecodeCoin);
            && (forall m :: Invertible(cc, m))
            && (forall coins: seq<Coin> ::
                  (forall coin | coin in coins :: 0 <= coin.amount < TWO63 && |coin.denom| < TWO63 - 10) ==> CoinsFit(cc, coins))
  {
    forall coin: Coin
      ensures DecodeCoin(EncodeCoin(coin)) == Some(coin)
      ensures 0 <= coin.amount < TWO63 && |coin.denom| < TWO63 - 10 ==> |EncodeCoin(coin)| < TWO63
    {
      CoinRoundTrip(coin);
    }
  }
}

/** The bytes on the wire, tag by tag: what other implementations of the format read and write. */
module WireFormat {
  import opened Wrappers
  import opened Bytes
  import opened Types
  import opened Varint
  import opened Wire

  // ---------- Whole messages ----------

  function TextField(tag: byte, b: Bytes): Bytes {
    [tag] + (VarintBytes(|b|) + b)
  }

  function NumberField(tag: byte, v: uint64): Bytes {
    [tag] + VarintBytes(v)
  }

  /** A length-delimited field, absent when empty. */
  function TextPart(tag: byte, b: Bytes): Bytes {
    if b == [] then [] else TextField(tag, b)
  }

  /** A number field, absent when zero. */
  function NumberPart(tag: byte, v: uint64): Bytes {
    if v == 0 then [] else NumberField(tag, v)
  }

  /** Coins are never absent, not even when their encoding is empty. */
  function CoinParts(cc: CoinCodec, coins: seq<Coin>): Bytes {
    if coins == [] then [] else TextField(0x0a, cc.encode(coins[0])) + CoinParts(cc, coins[1..])
  }

  lemma EncodeFirst(t: Token, rest: seq<Token>)
    requires TokenOk(t) && TokensOk(rest)
    ensures TokensOk([t] + rest) && Encode([t] + rest) == TokenBytes(t) + Encode(rest)
  {
    assert ([t] + rest)[1..] == rest;
  }

  lemma TextTokensBytes(num: int, tag: byte, b: Bytes, rest: seq<Token>)
    requires 1 <= num <= 15 && tag == num * 8 + 2 && |b| < TWO63 && TokensOk(rest)
    ensures TokensOk(TextTokens(num, b) + rest) && Encode(TextTokens(num, b) + rest) == TextPart(tag, b) + Encode(rest)
  {
    if b == [] {
      assert TextTokens(num, b) + rest == rest;
    } else {
      EncodeFirst(TextToken(num, b), rest);
    }
  }

  lemma NumberTokensBytes(num: int, tag: byte, v: uint64, rest: seq<Token>)
    requires 1 <= num <= 15 && tag == num * 8 && TokensOk(rest)
    ensures TokensOk(NumberTokens(num, v) + rest) && Encode(NumberTokens(num, v) + rest) == NumberPart(tag, v) + Encode(rest)
  {
    if v == 0 {
      assert NumberTokens(num, v) + rest == rest;
    } else {
      EncodeFirst(NumberToken(num, v), rest);
    }
  }

  lemma Associate(a: Bytes, b: Bytes, c: Bytes)
    ensures a + (b + c) == a + b + c
  {
  }

  lemma {:induction false} CoinTokensBytes(cc: CoinCodec, coins: seq<Coin>, rest: seq<Token>)
    requires CoinsFit(cc, coins) && TokensOk(rest)
    ensures TokensOk(CoinTokens(cc, coins) + rest)
    ensures Encode(CoinTokens(cc, coins) + rest) == CoinParts(cc, coins) + Encode(rest)
  {
    if coins == [] {
      assert CoinTokens(cc, coins) + rest == rest;
    } else {
      CoinTokensBytes(cc, coins[1..], rest);
      var t, others := TextToken(1, cc.encode(coins[0])), CoinTokens(cc, coins[1..]) + rest;
      EncodeFirst(t, others);
      assert CoinTokens(cc, coins) + rest == [t] + others;
      Associate(TextField(0x0a, cc.encode(coins[0])), CoinParts(cc, coins[1..]), Encode(rest));
    }
  }

  lemma ClaimBytes(cc: CoinCodec, from: Bytes, swapID: Bytes, randomNumber: Bytes)
    requires Encodable(cc, ClaimMsg(from, swapID, randomNumber))
    ensures TokensOk(Tokens(cc, ClaimMsg(from, swapID, randomNumber)))
    ensures MarshalBytes(cc, ClaimMsg(from, swapID, randomNumber))
            == TextPart(0x0a, from) + (TextPart(0x12, swapID) + (TextPart(0x1a, randomNumber) + []))
  {
    assert TextTokens(3, randomNumber) + [] == TextTokens(3, randomNumber);
    TextTokensBytes(3, 0x1a, randomNumber, []);
    TextTokensBytes(2, 0x12, swapID, TextTokens(3, randomNumber));
    TextTokensBytes(1, 0x0a, from, TextTokens(2, swapID) + TextTokens(3, randomNumber));
  }

  lemma RefundBytes(cc: CoinCodec, from: Bytes, swapID: Bytes)
    requires Encodable(cc, RefundMsg(from, swapID))
    ensures TokensOk(Tokens(cc, RefundMsg(from, swapID)))
    ensures MarshalBytes(cc, RefundMsg(from, swapID)) == TextPart(0x0a, from) + (TextPart(0x12, swapID) + [])
  {
    assert TextTokens(2, swapID) + [] == TextTokens(2, swapID);
    TextTokensBytes(2, 0x12, swapID, []);
    TextTokensBytes(1, 0x0a, from, TextTokens(2, swapID));
  }

  /** Fields 7 to 12 of a swap. */
  function HighBytes(w: AtomicSwap): Bytes {
    TextPart(0x3a, w.senderOtherChain)
    + (TextPart(0x42, w.recipientOtherChain)
       + (NumberPart(0x48, ToUint64(w.closedBlock))
          + (NumberPart(0x50, w.status)
             + (NumberPart(0x58, if w.crossChain then 1 else 0)
                + (NumberPart(0x60, w.direction) + [])))))
  }

  lemma HighTokensBytes(w: AtomicSwap)
    requires TextsFit(w)
    ensures TokensOk(HighTokens(w)) && Encode(HighTokens(w)) == HighBytes(w)
  {
    var t12 := NumberTokens(12, w.direction) + [];
    var t11 := NumberTokens(11, if w.crossChain then 1 else 0) + t12;
    var t10 := NumberTokens(10, w.status) + t11;
    var t9 := NumberTokens(9, ToUint64(w.closedBlock)) + t10;
    NumberTokensBytes(12, 0x60, w.direction, []);
    NumberTokensBytes(11, 0x58, if w.crossChain then 1 else 0, t12);
    NumberTokensBytes(10, 0x50, w.status, t11);
    NumberTokensBytes(9, 0x48, ToUint64(w.closedBlock), t10);
    TextTokensBytes(8, 0x42, w.recipientOtherChain, t9);
    TextTokensBytes(7, 0x3a, w.senderOtherChain, TextTokens(8, w.recipientOtherChain) + t9);
  }

  /** Fields 2 to 6 of a swap, in front of `rest`. */
  function LowBytes(w: AtomicSwap, rest: Bytes): Bytes {
    TextPart(0x12, w.randomNumberHash)
    + (NumberPart(0x18, ToUint64(w.expireTimestamp))
       + (NumberPart(0x20, ToUint64(w.timestamp))
          + (TextPart(0x2a, w.sender)
             + (TextPart(0x32, w.recipient) + rest))))
  }

  lemma LowTokensBytes(w: AtomicSwap, rest: seq<Token>)
    requires TextsFit(w) && TokensOk(rest)
    ensures TokensOk(LowTokens(w, rest)) && Encode(LowTokens(w, rest)) == LowBytes(w, Encode(rest))
  {
    var t6 := TextTokens(6, w.recipient) + rest;
    var t5 := TextTokens(5, w.sender) + t6;
    var t4 := NumberTokens(4, ToUint64(w.timestamp)) + t5;
    TextTokensBytes(6, 0x32, w.recipient, rest);
    TextTokensBytes(5, 0x2a, w.sender, t6);
    NumberTokensBytes(4, 0x20, ToUint64(w.timestamp), t5);
    NumberTokensBytes(3, 0x18, ToUint64(w.expireTimestamp), t4);
    TextTokensBytes(2, 0x12, w.randomNumberHash, NumberTokens(3, ToUint64(w.expireTimestamp)) + t4);
  }

  /** A swap on the wire, with the tag byte of every field. */
  lemma SwapBytes(cc: CoinCodec, w: AtomicSwap)
    requires Encodable(cc, SwapMsg(w))
    ensures TokensOk(Tokens(cc, SwapMsg(w)))
    ensures MarshalBytes(cc, SwapMsg(w)) == CoinParts(cc, w.amount) + LowBytes(w, HighBytes(w))
  {
    HighTokensBytes(w);
    LowTokensBytes(w, HighTokens(w));
    CoinTokensBytes(cc, w.amount, SwapTokens(w));
  }

  // ---------- One field read on top of a message ----------

  lemma OneToken(cc: CoinCodec, m: Message, t: Token)
    requires TokenOk(t) && KindOf(m, t.num) == (if t.NumberToken? then Number else Text)
    ensures Unmarshal(cc, m, TokenBytes(t)) == Apply(cc, m, t)
  {
    var data := TokenBytes(t);
    TokenRoundTrip(m, t, []);
    assert data + [] == data && |data| > 0;
    assert ReadField(m, data) == KnownField(t, |data|);
    assert data[|data|..] == [];
    assert Unmarshal(cc, m, data) == UnmarshalNext(cc, m, data);
    var applied := Apply(cc, m, t);
    if applied.Some? {
      assert Unmarshal(cc, applied.value, []) == applied;
    }
  }

  lemma TextRead(cc: CoinCodec, m: Message, num: int, tag: byte, b: Bytes, m': Option<Message>)
    requires 1 <= num <= 15 && tag == num * 8 + 2 && |b| < TWO63 && KindOf(m, num).Text?
    requires Apply(cc, m, TextToken(num, b)) == m'
    ensures Unmarshal(cc, m, TextField(tag, b)) == m'
  {
    OneToken(cc, m, TextToken(num, b));
  }

  lemma NumberRead(cc: CoinCodec, m: Message, num: int, tag: byte, v: uint64, m': Message)
    requires 1 <= num <= 15 && tag == num * 8 && KindOf(m, num).Number?
    requires Apply(cc, m, NumberToken(num, v)) == Some(m')
    ensures Unmarshal(cc, m, NumberField(tag, v)) == Some(m')
  {
    OneToken(cc, m, NumberToken(num, v));
  }

  /** Each text field of a claim or refund message sets its own part, an empty text included. */
  lemma ClaimFields(cc: CoinCodec, from: Bytes, id: Bytes, number: Bytes, b: Bytes)
    requires |b| < TWO63
    ensures Unmarshal(cc, ClaimMsg(from, id, number), TextField(0x0a, b)) == Some(ClaimMsg(b, id, number))
    ensures Unmarshal(cc, ClaimMsg(from, id, number), TextField(0x12, b)) == Some(ClaimMsg(from, b, number))
    ensures Unmarshal(cc, ClaimMsg(from, id, number), TextField(0x1a, b)) == Some(ClaimMsg(from, id, b))
    ensures Unmarshal(cc, RefundMsg(from, id), TextField(0x0a, b)) == Some(RefundMsg(b, id))
    ensures Unmarshal(cc, RefundMsg(from, id), TextField(0x12, b)) == Some(RefundMsg(from, b))
  {
    var m, r := ClaimMsg(from, id, number), RefundMsg(from, id);
    TextRead(cc, m, 1, 0x0a, b, Some(ClaimMsg(b, id, number)));
    TextRead(cc, m, 2, 0x12, b, Some(ClaimMsg(from, b, number)));
    TextRead(cc, m, 3, 0x1a, b, Some(ClaimMsg(from, id, b)));
    TextRead(cc, r, 1, 0x0a, b, Some(RefundMsg(b, id)));
    TextRead(cc, r, 2, 0x12, b, Some(RefundMsg(from, b)));
  }

  /** Each text field of a swap sets its own part; a coin is appended, or spoils the message. */
  lemma SwapTextFields(cc: CoinCodec, w: AtomicSwap, b: Bytes)
    requires |b| < TWO63
    ensures Unmarshal(cc, SwapMsg(w), TextField(0x0a, b))
            == if cc.decode(b).None? then None else Some(SwapMsg(w.(amount := w.amount + [cc.decode(b).value])))
    ensures Unmarshal(cc, SwapMsg(w), TextField(0x12, b)) == Some(SwapMsg(w.(randomNumberHash := b)))
    ensures Unmarshal(cc, SwapMsg(w), TextField(0x2a, b)) == Some(SwapMsg(w.(sender := b)))
    ensures Unmarshal(cc, SwapMsg(w), TextField(0x32, b)) == Some(SwapMsg(w.(recipient := b)))
    ensures Unmarshal(cc, SwapMsg(w), TextField(0x3a, b)) == Some(SwapMsg(w.(senderOtherChain := b)))
    ensures Unmarshal(cc, SwapMsg(w), TextField(0x42, b)) == Some(SwapMsg(w.(recipientOtherChain := b)))
  {
    TextRead(cc, SwapMsg(w), 1, 0x0a, b,
             if cc.decode(b).None? then None else Some(SwapMsg(w.(amount := w.amount + [cc.decode(b).value]))));
    TextRead(cc, SwapMsg(w), 2, 0x12, b, Some(SwapMsg(w.(randomNumberHash := b))));
    TextRead(cc, SwapMsg(w), 5, 0x2a, b, Some(SwapMsg(w.(sender := b))));
    TextRead(cc, SwapMsg(w), 6, 0x32, b, Some(SwapMsg(w.(recipient := b))));
    TextRead(cc, SwapMsg(w), 7, 0x3a, b, Some(SwapMsg(w.(senderOtherChain := b))));
    TextRead(cc, SwapMsg(w), 8, 0x42, b, Some(SwapMsg(w.(recipientOtherChain := b))));
  }

  /** Two's complement. */
  function Signed(v: uint64): (r: int64)
    ensures r == Wrap64(v)
  {
    if v < 0x8000_0000_0000_0000 then v else v - 0x1_0000_0000_0000_0000
  }

  /** Each number field of a swap sets its own part, whatever 64 bits it carries: two's complement for
      times and heights, the low byte for status and direction, non-zero for the flag. */
  lemma SwapNumberFields(cc: CoinCodec, w: AtomicSwap, v: uint64)
    ensures var signed := Signed(v);
            && Unmarshal(cc, SwapMsg(w), NumberField(0x18, v)) == Some(SwapMsg(w.(expireTimestamp := signed)))
            && Unmarshal(cc, SwapMsg(w), NumberField(0x20, v)) == Some(SwapMsg(w.(timestamp := signed)))
            && Unmarshal(cc, SwapMsg(w), NumberField(0x48, v)) == Some(SwapMsg(w.(closedBlock := signed)))
    ensures Unmarshal(cc, SwapMsg(w), NumberField(0x50, v)) == Some(SwapMsg(w.(status := v % 256)))
    ensures Unmarshal(cc, SwapMsg(w), NumberField(0x58, v)) == Some(SwapMsg(w.(crossChain := v != 0)))
    ensures Unmarshal(cc, SwapMsg(w), NumberField(0x60, v)) == Some(SwapMsg(w.(direction := v % 256)))
  {
    var signed: int64 := Signed(v);
    NumberRead(cc, SwapMsg(w), 3, 0x18, v, SwapMsg(w.(expireTimestamp := signed)));
    NumberRead(cc, SwapMsg(w), 4, 0x20, v, SwapMsg(w.(timestamp := signed)));
    NumberRead(cc, SwapMsg(w), 9, 0x48, v, SwapMsg(w.(closedBlock := signed)));
    NumberRead(cc, SwapMsg(w), 10, 0x50, v, SwapMsg(w.(status := v % 256)));
    NumberRead(cc, SwapMsg(w), 11, 0x58, v, SwapMsg(w.(crossChain := v != 0)));
    NumberRead(cc, SwapMsg(w), 12, 0x60, v, SwapMsg(w.(direction := v % 256)));
  }

  // ---------- Malformed fields ----------

  lemma FieldBehindTag(m: Message, tag: byte, rest: Bytes)
    requires tag < 128
    ensures ReadField(m, [tag] + rest) == ReadTagged(m, [tag] + rest, tag, 1) && ([tag] + rest)[1..] == rest
  {
    VarintRoundTrip(tag, rest);
    assert VarintBytes(tag) == [tag];
    SovExact(tag);
  }

  lemma BadFirstField(cc: CoinCodec, m: Message, data: Bytes)
    requires data != [] && ReadField(m, data).BadField?
    ensures Unmarshal(cc, m, data) == None
  {
    assert Unmarshal(cc, m, data) == UnmarshalNext(cc, m, data);
  }

  /** A field that the message has must come with its own wire type: 2 for text, 0 for numbers. */
  lemma WrongWireType(cc: CoinCodec, m: Message, num: int, wireType: int, rest: Bytes)
    requires 1 <= num <= 15 && 0 <= wireType < 8
    requires match m
             case ClaimMsg(_, _, _) => num <= 3 && wireType != 2
             case RefundMsg(_, _) => num <= 2 && wireType != 2
             case SwapMsg(_) => num <= 12 && wireType != if num == 3 || num == 4 || num >= 9 then 0 else 2
    ensures Unmarshal(cc, m, [num * 8 + wireType] + rest) == None
  {
    FieldBehindTag(m, num * 8 + wireType, rest);
    WrongTypeRead(m, [num * 8 + wireType] + rest, num, wireType);
    BadFirstField(cc, m, [num * 8 + wireType] + rest);
  }

  lemma WrongTypeRead(m: Message, data: Bytes, num: int, wireType: int)
    requires 1 <= num <= 15 && 0 <= wireType < 8 && |data| >= 1
    requires !KindOf(m, num).Unknown? && wireType != if KindOf(m, num).Text? then 2 else 0
    ensures ReadTagged(m, data, num * 8 + wireType, 1) == BadField
  {
    assert (num * 8 + wireType) / 8 == num && (num * 8 + wireType) % 8 == wireType;
  }

  /** Field number zero and a stray end tag are refused. */
  lemma IllegalTag(cc: CoinCodec, m: Message, tag: byte, rest: Bytes)
    requires tag < 128 && (tag < 8 || tag % 8 == 4)
    ensures Unmarshal(cc, m, [tag] + rest) == None
  {
    FieldBehindTag(m, tag, rest);
    BadFirstField(cc, m, [tag] + rest);
  }

  lemma TruncatedRead(m: Message, data: Bytes, num: int, rest: Bytes)
    requires 1 <= num <= 15 && KindOf(m, num).Text? && |data| >= 1 && data[1..] == rest
    requires ReadVarint(rest).Malformed? || ReadVarint(rest).value > |rest| - ReadVarint(rest).size || ReadVarint(rest).value >= TWO63
    ensures ReadTagged(m, data, num * 8 + 2, 1) == BadField
  {
    assert (num * 8 + 2) / 8 == num && (num * 8 + 2) % 8 == 2;
  }

  /** A text longer than the data that is left is refused, as is a length that does not fit a signed integer. */
  lemma TruncatedText(cc: CoinCodec, m: Message, num: int, rest: Bytes)
    requires 1 <= num <= 15 && KindOf(m, num).Text?
    requires ReadVarint(rest).Malformed? || ReadVarint(rest).value > |rest| - ReadVarint(rest).size || ReadVarint(rest).value >= TWO63
    ensures Unmarshal(cc, m, [num * 8 + 2] + rest) == None
  {
    FieldBehindTag(m, num * 8 + 2, rest);
    TruncatedRead(m, [num * 8 + 2] + rest, num, rest);
    BadFirstField(cc, m, [num * 8 + 2] + rest);
  }
}

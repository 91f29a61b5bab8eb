/** What the decoder passes over: a grammar of unknown fields that does not mention the skip loop. */
module UnknownFields {
  import opened Wrappers
  import opened Bytes
  import opened Types
  import opened Varint
  import opened Wire

  // ---------- The grammar ----------

  /** A value with its tag: one piece of payload, or a group of values closed by its own end tag. */
  datatype Value = Plain(tag: Bytes, payload: Bytes) | Group(tag: Bytes, values: seq<Value>, endTag: Bytes)

  /** The bytes are one number, in as many bytes as its writer liked. */
  predicate IsVarint(b: Bytes) {
    ReadVarint(b).Varint? && ReadVarint(b).size == |b|
  }

  /** The bytes are a tag of this wire type. */
  predicate IsTag(b: Bytes, wireType: int) {
    IsVarint(b) && ReadVarint(b).value % 8 == wireType
  }

  /** A payload that a wire type other than a group delimits exactly. */
  predicate PlainPayload(wireType: int, payload: Bytes) {
    match wireType
    case 0 => IsVarint(payload)
    case 1 => |payload| == 8
    case 2 =>
      var length := ReadVarint(payload);
      length.Varint? && length.value < TWO63 && length.size + length.value == |payload|
    case 5 => |payload| == 4
    case _ => false
  }

  predicate WellFormed(v: Value) {
    match v
    case Plain(tag, payload) => IsVarint(tag) && PlainPayload(ReadVarint(tag).value % 8, payload)
    case Group(tag, values, endTag) => IsTag(tag, 3) && IsTag(endTag, 4) && forall i | 0 <= i < |values| :: WellFormed(values[i])
  }

  predicate AllWellFormed(values: seq<Value>) {
    forall i | 0 <= i < |values| :: WellFormed(values[i])
  }

  function EncodeValue(v: Value): Bytes
    decreases v, 0
  {
    match v
    case Plain(tag, payload) => tag + payload
    case Group(tag, values, endTag) => tag + (EncodeValues(values) + endTag)
  }

  function EncodeValues(values: seq<Value>): Bytes
    decreases values, 0
  {
    if values == [] then [] else EncodeValue(values[0]) + EncodeValues(values[1..])
  }

  // ---------- Skipping an encoded value ----------

  /** The skip has passed `n` bytes in front of `rest`, inside `depth` groups. */
  function Passed(n: nat, rest: Bytes, depth: nat): Option<nat> {
    if depth == 0 then Some(n)
    else
      var more := SkipFrom(rest, depth);
      if more.None? then None else Some(n + more.value)
  }

  lemma SkipOnPassed(data: Bytes, n: nat, rest: Bytes, depth: nat)
    requires 0 < n <= |data| && data[n..] == rest
    ensures SkipOn(data, n, depth) == Passed(n, rest, depth)
  {
  }

  lemma TagFront(tag: Bytes, rest: Bytes)
    requires IsVarint(tag)
    ensures ReadVarint(tag + rest) == ReadVarint(tag) && |tag| > 0 && (tag + rest)[|tag|..] == rest
  {
    ReadVarintExtends(tag, rest);
  }

  lemma PlainTurn(data: Bytes, wire: uint64, n: nat, payload: Bytes, rest: Bytes, depth: nat)
    requires 0 < n <= |data| && data[n..] == payload + rest && PlainPayload(wire % 8, payload)
    ensures SkipValue(data, wire, n, depth) == Turn(n + |payload|, depth)
  {
    if wire % 8 == 0 || wire % 8 == 2 {
      ReadVarintExtends(payload, rest);
    }
  }

  lemma SkipPlain(tag: Bytes, payload: Bytes, rest: Bytes, depth: nat)
    requires WellFormed(Plain(tag, payload))
    ensures SkipFrom(tag + payload + rest, depth) == Passed(|tag + payload|, rest, depth)
  {
    var data := tag + (payload + rest);
    assert tag + payload + rest == data;
    TagFront(tag, payload + rest);
    PlainTurn(data, ReadVarint(tag).value, |tag|, payload, rest, depth);
    assert SkipTagged(data, ReadVarint(tag).value, |tag|, depth) == SkipOn(data, |tag| + |payload|, depth);
    assert data[|tag + payload|..] == rest;
    SkipOnPassed(data, |tag + payload|, rest, depth);
  }

  /** A start tag opens one level. */
  lemma SkipStart(tag: Bytes, rest: Bytes, depth: nat)
    requires IsTag(tag, 3)
    ensures SkipFrom(tag + rest, depth) == Passed(|tag|, rest, depth + 1)
  {
    var data := tag + rest;
    TagFront(tag, rest);
    assert SkipTagged(data, ReadVarint(tag).value, |tag|, depth) == SkipOn(data, |tag|, depth + 1);
    SkipOnPassed(data, |tag|, rest, depth + 1);
  }

  /** An end tag closes one level, and only one. */
  lemma SkipEnd(tag: Bytes, rest: Bytes, depth: nat)
    requires IsTag(tag, 4) && depth > 0
    ensures SkipFrom(tag + rest, depth) == Passed(|tag|, rest, depth - 1)
  {
    var data := tag + rest;
    TagFront(tag, rest);
    assert SkipTagged(data, ReadVarint(tag).value, |tag|, depth) == SkipOn(data, |tag|, depth - 1);
    SkipOnPassed(data, |tag|, rest, depth - 1);
  }

  /** Skipping an encoded value passes over exactly its bytes, at every depth and whatever follows. */
  lemma {:induction false} SkipsValue(v: Value, rest: Bytes, depth: nat)
    requires WellFormed(v)
    ensures SkipFrom(EncodeValue(v) + rest, depth) == Passed(|EncodeValue(v)|, rest, depth)
    decreases v, 0
  {
    match v
    case Plain(tag, payload) =>
      SkipPlain(tag, payload, rest, depth);
    case Group(tag, values, endTag) =>
      var inner := EncodeValues(values);
      Associate(inner, endTag, rest);
      Associate(tag, inner + endTag, rest);
      SkipStart(tag, inner + (endTag + rest), depth);
      SkipsValues(values, endTag + rest, depth + 1);
      SkipEnd(endTag, rest, depth + 1);
  }

  lemma {:induction false} SkipsValues(values: seq<Value>, rest: Bytes, depth: nat)
    requires AllWellFormed(values) && depth > 0
    ensures SkipFrom(EncodeValues(values) + rest, depth) == Passed(|EncodeValues(values)|, rest, depth)
    decreases values, 0
  {
    if values == [] {
      assert EncodeValues(values) + rest == rest;
    } else {
      var first, others := EncodeValue(values[0]), EncodeValues(values[1..]);
      assert EncodeValues(values) + rest == first + (others + rest);
      SkipsValue(values[0], others + rest, depth);
      SkipsValues(values[1..], rest, depth);
    }
  }

  // ---------- Whatever is skipped is an encoded value ----------

  /** The values of one open group and the tag that closes it. */
  datatype Level = Level(values: seq<Value>, endTag: Bytes)

  predicate LevelOk(l: Level) {
    AllWellFormed(l.values) && IsTag(l.endTag, 4)
  }

  predicate LevelsOk(levels: seq<Level>) {
    forall i | 0 <= i < |levels| :: LevelOk(levels[i])
  }

  function EncodeLevel(l: Level): Bytes {
    EncodeValues(l.values) + l.endTag
  }

  function EncodeLevels(levels: seq<Level>): Bytes {
    if levels == [] then [] else EncodeLevel(levels[0]) + EncodeLevels(levels[1..])
  }

  /** One more value in front of the innermost level. */
  function Prepend(v: Value, levels: seq<Level>): seq<Level>
    requires levels != []
  {
    [Level([v] + levels[0].values, levels[0].endTag)] + levels[1..]
  }

  lemma Associate(a: Bytes, b: Bytes, c: Bytes)
    ensures a + (b + c) == a + b + c
  {
  }

  lemma PrependEncodes(v: Value, levels: seq<Level>)
    requires levels != [] && WellFormed(v) && LevelsOk(levels)
    ensures LevelsOk(Prepend(v, levels)) && EncodeLevels(Prepend(v, levels)) == EncodeValue(v) + EncodeLevels(levels)
  {
    var l := levels[0];
    assert ([v] + l.values)[1..] == l.values;
    assert Prepend(v, levels)[1..] == levels[1..];
    assert AllWellFormed([v] + l.values);
    Associate(EncodeValue(v), EncodeValues(l.values), l.endTag);
    Associate(EncodeValue(v), EncodeLevel(l), EncodeLevels(levels[1..]));
  }

  lemma PushEncodes(l: Level, levels: seq<Level>)
    requires LevelOk(l) && LevelsOk(levels)
    ensures LevelsOk([l] + levels) && EncodeLevels([l] + levels) == EncodeLevel(l) + EncodeLevels(levels)
  {
    assert ([l] + levels)[1..] == levels;
  }

  /** The first turn of a skip that ends within the data, and the bytes it took. */
  lemma FirstTurn(data: Bytes, depth: nat) returns (tag: Bytes, turn: Turn)
    requires SkipFrom(data, depth).Some? && SkipFrom(data, depth).value <= |data|
    ensures IsVarint(tag) && tag <= data && SkipValue(data, ReadVarint(tag).value, |tag|, depth) == turn && turn.Turn?
    ensures |tag| <= turn.passed <= SkipFrom(data, depth).value
    ensures SkipFrom(data, depth) == SkipOn(data, turn.passed, turn.inner)
  {
    var read := ReadVarint(data);
    tag := data[..read.size];
    ReadVarintPrefix(data);
    turn := SkipValue(data, read.value, read.size, depth);
    assert SkipFrom(data, depth) == SkipTagged(data, read.value, read.size, depth);
  }

  /** The bytes of a number alone are that number. */
  lemma ReadVarintPrefix(data: Bytes)
    requires ReadVarint(data).Varint?
    ensures IsVarint(data[..ReadVarint(data).size]) && ReadVarint(data[..ReadVarint(data).size]) == ReadVarint(data)
  {
    ReadFromPrefix(data, 0, 0);
  }

  lemma {:induction false} ReadFromPrefix(data: Bytes, k: nat, acc: nat)
    requires ReadFrom(data, k, acc).Varint?
    ensures ReadFrom(data[..ReadFrom(data, k, acc).size - k], k, acc) == ReadFrom(data, k, acc)
  {
    if data[0] >= 128 {
      var acc' := Cut64(acc + ShiftLeft(data[0] % 128, k));
      ReadFromPrefix(data[1..], k + 1, acc');
      var n := ReadFrom(data, k, acc).size - k;
      assert data[..n][1..] == data[1..][..n - 1];
    }
  }

  lemma PlainBehindTag(data: Bytes, tag: Bytes, turn: Turn, depth: nat)
    requires IsVarint(tag) && tag <= data && SkipValue(data, ReadVarint(tag).value, |tag|, depth) == turn && turn.Turn?
    requires turn.passed <= |data| && ReadVarint(tag).value % 8 != 3 && ReadVarint(tag).value % 8 != 4
    ensures turn.inner == depth && WellFormed(Plain(tag, data[|tag|..turn.passed]))
  {
    var kind, left, payload := ReadVarint(tag).value % 8, data[|tag|..], data[|tag|..turn.passed];
    assert payload == left[..turn.passed - |tag|];
    if kind == 0 {
      ReadVarintPrefix(left);
    } else if kind == 2 {
      var n := ReadVarint(left).size;
      ReadVarintPrefix(left);
      assert payload == left[..n] + payload[n..];
      ReadVarintExtends(left[..n], payload[n..]);
    }
  }

  /** One turn in front of the levels that are open behind it. */
  lemma Grow(data: Bytes, tag: Bytes, turn: Turn, depth: nat, inner: seq<Level>) returns (levels: seq<Level>)
    requires IsVarint(tag) && tag <= data && SkipValue(data, ReadVarint(tag).value, |tag|, depth) == turn && turn.Turn?
    requires depth > 0 && turn.passed <= |data| && |inner| == turn.inner && LevelsOk(inner)
    ensures |levels| == depth && LevelsOk(levels) && EncodeLevels(levels) == data[..turn.passed] + EncodeLevels(inner)
  {
    var kind := ReadVarint(tag).value % 8;
    if kind == 4 {
      assert data[..turn.passed] == tag;
      levels := [Level([], tag)] + inner;
      PushEncodes(Level([], tag), inner);
      assert [] + tag == tag;
    } else if kind == 3 {
      assert data[..turn.passed] == tag;
      levels := Nested(tag, inner);
    } else {
      PlainBehindTag(data, tag, turn, depth);
      var v := Plain(tag, data[|tag|..turn.passed]);
      assert EncodeValue(v) == data[..turn.passed];
      levels := Prepend(v, inner);
      PrependEncodes(v, inner);
    }
  }

  /** Bytes that a skip passes over from inside `depth` groups are the rest of those groups. */
  lemma {:induction false} SkippedLevels(data: Bytes, depth: nat, n: nat) returns (levels: seq<Level>)
    requires depth > 0 && SkipFrom(data, depth) == Some(n) && n <= |data|
    ensures |levels| == depth && LevelsOk(levels) && EncodeLevels(levels) == data[..n]
    decreases |data|
  {
    var tag, turn := FirstTurn(data, depth);
    if turn.inner == 0 {
      levels := Grow(data, tag, turn, depth, []);
      assert data[..n] + [] == data[..n];
    } else {
      var inner := SkippedLevels(data[turn.passed..], turn.inner, n - turn.passed);
      levels := Grow(data, tag, turn, depth, inner);
      assert data[..n] == data[..turn.passed] + data[turn.passed..][..n - turn.passed];
    }
  }

  /** A start tag turns the innermost level into one value of the next. */
  lemma Nested(tag: Bytes, inner: seq<Level>) returns (levels: seq<Level>)
    requires IsTag(tag, 3) && |inner| >= 2 && LevelsOk(inner)
    ensures |levels| == |inner| - 1 && LevelsOk(levels) && EncodeLevels(levels) == tag + EncodeLevels(inner)
  {
    var group := Group(tag, inner[0].values, inner[0].endTag);
    assert WellFormed(group);
    levels := Prepend(group, inner[1..]);
    PrependEncodes(group, inner[1..]);
    assert EncodeLevels(inner) == EncodeLevel(inner[0]) + EncodeLevels(inner[1..]);
    assert tag + (EncodeLevel(inner[0]) + EncodeLevels(inner[1..])) == tag + EncodeLevel(inner[0]) + EncodeLevels(inner[1..]);
  }

  /** The payload of a group: the encoding of a list of values, followed by an end tag. */
  ghost predicate GroupPayload(payload: Bytes) {
    exists values: seq<Value>, endTag: Bytes :: AllWellFormed(values) && IsTag(endTag, 4) && payload == EncodeValues(values) + endTag
  }

  lemma GroupOfSkip(payload: Bytes)
    requires SkipFrom(payload, 1) == Some(|payload|)
    ensures GroupPayload(payload)
  {
    var levels := SkippedLevels(payload, 1, |payload|);
    var l := levels[0];
    OneLevel(l, levels);
    assert payload[..|payload|] == payload;
  }

  lemma OneLevel(l: Level, levels: seq<Level>)
    requires levels == [l]
    ensures EncodeLevels(levels) == EncodeValues(l.values) + l.endTag
  {
    assert levels[1..] == [];
  }

  lemma SkipOfGroup(values: seq<Value>, endTag: Bytes)
    requires AllWellFormed(values) && IsTag(endTag, 4)
    ensures SkipFrom(EncodeValues(values) + endTag, 1) == Some(|EncodeValues(values) + endTag|)
  {
    SkipsValues(values, endTag, 1);
    SkipEnd(endTag, [], 1);
    assert endTag + [] == endTag;
  }

  /** A skip inside one group ends with the data exactly when the data is the payload of a group. */
  lemma GroupExact(payload: Bytes)
    ensures SkipFrom(payload, 1) == Some(|payload|) <==> GroupPayload(payload)
  {
    if SkipFrom(payload, 1) == Some(|payload|) {
      GroupOfSkip(payload);
    }
    if GroupPayload(payload) {
      var values: seq<Value>, endTag: Bytes :| AllWellFormed(values) && IsTag(endTag, 4) && payload == EncodeValues(values) + endTag;
      SkipOfGroup(values, endTag);
    }
  }

  // ---------- Unknown fields of a message ----------

  /** A payload that the wire type delimits exactly. */
  ghost predicate CompletePayload(wireType: int, payload: Bytes) {
    if wireType == 3 then GroupPayload(payload) else PlainPayload(wireType, payload)
  }

  /** A skip ends with the data exactly when the payload is complete. */
  lemma SkipTaggedExact(data: Bytes, wire: uint64, n: nat, payload: Bytes)
    requires 0 < n <= |data| && data[n..] == payload && wire % 8 != 4
    ensures SkipTagged(data, wire, n, 0) == Some(|data|) <==> CompletePayload(wire % 8, payload)
  {
    if wire % 8 == 3 {
      GroupExact(payload);
      assert SkipTagged(data, wire, n, 0) == SkipOn(data, n, 1);
      SkipOnPassed(data, n, payload, 1);
    }
  }

  lemma UnknownFieldBehindTag(m: Message, data: Bytes, wire: uint64, n: nat, payload: Bytes)
    requires ReadVarint(data) == Varint(wire, n) && data[n..] == payload
    requires ToInt32(wire / 8) > 0 && KindOf(m, ToInt32(wire / 8)).Unknown?
    ensures IsUnknownField(m, data) <==> CompletePayload(wire % 8, payload)
  {
    if wire % 8 != 4 {
      SkipTaggedExact(data, wire, n, payload);
    }
  }

  /** The numbers that a message does not have. */
  predicate UnknownNumber(m: Message, num: int) {
    match m
    case ClaimMsg(_, _, _) => num > 3
    case RefundMsg(_, _) => num > 2
    case SwapMsg(_) => num > 12
  }

  /** Any field number up to 2^31 - 1 that the message does not have, with any wire type: tag and payload
      are an unknown field exactly when the wire type delimits the payload. */
  lemma UnknownFieldExact(m: Message, num: int, wireType: int, payload: Bytes)
    requires 1 <= num < 0x8000_0000 && UnknownNumber(m, num) && 0 <= wireType < 8
    ensures IsUnknownField(m, VarintBytes(num * 8 + wireType) + payload) <==> CompletePayload(wireType, payload)
  {
    var tag := num * 8 + wireType;
    VarintRoundTrip(tag, payload);
    SovExact(tag);
    TagParts(num, wireType);
    UnknownFieldBehindTag(m, VarintBytes(tag) + payload, tag, Sov(tag), payload);
  }

  lemma TagParts(num: int, wireType: int)
    requires 1 <= num < 0x8000_0000 && 0 <= wireType < 8
    ensures ToInt32((num * 8 + wireType) / 8) == num && (num * 8 + wireType) % 8 == wireType
  {
  }
}

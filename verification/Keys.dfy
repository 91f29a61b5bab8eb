/** Sortable index keys and the range scans over them. */
module Keys {
  import opened Wrappers
  import opened Bytes
  import opened Types

  /** Completed swaps are kept for this many blocks. */
  const LONGTERM_STORAGE_DURATION: int := 7 * 24 * 60 * 60

  const HEIGHT_WIDTH: nat := 8

  function HeightKey(height: uint64): (r: Bytes)
    ensures |r| == 8
  {
    BigEndian(height, HEIGHT_WIDTH)
  }

  function ByHeightKey(height: uint64, id: SwapID): Bytes {
    HeightKey(height) + id
  }

  /** Fixed-width, order-preserving encoding of a Unix timestamp. */
  function TimestampRank(timestamp: int64): uint64 {
    timestamp + TWO63
  }

  function ByTimestampKey(timestamp: int64, id: SwapID): Bytes {
    ByHeightKey(TimestampRank(timestamp), id)
  }

  /** The height at which a completed swap is deleted, in 64-bit unsigned arithmetic. */
  function DeletionHeight(closedBlock: int64): uint64 {
    (ToUint64(closedBlock) + LONGTERM_STORAGE_DURATION) % TWO64
  }

  /** The unsigned addition gives the plain sum exactly for closed blocks from -604800 on, so for every
      block height. */
  lemma DeletionHeightExact(closedBlock: int64)
    ensures DeletionHeight(closedBlock) == closedBlock + 604800 <==> closedBlock >= -604800
  {
  }

  lemma Pow256Of8()
    ensures Pow256(8) == TWO64
  {
    assert Pow256(4) == 256 * 256 * 256 * 256;
    assert Pow256(6) == 256 * 256 * Pow256(4);
  }

  /** Keys of different entries differ, whichever part differs. */
  lemma ByHeightKeyInjective(h1: uint64, id1: SwapID, h2: uint64, id2: SwapID)
    ensures ByHeightKey(h1, id1) == ByHeightKey(h2, id2) <==> h1 == h2 && id1 == id2
  {
    Pow256Of8();
    BigEndianOrder(h1, h2, 8);
    assert ByHeightKey(h1, id1)[..8] == HeightKey(h1) && ByHeightKey(h1, id1)[8..] == id1;
    assert ByHeightKey(h2, id2)[..8] == HeightKey(h2) && ByHeightKey(h2, id2)[8..] == id2;
  }

  /** Byte order of the keys is the order of heights first and identifiers second. */
  lemma ByHeightKeyOrder(h1: uint64, id1: SwapID, h2: uint64, id2: SwapID)
    ensures Less(ByHeightKey(h1, id1), ByHeightKey(h2, id2)) <==> h1 < h2 || (h1 == h2 && Less(id1, id2))
  {
    Pow256Of8();
    BigEndianOrder(h1, h2, 8);
    LessByPrefix(HeightKey(h1), HeightKey(h2), id1, id2);
  }

  /** The range that ends at PrefixEnd(HeightKey(cutoff)) holds exactly the keys up to and including
      `cutoff`, also for the largest cutoff, whose prefix has no end. */
  lemma CutoffBound(height: uint64, id: SwapID, cutoff: uint64)
    ensures Before(ByHeightKey(height, id), PrefixEnd(HeightKey(cutoff))) <==> height <= cutoff
  {
    Pow256Of8();
    var k, p := ByHeightKey(height, id), HeightKey(cutoff);
    PrefixEndBound(p, k);
    BigEndianOrder(height, cutoff, 8);
    LessByPrefix(HeightKey(height), p, id, []);
    assert p + [] == p;
    assert k[..8] == HeightKey(height);
    assert p <= k <==> k[..8] == p;
  }

  // ---------- Range scans ----------

  /** The values an iterator from the start of the store up to `end` yields, in key order. */
  function Scan(index: map<Bytes, SwapID>, end: Option<Bytes>): (r: seq<SwapID>)
    ensures |r| == |ScannedKeys(index, end)|
  {
    var keys := ScannedKeys(index, end);
    seq(|keys|, i requires 0 <= i < |keys| => index[keys[i]])
  }

  /** A scan yields the values of the keys in its range and no others. */
  lemma ScanValues(index: map<Bytes, SwapID>, end: Option<Bytes>, id: SwapID)
    ensures id in Scan(index, end) <==> exists k :: k in index && Before(k, end) && index[k] == id
  {
    var keys, ids := ScannedKeys(index, end), Scan(index, end);
    if id in ids {
      var i :| 0 <= i < |ids| && ids[i] == id;
      assert keys[i] in keys;
    }
    if k :| k in index && Before(k, end) && index[k] == id {
      assert k in keys;
      var i :| 0 <= i < |keys| && keys[i] == k;
      assert ids[i] == id;
    }
  }

  /** Under an injective index a scan yields no identifier twice. */
  lemma ScanDistinct(index: map<Bytes, SwapID>, end: Option<Bytes>)
    requires forall k1, k2 | k1 in index && k2 in index && index[k1] == index[k2] :: k1 == k2
    ensures forall i, j | 0 <= i < j < |Scan(index, end)| :: Scan(index, end)[i] != Scan(index, end)[j]
  {
    var keys, ids := ScannedKeys(index, end), Scan(index, end);
    forall i, j | 0 <= i < j < |ids| ensures ids[i] != ids[j] {
      assert keys[i] in keys && keys[j] in keys;
      assert Less(keys[i], keys[j]);
      LessAsymmetric(keys[i], keys[j]);
    }
  }

  function ScannedKeys(index: map<Bytes, SwapID>, end: Option<Bytes>): (r: seq<Bytes>)
    ensures forall k :: k in r <==> k in index && Before(k, end)
    ensures forall i | 0 <= i < |r| :: r[i] in index
    ensures forall i, j | 0 <= i < j < |r| :: Less(r[i], r[j])
  {
    var r := Sorted(set k | k in index && Before(k, end));
    assert forall i | 0 <= i < |r| :: r[i] in r;
    r
  }

  /** Every key is a height followed by the identifier stored under it. */
  ghost predicate WellKeyed(index: map<Bytes, SwapID>) {
    forall k | k in index :: |k| >= 8 && k == ByHeightKey(HeightOf(k), index[k])
  }

  function HeightOf(k: Bytes): uint64 {
    if |k| < 8 then 0 else FromBigEndian(k[..8]) % TWO64
  }

  lemma HeightOfKey(height: uint64, id: SwapID)
    ensures HeightOf(ByHeightKey(height, id)) == height
  {
    Pow256Of8();
    BigEndianRoundTrip(height, 8);
    assert ByHeightKey(height, id)[..8] == HeightKey(height);
  }

  /** A scan up to a cutoff visits exactly the entries with a height at most the cutoff. */
  lemma ScanMembership(index: map<Bytes, SwapID>, cutoff: uint64, h: uint64, id: SwapID)
    ensures ByHeightKey(h, id) in ScannedKeys(index, PrefixEnd(HeightKey(cutoff)))
            <==> ByHeightKey(h, id) in index && h <= cutoff
  {
    CutoffBound(h, id, cutoff);
  }

  /** It visits each of them once. */
  lemma ScanCount(index: map<Bytes, SwapID>, cutoff: uint64)
    requires WellKeyed(index)
    ensures |ScannedKeys(index, PrefixEnd(HeightKey(cutoff)))| == |set k | k in index && HeightOf(k) <= cutoff|
  {
    var end := PrefixEnd(HeightKey(cutoff));
    forall k | k in index
      ensures Before(k, end) <==> HeightOf(k) <= cutoff
    {
      CutoffBound(HeightOf(k), index[k], cutoff);
    }
    assert (set k | k in index && Before(k, end)) == (set k | k in index && HeightOf(k) <= cutoff);
  }

  /** It visits them by increasing height and, at one height, by increasing identifier. */
  lemma ScanOrder(index: map<Bytes, SwapID>, end: Option<Bytes>, i: nat, j: nat)
    requires WellKeyed(index) && i < j < |ScannedKeys(index, end)|
    ensures var k1, k2 := ScannedKeys(index, end)[i], ScannedKeys(index, end)[j];
            HeightOf(k1) < HeightOf(k2) || (HeightOf(k1) == HeightOf(k2) && Less(index[k1], index[k2]))
  {
    var k1, k2 := ScannedKeys(index, end)[i], ScannedKeys(index, end)[j];
    ByHeightKeyOrder(HeightOf(k1), index[k1], HeightOf(k2), index[k2]);
  }

  /** Inserting under a key of the same form keeps the index well keyed; so does deleting. */
  lemma WellKeyedInsert(index: map<Bytes, SwapID>, h: uint64, id: SwapID)
    requires WellKeyed(index)
    ensures WellKeyed(index[ByHeightKey(h, id) := id])
  {
    HeightOfKey(h, id);
  }
}

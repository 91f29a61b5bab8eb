/** Hash preimages: what a claim secret and a swap identifier commit to. */
module Hashes {
  import opened Bytes
  import opened Types

  const RANDOM_NUMBER_LENGTH: nat := 32
  const RANDOM_NUMBER_HASH_LENGTH: nat := 32
  const ADDR_BYTE_COUNT: nat := 20
  const INT64_SIZE: nat := 8

  /** What `copy` leaves in a zeroed 32-byte buffer: longer numbers are cut, shorter ones zero-filled. */
  function Fit(number: Bytes): (r: Bytes)
    ensures |r| == RANDOM_NUMBER_LENGTH
    ensures |number| == RANDOM_NUMBER_LENGTH ==> r == number
  {
    if |number| >= RANDOM_NUMBER_LENGTH then number[..RANDOM_NUMBER_LENGTH]
    else number + seq(RANDOM_NUMBER_LENGTH - |number|, _ => 0)
  }

  function RandomPreimage(number: Bytes, timestamp: int64): Bytes {
    Fit(number) + BigEndian(ToUint64(timestamp), INT64_SIZE)
  }

  /** The 40 bytes that are hashed: the number in the first 32, cut or filled with zeros, and the timestamp
      in the last eight, as a big-endian two's-complement number. */
  lemma RandomPreimageLayout(number: Bytes, timestamp: int64)
    ensures |RandomPreimage(number, timestamp)| == 40
    ensures forall k | 0 <= k < 32 :: RandomPreimage(number, timestamp)[k] == if k < |number| then number[k] else 0
    ensures RandomPreimage(number, timestamp)[32..]
            == BigEndian(if timestamp < 0 then timestamp + 0x1_0000_0000_0000_0000 else timestamp, 8)
    ensures |number| == 32 ==> RandomPreimage(number, timestamp) == number + BigEndian(ToUint64(timestamp), 8)
  {
  }

  function RandomHash(hash: Bytes -> Bytes, number: Bytes, timestamp: int64): Bytes {
    hash(RandomPreimage(number, timestamp))
  }

  /** copy: the bytes of `number` that fit into the first `room` bytes of `data`. */
  method CopyInto(data: array<byte>, room: nat, number: Bytes)
    requires room <= data.Length
    modifies data
    ensures data[room..] == old(data[room..])
    ensures forall k | 0 <= k < room :: data[k] == if k < |number| then number[k] else old(data[k])
  {
    var i := 0;
    while i < room && i < |number|
      invariant 0 <= i <= room && i <= |number|
      invariant forall k | 0 <= k < i :: data[k] == number[k]
      invariant forall k | i <= k < data.Length :: data[k] == old(data[k])
    {
      data[i] := number[i];
      i := i + 1;
    }
  }

  /** PutUint64 on the bytes from `start` on, last byte first. */
  method PutUint64(data: array<byte>, start: nat, v: uint64)
    requires start + INT64_SIZE == data.Length
    modifies data
    ensures data[..start] == old(data[..start]) && data[start..] == BigEndian(v, INT64_SIZE)
  {
    var p, left: nat := data.Length, v;
    while p > start
      invariant start <= p <= data.Length
      invariant data[..start] == old(data[..start])
      invariant BigEndian(v, INT64_SIZE) == BigEndian(left, p - start) + data[p..]
    {
      p := p - 1;
      ghost var written := data[p + 1..];
      data[p] := left % 256;
      assert data[p..] == [left % 256] + written;
      left := left / 256;
    }
  }

  /** The buffer is filled in place: the number first, then the big-endian timestamp. */
  method CalculateRandomHash(hash: Bytes -> Bytes, number: Bytes, timestamp: int64) returns (r: Bytes)
    ensures r == RandomHash(hash, number, timestamp)
    ensures |number| == 32 ==> r == hash(number + BigEndian(ToUint64(timestamp), 8))
    ensures exists data ::
              && r == hash(data) && |data| == 40
              && (forall k | 0 <= k < 32 :: data[k] == if k < |number| then number[k] else 0)
              && data[32..] == BigEndian(ToUint64(timestamp), 8)
  {
    var data := new byte[RANDOM_NUMBER_LENGTH + INT64_SIZE](_ => 0);
    CopyInto(data, RANDOM_NUMBER_LENGTH, number);
    assert data[..RANDOM_NUMBER_LENGTH] == Fit(number);
    PutUint64(data, RANDOM_NUMBER_LENGTH, ToUint64(timestamp));
    assert data[..] == data[..RANDOM_NUMBER_LENGTH] + data[RANDOM_NUMBER_LENGTH..];
    r := hash(data[..]);
    RandomPreimageLayout(number, timestamp);
    assert data[..] == RandomPreimage(number, timestamp);
  }

  function LowerByte(b: byte): byte {
    if 65 <= b <= 90 then b + 32 else b
  }

  /** strings.ToLower on ASCII text. */
  function ToLower(s: Bytes): Bytes {
    seq(|s|, i requires 0 <= i < |s| => LowerByte(s[i]))
  }

  /** The same letter of the ASCII alphabet, in whichever case, or the same byte. */
  predicate SameLetter(a: byte, b: byte) {
    a == b || (65 <= a <= 90 && b == a + 32) || (65 <= b <= 90 && a == b + 32)
  }

  /** Lower-casing identifies exactly the texts that agree letter by letter, and leaves a text without
      upper-case letters as it is. */
  lemma ToLowerExact(s: Bytes, t: Bytes)
    ensures ToLower(s) == ToLower(t) <==> |s| == |t| && forall i | 0 <= i < |s| :: SameLetter(s[i], t[i])
    ensures (forall i | 0 <= i < |s| :: !(65 <= s[i] <= 90)) ==> ToLower(s) == s
  {
    if ToLower(s) == ToLower(t) {
      assert |ToLower(s)| == |s| && |ToLower(t)| == |t|;
      forall i | 0 <= i < |s| ensures SameLetter(s[i], t[i]) {
        assert ToLower(s)[i] == LowerByte(s[i]) && ToLower(t)[i] == LowerByte(t[i]);
      }
    }
  }

  function IDPreimage(randomNumberHash: Bytes, sender: Address, senderOtherChain: Bytes): Bytes {
    randomNumberHash + sender + ToLower(senderOtherChain)
  }

  function CalculateSwapID(hash: Bytes -> Bytes, randomNumberHash: Bytes, sender: Address, senderOtherChain: Bytes): SwapID {
    hash(IDPreimage(randomNumberHash, sender, senderOtherChain))
  }

  /** An identifier hashes the random number hash, the sender and the other-chain address, in this order,
      the letters A to Z of the address replaced by a to z. */
  lemma SwapIDLayout(hash: Bytes -> Bytes, randomNumberHash: Bytes, sender: Address, senderOtherChain: Bytes)
    ensures exists lower: Bytes ::
              && CalculateSwapID(hash, randomNumberHash, sender, senderOtherChain) == hash(randomNumberHash + sender + lower)
              && |lower| == |senderOtherChain|
              && forall i | 0 <= i < |lower| ::
                   lower[i] == if 65 <= senderOtherChain[i] <= 90 then senderOtherChain[i] + 32 else senderOtherChain[i]
  {
    var lower := ToLower(senderOtherChain);
    assert forall i | 0 <= i < |lower| :: lower[i] == LowerByte(senderOtherChain[i]);
  }

  function GetSwapID(hash: Bytes -> Bytes, swap: AtomicSwap): SwapID {
    CalculateSwapID(hash, swap.randomNumberHash, swap.sender, swap.senderOtherChain)
  }

  // ---------- Binding ----------

  ghost predicate Collision(hash: Bytes -> Bytes, x: Bytes, y: Bytes) {
    x != y && hash(x) == hash(y)
  }

  /** Two numbers and timestamps share a preimage exactly when they agree after fitting to 32 bytes. */
  lemma RandomPreimageInjective(n1: Bytes, t1: int64, n2: Bytes, t2: int64)
    ensures RandomPreimage(n1, t1) == RandomPreimage(n2, t2) <==> Fit(n1) == Fit(n2) && t1 == t2
  {
    var p1, p2 := RandomPreimage(n1, t1), RandomPreimage(n2, t2);
    assert p1[..RANDOM_NUMBER_LENGTH] == Fit(n1) && p2[..RANDOM_NUMBER_LENGTH] == Fit(n2);
    assert p1[RANDOM_NUMBER_LENGTH..] == BigEndian(ToUint64(t1), INT64_SIZE);
    assert p2[RANDOM_NUMBER_LENGTH..] == BigEndian(ToUint64(t2), INT64_SIZE);
    assert Pow256(8) == TWO64 by {
      assert Pow256(4) == 256 * 256 * 256 * 256;
      assert Pow256(6) == 256 * 256 * Pow256(4);
    }
    BigEndianOrder(ToUint64(t1), ToUint64(t2), INT64_SIZE);
  }

  /** Swaps that differ in hash, sender or lower-cased other-chain address have different
      identifiers, or their preimages are a collision of the hash. */
  lemma SwapIDBinding(hash: Bytes -> Bytes, h1: Bytes, s1: Address, o1: Bytes, h2: Bytes, s2: Address, o2: Bytes)
    requires |h1| == |h2| == RANDOM_NUMBER_HASH_LENGTH && |s1| == |s2| == ADDR_BYTE_COUNT
    ensures CalculateSwapID(hash, h1, s1, o1) == CalculateSwapID(hash, h2, s2, o2)
            <==> (h1 == h2 && s1 == s2 && ToLower(o1) == ToLower(o2))
                 || Collision(hash, IDPreimage(h1, s1, o1), IDPreimage(h2, s2, o2))
  {
    var p1, p2 := IDPreimage(h1, s1, o1), IDPreimage(h2, s2, o2);
    assert p1[..32] == h1 && p1[32..52] == s1 && p1[52..] == ToLower(o1);
    assert p2[..32] == h2 && p2[32..52] == s2 && p2[52..] == ToLower(o2);
  }

  /** Only the case of ASCII letters of the other-chain address is not bound by the identifier. */
  lemma SwapIDIgnoresCase(hash: Bytes -> Bytes, h: Bytes, s: Address, o: Bytes)
    ensures CalculateSwapID(hash, h, s, o) == CalculateSwapID(hash, h, s, ToLower(o))
  {
    assert ToLower(ToLower(o)) == ToLower(o);
  }

  /** The check a claim makes: the identifier recreated from the submitted number is the swap's own. */
  predicate SecretUnlocks(hash: Bytes -> Bytes, swap: AtomicSwap, number: Bytes) {
    CalculateSwapID(hash, RandomHash(hash, number, swap.timestamp), swap.sender, swap.senderOtherChain)
    == GetSwapID(hash, swap)
  }

  /** The check passes exactly when the number and the stored timestamp hash to the stored hash,
      unless the two identifier preimages collide. */
  lemma SecretCheckExact(hash: Bytes -> Bytes, swap: AtomicSwap, number: Bytes)
    ensures SecretUnlocks(hash, swap, number)
            <==> RandomHash(hash, number, swap.timestamp) == swap.randomNumberHash
                 || Collision(hash,
                              IDPreimage(RandomHash(hash, number, swap.timestamp), swap.sender, swap.senderOtherChain),
                              IDPreimage(swap.randomNumberHash, swap.sender, swap.senderOtherChain))
  {
    var h := RandomHash(hash, number, swap.timestamp);
    var suffix := swap.sender + ToLower(swap.senderOtherChain);
    var p, q := IDPreimage(h, swap.sender, swap.senderOtherChain), IDPreimage(swap.randomNumberHash, swap.sender, swap.senderOtherChain);
    assert p == h + suffix && q == swap.randomNumberHash + suffix;
    if p == q {
      assert |h| == |swap.randomNumberHash|;
      assert p[..|h|] == h && q[..|h|] == swap.randomNumberHash;
    }
  }

  /** When the swap commits to `secret`, only `secret` opens it, short of an explicit hash collision. */
  lemma OnlyTheSecretUnlocks(hash: Bytes -> Bytes, swap: AtomicSwap, secret: Bytes, number: Bytes)
    requires |secret| == |number| == RANDOM_NUMBER_LENGTH
    requires swap.randomNumberHash == RandomHash(hash, secret, swap.timestamp)
    ensures SecretUnlocks(hash, swap, secret)
    ensures SecretUnlocks(hash, swap, number) && number != secret ==>
              || Collision(hash, RandomPreimage(number, swap.timestamp), RandomPreimage(secret, swap.timestamp))
              || Collision(hash,
                           IDPreimage(RandomHash(hash, number, swap.timestamp), swap.sender, swap.senderOtherChain),
                           IDPreimage(swap.randomNumberHash, swap.sender, swap.senderOtherChain))
  {
    SecretCheckExact(hash, swap, secret);
    SecretCheckExact(hash, swap, number);
    RandomPreimageInjective(number, swap.timestamp, secret, swap.timestamp);
  }
}

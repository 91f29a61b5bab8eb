/** Byte strings, their lexicographic order and the big-endian integer layout.
    The key-value store iterates its keys in this order. */
module Bytes {
  import opened Wrappers

  type byte = x: int | 0 <= x < 256
  type Bytes = seq<byte>

  // ---------- Lexicographic order ----------

  predicate Less(a: Bytes, b: Bytes) {
    if b == [] then false
    else if a == [] then true
    else a[0] < b[0] || (a[0] == b[0] && Less(a[1..], b[1..]))
  }

  predicate AtMost(a: Bytes, b: Bytes) {
    a == b || Less(a, b)
  }

  lemma {:induction false} LessTotal(a: Bytes, b: Bytes)
    ensures a == b || Less(a, b) || Less(b, a)
  {
    if a != [] && b != [] && a[0] == b[0] {
      LessTotal(a[1..], b[1..]);
      assert a == [a[0]] + a[1..] && b == [b[0]] + b[1..];
    }
  }

  lemma {:induction false} LessAsymmetric(a: Bytes, b: Bytes)
    requires Less(a, b)
    ensures a != b && !Less(b, a)
  {
    if a != [] && a[0] == b[0] {
      LessAsymmetric(a[1..], b[1..]);
    }
  }

  lemma {:induction false} LessTransitive(a: Bytes, b: Bytes, c: Bytes)
    requires Less(a, b) && Less(b, c)
    ensures Less(a, c)
  {
    if a != [] && a[0] == b[0] == c[0] {
      LessTransitive(a[1..], b[1..], c[1..]);
    }
  }

  /** A common prefix does not take part in the comparison. */
  lemma {:induction false} LessCommonPrefix(p: Bytes, a: Bytes, b: Bytes)
    ensures Less(p + a, p + b) <==> Less(a, b)
  {
    if p == [] {
      assert p + a == a && p + b == b;
    } else {
      LessCommonPrefix(p[1..], a, b);
      assert (p + a)[1..] == p[1..] + a && (p + b)[1..] == p[1..] + b;
    }
  }

  /** Prefixes of one length decide the comparison as soon as they differ. */
  lemma {:induction false} LessByPrefix(p: Bytes, q: Bytes, a: Bytes, b: Bytes)
    requires |p| == |q|
    ensures Less(p + a, q + b) <==> Less(p, q) || (p == q && Less(a, b))
  {
    if p == [] {
      assert p + a == a && q + b == b;
    } else {
      LessByPrefix(p[1..], q[1..], a, b);
      assert (p + a)[1..] == p[1..] + a && (q + b)[1..] == q[1..] + b;
      assert p == [p[0]] + p[1..] && q == [q[0]] + q[1..];
    }
  }

  // ---------- Sorted enumeration of a set of keys ----------

  lemma {:induction false} LeastExists(s: set<Bytes>)
    requires s != {}
    ensures exists k :: k in s && forall j | j in s :: AtMost(k, j)
  {
    var k :| k in s;
    var rest := s - {k};
    if rest == {} {
      assert s == {k};
    } else {
      LeastExists(rest);
      var r :| r in rest && forall j | j in rest :: AtMost(r, j);
      LessTotal(k, r);
      var least := if Less(r, k) then r else k;
      forall j | j in s ensures AtMost(least, j) {
        if j != k && least == k && r != j {
          assert j in rest;
          LessTransitive(k, r, j);
        }
      }
    }
  }

  lemma LeastUnique(s: set<Bytes>)
    ensures forall k, l :: k in s && l in s && (forall j | j in s :: AtMost(k, j)) && (forall j | j in s :: AtMost(l, j)) ==> k == l
  {
    forall k, l | k in s && l in s && (forall j | j in s :: AtMost(k, j)) && (forall j | j in s :: AtMost(l, j))
      ensures k == l
    {
      if k != l {
        assert AtMost(k, l) && AtMost(l, k);
        LessAsymmetric(k, l);
      }
    }
  }

  function Least(s: set<Bytes>): (k: Bytes)
    requires s != {}
    ensures k in s && forall j | j in s :: AtMost(k, j)
  {
    LeastExists(s);
    LeastUnique(s);
    var k :| k in s && forall j | j in s :: AtMost(k, j);
    k
  }

  /** The keys of a store in the order its iterator visits them. */
  function Sorted(s: set<Bytes>): (r: seq<Bytes>)
    ensures forall k :: k in r <==> k in s
    ensures |r| == |s|
    ensures forall i, j | 0 <= i < j < |r| :: Less(r[i], r[j])
  {
    if s == {} then []
    else
      var k := Least(s);
      var rest := Sorted(s - {k});
      assert forall j | 0 <= j < |rest| :: rest[j] in rest;
      [k] + rest
  }

  // ---------- End of a prefix range ----------

  /** The SDK's PrefixEndBytes: the first key after every key that starts with `p`, None when there is none. */
  function PrefixEnd(p: Bytes): Option<Bytes> {
    if p == [] then None
    else if p[|p| - 1] != 255 then Some(p[..|p| - 1] + [p[|p| - 1] + 1])
    else PrefixEnd(p[..|p| - 1])
  }

  /** An iterator with an absent end is unbounded. */
  predicate Before(k: Bytes, end: Option<Bytes>) {
    end.None? || Less(k, end.value)
  }

  lemma {:induction false} LessSuccessor(p: Bytes, x: byte, k: Bytes)
    requires x < 255
    ensures Less(k, p + [x + 1]) <==> Less(k, p + [x]) || p + [x] <= k
  {
    if p == [] {
      assert p + [x] == [x] && p + [x + 1] == [x + 1];
      if k != [] && k[0] == x {
        assert k == [x] + k[1..];
      }
    } else {
      assert (p + [x])[1..] == p[1..] + [x] && (p + [x + 1])[1..] == p[1..] + [x + 1];
      if k != [] {
        LessSuccessor(p[1..], x, k[1..]);
        assert k[0] == p[0] ==> (p + [x] <= k <==> p[1..] + [x] <= k[1..]) by {
          assert p + [x] == [p[0]] + (p[1..] + [x]);
          assert k == [k[0]] + k[1..];
        }
      }
    }
  }

  lemma {:induction false} LessMaximal(p: Bytes, k: Bytes)
    ensures Less(k, p) || p <= k <==> Less(k, p + [255]) || p + [255] <= k
  {
    if p == [] {
      assert p + [255] == [255];
      if k != [] && k[0] == 255 {
        assert k == [255] + k[1..];
      }
    } else {
      assert (p + [255])[1..] == p[1..] + [255];
      if k != [] {
        LessMaximal(p[1..], k[1..]);
        assert k[0] == p[0] ==> (p + [255] <= k <==> p[1..] + [255] <= k[1..]) && (p <= k <==> p[1..] <= k[1..]) by {
          assert p + [255] == [p[0]] + (p[1..] + [255]);
          assert k == [k[0]] + k[1..] && p == [p[0]] + p[1..];
        }
      }
    }
  }

  /** A scan that stops at PrefixEnd(p) passes exactly the keys below `p` and the keys that extend it. */
  lemma {:induction false} PrefixEndBound(p: Bytes, k: Bytes)
    ensures Before(k, PrefixEnd(p)) <==> Less(k, p) || p <= k
  {
    if p != [] {
      var init, last := p[..|p| - 1], p[|p| - 1];
      assert p == init + [last];
      if last != 255 {
        LessSuccessor(init, last, k);
      } else {
        PrefixEndBound(init, k);
        LessMaximal(init, k);
      }
    }
  }

  // ---------- Big-endian integers ----------

  function Pow256(w: nat): (r: nat)
    ensures r > 0
  {
    if w == 0 then 1 else 256 * Pow256(w - 1)
  }

  function BigEndian(n: nat, w: nat): (r: Bytes)
    ensures |r| == w
  {
    if w == 0 then [] else BigEndian(n / 256, w - 1) + [n % 256]
  }

  function FromBigEndian(b: Bytes): nat {
    if b == [] then 0 else 256 * FromBigEndian(b[..|b| - 1]) + b[|b| - 1]
  }

  lemma {:induction false} BigEndianRoundTrip(n: nat, w: nat)
    requires n < Pow256(w)
    ensures FromBigEndian(BigEndian(n, w)) == n
  {
    if w > 0 {
      BigEndianRoundTrip(n / 256, w - 1);
      assert BigEndian(n, w)[..w - 1] == BigEndian(n / 256, w - 1);
    }
  }

  /** Fixed-width big-endian encoding carries integer order over to byte order. */
  lemma {:induction false} BigEndianOrder(a: nat, b: nat, w: nat)
    requires a < Pow256(w) && b < Pow256(w)
    ensures Less(BigEndian(a, w), BigEndian(b, w)) <==> a < b
    ensures BigEndian(a, w) == BigEndian(b, w) <==> a == b
  {
    if w > 0 {
      BigEndianOrder(a / 256, b / 256, w - 1);
      LessByPrefix(BigEndian(a / 256, w - 1), BigEndian(b / 256, w - 1), [a % 256], [b % 256]);
      BigEndianRoundTrip(a, w);
      BigEndianRoundTrip(b, w);
      assert Less([a % 256], [b % 256]) <==> a % 256 < b % 256;
    }
  }
}

/** Prefix queries over etcd's byte-ordered key space. */
module PrefixRange {
  import opened Text
  import opened Keys

  /** etcd's key order. */
  predicate LexLt(a: Bytes, b: Bytes) {
    b != [] && (a == [] || a[0] < b[0] || (a[0] == b[0] && LexLt(a[1..], b[1..])))
  }

  predicate LexLe(a: Bytes, b: Bytes) {
    !LexLt(b, a)
  }

  /** etcd's reading of `key` and `range_end`: the end `{0}` leaves the range open above. */
  predicate InRange(k: Bytes, key: Bytes, end: Bytes) {
    LexLe(key, k) && (end == [0] || LexLt(k, end))
  }

  /** The prefix with its last byte below 0xff incremented and the rest cut off. */
  function RangeEnd(p: Bytes): Bytes {
    if p == [] then [0]
    else if p[|p| - 1] < 0xff then p[..|p| - 1] + [p[|p| - 1] + 1]
    else RangeEnd(p[..|p| - 1])
  }

  method PrefixRangeEnd(prefix: Bytes) returns (r: Bytes)
    ensures r == RangeEnd(prefix)
  {
    var end := new Byte[|prefix|](i requires 0 <= i < |prefix| => prefix[i]);
    assert end[..] == prefix == prefix[..|prefix|];
    var i := |prefix| - 1;
    while i >= 0
      invariant -1 <= i < |prefix|
      invariant end[..] == prefix
      invariant RangeEnd(prefix) == RangeEnd(prefix[..i + 1])
    {
      assert prefix[..i + 1][..i] == prefix[..i];
      if end[i] < 0xff {
        end[i] := end[i] + 1;
        return end[..i + 1];
      }
      i := i - 1;
    }
    return [0];
  }

  // ---- Lexicographic order ------------------------------------------------

  lemma {:induction false} LexCancel(q: Bytes, a: Bytes, b: Bytes)
    ensures LexLt(q + a, q + b) <==> LexLt(a, b)
  {
    if q == [] {
      assert q + a == a && q + b == b;
    } else {
      assert (q + a)[1..] == q[1..] + a && (q + b)[1..] == q[1..] + b;
      LexCancel(q[1..], a, b);
    }
  }

  lemma {:induction false} LexPrefix(q: Bytes, x: Bytes, k: Bytes)
    requires LexLe(q + x, k)
    ensures LexLe(q, k)
  {
    if q != [] && k != [] {
      assert (q + x)[1..] == q[1..] + x;
      if k[0] == q[0] {
        LexPrefix(q[1..], x, k[1..]);
      }
    }
  }

  /** A key between two extensions of `q` extends `q`. */
  lemma {:induction false} Sandwich(q: Bytes, x: Bytes, y: Bytes, k: Bytes)
    requires LexLe(q + x, k) && LexLt(k, q + y)
    ensures q <= k
  {
    if q != [] {
      assert (q + x)[1..] == q[1..] + x && (q + y)[1..] == q[1..] + y;
      assert k != [];
      assert k[0] == q[0];
      Sandwich(q[1..], x, y, k[1..]);
    }
  }

  lemma {:induction false} LexRefl(p: Bytes)
    ensures LexLe(p, p)
  {
    if p != [] {
      LexRefl(p[1..]);
    }
  }

  lemma {:induction false} PrefixBelow(p: Bytes, k: Bytes)
    requires p <= k
    ensures LexLe(p, k)
  {
    assert k == p + k[|p|..] && p == p + [];
    LexCancel(p, k[|p|..], []);
  }

  // ---- Exactness ----------------------------------------------------------

  lemma {:induction false} RangeEndNotSentinel(p: Bytes)
    ensures RangeEnd(p) == [0] <==> forall i | 0 <= i < |p| :: p[i] == 0xff
  {
    if p != [] {
      if p[|p| - 1] < 0xff {
        var e := RangeEnd(p);
        assert e[|p| - 1] == p[|p| - 1] + 1 >= 1;
      } else {
        RangeEndNotSentinel(p[..|p| - 1]);
        assert forall i | 0 <= i < |p| - 1 :: p[..|p| - 1][i] == p[i];
      }
    }
  }

  /** The watch range selects exactly the keys that start with the prefix. */
  lemma {:induction false} PrefixRangeExact(p: Bytes, k: Bytes)
    ensures HasPrefix(k, p) <==> InRange(k, p, RangeEnd(p))
  {
    if p == [] {
    } else {
      var q, c := p[..|p| - 1], p[|p| - 1];
      assert p == q + [c];
      RangeEndNotSentinel(p);
      if HasPrefix(k, p) {
        PrefixBelow(p, k);
      }
      if c < 0xff {
        var e := q + [c + 1];
        if HasPrefix(k, p) {
          assert k == q + k[|q|..] && k[|q|] == c;
          LexCancel(q, k[|q|..], [c + 1]);
        } else if LexLe(p, k) && LexLt(k, e) {
          Sandwich(q, [c], [c + 1], k);
          NotBetween(q, c, k);
        }
      } else {
        PrefixRangeExact(q, k);
        if InRange(k, p, RangeEnd(p)) {
          LexPrefix(q, [c], k);
          var t := k[|q|..];
          assert k == q + t;
          LexCancel(q, t, [c]);
          assert t != [] && t[0] == 0xff;
          assert k[|q|] == c;
        }
      }
    }
  }

  lemma {:induction false} NotBetween(q: Bytes, c: Byte, k: Bytes)
    requires c < 0xff && q <= k
    requires LexLe(q + [c], k) && LexLt(k, q + [c + 1])
    ensures q + [c] <= k
  {
    var t := k[|q|..];
    assert k == q + t;
    LexCancel(q, t, [c]);
    LexCancel(q, t, [c + 1]);
    assert t != [] && t[0] == c;
    assert k[|q|] == c;
  }

  /** The load range `[p, p+0xff)` drops exactly the keys whose byte after the prefix is 0xff. */
  lemma {:induction false} LoadRangeExact(p: Bytes, k: Bytes)
    ensures InRange(k, p, p + [0xff]) <==> HasPrefix(k, p) && !(|k| > |p| && k[|p|] == 0xff)
  {
    assert (p + [0xff])[|p|] == 0xff;
    if HasPrefix(k, p) {
      PrefixBelow(p, k);
      var t := k[|p|..];
      assert k == p + t;
      LexCancel(p, t, [0xff]);
      if |k| > |p| {
        assert t[0] == k[|p|];
      }
    } else if InRange(k, p, p + [0xff]) {
      assert p == p + [];
      Sandwich(p, [], [0xff], k);
    }
  }

  /** Watch and load see the same keys wherever no byte 0xff follows the prefix, as in every ASCII key. */
  lemma {:induction false} LoadSeesWatchedKeys(p: Bytes, k: Bytes)
    requires 0xff !in k
    ensures InRange(k, p, p + [0xff]) <==> InRange(k, p, RangeEnd(p))
  {
    PrefixRangeExact(p, k);
    LoadRangeExact(p, k);
  }

  // ---- The service's own prefixes -----------------------------------------

  predicate IsAscii(s: string) {
    forall i | 0 <= i < |s| :: s[i] as int < 0x80
  }

  function ToBytes(s: string): (b: Bytes)
    requires IsAscii(s)
    ensures |b| == |s| && forall i | 0 <= i < |s| :: b[i] == s[i] as int
  {
    seq(|s|, i requires 0 <= i < |s| => s[i] as int)
  }

  lemma {:induction false} PrefixAsBytes(k: string, p: string)
    requires IsAscii(k) && IsAscii(p)
    ensures HasPrefix(k, p) <==> HasPrefix(ToBytes(k), ToBytes(p))
  {
  }

  /** On ASCII keys the watch range and the load range of a prefix both mean: starts with the prefix. */
  lemma {:induction false} RangesAreTextPrefixes(k: string, p: string)
    requires IsAscii(k) && IsAscii(p)
    ensures InRange(ToBytes(k), ToBytes(p), RangeEnd(ToBytes(p))) <==> HasPrefix(k, p)
    ensures InRange(ToBytes(k), ToBytes(p), ToBytes(p) + [0xff]) <==> HasPrefix(k, p)
  {
    PrefixAsBytes(k, p);
    PrefixRangeExact(ToBytes(p), ToBytes(k));
    LoadRangeExact(ToBytes(p), ToBytes(k));
  }
}

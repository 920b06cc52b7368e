/** Folding a stream of keyed updates into a map, from the start or over a state already ahead of the stream. */
module Replay {

  datatype Update<+K, +V> = Set(key: K, val: V) | Unset(key: K) | Skip

  function Apply<K(==), V>(m: map<K, V>, u: Update<K, V>): map<K, V> {
    match u
    case Set(k, v) => m[k := v]
    case Unset(k) => m - {k}
    case Skip => m
  }

  predicate Touches<K(==), V>(u: Update<K, V>, k: K) {
    !u.Skip? && u.key == k
  }

  /** The map after the first `n` updates. */
  function Fold<K(==), V>(us: seq<Update<K, V>>, n: nat): map<K, V>
    requires n <= |us|
  {
    if n == 0 then map[] else Apply(Fold(us, n - 1), us[n - 1])
  }

  ghost predicate SameAt<K, V>(m: map<K, V>, n: map<K, V>, k: K) {
    (k in m <==> k in n) && (k in m ==> m[k] == n[k])
  }

  ghost predicate Agrees<K, V>(m: map<K, V>, us: seq<Update<K, V>>, k: K, j: nat)
    requires j <= |us|
  {
    SameAt(m, Fold(us, j), k)
  }

  ghost predicate KeyBetween<K, V>(m: map<K, V>, us: seq<Update<K, V>>, lo: nat, hi: nat, k: K)
    requires lo <= hi <= |us|
  {
    exists j: nat :: lo <= j <= hi && Agrees(m, us, k, j)
  }

  /** Every key of `m` is as some state of the fold between `lo` and `hi` had it. */
  ghost predicate Between<K(!new), V>(m: map<K, V>, us: seq<Update<K, V>>, lo: nat, hi: nat)
    requires lo <= hi <= |us|
  {
    forall k: K :: KeyBetween(m, us, lo, hi, k)
  }

  lemma {:induction false} ApplyAt<K, V>(m: map<K, V>, n: map<K, V>, u: Update<K, V>, k: K)
    requires SameAt(m, n, k) || Touches(u, k)
    ensures SameAt(Apply(m, u), Apply(n, u), k)
  {
  }

  lemma {:induction false} FoldIsBetween<K(!new), V>(us: seq<Update<K, V>>, n: nat)
    requires n <= |us|
    ensures Between(Fold(us, n), us, n, n)
  {
    forall k: K ensures KeyBetween(Fold(us, n), us, n, n, k) {
      assert Agrees(Fold(us, n), us, k, n);
    }
  }

  /** Once the bounds meet, the map is the fold. */
  lemma {:induction false} BetweenCaughtUp<K(!new), V>(m: map<K, V>, us: seq<Update<K, V>>, n: nat)
    requires n <= |us| && Between(m, us, n, n)
    ensures m == Fold(us, n)
  {
    forall k | k in m ensures k in Fold(us, n) && m[k] == Fold(us, n)[k] {
      assert KeyBetween(m, us, n, n, k);
    }
    forall k | k in Fold(us, n) ensures k in m {
      assert KeyBetween(m, us, n, n, k);
    }
  }

  /** Replaying the next update moves the lower bound, whether or not the map already had it. */
  lemma {:induction false} BetweenApply<K(!new), V>(m: map<K, V>, us: seq<Update<K, V>>, lo: nat, hi: nat)
    requires lo < |us| && lo <= hi <= |us| && Between(m, us, lo, hi)
    ensures Between(Apply(m, us[lo]), us, lo + 1, if hi > lo then hi else lo + 1)
  {
    var m', u := Apply(m, us[lo]), us[lo];
    var lo', hi' := lo + 1, if hi > lo then hi else lo + 1;
    forall k: K ensures KeyBetween(m', us, lo', hi', k) {
      if Touches(u, k) {
        ApplyAt(m, Fold(us, lo), u, k);
        assert Agrees(m', us, k, lo + 1);
      } else {
        assert KeyBetween(m, us, lo, hi, k);
        var j: nat :| lo <= j <= hi && Agrees(m, us, k, j);
        if j == lo {
          ApplyAt(m, Fold(us, lo), u, k);
          assert Agrees(m', us, k, lo + 1);
        } else {
          assert Agrees(m', us, k, j);
        }
      }
    }
  }

  lemma {:induction false} BetweenWiden<K(!new), V>(
    m: map<K, V>, us: seq<Update<K, V>>, lo: nat, hi: nat, lo': nat, hi': nat)
    requires lo' <= lo <= hi <= hi' <= |us| && Between(m, us, lo, hi)
    ensures Between(m, us, lo', hi')
  {
    forall k: K ensures KeyBetween(m, us, lo', hi', k) {
      assert KeyBetween(m, us, lo, hi, k);
      var j: nat :| lo <= j <= hi && Agrees(m, us, k, j);
      assert lo' <= j <= hi' && Agrees(m, us, k, j);
    }
  }

  // ---- Overlapping replay -------------------------------------------------

  /** The map after replaying positions `[from, to)` over `m`. */
  function ReplayFrom<K(==), V>(m: map<K, V>, us: seq<Update<K, V>>, from: nat, to: nat): map<K, V>
    requires from <= to <= |us|
  {
    if from == to then m else Apply(ReplayFrom(m, us, from, to - 1), us[to - 1])
  }

  lemma {:induction false} ReplayBetween<K(!new), V>(us: seq<Update<K, V>>, from: nat, loaded: nat, to: nat)
    requires from <= loaded <= |us| && from <= to <= |us|
    ensures Between(ReplayFrom(Fold(us, loaded), us, from, to), us, to, if loaded > to then loaded else to)
  {
    if from == to {
      FoldIsBetween(us, loaded);
      BetweenWiden(Fold(us, loaded), us, loaded, loaded, from, loaded);
    } else {
      ReplayBetween(us, from, loaded, to - 1);
      var m := ReplayFrom(Fold(us, loaded), us, from, to - 1);
      BetweenApply(m, us, to - 1, if loaded > to - 1 then loaded else to - 1);
    }
  }

  /** A snapshot taken at `loaded` and replayed from an earlier position is the fold once it catches up. */
  lemma {:induction false} OverlapHarmless<K(!new), V>(us: seq<Update<K, V>>, from: nat, loaded: nat, to: nat)
    requires from <= loaded <= to <= |us|
    ensures ReplayFrom(Fold(us, loaded), us, from, to) == Fold(us, to)
  {
    ReplayBetween(us, from, loaded, to);
    BetweenCaughtUp(ReplayFrom(Fold(us, loaded), us, from, to), us, to);
  }

  // ---- Skipped stretches --------------------------------------------------

  ghost predicate TouchedIn<K, V>(us: seq<Update<K, V>>, lo: nat, hi: nat, k: K) {
    exists i :: lo <= i < hi && i < |us| && Touches(us[i], k)
  }

  /** The last update of its key in the stretch up to `hi`. */
  ghost predicate LastTouch<K, V>(us: seq<Update<K, V>>, i: nat, hi: nat) {
    i < hi && i < |us| && !us[i].Skip? && !TouchedIn(us, i + 1, hi, us[i].key)
  }

  /** The map already is as the update leaves it. */
  ghost predicate Holds<K, V>(m: map<K, V>, u: Update<K, V>) {
    match u
    case Set(k, v) => k in m && m[k] == v
    case Unset(k) => k !in m
    case Skip => true
  }

  /** Of every key the stretch touches, the map already holds what the last touch leaves. */
  ghost predicate Settled<K, V>(m: map<K, V>, us: seq<Update<K, V>>, lo: nat, hi: nat) {
    forall i: nat | lo <= i && LastTouch(us, i, hi) :: Holds(m, us[i])
  }

  lemma {:induction false} LastTouchOf<K, V>(us: seq<Update<K, V>>, lo: nat, hi: nat, k: K) returns (i: nat)
    requires hi <= |us| && TouchedIn(us, lo, hi, k)
    ensures lo <= i && LastTouch(us, i, hi) && us[i].key == k
    decreases hi
  {
    if Touches(us[hi - 1], k) {
      i := hi - 1;
    } else {
      i := LastTouchOf(us, lo, hi - 1, k);
      assert !TouchedIn(us, i + 1, hi, k);
    }
  }

  lemma {:induction false} UntouchedFold<K, V>(us: seq<Update<K, V>>, lo: nat, hi: nat, k: K)
    requires lo <= hi <= |us| && !TouchedIn(us, lo, hi, k)
    ensures SameAt(Fold(us, lo), Fold(us, hi), k)
  {
    if lo < hi {
      assert !Touches(us[hi - 1], k);
      assert forall i | lo <= i < hi - 1 && i < |us| :: !Touches(us[i], k);
      UntouchedFold(us, lo, hi - 1, k);
    }
  }

  lemma {:induction false} FoldHoldsLast<K, V>(us: seq<Update<K, V>>, i: nat, hi: nat)
    requires hi <= |us| && LastTouch(us, i, hi)
    ensures Holds(Fold(us, hi), us[i])
  {
    UntouchedFold(us, i + 1, hi, us[i].key);
  }

  lemma {:induction false} SettledAt<K, V>(m: map<K, V>, us: seq<Update<K, V>>, lo: nat, hi: nat, k: K)
    requires hi <= |us| && Settled(m, us, lo, hi) && TouchedIn(us, lo, hi, k)
    ensures SameAt(m, Fold(us, hi), k)
  {
    var i := LastTouchOf(us, lo, hi, k);
    FoldHoldsLast(us, i, hi);
    assert Holds(m, us[i]);
  }

  /** Skipping a stretch keeps the fold exactly when the stretch is settled. */
  lemma {:induction false} SkipIffSettled<K, V>(us: seq<Update<K, V>>, lo: nat, hi: nat)
    requires lo <= hi <= |us|
    ensures Fold(us, lo) == Fold(us, hi) <==> Settled(Fold(us, lo), us, lo, hi)
  {
    var a, b := Fold(us, lo), Fold(us, hi);
    if Settled(a, us, lo, hi) {
      forall k | k in a ensures k in b && a[k] == b[k] { SkipAt(us, lo, hi, k); }
      forall k | k in b ensures k in a { SkipAt(us, lo, hi, k); }
      assert a == b;
    } else if a == b {
      forall i: nat | lo <= i && LastTouch(us, i, hi) ensures Holds(a, us[i]) {
        FoldHoldsLast(us, i, hi);
      }
    }
  }

  lemma {:induction false} SkipAt<K, V>(us: seq<Update<K, V>>, lo: nat, hi: nat, k: K)
    requires lo <= hi <= |us| && Settled(Fold(us, lo), us, lo, hi)
    ensures SameAt(Fold(us, lo), Fold(us, hi), k)
  {
    if TouchedIn(us, lo, hi, k) {
      SettledAt(Fold(us, lo), us, lo, hi, k);
    } else {
      UntouchedFold(us, lo, hi, k);
    }
  }

  /** Jumping over a settled stretch loses nothing, wherever the map stands between its bounds. */
  lemma {:induction false} BetweenSettled<K(!new), V>(m: map<K, V>, us: seq<Update<K, V>>, lo: nat, hi: nat, p: nat)
    requires lo <= hi <= |us| && lo <= p <= |us| && Between(m, us, lo, hi) && Settled(m, us, lo, p)
    ensures Between(m, us, p, if hi > p then hi else p)
  {
    var hi' := if hi > p then hi else p;
    forall k: K ensures KeyBetween(m, us, p, hi', k) {
      if TouchedIn(us, lo, p, k) {
        SettledAt(m, us, lo, p, k);
        assert Agrees(m, us, k, p);
      } else {
        assert KeyBetween(m, us, lo, hi, k);
        var j: nat :| lo <= j <= hi && Agrees(m, us, k, j);
        if j < p {
          assert !TouchedIn(us, j, p, k);
          UntouchedFold(us, j, p, k);
          assert Agrees(m, us, k, p);
        } else {
          assert p <= j <= hi' && Agrees(m, us, k, j);
        }
      }
    }
  }

  // ---- Removals from outside the stream -----------------------------------

  /** The key is absent at the stream's position, or an update still ahead of it takes the key away. */
  ghost predicate Leaving<K, V>(us: seq<Update<K, V>>, next: nat, len: nat, k: K)
    requires next <= |us|
  {
    k !in Fold(us, next) || exists e: nat :: next <= e < len && e < |us| && us[e] == Unset(k)
  }

  lemma {:induction false} StaysWithoutUnset<K, V>(us: seq<Update<K, V>>, next: nat, j: nat, k: K)
    requires next <= j <= |us| && k in Fold(us, next)
    requires forall e: nat | next <= e < j :: us[e] != Unset(k)
    ensures k in Fold(us, j)
  {
    if next < j {
      StaysWithoutUnset(us, next, j - 1, k);
    }
  }

  /** Removing a key on the side keeps the map between its bounds exactly when the key is leaving anyway. */
  lemma {:induction false} BetweenRemoveIff<K(!new), V>(
    m: map<K, V>, us: seq<Update<K, V>>, lo: nat, hi: nat, len: nat, k: K)
    requires lo <= hi <= len <= |us| && Between(m, us, lo, hi)
    ensures Between(m - {k}, us, lo, len) <==> Leaving(us, lo, len, k)
  {
    var m' := m - {k};
    if Leaving(us, lo, len, k) {
      forall x: K ensures KeyBetween(m', us, lo, len, x) {
        if x == k {
          if k !in Fold(us, lo) {
            assert Agrees(m', us, x, lo);
          } else {
            var e: nat :| lo <= e < len && e < |us| && us[e] == Unset(k);
            assert Agrees(m', us, x, e + 1);
          }
        } else {
          assert KeyBetween(m, us, lo, hi, x);
          var j: nat :| lo <= j <= hi && Agrees(m, us, x, j);
          assert Agrees(m', us, x, j);
        }
      }
    } else if Between(m', us, lo, len) {
      assert KeyBetween(m', us, lo, len, k);
      var j: nat :| lo <= j <= len && Agrees(m', us, k, j);
      StaysWithoutUnset(us, lo, j, k);
    }
  }

  // ---- Stamped streams ----------------------------------------------------

  /** Every key the stretch touches is absent on both of its sides. */
  ghost predicate Harmless<K(!new), V>(us: seq<Update<K, V>>, lo: nat, hi: nat)
    requires lo <= hi <= |us|
  {
    forall k: K | TouchedIn(us, lo, hi, k) :: k !in Fold(us, lo) && k !in Fold(us, hi)
  }

  /** Values carry the position of the update that wrote them. */
  ghost predicate Stamped<K, V(!new)>(us: seq<Update<K, V>>, stamp: V -> int) {
    forall i | 0 <= i < |us| && us[i].Set? :: stamp(us[i].val) == i
  }

  lemma {:induction false} FoldStamps<K, V(!new)>(us: seq<Update<K, V>>, stamp: V -> int, n: nat, k: K)
    requires n <= |us| && Stamped(us, stamp) && k in Fold(us, n)
    ensures 0 <= stamp(Fold(us, n)[k]) < n
    ensures us[stamp(Fold(us, n)[k])].Set? && us[stamp(Fold(us, n)[k])].key == k
    ensures !TouchedIn(us, stamp(Fold(us, n)[k]) + 1, n, k)
  {
    if Touches(us[n - 1], k) {
      assert us[n - 1].Set?;
    } else {
      FoldStamps(us, stamp, n - 1, k);
    }
  }

  /** A folded value of a stamped stream tells the last update of its key. */
  lemma {:induction false} FoldedBy<K, V(!new)>(us: seq<Update<K, V>>, stamp: V -> int, n: nat, k: K)
    requires n <= |us| && Stamped(us, stamp) && k in Fold(us, n)
    ensures var e := stamp(Fold(us, n)[k]);
            0 <= e < n && us[e].Set? && us[e].key == k && LastTouch(us, e, n)
  {
    FoldStamps(us, stamp, n, k);
  }

  /** Skipping a stretch of a stamped stream keeps the fold exactly when the stretch is harmless. */
  lemma {:induction false} SkipIffHarmless<K(!new), V(!new)>(us: seq<Update<K, V>>, stamp: V -> int, lo: nat, hi: nat)
    requires lo <= hi <= |us| && Stamped(us, stamp)
    ensures Fold(us, lo) == Fold(us, hi) <==> Harmless(us, lo, hi)
  {
    var a, b := Fold(us, lo), Fold(us, hi);
    if Harmless(us, lo, hi) {
      forall k: K ensures SameAt(a, b, k) {
        if !TouchedIn(us, lo, hi, k) {
          UntouchedFold(us, lo, hi, k);
        }
      }
      assert forall k | k in a :: SameAt(a, b, k);
      assert forall k | k in b :: SameAt(a, b, k);
      assert a == b;
    } else if a == b {
      var k: K :| TouchedIn(us, lo, hi, k) && !(k !in a && k !in b);
      FoldStamps(us, stamp, lo, k);
      FoldStamps(us, stamp, hi, k);
    }
  }
}

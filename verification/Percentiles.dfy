/** The benchmark tool's shell sort and latency percentiles. */
module Percentiles {

  ghost predicate Sorted(s: seq<int>) {
    forall i, j | 0 <= i < j < |s| :: s[i] <= s[j]
  }

  /** The first `n` elements are sorted along every stride of `gap`. */
  ghost predicate GapSorted(s: seq<int>, gap: nat, n: nat)
    requires gap > 0 && n <= |s|
  {
    forall k | gap <= k < n :: s[k - gap] <= s[k]
  }

  /** After a pass with gap 1 neighbours are ordered, hence all pairs are. */
  lemma {:induction false} GapOneSorted(s: seq<int>, n: nat)
    requires n <= |s| && GapSorted(s, 1, n)
    ensures forall i, j | 0 <= i < j < n :: s[i] <= s[j]
  {
    if n > 1 {
      GapOneSorted(s, n - 1);
      assert s[n - 1 - 1] <= s[n - 1];
    }
  }

  /** A stride with a hole at `j` for `temp`: everything above the hole exceeds it, the rest is in order. */
  ghost predicate Hole(s: seq<int>, gap: nat, i: nat, j: nat, temp: int) {
    && 0 < gap <= i < |s| && j <= i && (j < i ==> j + gap <= i && temp < s[j + gap])
    && forall k | gap <= k <= i && (k < i || j < i) :: s[k - gap] <= s[k]
  }

  lemma {:induction false} HoleMoves(s: seq<int>, gap: nat, i: nat, j: nat, temp: int)
    requires Hole(s, gap, i, j, temp) && j >= gap && s[j - gap] > temp
    ensures Hole(s[j := s[j - gap]], gap, i, j - gap, temp)
    ensures multiset(s[j := s[j - gap]][j - gap := temp]) == multiset(s[j := temp])
  {
  }

  lemma {:induction false} HoleFilled(s: seq<int>, gap: nat, i: nat, j: nat, temp: int)
    requires Hole(s, gap, i, j, temp) && (j >= gap ==> s[j - gap] <= temp)
    ensures GapSorted(s[j := temp], gap, i + 1)
  {
  }

  /** The inner loop: shifts larger elements of the stride up and returns the hole they leave. */
  method ShiftUp(d: array<int>, gap: nat, i: nat) returns (j: nat)
    requires 0 < gap <= i < d.Length && GapSorted(d[..], gap, i)
    modifies d
    ensures Hole(d[..], gap, i, j, old(d[i])) && (j >= gap ==> d[j - gap] <= old(d[i]))
    ensures multiset(d[..][j := old(d[i])]) == old(multiset(d[..]))
  {
    var temp := d[i];
    j := i;
    ghost var s := d[..];
    assert s[i := temp] == s;
    while j >= gap && d[j - gap] > temp
      invariant d[..] == s && Hole(s, gap, i, j, temp)
      invariant multiset(s[j := temp]) == old(multiset(d[..]))
    {
      HoleMoves(s, gap, i, j, temp);
      s := s[j := s[j - gap]];
      d[j] := d[j - gap];
      j := j - gap;
    }
  }

  /** Moves `d[i]` down its stride to its place among the elements before it. */
  method InsertStride(d: array<int>, gap: nat, i: nat)
    requires 0 < gap <= i < d.Length && GapSorted(d[..], gap, i)
    modifies d
    ensures GapSorted(d[..], gap, i + 1)
    ensures multiset(d[..]) == old(multiset(d[..]))
  {
    var temp := d[i];
    var j := ShiftUp(d, gap, i);
    ghost var s := d[..];
    HoleFilled(s, gap, i, j, temp);
    d[j] := temp;
    assert d[..] == s[j := temp];
  }

  method SortDurations(d: array<int>)
    modifies d
    ensures Sorted(d[..])
    ensures multiset(d[..]) == old(multiset(d[..]))
  {
    var n := d.Length;
    var gap := n / 2;
    while gap > 0
      invariant 0 <= gap <= n / 2
      invariant gap == 0 && n > 1 ==> GapSorted(d[..], 1, n)
      invariant multiset(d[..]) == old(multiset(d[..]))
      decreases gap
    {
      for i := gap to n
        invariant GapSorted(d[..], gap, i)
        invariant multiset(d[..]) == old(multiset(d[..]))
      {
        InsertStride(d, gap, i);
      }
      gap := gap / 2;
    }
    if n > 1 {
      GapOneSorted(d[..], n);
    }
  }

  // ---- The sorted arrangement ---------------------------------------------

  function Insert(x: int, s: seq<int>): seq<int> {
    if s == [] || x <= s[0] then [x] + s else [s[0]] + Insert(x, s[1..])
  }

  /** The sorted arrangement of a sample. */
  function Arrange(s: seq<int>): seq<int> {
    if s == [] then [] else Insert(s[0], Arrange(s[1..]))
  }

  lemma {:induction false} InsertMultiset(x: int, s: seq<int>)
    ensures multiset(Insert(x, s)) == multiset(s) + multiset{x}
  {
    if s != [] && x > s[0] {
      InsertMultiset(x, s[1..]);
      assert s == [s[0]] + s[1..];
    }
  }

  lemma {:induction false} ConsSorted(x: int, t: seq<int>)
    requires Sorted(t) && (t != [] ==> x <= t[0])
    ensures Sorted([x] + t)
  {
  }

  lemma {:induction false} InsertSorted(x: int, s: seq<int>)
    requires Sorted(s)
    ensures Sorted(Insert(x, s))
    ensures Insert(x, s) != [] && (Insert(x, s)[0] == x || (s != [] && Insert(x, s)[0] == s[0]))
  {
    if s == [] || x <= s[0] {
      ConsSorted(x, s);
    } else {
      InsertSorted(x, s[1..]);
      ConsSorted(s[0], Insert(x, s[1..]));
    }
  }

  lemma {:induction false} ArrangeSorted(s: seq<int>)
    ensures Sorted(Arrange(s)) && multiset(Arrange(s)) == multiset(s)
  {
    if s != [] {
      ArrangeSorted(s[1..]);
      InsertSorted(s[0], Arrange(s[1..]));
      InsertMultiset(s[0], Arrange(s[1..]));
      assert s == [s[0]] + s[1..];
    }
  }

  lemma {:induction false} Tail(s: seq<int>)
    requires s != []
    ensures multiset(s[1..]) == multiset(s) - multiset{s[0]}
  {
    assert s == [s[0]] + s[1..];
  }

  lemma {:induction false} FirstLeast(s: seq<int>, y: int)
    requires Sorted(s) && y in multiset(s)
    ensures s[0] <= y
  {
  }

  lemma {:induction false} SameHead(a: seq<int>, b: seq<int>)
    requires Sorted(a) && Sorted(b) && multiset(a) == multiset(b) && a != [] && b != []
    ensures a[0] == b[0]
  {
    assert a[0] in multiset(a) && b[0] in multiset(b);
    FirstLeast(b, a[0]);
    FirstLeast(a, b[0]);
  }

  lemma {:induction false} SameTail(a: seq<int>, b: seq<int>)
    requires multiset(a) == multiset(b) && a != [] && b != [] && a[0] == b[0]
    ensures multiset(a[1..]) == multiset(b[1..])
  {
    Tail(a);
    Tail(b);
  }

  /** A sample has one sorted arrangement. */
  lemma {:induction false} SortedUnique(a: seq<int>, b: seq<int>)
    requires Sorted(a) && Sorted(b) && multiset(a) == multiset(b)
    ensures a == b
  {
    SameSize(a, b);
    if a != [] {
      SameHead(a, b);
      SameTail(a, b);
      SortedUnique(a[1..], b[1..]);
      assert a == [a[0]] + a[1..] && b == [b[0]] + b[1..];
    }
  }

  lemma {:induction false} SameSize(a: seq<int>, b: seq<int>)
    requires multiset(a) == multiset(b)
    ensures |a| == |b|
  {
    assert |multiset(a)| == |a| && |multiset(b)| == |b|;
  }

  lemma {:induction false} PercentileIndices(s: seq<int>)
    requires s != [] && Sorted(s)
    ensures var n := |s|;
            && 0 <= n * 50 / 100 <= n * 95 / 100 <= n * 99 / 100 < n
            && s[n * 50 / 100] <= s[n * 95 / 100] <= s[n * 99 / 100]
  {
  }

  class Result {
    var latencies: seq<int>
    var p50: int
    var p95: int
    var p99: int

    constructor (sample: seq<int>)
      ensures latencies == sample && p50 == p95 == p99 == 0
    {
      latencies, p50, p95, p99 := sample, 0, 0, 0;
    }

    method ComputePercentiles()
      modifies this`p50, this`p95, this`p99
      ensures latencies == [] ==> unchanged(this)
      ensures latencies != [] ==>
                var n, s := |latencies|, Arrange(latencies);
                && |s| == n
                && p50 == s[n * 50 / 100] && p95 == s[n * 95 / 100] && p99 == s[n * 99 / 100]
      ensures latencies != [] ==> p50 <= p95 <= p99
    {
      if |latencies| == 0 {
        return;
      }
      var lats := new int[|latencies|](i requires 0 <= i < |latencies| reads this => latencies[i]);
      assert lats[..] == latencies;
      SortDurations(lats);
      ArrangeSorted(latencies);
      SortedUnique(lats[..], Arrange(latencies));
      PercentileIndices(Arrange(latencies));
      var n := lats.Length;
      p50 := lats[n * 50 / 100];
      p95 := lats[n * 95 / 100];
      p99 := lats[n * 99 / 100];
    }
  }
}

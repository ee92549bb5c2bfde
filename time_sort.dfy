/**
 * `listMove.sort((a, b) => a.time - b.time)`: a stable sort by timestamp.
 * `StableSort` is the reference definition (insertion from the right, so
 * an entry is placed after every earlier entry with the same timestamp);
 * `SortByTime` is the in-place sort of the array.
 */
module TimeSort {
  import opened CardTypes

  predicate SortedByTime(s: seq<Move>) {
    forall i, j :: 0 <= i < j < |s| ==> s[i].time <= s[j].time
  }

  /** The entries of `s` stamped `t`, in their order in `s`. */
  function WithTime(s: seq<Move>, t: int): (group: seq<Move>) {
    if s == [] then []
    else WithTime(s[..|s| - 1], t) + (if s[|s| - 1].time == t then [s[|s| - 1]] else [])
  }

  /** Places `x` after every entry of `s`, from the right, whose timestamp is not later than its own. */
  function Insert(s: seq<Move>, x: Move): (r: seq<Move>) {
    if s == [] then [x]
    else if s[|s| - 1].time > x.time then Insert(s[..|s| - 1], x) + [s[|s| - 1]]
    else s + [x]
  }

  function StableSort(s: seq<Move>): (r: seq<Move>) {
    if s == [] then [] else Insert(StableSort(s[..|s| - 1]), s[|s| - 1])
  }

  lemma {:induction false} WithTimeAppend(a: seq<Move>, b: seq<Move>, t: int)
    ensures WithTime(a + b, t) == WithTime(a, t) + WithTime(b, t)
    decreases |b|
  {
    if b == [] {
      assert a + b == a;
    } else {
      assert (a + b)[..|a + b| - 1] == a + b[..|b| - 1];
      WithTimeAppend(a, b[..|b| - 1], t);
    }
  }

  lemma {:induction false} InsertPermutes(s: seq<Move>, x: Move)
    ensures multiset(Insert(s, x)) == multiset(s) + multiset{x}
  {
    if s != [] {
      var n := |s| - 1;
      assert s == s[..n] + [s[n]];
      if s[n].time > x.time {
        InsertPermutes(s[..n], x);
      }
    }
  }

  lemma {:induction false} InsertSorted(s: seq<Move>, x: Move)
    requires SortedByTime(s)
    ensures SortedByTime(Insert(s, x))
  {
    if s != [] {
      var n := |s| - 1;
      if s[n].time > x.time {
        InsertSorted(s[..n], x);
        var r := Insert(s[..n], x);
        InsertPermutes(s[..n], x);
        forall i | 0 <= i < |r| ensures r[i].time <= s[n].time {
          assert r[i] in multiset(r);
          if r[i] != x {
            assert r[i] in multiset(s[..n]);
          }
        }
      }
    }
  }

  /** Inserting `x` adds it at the end of the entries stamped like it, and moves no other entry within its group. */
  lemma {:induction false} InsertStable(s: seq<Move>, x: Move, t: int)
    ensures WithTime(Insert(s, x), t) == WithTime(s, t) + WithTime([x], t)
  {
    assert WithTime([x], t) == WithTime([], t) + (if x.time == t then [x] else []);
    if s == [] {
    } else {
      var n := |s| - 1;
      assert s == s[..n] + [s[n]];
      WithTimeAppend(s[..n], [s[n]], t);
      assert WithTime([s[n]], t) == WithTime([], t) + (if s[n].time == t then [s[n]] else []);
      if s[n].time > x.time {
        InsertStable(s[..n], x, t);
        WithTimeAppend(Insert(s[..n], x), [s[n]], t);
      } else {
        WithTimeAppend(s, [x], t);
      }
    }
  }

  /** The sorted result is ordered by timestamp and is a permutation of its input. */
  lemma {:induction false} StableSortSorted(s: seq<Move>)
    ensures SortedByTime(StableSort(s))
    ensures multiset(StableSort(s)) == multiset(s)
    ensures |StableSort(s)| == |s|
  {
    if s != [] {
      var n := |s| - 1;
      assert s == s[..n] + [s[n]];
      StableSortSorted(s[..n]);
      InsertSorted(StableSort(s[..n]), s[n]);
      InsertPermutes(StableSort(s[..n]), s[n]);
    }
  }

  /** Stability: among entries with equal timestamps the sort keeps insertion order. */
  lemma {:induction false} StableSortStable(s: seq<Move>, t: int)
    ensures WithTime(StableSort(s), t) == WithTime(s, t)
  {
    if s != [] {
      var n := |s| - 1;
      assert s == s[..n] + [s[n]];
      StableSortStable(s[..n], t);
      InsertStable(StableSort(s[..n]), s[n], t);
      WithTimeAppend(s[..n], [s[n]], t);
    }
  }

  /** A sequence already ordered by timestamp is left as it is. */
  lemma {:induction false} StableSortOfSorted(s: seq<Move>)
    requires SortedByTime(s)
    ensures StableSort(s) == s
  {
    if s != [] {
      var n := |s| - 1;
      StableSortOfSorted(s[..n]);
      assert s[..n] + [s[n]] == s;
    }
  }

  /**
   * A sorted sequence is fixed by its groups of equal timestamps: so every
   * stable sort by timestamp (Node's `Array.prototype.sort` among them)
   * produces exactly `StableSort(s)`.
   */
  lemma {:induction false} SortedGroupsDetermine(r1: seq<Move>, r2: seq<Move>)
    requires SortedByTime(r1) && SortedByTime(r2)
    requires forall t :: WithTime(r1, t) == WithTime(r2, t)
    ensures r1 == r2
    decreases |r1| + |r2|
  {
    if r1 == [] {
      // an empty side has no group at the timestamp of the other side's last entry
      if r2 != [] {
        assert false;
      }
    } else if r2 == [] {
      WithTimeNonEmpty(r1, |r1| - 1);
      assert false;
    } else {
      var n1, n2 := |r1| - 1, |r2| - 1;
      var x, y := r1[n1], r2[n2];
      if x.time < y.time {
        WithTimeNonEmpty(r2, n2);
        WithTimeAbove(r1, y.time);
      } else if y.time < x.time {
        WithTimeNonEmpty(r1, n1);
        WithTimeAbove(r2, x.time);
      } else {
        assert WithTime(r1, x.time) == WithTime(r1[..n1], x.time) + [x];
        assert WithTime(r2, x.time) == WithTime(r2[..n2], x.time) + [y];
        assert x == y by {
          assert WithTime(r1, x.time)[|WithTime(r1, x.time)| - 1] == x;
        }
        forall t ensures WithTime(r1[..n1], t) == WithTime(r2[..n2], t) {
          if t == x.time {
            assert WithTime(r1[..n1], t) == WithTime(r1, t)[..|WithTime(r1, t)| - 1];
          } else {
            assert WithTime(r1, t) == WithTime(r1[..n1], t);
            assert WithTime(r2, t) == WithTime(r2[..n2], t);
          }
        }
        SortedGroupsDetermine(r1[..n1], r2[..n2]);
        assert r1 == r1[..n1] + [x] && r2 == r2[..n2] + [y];
      }
    }
  }

  lemma {:induction false} WithTimeNonEmpty(s: seq<Move>, k: nat)
    requires k < |s|
    ensures WithTime(s, s[k].time) != []
  {
    var n := |s| - 1;
    if k < n {
      WithTimeNonEmpty(s[..n], k);
    }
  }

  lemma {:induction false} WithTimeAbove(s: seq<Move>, t: int)
    requires SortedByTime(s) && s != [] && s[|s| - 1].time < t
    ensures WithTime(s, t) == []
  {
    var n := |s| - 1;
    if n > 0 {
      WithTimeAbove(s[..n], t);
    }
  }

  /** No two entries share a timestamp. */
  predicate DistinctTimes(s: seq<Move>) {
    forall i, j :: 0 <= i < j < |s| ==> s[i].time != s[j].time
  }

  /** The group of timestamp `t` holds each entry of `s` stamped `t`, as often as `s` does. */
  lemma {:induction false} WithTimeMultiset(s: seq<Move>, t: int, m: Move)
    ensures multiset(WithTime(s, t))[m] == if m.time == t then multiset(s)[m] else 0
  {
    if s != [] {
      var n := |s| - 1;
      assert s == s[..n] + [s[n]];
      WithTimeMultiset(s[..n], t, m);
    }
  }

  lemma {:induction false} WithTimeNone(s: seq<Move>, t: int)
    requires forall i :: 0 <= i < |s| ==> s[i].time != t
    ensures WithTime(s, t) == []
  {
    if s != [] {
      WithTimeNone(s[..|s| - 1], t);
    }
  }

  lemma {:induction false} WithTimeAtMostOne(s: seq<Move>, t: int)
    requires DistinctTimes(s)
    ensures |WithTime(s, t)| <= 1
  {
    if s != [] {
      var n := |s| - 1;
      if s[n].time == t {
        WithTimeNone(s[..n], t);
      } else {
        WithTimeAtMostOne(s[..n], t);
      }
    }
  }

  lemma SingletonMultiset(a: seq<Move>, b: seq<Move>)
    requires |a| <= 1 && multiset(a) == multiset(b)
    ensures a == b
  {
    assert |b| == |multiset(b)| == |multiset(a)| == |a|;
    if |a| == 1 {
      assert a[0] in multiset(b);
    }
  }

  /**
   * When no two entries share a timestamp, the sorted result depends only on
   * which entries there are, not on the order they were pushed in.
   */
  lemma DistinctTimesOrderFree(s1: seq<Move>, s2: seq<Move>)
    requires multiset(s1) == multiset(s2) && DistinctTimes(s1)
    ensures StableSort(s1) == StableSort(s2)
  {
    StableSortSorted(s1);
    StableSortSorted(s2);
    forall t ensures WithTime(StableSort(s1), t) == WithTime(StableSort(s2), t) {
      StableSortStable(s1, t);
      StableSortStable(s2, t);
      forall m ensures multiset(WithTime(s1, t))[m] == multiset(WithTime(s2, t))[m] {
        WithTimeMultiset(s1, t, m);
        WithTimeMultiset(s2, t, m);
      }
      assert multiset(WithTime(s1, t)) == multiset(WithTime(s2, t));
      WithTimeAtMostOne(s1, t);
      SingletonMultiset(WithTime(s1, t), WithTime(s2, t));
    }
    SortedGroupsDetermine(StableSort(s1), StableSort(s2));
  }

  /**
   * Where insertion puts `x`: after the entries up to `j`, the last of which
   * is not stamped later than `x`, and before the rest, which all are.
   */
  lemma {:induction false} InsertShape(p: seq<Move>, x: Move, j: nat)
    requires j <= |p| && (j == 0 || p[j - 1].time <= x.time)
    requires forall k :: j <= k < |p| ==> p[k].time > x.time
    ensures Insert(p, x) == p[..j] + [x] + p[j..]
    decreases |p|
  {
    if |p| == j {
      assert p[..j] == p && p[j..] == [];
      if p != [] {
        assert p[|p| - 1].time <= x.time;
      }
    } else {
      var n := |p| - 1;
      assert p[n].time > x.time;
      assert Insert(p, x) == Insert(p[..n], x) + [p[n]];
      assert p[..n][..j] == p[..j];
      InsertShape(p[..n], x, j);
      assert p[j..] == p[..n][j..] + [p[n]];
    }
  }

  /** One step of the insertion sort: moves `a[i]` left past the entries of `a[..i]` stamped later than it. */
  method InsertAt(a: array<Move>, i: nat)
    requires i < a.Length
    modifies a
    ensures a[..i + 1] == Insert(old(a[..i]), old(a[i]))
    ensures forall k :: i < k < a.Length ==> a[k] == old(a[k])
  {
    var x := a[i];
    ghost var prefix := a[..i];
    var j := i;
    while j > 0 && a[j - 1].time > x.time
      invariant 0 <= j <= i
      invariant forall k :: 0 <= k < j ==> a[k] == prefix[k]
      invariant forall k :: j < k <= i ==> a[k] == prefix[k - 1]
      invariant forall k :: i < k < a.Length ==> a[k] == old(a[k])
      invariant forall k :: j <= k < i ==> prefix[k].time > x.time
    {
      a[j] := a[j - 1];
      j := j - 1;
    }
    a[j] := x;
    InsertShape(prefix, x, j);
    assert a[..i + 1] == prefix[..j] + [x] + prefix[j..];
  }

  /** The in-place sort of `listMove`: an insertion sort, stable like Node's. */
  method SortByTime(a: array<Move>)
    modifies a
    ensures a[..] == StableSort(old(a[..]))
  {
    ghost var s0 := a[..];
    var i := 0;
    while i < a.Length
      invariant 0 <= i <= a.Length
      invariant a[..i] == StableSort(s0[..i])
      invariant forall k :: i <= k < a.Length ==> a[k] == s0[k]
    {
      InsertAt(a, i);
      assert s0[..i + 1][..i] == s0[..i];
      i := i + 1;
    }
    assert s0[..a.Length] == s0;
  }
}

/**
 * The `forEach` over the sorted `listMove`: each entry's segment lasts until
 * the next entry, the last one until "now", and each duration is added into
 * `times`, a dictionary from list id to milliseconds.
 */
module Residency {
  import opened CardTypes
  import opened TimeSort

  /** The duration of segment `i`: up to the next entry, or up to `now` for the last one. */
  function Duration(s: seq<Move>, now: int, i: nat): (d: int)
    requires i < |s|
  {
    if i + 1 < |s| then s[i + 1].time - s[i].time else now - s[i].time
  }

  /** `times[list] += d`, starting from 0 when `list` is not yet a key. */
  function AddTo(times: map<ListId, int>, list: ListId, d: int): (updated: map<ListId, int>) {
    times[list := (if list in times then times[list] else 0) + d]
  }

  /** `times` once the loop has handled the first `k` entries. */
  function TotalsUpTo(s: seq<Move>, now: int, k: nat): (times: map<ListId, int>)
    requires k <= |s|
  {
    if k == 0 then map[] else AddTo(TotalsUpTo(s, now, k - 1), s[k - 1].list, Duration(s, now, k - 1))
  }

  /** The final `times` of a card whose sorted moves are `s`. */
  function Totals(s: seq<Move>, now: int): (times: map<ListId, int>) {
    TotalsUpTo(s, now, |s|)
  }

  /** Reference definition: the sum of the durations of the segments before `k` spent in `list`. */
  function ListTime(s: seq<Move>, now: int, list: ListId, k: nat): (total: int)
    requires k <= |s|
  {
    if k == 0 then 0
    else ListTime(s, now, list, k - 1) + (if s[k - 1].list == list then Duration(s, now, k - 1) else 0)
  }

  /** The sum of the durations of the segments before `k`. */
  function SumDurations(s: seq<Move>, now: int, k: nat): (total: int)
    requires k <= |s|
  {
    if k == 0 then 0 else SumDurations(s, now, k - 1) + Duration(s, now, k - 1)
  }

  /** The lists of the first `k` segments, each once, in order of first entry (the key order of `times`). */
  function Visited(s: seq<Move>, k: nat): (keys: seq<ListId>)
    requires k <= |s|
  {
    if k == 0 then [] else AddKey(Visited(s, k - 1), s[k - 1].list)
  }

  /** `keys` with `list` appended unless it is already there. */
  function AddKey(keys: seq<ListId>, list: ListId): (extended: seq<ListId>) {
    if list in keys then keys else keys + [list]
  }

  predicate Distinct(keys: seq<ListId>) {
    forall i, j :: 0 <= i < j < |keys| ==> keys[i] != keys[j]
  }

  /** The sum of `m` over `keys` (a key absent from `m` adds nothing). */
  function SumOver(m: map<ListId, int>, keys: seq<ListId>): (total: int) {
    if keys == [] then 0
    else
      var key := keys[|keys| - 1];
      SumOver(m, keys[..|keys| - 1]) + (if key in m then m[key] else 0)
  }

  /** The keys of `times` are exactly the lists the card's segments were in. */
  lemma {:induction false} TotalsKeys(s: seq<Move>, now: int, k: nat)
    requires k <= |s|
    ensures TotalsUpTo(s, now, k).Keys == set i | 0 <= i < k :: s[i].list
  {
    if k > 0 {
      TotalsKeys(s, now, k - 1);
      assert (set i | 0 <= i < k :: s[i].list) == (set i | 0 <= i < k - 1 :: s[i].list) + {s[k - 1].list};
    }
  }

  /** Re-entries accumulate: `times[list]` is the sum of every segment spent in `list`. */
  lemma {:induction false} TotalsAccumulate(s: seq<Move>, now: int, k: nat, list: ListId)
    requires k <= |s|
    ensures list in TotalsUpTo(s, now, k) ==> TotalsUpTo(s, now, k)[list] == ListTime(s, now, list, k)
    ensures list !in TotalsUpTo(s, now, k) ==> ListTime(s, now, list, k) == 0
  {
    if k > 0 {
      TotalsAccumulate(s, now, k - 1, list);
    }
  }

  /** The durations telescope: they add up to the time from the first entry to the next one or to `now`. */
  lemma {:induction false} Telescope(s: seq<Move>, now: int, k: nat)
    requires 0 < k <= |s|
    ensures SumDurations(s, now, k) == (if k < |s| then s[k].time else now) - s[0].time
  {
    if k > 1 {
      Telescope(s, now, k - 1);
    }
  }

  /** The key order of `times`: every visited list once, and nothing else. */
  lemma {:induction false} VisitedKeys(s: seq<Move>, now: int, k: nat)
    requires k <= |s|
    ensures Distinct(Visited(s, k))
    ensures forall list :: list in Visited(s, k) <==> list in TotalsUpTo(s, now, k)
  {
    if k > 0 {
      VisitedKeys(s, now, k - 1);
    }
  }

  lemma {:induction false} SumOverUnchanged(m: map<ListId, int>, keys: seq<ListId>, list: ListId, v: int)
    requires list !in keys
    ensures SumOver(m[list := v], keys) == SumOver(m, keys)
  {
    if keys != [] {
      SumOverUnchanged(m, keys[..|keys| - 1], list, v);
    }
  }

  lemma {:induction false} SumOverAdd(m: map<ListId, int>, keys: seq<ListId>, list: ListId, d: int)
    requires Distinct(keys) && list in keys && list in m
    ensures SumOver(m[list := m[list] + d], keys) == SumOver(m, keys) + d
  {
    var n := |keys| - 1;
    var init := keys[..n];
    assert Distinct(init);
    if keys[n] == list {
      assert list !in init;
      SumOverUnchanged(m, init, list, m[list] + d);
    } else {
      assert list in init;
      SumOverAdd(m, init, list, d);
    }
  }

  /** Summing `times` over its keys gives the sum of all segment durations. */
  lemma {:induction false} SumOfTotals(s: seq<Move>, now: int, k: nat)
    requires k <= |s|
    ensures SumOver(TotalsUpTo(s, now, k), Visited(s, k)) == SumDurations(s, now, k)
  {
    if k > 0 {
      SumOfTotals(s, now, k - 1);
      var m, v, list := TotalsUpTo(s, now, k - 1), Visited(s, k - 1), s[k - 1].list;
      VisitedKeys(s, now, k - 1);
      SumOverStep(m, v, list, Duration(s, now, k - 1));
    }
  }

  /** One iteration of the loop adds its duration to the sum of `times` over its keys. */
  lemma SumOverStep(m: map<ListId, int>, keys: seq<ListId>, list: ListId, d: int)
    requires Distinct(keys)
    requires list in keys <==> list in m
    ensures SumOver(AddTo(m, list, d), AddKey(keys, list)) == SumOver(m, keys) + d
  {
    if list in keys {
      SumOverAdd(m, keys, list, d);
    } else {
      var m' := m[list := d];
      assert (keys + [list])[..|keys|] == keys;
      SumOverUnchanged(m, keys, list, d);
      assert SumOver(m', keys + [list]) == SumOver(m', keys) + d;
    }
  }

  /**
   * Partition law: the totals in `times` add up to `now` minus the
   * earliest entry, which for a sorted `listMove` is its first one.
   */
  lemma Partition(s: seq<Move>, now: int)
    requires s != []
    ensures SumOver(Totals(s, now), Visited(s, |s|)) == now - s[0].time
  {
    SumOfTotals(s, now, |s|);
    Telescope(s, now, |s|);
  }

  /** In sorted order no segment but the last can have a negative duration; the last is negative exactly when `now` precedes its entry. */
  lemma SegmentsNonNegative(s: seq<Move>, now: int, i: nat)
    requires SortedByTime(s) && i < |s|
    ensures i + 1 < |s| ==> Duration(s, now, i) >= 0
    ensures i + 1 == |s| ==> (Duration(s, now, i) < 0 <==> now < s[i].time)
  {
  }

  /** When `now` is not before the last entry, every total of a sorted `listMove` is non-negative. */
  lemma {:induction false} TotalsNonNegative(s: seq<Move>, now: int, k: nat)
    requires SortedByTime(s) && k <= |s|
    requires s != [] ==> now >= s[|s| - 1].time
    ensures forall list :: list in TotalsUpTo(s, now, k) ==> TotalsUpTo(s, now, k)[list] >= 0
  {
    if k > 0 {
      TotalsNonNegative(s, now, k - 1);
      assert Duration(s, now, k - 1) >= 0;
    }
  }

  /**
   * The `forEach` of the source over the sorted array: the last entry's
   * segment ends at `now`, every other at the next entry; `times[list]` is
   * reset to 0 when absent or 0 (the `!times[list]` test), then incremented.
   */
  method Aggregate(listMove: array<Move>, now: int) returns (times: map<ListId, int>)
    ensures times == Totals(listMove[..], now)
  {
    times := map[];
    var i := 0;
    while i < listMove.Length
      invariant 0 <= i <= listMove.Length
      invariant times == TotalsUpTo(listMove[..], now, i)
    {
      var action := listMove[i];
      var diff;
      if i + 1 >= listMove.Length {
        diff := now - action.time;
      } else {
        diff := listMove[i + 1].time - action.time;
      }
      if action.list !in times || times[action.list] == 0 {
        times := times[action.list := 0];
      }
      times := times[action.list := times[action.list] + diff];
      i := i + 1;
    }
  }
}

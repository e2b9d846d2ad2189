// store/tree/tree.go: the expiring entries of one namespace.

module ExpiryTree {
  import opened ByteStrings
  import opened Wrappers
  import opened Expiry
  import opened WallClock

  // What the red-black tree of one namespace holds: per key, the expiry seconds of
  // its entries. A key may be bound to an empty list until the next visit removes it.
  type Content = map<Bytes, seq<int>>

  function ListAt(content: Content, key: Bytes): seq<int> {
    if key in content then content[key] else []
  }

  // The effect and the answer of `Tree.Count` with the clock reading `now`.
  function Counted(content: Content, key: Bytes, now: int): (Content, nat) {
    if key !in content then (content, 0)
    else if content[key] == [] then (content - {key}, 0)
    else (content[key := Live(content[key], now)], |Live(content[key], now)|)
  }

  // The effect of `Tree.Put`, which reads the clock twice.
  function WithEntry(content: Content, key: Bytes, ttl: int, filterTime: int, stamp: int): Content {
    content[key := Live(ListAt(content, key), filterTime) + [stamp + ttl]]
  }

  // One sweep of `Tree.Keys`: the keys it visited and the clock reading at each.
  datatype Visit = Visit(keys: seq<Bytes>, times: seq<int>)

  function Matching(keys: seq<Bytes>, matches: Bytes -> bool): seq<Bytes> {
    if keys == [] then []
    else
      var last := |keys| - 1;
      Matching(keys[..last], matches) + (if matches(keys[last]) then [keys[last]] else [])
  }

  datatype SweepResult = SweepResult(content: Content, kept: seq<Bytes>, total: nat)

  // The effect and the answers of `Tree.Keys`.
  function Swept(content: Content, keys: seq<Bytes>, times: seq<int>): SweepResult
    requires |keys| == |times|
  {
    if keys == [] then SweepResult(content, [], 0)
    else
      var last := |keys| - 1;
      var before := Swept(content, keys[..last], times[..last]);
      var (after, n) := Counted(before.content, keys[last], times[last]);
      SweepResult(after, if n == 0 then before.kept else before.kept + [keys[last]], before.total + n)
  }

  lemma SweptSnoc(content: Content, keys: seq<Bytes>, times: seq<int>, key: Bytes, now: int)
    requires |keys| == |times|
    ensures var before := Swept(content, keys, times);
            var (after, n) := Counted(before.content, key, now);
            Swept(content, keys + [key], times + [now])
            == SweepResult(after, if n == 0 then before.kept else before.kept + [key], before.total + n)
  {
    assert (keys + [key])[..|keys|] == keys && (times + [now])[..|times|] == times;
  }

  ghost predicate Nondecreasing(times: seq<int>, from: int, to: int) {
    && from <= to
    && (forall i | 0 <= i < |times| :: from <= times[i] <= to)
    && (forall i, j | 0 <= i < j < |times| :: times[i] <= times[j])
  }

  lemma NondecreasingSnoc(times: seq<int>, from: int, to: int, now: int)
    requires Nondecreasing(times, from, to) && to <= now
    ensures Nondecreasing(times + [now], from, now)
    ensures Nondecreasing(times, from, now)
  {
  }

  // A sweep visits every key the tree has when it starts, once, with the clock between
  // `from` and `to`.
  ghost predicate VisitOf(content: Content, visit: Visit, from: int, to: int) {
    && |visit.keys| == |visit.times|
    && Enumerates(visit.keys, content.Keys)
    && Nondecreasing(visit.times, from, to)
  }

  class Tree {
    const ttl: int
    var tree: Content

    constructor (ttl: int)
      ensures this.ttl == ttl && tree == map[]
    {
      this.ttl := ttl;
      tree := map[];
    }

    // `removeExpired`: reads the clock unless the list is empty.
    static method RemoveExpired(dates: seq<int>, clock: Clock) returns (out: seq<int>)
      modifies clock
      ensures old(clock.now) <= clock.now
      ensures out == Live(dates, clock.now)
    {
      if dates == [] {
        return dates;
      }
      var now := clock.Now();
      out := [];
      for i := 0 to |dates|
        invariant out == Live(dates[..i], now)
        invariant clock.now == now
      {
        assert dates[..i + 1][..i] == dates[..i];
        if dates[i] > now {
          out := out + [dates[i]];
        }
      }
      assert dates[..|dates|] == dates;
    }

    // `getAndCleanupUnsafe`: an empty list left behind by an earlier visit is removed.
    method GetAndCleanup(key: Bytes) returns (dates: Option<seq<int>>)
      modifies this
      ensures dates == if ListAt(old(tree), key) == [] then None else Some(old(tree)[key])
      ensures tree == if key in old(tree) && old(tree)[key] == [] then old(tree) - {key} else old(tree)
    {
      if key !in tree {
        return None;
      }
      if tree[key] == [] {
        tree := tree - {key};
        return None;
      }
      return Some(tree[key]);
    }

    // The second emptiness test of the source cannot fire: what GetAndCleanup returns is
    // never empty.
    method Count(key: Bytes, clock: Clock) returns (count: nat)
      modifies this, clock
      ensures old(clock.now) <= clock.now
      ensures (tree, count) == Counted(old(tree), key, clock.now)
    {
      var dates := GetAndCleanup(key);
      if dates.None? {
        return 0;
      }
      var live := RemoveExpired(dates.value, clock);
      tree := tree[key := live];
      count := |live|;
    }

    method Put(key: Bytes, clock: Clock) returns (ghost filterTime: int)
      modifies this, clock
      ensures old(clock.now) <= filterTime <= clock.now
      ensures tree == WithEntry(old(tree), key, ttl, filterTime, clock.now)
    {
      var dates := GetAndCleanup(key);
      var list := if dates.None? then [] else dates.value;
      list := RemoveExpired(list, clock);
      filterTime := clock.now;
      var secs := clock.Now();
      tree := tree[key := list + [secs + ttl]];
    }

    // Counts every key the tree has on entry, in order, one lock region per key.
    method Keys(clock: Clock) returns (outKeys: seq<Bytes>, outCount: nat, ghost visit: Visit)
      modifies this, clock
      ensures VisitOf(old(tree), visit, old(clock.now), clock.now) && Ascending(visit.keys)
      ensures SweepResult(tree, outKeys, outCount) == Swept(old(tree), visit.keys, visit.times)
    {
      var keys := InOrder(tree.Keys);
      ghost var times: seq<int> := [];
      outKeys, outCount := [], 0;
      for i := 0 to |keys|
        invariant |times| == i && Nondecreasing(times, old(clock.now), clock.now)
        invariant SweepResult(tree, outKeys, outCount) == Swept(old(tree), keys[..i], times)
      {
        hide Swept, Counted, Nondecreasing;
        PrefixSnoc(keys, i);
        ghost var from := clock.now;
        var n := Count(keys[i], clock);
        NondecreasingSnoc(times, old(clock.now), from, clock.now);
        SweptSnoc(old(tree), keys[..i], times, keys[i], clock.now);
        times := times + [clock.now];
        outCount := outCount + n;
        if n != 0 {
          outKeys := outKeys + [keys[i]];
        }
      }
      assert keys[..|keys|] == keys;
      visit := Visit(keys, times);
    }

    // Counts the keys that match, in order. `matches` stands for the compiled pattern.
    method KeyMatch(matches: Bytes -> bool, clock: Clock) returns (out: seq<Bytes>, ghost all: seq<Bytes>,
                    ghost times: seq<int>)
      modifies this, clock
      ensures Ascending(all) && Enumerates(all, old(tree).Keys)
      ensures |times| == |Matching(all, matches)| && Nondecreasing(times, old(clock.now), clock.now)
      ensures tree == Swept(old(tree), Matching(all, matches), times).content
      ensures out == Swept(old(tree), Matching(all, matches), times).kept
    {
      var keys := InOrder(tree.Keys);
      ghost var chosen, total: nat := [], 0;
      times := [];
      out := [];
      for i := 0 to |keys|
        invariant chosen == Matching(keys[..i], matches)
        invariant |times| == |chosen| && Nondecreasing(times, old(clock.now), clock.now)
        invariant SweepResult(tree, out, total) == Swept(old(tree), chosen, times)
      {
        assert keys[..i + 1][..i] == keys[..i];
        assert Matching(keys[..i + 1], matches) == chosen + (if matches(keys[i]) then [keys[i]] else []);
        hide Swept, Counted, Nondecreasing, Matching;
        if matches(keys[i]) {
          ghost var from := clock.now;
          var n := Count(keys[i], clock);
          NondecreasingSnoc(times, old(clock.now), from, clock.now);
          SweptSnoc(old(tree), chosen, times, keys[i], clock.now);
          times := times + [clock.now];
          chosen := chosen + [keys[i]];
          total := total + n;
          if n > 0 {
            out := out + [keys[i]];
          }
        }
      }
      assert keys[..|keys|] == keys;
      all := keys;
    }
  }
}

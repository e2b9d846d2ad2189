// What one pass over a tree's keys does to it, key by key.

module TreeSweeps {
  import opened ByteStrings
  import opened Expiry
  import opened ExpiryTree

  // Keys the sweep does not visit are left alone.
  lemma {:induction false} UnvisitedIsKept(content: Content, keys: seq<Bytes>, times: seq<int>, key: Bytes)
    requires |keys| == |times| && key !in keys
    ensures key in Swept(content, keys, times).content <==> key in content
    ensures key in content ==> Swept(content, keys, times).content[key] == content[key]
  {
    if keys != [] {
      var last := |keys| - 1;
      UnvisitedIsKept(content, keys[..last], times[..last], key);
    }
  }

  // A visited key is dropped if its list was empty already, and otherwise keeps what is
  // live at its own reading.
  lemma {:induction false} VisitedIsCounted(content: Content, keys: seq<Bytes>, times: seq<int>, i: nat)
    requires |keys| == |times| && i < |keys| && Distinct(keys)
    ensures var after := Swept(content, keys, times).content;
            && (keys[i] in after <==> ListAt(content, keys[i]) != [])
            && ListAt(after, keys[i]) == Live(ListAt(content, keys[i]), times[i])
  {
    var last := |keys| - 1;
    if i == last {
      UnvisitedIsKept(content, keys[..last], times[..last], keys[last]);
    } else {
      VisitedIsCounted(content, keys[..last], times[..last], i);
    }
  }

  function Sum(counts: seq<nat>): nat {
    if counts == [] then 0 else Sum(counts[..|counts| - 1]) + counts[|counts| - 1]
  }

  function LiveCounts(content: Content, keys: seq<Bytes>, times: seq<int>): (counts: seq<nat>)
    requires |keys| == |times|
    ensures |counts| == |keys|
  {
    seq(|keys|, i requires 0 <= i < |keys| => |Live(ListAt(content, keys[i]), times[i])|)
  }

  // The total of a sweep is the sum of what each key's list had live at its own reading.
  lemma {:induction false} TotalIsSum(content: Content, keys: seq<Bytes>, times: seq<int>)
    requires |keys| == |times| && Distinct(keys)
    ensures Swept(content, keys, times).total == Sum(LiveCounts(content, keys, times))
  {
    if keys != [] {
      var last := |keys| - 1;
      TotalIsSum(content, keys[..last], times[..last]);
      UnvisitedIsKept(content, keys[..last], times[..last], keys[last]);
      assert LiveCounts(content, keys, times)[..last] == LiveCounts(content, keys[..last], times[..last]);
    }
  }

  // The keys a sweep answers are the visited keys with something live, in visiting order.
  lemma {:induction false} KeptAreLive(content: Content, keys: seq<Bytes>, times: seq<int>)
    requires |keys| == |times| && Distinct(keys)
    ensures forall k :: k in Swept(content, keys, times).kept <==>
              exists i | 0 <= i < |keys| :: keys[i] == k && Live(ListAt(content, k), times[i]) != []
    ensures Ascending(keys) ==> Ascending(Swept(content, keys, times).kept)
  {
    if keys != [] {
      var last := |keys| - 1;
      var before := Swept(content, keys[..last], times[..last]);
      KeptAreLive(content, keys[..last], times[..last]);
      UnvisitedIsKept(content, keys[..last], times[..last], keys[last]);
      var kept := Swept(content, keys, times).kept;
      forall k
        ensures k in kept <==> exists i | 0 <= i < |keys| :: keys[i] == k && Live(ListAt(content, k), times[i]) != []
      {
        if k in before.kept {
          var i :| 0 <= i < last && keys[..last][i] == k && Live(ListAt(content, k), times[..last][i]) != [];
          assert keys[i] == k;
        }
        if i :| 0 <= i < |keys| && keys[i] == k && Live(ListAt(content, k), times[i]) != [] {
          if i < last {
            assert keys[..last][i] == k && times[..last][i] == times[i];
          }
        }
      }
      if Ascending(keys) {
        forall j | 0 <= j < |before.kept|
          ensures Below(before.kept[j], keys[last])
        {
          assert before.kept[j] in before.kept;
        }
      }
    }
  }

  // A sweep over some keys changes nothing a later count can tell.
  lemma SweepIsUnobservable(content: Content, keys: seq<Bytes>, times: seq<int>, from: int, to: int, key: Bytes)
    requires |keys| == |times| && Distinct(keys) && Nondecreasing(times, from, to)
    ensures Live(ListAt(Swept(content, keys, times).content, key), to) == Live(ListAt(content, key), to)
  {
    if key in keys {
      var i :| 0 <= i < |keys| && keys[i] == key;
      VisitedIsCounted(content, keys, times, i);
      LiveLive(ListAt(content, key), times[i], to);
    } else {
      UnvisitedIsKept(content, keys, times, key);
    }
  }

  // ---- Two-sweep reclamation ----

  // A sweep leaves no key that it found bound to an empty list, and no new key.
  lemma SweptKeys(content: Content, visit: Visit, from: int, to: int, key: Bytes)
    requires VisitOf(content, visit, from, to)
    ensures key in Swept(content, visit.keys, visit.times).content <==> ListAt(content, key) != []
  {
    if key in visit.keys {
      var i :| 0 <= i < |visit.keys| && visit.keys[i] == key;
      VisitedIsCounted(content, visit.keys, visit.times, i);
    } else {
      UnvisitedIsKept(content, visit.keys, visit.times, key);
    }
  }

  // After two sweeps with no put between, a key whose entries had all expired when the
  // first sweep began is gone, and a key with an entry live after both is there.
  lemma TwoSweepsReclaim(content: Content, first: Visit, second: Visit, start: int, middle: int, end: int, key: Bytes)
    requires VisitOf(content, first, start, middle)
    requires VisitOf(Swept(content, first.keys, first.times).content, second, middle, end)
    ensures var once := Swept(content, first.keys, first.times).content;
            var twice := Swept(once, second.keys, second.times).content;
            && (Live(ListAt(content, key), start) == [] ==> key !in twice)
            && (Live(ListAt(content, key), end) != [] ==> key in twice)
            && (start == end ==> (key in twice <==> Live(ListAt(content, key), start) != []))
  {
    var once := Swept(content, first.keys, first.times).content;
    SweptKeys(once, second, middle, end, key);
    if key in first.keys {
      var i :| 0 <= i < |first.keys| && first.keys[i] == key;
      VisitedIsCounted(content, first.keys, first.times, i);
      LiveShrinks(ListAt(content, key), start, first.times[i]);
      LiveShrinks(ListAt(content, key), first.times[i], end);
    } else {
      UnvisitedIsKept(content, first.keys, first.times, key);
    }
  }

  // ---- Expiry lists stay sorted ----

  // Every list is nondecreasing and no expiry is later than a put now would give.
  ghost predicate ListsSorted(content: Content, latest: int) {
    forall key | key in content :: Sorted(content[key]) && forall x | x in content[key] :: x <= latest
  }

  lemma {:induction false} LiveIsSorted(expiries: seq<int>, now: int)
    requires Sorted(expiries)
    ensures Sorted(Live(expiries, now))
  {
    if expiries != [] {
      var front, last := expiries[..|expiries| - 1], expiries[|expiries| - 1];
      LiveIsSorted(front, now);
      LiveMembers(front, now);
      assert forall x | x in front :: x <= last;
      assert forall i | 0 <= i < |Live(front, now)| :: Live(front, now)[i] in Live(front, now);
    }
  }

  lemma PutKeepsListsSorted(content: Content, key: Bytes, ttl: int, filterTime: int, stamp: int)
    requires ListsSorted(content, stamp + ttl)
    ensures ListsSorted(WithEntry(content, key, ttl, filterTime, stamp), stamp + ttl)
  {
    var list := ListAt(content, key);
    LiveIsSorted(list, filterTime);
    LiveMembers(list, filterTime);
    assert forall i | 0 <= i < |Live(list, filterTime)| :: Live(list, filterTime)[i] in Live(list, filterTime);
  }

  lemma CountKeepsListsSorted(content: Content, key: Bytes, now: int, latest: int)
    requires ListsSorted(content, latest)
    ensures ListsSorted(Counted(content, key, now).0, latest)
  {
    if key in content {
      LiveIsSorted(content[key], now);
      LiveMembers(content[key], now);
    }
  }

  lemma {:induction false} SweepKeepsListsSorted(content: Content, keys: seq<Bytes>, times: seq<int>, latest: int)
    requires |keys| == |times| && ListsSorted(content, latest)
    ensures ListsSorted(Swept(content, keys, times).content, latest)
  {
    if keys != [] {
      var last := |keys| - 1;
      SweepKeepsListsSorted(content, keys[..last], times[..last], latest);
      CountKeepsListsSorted(Swept(content, keys[..last], times[..last]).content, keys[last], times[last], latest);
    }
  }

  // How many entries at the front have expired.
  function Expired(expiries: seq<int>, now: int): (n: nat)
    ensures n <= |expiries|
  {
    if expiries == [] || expiries[0] > now then 0 else 1 + Expired(expiries[1..], now)
  }

  lemma {:induction false} NoneLive(expiries: seq<int>, now: int)
    requires forall i | 0 <= i < |expiries| :: expiries[i] <= now
    ensures Live(expiries, now) == []
  {
    if expiries != [] {
      NoneLive(expiries[..|expiries| - 1], now);
    }
  }

  // On a sorted list the filter drops a prefix: the early discard the source's TODO
  // suggests gives the same list.
  lemma {:induction false} FilterDropsAPrefix(expiries: seq<int>, now: int)
    requires Sorted(expiries)
    ensures Live(expiries, now) == expiries[Expired(expiries, now)..]
  {
    if expiries != [] {
      var front, last := expiries[..|expiries| - 1], expiries[|expiries| - 1];
      FilterDropsAPrefix(front, now);
      ExpiredSnoc(front, last, now);
      assert expiries == front + [last];
      if last <= now {
        NoneLive(front, now);
      }
    }
  }

  lemma {:induction false} ExpiredSnoc(front: seq<int>, last: int, now: int)
    ensures Expired(front + [last], now)
         == if Expired(front, now) == |front| && last <= now then |front| + 1 else Expired(front, now)
  {
    if front == [] {
      assert [last][1..] == [];
    } else {
      ExpiredSnoc(front[1..], last, now);
      assert (front + [last])[1..] == front[1..] + [last];
    }
  }
}

// The store against the plain put log: expired entries, empty lists and removed
// namespaces cannot be told from the answers of any run.

module StoreRefinement {
  import opened ByteStrings
  import opened Expiry
  import opened ExpiryTree
  import opened ExpiryStore
  import opened TreeSweeps
  import PutLog

  type Log = seq<PutLog.Entry>

  // The expiries of the log's entries at (ns, key).
  function Expiries(log: Log, ns: Bytes, key: Bytes, ttl: int): seq<int> {
    if log == [] then []
    else
      var rest, e := Expiries(log[..|log| - 1], ns, key, ttl), log[|log| - 1];
      if e.ns == ns && e.key == key then rest + [e.stamp + ttl] else rest
  }

  lemma {:induction false} CountIsLive(log: Log, ns: Bytes, key: Bytes, ttl: int, now: int)
    ensures PutLog.Count(log, ns, key, ttl, now) == |Live(Expiries(log, ns, key, ttl), now)|
  {
    if log != [] {
      var front, e := log[..|log| - 1], log[|log| - 1];
      CountIsLive(front, ns, key, ttl, now);
      LiveSnoc(Expiries(front, ns, key, ttl), e.stamp + ttl, now);
    }
  }

  // Some put to `ns` is in the log.
  ghost predicate Named(log: Log, ns: Bytes) {
    exists i :: 0 <= i < |log| && log[i].ns == ns
  }

  // The store holds no namespace nobody put.
  ghost predicate FromLog(spaces: Spaces, log: Log) {
    forall ns | ns in spaces :: Named(log, ns)
  }

  // At `now`, store and log agree on what is live at every key, entry by entry, and the
  // store's namespaces come from the log.
  ghost predicate Refines(spaces: Spaces, log: Log, ttl: int, now: int) {
    FromLog(spaces, log)
    && forall ns, key :: Live(ListAt(SpaceAt(spaces, ns), key), now) == Live(Expiries(log, ns, key, ttl), now)
  }

  lemma RefinesLater(spaces: Spaces, log: Log, ttl: int, now: int, later: int)
    requires Refines(spaces, log, ttl, now) && now <= later
    ensures Refines(spaces, log, ttl, later)
  {
    forall ns, key
      ensures Live(ListAt(SpaceAt(spaces, ns), key), later) == Live(Expiries(log, ns, key, ttl), later)
    {
      LiveLive(ListAt(SpaceAt(spaces, ns), key), now, later);
      LiveLive(Expiries(log, ns, key, ttl), now, later);
    }
  }

  lemma ExpiriesSnoc(log: Log, e: PutLog.Entry, ns: Bytes, key: Bytes, ttl: int)
    ensures Expiries(log + [e], ns, key, ttl)
         == Expiries(log, ns, key, ttl) + (if e.ns == ns && e.key == key then [e.stamp + ttl] else [])
  {
    assert (log + [e])[..|log|] == log;
  }

  lemma PutRefines(spaces: Spaces, log: Log, ttl: int, now: int, ns: Bytes, key: Bytes, filterTime: int, stamp: int)
    requires Refines(spaces, log, ttl, now) && now <= filterTime <= stamp
    ensures Refines(WithPut(spaces, ns, key, ttl, filterTime, stamp), log + [PutLog.Entry(ns, key, stamp)], ttl, stamp)
  {
    RefinesLater(spaces, log, ttl, now, stamp);
    PutIsFromLog(spaces, log, ttl, PutLog.Entry(ns, key, stamp), filterTime);
    hide FromLog, Live, Expiries, WithPut;
    var after, more := WithPut(spaces, ns, key, ttl, filterTime, stamp), log + [PutLog.Entry(ns, key, stamp)];
    forall n, k
      ensures Live(ListAt(SpaceAt(after, n), k), stamp) == Live(Expiries(more, n, k, ttl), stamp)
    {
      assert Live(ListAt(SpaceAt(spaces, n), k), stamp) == Live(Expiries(log, n, k, ttl), stamp);
      PutAgrees(spaces, log, ttl, ns, key, filterTime, stamp, n, k);
    }
  }

  lemma PutAgrees(spaces: Spaces, log: Log, ttl: int, ns: Bytes, key: Bytes, filterTime: int, stamp: int,
                  n: Bytes, k: Bytes)
    requires filterTime <= stamp
    requires Live(ListAt(SpaceAt(spaces, n), k), stamp) == Live(Expiries(log, n, k, ttl), stamp)
    ensures Live(ListAt(SpaceAt(WithPut(spaces, ns, key, ttl, filterTime, stamp), n), k), stamp)
         == Live(Expiries(log + [PutLog.Entry(ns, key, stamp)], n, k, ttl), stamp)
  {
    var list := ListAt(SpaceAt(spaces, n), k);
    ExpiriesSnoc(log, PutLog.Entry(ns, key, stamp), n, k, ttl);
    PutLists(spaces, ns, key, ttl, filterTime, stamp, n, k);
    hide Live, Expiries, WithPut, SpaceAt, ListAt;
    if n == ns && k == key {
      LiveSnoc(Live(list, filterTime), stamp + ttl, stamp);
      LiveLive(list, filterTime, stamp);
      LiveSnoc(Expiries(log, n, k, ttl), stamp + ttl, stamp);
    } else {
      assert Expiries(log, n, k, ttl) + [] == Expiries(log, n, k, ttl);
    }
  }

  lemma PutIsFromLog(spaces: Spaces, log: Log, ttl: int, e: PutLog.Entry, filterTime: int)
    requires FromLog(spaces, log)
    ensures FromLog(WithPut(spaces, e.ns, e.key, ttl, filterTime, e.stamp), log + [e])
  {
    forall ns | ns in WithPut(spaces, e.ns, e.key, ttl, filterTime, e.stamp)
      ensures Named(log + [e], ns)
    {
      if ns == e.ns {
        assert (log + [e])[|log|].ns == ns;
      } else {
        assert Named(log, ns);
        var i :| 0 <= i < |log| && log[i].ns == ns;
        assert (log + [e])[i].ns == ns;
      }
    }
  }

  // A put changes the list of its own key and no other.
  lemma PutLists(spaces: Spaces, ns: Bytes, key: Bytes, ttl: int, filterTime: int, stamp: int, n: Bytes, k: Bytes)
    ensures ListAt(SpaceAt(WithPut(spaces, ns, key, ttl, filterTime, stamp), n), k)
         == if n == ns && k == key then Live(ListAt(SpaceAt(spaces, n), k), filterTime) + [stamp + ttl]
            else ListAt(SpaceAt(spaces, n), k)
  {
  }

  lemma CountRefines(spaces: Spaces, log: Log, ttl: int, now: int, ns: Bytes, key: Bytes, at: int)
    requires Refines(spaces, log, ttl, now) && now <= at
    ensures Refines(CountedIn(spaces, ns, key, at).0, log, ttl, at)
    ensures CountedIn(spaces, ns, key, at).1 == PutLog.Count(log, ns, key, ttl, at)
  {
    RefinesLater(spaces, log, ttl, now, at);
    CountIsLive(log, ns, key, ttl, at);
    hide Live, Expiries, CountedIn, PutLog.Count;
    var after, list := CountedIn(spaces, ns, key, at).0, ListAt(SpaceAt(spaces, ns), key);
    assert Live(list, at) == Live(Expiries(log, ns, key, ttl), at);
    CountedAnswer(spaces, ns, key, at);
    forall n, k
      ensures Live(ListAt(SpaceAt(after, n), k), at) == Live(Expiries(log, n, k, ttl), at)
    {
      CountedLists(spaces, ns, key, at, n, k);
      if n == ns && k == key {
        LiveLive(list, at, at);
      }
    }
  }

  lemma CountedAnswer(spaces: Spaces, ns: Bytes, key: Bytes, at: int)
    ensures CountedIn(spaces, ns, key, at).1 == |Live(ListAt(SpaceAt(spaces, ns), key), at)|
  {
  }

  // A count changes the list of its own key and no other.
  lemma CountedLists(spaces: Spaces, ns: Bytes, key: Bytes, at: int, n: Bytes, k: Bytes)
    ensures ListAt(SpaceAt(CountedIn(spaces, ns, key, at).0, n), k)
         == if n == ns && k == key then Live(ListAt(SpaceAt(spaces, n), k), at) else ListAt(SpaceAt(spaces, n), k)
  {
    assert Live([], at) == [];
  }

  lemma SweptRefines(spaces: Spaces, visits: map<Bytes, Visit>, log: Log, ttl: int, from: int, to: int)
    requires Refines(spaces, log, ttl, from) && VisitsOf(spaces, visits, from, to)
    ensures Refines(SweptSpaces(spaces, visits), log, ttl, to)
  {
    RefinesLater(spaces, log, ttl, from, to);
    var after := SweptSpaces(spaces, visits);
    forall ns, key
      ensures Live(ListAt(SpaceAt(after, ns), key), to) == Live(Expiries(log, ns, key, ttl), to)
    {
      if ns in visits {
        SweepIsUnobservable(spaces[ns], visits[ns].keys, visits[ns].times, from, to, key);
      }
    }
  }

  lemma PartialSweepRefines(spaces: Spaces, ns: Bytes, chosen: seq<Bytes>, times: seq<int>, log: Log, ttl: int,
                            from: int, to: int)
    requires Refines(spaces, log, ttl, from)
    requires |chosen| == |times| && Distinct(chosen) && Nondecreasing(times, from, to)
    ensures var after := if ns in spaces then spaces[ns := Swept(spaces[ns], chosen, times).content] else spaces;
            Refines(after, log, ttl, to)
  {
    RefinesLater(spaces, log, ttl, from, to);
    if ns in spaces {
      var after := spaces[ns := Swept(spaces[ns], chosen, times).content];
      forall n, key
        ensures Live(ListAt(SpaceAt(after, n), key), to) == Live(Expiries(log, n, key, ttl), to)
      {
        if n == ns {
          SweepIsUnobservable(spaces[ns], chosen, times, from, to, key);
          assert SpaceAt(spaces, ns) == spaces[ns];
        }
      }
    }
  }

  lemma {:induction false} MatchingChooses(keys: seq<Bytes>, matches: Bytes -> bool)
    requires Distinct(keys)
    ensures Distinct(Matching(keys, matches))
    ensures forall k :: k in Matching(keys, matches) <==> k in keys && matches(k)
    ensures Ascending(keys) ==> Ascending(Matching(keys, matches))
  {
    if keys != [] {
      var front := keys[..|keys| - 1];
      MatchingChooses(front, matches);
      assert keys == front + [keys[|keys| - 1]];
      if Ascending(keys) {
        forall j | 0 <= j < |Matching(front, matches)|
          ensures Below(Matching(front, matches)[j], keys[|keys| - 1])
        {
          assert Matching(front, matches)[j] in front;
        }
      }
    }
  }

  // From `from` on, the log counts what the store's list has live.
  lemma ListIsCounted(spaces: Spaces, log: Log, ttl: int, from: int, ns: Bytes, key: Bytes, t: int)
    requires Refines(spaces, log, ttl, from) && from <= t
    ensures PutLog.Count(log, ns, key, ttl, t) == |Live(ListAt(SpaceAt(spaces, ns), key), t)|
  {
    CountIsLive(log, ns, key, ttl, t);
    hide PutLog.Count, Live, Expiries;
    assert Live(ListAt(SpaceAt(spaces, ns), key), from) == Live(Expiries(log, ns, key, ttl), from);
    LiveLive(ListAt(SpaceAt(spaces, ns), key), from, t);
    LiveLive(Expiries(log, ns, key, ttl), from, t);
  }

  // KeyMatch answers matching keys that were live when it started, in order, each once,
  // and among them every matching key that is still live when it ends.
  lemma KeyMatchAnswersLiveKeys(spaces: Spaces, ns: Bytes, all: seq<Bytes>, times: seq<int>, matches: Bytes -> bool,
                                log: Log, ttl: int, from: int, to: int, key: Bytes)
    requires Refines(spaces, log, ttl, from) && Ascending(all) && Enumerates(all, SpaceAt(spaces, ns).Keys)
    requires |times| == |Matching(all, matches)| && Nondecreasing(times, from, to)
    ensures var out := Swept(SpaceAt(spaces, ns), Matching(all, matches), times).kept;
            && Ascending(out)
            && (key in out ==> matches(key) && PutLog.Count(log, ns, key, ttl, from) > 0)
            && (matches(key) && PutLog.Count(log, ns, key, ttl, to) > 0 ==> key in out)
  {
    var content, chosen := SpaceAt(spaces, ns), Matching(all, matches);
    MatchingChooses(all, matches);
    KeptAreLive(content, chosen, times);
    ListIsCounted(spaces, log, ttl, from, ns, key, from);
    ListIsCounted(spaces, log, ttl, from, ns, key, to);
    hide Refines, PutLog.Count, Live, Swept, Matching;
    if key in chosen {
      var i :| 0 <= i < |chosen| && chosen[i] == key;
      LiveShrinks(ListAt(content, key), from, times[i]);
      LiveShrinks(ListAt(content, key), times[i], to);
    } else if key !in content {
      NothingLive(to);
    }
  }

  lemma NothingLive(t: int)
    ensures |Live([], t)| == 0
  {
  }

  // A namespace whose sweep answered no key has no live entry.
  lemma EmptiedIsDead(content: Content, visit: Visit, from: int, to: int, key: Bytes)
    requires VisitOf(content, visit, from, to) && Swept(content, visit.keys, visit.times).kept == []
    ensures Live(ListAt(content, key), to) == []
  {
    if key in content {
      var i :| 0 <= i < |visit.keys| && visit.keys[i] == key;
      KeptAreLive(content, visit.keys, visit.times);
      assert key !in Swept(content, visit.keys, visit.times).kept;
      LiveShrinks(content[key], visit.times[i], to);
    }
  }

  lemma CollectedRefines(spaces: Spaces, visits: map<Bytes, Visit>, log: Log, ttl: int, from: int, to: int)
    requires Refines(spaces, log, ttl, from) && VisitsOf(spaces, visits, from, to)
    ensures Refines(Collected(spaces, visits), log, ttl, to)
  {
    RefinesLater(spaces, log, ttl, from, to);
    SweptRefines(spaces, visits, log, ttl, from, to);
    var after := Collected(spaces, visits);
    forall ns, key
      ensures Live(ListAt(SpaceAt(after, ns), key), to) == Live(Expiries(log, ns, key, ttl), to)
    {
      if ns in Emptied(spaces, visits) {
        EmptiedIsDead(spaces[ns], visits[ns], from, to, key);
        assert SpaceAt(spaces, ns) == spaces[ns];
        assert SpaceAt(after, ns) == map[];
      } else {
        assert SpaceAt(after, ns) == SpaceAt(SweptSpaces(spaces, visits), ns);
      }
    }
  }

  // ---- Sweeps against the log's totals ----

  lemma {:induction false} SumBump(counts: seq<nat>, j: nat)
    requires j < |counts|
    ensures Sum(counts[j := counts[j] + 1]) == Sum(counts) + 1
  {
    var last := |counts| - 1;
    if j < last {
      SumBump(counts[..last], j);
      assert counts[j := counts[j] + 1][..last] == counts[..last][j := counts[..last][j] + 1];
    } else {
      assert counts[j := counts[j] + 1][..last] == counts[..last];
    }
  }

  lemma {:induction false} SumMonotone(low: seq<nat>, high: seq<nat>)
    requires |low| == |high| && forall i | 0 <= i < |low| :: low[i] <= high[i]
    ensures Sum(low) <= Sum(high)
  {
    if low != [] {
      SumMonotone(low[..|low| - 1], high[..|high| - 1]);
    }
  }

  lemma {:induction false} SumOfZeros(counts: seq<nat>)
    requires forall i | 0 <= i < |counts| :: counts[i] == 0
    ensures Sum(counts) == 0
  {
    if counts != [] {
      SumOfZeros(counts[..|counts| - 1]);
    }
  }

  function KeyCounts(log: Log, ns: Bytes, keys: seq<Bytes>, ttl: int, now: int): (counts: seq<nat>)
    ensures |counts| == |keys|
  {
    seq(|keys|, i requires 0 <= i < |keys| => PutLog.Count(log, ns, keys[i], ttl, now))
  }

  ghost predicate CoversLive(log: Log, ns: Bytes, keys: seq<Bytes>, ttl: int, now: int) {
    forall i | 0 <= i < |log| && log[i].ns == ns && PutLog.LiveAt(log[i], ttl, now) :: log[i].key in keys
  }

  lemma {:induction false} NsCountIsSum(log: Log, ns: Bytes, keys: seq<Bytes>, ttl: int, now: int)
    requires Distinct(keys) && CoversLive(log, ns, keys, ttl, now)
    ensures PutLog.CountNs(log, ns, ttl, now) == Sum(KeyCounts(log, ns, keys, ttl, now))
  {
    if log == [] {
      SumOfZeros(KeyCounts(log, ns, keys, ttl, now));
    } else {
      var front, e := log[..|log| - 1], log[|log| - 1];
      assert forall i | 0 <= i < |front| :: front[i] == log[i];
      NsCountIsSum(front, ns, keys, ttl, now);
      var before, after := KeyCounts(front, ns, keys, ttl, now), KeyCounts(log, ns, keys, ttl, now);
      if e.ns == ns && PutLog.LiveAt(e, ttl, now) {
        assert log[|log| - 1].key in keys;
        var j :| 0 <= j < |keys| && keys[j] == e.key;
        SumBump(before, j);
        assert after == before[j := before[j] + 1];
      } else {
        assert after == before;
      }
    }
  }

  function NsCounts(log: Log, spaces: seq<Bytes>, ttl: int, now: int): (counts: seq<nat>)
    ensures |counts| == |spaces|
  {
    seq(|spaces|, i requires 0 <= i < |spaces| => PutLog.CountNs(log, spaces[i], ttl, now))
  }

  lemma {:induction false} AllCountIsSum(log: Log, spaces: seq<Bytes>, ttl: int, now: int)
    requires Distinct(spaces)
    requires forall i | 0 <= i < |log| && PutLog.LiveAt(log[i], ttl, now) :: log[i].ns in spaces
    ensures PutLog.CountAll(log, ttl, now) == Sum(NsCounts(log, spaces, ttl, now))
  {
    if log == [] {
      SumOfZeros(NsCounts(log, spaces, ttl, now));
    } else {
      var front, e := log[..|log| - 1], log[|log| - 1];
      assert forall i | 0 <= i < |front| :: front[i] == log[i];
      AllCountIsSum(front, spaces, ttl, now);
      var before, after := NsCounts(front, spaces, ttl, now), NsCounts(log, spaces, ttl, now);
      if PutLog.LiveAt(e, ttl, now) {
        assert log[|log| - 1].ns in spaces;
        var j :| 0 <= j < |spaces| && spaces[j] == e.ns;
        SumBump(before, j);
        assert after == before[j := before[j] + 1];
      } else {
        assert after == before;
      }
    }
  }

  lemma {:induction false} EntryIsInExpiries(log: Log, i: nat, ttl: int)
    requires i < |log|
    ensures log[i].stamp + ttl in Expiries(log, log[i].ns, log[i].key, ttl)
  {
    if i < |log| - 1 {
      EntryIsInExpiries(log[..|log| - 1], i, ttl);
    }
  }

  // A live entry's namespace and key are in the store.
  lemma LiveEntryIsStored(spaces: Spaces, log: Log, ttl: int, now: int, i: nat)
    requires Refines(spaces, log, ttl, now) && i < |log| && PutLog.LiveAt(log[i], ttl, now)
    ensures log[i].ns in spaces && log[i].key in spaces[log[i].ns]
  {
    var e := log[i];
    EntryIsInExpiries(log, i, ttl);
    LiveMembers(Expiries(log, e.ns, e.key, ttl), now);
    assert Live(ListAt(SpaceAt(spaces, e.ns), e.key), now) == Live(Expiries(log, e.ns, e.key, ttl), now);
  }

  lemma SweepCovers(spaces: Spaces, ns: Bytes, visit: Visit, log: Log, ttl: int, from: int, to: int, now: int)
    requires Refines(spaces, log, ttl, from) && ns in spaces && VisitOf(spaces[ns], visit, from, to) && from <= now
    ensures CoversLive(log, ns, visit.keys, ttl, now)
  {
    forall i | 0 <= i < |log| && log[i].ns == ns && PutLog.LiveAt(log[i], ttl, now)
      ensures log[i].key in visit.keys
    {
      LiveEntryIsStored(spaces, log, ttl, from, i);
    }
  }

  // A sweep's total lies between the log's count of the namespace at the sweep's end and
  // at its start; when the clock stands still it is that count.
  lemma SweepSandwich(spaces: Spaces, ns: Bytes, visit: Visit, log: Log, ttl: int, from: int, to: int)
    requires Refines(spaces, log, ttl, from) && ns in spaces && VisitOf(spaces[ns], visit, from, to)
    ensures PutLog.CountNs(log, ns, ttl, to) <= SweepOf(spaces, ns, visit).total <= PutLog.CountNs(log, ns, ttl, from)
  {
    var keys, times := visit.keys, visit.times;
    TotalIsSum(spaces[ns], keys, times);
    SweepCovers(spaces, ns, visit, log, ttl, from, to, from);
    SweepCovers(spaces, ns, visit, log, ttl, from, to, to);
    NsCountIsSum(log, ns, keys, ttl, from);
    NsCountIsSum(log, ns, keys, ttl, to);
    var low, high := KeyCounts(log, ns, keys, ttl, to), KeyCounts(log, ns, keys, ttl, from);
    var mid := LiveCounts(spaces[ns], keys, times);
    forall i | 0 <= i < |keys|
      ensures low[i] <= mid[i] <= high[i]
    {
      var list, logged := ListAt(spaces[ns], keys[i]), Expiries(log, ns, keys[i], ttl);
      assert list == ListAt(SpaceAt(spaces, ns), keys[i]);
      assert Live(list, from) == Live(logged, from);
      LiveLive(list, from, to);
      LiveLive(logged, from, to);
      LiveShrinks(list, from, times[i]);
      LiveShrinks(list, times[i], to);
      CountIsLive(log, ns, keys[i], ttl, from);
      CountIsLive(log, ns, keys[i], ttl, to);
    }
    SumMonotone(low, mid);
    SumMonotone(mid, high);
  }

  // A namespace that is not in the store has no live entry.
  lemma {:induction false} AbsentHasNone(log: Log, ns: Bytes, ttl: int, now: int)
    requires forall i | 0 <= i < |log| && PutLog.LiveAt(log[i], ttl, now) :: log[i].ns != ns
    ensures PutLog.CountNs(log, ns, ttl, now) == 0
  {
    if log != [] {
      var front := log[..|log| - 1];
      assert forall i | 0 <= i < |front| :: front[i] == log[i];
      AbsentHasNone(front, ns, ttl, now);
      assert log[|log| - 1].ns == ns ==> !PutLog.LiveAt(log[|log| - 1], ttl, now);
    }
  }

  lemma {:induction false} ServerTotalSandwich(spaces: Spaces, visits: map<Bytes, Visit>, order: seq<Bytes>,
                                               log: Log, ttl: int, from: int, to: int)
    requires Refines(spaces, log, ttl, from) && VisitsOf(spaces, visits, from, to)
    requires forall ns | ns in order :: ns in visits
    ensures Sum(NsCounts(log, order, ttl, to)) <= TotalOf(spaces, visits, order) <= Sum(NsCounts(log, order, ttl, from))
  {
    if order != [] {
      var last := |order| - 1;
      ServerTotalSandwich(spaces, visits, order[..last], log, ttl, from, to);
      SweepSandwich(spaces, order[last], visits[order[last]], log, ttl, from, to);
      assert NsCounts(log, order, ttl, to)[..last] == NsCounts(log, order[..last], ttl, to);
      assert NsCounts(log, order, ttl, from)[..last] == NsCounts(log, order[..last], ttl, from);
    }
  }

  // The same for the whole server.
  lemma ServerSandwich(spaces: Spaces, visits: map<Bytes, Visit>, order: seq<Bytes>, log: Log, ttl: int, from: int,
                       to: int)
    requires Refines(spaces, log, ttl, from)
    requires Enumerates(order, spaces.Keys) && Walked(spaces, visits, order, from, to)
    ensures PutLog.CountAll(log, ttl, to) <= TotalOf(spaces, visits, order) <= PutLog.CountAll(log, ttl, from)
  {
    ServerTotalSandwich(spaces, visits, order, log, ttl, from, to);
    forall i, now | 0 <= i < |log| && from <= now && PutLog.LiveAt(log[i], ttl, now)
      ensures log[i].ns in order
    {
      LiveEntryIsStored(spaces, log, ttl, from, i);
    }
    AllCountIsSum(log, order, ttl, from);
    AllCountIsSum(log, order, ttl, to);
  }

  // CountEntries, whether or not the namespace is there.
  lemma CountEntriesFits(spaces: Spaces, ns: Bytes, visits: map<Bytes, Visit>, log: Log, ttl: int, from: int, to: int)
    requires Refines(spaces, log, ttl, from) && VisitsOf(spaces, visits, from, to) && visits.Keys == {ns} * spaces.Keys
    ensures Refines(SweptSpaces(spaces, visits), log, ttl, to)
    ensures PutLog.CountNs(log, ns, ttl, to)
         <= (if ns in spaces then SweepOf(spaces, ns, visits[ns]).total else 0)
         <= PutLog.CountNs(log, ns, ttl, from)
  {
    SweptRefines(spaces, visits, log, ttl, from, to);
    if ns in spaces {
      SweepSandwich(spaces, ns, visits[ns], log, ttl, from, to);
    } else {
      forall i, now | 0 <= i < |log| && from <= now && PutLog.LiveAt(log[i], ttl, now)
        ensures log[i].ns != ns
      {
        LiveEntryIsStored(spaces, log, ttl, from, i);
      }
      AbsentHasNone(log, ns, ttl, from);
      AbsentHasNone(log, ns, ttl, to);
    }
  }

  // Every namespace with a live entry is in the store.
  lemma LiveNamespacesAreStored(spaces: Spaces, log: Log, ttl: int, now: int)
    requires Refines(spaces, log, ttl, now)
    ensures forall i | 0 <= i < |log| && PutLog.LiveAt(log[i], ttl, now) :: log[i].ns in spaces
  {
    forall i | 0 <= i < |log| && PutLog.LiveAt(log[i], ttl, now)
      ensures log[i].ns in spaces
    {
      LiveEntryIsStored(spaces, log, ttl, now, i);
    }
  }

  // ---- Whole runs ----

  // One call, with the clock readings it made and the order in which it met the
  // namespaces. `until` is the clock when a sweep returns, and `left` the list of
  // namespaces that a cleanup answers.
  datatype Op =
    | Put(ns: Bytes, key: Bytes, filterTime: int, stamp: int)
    | Count(ns: Bytes, key: Bytes, at: int)
    | CountEntries(ns: Bytes, visit: Visit, until: int)
    | CountServer(order: seq<Bytes>, visits: map<Bytes, Visit>, until: int)
    | KeyMatch(ns: Bytes, matches: Bytes -> bool, all: seq<Bytes>, times: seq<int>, until: int)
    | Cleanup(order: seq<Bytes>, visits: map<Bytes, Visit>, left: seq<Bytes>, until: int)

  // What a call answers.
  datatype Answered = Nothing | Number(n: nat) | Names(names: seq<Bytes>)

  datatype State = State(spaces: Spaces, lastCollected: set<Bytes>, now: int)

  ghost predicate CanRun(s: State, op: Op) {
    match op
    case Put(_, _, filterTime, stamp) => s.now <= filterTime <= stamp
    case Count(_, _, at) => s.now <= at
    case CountEntries(ns, visit, until) =>
      s.now <= until && (ns in s.spaces ==> VisitOf(s.spaces[ns], visit, s.now, until))
    case CountServer(order, visits, until) =>
      Enumerates(order, s.spaces.Keys) && Walked(s.spaces, visits, order, s.now, until)
    case KeyMatch(ns, matches, all, times, until) =>
      Ascending(all) && Enumerates(all, SpaceAt(s.spaces, ns).Keys)
      && |times| == |Matching(all, matches)| && Nondecreasing(times, s.now, until)
    case Cleanup(order, visits, left, until) =>
      Enumerates(order, s.spaces.Keys) && visits.Keys == Fetched(order, s.lastCollected)
      && VisitsOf(s.spaces, visits, s.now, until) && Enumerates(left, Collected(s.spaces, visits).Keys)
  }

  ghost function After(s: State, op: Op, ttl: int): State
    requires CanRun(s, op)
  {
    match op
    case Put(ns, key, filterTime, stamp) =>
      s.(spaces := WithPut(s.spaces, ns, key, ttl, filterTime, stamp), now := stamp)
    case Count(ns, key, at) => s.(spaces := CountedIn(s.spaces, ns, key, at).0, now := at)
    case CountEntries(ns, visit, until) =>
      s.(spaces := if ns in s.spaces then SweptSpaces(s.spaces, map[ns := visit]) else s.spaces, now := until)
    case CountServer(order, visits, until) => s.(spaces := SweptSpaces(s.spaces, visits), now := until)
    case KeyMatch(ns, matches, all, times, until) =>
      var chosen := Matching(all, matches);
      s.(spaces := if ns in s.spaces then s.spaces[ns := Swept(s.spaces[ns], chosen, times).content] else s.spaces,
         now := until)
    case Cleanup(order, visits, _, until) =>
      State(Collected(s.spaces, visits), visits.Keys - Emptied(s.spaces, visits), until)
  }

  ghost function Answer(s: State, op: Op): Answered
    requires CanRun(s, op)
  {
    match op
    case Put(_, _, _, _) => Nothing
    case Count(ns, key, at) => Number(CountedIn(s.spaces, ns, key, at).1)
    case CountEntries(ns, visit, _) => Number(if ns in s.spaces then SweepOf(s.spaces, ns, visit).total else 0)
    case CountServer(order, visits, _) => Number(TotalOf(s.spaces, visits, order))
    case KeyMatch(ns, matches, all, times, _) =>
      Names(Swept(SpaceAt(s.spaces, ns), Matching(all, matches), times).kept)
    case Cleanup(_, _, left, _) => Names(left)
  }

  function Logged(log: Log, op: Op): Log {
    if op.Put? then log + [PutLog.Entry(op.ns, op.key, op.stamp)] else log
  }

  // The list a KeyMatch may answer: matching keys that were live at `from`, in order, each
  // once, and among them every matching key that is still live at `to`.
  ghost predicate KeysFit(log: Log, ttl: int, ns: Bytes, matches: Bytes -> bool, names: seq<Bytes>, from: int,
                          to: int) {
    && Ascending(names)
    && (forall k | k in names :: matches(k) && PutLog.Count(log, ns, k, ttl, from) > 0)
    && (forall k :: matches(k) && PutLog.Count(log, ns, k, ttl, to) > 0 ==> k in names)
  }

  // The list of namespaces a cleanup may answer: each once, only ones that somebody put, and
  // every one with a live entry.
  ghost predicate NamespacesFit(log: Log, ttl: int, names: seq<Bytes>, to: int) {
    && Distinct(names)
    && (forall ns | ns in names :: Named(log, ns))
    && (forall i | 0 <= i < |log| && PutLog.LiveAt(log[i], ttl, to) :: log[i].ns in names)
  }

  // What the put log allows a call to answer when it starts at `now`.
  ghost predicate Allowed(log: Log, ttl: int, now: int, op: Op, answer: Answered) {
    match op
    case Put(_, _, _, _) => answer == Nothing
    case Count(ns, key, at) => answer == Number(PutLog.Count(log, ns, key, ttl, at))
    case CountEntries(ns, _, until) =>
      answer.Number? && PutLog.CountNs(log, ns, ttl, until) <= answer.n <= PutLog.CountNs(log, ns, ttl, now)
    case CountServer(_, _, until) =>
      answer.Number? && PutLog.CountAll(log, ttl, until) <= answer.n <= PutLog.CountAll(log, ttl, now)
    case KeyMatch(ns, matches, _, _, until) => answer.Names? && KeysFit(log, ttl, ns, matches, answer.names, now, until)
    case Cleanup(_, _, _, until) => answer.Names? && NamespacesFit(log, ttl, answer.names, until)
  }

  lemma KeyMatchRefines(s: State, log: Log, ttl: int, op: Op)
    requires op.KeyMatch? && Refines(s.spaces, log, ttl, s.now) && CanRun(s, op)
    ensures Refines(After(s, op, ttl).spaces, log, ttl, op.until)
    ensures Allowed(log, ttl, s.now, op, Answer(s, op))
  {
    var KeyMatch(ns, matches, all, times, until) := op;
    AscendingIsDistinct(all);
    MatchingChooses(all, matches);
    PartialSweepRefines(s.spaces, ns, Matching(all, matches), times, log, ttl, s.now, until);
    hide Refines;
    var names := Answer(s, op).names;
    forall k
      ensures Ascending(names)
      ensures k in names ==> matches(k) && PutLog.Count(log, ns, k, ttl, s.now) > 0
      ensures matches(k) && PutLog.Count(log, ns, k, ttl, until) > 0 ==> k in names
    {
      KeyMatchAnswersLiveKeys(s.spaces, ns, all, times, matches, log, ttl, s.now, until, k);
    }
  }

  lemma CleanupRefines(s: State, log: Log, ttl: int, op: Op)
    requires op.Cleanup? && Refines(s.spaces, log, ttl, s.now) && CanRun(s, op)
    ensures Refines(After(s, op, ttl).spaces, log, ttl, op.until)
    ensures Allowed(log, ttl, s.now, op, Answer(s, op))
  {
    CollectedRefines(s.spaces, op.visits, log, ttl, s.now, op.until);
    LiveNamespacesAreStored(Collected(s.spaces, op.visits), log, ttl, op.until);
  }

  lemma StepRefines(s: State, log: Log, ttl: int, op: Op)
    requires Refines(s.spaces, log, ttl, s.now) && CanRun(s, op)
    ensures Refines(After(s, op, ttl).spaces, Logged(log, op), ttl, After(s, op, ttl).now)
    ensures Allowed(log, ttl, s.now, op, Answer(s, op))
  {
    hide Refines;
    match op
    case Put(ns, key, filterTime, stamp) => PutRefines(s.spaces, log, ttl, s.now, ns, key, filterTime, stamp);
    case Count(ns, key, at) => CountRefines(s.spaces, log, ttl, s.now, ns, key, at);
    case CountEntries(ns, visit, until) =>
      var visits := if ns in s.spaces then map[ns := visit] else map[];
      CountEntriesFits(s.spaces, ns, visits, log, ttl, s.now, until);
      assert ns !in s.spaces ==> SweptSpaces(s.spaces, visits) == s.spaces;
    case CountServer(order, visits, until) =>
      SweptRefines(s.spaces, visits, log, ttl, s.now, until);
      ServerSandwich(s.spaces, visits, order, log, ttl, s.now, until);
    case KeyMatch(_, _, _, _, _) => KeyMatchRefines(s, log, ttl, op);
    case Cleanup(_, _, _, _) => CleanupRefines(s, log, ttl, op);
  }

  // A run: each call starts from the state and the clock the one before it left.
  ghost predicate Run(s: State, ops: seq<Op>, ttl: int)
    decreases |ops|
  {
    ops == [] || (CanRun(s, ops[0]) && Run(After(s, ops[0], ttl), ops[1..], ttl))
  }

  // Every answer of a run is what the put log at that point allows.
  ghost predicate AllAllowed(s: State, log: Log, ops: seq<Op>, ttl: int)
    requires Run(s, ops, ttl)
    decreases |ops|
  {
    ops == []
    || (Allowed(log, ttl, s.now, ops[0], Answer(s, ops[0]))
        && AllAllowed(After(s, ops[0], ttl), Logged(log, ops[0]), ops[1..], ttl))
  }

  lemma {:induction false} RunRefinesFrom(s: State, log: Log, ops: seq<Op>, ttl: int)
    requires Refines(s.spaces, log, ttl, s.now) && Run(s, ops, ttl)
    ensures AllAllowed(s, log, ops, ttl)
    decreases |ops|
  {
    if ops != [] {
      StepRefines(s, log, ttl, ops[0]);
      RunRefinesFrom(After(s, ops[0], ttl), Logged(log, ops[0]), ops[1..], ttl);
    }
  }

  lemma EmptyRefines(ttl: int, now: int)
    ensures Refines(map[], [], ttl, now)
  {
    forall ns, key
      ensures Live(ListAt(SpaceAt(map[], ns), key), now) == Live(Expiries([], ns, key, ttl), now)
    {
      assert ListAt(SpaceAt(map[], ns), key) == [];
    }
  }

  // Main result. From an empty store, every answer of every run is the put log's.
  lemma RunRefinesLog(start: int, ops: seq<Op>, ttl: int)
    requires Run(State(map[], {}, start), ops, ttl)
    ensures AllAllowed(State(map[], {}, start), [], ops, ttl)
  {
    EmptyRefines(ttl, start);
    RunRefinesFrom(State(map[], {}, start), [], ops, ttl);
  }

  // ---- What a run counts ----

  // How many of these calls put (ns, key) with an entry that is live at `t`.
  function PutsAmong(ops: seq<Op>, ns: Bytes, key: Bytes, ttl: int, t: int): nat {
    if ops == [] then 0
    else
      var op := ops[|ops| - 1];
      PutsAmong(ops[..|ops| - 1], ns, key, ttl, t)
      + if op.Put? && op.ns == ns && op.key == key && op.stamp + ttl > t then 1 else 0
  }

  function LogOf(ops: seq<Op>): Log {
    if ops == [] then [] else Logged(LogOf(ops[..|ops| - 1]), ops[|ops| - 1])
  }

  lemma {:induction false} LogCountsPuts(ops: seq<Op>, ns: Bytes, key: Bytes, ttl: int, t: int)
    ensures PutLog.Count(LogOf(ops), ns, key, ttl, t) == PutsAmong(ops, ns, key, ttl, t)
  {
    if ops != [] {
      var front, op := ops[..|ops| - 1], ops[|ops| - 1];
      LogCountsPuts(front, ns, key, ttl, t);
      if op.Put? {
        var e := PutLog.Entry(op.ns, op.key, op.stamp);
        assert (LogOf(front) + [e])[..|LogOf(front)|] == LogOf(front);
      }
    }
  }

  lemma LogOfSnoc(ops: seq<Op>, op: Op)
    ensures LogOf(ops + [op]) == Logged(LogOf(ops), op)
  {
    assert (ops + [op])[..|ops|] == ops;
  }

  lemma {:induction false} RunKeepsLog(s: State, done: seq<Op>, ops: seq<Op>, ttl: int)
    requires Refines(s.spaces, LogOf(done), ttl, s.now) && Run(s, ops, ttl)
    ensures Refines(Final(s, ops, ttl).spaces, LogOf(done + ops), ttl, Final(s, ops, ttl).now)
    decreases |ops|
  {
    hide Refines, After, CanRun, LogOf, Logged, Allowed;
    if ops == [] {
      assert done + ops == done;
    } else {
      StepRefines(s, LogOf(done), ttl, ops[0]);
      LogOfSnoc(done, ops[0]);
      RunKeepsLog(After(s, ops[0], ttl), done + [ops[0]], ops[1..], ttl);
      assert done + [ops[0]] + ops[1..] == done + ops;
    }
  }

  // Main result, with the log taken out: after any run from an empty store, a count answers
  // how many of the run's puts were to its namespace and key and are live.
  lemma RunCountsPuts(start: int, ops: seq<Op>, ttl: int, ns: Bytes, key: Bytes, at: int)
    requires Run(State(map[], {}, start), ops, ttl)
    requires Final(State(map[], {}, start), ops, ttl).now <= at
    ensures CanRun(Final(State(map[], {}, start), ops, ttl), Count(ns, key, at))
    ensures Answer(Final(State(map[], {}, start), ops, ttl), Count(ns, key, at))
         == Number(PutsAmong(ops, ns, key, ttl, at))
  {
    EmptyRefines(ttl, start);
    RunKeepsLog(State(map[], {}, start), [], ops, ttl);
    assert [] + ops == ops;
    var s := Final(State(map[], {}, start), ops, ttl);
    StepRefines(s, LogOf(ops), ttl, Count(ns, key, at));
    LogCountsPuts(ops, ns, key, ttl, at);
    hide Refines, Run, Final;
  }

  // ---- Expiry lists stay sorted ----

  ghost predicate AllSorted(spaces: Spaces, latest: int) {
    forall ns | ns in spaces :: ListsSorted(spaces[ns], latest)
  }

  lemma StepKeepsSorted(s: State, ttl: int, op: Op)
    requires AllSorted(s.spaces, s.now + ttl) && CanRun(s, op)
    ensures AllSorted(After(s, op, ttl).spaces, After(s, op, ttl).now + ttl)
  {
    var s' := After(s, op, ttl);
    assert AllSorted(s.spaces, s'.now + ttl);
    forall ns | ns in s'.spaces
      ensures ListsSorted(s'.spaces[ns], s'.now + ttl)
    {
      match op
      case Put(n, key, filterTime, stamp) =>
        if ns == n {
          PutKeepsListsSorted(SpaceAt(s.spaces, ns), key, ttl, filterTime, stamp);
        }
      case Count(n, key, at) =>
        if ns == n {
          CountKeepsListsSorted(s.spaces[ns], key, at, at + ttl);
        }
      case CountEntries(n, visit, until) =>
        if ns == n {
          SweepKeepsListsSorted(s.spaces[ns], visit.keys, visit.times, until + ttl);
        }
      case CountServer(_, visits, until) =>
        if ns in visits {
          SweepKeepsListsSorted(s.spaces[ns], visits[ns].keys, visits[ns].times, until + ttl);
        }
      case KeyMatch(n, matches, all, times, until) =>
        if ns == n {
          SweepKeepsListsSorted(s.spaces[ns], Matching(all, matches), times, until + ttl);
        }
      case Cleanup(_, visits, _, until) =>
        if ns in visits {
          SweepKeepsListsSorted(s.spaces[ns], visits[ns].keys, visits[ns].times, until + ttl);
        }
    }
  }

  ghost function Final(s: State, ops: seq<Op>, ttl: int): State
    requires Run(s, ops, ttl)
    decreases |ops|
  {
    if ops == [] then s else Final(After(s, ops[0], ttl), ops[1..], ttl)
  }

  // Whatever the run, every stored list is nondecreasing and at most now + ttl, so the
  // filter of the next call drops a prefix of it (FilterDropsAPrefix).
  lemma {:induction false} RunKeepsSorted(s: State, ops: seq<Op>, ttl: int)
    requires AllSorted(s.spaces, s.now + ttl) && Run(s, ops, ttl)
    ensures AllSorted(Final(s, ops, ttl).spaces, Final(s, ops, ttl).now + ttl)
    decreases |ops|
  {
    if ops != [] {
      StepKeepsSorted(s, ttl, ops[0]);
      RunKeepsSorted(After(s, ops[0], ttl), ops[1..], ttl);
    }
  }

  // A whole cleanup keeps store and log in agreement, and the namespaces left are a list
  // the log allows.
  lemma CleanedUpRefines(before: Spaces, last: set<Bytes>, after: Spaces, kept: set<Bytes>, order: seq<Bytes>,
                         visits: map<Bytes, Visit>, left: seq<Bytes>, from: int, to: int, log: Log, ttl: int)
    requires CleanedUp(before, last, after, kept, order, visits, from, to) && Refines(before, log, ttl, from)
    requires Enumerates(left, after.Keys)
    ensures from <= to && Refines(after, log, ttl, to) && NamespacesFit(log, ttl, left, to)
  {
    CollectedRefines(before, visits, log, ttl, from, to);
    LiveNamespacesAreStored(after, log, ttl, to);
  }

  // ---- Collector rotation ----

  // A cleanup keeps none of the namespaces the previous one kept, keeps at most half of
  // those it started with, and removes only namespaces with no live entry, now or later.
  lemma CleanupRotates(before: Spaces, last: set<Bytes>, after: Spaces, kept: set<Bytes>, order: seq<Bytes>,
                       visits: map<Bytes, Visit>, from: int, to: int, log: Log, ttl: int)
    requires CleanedUp(before, last, after, kept, order, visits, from, to) && Refines(before, log, ttl, from)
    ensures kept !! last
    ensures 2 * |kept| <= |before|
    ensures after.Keys <= before.Keys
    ensures forall ns, t | ns in before && ns !in after && to <= t :: PutLog.CountNs(log, ns, ttl, t) == 0
  {
    PrefixSize(order[..|order| / 2], kept);
    DistinctSize(order, before.Keys);
    forall ns, t | ns in before && ns !in after && to <= t
      ensures PutLog.CountNs(log, ns, ttl, t) == 0
    {
      CollectedRefines(before, visits, log, ttl, from, to);
      RefinesLater(after, log, ttl, to, t);
      forall i | 0 <= i < |log| && PutLog.LiveAt(log[i], ttl, t)
        ensures log[i].ns != ns
      {
        LiveEntryIsStored(after, log, ttl, t, i);
      }
      AbsentHasNone(log, ns, ttl, t);
    }
  }

  // Calls that are not cleanups leave what the last cleanup remembered alone.
  lemma {:induction false} OthersKeepCollected(s: State, ops: seq<Op>, ttl: int)
    requires Run(s, ops, ttl) && forall i | 0 <= i < |ops| :: !ops[i].Cleanup?
    ensures Final(s, ops, ttl).lastCollected == s.lastCollected
    decreases |ops|
  {
    if ops != [] {
      assert !ops[0].Cleanup?;
      assert forall i | 0 <= i < |ops[1..]| :: ops[1..][i] == ops[i + 1];
      OthersKeepCollected(After(s, ops[0], ttl), ops[1..], ttl);
    }
  }

  // Main result. Of two consecutive cleanups of a run, with any other calls between them,
  // the second keeps none of the namespaces the first kept, and each keeps at most half of
  // those it started with.
  lemma ConsecutiveCleanupsRotate(s: State, first: Op, between: seq<Op>, second: Op, ttl: int)
    requires first.Cleanup? && second.Cleanup? && forall i | 0 <= i < |between| :: !between[i].Cleanup?
    requires CanRun(s, first) && Run(After(s, first, ttl), between, ttl)
    requires CanRun(Final(After(s, first, ttl), between, ttl), second)
    ensures var mid := Final(After(s, first, ttl), between, ttl);
            var end := After(mid, second, ttl);
            && After(s, first, ttl).lastCollected !! end.lastCollected
            && 2 * |After(s, first, ttl).lastCollected| <= |s.spaces|
            && 2 * |end.lastCollected| <= |mid.spaces|
  {
    OthersKeepCollected(After(s, first, ttl), between, ttl);
    KeptIsHalf(s, first, ttl);
    KeptIsHalf(Final(After(s, first, ttl), between, ttl), second, ttl);
  }

  // What a cleanup remembers was not remembered before, and is at most half of what it met.
  lemma KeptIsHalf(s: State, op: Op, ttl: int)
    requires op.Cleanup? && CanRun(s, op)
    ensures After(s, op, ttl).lastCollected !! s.lastCollected
    ensures 2 * |After(s, op, ttl).lastCollected| <= |s.spaces|
  {
    PrefixSize(op.order[..|op.order| / 2], After(s, op, ttl).lastCollected);
    DistinctSize(op.order, s.spaces.Keys);
  }

  // Along a run a cleanup removes only what has no live entry, then or later.
  lemma RemovedIsDead(s: State, op: Op, log: Log, ttl: int, ns: Bytes, t: int)
    requires op.Cleanup? && CanRun(s, op) && Refines(s.spaces, log, ttl, s.now)
    requires ns in s.spaces && ns !in After(s, op, ttl).spaces && op.until <= t
    ensures PutLog.CountNs(log, ns, ttl, t) == 0
  {
    var s' := After(s, op, ttl);
    CleanupRotates(s.spaces, s.lastCollected, s'.spaces, s'.lastCollected, op.order, op.visits,
                   s.now, op.until, log, ttl);
  }

  lemma {:induction false} KeyCountsAtMostNs(log: Log, ns: Bytes, key: Bytes, ttl: int, now: int)
    ensures PutLog.Count(log, ns, key, ttl, now) <= PutLog.CountNs(log, ns, ttl, now)
  {
    if log != [] {
      KeyCountsAtMostNs(log[..|log| - 1], ns, key, ttl, now);
    }
  }

  // A sweep of a namespace with nothing live answers no key.
  lemma DeadIsEmptied(spaces: Spaces, ns: Bytes, visit: Visit, log: Log, ttl: int, from: int, to: int)
    requires Refines(spaces, log, ttl, from) && ns in spaces && VisitOf(spaces[ns], visit, from, to)
    requires PutLog.CountNs(log, ns, ttl, from) == 0
    ensures SweepOf(spaces, ns, visit).kept == []
  {
    KeptAreLive(spaces[ns], visit.keys, visit.times);
    if SweepOf(spaces, ns, visit).kept != [] {
      var key := SweepOf(spaces, ns, visit).kept[0];
      var i :| 0 <= i < |visit.keys| && visit.keys[i] == key && Live(ListAt(spaces[ns], key), visit.times[i]) != [];
      LiveShrinks(ListAt(spaces[ns], key), from, visit.times[i]);
      assert Live(ListAt(SpaceAt(spaces, ns), key), from) == Live(Expiries(log, ns, key, ttl), from);
      CountIsLive(log, ns, key, ttl, from);
      KeyCountsAtMostNs(log, ns, key, ttl, from);
    }
  }

  // A cleanup leaves what it did not fetch alone, removes every fetched namespace with
  // nothing live when it started, keeps every one with something live when it ended, and
  // remembers exactly the fetched ones that are left.
  lemma CleanupCollectsTheDead(before: Spaces, last: set<Bytes>, after: Spaces, kept: set<Bytes>, order: seq<Bytes>,
                               visits: map<Bytes, Visit>, from: int, to: int, log: Log, ttl: int, ns: Bytes)
    requires CleanedUp(before, last, after, kept, order, visits, from, to) && Refines(before, log, ttl, from)
    requires ns in before
    ensures ns !in Fetched(order, last) ==> ns in after && after[ns] == before[ns] && ns !in kept
    ensures ns in Fetched(order, last) && PutLog.CountNs(log, ns, ttl, from) == 0 ==> ns !in after
    ensures PutLog.CountNs(log, ns, ttl, to) > 0 ==> ns in after
    ensures ns in Fetched(order, last) ==> (ns in kept <==> ns in after)
  {
    if ns in Fetched(order, last) && PutLog.CountNs(log, ns, ttl, from) == 0 {
      DeadIsEmptied(before, ns, visits[ns], log, ttl, from, to);
    }
    if ns !in after {
      CleanupRotates(before, last, after, kept, order, visits, from, to, log, ttl);
    }
  }

  // Main result. Of a store in which nothing is live and nothing is remembered, a cleanup
  // removes exactly half of the namespaces, rounded down, and remembers none.
  lemma DeadStoreIsHalved(s: State, op: Op, log: Log, ttl: int)
    requires op.Cleanup? && CanRun(s, op) && Refines(s.spaces, log, ttl, s.now)
    requires s.lastCollected !! s.spaces.Keys
    requires forall ns | ns in s.spaces :: PutLog.CountNs(log, ns, ttl, s.now) == 0
    ensures |After(s, op, ttl).spaces| == |s.spaces| - |s.spaces| / 2
    ensures After(s, op, ttl).lastCollected == {}
  {
    hide *;
    var s', fetched := After(s, op, ttl), Fetched(op.order, s.lastCollected);
    CleanupOrder(s, op);
    HalfIsFetched(op.order, s.lastCollected, s.spaces.Keys);
    DeadAreRemoved(s, op, log, ttl);
    assert s.spaces.Keys == s'.spaces.Keys + fetched;
    assert |s.spaces.Keys| == |s'.spaces.Keys| + |fetched|;
  }

  lemma CleanupOrder(s: State, op: Op)
    requires op.Cleanup? && CanRun(s, op)
    ensures Enumerates(op.order, s.spaces.Keys)
  {
  }

  lemma HalfIsFetched(order: seq<Bytes>, last: set<Bytes>, all: set<Bytes>)
    requires Enumerates(order, all) && last !! all
    ensures |Fetched(order, last)| == |all| / 2
  {
    var half := order[..|order| / 2];
    DistinctSize(order, all);
    assert Enumerates(half, Fetched(order, last));
    DistinctSize(half, Fetched(order, last));
  }

  lemma DeadAreRemoved(s: State, op: Op, log: Log, ttl: int)
    requires op.Cleanup? && CanRun(s, op) && Refines(s.spaces, log, ttl, s.now)
    requires forall ns | ns in s.spaces :: PutLog.CountNs(log, ns, ttl, s.now) == 0
    ensures var s', fetched := After(s, op, ttl), Fetched(op.order, s.lastCollected);
            && fetched <= s.spaces.Keys && s'.spaces.Keys == s.spaces.Keys - fetched && s'.lastCollected == {}
  {
    var s', fetched := After(s, op, ttl), Fetched(op.order, s.lastCollected);
    forall ns | ns in s.spaces
      ensures ns in s'.spaces <==> ns !in fetched
      ensures ns !in s'.lastCollected
    {
      CleanupCollectsTheDead(s.spaces, s.lastCollected, s'.spaces, s'.lastCollected, op.order, op.visits,
                             s.now, op.until, log, ttl, ns);
    }
  }

  lemma {:induction false} SomeOrder<T(!new)>(all: set<T>) returns (keys: seq<T>)
    ensures Enumerates(keys, all)
    decreases all
  {
    if all == {} {
      keys := [];
    } else {
      var x :| x in all;
      var rest := SomeOrder(all - {x});
      keys := [x] + rest;
    }
  }

  ghost predicate CanEnumerate<T(!new)>(all: set<T>) {
    exists keys :: Enumerates(keys, all)
  }

  // A sweep of a tree in no time.
  ghost function QuickVisit(content: Content, now: int): (visit: Visit)
    ensures VisitOf(content, visit, now, now)
  {
    assert CanEnumerate(content.Keys) by {
      var keys := SomeOrder(content.Keys);
    }
    var keys :| Enumerates(keys, content.Keys);
    Visit(keys, seq(|keys|, _ => now))
  }

  // A cleanup in no time that meets the namespaces in this order.
  lemma QuickCleanup(s: State, order: seq<Bytes>) returns (op: Op)
    requires Enumerates(order, s.spaces.Keys)
    ensures op.Cleanup? && op.order == order && op.until == s.now && CanRun(s, op)
  {
    var fetched := Fetched(order, s.lastCollected);
    var visits := map ns | ns in fetched :: QuickVisit(s.spaces[ns], s.now);
    assert visits.Keys == fetched;
    var left := SomeOrder(Collected(s.spaces, visits).Keys);
    op := Cleanup(order, visits, left, s.now);
  }

  // Some order in which `ns` comes first.
  lemma OrderWithFirst(all: set<Bytes>, ns: Bytes) returns (order: seq<Bytes>)
    requires ns in all
    ensures Enumerates(order, all) && order[0] == ns
  {
    var rest := SomeOrder(all - {ns});
    order := [ns] + rest;
  }

  // Main result, whatever the order of the map: the next cleanup may remove a namespace
  // with nothing live exactly when the store has at least two and the previous cleanup did
  // not look at it and keep it.
  lemma NextCleanupMayRemoveIff(s: State, log: Log, ttl: int, ns: Bytes)
    requires Refines(s.spaces, log, ttl, s.now) && ns in s.spaces && PutLog.CountNs(log, ns, ttl, s.now) == 0
    ensures (exists op: Op :: op.Cleanup? && CanRun(s, op) && ns !in After(s, op, ttl).spaces)
       <==> |s.spaces| >= 2 && ns !in s.lastCollected
  {
    if op: Op :| op.Cleanup? && CanRun(s, op) && ns !in After(s, op, ttl).spaces {
      RemovedWasFetched(s, op, log, ttl, ns);
    }
    if |s.spaces| >= 2 && ns !in s.lastCollected {
      var order := OrderWithFirst(s.spaces.Keys, ns);
      var op := QuickCleanup(s, order);
      FirstIsFetched(s, order, ns);
      CleanupCollectsTheDead(s.spaces, s.lastCollected, After(s, op, ttl).spaces, After(s, op, ttl).lastCollected,
                             order, op.visits, s.now, op.until, log, ttl, ns);
    }
  }

  lemma FirstIsFetched(s: State, order: seq<Bytes>, ns: Bytes)
    requires Enumerates(order, s.spaces.Keys) && |s.spaces| >= 2 && ns !in s.lastCollected && order[..1] == [ns]
    ensures ns in Fetched(order, s.lastCollected)
  {
    DistinctSize(order, s.spaces.Keys);
    assert order[..|order| / 2][0] == order[..1][0];
  }

  lemma RemovedWasFetched(s: State, op: Op, log: Log, ttl: int, ns: Bytes)
    requires op.Cleanup? && CanRun(s, op) && Refines(s.spaces, log, ttl, s.now)
    requires ns in s.spaces && ns !in After(s, op, ttl).spaces
    ensures |s.spaces| >= 2 && ns !in s.lastCollected
  {
    DistinctSize(op.order, s.spaces.Keys);
    CleanupCollectsTheDead(s.spaces, s.lastCollected, After(s, op, ttl).spaces, After(s, op, ttl).lastCollected,
                           op.order, op.visits, s.now, op.until, log, ttl, ns);
    assert ns in Fetched(op.order, s.lastCollected);
    assert op.order[..|op.order| / 2] != [];
  }

  // With fewer than two namespaces a cleanup looks at nothing, however long it has expired.
  lemma LoneNamespaceIsNeverCollected(before: Spaces, last: set<Bytes>, after: Spaces, kept: set<Bytes>,
                                      order: seq<Bytes>, visits: map<Bytes, Visit>, from: int, to: int)
    requires CleanedUp(before, last, after, kept, order, visits, from, to) && |before| < 2
    ensures after == before && kept == {}
  {
    DistinctSize(order, before.Keys);
    assert order[..|order| / 2] == [];
    assert visits.Keys == {};
  }
}

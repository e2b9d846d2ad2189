// store/store.go run one call at a time: namespaces, their trees, and the sampling
// collector that drops empty namespaces.

module ExpiryStore {
  import opened ByteStrings
  import opened WallClock
  import opened ExpiryTree

  // What the store holds, by value.
  type Spaces = map<Bytes, Content>

  function SpaceAt(spaces: Spaces, ns: Bytes): Content {
    if ns in spaces then spaces[ns] else map[]
  }

  // The effect of `Store.Put`.
  function WithPut(spaces: Spaces, ns: Bytes, key: Bytes, ttl: int, filterTime: int, stamp: int): Spaces {
    spaces[ns := WithEntry(SpaceAt(spaces, ns), key, ttl, filterTime, stamp)]
  }

  // The effect and the answer of `Store.Count`.
  function CountedIn(spaces: Spaces, ns: Bytes, key: Bytes, now: int): (Spaces, nat) {
    if ns !in spaces then (spaces, 0)
    else
      var (content, n) := Counted(spaces[ns], key, now);
      (spaces[ns := content], n)
  }

  ghost predicate VisitsOf(spaces: Spaces, visits: map<Bytes, Visit>, from: int, to: int) {
    from <= to
    && forall ns | ns in visits :: ns in spaces && VisitOf(spaces[ns], visits[ns], from, to)
  }

  function SweepOf(spaces: Spaces, ns: Bytes, visit: Visit): SweepResult
    requires ns in spaces && |visit.keys| == |visit.times|
  {
    Swept(spaces[ns], visit.keys, visit.times)
  }

  // The store after the trees of `visits` have been swept.
  ghost function SweptSpaces(spaces: Spaces, visits: map<Bytes, Visit>): Spaces
    requires forall ns | ns in visits :: ns in spaces && |visits[ns].keys| == |visits[ns].times|
  {
    map ns | ns in spaces :: if ns in visits then SweepOf(spaces, ns, visits[ns]).content else spaces[ns]
  }

  // The namespaces whose sweep answered no key.
  ghost function Emptied(spaces: Spaces, visits: map<Bytes, Visit>): set<Bytes>
    requires forall ns | ns in visits :: ns in spaces && |visits[ns].keys| == |visits[ns].times|
  {
    set ns | ns in visits && SweepOf(spaces, ns, visits[ns]).kept == []
  }

  // What the namespaces in `order` answer in total.
  ghost function TotalOf(spaces: Spaces, visits: map<Bytes, Visit>, order: seq<Bytes>): nat
    requires forall ns | ns in visits :: ns in spaces && |visits[ns].keys| == |visits[ns].times|
    requires forall ns | ns in order :: ns in visits
  {
    if order == [] then 0
    else
      var last := order[|order| - 1];
      TotalOf(spaces, visits, order[..|order| - 1]) + SweepOf(spaces, last, visits[last]).total
  }

  // Sweeping one more tree after others.
  lemma SweptOneMore(spaces: Spaces, visits: map<Bytes, Visit>, ns: Bytes, visit: Visit)
    requires forall n | n in visits :: n in spaces && |visits[n].keys| == |visits[n].times|
    requires ns in spaces && ns !in visits && |visit.keys| == |visit.times|
    ensures SweptSpaces(SweptSpaces(spaces, visits), map[ns := visit]) == SweptSpaces(spaces, visits[ns := visit])
    ensures SweepOf(SweptSpaces(spaces, visits), ns, visit) == SweepOf(spaces, ns, visit)
  {
  }

  lemma {:induction false} TotalOneMore(spaces: Spaces, visits: map<Bytes, Visit>, order: seq<Bytes>, ns: Bytes,
                                        visit: Visit)
    requires forall n | n in visits :: n in spaces && |visits[n].keys| == |visits[n].times|
    requires ns in spaces && ns !in visits && |visit.keys| == |visit.times|
    requires forall n | n in order :: n in visits
    ensures TotalOf(spaces, visits[ns := visit], order) == TotalOf(spaces, visits, order)
  {
    if order != [] {
      TotalOneMore(spaces, visits, order[..|order| - 1], ns, visit);
    }
  }

  // The namespaces a cleanup looks at: those of the first half of `order` that the
  // previous cleanup did not look at and keep.
  function Fetched(order: seq<Bytes>, lastCollected: set<Bytes>): set<Bytes> {
    set ns | ns in order[..|order| / 2] && ns !in lastCollected
  }

  // The store after a cleanup: swept, and without the namespaces that answered no key.
  ghost function Collected(spaces: Spaces, visits: map<Bytes, Visit>): Spaces
    requires forall ns | ns in visits :: ns in spaces && |visits[ns].keys| == |visits[ns].times|
  {
    SweptSpaces(spaces, visits) - Emptied(spaces, visits)
  }

  lemma CollectedOneMore(spaces: Spaces, visits: map<Bytes, Visit>, ns: Bytes, visit: Visit)
    requires forall n | n in visits :: n in spaces && |visits[n].keys| == |visits[n].times|
    requires ns in spaces && ns !in visits && |visit.keys| == |visit.times|
    ensures ns in Collected(spaces, visits) && Collected(spaces, visits)[ns] == spaces[ns]
    ensures Emptied(spaces, visits[ns := visit])
         == Emptied(spaces, visits) + (if SweepOf(spaces, ns, visit).kept == [] then {ns} else {})
    ensures Collected(spaces, visits[ns := visit])
         == if SweepOf(spaces, ns, visit).kept == [] then Collected(spaces, visits) - {ns}
            else Collected(spaces, visits)[ns := SweepOf(spaces, ns, visit).content]
  {
    hide SweepOf;
    var more := visits[ns := visit];
    assert forall n | n in visits :: more[n] == visits[n];
  }

  // The store after one namespace of a cleanup.
  function AfterVisit(spaces: Spaces, ns: Bytes, visit: Visit): Spaces
    requires ns in spaces && |visit.keys| == |visit.times|
  {
    var sweep := SweepOf(spaces, ns, visit);
    if sweep.kept == [] then spaces - {ns} else spaces[ns := sweep.content]
  }

  // A cleanup under way: `rest` of the `fetched` namespaces are still to be visited.
  ghost predicate Cleaning(before: Spaces, spaces: Spaces, fetched: set<Bytes>, rest: set<Bytes>, crawled: set<Bytes>,
                           visits: map<Bytes, Visit>, from: int, to: int) {
    && rest <= fetched <= before.Keys
    && VisitsOf(before, visits, from, to)
    && visits.Keys == fetched - rest
    && spaces == Collected(before, visits)
    && crawled == visits.Keys - Emptied(before, visits)
  }

  lemma CleaningHas(before: Spaces, spaces: Spaces, fetched: set<Bytes>, rest: set<Bytes>, crawled: set<Bytes>,
                    visits: map<Bytes, Visit>, from: int, to: int, ns: Bytes)
    requires Cleaning(before, spaces, fetched, rest, crawled, visits, from, to) && ns in rest
    ensures ns in spaces && ns in before && spaces[ns] == before[ns]
  {
  }

  lemma VisitOfWider(content: Content, visit: Visit, mid: int, until: int, from: int, to: int)
    requires VisitOf(content, visit, mid, until) && from <= mid && until <= to
    ensures VisitOf(content, visit, from, to)
  {
    hide Enumerates;
  }

  // One more visit after others.
  lemma VisitsFurther(spaces: Spaces, visits: map<Bytes, Visit>, ns: Bytes, visit: Visit, from: int, mid: int, to: int)
    requires VisitsOf(spaces, visits, from, mid) && ns in spaces && VisitOf(spaces[ns], visit, mid, to)
    ensures VisitsOf(spaces, visits[ns := visit], from, to)
  {
    var more := visits[ns := visit];
    assert mid <= to;
    hide VisitOf;
    forall n | n in more
      ensures n in spaces && VisitOf(spaces[n], more[n], from, to)
    {
      VisitOfWider(spaces[n], more[n], if n == ns then mid else from, if n == ns then to else mid, from, to);
    }
  }

  lemma CleaningOneMore(before: Spaces, spaces: Spaces, fetched: set<Bytes>, rest: set<Bytes>, crawled: set<Bytes>,
                        visits: map<Bytes, Visit>, from: int, mid: int, to: int, ns: Bytes, visit: Visit)
    requires Cleaning(before, spaces, fetched, rest, crawled, visits, from, mid)
    requires ns in rest && ns in spaces && spaces[ns] == before[ns] && VisitOf(spaces[ns], visit, mid, to)
    ensures Cleaning(before, AfterVisit(spaces, ns, visit), fetched, rest - {ns},
                     if SweepOf(spaces, ns, visit).kept == [] then crawled else crawled + {ns},
                     visits[ns := visit], from, to)
  {
    VisitsFurther(before, visits, ns, visit, from, mid, to);
    CollectedAfterVisit(before, spaces, visits, ns, visit);
    CrawledAfterVisit(before, visits, crawled, ns, visit);
    assert SweepOf(spaces, ns, visit) == SweepOf(before, ns, visit);
    hide Collected, Emptied, SweepOf, VisitsOf, VisitOf, AfterVisit;
    assert visits[ns := visit].Keys == fetched - (rest - {ns});
  }

  lemma CollectedAfterVisit(before: Spaces, spaces: Spaces, visits: map<Bytes, Visit>, ns: Bytes, visit: Visit)
    requires forall n | n in visits :: n in before && |visits[n].keys| == |visits[n].times|
    requires ns in before && ns !in visits && |visit.keys| == |visit.times|
    requires spaces == Collected(before, visits) && ns in spaces && spaces[ns] == before[ns]
    ensures AfterVisit(spaces, ns, visit) == Collected(before, visits[ns := visit])
  {
    CollectedOneMore(before, visits, ns, visit);
    assert SweepOf(spaces, ns, visit) == SweepOf(before, ns, visit);
    hide Collected, SweepOf;
  }

  lemma CrawledAfterVisit(before: Spaces, visits: map<Bytes, Visit>, crawled: set<Bytes>, ns: Bytes, visit: Visit)
    requires forall n | n in visits :: n in before && |visits[n].keys| == |visits[n].times|
    requires ns in before && ns !in visits && |visit.keys| == |visit.times|
    requires crawled == visits.Keys - Emptied(before, visits)
    ensures (if SweepOf(before, ns, visit).kept == [] then crawled else crawled + {ns})
         == visits[ns := visit].Keys - Emptied(before, visits[ns := visit])
  {
    CollectedOneMore(before, visits, ns, visit);
    assert ns !in Emptied(before, visits);
    hide Collected, SweepOf, Emptied;
  }

  // A cleanup that ran from `before` and left `after`.
  ghost predicate CleanedUp(before: Spaces, last: set<Bytes>, after: Spaces, kept: set<Bytes>,
                            order: seq<Bytes>, visits: map<Bytes, Visit>, from: int, to: int) {
    && Enumerates(order, before.Keys)
    && visits.Keys == Fetched(order, last)
    && VisitsOf(before, visits, from, to)
    && after == Collected(before, visits)
    && kept == visits.Keys - Emptied(before, visits)
  }

  lemma CleaningEnds(before: Spaces, after: Spaces, last: set<Bytes>, order: seq<Bytes>, fetched: set<Bytes>,
                     crawled: set<Bytes>, visits: map<Bytes, Visit>, from: int, to: int)
    requires Enumerates(order, before.Keys) && fetched == Fetched(order, last)
    requires Cleaning(before, after, fetched, {}, crawled, visits, from, to)
    ensures CleanedUp(before, last, after, crawled, order, visits, from, to)
  {
  }

  // The sweeps done so far visited exactly the namespaces `done`, in that order.
  ghost predicate Walked(spaces: Spaces, visits: map<Bytes, Visit>, done: seq<Bytes>, from: int, to: int) {
    VisitsOf(spaces, visits, from, to) && forall n :: n in visits <==> n in done
  }

  lemma WalkedNone(spaces: Spaces, now: int)
    ensures Walked(spaces, map[], [], now, now)
    ensures SweptSpaces(spaces, map[]) == spaces && TotalOf(spaces, map[], []) == 0
  {
  }

  lemma WalkedOneMore(spaces: Spaces, visits: map<Bytes, Visit>, done: seq<Bytes>, ns: Bytes, one: map<Bytes, Visit>,
                      from: int, mid: int, to: int)
    requires Walked(spaces, visits, done, from, mid) && ns in spaces && ns !in done
    requires VisitsOf(SweptSpaces(spaces, visits), one, mid, to) && one.Keys == {ns}
    ensures Walked(spaces, visits[ns := one[ns]], done + [ns], from, to)
    ensures SweptSpaces(SweptSpaces(spaces, visits), one) == SweptSpaces(spaces, visits[ns := one[ns]])
    ensures TotalOf(spaces, visits[ns := one[ns]], done + [ns])
         == TotalOf(spaces, visits, done) + SweepOf(SweptSpaces(spaces, visits), ns, one[ns]).total
  {
    assert one == map[ns := one[ns]];
    UnvisitedSpace(spaces, visits, ns);
    WalkedFurther(spaces, visits, done, ns, one[ns], from, mid, to);
    SweptOneMore(spaces, visits, ns, one[ns]);
    TotalFurther(spaces, visits, done, ns, one[ns]);
    hide SweptSpaces, SweepOf, TotalOf, VisitOf;
  }

  lemma UnvisitedSpace(spaces: Spaces, visits: map<Bytes, Visit>, ns: Bytes)
    requires forall n | n in visits :: n in spaces && |visits[n].keys| == |visits[n].times|
    requires ns in spaces && ns !in visits
    ensures ns in SweptSpaces(spaces, visits) && SweptSpaces(spaces, visits)[ns] == spaces[ns]
  {
  }

  lemma WalkedFurther(spaces: Spaces, visits: map<Bytes, Visit>, done: seq<Bytes>, ns: Bytes, visit: Visit,
                      from: int, mid: int, to: int)
    requires Walked(spaces, visits, done, from, mid) && ns in spaces && ns !in done
    requires VisitOf(spaces[ns], visit, mid, to)
    ensures Walked(spaces, visits[ns := visit], done + [ns], from, to)
  {
    VisitsFurther(spaces, visits, ns, visit, from, mid, to);
    hide VisitsOf;
  }

  lemma TotalFurther(spaces: Spaces, visits: map<Bytes, Visit>, done: seq<Bytes>, ns: Bytes, visit: Visit)
    requires forall n | n in visits :: n in spaces && |visits[n].keys| == |visits[n].times|
    requires ns in spaces && ns !in visits && |visit.keys| == |visit.times|
    requires forall n | n in done :: n in visits
    ensures TotalOf(spaces, visits[ns := visit], done + [ns])
         == TotalOf(spaces, visits, done) + SweepOf(spaces, ns, visit).total
  {
    TotalOneMore(spaces, visits, done, ns, visit);
    assert (done + [ns])[..|done|] == done;
    hide SweepOf;
  }

  class Store {
    const ttl: int
    var namespaces: map<Bytes, Tree>
    var lastCollected: set<Bytes>
    var cleanupEnabled: bool

    ghost predicate Valid()
      reads this`namespaces
    {
      && (forall ns | ns in namespaces :: namespaces[ns].ttl == ttl)
      && (forall a, b | a in namespaces && b in namespaces && a != b :: namespaces[a] != namespaces[b])
    }

    ghost function Trees(): set<Tree>
      reads this`namespaces
    {
      set ns | ns in namespaces :: namespaces[ns]
    }

    ghost function View(): Spaces
      reads this`namespaces, Trees()
    {
      map ns | ns in namespaces :: namespaces[ns].tree
    }

    constructor (ttl: int)
      ensures Valid() && View() == map[] && lastCollected == {} && cleanupEnabled && this.ttl == ttl
      ensures Trees() == {}
    {
      this.ttl := ttl;
      namespaces := map[];
      lastCollected := {};
      cleanupEnabled := true;
    }

    method EnableCleanup()
      requires Valid()
      modifies this`cleanupEnabled
      ensures Valid() && cleanupEnabled
    {
      cleanupEnabled := true;
    }

    method DisableCleanup()
      requires Valid()
      modifies this`cleanupEnabled
      ensures Valid() && !cleanupEnabled
    {
      cleanupEnabled := false;
    }

    method Put(ns: Bytes, key: Bytes, clock: Clock) returns (ghost filterTime: int)
      requires Valid()
      modifies this`namespaces, Trees(), clock
      ensures Valid() && fresh(Trees() - old(Trees()))
      ensures old(clock.now) <= filterTime <= clock.now
      ensures View() == WithPut(old(View()), ns, key, ttl, filterTime, clock.now)
    {
      var subtree: Tree;
      if ns !in namespaces {
        subtree := new Tree(ttl);
        namespaces := namespaces[ns := subtree];
      } else {
        subtree := namespaces[ns];
      }
      filterTime := subtree.Put(key, clock);
    }

    method Count(ns: Bytes, key: Bytes, clock: Clock) returns (count: nat)
      requires Valid()
      modifies Trees(), clock
      ensures unchanged(this) && Valid() && old(clock.now) <= clock.now
      ensures (View(), count) == CountedIn(old(View()), ns, key, clock.now)
    {
      if ns !in namespaces {
        return 0;
      }
      count := namespaces[ns].Count(key, clock);
      assert View() == old(View())[ns := namespaces[ns].tree];
    }

    method CountEntries(ns: Bytes, clock: Clock) returns (count: nat, ghost visits: map<Bytes, Visit>)
      requires Valid()
      modifies Trees(), clock
      ensures unchanged(this) && Valid() && VisitsOf(old(View()), visits, old(clock.now), clock.now)
      ensures visits.Keys == {ns} * old(View()).Keys
      ensures View() == SweptSpaces(old(View()), visits)
      ensures count == if ns in old(View()) then SweepOf(old(View()), ns, visits[ns]).total else 0
    {
      visits := map[];
      if ns !in namespaces {
        return 0, visits;
      }
      ghost var visit;
      var keys;
      keys, count, visit := namespaces[ns].Keys(clock);
      visits := map[ns := visit];
    }

    // One round of CountServerEntries, after rounds over `done`.
    method CountNext(ns: Bytes, clock: Clock, ghost before: Spaces, ghost done: seq<Bytes>,
                     ghost visits: map<Bytes, Visit>, ghost from: int)
      returns (count: nat, ghost now: map<Bytes, Visit>)
      requires Valid() && Walked(before, visits, done, from, clock.now) && View() == SweptSpaces(before, visits)
      requires ns in before && ns !in done
      modifies Trees(), clock
      ensures unchanged(this) && Valid() && Walked(before, now, done + [ns], from, clock.now)
      ensures View() == SweptSpaces(before, now)
      ensures TotalOf(before, now, done + [ns]) == TotalOf(before, visits, done) + count
    {
      ghost var mid, view := clock.now, View();
      ghost var one;
      assert ns in view;
      count, one := CountEntries(ns, clock);
      assert one.Keys == {ns};
      WalkedOneMore(before, visits, done, ns, one, from, mid, clock.now);
      now := visits[ns := one[ns]];
    }

    method CountServerEntries(clock: Clock)
      returns (entryCount: nat, ghost order: seq<Bytes>, ghost visits: map<Bytes, Visit>)
      requires Valid()
      modifies Trees(), clock
      ensures unchanged(this) && Valid() && Enumerates(order, old(View()).Keys)
      ensures Walked(old(View()), visits, order, old(clock.now), clock.now)
      ensures View() == SweptSpaces(old(View()), visits)
      ensures entryCount == TotalOf(old(View()), visits, order)
    {
      hide SweptSpaces, TotalOf;
      var spaces := InSomeOrder(namespaces.Keys);
      ghost var before := View();
      ghost var done: seq<Bytes> := [];
      order, visits, entryCount := spaces, map[], 0;
      WalkedNone(before, clock.now);
      for i := 0 to |spaces|
        invariant unchanged(this) && Valid() && done == spaces[..i]
        invariant Walked(before, visits, done, old(clock.now), clock.now)
        invariant View() == SweptSpaces(before, visits)
        invariant entryCount == TotalOf(before, visits, done)
      {
        var c;
        c, visits := CountNext(spaces[i], clock, before, done, visits, old(clock.now));
        entryCount := entryCount + c;
        PrefixSnoc(spaces, i);
        done := done + [spaces[i]];
      }
      assert done == spaces;
    }

    method KeyMatch(ns: Bytes, matches: Bytes -> bool, clock: Clock)
      returns (keys: seq<Bytes>, ghost all: seq<Bytes>, ghost times: seq<int>)
      requires Valid()
      modifies Trees(), clock
      ensures unchanged(this) && Valid() && old(clock.now) <= clock.now
      ensures Ascending(all) && Enumerates(all, SpaceAt(old(View()), ns).Keys)
      ensures |times| == |Matching(all, matches)| && Nondecreasing(times, old(clock.now), clock.now)
      ensures keys == Swept(SpaceAt(old(View()), ns), Matching(all, matches), times).kept
      ensures View() == if ns in old(View())
                        then old(View())[ns := Swept(old(View())[ns], Matching(all, matches), times).content]
                        else old(View())
    {
      if ns !in namespaces {
        return [], [], [];
      }
      keys, all, times := namespaces[ns].KeyMatch(matches, clock);
      assert View() == old(View())[ns := namespaces[ns].tree];
    }

    // One round of runCleanup's loop over the fetched subtrees.
    method CollectNext(ns: Bytes, clock: Clock) returns (kept: bool, ghost visit: Visit)
      requires Valid() && ns in namespaces
      modifies this`namespaces, Trees(), clock
      ensures Valid() && Trees() <= old(Trees())
      ensures VisitOf(old(View())[ns], visit, old(clock.now), clock.now)
      ensures kept <==> SweepOf(old(View()), ns, visit).kept != []
      ensures View() == AfterVisit(old(View()), ns, visit)
    {
      ghost var view := View();
      var subtreeKeys, tally;
      subtreeKeys, tally, visit := namespaces[ns].Keys(clock);
      assert View() == view[ns := namespaces[ns].tree];
      kept := subtreeKeys != [];
      if !kept {
        namespaces := namespaces - {ns};
      }
    }

    // The namespaces fetched for this cleanup.
    method FetchSubtrees(keys: seq<Bytes>) returns (subtrees: set<Bytes>)
      requires Enumerates(keys, namespaces.Keys)
      ensures subtrees == Fetched(keys, lastCollected) && subtrees <= namespaces.Keys
    {
      var maxNamespaces := |keys| / 2;
      subtrees := {};
      for i := 0 to maxNamespaces
        invariant subtrees == set ns | ns in keys[..i] && ns !in lastCollected
      {
        PrefixSnoc(keys, i);
        if keys[i] !in lastCollected && keys[i] in namespaces {
          subtrees := subtrees + {keys[i]};
        }
      }
    }

    // runCleanup's loop over the fetched subtrees, in whatever order.
    method CollectAll(fetched: set<Bytes>, clock: Clock) returns (crawled: set<Bytes>, ghost visits: map<Bytes, Visit>)
      requires Valid() && fetched <= namespaces.Keys
      modifies this`namespaces, Trees(), clock
      ensures Valid() && Trees() <= old(Trees())
      ensures Cleaning(old(View()), View(), fetched, {}, crawled, visits, old(clock.now), clock.now)
    {
      ghost var before := View();
      var rest := fetched;
      crawled, visits := {}, map[];
      assert Cleaning(before, View(), fetched, rest, crawled, visits, clock.now, clock.now);
      while rest != {}
        invariant Valid() && Trees() <= old(Trees())
        invariant Cleaning(before, View(), fetched, rest, crawled, visits, old(clock.now), clock.now)
        decreases rest
      {
        var ns :| ns in rest;
        ghost var view, mid, visit := View(), clock.now, Visit([], []);
        CleaningHas(before, view, fetched, rest, crawled, visits, old(clock.now), mid, ns);
        var kept;
        kept, visit := CollectNext(ns, clock);
        CleaningOneMore(before, view, fetched, rest, crawled, visits, old(clock.now), mid, clock.now, ns, visit);
        visits := visits[ns := visit];
        crawled := if kept then crawled + {ns} else crawled;
        rest := rest - {ns};
      }
    }

    method CollectFrom(keys: seq<Bytes>, clock: Clock) returns (ghost visits: map<Bytes, Visit>)
      requires Valid() && Enumerates(keys, namespaces.Keys)
      modifies this`namespaces, this`lastCollected, Trees(), clock
      ensures Valid() && Trees() <= old(Trees())
      ensures CleanedUp(old(View()), old(lastCollected), View(), lastCollected, keys, visits, old(clock.now), clock.now)
    {
      hide CleanedUp, Cleaning, Collected, Enumerates;
      ghost var before := View();
      assert Enumerates(keys, before.Keys) by { assert before.Keys == namespaces.Keys; }
      var fetched := FetchSubtrees(keys);
      var crawled;
      crawled, visits := CollectAll(fetched, clock);
      CleaningEnds(before, View(), lastCollected, keys, fetched, crawled, visits, old(clock.now), clock.now);
      lastCollected := crawled;
    }

    method RunCleanup(clock: Clock)
      returns (left: seq<Bytes>, ghost order: seq<Bytes>, ghost visits: map<Bytes, Visit>)
      requires Valid()
      modifies this`namespaces, this`lastCollected, Trees(), clock
      ensures Valid() && Trees() <= old(Trees())
      ensures if cleanupEnabled then
                && CleanedUp(old(View()), old(lastCollected), View(), lastCollected, order, visits,
                             old(clock.now), clock.now)
                && Enumerates(left, namespaces.Keys)
              else
                && left == [] && clock.now == old(clock.now)
                && View() == old(View()) && lastCollected == old(lastCollected)
    {
      hide CleanedUp, Enumerates, View;
      order, visits := [], map[];
      if !cleanupEnabled {
        return [], order, visits;
      }
      var keys := InSomeOrder(namespaces.Keys);
      order := keys;
      visits := CollectFrom(keys, clock);
      left := InSomeOrder(namespaces.Keys);
    }

    // `Namespaces`: what is left after a cleanup.
    method Namespaces(clock: Clock) returns (left: seq<Bytes>, ghost order: seq<Bytes>, ghost visits: map<Bytes, Visit>)
      requires Valid()
      modifies this`namespaces, this`lastCollected, Trees(), clock
      ensures Valid() && Trees() <= old(Trees())
      ensures if cleanupEnabled then
                && CleanedUp(old(View()), old(lastCollected), View(), lastCollected, order, visits,
                             old(clock.now), clock.now)
                && Enumerates(left, namespaces.Keys)
              else
                && left == [] && clock.now == old(clock.now)
                && View() == old(View()) && lastCollected == old(lastCollected)
    {
      left, order, visits := RunCleanup(clock);
    }
  }
}

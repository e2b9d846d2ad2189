// CountEntries and CountServerEntries while puts, counts and cleanups go on: a total is
// gathered key by key, one lock region each, and lies between two counts of the log.

module SweepTotals {
  import opened ByteStrings
  import opened Expiry
  import opened ExpiryTree
  import opened Interleaving
  import opened LossAccounting
  import opened Wrappers
  import PutLog

  // One CountEntries of a namespace that is there: it looks the tree up, lists its keys,
  // and counts each of them, at these steps of a behaviour.
  datatype Listing = Listing(ns: Bytes, r: ReaderId, open: nat, listed: nat, keys: seq<Bytes>, at: seq<nat>)

  ghost predicate IsListing(states: seq<State>, steps: seq<Step>, l: Listing, from: nat, to: nat) {
    && |states| == |steps| + 1 && from <= l.open < l.listed < to < |states| && |l.keys| == |l.at|
    && steps[l.open] == Open(l.r, l.ns) && steps[l.listed] == ListKeys(l.r, l.keys)
    && (forall i | l.open < i < to :: steps[i] != Close(l.r))
    && ReadsAt(states, steps, l.r, l.keys, l.at) && (forall k | 0 <= k < |l.at| :: l.listed < l.at[k] < to)
  }

  ghost function ListingTotal(states: seq<State>, steps: seq<Step>, l: Listing): nat
    requires |l.keys| == |l.at| && ReadsAt(states, steps, l.r, l.keys, l.at)
  {
    Gathered(states, steps, l.r, l.keys, l.at)
  }

  ghost predicate NoHazards(states: seq<State>, steps: seq<Step>, ns: Bytes, n: nat) {
    n <= |states| && n <= |steps| && forall j | 0 <= j < n :: !Hazard(states[j], steps[j], ns)
  }

  // ---- The puts of one tree ----

  predicate TreeRecord(e: Record, tree: TreeId, key: Bytes, now: int) {
    e.tree == tree && e.key == key && e.expiry > now
  }

  ghost function TreePuts(log: seq<Record>, tree: TreeId, key: Bytes, now: int): set<PutId> {
    set i | 0 <= i < |log| && TreeRecord(log[i], tree, key, now) :: log[i].put
  }

  ghost function TreePutsOfKeys(log: seq<Record>, tree: TreeId, keys: seq<Bytes>, now: int): set<PutId> {
    set i | 0 <= i < |log| && log[i].tree == tree && log[i].key in keys && log[i].expiry > now :: log[i].put
  }

  lemma TreePutsSnoc(log: seq<Record>, tree: TreeId, key: Bytes, now: int)
    requires log != [] && OncePerPut(log)
    ensures var front, e := log[..|log| - 1], log[|log| - 1];
            && e.put !in TreePuts(front, tree, key, now)
            && TreePuts(log, tree, key, now)
            == TreePuts(front, tree, key, now) + (if TreeRecord(e, tree, key, now) then {e.put} else {})
  {
    var front := log[..|log| - 1];
    assert forall i | 0 <= i < |front| :: front[i] == log[i];
  }

  lemma {:induction false} TreeCountsPuts(log: seq<Record>, tree: TreeId, key: Bytes, now: int)
    requires OncePerPut(log)
    ensures |Live(InTree(log, tree, key), now)| == |TreePuts(log, tree, key, now)|
  {
    if log != [] {
      var front, e := log[..|log| - 1], log[|log| - 1];
      TreeCountsPuts(front, tree, key, now);
      TreePutsSnoc(log, tree, key, now);
      LiveSnoc(InTree(front, tree, key), e.expiry, now);
    }
  }

  lemma TreePutsGrow(early: seq<Record>, late: seq<Record>, tree: TreeId, key: Bytes, from: int, now: int)
    requires |early| <= |late| && late[..|early|] == early && from <= now
    ensures TreePuts(early, tree, key, now) <= TreePuts(late, tree, key, from)
  {
    forall p | p in TreePuts(early, tree, key, now)
      ensures p in TreePuts(late, tree, key, from)
    {
      var i :| 0 <= i < |early| && TreeRecord(early[i], tree, key, now) && early[i].put == p;
      assert late[i] == early[i] && TreeRecord(late[i], tree, key, from);
    }
  }

  lemma OneMoreTreeKey(log: seq<Record>, tree: TreeId, keys: seq<Bytes>, key: Bytes, now: int)
    ensures TreePutsOfKeys(log, tree, keys + [key], now)
         <= TreePutsOfKeys(log, tree, keys, now) + TreePuts(log, tree, key, now)
  {
    forall p | p in TreePutsOfKeys(log, tree, keys + [key], now)
      ensures p in TreePutsOfKeys(log, tree, keys, now) + TreePuts(log, tree, key, now)
    {
      var i :| 0 <= i < |log| && log[i].put == p
               && log[i].tree == tree && log[i].key in keys + [key] && log[i].expiry > now;
      assert log[i].key == key ==> TreeRecord(log[i], tree, key, now);
    }
  }

  lemma UnionSize<T>(all: set<T>, a: set<T>, b: set<T>)
    requires all <= a + b
    ensures |all| <= |a| + |b|
  {
    SubsetSize(all, a + b);
    assert a + b == a + (b - a);
    SubsetSize(b - a, b);
  }

  // ---- What a listing cannot miss ----

  // A count sees every live put of its tree.
  lemma ReadSeesTree(s: State, tree: TreeId, key: Bytes)
    requires Inv(s) && tree in s.heap
    ensures Counted(s.heap[tree], key, s.now).1 == |TreePuts(s.log, tree, key, s.now)|
  {
    CountedIsLive(s.heap[tree], key, s.now);
    assert Live(ListAt(s.heap[tree], key), s.now) == Live(InTree(s.log, tree, key), s.now);
    hide Live, InTree, ListAt, Counted, TreePuts;
    TreeCountsPuts(s.log, tree, key, s.now);
  }

  lemma ReadSeesEarlierPuts(early: State, s: State, late: State, tree: TreeId, key: Bytes)
    requires Inv(s) && tree in s.heap && Grown(early, s) && Grown(s, late)
    ensures Counted(s.heap[tree], key, s.now).1 >= |TreePuts(early.log, tree, key, late.now)|
  {
    ReadSeesTree(s, tree, key);
    hide Inv, Counted, TreePuts;
    TreePutsGrow(early.log, s.log, tree, key, s.now, late.now);
    SubsetSize(TreePuts(early.log, tree, key, late.now), TreePuts(s.log, tree, key, s.now));
  }

  lemma {:induction false} ReaderKeepsTree(states: seq<State>, steps: seq<Step>, now: int, ttl: int,
                                           a: nat, n: nat, r: ReaderId, ns: Bytes)
    requires Behaviour(states, steps, now, ttl) && a < n < |states| && steps[a] == Open(r, ns)
    requires forall i | a < i < n :: steps[i] != Close(r)
    ensures ns in states[a].namespaces
    ensures r in states[n].readers && states[n].readers[r] == Reader(ns, states[a].namespaces[ns])
    decreases n
  {
    if n > a + 1 {
      ReaderKeepsTree(states, steps, now, ttl, a, n - 1, r, ns);
      ReaderStays(states[n - 1], steps[n - 1], r);
    }
  }

  // What the reads of some keys add up to is at least the puts of those keys that the tree
  // had at some moment before them and that are live at the end.
  lemma {:induction false} GatheredSeesTree(states: seq<State>, steps: seq<Step>, now: int, ttl: int, a: nat, m: nat,
                                            e: nat, r: ReaderId, ns: Bytes, keys: seq<Bytes>, at: seq<nat>)
    requires Behaviour(states, steps, now, ttl) && a < e < |states| && steps[a] == Open(r, ns)
    requires forall i | a < i < e :: steps[i] != Close(r)
    requires |keys| == |at| && ReadsAt(states, steps, r, keys, at)
    requires forall k | 0 <= k < |at| :: a < at[k] < e && m <= at[k]
    requires m < |states|
    ensures ns in states[a].namespaces
    ensures Gathered(states, steps, r, keys, at)
         >= |TreePutsOfKeys(states[m].log, states[a].namespaces[ns], keys, states[e].now)|
  {
    hide Inv, TreePuts, TreePutsOfKeys, Enabled, Next, Counted, Behaviour, Grown;
    ReaderKeepsTree(states, steps, now, ttl, a, e, r, ns);
    var tree := states[a].namespaces[ns];
    if keys != [] {
      var last := |keys| - 1;
      GatheredSeesTree(states, steps, now, ttl, a, m, e, r, ns, keys[..last], at[..last]);
      ReadSees(states, steps, now, ttl, a, m, at[last], e, r, ns, keys[last]);
      assert keys == keys[..last] + [keys[last]];
      OneMoreTreeKey(states[m].log, tree, keys[..last], keys[last], states[e].now);
      UnionSize(TreePutsOfKeys(states[m].log, tree, keys, states[e].now),
                TreePutsOfKeys(states[m].log, tree, keys[..last], states[e].now),
                TreePuts(states[m].log, tree, keys[last], states[e].now));
    } else {
      NoKeys(states[m].log, tree, states[e].now);
    }
  }

  lemma NoKeys(log: seq<Record>, tree: TreeId, now: int)
    ensures TreePutsOfKeys(log, tree, [], now) == {}
  {
  }

  lemma ReadSees(states: seq<State>, steps: seq<Step>, now: int, ttl: int,
                 a: nat, m: nat, i: nat, e: nat, r: ReaderId, ns: Bytes, key: Bytes)
    requires Behaviour(states, steps, now, ttl) && a < i < e < |states| && m <= i && steps[a] == Open(r, ns)
    requires Enabled(states[i], Read(r, key)) && forall k | a < k < e :: steps[k] != Close(r)
    ensures ns in states[a].namespaces
    ensures Counted(states[i].heap[states[i].readers[r].tree], key, states[i].now).1
         >= |TreePuts(states[m].log, states[a].namespaces[ns], key, states[e].now)|
  {
    hide Inv, Counted, TreePuts, Grown;
    InvHolds(states, steps, now, ttl, i);
    ReaderKeepsTree(states, steps, now, ttl, a, i, r, ns);
    BehaviourGrows(states, steps, now, ttl, m, i);
    BehaviourGrows(states, steps, now, ttl, i, e);
    ReadSeesEarlierPuts(states[m], states[i], states[e], states[a].namespaces[ns], key);
  }

  // Without a hazard so far, a put that is live is in the tree registered for its namespace.
  lemma LivePutIsRegistered(states: seq<State>, steps: seq<Step>, now: int, ttl: int, n: nat, i: nat, ns: Bytes)
    requires Behaviour(states, steps, now, ttl) && n < |states| && NoHazards(states, steps, ns, n)
    requires i < |states[n].log| && states[n].log[i].ns == ns && states[n].log[i].expiry > states[n].now
    ensures ns in states[n].namespaces && states[n].namespaces[ns] == states[n].log[i].tree
  {
    InvHolds(states, steps, now, ttl, n);
    LiveEntryIsReachableUnlessHazard(states[n], i);
    hide Inv, Behaviour;
    var tree := states[n].log[i].tree;
    if HazardTree(states[n], tree) {
      HazardTreeWasCutOff(states, steps, now, ttl, n, tree, ns);
    }
  }

  // A listing of the tree's keys has every key with a live put.
  lemma ListingHasLiveKeys(states: seq<State>, steps: seq<Step>, now: int, ttl: int, l: Listing, m: nat, to: nat,
                           i: nat)
    requires Behaviour(states, steps, now, ttl) && IsListing(states, steps, l, 0, to) && m <= l.listed
    requires i < |states[m].log| && l.ns in states[l.open].namespaces
    requires states[m].log[i].tree == states[l.open].namespaces[l.ns]
    requires states[m].log[i].expiry > states[to].now
    ensures states[m].log[i].key in l.keys
  {
    hide Inv, ReadsAt, Grown, Next;
    ReaderKeepsTree(states, steps, now, ttl, l.open, l.listed, l.r, l.ns);
    BehaviourGrows(states, steps, now, ttl, m, l.listed);
    BehaviourGrows(states, steps, now, ttl, l.listed, to);
    InvHolds(states, steps, now, ttl, l.listed);
    KeyIsListed(states[m], states[l.listed], states[to], l.r, l.keys, i);
  }

  lemma KeyIsListed(early: State, s: State, late: State, r: ReaderId, keys: seq<Bytes>, i: nat)
    requires Inv(s) && Enabled(s, ListKeys(r, keys)) && Grown(early, s) && Grown(s, late)
    requires i < |early.log| && early.log[i].tree == s.readers[r].tree && early.log[i].expiry > late.now
    ensures early.log[i].key in keys
  {
    assert early.log[i] == s.log[..|early.log|][i] == s.log[i];
    hide Owned, TreesAgree, Attached, QuietIsDead, RacesRecorded, WindowsHold, Counted;
    LiveRecordHasCount(s, i);
  }

  // The namespace is registered with the tree that the call looked up.
  ghost predicate StillRegistered(states: seq<State>, l: Listing, m: nat)
    requires l.open < |states| && m < |states|
  {
    l.ns in states[l.open].namespaces && l.ns in states[m].namespaces
    && states[m].namespaces[l.ns] == states[l.open].namespaces[l.ns]
  }

  // Whatever goes on meanwhile, a CountEntries answers at least the puts to its namespace
  // that were completed by a moment at which its tree was still registered, no later than
  // the listing of the keys, and that are live when it ends, as long as no hazard struck the
  // namespace before that moment.
  lemma ListingMissesNothing(states: seq<State>, steps: seq<Step>, now: int, ttl: int, l: Listing, m: nat, to: nat)
    requires Behaviour(states, steps, now, ttl) && IsListing(states, steps, l, 0, to)
    requires m <= l.listed && StillRegistered(states, l, m) && NoHazards(states, steps, l.ns, m)
    ensures |LiveNsPuts(states[m].log, l.ns, states[to].now)| <= ListingTotal(states, steps, l)
  {
    hide Behaviour, ReadsAt, NoHazards, ListingTotal, TreePutsOfKeys, LiveNsPuts;
    ListingSeesTree(states, steps, now, ttl, l, m, to);
    LivePutsAreListed(states, steps, now, ttl, l, m, to);
    SubsetSize(LiveNsPuts(states[m].log, l.ns, states[to].now),
               TreePutsOfKeys(states[m].log, states[l.open].namespaces[l.ns], l.keys, states[to].now));
  }

  lemma ListingSeesTree(states: seq<State>, steps: seq<Step>, now: int, ttl: int, l: Listing, m: nat, to: nat)
    requires Behaviour(states, steps, now, ttl) && IsListing(states, steps, l, 0, to) && m <= l.listed
    ensures l.ns in states[l.open].namespaces
    ensures ListingTotal(states, steps, l)
         >= |TreePutsOfKeys(states[m].log, states[l.open].namespaces[l.ns], l.keys, states[to].now)|
  {
    hide Behaviour, ReadsAt, TreePutsOfKeys;
    GatheredSeesTree(states, steps, now, ttl, l.open, m, to, l.r, l.ns, l.keys, l.at);
  }

  lemma LivePutsAreListed(states: seq<State>, steps: seq<Step>, now: int, ttl: int, l: Listing, m: nat, to: nat)
    requires Behaviour(states, steps, now, ttl) && IsListing(states, steps, l, 0, to)
    requires m <= l.listed && StillRegistered(states, l, m) && NoHazards(states, steps, l.ns, m)
    ensures LiveNsPuts(states[m].log, l.ns, states[to].now)
         <= TreePutsOfKeys(states[m].log, states[l.open].namespaces[l.ns], l.keys, states[to].now)
  {
    BehaviourGrows(states, steps, now, ttl, m, to);
    hide Behaviour, ReadsAt, NoHazards;
    var s, t := states[m], states[to].now;
    forall p | p in LiveNsPuts(s.log, l.ns, t)
      ensures p in TreePutsOfKeys(s.log, states[l.open].namespaces[l.ns], l.keys, t)
    {
      var i :| 0 <= i < |s.log| && s.log[i].ns == l.ns && s.log[i].expiry > t && s.log[i].put == p;
      LivePutIsRegistered(states, steps, now, ttl, m, i, l.ns);
      ListingHasLiveKeys(states, steps, now, ttl, l, m, to, i);
    }
  }

  // Main result. So it misses no put completed before it looked its tree up.
  lemma CountEntriesMissesNothing(states: seq<State>, steps: seq<Step>, now: int, ttl: int, l: Listing, to: nat)
    requires Behaviour(states, steps, now, ttl) && IsListing(states, steps, l, 0, to)
    requires NoHazards(states, steps, l.ns, l.open)
    ensures |LiveNsPuts(states[l.open].log, l.ns, states[to].now)| <= ListingTotal(states, steps, l)
  {
    hide Behaviour, ReadsAt, NoHazards, ListingTotal, LiveNsPuts;
    ListingSeesTree(states, steps, now, ttl, l, l.open, to);
    ListingMissesNothing(states, steps, now, ttl, l, l.open, to);
  }

  lemma ListedOnce(states: seq<State>, steps: seq<Step>, now: int, ttl: int, l: Listing, to: nat)
    requires Behaviour(states, steps, now, ttl) && IsListing(states, steps, l, 0, to)
    ensures Distinct(l.keys)
  {
    hide ReadsAt, Next;
    assert Enabled(states[l.listed], ListKeys(l.r, l.keys));
  }

  // And at most the puts stamped before it ends that were live when it looked the tree up.
  lemma ListingNeverOvercounts(states: seq<State>, steps: seq<Step>, now: int, ttl: int, l: Listing, to: nat)
    requires Behaviour(states, steps, now, ttl) && IsListing(states, steps, l, 0, to)
    ensures ListingTotal(states, steps, l) <= |LiveNsPuts(states[to].log, l.ns, states[l.open].now)|
  {
    hide Behaviour, LiveNsPuts, ReadsAt;
    ListedOnce(states, steps, now, ttl, l, to);
    CountEntriesNeverOvercounts(states, steps, now, ttl, l.open, to, l.r, l.ns, l.keys, l.at);
  }

  // ---- The whole server ----

  // One round of CountServerEntries: the namespace is gone when it is looked up, or it is
  // listed and counted.
  datatype Round = Gone(ns: Bytes, at: nat) | Found(listing: Listing)

  function NsOf(round: Round): Bytes {
    match round
    case Gone(ns, _) => ns
    case Found(l) => l.ns
  }

  ghost predicate IsRound(states: seq<State>, steps: seq<Step>, round: Round, from: nat, to: nat) {
    match round
    case Gone(ns, at) => from <= at < to < |states| && |states| == |steps| + 1 && ns !in states[at].namespaces
    case Found(l) => IsListing(states, steps, l, from, to)
  }

  ghost function RoundTotal(states: seq<State>, steps: seq<Step>, round: Round, from: nat, to: nat): nat
    requires IsRound(states, steps, round, from, to)
  {
    match round
    case Gone(_, _) => 0
    case Found(l) => ListingTotal(states, steps, l)
  }

  // One round for every namespace of the list.
  ghost predicate AreRounds(states: seq<State>, steps: seq<Step>, rounds: seq<Round>, order: seq<Bytes>,
                            from: nat, to: nat) {
    && |rounds| == |order|
    && forall k | 0 <= k < |rounds| :: NsOf(rounds[k]) == order[k] && IsRound(states, steps, rounds[k], from, to)
  }

  ghost function ServerTotal(states: seq<State>, steps: seq<Step>, rounds: seq<Round>, order: seq<Bytes>,
                             from: nat, to: nat): nat
    requires AreRounds(states, steps, rounds, order, from, to)
  {
    if rounds == [] then 0
    else
      var last := |rounds| - 1;
      ServerTotal(states, steps, rounds[..last], order[..last], from, to)
      + RoundTotal(states, steps, rounds[last], from, to)
  }

  ghost function LiveSpacesPuts(log: seq<Record>, spaces: seq<Bytes>, now: int): set<PutId> {
    set i | 0 <= i < |log| && log[i].ns in spaces && log[i].expiry > now :: log[i].put
  }

  // The puts whose entry is live, to any namespace.
  ghost function AllLivePuts(log: seq<Record>, now: int): set<PutId> {
    set i | 0 <= i < |log| && log[i].expiry > now :: log[i].put
  }

  lemma OneMoreSpace(log: seq<Record>, spaces: seq<Bytes>, ns: Bytes, now: int)
    requires OncePerPut(log) && ns !in spaces
    ensures LiveSpacesPuts(log, spaces + [ns], now) == LiveSpacesPuts(log, spaces, now) + LiveNsPuts(log, ns, now)
    ensures LiveSpacesPuts(log, spaces, now) !! LiveNsPuts(log, ns, now)
  {
    var all, before, one := LiveSpacesPuts(log, spaces + [ns], now), LiveSpacesPuts(log, spaces, now),
                            LiveNsPuts(log, ns, now);
    forall p | p in one
      ensures p in all && p !in before
    {
      var i :| 0 <= i < |log| && log[i].put == p && log[i].ns == ns && log[i].expiry > now;
      assert log[i].ns in spaces + [ns];
      assert forall j | 0 <= j < |log| && log[j].put == p :: j == i;
    }
  }

  lemma OneMoreSpaceCounts(s: State, spaces: seq<Bytes>, ns: Bytes, now: int)
    requires Inv(s) && ns !in spaces
    ensures |LiveSpacesPuts(s.log, spaces + [ns], now)|
         == |LiveSpacesPuts(s.log, spaces, now)| + |LiveNsPuts(s.log, ns, now)|
  {
    OneMoreSpace(s.log, spaces, ns, now);
  }

  lemma NsPutsGrow(early: seq<Record>, late: seq<Record>, ns: Bytes, from: int, now: int)
    requires |early| <= |late| && late[..|early|] == early && from <= now
    ensures LiveNsPuts(early, ns, now) <= LiveNsPuts(late, ns, from)
    ensures |LiveNsPuts(early, ns, now)| <= |LiveNsPuts(late, ns, from)|
  {
    forall p | p in LiveNsPuts(early, ns, now)
      ensures p in LiveNsPuts(late, ns, from)
    {
      var i :| 0 <= i < |early| && early[i].ns == ns && early[i].expiry > now && early[i].put == p;
      assert late[i] == early[i];
    }
    SubsetSize(LiveNsPuts(early, ns, now), LiveNsPuts(late, ns, from));
  }

  lemma RoundNeverOvercounts(states: seq<State>, steps: seq<Step>, now: int, ttl: int, round: Round, z: nat, to: nat)
    requires Behaviour(states, steps, now, ttl) && IsRound(states, steps, round, z, to)
    ensures RoundTotal(states, steps, round, z, to) <= |LiveNsPuts(states[to].log, NsOf(round), states[z].now)|
  {
    hide LiveNsPuts, Behaviour, ReadsAt, ListingTotal;
    if round.Found? {
      var l := round.listing;
      ListingNeverOvercounts(states, steps, now, ttl, l, to);
      BehaviourGrows(states, steps, now, ttl, z, l.open);
      assert states[to].log[..|states[to].log|] == states[to].log;
      NsPutsGrow(states[to].log, states[to].log, l.ns, states[z].now, states[l.open].now);
    }
  }

  // Nothing of a namespace that is gone is live, if no hazard has struck it.
  lemma GoneIsDead(states: seq<State>, steps: seq<Step>, now: int, ttl: int, ns: Bytes, z: nat, at: nat, to: nat)
    requires Behaviour(states, steps, now, ttl) && z <= at < to < |states|
    requires NoHazards(states, steps, ns, at) && ns !in states[at].namespaces
    ensures LiveNsPuts(states[z].log, ns, states[to].now) == {}
  {
    BehaviourGrows(states, steps, now, ttl, z, at);
    BehaviourGrows(states, steps, now, ttl, at, to);
    hide Behaviour, NoHazards;
    var t := states[to].now;
    forall i | 0 <= i < |states[z].log| && states[z].log[i].ns == ns
      ensures states[z].log[i].expiry <= t
    {
      assert states[z].log[i] == states[at].log[..|states[z].log|][i] == states[at].log[i];
      if states[z].log[i].expiry > t {
        LivePutIsRegistered(states, steps, now, ttl, at, i, ns);
      }
    }
  }

  lemma FewerHazards(states: seq<State>, steps: seq<Step>, ns: Bytes, n: nat, m: nat)
    requires NoHazards(states, steps, ns, n) && m <= n
    ensures NoHazards(states, steps, ns, m)
  {
  }

  lemma RoundMissesNothing(states: seq<State>, steps: seq<Step>, now: int, ttl: int, round: Round, z: nat, to: nat)
    requires Behaviour(states, steps, now, ttl) && IsRound(states, steps, round, z, to)
    requires NoHazards(states, steps, NsOf(round), to)
    ensures |LiveNsPuts(states[z].log, NsOf(round), states[to].now)| <= RoundTotal(states, steps, round, z, to)
  {
    hide LiveNsPuts, Behaviour, NoHazards;
    match round
    case Gone(ns, at) =>
      FewerHazards(states, steps, ns, to, at);
      GoneIsDead(states, steps, now, ttl, ns, z, at, to);
    case Found(l) =>
      FewerHazards(states, steps, l.ns, to, l.open);
      CountEntriesMissesNothing(states, steps, now, ttl, l, to);
      BehaviourGrows(states, steps, now, ttl, z, l.open);
      NsPutsGrow(states[z].log, states[l.open].log, l.ns, states[to].now, states[to].now);
  }

  lemma {:induction false} RoundsNeverOvercount(states: seq<State>, steps: seq<Step>, now: int, ttl: int,
                                                rounds: seq<Round>, order: seq<Bytes>, z: nat, to: nat)
    requires Behaviour(states, steps, now, ttl) && z < to < |states| && Distinct(order)
    requires AreRounds(states, steps, rounds, order, z, to)
    ensures ServerTotal(states, steps, rounds, order, z, to)
         <= |LiveSpacesPuts(states[to].log, order, states[z].now)|
  {
    hide LiveSpacesPuts, LiveNsPuts, Inv, Behaviour, IsRound, RoundTotal;
    if rounds != [] {
      var last := |rounds| - 1;
      RoundsNeverOvercount(states, steps, now, ttl, rounds[..last], order[..last], z, to);
      RoundNeverOvercounts(states, steps, now, ttl, rounds[last], z, to);
      InvHolds(states, steps, now, ttl, to);
      assert order == order[..last] + [order[last]] && order[last] !in order[..last];
      OneMoreSpaceCounts(states[to], order[..last], order[last], states[z].now);
    }
  }

  lemma {:induction false} RoundsMissNothing(states: seq<State>, steps: seq<Step>, now: int, ttl: int,
                                             rounds: seq<Round>, order: seq<Bytes>, z: nat, to: nat)
    requires Behaviour(states, steps, now, ttl) && z < to < |states| && Distinct(order)
    requires AreRounds(states, steps, rounds, order, z, to)
    requires forall k | 0 <= k < |order| :: NoHazards(states, steps, order[k], to)
    ensures |LiveSpacesPuts(states[z].log, order, states[to].now)|
         <= ServerTotal(states, steps, rounds, order, z, to)
  {
    hide LiveSpacesPuts, LiveNsPuts, Inv, Behaviour, IsRound, RoundTotal, NoHazards;
    if rounds != [] {
      var last := |rounds| - 1;
      RoundsMissNothing(states, steps, now, ttl, rounds[..last], order[..last], z, to);
      RoundMissesNothing(states, steps, now, ttl, rounds[last], z, to);
      InvHolds(states, steps, now, ttl, z);
      assert order == order[..last] + [order[last]] && order[last] !in order[..last];
      OneMoreSpaceCounts(states[z], order[..last], order[last], states[to].now);
    } else {
      NoSpaces(states[z].log, states[to].now);
    }
  }

  lemma NoSpaces(log: seq<Record>, now: int)
    ensures LiveSpacesPuts(log, [], now) == {}
  {
  }

  // Main result. A CountServerEntries that lists the namespaces and then counts each of them,
  // with any puts, counts and cleanups in between, answers at most the distinct puts stamped
  // before it ends that were live when it listed the namespaces; and, without a hazard, at
  // least those completed before it listed the namespaces that are live when it ends.
  lemma CountServerEntriesSandwich(states: seq<State>, steps: seq<Step>, now: int, ttl: int,
                                   rounds: seq<Round>, order: seq<Bytes>, z: nat, to: nat)
    requires Behaviour(states, steps, now, ttl) && z < to < |states| && steps[z] == ListSpaces(order)
    requires AreRounds(states, steps, rounds, order, z, to)
    ensures ServerTotal(states, steps, rounds, order, z, to) <= |AllLivePuts(states[to].log, states[z].now)|
    ensures (forall ns :: NoHazards(states, steps, ns, to)) ==>
              |AllLivePuts(states[z].log, states[to].now)| <= ServerTotal(states, steps, rounds, order, z, to)
  {
    assert Enabled(states[z], ListSpaces(order));
    hide Behaviour, IsRound, RoundTotal, AreRounds, ServerTotal, NoHazards;
    RoundsNeverOvercount(states, steps, now, ttl, rounds, order, z, to);
    SubsetSize(LiveSpacesPuts(states[to].log, order, states[z].now), AllLivePuts(states[to].log, states[z].now));
    if forall ns :: NoHazards(states, steps, ns, to) {
      RoundsMissNothing(states, steps, now, ttl, rounds, order, z, to);
      LiveSpacesAreListed(states, steps, now, ttl, order, z, to);
      SubsetSize(AllLivePuts(states[z].log, states[to].now), LiveSpacesPuts(states[z].log, order, states[to].now));
    }
  }

  lemma LiveSpacesAreListed(states: seq<State>, steps: seq<Step>, now: int, ttl: int, order: seq<Bytes>, z: nat,
                            to: nat)
    requires Behaviour(states, steps, now, ttl) && z < to < |states| && Enumerates(order, states[z].namespaces.Keys)
    requires forall ns :: NoHazards(states, steps, ns, to)
    ensures AllLivePuts(states[z].log, states[to].now) <= LiveSpacesPuts(states[z].log, order, states[to].now)
  {
    BehaviourGrows(states, steps, now, ttl, z, to);
    hide Behaviour, NoHazards;
    var s, t := states[z], states[to].now;
    forall p | p in AllLivePuts(s.log, t)
      ensures p in LiveSpacesPuts(s.log, order, t)
    {
      var i :| 0 <= i < |s.log| && s.log[i].expiry > t && s.log[i].put == p;
      FewerHazards(states, steps, s.log[i].ns, to, z);
      LivePutIsRegistered(states, steps, now, ttl, z, i, s.log[i].ns);
    }
  }

  // ---- A put that a listing misses ----

  // The put to `a` has completed and expired; the put to `b` has not appended yet.
  function Expired(a: Bytes, b: Bytes, key: Bytes): State {
    State(60, 60, map[0 := map[key := [60]], 1 := map[]], map[a := 0, b := 1], {}, map[1 := Holding(b, key, 1)],
          map[], map[], map[0 := (a, key), 1 := (b, key)], map[0 := a, 1 := b], [Record(0, a, key, 0, 60)],
          map[], map[0 := {}, 1 := {}])
  }

  // A CountEntries has looked up the tree of `a`, and a cleanup is at this point.
  function Cleaning(a: Bytes, b: Bytes, key: Bytes, content: Content, cleanup: CleanupPc): State {
    State(60, 60, map[0 := content, 1 := map[]], map[a := 0, b := 1], {}, map[1 := Holding(b, key, 1)],
          map[0 := cleanup], map[0 := Reader(a, 0)], map[0 := (a, key), 1 := (b, key)], map[0 := a, 1 := b],
          [Record(0, a, key, 0, 60)], map[], map[0 := {}, 1 := {}])
  }

  // It has fetched that tree.
  function LookedUp(a: Bytes, b: Bytes, key: Bytes): State {
    Cleaning(a, b, key, map[key := [60]], Crawling(map[a := 0], {}, None, {b}))
  }

  // It has found nothing live in it, and removed `a`.
  function Removed(a: Bytes, b: Bytes, key: Bytes): State {
    State(60, 60, map[0 := map[key := []], 1 := map[]], map[b := 1], {}, map[1 := Holding(b, key, 1)],
          map[0 := Crawling(map[], {}, None, {b})], map[0 := Reader(a, 0)], map[0 := (a, key), 1 := (b, key)],
          map[0 := a, 1 := b], [Record(0, a, key, 0, 60)], map[0 := RemovedQuiet(0)], map[0 := {}, 1 := {}])
  }

  lemma ExpiredArises(a: Bytes, b: Bytes, key: Bytes)
    requires a != b
    ensures Arises(Expired(a, b, key))
  {
    hide Arises;
    BothRegisteredArises(a, b, key);
    var s := BothRegistered(a, b, key);
    ArisesNext(s, Append(0, 0));
    var s1 := s.(heap := map[0 := map[key := [60]], 1 := map[]],
                 puts := map[1 := Holding(b, key, 1)], log := [Record(0, a, key, 0, 60)]);
    FirstEntry(key, 0);
    assert AfterAppend(s, 0, 0) == s1;
    ArisesNext(s1, Tick(60));
  }

  lemma FetchIs(s: State, c: CleanupId, keys: seq<Bytes>, half: seq<Bytes>, pending: map<Bytes, TreeId>,
                busy: set<Bytes>)
    requires c in s.cleanups && s.cleanups[c] == Snapped(keys) && half == keys[..|keys| / 2] && InFlight(s) == busy
    requires pending == map ns | ns in half && ns !in s.lastCollected && ns in s.namespaces :: s.namespaces[ns]
    ensures Enabled(s, Fetch(c))
    ensures Next(s, Fetch(c)) == s.(cleanups := s.cleanups[c := Crawling(pending, {}, None, busy)])
  {
    hide InFlight;
  }

  lemma OneInFlight(a: Bytes, b: Bytes, key: Bytes)
    ensures InFlight(Cleaning(a, b, key, map[key := [60]], Snapped([a, b]))) == {b}
  {
    var s := Cleaning(a, b, key, map[key := [60]], Snapped([a, b]));
    assert s.puts[1].ns == b;
  }

  lemma ExpiredIsFetched(a: Bytes, b: Bytes, key: Bytes)
    requires a != b
    ensures var s := Cleaning(a, b, key, map[key := [60]], Snapped([a, b]));
            Enabled(s, Fetch(0)) && Next(s, Fetch(0)) == LookedUp(a, b, key)
  {
    var s := Cleaning(a, b, key, map[key := [60]], Snapped([a, b]));
    var half := [a];
    assert [a, b][..1] == half;
    OneInFlight(a, b, key);
    assert map[a := 0] == map ns | ns in half && ns !in s.lastCollected && ns in s.namespaces :: s.namespaces[ns];
    hide InFlight, Next, Enabled;
    FetchIs(s, 0, [a, b], half, map[a := 0], {b});
    var pc := Crawling(map[a := 0], {}, None, {b});
    assert s.cleanups[0 := pc] == map[0 := pc];
  }

  lemma LookedUpArises(a: Bytes, b: Bytes, key: Bytes)
    requires a != b
    ensures Arises(LookedUp(a, b, key))
  {
    hide Arises;
    ExpiredArises(a, b, key);
    var s := Expired(a, b, key);
    ArisesNext(s, Open(0, a));
    var s1 := s.(readers := map[0 := Reader(a, 0)]);
    assert Next(s, Open(0, a)) == s1;
    ArisesNext(s1, Snapshot(0, [a, b]));
    var s2 := Cleaning(a, b, key, map[key := [60]], Snapped([a, b]));
    assert Next(s1, Snapshot(0, [a, b])) == s2;
    ExpiredIsFetched(a, b, key);
    hide Next, Enabled;
    ArisesNext(s2, Fetch(0));
  }

  // The cleanup under way, with its sweep at this point.
  function SweepingOne(a: Bytes, b: Bytes, key: Bytes, content: Content, todo: seq<Bytes>): State {
    Cleaning(a, b, key, content, Crawling(map[a := 0], {}, Some(Sweep(a, 0, todo, [])), {b}))
  }

  lemma SweepArises(a: Bytes, b: Bytes, key: Bytes)
    requires a != b
    ensures Arises(SweepingOne(a, b, key, map[key := []], []))
  {
    hide Arises;
    LookedUpArises(a, b, key);
    var s := LookedUp(a, b, key);
    assert Enabled(s, Begin(0, a, [key]));
    ArisesNext(s, Begin(0, a, [key]));
    assert Next(s, Begin(0, a, [key])) == SweepingOne(a, b, key, map[key := [60]], [key]);
    SweptAway(a, b, key);
    hide Next, Enabled;
    ArisesNext(SweepingOne(a, b, key, map[key := [60]], [key]), SweepKey(0));
  }

  lemma ExpiredCount(key: Bytes)
    ensures Counted(map[key := [60]], key, 60) == (map[key := []], 0)
  {
    var content: Content := map[key := [60]];
    assert [60][..|[60]| - 1] == [];
    assert Live([60], 60) == [];
    assert content[key := []] == map[key := []];
  }

  lemma SweptAway(a: Bytes, b: Bytes, key: Bytes)
    ensures var s := SweepingOne(a, b, key, map[key := [60]], [key]);
            Enabled(s, SweepKey(0)) && Next(s, SweepKey(0)) == SweepingOne(a, b, key, map[key := []], [])
  {
    ExpiredCount(key);
    hide Counted;
    var s := SweepingOne(a, b, key, map[key := [60]], [key]);
    var s' := AfterSweepKey(s, 0);
    assert [key][1..] == [];
    assert s'.heap == map[0 := map[key := []], 1 := map[]];
    assert s'.cleanups == map[0 := Crawling(map[a := 0], {}, Some(Sweep(a, 0, [], [])), {b})];
  }

  lemma RemovedArises(a: Bytes, b: Bytes, key: Bytes)
    requires a != b
    ensures Arises(Removed(a, b, key))
  {
    hide Arises;
    SweepArises(a, b, key);
    var s := SweepingOne(a, b, key, map[key := []], []);
    assert Enabled(s, Remove(0));
    ArisesNext(s, Remove(0));
    assert AfterRemove(s, 0) == Removed(a, b, key);
  }

  // Another put to `a` is at this point, with a tree or none registered for `a`.
  function Again(a: Bytes, b: Bytes, key: Bytes, heap: map<TreeId, Content>, namespaces: map<Bytes, TreeId>,
                 puts: map<PutId, PutPc>, owner: map<TreeId, Bytes>, log: seq<Record>,
                 raced: map<TreeId, set<PutId>>): State {
    State(60, 60, heap, namespaces, {}, puts, map[0 := Crawling(map[], {}, None, {b, a})], map[0 := Reader(a, 0)],
          map[0 := (a, key), 1 := (b, key), 2 := (a, key)], owner, log, map[0 := RemovedQuiet(0)], raced)
  }

  // It has missed.
  function MissedAgain(a: Bytes, b: Bytes, key: Bytes): State {
    Again(a, b, key, map[0 := map[key := []], 1 := map[]], map[b := 1],
          map[1 := Holding(b, key, 1), 2 := Missed(a, key)], map[0 := a, 1 := b],
          [Record(0, a, key, 0, 60)], map[0 := {}, 1 := {}])
  }

  // It has registered a new tree.
  function RegisteredAgain(a: Bytes, b: Bytes, key: Bytes): State {
    Again(a, b, key, map[0 := map[key := []], 1 := map[], 2 := map[]], map[b := 1, a := 2],
          map[1 := Holding(b, key, 1), 2 := Holding(a, key, 2)], map[0 := a, 1 := b, 2 := a],
          [Record(0, a, key, 0, 60)], map[0 := {}, 1 := {}, 2 := {}])
  }

  // And it has completed.
  function PutAgain(a: Bytes, b: Bytes, key: Bytes): State {
    Again(a, b, key, map[0 := map[key := []], 1 := map[], 2 := map[key := [120]]], map[b := 1, a := 2],
          map[1 := Holding(b, key, 1)], map[0 := a, 1 := b, 2 := a],
          [Record(0, a, key, 0, 60), Record(2, a, key, 2, 120)], map[0 := {}, 1 := {}, 2 := {}])
  }

  lemma MissedAgainArises(a: Bytes, b: Bytes, key: Bytes)
    requires a != b
    ensures Arises(MissedAgain(a, b, key))
  {
    hide Arises;
    RemovedArises(a, b, key);
    var s := Removed(a, b, key);
    assert Enabled(s, Lookup(2, a, key));
    ArisesNext(s, Lookup(2, a, key));
    assert {b} + {a} == {b, a};
    assert Touch(s.cleanups, a) == map[0 := Crawling(map[], {}, None, {b, a})];
    assert Next(s, Lookup(2, a, key)) == MissedAgain(a, b, key);
  }

  lemma RegisteredAgainArises(a: Bytes, b: Bytes, key: Bytes)
    requires a != b
    ensures Arises(RegisteredAgain(a, b, key))
  {
    hide Arises;
    MissedAgainArises(a, b, key);
    var s := MissedAgain(a, b, key);
    assert Enabled(s, Register(2, 2));
    ArisesNext(s, Register(2, 2));
    assert RivalsOf(s, 2, a) == {};
    assert AfterRegister(s, 2, 2) == RegisteredAgain(a, b, key);
  }

  lemma FirstEntry(key: Bytes, t: int)
    ensures WithEntry(map[], key, 60, t, t) == map[key := [t + 60]]
  {
    assert Live([], t) + [t + 60] == [t + 60];
  }

  lemma PutAgainArises(a: Bytes, b: Bytes, key: Bytes)
    requires a != b
    ensures Arises(PutAgain(a, b, key))
  {
    hide Arises;
    RegisteredAgainArises(a, b, key);
    var s := RegisteredAgain(a, b, key);
    assert Enabled(s, Append(2, 60));
    ArisesNext(s, Append(2, 60));
    FirstEntry(key, 60);
    assert AfterAppend(s, 2, 60) == PutAgain(a, b, key);
  }

  // A put completed after the look-up may be missed, although nothing is lost: a cleanup that
  // no put overlaps removes the tree a CountEntries has looked up, and a later put registers
  // another. The call still counts in the old tree, and a new count sees the put.
  lemma LatePutIsMissed(a: Bytes, b: Bytes, key: Bytes)
    requires a != b
    ensures exists s, r :: Arises(s) && r in s.readers && s.readers[r].ns == a && s.readers[r].tree in s.heap
              && SpecCount(s, a, key) == 1 && Answer(s, a, key) == 1
              && forall k :: Counted(s.heap[s.readers[r].tree], k, s.now).1 == 0
  {
    hide Arises;
    PutAgainArises(a, b, key);
    var s := PutAgain(a, b, key);
    SecondPutCounts(a, key);
    assert Live([120], 60) == [120] by {
      LiveSnoc([], 120, 60);
      assert [] + [120] == [120];
    }
    assert 0 in s.readers;
  }

  lemma SecondPutCounts(a: Bytes, key: Bytes)
    ensures PutLog.Count(Completed([Record(0, a, key, 0, 60), Record(2, a, key, 2, 120)], 60), a, key, 60, 60) == 1
  {
    var first, second := Record(0, a, key, 0, 60), Record(2, a, key, 2, 120);
    var log, spec := [first, second], Completed([first], 60) + [PutLog.Entry(a, key, 60)];
    OneRecordCounts(first, 60, 60);
    assert log[..1] == [first] && Completed(log, 60) == spec;
    assert spec[..|spec| - 1] == Completed([first], 60);
  }
}

// What the interleaved store guarantees about its counts, and exactly when and how a
// completed put can be lost.

module LossAccounting {
  import opened ByteStrings
  import opened Expiry
  import opened ExpiryTree
  import opened Wrappers
  import opened Interleaving
  import PutLog

  // The put log of the completed puts.
  function Completed(log: seq<Record>, ttl: int): seq<PutLog.Entry> {
    if log == [] then []
    else
      var e := log[|log| - 1];
      Completed(log[..|log| - 1], ttl) + [PutLog.Entry(e.ns, e.key, e.expiry - ttl)]
  }

  function SpecCount(s: State, ns: Bytes, key: Bytes): nat {
    PutLog.Count(Completed(s.log, s.ttl), ns, key, s.ttl, s.now)
  }

  // What `Store.Count(ns, key)` answers when it runs alone from this state.
  function Answer(s: State, ns: Bytes, key: Bytes): nat {
    if ns in s.namespaces && s.namespaces[ns] in s.heap then Counted(s.heap[s.namespaces[ns]], key, s.now).1
    else 0
  }

  // A tree that a Put overwrote, or that a cleanup removed under a Put.
  predicate HazardTree(s: State, tree: TreeId) {
    tree in s.detached && !s.detached[tree].RemovedQuiet?
  }

  // The live entries at (ns, key) that sit in such a tree.
  function Lost(s: State, log: seq<Record>, ns: Bytes, key: Bytes): nat {
    if log == [] then 0
    else
      var e := log[|log| - 1];
      Lost(s, log[..|log| - 1], ns, key)
      + PutLog.One(e.ns == ns && e.key == key && e.expiry > s.now && HazardTree(s, e.tree))
  }

  lemma CountedIsLive(content: Content, key: Bytes, now: int)
    ensures Counted(content, key, now).1 == |Live(ListAt(content, key), now)|
  {
  }

  // A live entry is unreachable exactly when a hazard detached its tree.
  lemma LiveEntryIsReachableUnlessHazard(s: State, i: nat)
    requires Inv(s) && i < |s.log| && s.log[i].expiry > s.now
    ensures Belongs(s, s.log[i].tree, s.log[i].ns)
    ensures Reachable(s, s.log[i].tree) <==> !HazardTree(s, s.log[i].tree)
    ensures HazardTree(s, s.log[i].tree) <==> s.log[i].tree in s.detached
  {
    assert OwnedRecord(s, s.log[i]);
    var tree := s.log[i].tree;
    assert tree in s.detached && s.detached[tree].RemovedQuiet? ==> Dead(s, tree);
  }

  ghost predicate Placed(s: State, e: Record) {
    && Belongs(s, e.tree, e.ns)
    && (e.expiry > s.now ==> (Reachable(s, e.tree) <==> !HazardTree(s, e.tree)))
  }

  lemma {:induction false} AccountingOfPrefix(s: State, log: seq<Record>, ns: Bytes, key: Bytes)
    requires forall i | 0 <= i < |log| :: Placed(s, log[i])
    requires ns in s.namespaces ==> Belongs(s, s.namespaces[ns], ns)
    ensures PutLog.Count(Completed(log, s.ttl), ns, key, s.ttl, s.now)
         == (if ns in s.namespaces then |Live(InTree(log, s.namespaces[ns], key), s.now)| else 0)
            + Lost(s, log, ns, key)
  {
    if log != [] {
      var front, e := log[..|log| - 1], log[|log| - 1];
      AccountingOfPrefix(s, front, ns, key);
      assert Placed(s, e);
      assert Completed(log, s.ttl)[..|log| - 1] == Completed(front, s.ttl) by { CompletedLength(front, s.ttl); }
      CompletedLength(log, s.ttl);
      if ns in s.namespaces {
        LiveSnoc(InTree(front, s.namespaces[ns], key), e.expiry, s.now);
      }
    }
  }

  lemma {:induction false} CompletedLength(log: seq<Record>, ttl: int)
    ensures |Completed(log, ttl)| == |log|
  {
    if log != [] {
      CompletedLength(log[..|log| - 1], ttl);
    }
  }

  // Main result. At every reachable state and for every key, the live completed puts are
  // those a count answers plus those whose tree a hazard detached: nothing else is lost.
  lemma LossIsAccountedFor(s: State, ns: Bytes, key: Bytes)
    requires Inv(s)
    ensures SpecCount(s, ns, key) == Answer(s, ns, key) + Lost(s, s.log, ns, key)
  {
    forall i | 0 <= i < |s.log|
      ensures Placed(s, s.log[i])
    {
      assert OwnedRecord(s, s.log[i]);
      if s.log[i].expiry > s.now {
        LiveEntryIsReachableUnlessHazard(s, i);
      }
    }
    AccountingOfPrefix(s, s.log, ns, key);
    if ns in s.namespaces {
      assert Belongs(s, s.namespaces[ns], ns);
      CountedIsLive(s.heap[s.namespaces[ns]], key, s.now);
      assert Live(ListAt(s.heap[s.namespaces[ns]], key), s.now) == Live(InTree(s.log, s.namespaces[ns], key), s.now);
    }
  }

  lemma {:induction false} TreeCountsNoMoreThanLog(s: State, log: seq<Record>, tree: TreeId, ns: Bytes, key: Bytes)
    requires forall i | 0 <= i < |log| :: log[i].tree == tree ==> log[i].ns == ns
    ensures |Live(InTree(log, tree, key), s.now)| <= PutLog.Count(Completed(log, s.ttl), ns, key, s.ttl, s.now)
  {
    if log != [] {
      var front, e := log[..|log| - 1], log[|log| - 1];
      TreeCountsNoMoreThanLog(s, front, tree, ns, key);
      CompletedLength(front, s.ttl);
      CompletedLength(log, s.ttl);
      assert Completed(log, s.ttl)[..|log| - 1] == Completed(front, s.ttl);
      LiveSnoc(InTree(front, tree, key), e.expiry, s.now);
    }
  }

  // Whatever tree of a namespace a call still holds, reachable or not, it never counts
  // more than the log does.
  lemma NeverOvercounts(s: State, tree: TreeId, ns: Bytes, key: Bytes)
    requires Inv(s) && Belongs(s, tree, ns)
    ensures Counted(s.heap[tree], key, s.now).1 <= SpecCount(s, ns, key)
  {
    forall i | 0 <= i < |s.log| && s.log[i].tree == tree
      ensures s.log[i].ns == ns
    {
      assert OwnedRecord(s, s.log[i]);
    }
    TreeCountsNoMoreThanLog(s, s.log, tree, ns, key);
    CountedIsLive(s.heap[tree], key, s.now);
    assert Live(ListAt(s.heap[tree], key), s.now) == Live(InTree(s.log, tree, key), s.now);
  }

  predicate LiveRecord(e: Record, ns: Bytes, key: Bytes, now: int) {
    e.ns == ns && e.key == key && e.expiry > now
  }

  // The puts to (ns, key) whose entry is live.
  ghost function LivePuts(log: seq<Record>, ns: Bytes, key: Bytes, now: int): set<PutId> {
    set i | 0 <= i < |log| && LiveRecord(log[i], ns, key, now) :: log[i].put
  }

  lemma LivePutsSnoc(log: seq<Record>, ns: Bytes, key: Bytes, now: int)
    requires log != [] && OncePerPut(log)
    ensures var front, e := log[..|log| - 1], log[|log| - 1];
            && e.put !in LivePuts(front, ns, key, now)
            && LivePuts(log, ns, key, now)
            == LivePuts(front, ns, key, now) + (if LiveRecord(e, ns, key, now) then {e.put} else {})
  {
    var front, e := log[..|log| - 1], log[|log| - 1];
    assert forall i | 0 <= i < |front| :: front[i] == log[i];
  }

  lemma {:induction false} LogCountsDistinctPuts(log: seq<Record>, ns: Bytes, key: Bytes, ttl: int, now: int)
    requires OncePerPut(log)
    ensures PutLog.Count(Completed(log, ttl), ns, key, ttl, now) == |LivePuts(log, ns, key, now)|
  {
    if log != [] {
      var front := log[..|log| - 1];
      LogCountsDistinctPuts(front, ns, key, ttl, now);
      CompletedLength(front, ttl);
      CompletedLength(log, ttl);
      assert Completed(log, ttl)[..|log| - 1] == Completed(front, ttl);
      LivePutsSnoc(log, ns, key, now);
    }
  }

  // Main result. A counting call that runs now answers at most the number of started puts
  // to (ns, key) whose stamp plus the lifetime is after now.
  lemma ReaderNeverOvercounts(s: State, r: ReaderId, key: Bytes)
    requires Inv(s) && Enabled(s, Read(r, key))
    ensures Counted(s.heap[s.readers[r].tree], key, s.now).1 <= |LivePuts(s.log, s.readers[r].ns, key, s.now)|
    ensures forall p | p in LivePuts(s.log, s.readers[r].ns, key, s.now) ::
              p in s.started && s.started[p] == (s.readers[r].ns, key)
  {
    var Reader(ns, tree) := s.readers[r];
    NeverOvercounts(s, tree, ns, key);
    LogCountsDistinctPuts(s.log, ns, key, s.ttl, s.now);
    forall p | p in LivePuts(s.log, ns, key, s.now)
      ensures p in s.started && s.started[p] == (ns, key)
    {
      var i :| 0 <= i < |s.log| && LiveRecord(s.log[i], ns, key, s.now) && s.log[i].put == p;
      assert OwnedRecord(s, s.log[i]);
    }
  }

  // ---- Totals gathered key by key ----

  // The puts to any key of `ns` whose entry is live.
  ghost function LiveNsPuts(log: seq<Record>, ns: Bytes, now: int): set<PutId> {
    set i | 0 <= i < |log| && log[i].ns == ns && log[i].expiry > now :: log[i].put
  }

  ghost function LivePutsOfKeys(log: seq<Record>, ns: Bytes, keys: seq<Bytes>, now: int): set<PutId> {
    set i | 0 <= i < |log| && log[i].ns == ns && log[i].key in keys && log[i].expiry > now :: log[i].put
  }

  // What the counting call `r` has answered for `keys`, read at the steps `at`, in all.
  ghost function Gathered(states: seq<State>, steps: seq<Step>, r: ReaderId, keys: seq<Bytes>, at: seq<nat>): nat
    requires |keys| == |at| && ReadsAt(states, steps, r, keys, at)
  {
    if keys == [] then 0
    else
      var last := |keys| - 1;
      var s := states[at[last]];
      assert Enabled(s, Read(r, keys[last]));
      Gathered(states, steps, r, keys[..last], at[..last]) + Counted(s.heap[s.readers[r].tree], keys[last], s.now).1
  }

  ghost predicate ReadsAt(states: seq<State>, steps: seq<Step>, r: ReaderId, keys: seq<Bytes>, at: seq<nat>)
    requires |keys| == |at|
  {
    forall k | 0 <= k < |at| ::
      && at[k] < |states| && at[k] < |steps|
      && steps[at[k]] == Read(r, keys[k]) && Enabled(states[at[k]], Read(r, keys[k]))
  }

  // Time has passed, and the log has grown.
  ghost predicate Grown(s: State, s': State) {
    s.now <= s'.now && |s.log| <= |s'.log| && s'.log[..|s.log|] == s.log
  }

  lemma StepGrows(s: State, step: Step)
    requires Enabled(s, step)
    ensures Grown(s, Next(s, step))
  {
  }

  lemma NothingGrows(s: State)
    ensures Grown(s, s)
  {
  }

  lemma GrownChains(s: State, mid: State, s': State)
    requires Grown(s, mid) && Grown(mid, s')
    ensures Grown(s, s')
  {
    assert s'.log[..|s.log|] == s'.log[..|mid.log|][..|s.log|];
  }

  lemma {:induction false} BehaviourGrows(states: seq<State>, steps: seq<Step>, now: int, ttl: int, i: nat, j: nat)
    requires Behaviour(states, steps, now, ttl) && i <= j < |states|
    ensures Grown(states[i], states[j])
    decreases j
  {
    if i < j {
      StepGrows(states[j - 1], steps[j - 1]);
      hide Next, Enabled, Grown;
      BehaviourGrows(states, steps, now, ttl, i, j - 1);
      GrownChains(states[i], states[j - 1], states[j]);
    } else {
      NothingGrows(states[i]);
    }
  }

  lemma ReaderStays(s: State, step: Step, r: ReaderId)
    requires Enabled(s, step) && r in s.readers && step != Close(r)
    ensures r in Next(s, step).readers && Next(s, step).readers[r] == s.readers[r]
  {
  }

  lemma {:induction false} ReaderIsOpen(states: seq<State>, steps: seq<Step>, now: int, ttl: int,
                                        a: nat, n: nat, r: ReaderId, ns: Bytes)
    requires Behaviour(states, steps, now, ttl) && a < n < |states| && steps[a] == Open(r, ns)
    requires forall i | a < i < n :: steps[i] != Close(r)
    ensures r in states[n].readers && states[n].readers[r].ns == ns
    decreases n
  {
    if n > a + 1 {
      ReaderIsOpen(states, steps, now, ttl, a, n - 1, r, ns);
      ReaderStays(states[n - 1], steps[n - 1], r);
    }
  }

  lemma LivePutsGrow(early: seq<Record>, late: seq<Record>, ns: Bytes, key: Bytes, from: int, now: int)
    requires |early| <= |late| && late[..|early|] == early && from <= now
    ensures LivePuts(early, ns, key, now) <= LivePuts(late, ns, key, from)
  {
    forall p | p in LivePuts(early, ns, key, now)
      ensures p in LivePuts(late, ns, key, from)
    {
      var i :| 0 <= i < |early| && LiveRecord(early[i], ns, key, now) && early[i].put == p;
      assert late[i] == early[i] && LiveRecord(late[i], ns, key, from);
    }
  }

  // A put has one record, so the puts of different keys are different puts.
  lemma OneMoreKey(log: seq<Record>, ns: Bytes, keys: seq<Bytes>, key: Bytes, now: int)
    requires OncePerPut(log) && key !in keys
    ensures LivePutsOfKeys(log, ns, keys + [key], now)
         == LivePutsOfKeys(log, ns, keys, now) + LivePuts(log, ns, key, now)
    ensures LivePutsOfKeys(log, ns, keys, now) !! LivePuts(log, ns, key, now)
  {
    var all, before, one := LivePutsOfKeys(log, ns, keys + [key], now), LivePutsOfKeys(log, ns, keys, now),
                            LivePuts(log, ns, key, now);
    forall p | p in all
      ensures p in before + one
    {
      var i :| 0 <= i < |log| && log[i].put == p
               && log[i].ns == ns && log[i].key in keys + [key] && log[i].expiry > now;
      assert log[i].key == key ==> LiveRecord(log[i], ns, key, now);
    }
    forall p | p in one
      ensures p in all && p !in before
    {
      var i :| 0 <= i < |log| && LiveRecord(log[i], ns, key, now) && log[i].put == p;
      assert log[i].key in keys + [key];
      assert forall j | 0 <= j < |log| && log[j].put == p :: j == i;
    }
  }

  // One read of the call.
  lemma ReadIsBounded(states: seq<State>, steps: seq<Step>, now: int, ttl: int,
                      a: nat, i: nat, e: nat, r: ReaderId, ns: Bytes, key: Bytes)
    requires Behaviour(states, steps, now, ttl) && a < i < e < |states| && steps[a] == Open(r, ns)
    requires Enabled(states[i], Read(r, key)) && forall k | a < k < e :: steps[k] != Close(r)
    ensures Counted(states[i].heap[states[i].readers[r].tree], key, states[i].now).1
         <= |LivePuts(states[e].log, ns, key, states[a].now)|
  {
    InvHolds(states, steps, now, ttl, i);
    ReaderIsOpen(states, steps, now, ttl, a, i, r, ns);
    ReaderNeverOvercounts(states[i], r, key);
    BehaviourGrows(states, steps, now, ttl, a, i);
    BehaviourGrows(states, steps, now, ttl, i, e);
    hide Behaviour, Inv, LivePuts, Counted, Next;
    LivePutsGrow(states[i].log, states[e].log, ns, key, states[a].now, states[i].now);
    SubsetSize(LivePuts(states[i].log, ns, key, states[i].now), LivePuts(states[e].log, ns, key, states[a].now));
  }

  // One more key's puts are other puts, and as many more.
  lemma OneMoreKeyCounts(s: State, ns: Bytes, keys: seq<Bytes>, key: Bytes, from: int)
    requires Inv(s) && key !in keys
    ensures |LivePutsOfKeys(s.log, ns, keys + [key], from)|
         == |LivePutsOfKeys(s.log, ns, keys, from)| + |LivePuts(s.log, ns, key, from)|
  {
    OneMoreKey(s.log, ns, keys, key, from);
  }

  lemma {:induction false} GatheredNeverOvercounts(states: seq<State>, steps: seq<Step>, now: int, ttl: int,
                                                   a: nat, e: nat, r: ReaderId, ns: Bytes, keys: seq<Bytes>,
                                                   at: seq<nat>)
    requires Behaviour(states, steps, now, ttl) && a < e < |states| && steps[a] == Open(r, ns)
    requires forall i | a < i < e :: steps[i] != Close(r)
    requires |keys| == |at| && ReadsAt(states, steps, r, keys, at) && Distinct(keys)
    requires forall k | 0 <= k < |at| :: a < at[k] < e
    ensures Gathered(states, steps, r, keys, at) <= |LivePutsOfKeys(states[e].log, ns, keys, states[a].now)|
  {
    hide Inv, LivePuts, LivePutsOfKeys, Enabled, Next, Counted, Behaviour;
    if keys != [] {
      var last := |keys| - 1;
      GatheredNeverOvercounts(states, steps, now, ttl, a, e, r, ns, keys[..last], at[..last]);
      InvHolds(states, steps, now, ttl, e);
      ReadIsBounded(states, steps, now, ttl, a, at[last], e, r, ns, keys[last]);
      assert keys == keys[..last] + [keys[last]] && keys[last] !in keys[..last];
      OneMoreKeyCounts(states[e], ns, keys[..last], keys[last], states[a].now);
    }
  }

  // Main result. A CountEntries that gathers its total key by key, with any puts, counts
  // and cleanups in between, answers at most the number of distinct started puts to its
  // namespace that were stamped before it ended and had not expired when it began.
  lemma CountEntriesNeverOvercounts(states: seq<State>, steps: seq<Step>, now: int, ttl: int,
                                    a: nat, e: nat, r: ReaderId, ns: Bytes, keys: seq<Bytes>, at: seq<nat>)
    requires Behaviour(states, steps, now, ttl) && a < e < |states| && steps[a] == Open(r, ns)
    requires forall i | a < i < e :: steps[i] != Close(r)
    requires |keys| == |at| && ReadsAt(states, steps, r, keys, at) && Distinct(keys)
    requires forall k | 0 <= k < |at| :: a < at[k] < e
    ensures Gathered(states, steps, r, keys, at) <= |LiveNsPuts(states[e].log, ns, states[a].now)|
    ensures forall p | p in LiveNsPuts(states[e].log, ns, states[a].now) ::
              p in states[e].started && states[e].started[p].0 == ns
  {
    GatheredNeverOvercounts(states, steps, now, ttl, a, e, r, ns, keys, at);
    InvHolds(states, steps, now, ttl, e);
    var s, some, all := states[e], LivePutsOfKeys(states[e].log, ns, keys, states[a].now),
                        LiveNsPuts(states[e].log, ns, states[a].now);
    forall p | p in all
      ensures p in s.started && s.started[p].0 == ns
    {
      var i :| 0 <= i < |s.log| && s.log[i].ns == ns && s.log[i].put == p;
      assert OwnedRecord(s, s.log[i]);
    }
    assert some <= all;
    SubsetSize(some, all);
  }

  // ---- Hazard steps over whole behaviours ----

  // A Put registers over a tree that is already registered.
  predicate Overwrites(s: State, step: Step, ns: Bytes) {
    step.Register? && step.p in s.puts && s.puts[step.p].ns == ns && ns in s.namespaces
  }

  // A cleanup removes a namespace that a Put was in progress on since the fetch.
  predicate RemovesBusy(s: State, step: Step, ns: Bytes) {
    step.Remove? && Sweeping(s, step.c) && s.cleanups[step.c].current.value.ns == ns
    && ns in s.cleanups[step.c].touched && ns in s.namespaces
  }

  predicate Hazard(s: State, step: Step, ns: Bytes) {
    Overwrites(s, step, ns) || RemovesBusy(s, step, ns)
  }

  // The step that cut `tree` off its namespace `ns`.
  ghost predicate CutOff(states: seq<State>, steps: seq<Step>, j: nat, tree: TreeId, ns: Bytes)
    requires |states| == |steps| + 1 && j < |steps|
  {
    && ns in states[j].namespaces && states[j].namespaces[ns] == tree
    && (ns in states[j + 1].namespaces ==> states[j + 1].namespaces[ns] != tree)
    && Hazard(states[j], steps[j], ns)
  }

  lemma HazardAppearsAtRegister(s: State, p: PutId, made: TreeId, tree: TreeId, ns: Bytes)
    requires Owned(s) && Attached(s) && Enabled(s, Register(p, made))
    requires HazardTree(AfterRegister(s, p, made), tree) && Belongs(AfterRegister(s, p, made), tree, ns)
    ensures Belongs(s, tree, ns)
    ensures HazardTree(s, tree)
         || (Overwrites(s, Register(p, made), ns) && ns in s.namespaces && s.namespaces[ns] == tree)
  {
    var at := s.puts[p].ns;
    assert tree in s.detached || (at in s.namespaces && tree == s.namespaces[at]);
    if at in s.namespaces {
      assert Belongs(s, s.namespaces[at], at);
    }
  }

  lemma HazardAppearsAtRemove(s: State, c: CleanupId, tree: TreeId, ns: Bytes)
    requires Owned(s) && Enabled(s, Remove(c))
    requires HazardTree(AfterRemove(s, c), tree) && Belongs(AfterRemove(s, c), tree, ns)
    ensures Belongs(s, tree, ns)
    ensures HazardTree(s, tree) || (RemovesBusy(s, Remove(c), ns) && ns in s.namespaces && s.namespaces[ns] == tree)
  {
    var at := s.cleanups[c].current.value.ns;
    if at in s.namespaces {
      assert Belongs(s, s.namespaces[at], at);
    }
  }

  lemma HazardAppears(s: State, step: Step, tree: TreeId, ns: Bytes)
    requires Owned(s) && Attached(s) && Enabled(s, step)
    requires HazardTree(Next(s, step), tree) && Belongs(Next(s, step), tree, ns)
    ensures Belongs(s, tree, ns)
    ensures HazardTree(s, tree) || (Hazard(s, step, ns) && ns in s.namespaces && s.namespaces[ns] == tree)
  {
    if step.Register? {
      HazardAppearsAtRegister(s, step.p, step.tree, tree, ns);
    } else if step.Remove? {
      HazardAppearsAtRemove(s, step.c, tree, ns);
    } else {
      OtherStepsKeepTrees(s, step);
      hide Next, Enabled, Owned, Attached;
    }
  }

  lemma {:induction false} HazardTreeWasCutOff(states: seq<State>, steps: seq<Step>, now: int, ttl: int, n: nat,
                                               tree: TreeId, ns: Bytes)
    requires Behaviour(states, steps, now, ttl) && n < |states|
    requires HazardTree(states[n], tree) && Belongs(states[n], tree, ns)
    ensures exists j: nat | j < n :: CutOff(states, steps, j, tree, ns)
  {
    if n > 0 {
      InvHolds(states, steps, now, ttl, n - 1);
      HazardAppears(states[n - 1], steps[n - 1], tree, ns);
      if HazardTree(states[n - 1], tree) {
        HazardTreeWasCutOff(states, steps, now, ttl, n - 1, tree, ns);
      } else {
        CutOffByHazard(states[n - 1], steps[n - 1], tree, ns);
        assert CutOff(states, steps, n - 1, tree, ns);
      }
    }
  }

  lemma CutOffByHazard(s: State, step: Step, tree: TreeId, ns: Bytes)
    requires Owned(s) && Enabled(s, step) && Hazard(s, step, ns)
    requires ns in s.namespaces && s.namespaces[ns] == tree
    ensures ns in Next(s, step).namespaces ==> Next(s, step).namespaces[ns] != tree
  {
  }

  // Main result. Every live completed put that no count can see was cut off by one
  // particular step: a Put registering over it, or a cleanup removing its namespace
  // although a Put overlapped the window since the cleanup fetched the tree.
  lemma LossIsTraceable(states: seq<State>, steps: seq<Step>, now: int, ttl: int, n: nat, i: nat)
    requires Behaviour(states, steps, now, ttl) && n < |states|
    requires i < |states[n].log| && states[n].log[i].expiry > states[n].now
    requires states[n].log[i].tree in states[n].owner && !Reachable(states[n], states[n].log[i].tree)
    ensures exists j: nat | j < n :: CutOff(states, steps, j, states[n].log[i].tree, states[n].log[i].ns)
  {
    InvHolds(states, steps, now, ttl, n);
    LiveEntryIsReachableUnlessHazard(states[n], i);
    HazardTreeWasCutOff(states, steps, now, ttl, n, states[n].log[i].tree, states[n].log[i].ns);
  }

  lemma {:induction false} NothingLostWithoutHazard(s: State, log: seq<Record>, ns: Bytes, key: Bytes)
    requires forall i | 0 <= i < |log| && log[i].ns == ns :: !HazardTree(s, log[i].tree)
    ensures Lost(s, log, ns, key) == 0
  {
    if log != [] {
      NothingLostWithoutHazard(s, log[..|log| - 1], ns, key);
    }
  }

  // Main result. If no step of a behaviour is a hazard for `ns`, every count of `ns`
  // answers what the plain put log answers.
  lemma ExactWithoutHazards(states: seq<State>, steps: seq<Step>, now: int, ttl: int, n: nat, ns: Bytes, key: Bytes)
    requires Behaviour(states, steps, now, ttl) && n < |states|
    requires forall j | 0 <= j < n :: !Hazard(states[j], steps[j], ns)
    ensures Answer(states[n], ns, key) == SpecCount(states[n], ns, key)
  {
    var s := states[n];
    InvHolds(states, steps, now, ttl, n);
    forall i | 0 <= i < |s.log| && s.log[i].ns == ns
      ensures !HazardTree(s, s.log[i].tree)
    {
      assert OwnedRecord(s, s.log[i]);
      if HazardTree(s, s.log[i].tree) {
        HazardTreeWasCutOff(states, steps, now, ttl, n, s.log[i].tree, ns);
      }
    }
    NothingLostWithoutHazard(s, s.log, ns, key);
    LossIsAccountedFor(s, ns, key);
  }

  // ---- What the two hazards mean in terms of the calls alone ----

  // Only a Lookup puts a namespace in progress.
  lemma InFlightGrows(s: State, step: Step, ns: Bytes)
    requires Enabled(s, step) && ns in InFlight(Next(s, step))
    ensures ns in InFlight(s) || (step.Lookup? && ns == step.ns)
  {
    var s' := Next(s, step);
    var p :| p in s'.puts && s'.puts[p].ns == ns;
    if p in s.puts {
      assert s.puts[p].ns in InFlight(s);
    }
  }

  lemma TouchedStep(s: State, step: Step, c: CleanupId)
    requires Enabled(s, step) && step != Finish(c) && c in s.cleanups && s.cleanups[c].Crawling?
    ensures c in Next(s, step).cleanups && Next(s, step).cleanups[c].Crawling?
    ensures Next(s, step).cleanups[c].touched == s.cleanups[c].touched + (if step.Lookup? then {step.ns} else {})
    ensures step.Lookup? ==> step.ns in InFlight(Next(s, step))
  {
    if step.Lookup? {
      assert Next(s, step).puts[step.p].ns == step.ns;
    }
  }

  lemma TouchedGrows(s: State, step: Step, c: CleanupId)
    requires Enabled(s, step) && step != Finish(c)
    requires c in s.cleanups && s.cleanups[c].Crawling? && InFlight(s) <= s.cleanups[c].touched
    ensures c in Next(s, step).cleanups && Next(s, step).cleanups[c].Crawling?
    ensures Next(s, step).cleanups[c].touched == s.cleanups[c].touched + InFlight(Next(s, step))
  {
    TouchedStep(s, step, c);
    hide Next, InFlight, Enabled;
    forall ns | ns in InFlight(Next(s, step))
      ensures ns in s.cleanups[c].touched || (step.Lookup? && ns == step.ns)
    {
      InFlightGrows(s, step, ns);
    }
  }

  // A cleanup that fetched at step f and has not finished has been touched on `ns` exactly
  // when some Put was in progress on `ns` at some moment since.
  lemma {:induction false} TouchedIsOverlap(states: seq<State>, steps: seq<Step>, now: int, ttl: int,
                                            f: nat, n: nat, c: CleanupId, ns: Bytes)
    requires Behaviour(states, steps, now, ttl) && f < n < |states|
    requires steps[f] == Fetch(c) && forall k | f < k < n :: steps[k] != Finish(c)
    ensures c in states[n].cleanups && states[n].cleanups[c].Crawling?
    ensures InFlight(states[n]) <= states[n].cleanups[c].touched
    ensures ns in states[n].cleanups[c].touched <==> exists k | f < k <= n :: ns in InFlight(states[k])
    decreases n
  {
    if n == f + 1 {
      assert states[n] == Next(states[f], steps[f]);
      assert InFlight(states[n]) == InFlight(states[f]);
    } else {
      TouchedIsOverlap(states, steps, now, ttl, f, n - 1, c, ns);
      TouchedGrows(states[n - 1], steps[n - 1], c);
    }
  }

  lemma RacesStayRecorded(s: State, step: Step, tree: TreeId)
    requires Owned(s) && Enabled(s, step) && !(step.Register? && step.tree == tree)
    requires tree in Next(s, step).raced && tree in Next(s, step).owner
    ensures tree in s.raced && tree in s.owner
    ensures Next(s, step).raced[tree] == s.raced[tree] && Next(s, step).owner[tree] == s.owner[tree]
  {
    if !step.Register? && !step.Remove? {
      OtherStepsKeepTrees(s, step);
      hide Next, Enabled;
    }
  }

  // `step` registered `tree` for `ns`, passing `rivals`.
  ghost predicate Made(s: State, step: Step, tree: TreeId, ns: Bytes, rivals: set<PutId>) {
    && step.Register? && step.tree == tree && Enabled(s, step)
    && s.puts[step.p].ns == ns && RivalsOf(s, step.p, ns) == rivals
  }

  lemma MadeOrOlder(s: State, step: Step, tree: TreeId)
    requires Inv(s) && Enabled(s, step)
    requires tree in Next(s, step).raced && tree in Next(s, step).owner
    ensures Made(s, step, tree, Next(s, step).owner[tree], Next(s, step).raced[tree])
         || (tree in s.raced && tree in s.owner
             && Next(s, step).raced[tree] == s.raced[tree] && Next(s, step).owner[tree] == s.owner[tree])
  {
    if !(step.Register? && step.tree == tree) {
      RacesStayRecorded(s, step, tree);
    }
  }

  lemma {:induction false} RacedAtRegistration(states: seq<State>, steps: seq<Step>, now: int, ttl: int, n: nat,
                                               tree: TreeId)
    requires Behaviour(states, steps, now, ttl) && n < |states| && tree in states[n].raced && tree in states[n].owner
    ensures exists k: nat | k < n :: Made(states[k], steps[k], tree, states[n].owner[tree], states[n].raced[tree])
  {
    if n > 0 {
      InvHolds(states, steps, now, ttl, n - 1);
      MadeOrOlder(states[n - 1], steps[n - 1], tree);
      hide Enabled, Next, Inv, Made;
      if tree in states[n - 1].raced && tree in states[n - 1].owner
         && states[n].raced[tree] == states[n - 1].raced[tree]
         && states[n].owner[tree] == states[n - 1].owner[tree]
      {
        RacedAtRegistration(states, steps, now, ttl, n - 1, tree);
      }
    }
  }

  // `step` registers a tree for `ns` while another Put on `ns` is between its miss and its
  // own registration.
  ghost predicate RegistersInRace(s: State, step: Step, ns: Bytes) {
    step.Register? && step.p in s.puts && s.puts[step.p].ns == ns && RivalsOf(s, step.p, ns) != {}
  }

  // A Put can only overwrite a tree whose registration passed that very Put.
  lemma OverwriteNeedsARace(states: seq<State>, steps: seq<Step>, now: int, ttl: int, j: nat, ns: Bytes)
    requires Behaviour(states, steps, now, ttl) && j < |steps| && Overwrites(states[j], steps[j], ns)
    ensures exists k: nat | k < j ::
              RegistersInRace(states[k], steps[k], ns) && steps[k].tree == states[j].namespaces[ns]
              && steps[j].p in RivalsOf(states[k], steps[k].p, ns)
  {
    var s := states[j];
    InvHolds(states, steps, now, ttl, j);
    assert Belongs(s, s.namespaces[ns], ns);
    assert Overtaken(s, steps[j].p);
    RacedAtRegistration(states, steps, now, ttl, j, s.namespaces[ns]);
  }

  // Main result, in terms of the calls alone: counts of `ns` are exact as long as no Put
  // registers a tree for `ns` in a race and no cleanup removes `ns` under a Put.
  lemma ExactWithoutOverlap(states: seq<State>, steps: seq<Step>, now: int, ttl: int, n: nat, ns: Bytes, key: Bytes)
    requires Behaviour(states, steps, now, ttl) && n < |states|
    requires forall j | 0 <= j < n :: !RegistersInRace(states[j], steps[j], ns) && !RemovesBusy(states[j], steps[j], ns)
    ensures Answer(states[n], ns, key) == SpecCount(states[n], ns, key)
  {
    forall j | 0 <= j < n
      ensures !Hazard(states[j], steps[j], ns)
    {
      if Overwrites(states[j], steps[j], ns) {
        OverwriteNeedsARace(states, steps, now, ttl, j, ns);
      }
    }
    ExactWithoutHazards(states, steps, now, ttl, n, ns, key);
  }

  // ---- Both hazards do lose puts ----

  // Some interleaving from an empty store leads to `s`.
  ghost predicate Arises(s: State) {
    exists states, steps :: Behaviour(states, steps, 0, 60) && states[|steps|] == s
  }

  lemma ArisesNext(s: State, step: Step)
    requires Arises(s) && Enabled(s, step)
    ensures Arises(Next(s, step))
  {
    var states, steps :| Behaviour(states, steps, 0, 60) && states[|steps|] == s;
    var states', steps' := states + [Next(s, step)], steps + [step];
    hide Next, Enabled;
    assert states'[|steps'|] == Next(s, step);
    assert Behaviour(states', steps', 0, 60);
  }

  // A completed put is live and every count of its key answers too little.
  ghost predicate LosesAPut(s: State, ns: Bytes, key: Bytes) {
    Arises(s) && SpecCount(s, ns, key) == 1 && Answer(s, ns, key) == 0
  }

  lemma OneRecordCounts(e: Record, ttl: int, now: int)
    ensures PutLog.Count(Completed([e], ttl), e.ns, e.key, ttl, now) == PutLog.One(e.expiry > now)
  {
    var log, spec := [e], [PutLog.Entry(e.ns, e.key, e.expiry - ttl)];
    assert log[..|log| - 1] == [] && Completed(log, ttl) == spec;
    assert spec[..|spec| - 1] == [];
  }

  // Both puts have missed.
  function BothMissed(ns: Bytes, key: Bytes): State {
    State(0, 60, map[], map[], {}, map[0 := Missed(ns, key), 1 := Missed(ns, key)], map[], map[],
          map[0 := (ns, key), 1 := (ns, key)], map[], [], map[], map[])
  }

  // The first has registered a tree and appended to it.
  function FirstIsIn(ns: Bytes, key: Bytes): State {
    State(0, 60, map[0 := map[key := [60]]], map[ns := 0], {}, map[1 := Missed(ns, key)], map[], map[],
          map[0 := (ns, key), 1 := (ns, key)], map[0 := ns], [Record(0, ns, key, 0, 60)], map[], map[0 := {1}])
  }

  lemma NothingArises()
    ensures Arises(Initial(0, 60))
  {
    var states, none: seq<Step> := [Initial(0, 60)], [];
    assert Behaviour(states, none, 0, 60) && states[|none|] == Initial(0, 60);
  }

  lemma BothMissedArises(ns: Bytes, key: Bytes)
    ensures Arises(BothMissed(ns, key))
  {
    NothingArises();
    hide Arises;
    var s0 := Initial(0, 60);
    assert Touch(s0.cleanups, ns) == s0.cleanups;
    ArisesNext(s0, Lookup(0, ns, key));
    var s1 := Next(s0, Lookup(0, ns, key));
    assert Touch(s1.cleanups, ns) == s1.cleanups;
    ArisesNext(s1, Lookup(1, ns, key));
    assert Next(s1, Lookup(1, ns, key)) == BothMissed(ns, key);
  }

  lemma FirstIsInArises(ns: Bytes, key: Bytes)
    ensures Arises(FirstIsIn(ns, key))
  {
    BothMissedArises(ns, key);
    hide Arises;
    var s2 := BothMissed(ns, key);
    ArisesNext(s2, Register(0, 0));
    var s3 := AfterRegister(s2, 0, 0);
    assert RivalsOf(s2, 0, ns) == {1};
    assert ListAt(s3.heap[0], key) == [] && Live([], 0) == [];
    ArisesNext(s3, Append(0, 0));
    var s4 := AfterAppend(s3, 0, 0);
    assert WithEntry(s3.heap[0], key, 60, 0, 0) == map[key := [60]] by { assert [] + [60] == [60]; }
    assert s4.heap == FirstIsIn(ns, key).heap;
    assert s4.puts == FirstIsIn(ns, key).puts;
    assert s4 == FirstIsIn(ns, key);
  }

  // Two puts that both miss: the second registration hides the first one's entry.
  lemma RacingPutsLoseAPut(ns: Bytes, key: Bytes)
    ensures exists s :: LosesAPut(s, ns, key)
  {
    FirstIsInArises(ns, key);
    var s4 := FirstIsIn(ns, key);
    ArisesNext(s4, Register(1, 1));
    var s5 := AfterRegister(s4, 1, 1);
    OneRecordCounts(s5.log[0], 60, 0);
    assert LosesAPut(s5, ns, key);
  }

  // Two namespaces are registered, and neither put has appended yet.
  function BothRegistered(a: Bytes, b: Bytes, key: Bytes): State {
    BothAnd(a, b, key, map[])
  }

  // And these cleanups are in progress.
  function BothAnd(a: Bytes, b: Bytes, key: Bytes, cleanups: map<CleanupId, CleanupPc>): State {
    State(0, 60, map[0 := map[], 1 := map[]], map[a := 0, b := 1], {},
          map[0 := Holding(a, key, 0), 1 := Holding(b, key, 1)], cleanups, map[],
          map[0 := (a, key), 1 := (b, key)], map[0 := a, 1 := b], [], map[], map[0 := {}, 1 := {}])
  }

  // A cleanup has fetched the tree of `a` and swept it: it has no key yet.
  function SweptOut(a: Bytes, b: Bytes, key: Bytes): State {
    BothAnd(a, b, key, map[0 := Crawling(map[a := 0], {}, Some(Sweep(a, 0, [], [])), {a, b})])
  }

  // Only the first namespace is registered so far.
  function OneRegistered(a: Bytes, key: Bytes): State {
    State(0, 60, map[0 := map[]], map[a := 0], {}, map[0 := Holding(a, key, 0)], map[], map[],
          map[0 := (a, key)], map[0 := a], [], map[], map[0 := {}])
  }

  lemma OneRegisteredArises(a: Bytes, key: Bytes)
    ensures Arises(OneRegistered(a, key))
  {
    NothingArises();
    var s0 := Initial(0, 60);
    assert Touch(s0.cleanups, a) == s0.cleanups;
    ArisesNext(s0, Lookup(0, a, key));
    var s1 := Next(s0, Lookup(0, a, key));
    assert RivalsOf(s1, 0, a) == {};
    ArisesNext(s1, Register(0, 0));
    assert AfterRegister(s1, 0, 0) == OneRegistered(a, key);
  }

  // The second put has missed.
  function SecondMissed(a: Bytes, b: Bytes, key: Bytes): State {
    State(0, 60, map[0 := map[]], map[a := 0], {}, map[0 := Holding(a, key, 0), 1 := Missed(b, key)], map[], map[],
          map[0 := (a, key), 1 := (b, key)], map[0 := a], [], map[], map[0 := {}])
  }

  lemma SecondMissedArises(a: Bytes, b: Bytes, key: Bytes)
    requires a != b
    ensures Arises(SecondMissed(a, b, key))
  {
    OneRegisteredArises(a, key);
    hide Arises;
    var s := OneRegistered(a, key);
    assert Touch(s.cleanups, b) == s.cleanups;
    ArisesNext(s, Lookup(1, b, key));
    assert Next(s, Lookup(1, b, key)) == SecondMissed(a, b, key);
  }

  lemma BothRegisteredArises(a: Bytes, b: Bytes, key: Bytes)
    requires a != b
    ensures Arises(BothRegistered(a, b, key))
  {
    SecondMissedArises(a, b, key);
    hide Arises;
    var s := SecondMissed(a, b, key);
    assert RivalsOf(s, 1, b) == {};
    ArisesNext(s, Register(1, 1));
    assert AfterRegister(s, 1, 1) == BothRegistered(a, b, key);
  }

  lemma FetchOfBoth(a: Bytes, b: Bytes, key: Bytes)
    requires a != b
    ensures var s := BothAnd(a, b, key, map[0 := Snapped([a, b])]);
            Enabled(s, Fetch(0))
            && Next(s, Fetch(0)) == BothAnd(a, b, key, map[0 := Crawling(map[a := 0], {}, None, {a, b})])
  {
    var s := BothAnd(a, b, key, map[0 := Snapped([a, b])]);
    var keys := [a, b];
    assert keys[..|keys| / 2] == [a];
    assert s.puts[0].ns == a && s.puts[1].ns == b;
    assert InFlight(s) == {a, b};
    var half := keys[..|keys| / 2];
    var pending := map ns | ns in half && ns !in s.lastCollected && ns in s.namespaces :: s.namespaces[ns];
    assert pending == map[a := 0];
    hide InFlight;
  }

  // A cleanup has fetched the tree of `a` and not looked at it yet.
  function FetchedOne(a: Bytes, b: Bytes, key: Bytes): State {
    BothAnd(a, b, key, map[0 := Crawling(map[a := 0], {}, None, {a, b})])
  }

  lemma FetchedOneArises(a: Bytes, b: Bytes, key: Bytes)
    requires a != b
    ensures Arises(FetchedOne(a, b, key))
  {
    BothRegisteredArises(a, b, key);
    hide Arises;
    var s := BothRegistered(a, b, key);
    ArisesNext(s, Snapshot(0, [a, b]));
    var s1 := s.(cleanups := map[0 := Snapped([a, b])]);
    assert Next(s, Snapshot(0, [a, b])) == s1;
    FetchOfBoth(a, b, key);
    hide Next, Enabled;
    ArisesNext(s1, Fetch(0));
  }

  lemma SweptArises(a: Bytes, b: Bytes, key: Bytes)
    requires a != b
    ensures Arises(SweptOut(a, b, key))
  {
    FetchedOneArises(a, b, key);
    hide Arises;
    var s2 := FetchedOne(a, b, key);
    assert Enabled(s2, Begin(0, a, []));
    ArisesNext(s2, Begin(0, a, []));
    assert Next(s2, Begin(0, a, [])) == SweptOut(a, b, key);
  }

  // A cleanup that finds a put's new tree still empty removes it before the put appends.
  lemma CleanupLosesAPut(a: Bytes, b: Bytes, key: Bytes)
    requires a != b
    ensures exists s :: LosesAPut(s, a, key)
  {
    SweptArises(a, b, key);
    var s1 := SweptOut(a, b, key);
    ArisesNext(s1, Remove(0));
    var s2 := AfterRemove(s1, 0);
    ArisesNext(s2, Append(0, 0));
    var s3 := AfterAppend(s2, 0, 0);
    assert s3.log == [Record(0, a, key, 0, 60)];
    OneRecordCounts(s3.log[0], 60, 0);
    assert LosesAPut(s3, a, key);
  }
}

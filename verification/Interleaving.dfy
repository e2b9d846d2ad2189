// store/store.go with `Store.Put`, the counting calls and `runCleanup` split where they
// release a lock, and any number of calls in progress at once.
//
// Each step below is one lock region (or the thread-local code between two of them).
// The history fields record what happened. No step's effect on the other fields depends on
// them, and no step's enabledness does but a Lookup's, which takes a PutId not used before.

module Interleaving {
  import opened ByteStrings
  import opened Expiry
  import opened ExpiryTree
  import opened Wrappers

  type PutId = nat      // one call of Store.Put
  type CleanupId = nat  // one call of runCleanup
  type ReaderId = nat   // one call of Count, CountEntries or of one round of CountServerEntries
  type TreeId = nat     // a *tree.Tree pointer

  // Where a call of Store.Put in progress stands.
  datatype PutPc =
    | Missed(ns: Bytes, key: Bytes)                 // found no tree, has not registered one
    | Holding(ns: Bytes, key: Bytes, tree: TreeId)  // has a tree, has not appended to it

  // The `Keys` sweep of a cleanup over one namespace's tree.
  datatype Sweep = Sweep(ns: Bytes, tree: TreeId, todo: seq<Bytes>, kept: seq<Bytes>)

  // A counting call that has looked its tree up.
  datatype Reader = Reader(ns: Bytes, tree: TreeId)

  // Where a call of runCleanup in progress stands. `touched` is history: the namespaces
  // that some Put has been in progress on since this cleanup fetched its subtrees.
  datatype CleanupPc =
    | Snapped(keys: seq<Bytes>)
    | Crawling(pending: map<Bytes, TreeId>, crawled: set<Bytes>, current: Option<Sweep>, touched: set<Bytes>)

  // Why a tree is no longer reachable through the namespace map.
  datatype Cause =
    | Overwritten(put: PutId)          // a Put that had missed registered its own tree
    | RemovedBusy(cleanup: CleanupId)  // a cleanup removed it although a Put overlapped the window
    | RemovedQuiet(cleanup: CleanupId) // a cleanup removed it and no Put overlapped the window

  // One completed Put.
  datatype Record = Record(put: PutId, ns: Bytes, key: Bytes, tree: TreeId, expiry: int)

  datatype State = State(
    now: int,
    ttl: int,
    heap: map<TreeId, Content>,
    namespaces: map<Bytes, TreeId>,
    lastCollected: set<Bytes>,
    puts: map<PutId, PutPc>,
    cleanups: map<CleanupId, CleanupPc>,
    readers: map<ReaderId, Reader>,
    // history
    started: map<PutId, (Bytes, Bytes)>,
    owner: map<TreeId, Bytes>,
    log: seq<Record>,
    detached: map<TreeId, Cause>,
    raced: map<TreeId, set<PutId>>)

  function Initial(now: int, ttl: int): State {
    State(now, ttl, map[], map[], {}, map[], map[], map[], map[], map[], [], map[], map[])
  }

  datatype Step =
    | Tick(now: int)
    | Lookup(p: PutId, ns: Bytes, key: Bytes)
    | Register(p: PutId, tree: TreeId)
    | Append(p: PutId, filterTime: int)
    | Snapshot(c: CleanupId, keys: seq<Bytes>)
    | Fetch(c: CleanupId)
    | Begin(c: CleanupId, ns: Bytes, keys: seq<Bytes>)
    | SweepKey(c: CleanupId)
    | Remove(c: CleanupId)
    | Keep(c: CleanupId)
    | Finish(c: CleanupId)
    | Open(r: ReaderId, ns: Bytes)
    | ListKeys(r: ReaderId, keys: seq<Bytes>)
    | ListSpaces(order: seq<Bytes>)
    | Read(r: ReaderId, key: Bytes)
    | Close(r: ReaderId)

  // The namespaces some Put is in progress on.
  function InFlight(s: State): set<Bytes> {
    set p | p in s.puts :: s.puts[p].ns
  }

  // The other Puts on `ns` that are between their miss and their registration.
  function RivalsOf(s: State, p: PutId, ns: Bytes): set<PutId> {
    set q | q in s.puts && q != p && s.puts[q].Missed? && s.puts[q].ns == ns
  }

  function Touch(cleanups: map<CleanupId, CleanupPc>, ns: Bytes): map<CleanupId, CleanupPc> {
    map c | c in cleanups ::
      match cleanups[c]
      case Snapped(_) => cleanups[c]
      case Crawling(_, _, _, touched) => cleanups[c].(touched := touched + {ns})
  }

  predicate Sweeping(s: State, c: CleanupId) {
    c in s.cleanups && s.cleanups[c].Crawling? && s.cleanups[c].current.Some?
    && s.cleanups[c].current.value.tree in s.heap
  }

  predicate Idle(s: State, c: CleanupId) {
    c in s.cleanups && s.cleanups[c].Crawling? && s.cleanups[c].current.None?
  }

  ghost predicate Enabled(s: State, step: Step) {
    match step
    case Tick(now) => s.now <= now
    case Lookup(p, ns, key) => p !in s.started && p !in s.puts
    case Register(p, tree) => p in s.puts && s.puts[p].Missed? && tree !in s.heap
    case Append(p, filterTime) =>
      p in s.puts && s.puts[p].Holding? && s.puts[p].tree in s.heap && filterTime <= s.now
    case Snapshot(c, keys) => c !in s.cleanups && Enumerates(keys, s.namespaces.Keys)
    case Fetch(c) => c in s.cleanups && s.cleanups[c].Snapped?
    case Begin(c, ns, keys) =>
      Idle(s, c) && ns in s.cleanups[c].pending && s.cleanups[c].pending[ns] in s.heap
      && Enumerates(keys, s.heap[s.cleanups[c].pending[ns]].Keys)
    case SweepKey(c) => Sweeping(s, c) && s.cleanups[c].current.value.todo != []
    case Remove(c) =>
      Sweeping(s, c) && s.cleanups[c].current.value.todo == [] && s.cleanups[c].current.value.kept == []
    case Keep(c) =>
      Sweeping(s, c) && s.cleanups[c].current.value.todo == [] && s.cleanups[c].current.value.kept != []
    case Finish(c) => Idle(s, c) && s.cleanups[c].pending == map[]
    case Open(r, ns) => r !in s.readers && ns in s.namespaces
    case ListKeys(r, keys) =>
      r in s.readers && s.readers[r].tree in s.heap && Enumerates(keys, s.heap[s.readers[r].tree].Keys)
    case ListSpaces(order) => Enumerates(order, s.namespaces.Keys)
    case Read(r, key) => r in s.readers && s.readers[r].tree in s.heap
    case Close(r) => r in s.readers
  }

  ghost function Next(s: State, step: Step): State
    requires Enabled(s, step)
  {
    match step
    case Tick(now) => s.(now := now)
    case Lookup(p, ns, key) =>
      s.(puts := s.puts[p := if ns in s.namespaces then Holding(ns, key, s.namespaces[ns]) else Missed(ns, key)],
         started := s.started[p := (ns, key)],
         cleanups := Touch(s.cleanups, ns))
    case Register(p, tree) => AfterRegister(s, p, tree)
    case Append(p, filterTime) => AfterAppend(s, p, filterTime)
    case Snapshot(c, keys) => s.(cleanups := s.cleanups[c := Snapped(keys)])
    case Fetch(c) =>
      var keys := s.cleanups[c].keys;
      var half := keys[..|keys| / 2];
      var pending := map ns | ns in half && ns !in s.lastCollected && ns in s.namespaces :: s.namespaces[ns];
      s.(cleanups := s.cleanups[c := Crawling(pending, {}, None, InFlight(s))])
    case Begin(c, ns, keys) =>
      var pc := s.cleanups[c];
      s.(cleanups := s.cleanups[c := pc.(current := Some(Sweep(ns, pc.pending[ns], keys, [])))])
    case SweepKey(c) => AfterSweepKey(s, c)
    case Remove(c) => AfterRemove(s, c)
    case Keep(c) =>
      var pc := s.cleanups[c];
      var ns := pc.current.value.ns;
      s.(cleanups := s.cleanups[c := pc.(pending := pc.pending - {ns}, crawled := pc.crawled + {ns}, current := None)])
    case Finish(c) =>
      s.(lastCollected := s.cleanups[c].crawled, cleanups := s.cleanups - {c})
    case Open(r, ns) => s.(readers := s.readers[r := Reader(ns, s.namespaces[ns])])
    case ListKeys(_, _) => s
    case ListSpaces(_) => s
    case Read(r, key) =>
      var tree := s.readers[r].tree;
      s.(heap := s.heap[tree := Counted(s.heap[tree], key, s.now).0])
    case Close(r) => s.(readers := s.readers - {r})
  }

  ghost function AfterRegister(s: State, p: PutId, tree: TreeId): State
    requires Enabled(s, Register(p, tree))
  {
    var Missed(ns, key) := s.puts[p];
    s.(heap := s.heap[tree := map[]],
       namespaces := s.namespaces[ns := tree],
       puts := s.puts[p := Holding(ns, key, tree)],
       owner := s.owner[tree := ns],
       detached := if ns in s.namespaces then s.detached[s.namespaces[ns] := Overwritten(p)] else s.detached,
       raced := s.raced[tree := RivalsOf(s, p, ns)])
  }

  ghost function AfterAppend(s: State, p: PutId, filterTime: int): State
    requires Enabled(s, Append(p, filterTime))
  {
    var Holding(ns, key, tree) := s.puts[p];
    s.(heap := s.heap[tree := WithEntry(s.heap[tree], key, s.ttl, filterTime, s.now)],
       puts := s.puts - {p},
       log := s.log + [Record(p, ns, key, tree, s.now + s.ttl)])
  }

  ghost function AfterSweepKey(s: State, c: CleanupId): State
    requires Enabled(s, SweepKey(c))
  {
    var Sweep(ns, tree, todo, kept) := s.cleanups[c].current.value;
    var (content, n) := Counted(s.heap[tree], todo[0], s.now);
    var sweep := Sweep(ns, tree, todo[1..], if n == 0 then kept else kept + [todo[0]]);
    s.(heap := s.heap[tree := content],
       cleanups := s.cleanups[c := s.cleanups[c].(current := Some(sweep))])
  }

  ghost function AfterRemove(s: State, c: CleanupId): State
    requires Enabled(s, Remove(c))
  {
    var pc := s.cleanups[c];
    var ns := pc.current.value.ns;
    var cause := if ns in pc.touched then RemovedBusy(c) else RemovedQuiet(c);
    s.(namespaces := s.namespaces - {ns},
       detached := if ns in s.namespaces then s.detached[s.namespaces[ns] := cause] else s.detached,
       cleanups := s.cleanups[c := pc.(pending := pc.pending - {ns}, current := None)])
  }

  // ---- The invariant ----

  // The expiries of the completed puts that went to `key` of one tree.
  function InTree(log: seq<Record>, tree: TreeId, key: Bytes): seq<int> {
    if log == [] then []
    else
      var rest, e := InTree(log[..|log| - 1], tree, key), log[|log| - 1];
      if e.tree == tree && e.key == key then rest + [e.expiry] else rest
  }

  // Every tree is a faithful log of the puts that went to it, as far as a count can tell.
  ghost predicate TreesAgree(s: State) {
    forall tree, key | tree in s.heap ::
      Live(ListAt(s.heap[tree], key), s.now) == Live(InTree(s.log, tree, key), s.now)
  }

  predicate Belongs(s: State, tree: TreeId, ns: Bytes) {
    tree in s.heap && tree in s.owner && s.owner[tree] == ns
  }

  ghost predicate OwnedPut(s: State, p: PutId)
    requires p in s.puts
  {
    p in s.started && s.started[p] == (s.puts[p].ns, s.puts[p].key)
    && (s.puts[p].Holding? ==> Belongs(s, s.puts[p].tree, s.puts[p].ns))
  }

  ghost predicate OwnedRecord(s: State, e: Record) {
    Belongs(s, e.tree, e.ns)
    && e.put in s.started && e.put !in s.puts && s.started[e.put] == (e.ns, e.key)
  }

  ghost predicate OwnedCleanup(s: State, pc: CleanupPc) {
    pc.Crawling? ==>
      && (forall ns | ns in pc.pending :: Belongs(s, pc.pending[ns], ns))
      && (pc.current.Some? ==>
            pc.current.value.ns in pc.pending && pc.pending[pc.current.value.ns] == pc.current.value.tree)
  }

  // Every tree belongs to one namespace for its whole life, and everything that refers to
  // a tree refers to it under that namespace.
  ghost predicate Owned(s: State) {
    && s.owner.Keys == s.heap.Keys == s.raced.Keys
    && (forall ns | ns in s.namespaces :: Belongs(s, s.namespaces[ns], ns))
    && (forall p | p in s.puts :: OwnedPut(s, p))
    && (forall i | 0 <= i < |s.log| :: OwnedRecord(s, s.log[i]))
    && (forall c | c in s.cleanups :: OwnedCleanup(s, s.cleanups[c]))
    && (forall r | r in s.readers :: Belongs(s, s.readers[r].tree, s.readers[r].ns))
  }

  ghost predicate OncePerPut(log: seq<Record>) {
    forall i, j | 0 <= i < j < |log| :: log[i].put != log[j].put
  }

  predicate Reachable(s: State, tree: TreeId)
    requires tree in s.owner
  {
    s.owner[tree] in s.namespaces && s.namespaces[s.owner[tree]] == tree
  }

  // A tree is unreachable exactly when a step detached it.
  ghost predicate Attached(s: State)
    requires Owned(s)
  {
    && (forall tree | tree in s.heap :: Reachable(s, tree) <==> tree !in s.detached)
    && s.detached.Keys <= s.heap.Keys
  }

  ghost predicate Dead(s: State, tree: TreeId) {
    && (forall p | p in s.puts :: s.puts[p].Holding? ==> s.puts[p].tree != tree)
    && (forall i | 0 <= i < |s.log| :: s.log[i].tree == tree ==> s.log[i].expiry <= s.now)
  }

  // A tree removed with no Put overlapping is dead, for good.
  ghost predicate QuietIsDead(s: State) {
    forall tree | tree in s.detached && s.detached[tree].RemovedQuiet? :: Dead(s, tree)
  }

  ghost predicate Overtaken(s: State, p: PutId)
    requires Owned(s)
    requires p in s.puts
  {
    s.puts[p].Missed? && s.puts[p].ns in s.namespaces ==> p in s.raced[s.namespaces[s.puts[p].ns]]
  }

  // A Put that missed and now finds a tree registered was passed by the Put that did it.
  ghost predicate RacesRecorded(s: State)
    requires Owned(s)
  {
    && (forall p | p in s.puts :: Overtaken(s, p))
    && (forall tree | tree in s.detached && s.detached[tree].Overwritten? ::
          tree in s.raced && s.detached[tree].put in s.raced[tree])
  }

  // What an untouched cleanup may rely on from its fetch to its removal.
  ghost predicate WindowHolds(s: State, pc: CleanupPc, ns: Bytes)
    requires pc.Crawling? && ns in pc.pending
  {
    && (forall p | p in s.puts :: s.puts[p].ns != ns)
    && (ns in s.namespaces ==> s.namespaces[ns] == pc.pending[ns])
    && (pc.current.Some? && pc.current.value.ns == ns ==>
          forall i | 0 <= i < |s.log| && s.log[i].tree == pc.pending[ns] && s.log[i].expiry > s.now ::
            s.log[i].key in pc.current.value.todo || s.log[i].key in pc.current.value.kept)
  }

  ghost predicate WindowsHold(s: State) {
    forall c | c in s.cleanups && s.cleanups[c].Crawling? ::
      forall ns | ns in s.cleanups[c].pending && ns !in s.cleanups[c].touched ::
        WindowHolds(s, s.cleanups[c], ns)
  }

  ghost predicate Inv(s: State) {
    && Owned(s)
    && TreesAgree(s)
    && OncePerPut(s.log)
    && Attached(s)
    && QuietIsDead(s)
    && RacesRecorded(s)
    && WindowsHold(s)
  }

  // ---- Ownership ----

  lemma OwnedAfterLookup(s: State, p: PutId, ns: Bytes, key: Bytes)
    requires Owned(s) && Enabled(s, Lookup(p, ns, key))
    ensures Owned(Next(s, Lookup(p, ns, key)))
  {
    var s' := Next(s, Lookup(p, ns, key));
    forall q | q in s'.puts
      ensures OwnedPut(s', q)
    {
      assert q != p ==> OwnedPut(s, q);
    }
    forall i | 0 <= i < |s'.log|
      ensures OwnedRecord(s', s'.log[i])
    {
      assert OwnedRecord(s, s.log[i]);
    }
    forall c | c in s'.cleanups
      ensures OwnedCleanup(s', s'.cleanups[c])
    {
      assert OwnedCleanup(s, s.cleanups[c]);
    }
  }

  lemma OwnedAfterAppend(s: State, p: PutId, filterTime: int)
    requires Owned(s) && Enabled(s, Append(p, filterTime))
    ensures Owned(AfterAppend(s, p, filterTime))
  {
    var s' := AfterAppend(s, p, filterTime);
    assert OwnedPut(s, p);
    forall q | q in s'.puts
      ensures OwnedPut(s', q)
    {
      assert OwnedPut(s, q);
    }
    forall i | 0 <= i < |s'.log|
      ensures OwnedRecord(s', s'.log[i])
    {
      assert i < |s.log| ==> OwnedRecord(s, s.log[i]);
    }
    forall c | c in s'.cleanups
      ensures OwnedCleanup(s', s'.cleanups[c])
    {
      assert OwnedCleanup(s, s.cleanups[c]);
    }
  }

  lemma OwnedAfterTick(s: State, now: int)
    requires Owned(s)
    ensures Owned(s.(now := now))
  {
    assert forall c | c in s.cleanups :: OwnedCleanup(s, s.cleanups[c]);
    OwnedFrame(s, s.(now := now));
  }

  // What belonged to a namespace before a registration still does.
  lemma BelongsAfterRegister(s: State, p: PutId, tree: TreeId, t: TreeId, ns: Bytes)
    requires Enabled(s, Register(p, tree)) && Belongs(s, t, ns)
    ensures Belongs(AfterRegister(s, p, tree), t, ns)
  {
  }

  lemma OwnedCleanupAfterRegister(s: State, p: PutId, tree: TreeId, pc: CleanupPc)
    requires Enabled(s, Register(p, tree)) && OwnedCleanup(s, pc)
    ensures OwnedCleanup(AfterRegister(s, p, tree), pc)
  {
  }

  lemma OwnedPutAfterRegister(s: State, p: PutId, tree: TreeId, q: PutId)
    requires Enabled(s, Register(p, tree)) && q in s.puts && OwnedPut(s, q)
    ensures OwnedPut(AfterRegister(s, p, tree), q)
  {
  }

  lemma OwnedAfterRegister(s: State, p: PutId, tree: TreeId)
    requires Owned(s) && Enabled(s, Register(p, tree))
    ensures Owned(AfterRegister(s, p, tree))
  {
    var s' := AfterRegister(s, p, tree);
    assert Belongs(s', tree, s.puts[p].ns);
    forall ns | ns in s'.namespaces
      ensures Belongs(s', s'.namespaces[ns], ns)
    {
      if ns != s.puts[p].ns {
        BelongsAfterRegister(s, p, tree, s.namespaces[ns], ns);
      }
    }
    hide OwnedCleanup, OwnedPut, Belongs, RivalsOf;
    forall r | r in s'.readers
      ensures Belongs(s', s'.readers[r].tree, s'.readers[r].ns)
    {
      BelongsAfterRegister(s, p, tree, s.readers[r].tree, s.readers[r].ns);
    }
    forall c | c in s'.cleanups
      ensures OwnedCleanup(s', s'.cleanups[c])
    {
      OwnedCleanupAfterRegister(s, p, tree, s.cleanups[c]);
    }
    forall q | q in s'.puts
      ensures OwnedPut(s', q)
    {
      OwnedPutAfterRegister(s, p, tree, q);
    }
    forall i | 0 <= i < |s'.log|
      ensures OwnedRecord(s', s'.log[i])
    {
      assert OwnedRecord(s, s.log[i]);
      BelongsAfterRegister(s, p, tree, s.log[i].tree, s.log[i].ns);
    }
  }

  // A step that registers no tree and leaves the puts and the log alone.
  lemma OwnedFrame(s: State, s': State)
    requires Owned(s)
    requires s'.heap.Keys == s.heap.Keys && s'.owner == s.owner && s'.raced == s.raced
    requires s'.puts == s.puts && s'.started == s.started && s'.log == s.log
    requires forall ns | ns in s'.namespaces :: ns in s.namespaces && s'.namespaces[ns] == s.namespaces[ns]
    requires forall c | c in s'.cleanups :: OwnedCleanup(s, s'.cleanups[c])
    requires forall r | r in s'.readers :: Belongs(s, s'.readers[r].tree, s'.readers[r].ns)
    ensures Owned(s')
  {
    forall q | q in s'.puts
      ensures OwnedPut(s', q)
    {
      assert OwnedPut(s, q);
    }
    forall i | 0 <= i < |s'.log|
      ensures OwnedRecord(s', s'.log[i])
    {
      assert OwnedRecord(s, s.log[i]);
    }
    forall c | c in s'.cleanups
      ensures OwnedCleanup(s', s'.cleanups[c])
    {
      assert OwnedCleanup(s, s'.cleanups[c]);
    }
  }

  lemma OwnedAfterCleanupStep(s: State, step: Step)
    requires Owned(s) && Enabled(s, step)
    requires step.Snapshot? || step.Fetch? || step.Begin? || step.Keep? || step.Finish?
    ensures Owned(Next(s, step))
  {
    CleanupsStayOwned(s, step);
    OnlyCleanupsChange(s, step);
    hide Owned, OwnedCleanup, Next, Enabled;
    OwnedFrame(s, Next(s, step));
  }

  lemma OnlyCleanupsChange(s: State, step: Step)
    requires Enabled(s, step)
    requires step.Snapshot? || step.Fetch? || step.Begin? || step.Keep? || step.Finish?
    ensures var s' := Next(s, step);
            s' == s.(cleanups := s'.cleanups, lastCollected := s'.lastCollected)
  {
  }

  lemma CleanupsStayOwned(s: State, step: Step)
    requires Owned(s) && Enabled(s, step)
    requires step.Snapshot? || step.Fetch? || step.Begin? || step.Keep? || step.Finish?
    ensures forall c | c in Next(s, step).cleanups :: OwnedCleanup(s, Next(s, step).cleanups[c])
    ensures forall r | r in s.readers :: Belongs(s, s.readers[r].tree, s.readers[r].ns)
  {
    hide OwnedPut, OwnedRecord, Belongs;
    var s' := Next(s, step);
    forall c | c in s'.cleanups
      ensures OwnedCleanup(s, s'.cleanups[c])
    {
      if c in s.cleanups {
        assert OwnedCleanup(s, s.cleanups[c]);
      }
    }
  }

  lemma OwnedAfterReaderStep(s: State, step: Step)
    requires Owned(s) && Enabled(s, step)
    requires step.Read? || step.Open? || step.Close?
    ensures Owned(Next(s, step))
  {
    ReadersStayOwned(s, step);
    OnlyReadersChange(s, step);
    hide Owned, OwnedCleanup, Next, Enabled, Belongs;
    OwnedFrame(s, Next(s, step));
  }

  lemma OnlyReadersChange(s: State, step: Step)
    requires Enabled(s, step) && (step.Read? || step.Open? || step.Close?)
    ensures var s' := Next(s, step);
            s' == s.(heap := s'.heap, readers := s'.readers) && s'.heap.Keys == s.heap.Keys
  {
  }

  lemma ReadersStayOwned(s: State, step: Step)
    requires Owned(s) && Enabled(s, step) && (step.Read? || step.Open? || step.Close?)
    ensures forall r | r in Next(s, step).readers ::
              Belongs(s, Next(s, step).readers[r].tree, Next(s, step).readers[r].ns)
    ensures forall c | c in s.cleanups :: OwnedCleanup(s, s.cleanups[c])
  {
    hide OwnedPut, OwnedRecord, OwnedCleanup, Belongs;
  }

  lemma OwnedAfterSweepKey(s: State, c: CleanupId)
    requires Owned(s) && Enabled(s, SweepKey(c))
    ensures Owned(AfterSweepKey(s, c))
  {
    assert forall d | d in s.cleanups :: OwnedCleanup(s, s.cleanups[d]);
    OwnedFrame(s, AfterSweepKey(s, c));
  }

  lemma OwnedAfterRemove(s: State, c: CleanupId)
    requires Owned(s) && Enabled(s, Remove(c))
    ensures Owned(AfterRemove(s, c))
  {
    assert forall d | d in s.cleanups :: OwnedCleanup(s, s.cleanups[d]);
    OwnedFrame(s, AfterRemove(s, c));
  }

  lemma OwnedIsKept(s: State, step: Step)
    requires Owned(s) && Enabled(s, step)
    ensures Owned(Next(s, step))
  {
    if step.Register? {
      OwnedAfterRegister(s, step.p, step.tree);
    } else if step.Lookup? {
      OwnedAfterLookup(s, step.p, step.ns, step.key);
    } else if step.Append? {
      OwnedAfterAppend(s, step.p, step.filterTime);
    } else if step.Tick? {
      OwnedAfterTick(s, step.now);
    } else if step.SweepKey? {
      OwnedAfterSweepKey(s, step.c);
    } else if step.Remove? {
      OwnedAfterRemove(s, step.c);
    } else if step.ListKeys? || step.ListSpaces? {
      assert Next(s, step) == s;
    } else if step.Read? || step.Open? || step.Close? {
      OwnedAfterReaderStep(s, step);
    } else {
      OwnedAfterCleanupStep(s, step);
    }
  }

  // ---- Reachability ----

  lemma AttachedAfterRegister(s: State, p: PutId, tree: TreeId)
    requires Owned(s) && Attached(s) && Enabled(s, Register(p, tree))
    requires Owned(AfterRegister(s, p, tree))
    ensures Attached(AfterRegister(s, p, tree))
  {
    var s' := AfterRegister(s, p, tree);
    forall t | t in s'.heap
      ensures Reachable(s', t) <==> t !in s'.detached
    {
      assert t != tree ==> (Reachable(s, t) <==> t !in s.detached);
    }
  }

  lemma AttachedAfterRemove(s: State, c: CleanupId)
    requires Owned(s) && Attached(s) && Enabled(s, Remove(c))
    requires Owned(AfterRemove(s, c))
    ensures Attached(AfterRemove(s, c))
  {
  }

  lemma OtherStepsKeepTrees(s: State, step: Step)
    requires Enabled(s, step) && !step.Register? && !step.Remove?
    ensures var s' := Next(s, step);
            && s'.heap.Keys == s.heap.Keys && s'.owner == s.owner && s'.raced == s.raced
            && s'.namespaces == s.namespaces && s'.detached == s.detached
  {
  }

  lemma AttachedIsKept(s: State, step: Step)
    requires Owned(s) && Attached(s) && Enabled(s, step)
    requires Owned(Next(s, step))
    ensures Attached(Next(s, step))
  {
    if step.Register? {
      AttachedAfterRegister(s, step.p, step.tree);
    } else if step.Remove? {
      AttachedAfterRemove(s, step.c);
    } else {
      OtherStepsKeepTrees(s, step);
      hide Next, Enabled;
    }
  }

  // ---- Each put is recorded once ----

  lemma OncePerPutIsKept(s: State, step: Step)
    requires Owned(s) && OncePerPut(s.log) && Enabled(s, step)
    ensures OncePerPut(Next(s, step).log)
  {
    if step.Append? {
      forall i | 0 <= i < |s.log|
        ensures s.log[i].put != step.p
      {
        assert OwnedRecord(s, s.log[i]);
      }
    } else {
      assert Next(s, step).log == s.log;
    }
  }

  // ---- Every tree stays a faithful log of the puts that went to it ----

  lemma {:induction false} InTreeOfNewTree(log: seq<Record>, tree: TreeId, key: Bytes)
    requires forall i | 0 <= i < |log| :: log[i].tree != tree
    ensures InTree(log, tree, key) == []
  {
    if log != [] {
      InTreeOfNewTree(log[..|log| - 1], tree, key);
    }
  }

  lemma InTreeSnoc(log: seq<Record>, e: Record, tree: TreeId, key: Bytes)
    ensures e.tree == tree && e.key == key ==> InTree(log + [e], tree, key) == InTree(log, tree, key) + [e.expiry]
    ensures e.tree != tree || e.key != key ==> InTree(log + [e], tree, key) == InTree(log, tree, key)
  {
    assert (log + [e])[..|log|] == log;
  }

  lemma CountedAgrees(content: Content, counted: Bytes, now: int, key: Bytes)
    ensures Live(ListAt(Counted(content, counted, now).0, key), now) == Live(ListAt(content, key), now)
  {
    LiveLive(ListAt(content, key), now, now);
  }

  lemma TreesAgreeAfterTick(s: State, now: int)
    requires TreesAgree(s) && s.now <= now
    ensures TreesAgree(s.(now := now))
  {
    forall tree, key | tree in s.heap
      ensures Live(ListAt(s.heap[tree], key), now) == Live(InTree(s.log, tree, key), now)
    {
      LiveLive(ListAt(s.heap[tree], key), s.now, now);
      LiveLive(InTree(s.log, tree, key), s.now, now);
    }
  }

  lemma TreesAgreeAfterCount(s: State, counted: TreeId, at: Bytes, s': State)
    requires TreesAgree(s) && counted in s.heap
    requires s'.heap == s.heap[counted := Counted(s.heap[counted], at, s.now).0]
    requires s'.log == s.log && s'.now == s.now
    ensures TreesAgree(s')
  {
    forall tree, key | tree in s'.heap
      ensures Live(ListAt(s'.heap[tree], key), s'.now) == Live(InTree(s'.log, tree, key), s'.now)
    {
      CountedAgrees(s.heap[counted], at, s.now, key);
    }
  }

  lemma TreesAgreeAfterRegister(s: State, p: PutId, tree: TreeId)
    requires Owned(s) && TreesAgree(s) && Enabled(s, Register(p, tree))
    ensures TreesAgree(AfterRegister(s, p, tree))
  {
    forall key
      ensures InTree(s.log, tree, key) == []
    {
      forall i | 0 <= i < |s.log|
        ensures s.log[i].tree != tree
      {
        assert OwnedRecord(s, s.log[i]);
      }
      InTreeOfNewTree(s.log, tree, key);
    }
  }

  // Appending to a list that agrees with `logged` agrees with appending to `logged`.
  lemma AppendAgrees(content: Content, logged: seq<int>, put: Bytes, ttl: int, filterTime: int, now: int)
    requires filterTime <= now && Live(ListAt(content, put), now) == Live(logged, now)
    ensures Live(ListAt(WithEntry(content, put, ttl, filterTime, now), put), now) == Live(logged + [now + ttl], now)
  {
    var list := ListAt(content, put);
    assert ListAt(WithEntry(content, put, ttl, filterTime, now), put) == Live(list, filterTime) + [now + ttl];
    hide WithEntry, Live, ListAt;
    LiveLive(list, filterTime, now);
    LiveSnoc(Live(list, filterTime), now + ttl, now);
    LiveSnoc(logged, now + ttl, now);
  }

  lemma TreeAgreesAfterAppend(s: State, p: PutId, filterTime: int, t: TreeId, key: Bytes)
    requires Enabled(s, Append(p, filterTime)) && t in s.heap
    requires Live(ListAt(s.heap[t], key), s.now) == Live(InTree(s.log, t, key), s.now)
    ensures var s' := AfterAppend(s, p, filterTime);
            Live(ListAt(s'.heap[t], key), s'.now) == Live(InTree(s'.log, t, key), s'.now)
  {
    hide Live, InTree;
    var Holding(ns, put, tree) := s.puts[p];
    OtherKeysStay(s.heap[tree], put, s.ttl, filterTime, s.now, key);
    hide WithEntry, ListAt;
    InTreeSnoc(s.log, Record(p, ns, put, tree, s.now + s.ttl), t, key);
    if t == tree && key == put {
      AppendAgrees(s.heap[tree], InTree(s.log, tree, key), put, s.ttl, filterTime, s.now);
    }
  }

  lemma OtherKeysStay(content: Content, put: Bytes, ttl: int, filterTime: int, now: int, key: Bytes)
    ensures key != put ==> ListAt(WithEntry(content, put, ttl, filterTime, now), key) == ListAt(content, key)
  {
  }

  lemma TreesAgreeAfterAppend(s: State, p: PutId, filterTime: int)
    requires TreesAgree(s) && Enabled(s, Append(p, filterTime))
    ensures TreesAgree(AfterAppend(s, p, filterTime))
  {
    hide Live, InTree, WithEntry, ListAt;
    var s' := AfterAppend(s, p, filterTime);
    forall t, key | t in s'.heap
      ensures Live(ListAt(s'.heap[t], key), s'.now) == Live(InTree(s'.log, t, key), s'.now)
    {
      TreeAgreesAfterAppend(s, p, filterTime, t, key);
    }
  }

  lemma TreesAgreeOtherwise(s: State, step: Step)
    requires TreesAgree(s) && Enabled(s, step)
    requires !step.Tick? && !step.Register? && !step.Append? && !step.SweepKey? && !step.Read?
    ensures TreesAgree(Next(s, step))
  {
    var s' := Next(s, step);
    assert s'.heap == s.heap && s'.log == s.log && s'.now == s.now;
  }

  lemma TreesAgreeIsKept(s: State, step: Step)
    requires Owned(s) && TreesAgree(s) && Enabled(s, step)
    ensures TreesAgree(Next(s, step))
  {
    hide Owned, TreesAgree, Counted;
    match step
    case Tick(now) => TreesAgreeAfterTick(s, now);
    case Register(p, tree) => TreesAgreeAfterRegister(s, p, tree);
    case Append(p, filterTime) => TreesAgreeAfterAppend(s, p, filterTime);
    case SweepKey(c) =>
      var sweep := s.cleanups[c].current.value;
      TreesAgreeAfterCount(s, sweep.tree, sweep.todo[0], Next(s, step));
    case Read(r, key) => TreesAgreeAfterCount(s, s.readers[r].tree, key, Next(s, step));
    case _ => TreesAgreeOtherwise(s, step);
  }

  // ---- Quietly removed trees stay dead ----

  lemma QuietIsDeadAfterRegister(s: State, p: PutId, tree: TreeId)
    requires Owned(s) && Attached(s) && QuietIsDead(s) && Enabled(s, Register(p, tree))
    ensures QuietIsDead(AfterRegister(s, p, tree))
  {
    var s' := AfterRegister(s, p, tree);
    forall t | t in s'.detached && s'.detached[t].RemovedQuiet?
      ensures Dead(s', t)
    {
      assert t in s.detached && Dead(s, t);
    }
  }

  lemma QuietIsDeadAfterPutStep(s: State, step: Step)
    requires Owned(s) && Attached(s) && QuietIsDead(s) && Enabled(s, step)
    requires step.Lookup? || step.Append? || step.Tick?
    ensures QuietIsDead(Next(s, step))
  {
    var s' := Next(s, step);
    forall t | t in s'.detached && s'.detached[t].RemovedQuiet?
      ensures Dead(s', t)
    {
      assert Dead(s, t);
      if step.Lookup? && step.ns in s.namespaces {
        assert Belongs(s, s.namespaces[step.ns], step.ns);
        assert Reachable(s, s.namespaces[step.ns]);
      }
    }
  }

  // What a cleanup removes untouched is dead: no put holds its tree, and nothing in it is
  // live, since every live key would have been kept.
  lemma UntouchedIsDead(s: State, c: CleanupId)
    requires Owned(s) && WindowsHold(s) && Enabled(s, Remove(c))
    ensures var ns := s.cleanups[c].current.value.ns;
            ns !in s.cleanups[c].touched && ns in s.namespaces ==> Dead(s, s.namespaces[ns])
  {
    var pc := s.cleanups[c];
    var ns := pc.current.value.ns;
    assert OwnedCleanup(s, pc);
    if ns !in pc.touched && ns in s.namespaces {
      assert WindowHolds(s, pc, ns);
      assert forall p | p in s.puts :: OwnedPut(s, p);
      hide Owned, WindowsHold, OwnedCleanup;
    }
  }

  lemma QuietIsDeadAfterRemove(s: State, c: CleanupId)
    requires Owned(s) && Attached(s) && QuietIsDead(s) && WindowsHold(s) && Enabled(s, Remove(c))
    ensures QuietIsDead(AfterRemove(s, c))
  {
    UntouchedIsDead(s, c);
    hide Owned, Attached, WindowsHold;
    var s' := AfterRemove(s, c);
    forall t | t in s'.detached && s'.detached[t].RemovedQuiet?
      ensures Dead(s', t)
    {
      assert Dead(s, t);
    }
  }

  lemma QuietIsDeadOtherwise(s: State, step: Step)
    requires QuietIsDead(s) && Enabled(s, step)
    requires !step.Register? && !step.Remove? && !step.Lookup? && !step.Append? && !step.Tick?
    ensures QuietIsDead(Next(s, step))
  {
    var s' := Next(s, step);
    assert s'.detached == s.detached && s'.puts == s.puts && s'.log == s.log && s'.now == s.now;
    forall t | t in s'.detached && s'.detached[t].RemovedQuiet?
      ensures Dead(s', t)
    {
      assert Dead(s, t);
    }
  }

  lemma QuietIsDeadIsKept(s: State, step: Step)
    requires Owned(s) && Attached(s) && QuietIsDead(s) && WindowsHold(s) && Enabled(s, step)
    ensures QuietIsDead(Next(s, step))
  {
    if step.Register? {
      QuietIsDeadAfterRegister(s, step.p, step.tree);
    } else if step.Remove? {
      QuietIsDeadAfterRemove(s, step.c);
    } else if step.Lookup? || step.Append? || step.Tick? {
      QuietIsDeadAfterPutStep(s, step);
    } else {
      QuietIsDeadOtherwise(s, step);
    }
    hide Owned, Attached, QuietIsDead, WindowsHold;
  }

  // ---- Overtaken puts ----

  lemma OvertakenAfterRegister(s: State, p: PutId, tree: TreeId, q: PutId)
    requires Owned(s) && Enabled(s, Register(p, tree)) && q in s.puts && q != p && Overtaken(s, q)
    requires Owned(AfterRegister(s, p, tree))
    ensures Overtaken(AfterRegister(s, p, tree), q)
  {
  }

  lemma RacesRecordedAfterRegister(s: State, p: PutId, tree: TreeId)
    requires Owned(s) && Attached(s) && RacesRecorded(s) && Enabled(s, Register(p, tree))
    requires Owned(AfterRegister(s, p, tree))
    ensures RacesRecorded(AfterRegister(s, p, tree))
  {
    var s' := AfterRegister(s, p, tree);
    assert Overtaken(s, p);
    forall q | q in s'.puts
      ensures Overtaken(s', q)
    {
      if q != p {
        OvertakenAfterRegister(s, p, tree, q);
      }
    }
    forall t | t in s'.detached && s'.detached[t].Overwritten?
      ensures t in s'.raced && s'.detached[t].put in s'.raced[t]
    {
      if t in s.detached && s'.detached[t] == s.detached[t] {
        assert t != tree;
      }
    }
  }

  lemma RacesRecordedOtherwise(s: State, step: Step)
    requires Owned(s) && RacesRecorded(s) && Enabled(s, step) && !step.Register?
    requires Owned(Next(s, step))
    ensures RacesRecorded(Next(s, step))
  {
    var s' := Next(s, step);
    OnlyRegisteringRaces(s, step);
    forall q | q in s'.puts
      ensures Overtaken(s', q)
    {
      if q in s.puts {
        assert Overtaken(s, q);
      }
    }
    hide Next, Enabled;
  }

  lemma OnlyRegisteringRaces(s: State, step: Step)
    requires Enabled(s, step) && !step.Register?
    ensures var s' := Next(s, step);
            && s'.raced == s.raced
            && (forall tree | tree in s'.detached && s'.detached[tree].Overwritten? ::
                  tree in s.detached && s'.detached[tree] == s.detached[tree])
            && (forall ns | ns in s'.namespaces :: ns in s.namespaces && s'.namespaces[ns] == s.namespaces[ns])
            && (forall q | q in s'.puts && s'.puts[q].Missed? ::
                  if q in s.puts then s'.puts[q] == s.puts[q] else s'.puts[q].ns !in s'.namespaces)
  {
  }

  lemma RacesRecordedIsKept(s: State, step: Step)
    requires Owned(s) && Attached(s) && RacesRecorded(s) && Enabled(s, step)
    requires Owned(Next(s, step))
    ensures RacesRecorded(Next(s, step))
  {
    if step.Register? {
      RacesRecordedAfterRegister(s, step.p, step.tree);
    } else {
      RacesRecordedOtherwise(s, step);
    }
  }

  // ---- Cleanup windows that no put touches ----

  // A live record keeps its key in its tree.
  lemma {:induction false} LiveRecordIsInTree(log: seq<Record>, i: nat)
    requires i < |log|
    ensures log[i].expiry in InTree(log, log[i].tree, log[i].key)
  {
    if i < |log| - 1 {
      LiveRecordIsInTree(log[..|log| - 1], i);
    }
  }

  lemma LiveRecordHasCount(s: State, i: nat)
    requires Owned(s) && TreesAgree(s) && i < |s.log| && s.log[i].expiry > s.now
    ensures s.log[i].tree in s.heap && s.log[i].key in s.heap[s.log[i].tree]
    ensures Counted(s.heap[s.log[i].tree], s.log[i].key, s.now).1 > 0
  {
    var e := s.log[i];
    assert OwnedRecord(s, e);
    LiveRecordIsInTree(s.log, i);
    LiveMembers(InTree(s.log, e.tree, e.key), s.now);
    assert Live(ListAt(s.heap[e.tree], e.key), s.now) == Live(InTree(s.log, e.tree, e.key), s.now);
  }

  lemma WindowHoldsAfterPutStep(s: State, step: Step, c: CleanupId, ns: Bytes)
    requires Owned(s) && WindowsHold(s) && Enabled(s, step)
    requires step.Tick? || step.Lookup? || step.Register? || step.Append?
    requires c in Next(s, step).cleanups && Next(s, step).cleanups[c].Crawling?
    requires ns in Next(s, step).cleanups[c].pending && ns !in Next(s, step).cleanups[c].touched
    ensures WindowHolds(Next(s, step), Next(s, step).cleanups[c], ns)
  {
    assert WindowHolds(s, s.cleanups[c], ns);
    assert OwnedCleanup(s, s.cleanups[c]);
    if step.Append? {
      assert OwnedPut(s, step.p);
    }
  }

  lemma WindowHoldsAfterBegin(s: State, step: Step, c: CleanupId, ns: Bytes)
    requires Owned(s) && TreesAgree(s) && WindowsHold(s) && Enabled(s, step) && step.Begin?
    requires c in Next(s, step).cleanups && Next(s, step).cleanups[c].Crawling?
    requires ns in Next(s, step).cleanups[c].pending && ns !in Next(s, step).cleanups[c].touched
    ensures WindowHolds(Next(s, step), Next(s, step).cleanups[c], ns)
  {
    assert WindowHolds(s, s.cleanups[c], ns);
    if c == step.c && ns == step.ns {
      forall i | 0 <= i < |s.log| && s.log[i].tree == s.cleanups[c].pending[ns] && s.log[i].expiry > s.now
        ensures s.log[i].key in step.keys
      {
        LiveRecordHasCount(s, i);
      }
    }
  }

  // The key a sweep has just counted is kept if the log has a live entry for it.
  lemma SweptKeyIsKept(s: State, c: CleanupId, ns: Bytes, i: nat)
    requires Owned(s) && TreesAgree(s) && Enabled(s, SweepKey(c)) && i < |s.log|
    requires var sweep := s.cleanups[c].current.value;
             && sweep.ns == ns && s.log[i].tree == sweep.tree && s.log[i].expiry > s.now
             && (s.log[i].key in sweep.todo || s.log[i].key in sweep.kept)
    ensures var sweep := AfterSweepKey(s, c).cleanups[c].current.value;
            s.log[i].key in sweep.todo || s.log[i].key in sweep.kept
  {
    var sweep := s.cleanups[c].current.value;
    if s.log[i].key == sweep.todo[0] {
      LiveRecordHasCount(s, i);
    }
    hide Owned, TreesAgree;
  }

  lemma WindowHoldsAfterSweepKey(s: State, c0: CleanupId, c: CleanupId, ns: Bytes)
    requires Owned(s) && TreesAgree(s) && WindowsHold(s) && Enabled(s, SweepKey(c0))
    requires c in Next(s, SweepKey(c0)).cleanups && Next(s, SweepKey(c0)).cleanups[c].Crawling?
    requires ns in Next(s, SweepKey(c0)).cleanups[c].pending && ns !in Next(s, SweepKey(c0)).cleanups[c].touched
    ensures WindowHolds(Next(s, SweepKey(c0)), Next(s, SweepKey(c0)).cleanups[c], ns)
  {
    assert WindowHolds(s, s.cleanups[c], ns);
    assert OwnedCleanup(s, s.cleanups[c]);
    hide Owned, TreesAgree, WindowsHold, Counted;
    if c == c0 && ns == s.cleanups[c].current.value.ns {
      var tree, now := s.cleanups[c].current.value.tree, AfterSweepKey(s, c0).cleanups[c].current.value;
      forall i | 0 <= i < |s.log| && s.log[i].tree == tree && s.log[i].expiry > s.now
        ensures s.log[i].key in now.todo || s.log[i].key in now.kept
      {
        SweptKeyIsKept(s, c, ns, i);
      }
    }
  }

  lemma WindowHoldsAfterFetch(s: State, c0: CleanupId, c: CleanupId, ns: Bytes)
    requires WindowsHold(s) && Enabled(s, Fetch(c0))
    requires c in Next(s, Fetch(c0)).cleanups && Next(s, Fetch(c0)).cleanups[c].Crawling?
    requires ns in Next(s, Fetch(c0)).cleanups[c].pending && ns !in Next(s, Fetch(c0)).cleanups[c].touched
    ensures WindowHolds(Next(s, Fetch(c0)), Next(s, Fetch(c0)).cleanups[c], ns)
  {
    if c == c0 {
      forall p | p in s.puts
        ensures s.puts[p].ns != ns
      {
        assert s.puts[p].ns in InFlight(s);
      }
    } else {
      assert WindowHolds(s, s.cleanups[c], ns);
    }
  }

  lemma WindowHoldsOtherwise(s: State, step: Step, c: CleanupId, ns: Bytes)
    requires WindowsHold(s) && Enabled(s, step)
    requires step.Snapshot? || step.Remove? || step.Keep? || step.Finish?
          || step.Open? || step.ListKeys? || step.ListSpaces? || step.Read? || step.Close?
    requires c in Next(s, step).cleanups && Next(s, step).cleanups[c].Crawling?
    requires ns in Next(s, step).cleanups[c].pending && ns !in Next(s, step).cleanups[c].touched
    ensures WindowHolds(Next(s, step), Next(s, step).cleanups[c], ns)
  {
    assert WindowHolds(s, s.cleanups[c], ns);
  }

  lemma WindowsHoldIsKept(s: State, step: Step)
    requires Owned(s) && TreesAgree(s) && WindowsHold(s) && Enabled(s, step)
    ensures WindowsHold(Next(s, step))
  {
    hide Owned, TreesAgree, WindowHolds, Next, Enabled;
    var s' := Next(s, step);
    forall c | c in s'.cleanups && s'.cleanups[c].Crawling?
      ensures forall ns | ns in s'.cleanups[c].pending && ns !in s'.cleanups[c].touched ::
                WindowHolds(s', s'.cleanups[c], ns)
    {
      forall ns | ns in s'.cleanups[c].pending && ns !in s'.cleanups[c].touched
        ensures WindowHolds(s', s'.cleanups[c], ns)
      {
        match step
        case Begin(_, _, _) => WindowHoldsAfterBegin(s, step, c, ns);
        case SweepKey(c0) => WindowHoldsAfterSweepKey(s, c0, c, ns);
        case Fetch(c0) => WindowHoldsAfterFetch(s, c0, c, ns);
        case _ =>
          if step.Tick? || step.Lookup? || step.Register? || step.Append? {
            WindowHoldsAfterPutStep(s, step, c, ns);
          } else {
            WindowHoldsOtherwise(s, step, c, ns);
          }
      }
    }
  }

  lemma InvIsKept(s: State, step: Step)
    requires Inv(s) && Enabled(s, step)
    ensures Inv(Next(s, step))
  {
    OwnedIsKept(s, step);
    TreesAgreeIsKept(s, step);
    OncePerPutIsKept(s, step);
    AttachedIsKept(s, step);
    QuietIsDeadIsKept(s, step);
    RacesRecordedIsKept(s, step);
    WindowsHoldIsKept(s, step);
  }

  // ---- Behaviours: every interleaving from an empty store ----

  ghost predicate Behaviour(states: seq<State>, steps: seq<Step>, now: int, ttl: int) {
    && |states| == |steps| + 1
    && states[0] == Initial(now, ttl)
    && forall i {:trigger steps[i]} | 0 <= i < |steps| ::
         Enabled(states[i], steps[i]) && states[i + 1] == Next(states[i], steps[i])
  }

  lemma {:induction false} InvHolds(states: seq<State>, steps: seq<Step>, now: int, ttl: int, n: nat)
    requires Behaviour(states, steps, now, ttl) && n < |states|
    ensures Inv(states[n])
  {
    if n > 0 {
      InvHolds(states, steps, now, ttl, n - 1);
      InvIsKept(states[n - 1], steps[n - 1]);
    }
  }
}

// Replication between servers, server/server.go: a client put is stored where it arrives
// and sent once to every peer as an 'R' message; an 'R' is stored and never forwarded.
// The network may lose and reorder messages, and does not duplicate them.

module Replication {
  import opened ByteStrings
  import PutLog

  datatype Server = Server(hostPort: Bytes)
  type PutId = nat

  // NewServerWithPeers: the listed peers in order, without the server's own entry.
  function PeersOf(self: Server, listed: seq<Server>): (peers: seq<Server>)
    ensures self !in peers
    ensures forall d | d != self :: multiset(peers)[d] == multiset(listed)[d]
  {
    if listed == [] then []
    else
      var front, last := listed[..|listed| - 1], listed[|listed| - 1];
      assert listed == front + [last];
      if last == self then PeersOf(self, front) else PeersOf(self, front) + [last]
  }

  method NewPeers(self: Server, listed: seq<Server>) returns (peers: seq<Server>)
    ensures peers == PeersOf(self, listed)
    ensures forall d :: multiset(peers)[d] == if d == self then 0 else multiset(listed)[d]
  {
    peers := [];
    for i := 0 to |listed|
      invariant peers == PeersOf(self, listed[..i])
    {
      PrefixSnoc(listed, i);
      if listed[i] == self {
        continue;
      }
      peers := peers + [listed[i]];
    }
    assert listed[..|listed|] == listed;
  }

  // A client put, where and when it was accepted.
  datatype Accepted = Accepted(origin: Server, ns: Bytes, key: Bytes, at: int)

  datatype Message =
    | R(put: PutId, from: Server, to: Server, sent: int)
    | E(from: Server, to: Server)

  // One stored entry: which put it is of, and its stamp.
  datatype Copy = Copy(put: PutId, at: int)

  // `tag` stands for the packet hash, a function of the key and of what the packet says:
  // the put's message id, which goes with the put, its namespace and its key.
  datatype Config = Config(
    peers: map<Server, seq<Server>>,
    keys: map<Server, Bytes>,
    tag: (Bytes, PutId, Bytes, Bytes) -> nat)
  {
    ghost predicate Valid() {
      peers.Keys == keys.Keys && forall o {:trigger peers[o]} | o in peers :: Known(peers[o])
    }

    ghost predicate Known(some: seq<Server>) {
      forall i {:trigger some[i]} | 0 <= i < |some| :: some[i] in peers
    }
  }

  // `lost`, `sent` and `delivered` are history.
  datatype State = State(
    now: int,
    puts: map<PutId, Accepted>,
    stores: map<Server, seq<Copy>>,
    net: multiset<Message>,
    lost: multiset<Message>,
    sent: nat,
    delivered: nat)

  function Initial(c: Config, now: int): State {
    State(now, map[], map o | o in c.peers :: [], multiset{}, multiset{}, 0, 0)
  }

  datatype Step =
    | Tick(now: int)
    | ClientPut(id: PutId, origin: Server, ns: Bytes, key: Bytes, written: nat)
    | Deliver(m: Message)
    | Lose(m: Message)

  // One 'R' per entry of `peers`.
  function Fanout(id: PutId, origin: Server, at: int, peers: seq<Server>): multiset<Message> {
    if peers == [] then multiset{}
    else
      var last := |peers| - 1;
      Fanout(id, origin, at, peers[..last]) + multiset{R(id, origin, peers[last], at)}
  }

  // Does the receiver's key give the hash the sender's key gave?
  predicate Accepts(c: Config, s: State, m: Message)
    requires m.R?
  {
    m.put in s.puts && m.from in c.keys && m.to in c.keys
    && c.tag(c.keys[m.from], m.put, s.puts[m.put].ns, s.puts[m.put].key)
       == c.tag(c.keys[m.to], m.put, s.puts[m.put].ns, s.puts[m.put].key)
  }

  ghost predicate Enabled(c: Config, s: State, step: Step) {
    match step
    case Tick(now) => s.now <= now
    case ClientPut(id, origin, _, _, written) =>
      id !in s.puts && origin in c.peers && origin in s.stores && written <= |c.peers[origin]|
    case Deliver(m) => m in s.net && m.to in s.stores
    case Lose(m) => m in s.net
  }

  // `republish` writes to the peers in order and gives up at the first write that fails:
  // `written` of them are sent. A message whose hash does not validate is answered with an
  // 'E'; an 'E' that reaches a server is always answered with an 'E', because its hash is
  // bad or because its command is unknown.
  ghost function Next(c: Config, s: State, step: Step): State
    requires Enabled(c, s, step)
  {
    match step
    case Tick(now) => s.(now := now)
    case ClientPut(id, origin, ns, key, written) => AfterPut(c, s, id, origin, ns, key, written)
    case Deliver(m) =>
      if m.R? && Accepts(c, s, m) then
        s.(net := s.net - multiset{m},
           stores := s.stores[m.to := s.stores[m.to] + [Copy(m.put, s.now)]],
           delivered := s.delivered + 1)
      else
        s.(net := s.net - multiset{m} + multiset{E(m.to, m.from)})
    case Lose(m) => s.(net := s.net - multiset{m}, lost := s.lost + multiset{m})
  }

  ghost function AfterPut(c: Config, s: State, id: PutId, origin: Server, ns: Bytes, key: Bytes, written: nat): State
    requires Enabled(c, s, ClientPut(id, origin, ns, key, written))
  {
    var peers := c.peers[origin];
    s.(puts := s.puts[id := Accepted(origin, ns, key, s.now)],
       stores := s.stores[origin := s.stores[origin] + [Copy(id, s.now)]],
       net := s.net + Fanout(id, origin, s.now, peers[..written]),
       lost := s.lost + Fanout(id, origin, s.now, peers[written..]),
       sent := s.sent + |peers|)
  }

  ghost predicate Behaviour(c: Config, states: seq<State>, steps: seq<Step>, now: int) {
    && |states| == |steps| + 1
    && states[0] == Initial(c, now)
    && forall i {:trigger steps[i]} | 0 <= i < |steps| ::
         Enabled(c, states[i], steps[i]) && states[i + 1] == Next(c, states[i], steps[i])
  }

  ghost predicate SharedKey(c: Config) {
    c.Valid() && forall a, b {:trigger c.keys[a], c.keys[b]} | a in c.keys && b in c.keys :: c.keys[a] == c.keys[b]
  }

  // ---- Conservation ----

  function CopiesOf(store: seq<Copy>, id: PutId): nat {
    if store == [] then 0 else CopiesOf(store[..|store| - 1], id) + PutLog.One(store[|store| - 1].put == id)
  }

  lemma CopiesSnoc(store: seq<Copy>, copy: Copy, id: PutId)
    ensures CopiesOf(store + [copy], id) == CopiesOf(store, id) + PutLog.One(copy.put == id)
  {
    assert (store + [copy])[..|store|] == store;
  }

  // The message of put `id` to server `d`.
  function MessageOf(s: State, id: PutId, d: Server): Message
    requires id in s.puts
  {
    R(id, s.puts[id].origin, d, s.puts[id].at)
  }

  lemma {:induction false} FanoutCounts(id: PutId, origin: Server, at: int, peers: seq<Server>, m: Message)
    ensures Fanout(id, origin, at, peers)[m]
         == if m.R? && m.put == id && m.from == origin && m.sent == at then multiset(peers)[m.to] else 0
  {
    if peers != [] {
      var last := |peers| - 1;
      FanoutCounts(id, origin, at, peers[..last], m);
      assert peers == peers[..last] + [peers[last]];
    }
  }

  lemma {:induction false} FanoutSize(id: PutId, origin: Server, at: int, peers: seq<Server>)
    ensures |Fanout(id, origin, at, peers)| == |peers|
  {
    if peers != [] {
      FanoutSize(id, origin, at, peers[..|peers| - 1]);
    }
  }

  ghost predicate GenuineMessage(c: Config, s: State, m: Message) {
    m.R? && m.put in s.puts && m == MessageOf(s, m.put, m.to) && m.to in c.peers
  }

  ghost predicate GenuineStore(s: State, store: seq<Copy>) {
    forall i | 0 <= i < |store| :: store[i].put in s.puts
  }

  // Every message is the 'R' of an accepted put, and every copy is of an accepted put.
  ghost predicate Genuine(c: Config, s: State) {
    && s.stores.Keys == c.peers.Keys
    && (forall m | m in s.net :: GenuineMessage(c, s, m))
    && (forall m | m in s.lost :: GenuineMessage(c, s, m))
    && (forall id | id in s.puts :: s.puts[id].origin in c.peers && s.puts[id].at <= s.now)
    && (forall d | d in s.stores :: GenuineStore(s, s.stores[d]))
  }

  // Stored at d + in flight to d + lost on the way to d = 1 for the origin itself, plus
  // how often the origin lists d.
  ghost predicate ConservedAt(c: Config, s: State, id: PutId, d: Server)
    requires id in s.puts && d in s.stores && s.puts[id].origin in c.peers
  {
    CopiesOf(s.stores[d], id) + s.net[MessageOf(s, id, d)] + s.lost[MessageOf(s, id, d)]
    == PutLog.One(d == s.puts[id].origin) + multiset(c.peers[s.puts[id].origin])[d]
  }

  ghost predicate Conserved(c: Config, s: State) {
    && (forall id, d | id in s.puts && d in s.stores :: s.puts[id].origin in c.peers && ConservedAt(c, s, id, d))
    && |s.net| + |s.lost| + s.delivered == s.sent
  }

  // A message of a fan-out over some of the peers.
  lemma FanoutIsGenuine(c: Config, s: State, id: PutId, some: seq<Server>, m: Message)
    requires id in s.puts && m in Fanout(id, s.puts[id].origin, s.puts[id].at, some)
    requires c.Known(some)
    ensures GenuineMessage(c, s, m)
  {
    FanoutCounts(id, s.puts[id].origin, s.puts[id].at, some, m);
    assert m.to in some;
  }

  lemma GenuineFanout(c: Config, s: State, s': State, sofar: multiset<Message>, id: PutId, some: seq<Server>)
    requires id in s'.puts && id !in s.puts && c.Known(some)
    requires forall p | p in s.puts :: p in s'.puts && s'.puts[p] == s.puts[p]
    requires forall m | m in sofar :: GenuineMessage(c, s, m)
    ensures forall m | m in sofar + Fanout(id, s'.puts[id].origin, s'.puts[id].at, some) :: GenuineMessage(c, s', m)
  {
    forall m | m in sofar + Fanout(id, s'.puts[id].origin, s'.puts[id].at, some)
      ensures GenuineMessage(c, s', m)
    {
      if m in sofar {
        assert GenuineMessage(c, s, m);
      } else {
        FanoutIsGenuine(c, s', id, some, m);
      }
    }
  }

  lemma KnownSplits(c: Config, some: seq<Server>, n: nat)
    requires c.Known(some) && n <= |some|
    ensures c.Known(some[..n]) && c.Known(some[n..])
  {
  }

  lemma GenuineAfterPut(c: Config, s: State, id: PutId, origin: Server, ns: Bytes, key: Bytes, written: nat)
    requires c.Valid() && Genuine(c, s) && Enabled(c, s, ClientPut(id, origin, ns, key, written))
    ensures Genuine(c, AfterPut(c, s, id, origin, ns, key, written))
  {
    hide Fanout, GenuineMessage, Config.Known;
    var s' := AfterPut(c, s, id, origin, ns, key, written);
    var peers := c.peers[origin];
    assert c.Known(peers);
    KnownSplits(c, peers, written);
    GenuineFanout(c, s, s', s.net, id, peers[..written]);
    GenuineFanout(c, s, s', s.lost, id, peers[written..]);
    forall d | d in s'.stores
      ensures GenuineStore(s', s'.stores[d])
    {
      assert GenuineStore(s, s.stores[d]);
    }
  }

  lemma GenuineAfterDeliver(c: Config, s: State, m: Message)
    requires SharedKey(c) && Genuine(c, s) && Enabled(c, s, Deliver(m))
    ensures m.R? && Accepts(c, s, m) && Genuine(c, Next(c, s, Deliver(m)))
  {
    assert GenuineMessage(c, s, m);
    var s' := Next(c, s, Deliver(m));
    forall d | d in s'.stores
      ensures GenuineStore(s', s'.stores[d])
    {
      assert GenuineStore(s, s.stores[d]);
    }
  }

  lemma GenuineOtherwise(c: Config, s: State, step: Step)
    requires Genuine(c, s) && Enabled(c, s, step) && (step.Tick? || step.Lose?)
    ensures Genuine(c, Next(c, s, step))
  {
    var s' := Next(c, s, step);
    forall m | m in s'.net || m in s'.lost
      ensures GenuineMessage(c, s', m)
    {
      assert GenuineMessage(c, s, m);
    }
    forall d | d in s'.stores
      ensures GenuineStore(s', s'.stores[d])
    {
      assert GenuineStore(s, s.stores[d]);
    }
  }

  lemma GenuineIsKept(c: Config, s: State, step: Step)
    requires SharedKey(c) && Genuine(c, s) && Enabled(c, s, step)
    ensures Genuine(c, Next(c, s, step))
  {
    match step
    case ClientPut(id, origin, ns, key, written) => GenuineAfterPut(c, s, id, origin, ns, key, written);
    case Deliver(m) => GenuineAfterDeliver(c, s, m);
    case _ => GenuineOtherwise(c, s, step);
  }

  lemma {:induction false} NoCopies(store: seq<Copy>, id: PutId)
    requires forall i | 0 <= i < |store| :: store[i].put != id
    ensures CopiesOf(store, id) == 0
  {
    if store != [] {
      NoCopies(store[..|store| - 1], id);
    }
  }

  // What a client put adds for one put and one server.
  lemma FanoutSplits(id: PutId, origin: Server, at: int, peers: seq<Server>, written: nat, m: Message)
    requires written <= |peers|
    ensures Fanout(id, origin, at, peers[..written])[m] + Fanout(id, origin, at, peers[written..])[m]
         == if m.R? && m.put == id && m.from == origin && m.sent == at then multiset(peers)[m.to] else 0
  {
    FanoutCounts(id, origin, at, peers[..written], m);
    FanoutCounts(id, origin, at, peers[written..], m);
    assert peers == peers[..written] + peers[written..];
  }

  // Nothing of a put exists before it is accepted.
  lemma NewPutIsUnknown(c: Config, s: State, id: PutId, d: Server, m: Message)
    requires Genuine(c, s) && id !in s.puts && d in s.stores && m.R? && m.put == id
    ensures CopiesOf(s.stores[d], id) == 0 && s.net[m] == 0 && s.lost[m] == 0
  {
    assert GenuineStore(s, s.stores[d]);
    NoCopies(s.stores[d], id);
    assert m in s.net ==> GenuineMessage(c, s, m);
    assert m in s.lost ==> GenuineMessage(c, s, m);
  }

  lemma PutAddsMessages(c: Config, s: State, id: PutId, origin: Server, ns: Bytes, key: Bytes, written: nat, m: Message)
    requires Enabled(c, s, ClientPut(id, origin, ns, key, written))
    ensures var s' := AfterPut(c, s, id, origin, ns, key, written);
            s'.net[m] + s'.lost[m] == s.net[m] + s.lost[m]
              + (if m.R? && m.put == id && m.from == origin && m.sent == s.now
                 then multiset(c.peers[origin])[m.to] else 0)
  {
    FanoutSplits(id, origin, s.now, c.peers[origin], written, m);
  }

  lemma PutAddsCopies(c: Config, s: State, id: PutId, origin: Server, ns: Bytes, key: Bytes, written: nat, p: PutId,
                      d: Server)
    requires Enabled(c, s, ClientPut(id, origin, ns, key, written)) && d in s.stores
    ensures CopiesOf(AfterPut(c, s, id, origin, ns, key, written).stores[d], p)
         == CopiesOf(s.stores[d], p) + PutLog.One(d == origin && p == id)
  {
    CopiesSnoc(s.stores[d], Copy(id, s.now), p);
  }

  lemma ConservedAfterPut(c: Config, s: State, id: PutId, origin: Server, ns: Bytes, key: Bytes, written: nat, p: PutId,
                          d: Server)
    requires Genuine(c, s) && Enabled(c, s, ClientPut(id, origin, ns, key, written))
    requires p in s.puts || p == id
    requires d in s.stores && (p in s.puts ==> s.puts[p].origin in c.peers && ConservedAt(c, s, p, d))
    ensures ConservedAt(c, AfterPut(c, s, id, origin, ns, key, written), p, d)
  {
    var s' := AfterPut(c, s, id, origin, ns, key, written);
    var m := MessageOf(s', p, d);
    if p == id {
      NewPutIsUnknown(c, s, id, d, m);
    } else {
      assert m == MessageOf(s, p, d);
    }
    PutAddsMessages(c, s, id, origin, ns, key, written, m);
    PutAddsCopies(c, s, id, origin, ns, key, written, p, d);
  }

  lemma DeliverTakesMessage(c: Config, s: State, m: Message, x: Message)
    requires Enabled(c, s, Deliver(m)) && m.R? && Accepts(c, s, m)
    ensures Next(c, s, Deliver(m)).net[x] == s.net[x] - PutLog.One(x == m)
    ensures Next(c, s, Deliver(m)).lost == s.lost && Next(c, s, Deliver(m)).puts == s.puts
  {
    hide Accepts;
  }

  lemma DeliverAddsCopy(c: Config, s: State, m: Message, p: PutId, d: Server)
    requires Enabled(c, s, Deliver(m)) && m.R? && Accepts(c, s, m) && d in s.stores
    ensures d in Next(c, s, Deliver(m)).stores
    ensures CopiesOf(Next(c, s, Deliver(m)).stores[d], p)
         == CopiesOf(s.stores[d], p) + PutLog.One(d == m.to && p == m.put)
  {
    CopiesSnoc(s.stores[m.to], Copy(m.put, s.now), p);
    hide Accepts, CopiesOf;
  }

  // A genuine message is the message of its put to its receiver, and of no other put and
  // to no other server.
  lemma IsMessageOf(c: Config, s: State, m: Message, p: PutId, d: Server)
    requires Genuine(c, s) && m in s.net && m.R? && p in s.puts
    ensures MessageOf(s, p, d) == m <==> d == m.to && p == m.put
  {
    assert GenuineMessage(c, s, m);
  }

  lemma ConservedAfterDeliver(c: Config, s: State, m: Message, p: PutId, d: Server)
    requires Genuine(c, s) && Enabled(c, s, Deliver(m)) && m.R? && Accepts(c, s, m)
    requires p in s.puts && d in s.stores && ConservedAt(c, s, p, d)
    ensures ConservedAt(c, Next(c, s, Deliver(m)), p, d)
  {
    IsMessageOf(c, s, m, p, d);
    DeliverTakesMessage(c, s, m, MessageOf(s, p, d));
    DeliverAddsCopy(c, s, m, p, d);
    hide Genuine, GenuineMessage, CopiesOf, Accepts, Next, Enabled;
  }

  lemma CountsAfterPut(c: Config, s: State, id: PutId, origin: Server, ns: Bytes, key: Bytes, written: nat)
    requires Enabled(c, s, ClientPut(id, origin, ns, key, written))
    requires |s.net| + |s.lost| + s.delivered == s.sent
    ensures var s' := AfterPut(c, s, id, origin, ns, key, written); |s'.net| + |s'.lost| + s'.delivered == s'.sent
  {
    FanoutSize(id, origin, s.now, c.peers[origin][..written]);
    FanoutSize(id, origin, s.now, c.peers[origin][written..]);
  }

  lemma StoresStay(c: Config, s: State, step: Step)
    requires Enabled(c, s, step)
    ensures Next(c, s, step).stores.Keys == s.stores.Keys
  {
  }

  lemma ConservedOtherwise(c: Config, s: State, step: Step, p: PutId, d: Server)
    requires Enabled(c, s, step) && (step.Tick? || step.Lose?)
    requires p in s.puts && d in s.stores && s.puts[p].origin in c.peers && ConservedAt(c, s, p, d)
    ensures ConservedAt(c, Next(c, s, step), p, d)
  {
    var s', m := Next(c, s, step), MessageOf(s, p, d);
    assert s'.net[m] + s'.lost[m] == s.net[m] + s.lost[m];
  }

  lemma OriginsAreKnown(c: Config, s: State, step: Step, p: PutId)
    requires Enabled(c, s, step) && p in Next(c, s, step).puts
    requires p in s.puts ==> s.puts[p].origin in c.peers
    ensures Next(c, s, step).puts[p].origin in c.peers
    ensures p in s.puts || (step.ClientPut? && p == step.id)
  {
  }

  lemma ConservedKeptAt(c: Config, s: State, step: Step, p: PutId, d: Server)
    requires SharedKey(c) && Genuine(c, s) && Conserved(c, s) && Enabled(c, s, step)
    requires p in Next(c, s, step).puts && d in s.stores
    ensures d in Next(c, s, step).stores && Next(c, s, step).puts[p].origin in c.peers
    ensures ConservedAt(c, Next(c, s, step), p, d)
  {
    assert p in s.puts ==> s.puts[p].origin in c.peers && ConservedAt(c, s, p, d);
    OriginsAreKnown(c, s, step, p);
    StoresStay(c, s, step);
    hide Conserved, Genuine, ConservedAt, SharedKey;
    match step
    case ClientPut(id, origin, ns, key, written) =>
      ConservedAfterPut(c, s, id, origin, ns, key, written, p, d);
    case Deliver(m) =>
      GenuineAfterDeliver(c, s, m);
      ConservedAfterDeliver(c, s, m, p, d);
    case _ => ConservedOtherwise(c, s, step, p, d);
  }

  lemma TotalsAreKept(c: Config, s: State, step: Step)
    requires SharedKey(c) && Genuine(c, s) && Enabled(c, s, step)
    requires |s.net| + |s.lost| + s.delivered == s.sent
    ensures var s' := Next(c, s, step); |s'.net| + |s'.lost| + s'.delivered == s'.sent
  {
    match step
    case ClientPut(id, origin, ns, key, written) => CountsAfterPut(c, s, id, origin, ns, key, written);
    case Deliver(m) => GenuineAfterDeliver(c, s, m);
    case _ =>
  }

  lemma ConservedIsKept(c: Config, s: State, step: Step)
    requires SharedKey(c) && Genuine(c, s) && Conserved(c, s) && Enabled(c, s, step)
    ensures Conserved(c, Next(c, s, step))
  {
    var s' := Next(c, s, step);
    TotalsAreKept(c, s, step);
    StoresStay(c, s, step);
    hide Next, Enabled, Genuine, ConservedAt, SharedKey;
    forall p, d | p in s'.puts && d in s'.stores
      ensures s'.puts[p].origin in c.peers && ConservedAt(c, s', p, d)
    {
      ConservedKeptAt(c, s, step, p, d);
    }
  }

  lemma {:induction false} ConservedHolds(c: Config, states: seq<State>, steps: seq<Step>, now: int, n: nat)
    requires SharedKey(c) && Behaviour(c, states, steps, now) && n < |states|
    ensures Genuine(c, states[n]) && Conserved(c, states[n])
  {
    if n > 0 {
      ConservedHolds(c, states, steps, now, n - 1);
      GenuineIsKept(c, states[n - 1], steps[n - 1]);
      ConservedIsKept(c, states[n - 1], steps[n - 1]);
    }
  }

  // Every server lists every other server once.
  ghost predicate ListedOnce(c: Config) {
    forall o, d {:trigger multiset(c.peers[o])[d]} | o in c.peers && d in c.peers ::
      multiset(c.peers[o])[d] == if d == o then 0 else 1
  }

  // Giving every server one and the same list, with each server on it once, does that.
  lemma SameListMeansListedOnce(c: Config, listed: seq<Server>)
    requires forall o | o in c.peers :: c.peers[o] == PeersOf(o, listed)
    requires forall d | d in c.peers :: multiset(listed)[d] == 1
    ensures ListedOnce(c)
  {
    forall o, d | o in c.peers && d in c.peers
      ensures multiset(c.peers[o])[d] == if d == o then 0 else 1
    {
      var _ := PeersOf(o, listed);
    }
  }

  // Main result. In every run, each accepted put is stored once where it was accepted, and
  // for each other server it is exactly one of stored there, in flight, or lost.
  lemma EachPutOnce(c: Config, states: seq<State>, steps: seq<Step>, now: int, n: nat, id: PutId, d: Server)
    requires SharedKey(c) && ListedOnce(c) && Behaviour(c, states, steps, now) && n < |states|
    requires id in states[n].puts && d in c.peers
    ensures d in states[n].stores
    ensures CopiesOf(states[n].stores[d], id) + states[n].net[MessageOf(states[n], id, d)]
            + states[n].lost[MessageOf(states[n], id, d)] == 1
    ensures d == states[n].puts[id].origin ==> CopiesOf(states[n].stores[d], id) == 1
  {
    var s := states[n];
    ConservedHolds(c, states, steps, now, n);
    assert ConservedAt(c, s, id, d);
    if d == s.puts[id].origin {
      OriginCopyStays(c, states, steps, now, n, id);
    }
  }

  lemma CopiesOnlyGrow(c: Config, s: State, step: Step, id: PutId, d: Server)
    requires Enabled(c, s, step) && d in s.stores
    ensures d in Next(c, s, step).stores && CopiesOf(Next(c, s, step).stores[d], id) >= CopiesOf(s.stores[d], id)
    ensures step.ClientPut? && step.id == id && step.origin == d ==> CopiesOf(Next(c, s, step).stores[d], id) >= 1
  {
    if step.ClientPut? {
      CopiesSnoc(s.stores[d], Copy(step.id, s.now), id);
    } else if step.Deliver? && step.m.R? {
      CopiesSnoc(s.stores[d], Copy(step.m.put, s.now), id);
    }
  }

  lemma {:induction false} OriginCopyStays(c: Config, states: seq<State>, steps: seq<Step>, now: int, n: nat, id: PutId)
    requires Behaviour(c, states, steps, now) && n < |states| && id in states[n].puts
    ensures states[n].puts[id].origin in states[n].stores
    ensures CopiesOf(states[n].stores[states[n].puts[id].origin], id) >= 1
  {
    if n > 0 {
      var s, step := states[n - 1], steps[n - 1];
      if id in s.puts {
        OriginCopyStays(c, states, steps, now, n - 1, id);
      } else {
        assert step.ClientPut? && step.id == id;
      }
      CopiesOnlyGrow(c, s, step, id, states[n].puts[id].origin);
    }
  }

  // When nothing is in flight and nothing was lost, all servers hold each put exactly once.
  lemma AllAgreeWhenQuiet(c: Config, states: seq<State>, steps: seq<Step>, now: int, n: nat)
    requires SharedKey(c) && ListedOnce(c) && Behaviour(c, states, steps, now) && n < |states|
    requires states[n].net == multiset{} && states[n].lost == multiset{}
    ensures forall id, d | id in states[n].puts && d in c.peers ::
              d in states[n].stores && CopiesOf(states[n].stores[d], id) == 1
  {
    forall id, d | id in states[n].puts && d in c.peers
      ensures d in states[n].stores && CopiesOf(states[n].stores[d], id) == 1
    {
      EachPutOnce(c, states, steps, now, n, id, d);
    }
  }

  // ---- Traffic ----

  lemma {:induction false} OnceEachIsDistinct(s: seq<Server>)
    requires forall d :: multiset(s)[d] <= 1
    ensures Distinct(s)
  {
    if s != [] {
      var front, last := s[..|s| - 1], s[|s| - 1];
      assert s == front + [last];
      assert multiset(s)[last] == multiset(front)[last] + 1;
      assert last !in front;
      forall d
        ensures multiset(front)[d] <= 1
      {
        assert multiset(s)[d] <= 1;
      }
      OnceEachIsDistinct(front);
    }
  }

  lemma PeersAreFewer(c: Config, o: Server)
    requires c.Valid() && ListedOnce(c) && o in c.peers
    ensures |c.peers[o]| <= |c.peers| - 1
  {
    var peers := c.peers[o];
    assert c.Known(peers);
    forall d
      ensures multiset(peers)[d] <= 1 && (d in peers ==> d in c.peers.Keys - {o})
    {
      if d in peers {
        assert d in c.peers && multiset(peers)[d] > 0;
      }
    }
    OnceEachIsDistinct(peers);
    var all := set d | d in peers;
    DistinctSize(peers, all);
    SubsetSize(all, c.peers.Keys - {o});
  }

  lemma OneMorePut(puts: map<PutId, Accepted>, id: PutId, a: Accepted)
    requires id !in puts
    ensures |puts[id := a]| == |puts| + 1
  {
    var after := puts[id := a];
    assert after.Keys == puts.Keys + {id};
    assert |after.Keys| == |puts.Keys| + 1;
  }

  lemma OneMoreTimes(n: nat, peers: nat)
    ensures (n + 1) * peers == n * peers + peers
  {
  }

  lemma TrafficStep(c: Config, s: State, step: Step, peers: nat)
    requires Enabled(c, s, step) && s.sent <= |s.puts| * peers
    requires step.ClientPut? ==> |c.peers[step.origin]| <= peers
    ensures Next(c, s, step).sent <= |Next(c, s, step).puts| * peers
  {
    if step.ClientPut? {
      var ClientPut(id, origin, ns, key, _) := step;
      OneMorePut(s.puts, id, Accepted(origin, ns, key, s.now));
      OneMoreTimes(|s.puts|, peers);
      hide Fanout;
      assert Next(c, s, step).puts == s.puts[id := Accepted(origin, ns, key, s.now)];
    } else {
      assert Next(c, s, step).puts == s.puts;
    }
  }

  lemma {:induction false} SentIsBounded(c: Config, states: seq<State>, steps: seq<Step>, now: int, n: nat)
    requires c.Valid() && ListedOnce(c) && Behaviour(c, states, steps, now) && n < |states| && |c.peers| > 0
    ensures states[n].sent <= |states[n].puts| * (|c.peers| - 1)
  {
    if n > 0 {
      SentIsBounded(c, states, steps, now, n - 1);
      if steps[n - 1].ClientPut? {
        PeersAreFewer(c, steps[n - 1].origin);
      }
      TrafficStep(c, states[n - 1], steps[n - 1], |c.peers| - 1);
    }
  }

  // Never more than one 'R' per put and other server, and each is in flight, lost or stored.
  lemma TrafficIsBounded(c: Config, states: seq<State>, steps: seq<Step>, now: int, n: nat)
    requires SharedKey(c) && ListedOnce(c) && Behaviour(c, states, steps, now) && n < |states| && |c.peers| > 0
    ensures |states[n].net| + |states[n].lost| + states[n].delivered
         == states[n].sent <= |states[n].puts| * (|c.peers| - 1)
  {
    SentIsBounded(c, states, steps, now, n);
    ConservedHolds(c, states, steps, now, n);
  }

  // `ms` can be delivered one after the other, with no client put in between.
  ghost predicate CanDeliver(c: Config, s: State, ms: seq<Message>)
    decreases |ms|
  {
    ms == [] || (Enabled(c, s, Deliver(ms[0])) && CanDeliver(c, Next(c, s, Deliver(ms[0])), ms[1..]))
  }

  // All traffic is between the servers.
  ghost predicate Addressed(s: State) {
    forall m | m in s.net :: m.from in s.stores && m.to in s.stores
  }

  ghost predicate AllAccepted(c: Config, s: State) {
    forall m | m in s.net :: m.R? && Accepts(c, s, m)
  }

  // Delivering an accepted 'R' sends nothing.
  lemma AcceptedDelivery(c: Config, s: State, m: Message)
    requires AllAccepted(c, s) && Enabled(c, s, Deliver(m))
    ensures AllAccepted(c, Next(c, s, Deliver(m)))
    ensures |Next(c, s, Deliver(m)).net| == |s.net| - 1
  {
    assert Accepts(c, s, m);
    var s' := Next(c, s, Deliver(m));
    assert s'.net == s.net - multiset{m} && s'.puts == s.puts;
    forall x | x in s'.net
      ensures x.R? && Accepts(c, s', x)
    {
      assert x in s.net && Accepts(c, s, x);
    }
  }

  // So traffic only shrinks.
  lemma {:induction false} AcceptedTrafficEnds(c: Config, s: State, ms: seq<Message>)
    requires AllAccepted(c, s) && CanDeliver(c, s, ms)
    ensures |ms| <= |s.net|
    decreases |ms|
  {
    if ms != [] {
      AcceptedDelivery(c, s, ms[0]);
      hide AllAccepted, Next, Enabled;
      AcceptedTrafficEnds(c, Next(c, s, Deliver(ms[0])), ms[1..]);
    }
  }

  predicate Bounces(c: Config, s: State, m: Message) {
    m.E? || !Accepts(c, s, m)
  }

  // A message that bounces keeps two servers answering each other for as long as one likes.
  lemma {:induction false} BouncingNeverEnds(c: Config, s: State, m: Message, n: nat) returns (ms: seq<Message>)
    requires Addressed(s) && m in s.net && Bounces(c, s, m)
    ensures |ms| == n && CanDeliver(c, s, ms)
    decreases n
  {
    if n == 0 {
      ms := [];
    } else {
      var s' := Next(c, s, Deliver(m));
      var rest := BouncingNeverEnds(c, s', E(m.to, m.from), n - 1);
      ms := [m] + rest;
      assert ms[1..] == rest;
    }
  }

  ghost predicate EndsWithin(c: Config, s: State, bound: nat) {
    forall ms :: CanDeliver(c, s, ms) ==> |ms| <= bound
  }

  // Without further client puts, the servers stop sending exactly when every message in
  // flight is an 'R' that its receiver's key validates.
  lemma TrafficEndsIff(c: Config, s: State)
    requires Addressed(s)
    ensures (exists bound :: EndsWithin(c, s, bound)) <==> AllAccepted(c, s)
  {
    if AllAccepted(c, s) {
      forall ms | CanDeliver(c, s, ms)
        ensures |ms| <= |s.net|
      {
        AcceptedTrafficEnds(c, s, ms);
      }
      assert EndsWithin(c, s, |s.net|);
    } else {
      var m :| m in s.net && Bounces(c, s, m);
      forall bound: nat
        ensures !EndsWithin(c, s, bound)
      {
        var ms := BouncingNeverEnds(c, s, m, bound + 1);
      }
    }
  }

  lemma PutIsAddressed(c: Config, s: State, id: PutId, origin: Server, ns: Bytes, key: Bytes, written: nat, m: Message)
    requires c.Valid() && s.stores.Keys == c.peers.Keys && Addressed(s)
    requires Enabled(c, s, ClientPut(id, origin, ns, key, written))
    requires m in AfterPut(c, s, id, origin, ns, key, written).net
    ensures m.from in s.stores && m.to in s.stores
  {
    var sent := c.peers[origin][..written];
    FanoutCounts(id, origin, s.now, sent, m);
    assert c.Known(c.peers[origin]);
    if m !in s.net {
      assert m.to in sent;
    }
  }

  lemma AddressedStep(c: Config, s: State, step: Step)
    requires c.Valid() && s.stores.Keys == c.peers.Keys && Addressed(s) && Enabled(c, s, step)
    ensures Next(c, s, step).stores.Keys == c.peers.Keys && Addressed(Next(c, s, step))
  {
    if step.ClientPut? {
      forall m | m in Next(c, s, step).net
        ensures m.from in s.stores && m.to in s.stores
      {
        PutIsAddressed(c, s, step.id, step.origin, step.ns, step.key, step.written, m);
      }
    }
  }

  // In every reachable state, whatever the keys, all traffic is between the servers.
  lemma {:induction false} AddressedHolds(c: Config, states: seq<State>, steps: seq<Step>, now: int, n: nat)
    requires c.Valid() && Behaviour(c, states, steps, now) && n < |states|
    ensures states[n].stores.Keys == c.peers.Keys && Addressed(states[n])
  {
    if n > 0 {
      AddressedHolds(c, states, steps, now, n - 1);
      AddressedStep(c, states[n - 1], steps[n - 1]);
    }
  }

  // Main result. In every reachable state, whatever the keys: without further client puts
  // the servers stop sending exactly when every message in flight is an 'R' that its
  // receiver's key validates.
  lemma ReachableTrafficEndsIff(c: Config, states: seq<State>, steps: seq<Step>, now: int, n: nat)
    requires c.Valid() && Behaviour(c, states, steps, now) && n < |states|
    ensures (exists bound :: EndsWithin(c, states[n], bound)) <==> AllAccepted(c, states[n])
  {
    AddressedHolds(c, states, steps, now, n);
    TrafficEndsIff(c, states[n]);
  }

  // Two servers with keys of different lengths, and a hash that tells them apart.
  function TwoKeys(a: Server, b: Server): Config {
    Config(map[a := [b], b := [a]], map[a := [], b := [0]], (key: Bytes, id: PutId, ns: Bytes, name: Bytes) => |key|)
  }

  // It does happen: with two different keys, one client put is enough for traffic that
  // never ends.
  lemma DifferentKeysBounce(a: Server, b: Server, ns: Bytes, key: Bytes, now: int)
    requires a != b
    ensures var c := TwoKeys(a, b);
            && c.Valid()
            && exists states, steps :: Behaviour(c, states, steps, now) && |states| == 2
                                       && !exists bound :: EndsWithin(c, states[1], bound)
  {
    var c := TwoKeys(a, b);
    var s0, put := Initial(c, now), ClientPut(0, a, ns, key, 1);
    var s1 := Next(c, s0, put);
    var states, steps := [s0, s1], [put];
    assert Behaviour(c, states, steps, now);
    var r := R(0, a, b, now);
    assert c.peers[a][..1] == [b];
    FanoutCounts(0, a, now, [b], r);
    assert multiset([b])[b] == 1;
    assert r in s1.net && !Accepts(c, s1, r);
    ReachableTrafficEndsIff(c, states, steps, now, 1);
  }

  // With a shared key every reachable state is one where it ends.
  lemma SharedKeyTrafficEnds(c: Config, states: seq<State>, steps: seq<Step>, now: int, n: nat)
    requires SharedKey(c) && Behaviour(c, states, steps, now) && n < |states|
    ensures EndsWithin(c, states[n], |states[n].net|)
  {
    ConservedHolds(c, states, steps, now, n);
    assert AllAccepted(c, states[n]);
    forall ms | CanDeliver(c, states[n], ms)
      ensures |ms| <= |states[n].net|
    {
      AcceptedTrafficEnds(c, states[n], ms);
    }
  }

  // ---- Drift ----

  // Every delivery of the run is at most `delay` seconds after the put.
  ghost predicate OnTime(states: seq<State>, steps: seq<Step>, delay: nat)
    requires |states| == |steps| + 1
  {
    forall i | 0 <= i < |steps| && steps[i].Deliver? && steps[i].m.R? :: states[i].now <= steps[i].m.sent + delay
  }

  ghost predicate Stamped(s: State, copy: Copy, delay: nat) {
    copy.put in s.puts && s.puts[copy.put].at <= copy.at <= s.puts[copy.put].at + delay
  }

  ghost predicate AllStamped(s: State, store: seq<Copy>, delay: nat) {
    forall i | 0 <= i < |store| :: Stamped(s, store[i], delay)
  }

  lemma StampedSnoc(s: State, s': State, store: seq<Copy>, copy: Copy, delay: nat)
    requires AllStamped(s, store, delay) && Stamped(s', copy, delay)
    requires forall id | id in s.puts :: id in s'.puts && s'.puts[id] == s.puts[id]
    ensures AllStamped(s', store, delay) && AllStamped(s', store + [copy], delay)
  {
    forall i | 0 <= i < |store|
      ensures Stamped(s', store[i], delay)
    {
      assert Stamped(s, store[i], delay);
    }
  }

  lemma StampedAfterPut(c: Config, s: State, id: PutId, origin: Server, ns: Bytes, key: Bytes, written: nat, d: Server,
                        delay: nat)
    requires Enabled(c, s, ClientPut(id, origin, ns, key, written)) && d in s.stores
             && AllStamped(s, s.stores[d], delay)
    ensures var s' := AfterPut(c, s, id, origin, ns, key, written); AllStamped(s', s'.stores[d], delay)
  {
    var s' := AfterPut(c, s, id, origin, ns, key, written);
    hide Fanout, AllStamped;
    StampedSnoc(s, s', s.stores[d], Copy(id, s.now), delay);
  }

  lemma StampedAfterDeliver(c: Config, s: State, m: Message, d: Server, delay: nat)
    requires Genuine(c, s) && Enabled(c, s, Deliver(m)) && d in s.stores && AllStamped(s, s.stores[d], delay)
    requires m.R? ==> s.now <= m.sent + delay
    ensures var s' := Next(c, s, Deliver(m)); d in s'.stores && AllStamped(s', s'.stores[d], delay)
  {
    assert GenuineMessage(c, s, m) && s.puts[m.put].at <= s.now;
    var s' := Next(c, s, Deliver(m));
    hide Genuine, GenuineMessage, Accepts, AllStamped;
    assert s'.puts == s.puts;
    StampedSnoc(s, s', s.stores[d], Copy(m.put, s.now), delay);
  }

  lemma StampedStep(c: Config, s: State, step: Step, d: Server, delay: nat)
    requires Genuine(c, s) && Enabled(c, s, step) && d in s.stores && AllStamped(s, s.stores[d], delay)
    requires step.Deliver? && step.m.R? ==> s.now <= step.m.sent + delay
    ensures d in Next(c, s, step).stores && AllStamped(Next(c, s, step), Next(c, s, step).stores[d], delay)
  {
    hide Genuine, Fanout, Accepts;
    match step
    case ClientPut(id, origin, ns, key, written) => StampedAfterPut(c, s, id, origin, ns, key, written, d, delay);
    case Deliver(m) => StampedAfterDeliver(c, s, m, d, delay);
    case _ =>
      var s' := Next(c, s, step);
      forall i | 0 <= i < |s'.stores[d]|
        ensures Stamped(s', s'.stores[d][i], delay)
      {
        assert Stamped(s, s.stores[d][i], delay);
      }
  }

  lemma {:induction false} CopiesAreStamped(c: Config, states: seq<State>, steps: seq<Step>, now: int, n: nat,
                                            delay: nat, d: Server)
    requires SharedKey(c) && Behaviour(c, states, steps, now) && n < |states| && OnTime(states, steps, delay)
    requires d in c.peers
    ensures d in states[n].stores && AllStamped(states[n], states[n].stores[d], delay)
  {
    if n == 0 {
      InitiallyStamped(c, states, steps, now, delay, d);
    } else {
      assert |states| == |steps| + 1;
      hide AllStamped, OnTime, SharedKey, Behaviour;
      CopiesAreStamped(c, states, steps, now, n - 1, delay, d);
      StampedNext(c, states, steps, now, n - 1, delay, d);
    }
  }

  lemma InitiallyStamped(c: Config, states: seq<State>, steps: seq<Step>, now: int, delay: nat, d: Server)
    requires Behaviour(c, states, steps, now) && d in c.peers
    ensures d in states[0].stores && AllStamped(states[0], states[0].stores[d], delay)
  {
  }

  lemma StampedNext(c: Config, states: seq<State>, steps: seq<Step>, now: int, n: nat, delay: nat, d: Server)
    requires SharedKey(c) && Behaviour(c, states, steps, now) && n < |steps| && OnTime(states, steps, delay)
    requires d in states[n].stores && AllStamped(states[n], states[n].stores[d], delay)
    ensures d in states[n + 1].stores && AllStamped(states[n + 1], states[n + 1].stores[d], delay)
  {
    ConservedHolds(c, states, steps, now, n);
    StampedStep(c, states[n], steps[n], d, delay);
  }

  predicate Counts(a: Accepted, origins: set<Server>, ns: Bytes, key: Bytes) {
    a.origin in origins && a.ns == ns && a.key == key
  }

  // A server's count at `t` of the copies of puts to (ns, key) accepted at one of `origins`.
  function CountAt(s: State, store: seq<Copy>, origins: set<Server>, ns: Bytes, key: Bytes, ttl: int, t: int): nat {
    if store == [] then 0
    else
      var last := store[|store| - 1];
      CountAt(s, store[..|store| - 1], origins, ns, key, ttl, t)
      + PutLog.One(last.put in s.puts && Counts(s.puts[last.put], origins, ns, key) && last.at + ttl > t)
  }

  // The accepted puts to (ns, key) at one of `origins` that are live at `t`.
  ghost function LivePuts(s: State, origins: set<Server>, ns: Bytes, key: Bytes, ttl: int, t: int): set<PutId> {
    set id | id in s.puts && Counts(s.puts[id], origins, ns, key) && s.puts[id].at + ttl > t
  }

  ghost function LiveCopies(s: State, store: seq<Copy>, origins: set<Server>, ns: Bytes, key: Bytes, ttl: int,
                            t: int): set<PutId> {
    set i | 0 <= i < |store| && store[i].put in s.puts && Counts(s.puts[store[i].put], origins, ns, key)
            && store[i].at + ttl > t :: store[i].put
  }

  lemma {:induction false} CopyIsCounted(store: seq<Copy>, i: nat)
    requires i < |store|
    ensures CopiesOf(store, store[i].put) >= 1
  {
    if i < |store| - 1 {
      CopyIsCounted(store[..|store| - 1], i);
    }
  }

  lemma {:induction false} CopyExists(store: seq<Copy>, id: PutId)
    requires CopiesOf(store, id) >= 1
    ensures exists i :: 0 <= i < |store| && store[i].put == id
  {
    var last := |store| - 1;
    if store[last].put != id {
      CopyExists(store[..last], id);
      var i :| 0 <= i < last && store[..last][i].put == id;
      assert store[i].put == id;
    }
  }

  // A store that holds each put at most once counts puts.
  lemma {:induction false} CountAtIsCard(s: State, store: seq<Copy>, origins: set<Server>, ns: Bytes, key: Bytes,
                                         ttl: int, t: int)
    requires forall id :: CopiesOf(store, id) <= 1
    ensures CountAt(s, store, origins, ns, key, ttl, t) == |LiveCopies(s, store, origins, ns, key, ttl, t)|
  {
    if store == [] {
      assert LiveCopies(s, store, origins, ns, key, ttl, t) == {};
    } else {
      var front, last := store[..|store| - 1], store[|store| - 1];
      forall id
        ensures CopiesOf(front, id) <= 1
      {
        assert CopiesOf(store, id) <= 1;
      }
      CountAtIsCard(s, front, origins, ns, key, ttl, t);
      var before := LiveCopies(s, front, origins, ns, key, ttl, t);
      var after := LiveCopies(s, store, origins, ns, key, ttl, t);
      assert CopiesOf(store, last.put) <= 1;
      assert last.put !in before by {
        if last.put in before {
          var i :| 0 <= i < |front| && front[i].put == last.put;
          CopyIsCounted(front, i);
        }
      }
      assert forall i | 0 <= i < |front| :: front[i] == store[i];
      var live := last.put in s.puts && Counts(s.puts[last.put], origins, ns, key) && last.at + ttl > t;
      assert after == before + if live then {last.put} else {};
    }
  }

  // A put that is live has a live copy, its copies being stamped no earlier.
  lemma LivePutsAreCopied(s: State, store: seq<Copy>, origins: set<Server>, ns: Bytes, key: Bytes, ttl: int, t: int,
                          delay: nat)
    requires AllStamped(s, store, delay) && forall id | id in s.puts :: CopiesOf(store, id) == 1
    ensures LivePuts(s, origins, ns, key, ttl, t) <= LiveCopies(s, store, origins, ns, key, ttl, t)
  {
    forall id | id in LivePuts(s, origins, ns, key, ttl, t)
      ensures id in LiveCopies(s, store, origins, ns, key, ttl, t)
    {
      CopyExists(store, id);
      var i :| 0 <= i < |store| && store[i].put == id;
      assert Stamped(s, store[i], delay);
    }
  }

  // A live copy is of a put that would be live had it been put `delay` seconds later.
  lemma LiveCopiesArePut(s: State, store: seq<Copy>, origins: set<Server>, ns: Bytes, key: Bytes, ttl: int, t: int,
                         delay: nat)
    requires AllStamped(s, store, delay)
    ensures LiveCopies(s, store, origins, ns, key, ttl, t) <= LivePuts(s, origins, ns, key, ttl + delay, t)
  {
    forall id | id in LiveCopies(s, store, origins, ns, key, ttl, t)
      ensures id in LivePuts(s, origins, ns, key, ttl + delay, t)
    {
      var i :| 0 <= i < |store| && store[i].put == id && store[i].at + ttl > t;
      assert Stamped(s, store[i], delay);
    }
  }

  // Main result. With a common clock and every 'R' delivered within `delay` seconds, once
  // nothing is in flight and nothing was lost, every server's count at `t` of the puts
  // accepted at `origins` is at least the number of them live at `t`, and at most the
  // number that would be live had each been put `delay` seconds later.
  lemma DriftIsBounded(c: Config, states: seq<State>, steps: seq<Step>, now: int, n: nat, delay: nat,
                       d: Server, origins: set<Server>, ns: Bytes, key: Bytes, ttl: int, t: int)
    requires SharedKey(c) && ListedOnce(c) && Behaviour(c, states, steps, now) && n < |states|
    requires OnTime(states, steps, delay) && d in c.peers
    requires states[n].net == multiset{} && states[n].lost == multiset{}
    ensures d in states[n].stores
    ensures |LivePuts(states[n], origins, ns, key, ttl, t)|
         <= CountAt(states[n], states[n].stores[d], origins, ns, key, ttl, t)
         <= |LivePuts(states[n], origins, ns, key, ttl + delay, t)|
  {
    var s := states[n];
    ConservedHolds(c, states, steps, now, n);
    CopiesAreStamped(c, states, steps, now, n, delay, d);
    AllAgreeWhenQuiet(c, states, steps, now, n);
    var store := s.stores[d];
    forall id
      ensures CopiesOf(store, id) <= 1
    {
      if id !in s.puts {
        NoCopies(store, id);
      }
    }
    CountAtIsCard(s, store, origins, ns, key, ttl, t);
    hide CopiesOf, Behaviour, Genuine, Conserved, AllStamped;
    LivePutsAreCopied(s, store, origins, ns, key, ttl, t, delay);
    LiveCopiesArePut(s, store, origins, ns, key, ttl, t, delay);
    SubsetSize(LivePuts(s, origins, ns, key, ttl, t), LiveCopies(s, store, origins, ns, key, ttl, t));
    SubsetSize(LiveCopies(s, store, origins, ns, key, ttl, t), LivePuts(s, origins, ns, key, ttl + delay, t));
  }

  // ---- What a store answers ----

  // The put log of a server's own copies.
  function CopiesLog(s: State, store: seq<Copy>): seq<PutLog.Entry> {
    if store == [] then []
    else
      var last := store[|store| - 1];
      CopiesLog(s, store[..|store| - 1])
      + if last.put in s.puts then [PutLog.Entry(s.puts[last.put].ns, s.puts[last.put].key, last.at)] else []
  }

  // Counting the copies of puts from everywhere is counting in that log.
  lemma {:induction false} CountAtIsLogCount(s: State, store: seq<Copy>, origins: set<Server>, ns: Bytes, key: Bytes,
                                             ttl: int, t: int)
    requires forall id | id in s.puts :: s.puts[id].origin in origins
    ensures CountAt(s, store, origins, ns, key, ttl, t) == PutLog.Count(CopiesLog(s, store), ns, key, ttl, t)
  {
    if store != [] {
      var front, last := store[..|store| - 1], store[|store| - 1];
      CountAtIsLogCount(s, front, origins, ns, key, ttl, t);
      var before := CopiesLog(s, front);
      if last.put in s.puts {
        var e := PutLog.Entry(s.puts[last.put].ns, s.puts[last.put].key, last.at);
        assert CopiesLog(s, store) == before + [e];
        assert (before + [e])[..|before|] == before;
      } else {
        assert CopiesLog(s, store) == before;
      }
    }
  }

  // Main result. Under the same conditions, what a server's own put log counts, and so what
  // its store answers, lies between the puts live at `t` wherever they were accepted and
  // those that would be live had each been put `delay` seconds later.
  lemma AnswersDriftLittle(c: Config, states: seq<State>, steps: seq<Step>, now: int, n: nat, delay: nat,
                           d: Server, ns: Bytes, key: Bytes, ttl: int, t: int)
    requires SharedKey(c) && ListedOnce(c) && Behaviour(c, states, steps, now) && n < |states|
    requires OnTime(states, steps, delay) && d in c.peers
    requires states[n].net == multiset{} && states[n].lost == multiset{}
    ensures d in states[n].stores
    ensures |LivePuts(states[n], c.peers.Keys, ns, key, ttl, t)|
         <= PutLog.Count(CopiesLog(states[n], states[n].stores[d]), ns, key, ttl, t)
         <= |LivePuts(states[n], c.peers.Keys, ns, key, ttl + delay, t)|
  {
    ConservedHolds(c, states, steps, now, n);
    DriftIsBounded(c, states, steps, now, n, delay, d, c.peers.Keys, ns, key, ttl, t);
    CountAtIsLogCount(states[n], states[n].stores[d], c.peers.Keys, ns, key, ttl, t);
  }

  // ---- What each step stores ----

  // Every copy is of an accepted put, whatever the keys.
  ghost predicate CopiesKnown(s: State) {
    forall d | d in s.stores :: GenuineStore(s, s.stores[d])
  }

  lemma CountSnoc(log: seq<PutLog.Entry>, e: PutLog.Entry, ns: Bytes, key: Bytes, ttl: int, t: int)
    ensures PutLog.Count(log + [e], ns, key, ttl, t)
         == PutLog.Count(log, ns, key, ttl, t) + PutLog.One(e.ns == ns && e.key == key && e.stamp + ttl > t)
  {
    assert (log + [e])[..|log|] == log;
  }

  lemma {:induction false} CopiesLogFrame(s: State, s': State, store: seq<Copy>)
    requires GenuineStore(s, store) && forall p | p in s.puts :: p in s'.puts && s'.puts[p] == s.puts[p]
    ensures GenuineStore(s', store) && CopiesLog(s', store) == CopiesLog(s, store)
  {
    if store != [] {
      var front := store[..|store| - 1];
      assert forall i | 0 <= i < |front| :: front[i] == store[i];
      CopiesLogFrame(s, s', front);
      assert store[|store| - 1].put in s.puts;
    }
  }

  lemma CopiesLogSnoc(s: State, store: seq<Copy>, copy: Copy)
    requires copy.put in s.puts
    ensures CopiesLog(s, store + [copy])
         == CopiesLog(s, store) + [PutLog.Entry(s.puts[copy.put].ns, s.puts[copy.put].key, copy.at)]
  {
    assert (store + [copy])[..|store|] == store;
  }

  // A server that accepts a replica logs its namespace and key with its own clock's reading
  // on delivery; no other server's log changes.
  lemma DeliveryIsStamped(c: Config, s: State, m: Message, d: Server)
    requires Enabled(c, s, Deliver(m)) && CopiesKnown(s) && d in s.stores
    ensures var s' := Next(c, s, Deliver(m));
            && d in s'.stores && CopiesKnown(s')
            && CopiesLog(s', s'.stores[d]) ==
               if m.R? && Accepts(c, s, m) && d == m.to
               then CopiesLog(s, s.stores[d]) + [PutLog.Entry(s.puts[m.put].ns, s.puts[m.put].key, s.now)]
               else CopiesLog(s, s.stores[d])
  {
    var s' := Next(c, s, Deliver(m));
    assert s'.puts == s.puts;
    assert GenuineStore(s, s.stores[d]);
    CopiesLogFrame(s, s', s.stores[d]);
    if m.R? && Accepts(c, s, m) {
      CopiesLogSnoc(s', s.stores[m.to], Copy(m.put, s.now));
      DeliveredIsKnown(c, s, m);
    }
  }

  lemma DeliveredIsKnown(c: Config, s: State, m: Message)
    requires Enabled(c, s, Deliver(m)) && CopiesKnown(s) && m.R? && Accepts(c, s, m)
    ensures CopiesKnown(Next(c, s, Deliver(m)))
  {
    var s' := Next(c, s, Deliver(m));
    assert s'.puts == s.puts && m.put in s.puts;
    forall d | d in s'.stores
      ensures GenuineStore(s', s'.stores[d])
    {
      assert GenuineStore(s, s.stores[d]);
    }
  }

  // The server a client put reaches logs it with its own clock's reading.
  lemma ClientPutIsStamped(c: Config, s: State, id: PutId, origin: Server, ns: Bytes, key: Bytes, written: nat,
                           d: Server)
    requires Enabled(c, s, ClientPut(id, origin, ns, key, written)) && CopiesKnown(s) && d in s.stores
    ensures var s' := AfterPut(c, s, id, origin, ns, key, written);
            && d in s'.stores && CopiesKnown(s')
            && CopiesLog(s', s'.stores[d]) ==
               if d == origin then CopiesLog(s, s.stores[d]) + [PutLog.Entry(ns, key, s.now)]
               else CopiesLog(s, s.stores[d])
  {
    var s' := AfterPut(c, s, id, origin, ns, key, written);
    hide Fanout;
    assert GenuineStore(s, s.stores[d]);
    CopiesLogFrame(s, s', s.stores[d]);
    CopiesLogSnoc(s', s.stores[d], Copy(id, s.now));
    forall e | e in s'.stores
      ensures GenuineStore(s', s'.stores[e])
    {
      assert GenuineStore(s, s.stores[e]);
    }
  }

  // Does this step store a put to (ns, key) at `d`: a client's, or an accepted replica?
  ghost predicate StoresAt(c: Config, s: State, step: Step, d: Server, ns: Bytes, key: Bytes) {
    match step
    case ClientPut(_, origin, n, k, _) => origin == d && n == ns && k == key
    case Deliver(m) => m.R? && m.to == d && Accepts(c, s, m) && s.puts[m.put].ns == ns && s.puts[m.put].key == key
    case _ => false
  }

  lemma StepStores(c: Config, s: State, step: Step, d: Server, ns: Bytes, key: Bytes, ttl: int, t: int)
    requires Enabled(c, s, step) && CopiesKnown(s) && d in s.stores
    ensures var s' := Next(c, s, step);
            && d in s'.stores && CopiesKnown(s')
            && PutLog.Count(CopiesLog(s', s'.stores[d]), ns, key, ttl, t)
            == PutLog.Count(CopiesLog(s, s.stores[d]), ns, key, ttl, t)
               + PutLog.One(StoresAt(c, s, step, d, ns, key) && s.now + ttl > t)
  {
    var log := CopiesLog(s, s.stores[d]);
    match step
    case ClientPut(id, origin, n, k, written) =>
      ClientPutIsStamped(c, s, id, origin, n, k, written, d);
      CountSnoc(log, PutLog.Entry(n, k, s.now), ns, key, ttl, t);
      hide CopiesLog, CopiesKnown, PutLog.Count, AfterPut;
    case Deliver(m) =>
      DeliveryIsStamped(c, s, m, d);
      if m.R? && Accepts(c, s, m) {
        CountSnoc(log, PutLog.Entry(s.puts[m.put].ns, s.puts[m.put].key, s.now), ns, key, ttl, t);
      }
      hide CopiesLog, CopiesKnown, PutLog.Count;
    case _ =>
      var s' := Next(c, s, step);
      assert s'.puts == s.puts && s'.stores == s.stores;
      assert forall e | e in s.stores :: GenuineStore(s, s.stores[e]);
      CopiesLogFrame(s, s', s.stores[d]);
  }

  // How many of the first n steps stored a put to (ns, key) at `d` that is live at `t`, by
  // the clock at the step.
  ghost function StoredBy(c: Config, states: seq<State>, steps: seq<Step>, n: nat, d: Server, ns: Bytes, key: Bytes,
                          ttl: int, t: int): nat
    requires n <= |steps| && n <= |states|
  {
    if n == 0 then 0
    else
      StoredBy(c, states, steps, n - 1, d, ns, key, ttl, t)
      + PutLog.One(StoresAt(c, states[n - 1], steps[n - 1], d, ns, key) && states[n - 1].now + ttl > t)
  }

  // Main result. In every run, whatever the keys, a server's count at `t` is exact: the
  // number of client puts it accepted and replicas delivered to it that are live at `t`,
  // each by the time it was accepted or delivered there.
  lemma {:induction false} ReplicaCountIsExact(c: Config, states: seq<State>, steps: seq<Step>, now: int, n: nat,
                                               d: Server, ns: Bytes, key: Bytes, ttl: int, t: int)
    requires Behaviour(c, states, steps, now) && n < |states| && d in c.peers
    ensures d in states[n].stores && CopiesKnown(states[n])
    ensures PutLog.Count(CopiesLog(states[n], states[n].stores[d]), ns, key, ttl, t)
         == StoredBy(c, states, steps, n, d, ns, key, ttl, t)
  {
    if n > 0 {
      assert Enabled(c, states[n - 1], steps[n - 1]) && states[n] == Next(c, states[n - 1], steps[n - 1]);
      hide CopiesKnown, CopiesLog, PutLog.Count, StoresAt, Next, Enabled;
      ReplicaCountIsExact(c, states, steps, now, n - 1, d, ns, key, ttl, t);
      StepStores(c, states[n - 1], steps[n - 1], d, ns, key, ttl, t);
    }
  }
}

// client/waitingmessage/waitingmessage.go: the table of callbacks that wait for replies.
//
// A callback is a number standing for a Go closure. Every successful Add is given a
// ticket. History: `added` is the callback each ticket was given out for, and `fates`
// what became of it; no answer and no other field depends on them. `sent` is what the
// channel TimedOutMessages has carried.

module WaitingMessage {
  import opened ByteStrings
  import opened Wrappers
  import opened WallClock
  import opened Protocol
  import PutLog

  type Callback = nat

  datatype Fate =
    | Pending
    | HandedOut        // returned by Pull
    | TimedOut         // sent on TimedOutMessages
    | DroppedExpired   // Pull found it expired
    | DroppedDisposed  // a cleanup removed it after the table was disposed

  datatype Entry = Entry(callback: Callback, createdSecs: int, ticket: nat)

  // One callback on the channel, with the ticket of the Add it came from.
  datatype Sent = Sent(ticket: nat, callback: Callback)

  datatype State = State(
    cache: map<Uint32, Entry>,
    disposed: bool,
    timeoutSecs: int,
    added: seq<Callback>,
    fates: seq<Fate>,
    sent: seq<Sent>)

  function NewTable(timeoutSecs: int): State {
    State(map[], false, timeoutSecs, [], [], [])
  }

  datatype AddResult = Added | MessageIdExists

  datatype PullResult = Found(callback: Callback) | NoMessage | MessageExpired

  predicate Expired(e: Entry, now: int, timeoutSecs: int) {
    e.createdSecs < now - timeoutSecs
  }

  function AfterAdd(s: State, id: Uint32, cb: Callback, now: int): (State, AddResult) {
    if id in s.cache then (s, MessageIdExists)
    else
      (s.(cache := s.cache[id := Entry(cb, now, |s.fates|)], added := s.added + [cb], fates := s.fates + [Pending]),
       Added)
  }

  function SetFate(fates: seq<Fate>, ticket: nat, fate: Fate): (after: seq<Fate>)
    ensures |after| == |fates|
  {
    if ticket < |fates| then fates[ticket := fate] else fates
  }

  function AfterPull(s: State, id: Uint32, now: int): (State, PullResult) {
    if id !in s.cache then (s, NoMessage)
    else
      var e := s.cache[id];
      var expired := Expired(e, now, s.timeoutSecs);
      (s.(cache := s.cache - {id}, fates := SetFate(s.fates, e.ticket, if expired then DroppedExpired else HandedOut)),
       if expired then MessageExpired else Found(e.callback))
  }

  function AfterDispose(s: State): State {
    s.(disposed := true)
  }

  // A cleanup takes one entry out: sent on the channel, or dropped if the table has been
  // disposed by then.
  function TakenOut(s: State, id: Uint32, send: bool): State {
    if id !in s.cache then s
    else
      var e := s.cache[id];
      if send then
        s.(cache := s.cache - {id}, fates := SetFate(s.fates, e.ticket, TimedOut),
           sent := s.sent + [Sent(e.ticket, e.callback)])
      else
        s.(cache := s.cache - {id}, fates := SetFate(s.fates, e.ticket, DroppedDisposed), disposed := true)
  }

  // A cleanup takes `ids` out in order; a concurrent Dispose lands after the first
  // `sends` of them.
  function AllTakenOut(s: State, ids: seq<Uint32>, sends: nat): State {
    if ids == [] then s
    else
      var last := |ids| - 1;
      TakenOut(AllTakenOut(s, ids[..last], sends), ids[last], last < sends)
  }

  // The visited entries that have timed out, in visiting order.
  function ExpiredAmong(s: State, visited: seq<Uint32>, now: int): seq<Uint32> {
    if visited == [] then []
    else
      var last := visited[|visited| - 1];
      ExpiredAmong(s, visited[..|visited| - 1], now)
      + (if last in s.cache && Expired(s.cache[last], now, s.timeoutSecs) then [last] else [])
  }

  // How many entries one pass looks at. The source calls the third a quarter.
  function CrawlSize(n: nat): nat {
    Min(n, n / 3 + 1)
  }

  // One cleanup pass over a table that is not disposed when it starts.
  function AfterPass(s: State, visited: seq<Uint32>, now: int, sends: nat): State {
    AllTakenOut(s, ExpiredAmong(s, visited, now), sends)
  }

  ghost predicate PassOf(s: State, visited: seq<Uint32>, sends: nat, now: int) {
    && Distinct(visited) && (forall id | id in visited :: id in s.cache)
    && |visited| == CrawlSize(|s.cache|)
    && sends <= |ExpiredAmong(s, visited, now)|
  }

  class ResponseCache {
    var cache: map<Uint32, Entry>
    var disposed: bool
    const timeoutSecs: int
    var sent: seq<Sent>
    var nextTicket: nat
    // history
    ghost var added: seq<Callback>
    ghost var fates: seq<Fate>

    ghost function View(): State
      reads this
    {
      State(cache, disposed, timeoutSecs, added, fates, sent)
    }

    ghost predicate Valid()
      reads this
    {
      nextTicket == |fates|
    }

    constructor (timeoutSecs: int)
      ensures Valid() && View() == NewTable(timeoutSecs)
    {
      this.timeoutSecs := timeoutSecs;
      cache, disposed, sent, nextTicket := map[], false, [], 0;
      added, fates := [], [];
    }

    method Len() returns (n: nat)
      ensures n == |cache|
    {
      n := |cache|;
    }

    method Add(id: Uint32, cb: Callback, clock: Clock) returns (result: AddResult)
      requires Valid()
      modifies this, clock
      ensures Valid()
      ensures old(clock.now) <= clock.now
      ensures (View(), result) == AfterAdd(old(View()), id, cb, clock.now)
    {
      if id in cache {
        return MessageIdExists;
      }
      var now := clock.Now();
      cache := cache[id := Entry(cb, now, nextTicket)];
      nextTicket := nextTicket + 1;
      added, fates := added + [cb], fates + [Pending];
      result := Added;
    }

    method Pull(id: Uint32, clock: Clock) returns (result: PullResult)
      requires Valid()
      modifies this, clock
      ensures Valid()
      ensures old(clock.now) <= clock.now
      ensures (View(), result) == AfterPull(old(View()), id, clock.now)
    {
      if id !in cache {
        return NoMessage;
      }
      var message := cache[id];
      cache := cache - {id};
      var now := clock.Now();
      var isExpired := message.createdSecs < now - timeoutSecs;
      fates := SetFate(fates, message.ticket, if isExpired then DroppedExpired else HandedOut);
      if isExpired {
        return MessageExpired;
      }
      result := Found(message.callback);
    }

    method Dispose()
      requires Valid()
      modifies this
      ensures Valid()
      ensures View() == AfterDispose(old(View()))
    {
      disposed := true;
    }

    // The counting loop over the map, in whatever order, broken off after a third.
    method Crawl(now: int) returns (remove: seq<Uint32>, ghost visited: seq<Uint32>)
      ensures remove == ExpiredAmong(View(), visited, now)
      ensures Distinct(visited) && (forall id | id in visited :: id in cache) && |visited| == CrawlSize(|cache|)
    {
      var oneQuarter := |cache| / 3;
      var i := 0;
      var rest := cache.Keys;
      remove, visited := [], [];
      while rest != {}
        invariant i == |visited| && |rest| == |cache| - i && i <= oneQuarter && rest <= cache.Keys
        invariant Distinct(visited) && forall id :: id in visited <==> id in cache && id !in rest
        invariant remove == ExpiredAmong(View(), visited, now)
        decreases rest
      {
        var id :| id in rest;
        i := i + 1;
        ghost var before := visited;
        visited := visited + [id];
        assert visited[..|before|] == before;
        rest := rest - {id};
        if cache[id].createdSecs < now - timeoutSecs {
          remove := remove + [id];
        }
        if i > oneQuarter {
          break;
        }
      }
    }

    // Removes one timed-out entry. Dispose takes no lock, so it may land here.
    method TakeOut(id: Uint32) returns (ghost send: bool)
      requires Valid() && id in cache
      modifies this
      ensures Valid()
      ensures View() == TakenOut(old(View()), id, send)
      ensures if send then !disposed else disposed
      ensures old(disposed) ==> disposed
    {
      var cb := cache[id].callback;
      var ticket := cache[id].ticket;
      cache := cache - {id};
      if * {
        disposed := true;
      }
      send := !disposed;
      if !disposed {
        sent := sent + [Sent(ticket, cb)];
        fates := SetFate(fates, ticket, TimedOut);
      } else {
        fates := SetFate(fates, ticket, DroppedDisposed);
      }
    }

    method TakeAllOut(ids: seq<Uint32>) returns (ghost sends: nat)
      requires Valid() && !disposed && Distinct(ids) && forall id | id in ids :: id in cache
      modifies this
      ensures Valid()
      ensures sends <= |ids| && View() == AllTakenOut(old(View()), ids, sends)
    {
      ghost var start := View();
      sends := 0;
      for i := 0 to |ids|
        invariant Valid() && sends <= i && (!disposed ==> sends == i)
        invariant View() == AllTakenOut(start, ids[..i], sends)
        invariant forall j | i <= j < |ids| :: ids[j] in cache
      {
        PrefixSnoc(ids, i);
        ghost var before := View();
        ghost var send := TakeOut(ids[i]);
        if send {
          SendsBeyond(start, ids[..i], sends, sends + 1);
          sends := sends + 1;
        }
        assert AllTakenOut(start, ids[..i + 1], sends) == TakenOut(before, ids[i], i < sends);
      }
      assert ids[..|ids|] == ids;
    }

    // `checkCleanup`.
    method CheckCleanup(clock: Clock) returns (ghost visited: seq<Uint32>, ghost sends: nat)
      requires Valid()
      modifies this, clock
      ensures Valid()
      ensures old(clock.now) <= clock.now
      ensures old(disposed) ==> View() == old(View())
      ensures !old(disposed) ==>
                && PassOf(old(View()), visited, sends, clock.now)
                && View() == AfterPass(old(View()), visited, clock.now, sends)
    {
      visited, sends := [], 0;
      if disposed {
        return;
      }
      var now := clock.Now();
      var removeTheseKeys;
      removeTheseKeys, visited := Crawl(now);
      ExpiredAreThere(View(), visited, now);
      sends := TakeAllOut(removeTheseKeys);
    }
  }

  // Taking entries out leaves the others as they are.
  lemma {:induction false} TakenOutIsSmaller(s: State, ids: seq<Uint32>, sends: nat)
    ensures |AllTakenOut(s, ids, sends).fates| == |s.fates|
    ensures forall id | id in AllTakenOut(s, ids, sends).cache ::
              id in s.cache && AllTakenOut(s, ids, sends).cache[id] == s.cache[id]
  {
    if ids != [] {
      TakenOutIsSmaller(s, ids[..|ids| - 1], sends);
    }
  }

  lemma {:induction false} SendsBeyond(s: State, ids: seq<Uint32>, a: nat, b: nat)
    requires |ids| <= a && |ids| <= b
    ensures AllTakenOut(s, ids, a) == AllTakenOut(s, ids, b)
  {
    if ids != [] {
      SendsBeyond(s, ids[..|ids| - 1], a, b);
    }
  }

  lemma {:induction false} ExpiredAreThere(s: State, visited: seq<Uint32>, now: int)
    requires Distinct(visited)
    ensures Distinct(ExpiredAmong(s, visited, now))
    ensures forall id :: id in ExpiredAmong(s, visited, now) <==>
              id in visited && id in s.cache && Expired(s.cache[id], now, s.timeoutSecs)
    ensures |ExpiredAmong(s, visited, now)| <= |visited|
  {
    if visited != [] {
      var front := visited[..|visited| - 1];
      ExpiredAreThere(s, front, now);
      assert visited == front + [visited[|visited| - 1]];
    }
  }

  // ---- The ledger ----

  // The entries in the table are exactly the pending tickets, each once, and each with
  // the callback its ticket was given out for.
  ghost predicate TicketsOk(s: State) {
    && |s.added| == |s.fates|
    && (forall id | id in s.cache :: EntryOk(s, s.cache[id]))
    && (forall a, b | a in s.cache && b in s.cache && a != b :: s.cache[a].ticket != s.cache[b].ticket)
    && (forall t | 0 <= t < |s.fates| && s.fates[t] == Pending :: Holds(s, t))
  }

  ghost predicate EntryOk(s: State, e: Entry)
    requires |s.added| == |s.fates|
  {
    e.ticket < |s.fates| && s.fates[e.ticket] == Pending && s.added[e.ticket] == e.callback
  }

  ghost predicate Holds(s: State, t: nat) {
    exists id :: id in s.cache && s.cache[id].ticket == t
  }

  // How often the channel has carried the callback of ticket `t`.
  function SendsOf(sent: seq<Sent>, t: nat): nat {
    if sent == [] then 0 else SendsOf(sent[..|sent| - 1], t) + PutLog.One(sent[|sent| - 1].ticket == t)
  }

  // The channel has carried each timed-out ticket once and no other ticket, and every
  // time with the callback the ticket was given out for.
  ghost predicate ChannelOk(s: State) {
    && (forall t: nat :: SendsOf(s.sent, t) == PutLog.One(FateOf(s, t) == TimedOut))
    && (forall i | 0 <= i < |s.sent| :: SentOk(s, s.sent[i]))
  }

  ghost predicate SentOk(s: State, m: Sent) {
    m.ticket < |s.added| && m.callback == s.added[m.ticket]
  }

  ghost predicate LedgerOk(s: State) {
    TicketsOk(s) && ChannelOk(s)
  }

  // One call, atomic under the table's lock; a Dispose may also land inside a pass.
  datatype Op =
    | Add(id: Uint32, cb: Callback, now: int)
    | Pull(id: Uint32, now: int)
    | Pass(visited: seq<Uint32>, now: int, sends: nat)
    | Dispose

  ghost predicate CanRun(s: State, op: Op) {
    op.Pass? && !s.disposed ==> PassOf(s, op.visited, op.sends, op.now)
  }

  function After(s: State, op: Op): State {
    match op
    case Add(id, cb, now) => AfterAdd(s, id, cb, now).0
    case Pull(id, now) => AfterPull(s, id, now).0
    case Pass(visited, now, sends) => if s.disposed then s else AfterPass(s, visited, now, sends)
    case Dispose => AfterDispose(s)
  }

  // Tickets are only added, keep their callback, and a settled fate never changes.
  ghost predicate OnlySettles(s: State, s': State) {
    && |s.fates| <= |s'.fates| && |s.added| <= |s'.added| && |s.sent| <= |s'.sent|
    && (forall t | 0 <= t < |s.fates| && s.fates[t] != Pending :: s'.fates[t] == s.fates[t])
    && (forall t | 0 <= t < |s.added| :: s'.added[t] == s.added[t])
    && (forall i | 0 <= i < |s.sent| :: s'.sent[i] == s.sent[i])
  }

  lemma {:induction false} OnlySettlesChains(s: State, mid: State, s': State)
    requires OnlySettles(s, mid) && OnlySettles(mid, s')
    ensures OnlySettles(s, s')
  {
  }

  lemma SendsOfSnoc(sent: seq<Sent>, m: Sent, t: nat)
    ensures SendsOf(sent + [m], t) == SendsOf(sent, t) + PutLog.One(m.ticket == t)
  {
    assert (sent + [m])[..|sent|] == sent;
  }

  // An entry taken out of the table, with its ticket settled.
  function Settled(s: State, id: Uint32, fate: Fate): State
    requires id in s.cache
  {
    s.(cache := s.cache - {id}, fates := SetFate(s.fates, s.cache[id].ticket, fate))
  }

  lemma SettledKeepsTickets(s: State, id: Uint32, fate: Fate)
    requires TicketsOk(s) && id in s.cache && fate != Pending
    ensures TicketsOk(Settled(s, id, fate)) && OnlySettles(s, Settled(s, id, fate))
  {
    var s' := Settled(s, id, fate);
    forall i | i in s'.cache
      ensures EntryOk(s', s'.cache[i])
    {
      assert EntryOk(s, s.cache[i]) && EntryOk(s, s.cache[id]);
    }
    forall t | 0 <= t < |s'.fates| && s'.fates[t] == Pending
      ensures Holds(s', t)
    {
      assert EntryOk(s, s.cache[id]) && Holds(s, t);
      var i :| i in s.cache && s.cache[i].ticket == t;
      assert i in s'.cache;
    }
  }

  // A pull settles a ticket without a send.
  lemma PullKeepsLedger(s: State, id: Uint32, now: int)
    requires LedgerOk(s)
    ensures LedgerOk(AfterPull(s, id, now).0) && OnlySettles(s, AfterPull(s, id, now).0)
  {
    if id in s.cache {
      var fate := if Expired(s.cache[id], now, s.timeoutSecs) then DroppedExpired else HandedOut;
      var s' := Settled(s, id, fate);
      assert AfterPull(s, id, now).0 == s';
      SettledKeepsTickets(s, id, fate);
      assert EntryOk(s, s.cache[id]);
      assert forall t: nat :: PutLog.One(FateOf(s', t) == TimedOut) == PutLog.One(FateOf(s, t) == TimedOut);
      assert forall i | 0 <= i < |s.sent| :: SentOk(s, s.sent[i]);
    }
  }

  // A ticket that a cleanup settles is sent at that moment, or never.
  lemma TakenOutKeepsChannel(s: State, id: Uint32, send: bool)
    requires LedgerOk(s) && id in s.cache
    ensures ChannelOk(TakenOut(s, id, send))
  {
    var s', e := TakenOut(s, id, send), s.cache[id];
    assert EntryOk(s, e);
    forall t: nat
      ensures SendsOf(s'.sent, t) == PutLog.One(FateOf(s', t) == TimedOut)
    {
      assert SendsOf(s.sent, t) == PutLog.One(FateOf(s, t) == TimedOut);
      SendsOfSnoc(s.sent, Sent(e.ticket, e.callback), t);
    }
    forall i | 0 <= i < |s'.sent|
      ensures SentOk(s', s'.sent[i])
    {
      if i < |s.sent| {
        assert SentOk(s, s.sent[i]);
      }
    }
  }

  lemma TicketsFrame(s: State, s': State)
    requires TicketsOk(s) && s'.cache == s.cache && s'.added == s.added && s'.fates == s.fates
    ensures TicketsOk(s')
  {
    forall i | i in s'.cache
      ensures EntryOk(s', s'.cache[i])
    {
      assert EntryOk(s, s.cache[i]);
    }
    forall t | 0 <= t < |s'.fates| && s'.fates[t] == Pending
      ensures Holds(s', t)
    {
      assert Holds(s, t);
      var i :| i in s.cache && s.cache[i].ticket == t;
      assert i in s'.cache;
    }
  }

  lemma TakenOutKeepsLedger(s: State, id: Uint32, send: bool)
    requires LedgerOk(s)
    ensures LedgerOk(TakenOut(s, id, send)) && OnlySettles(s, TakenOut(s, id, send))
  {
    if id in s.cache {
      var fate := if send then TimedOut else DroppedDisposed;
      SettledKeepsTickets(s, id, fate);
      TicketsFrame(Settled(s, id, fate), TakenOut(s, id, send));
      TakenOutKeepsChannel(s, id, send);
    }
  }

  lemma {:induction false} AllTakenOutKeepsLedger(s: State, ids: seq<Uint32>, sends: nat)
    requires LedgerOk(s)
    ensures LedgerOk(AllTakenOut(s, ids, sends)) && OnlySettles(s, AllTakenOut(s, ids, sends))
  {
    if ids != [] {
      var last := |ids| - 1;
      var before := AllTakenOut(s, ids[..last], sends);
      AllTakenOutKeepsLedger(s, ids[..last], sends);
      TakenOutKeepsLedger(before, ids[last], last < sends);
      OnlySettlesChains(s, before, AllTakenOut(s, ids, sends));
    }
  }

  lemma AddKeepsLedger(s: State, id: Uint32, cb: Callback, now: int)
    requires LedgerOk(s)
    ensures LedgerOk(AfterAdd(s, id, cb, now).0) && OnlySettles(s, AfterAdd(s, id, cb, now).0)
  {
    if id !in s.cache {
      var s' := AfterAdd(s, id, cb, now).0;
      forall i | i in s'.cache
        ensures EntryOk(s', s'.cache[i])
      {
        assert i != id ==> EntryOk(s, s.cache[i]);
      }
      forall a, b | a in s'.cache && b in s'.cache && a != b
        ensures s'.cache[a].ticket != s'.cache[b].ticket
      {
        assert a != id ==> EntryOk(s, s.cache[a]);
        assert b != id ==> EntryOk(s, s.cache[b]);
      }
      AddHolds(s, id, cb, now);
      assert forall t: nat :: FateOf(s', t) == FateOf(s, t);
      forall i | 0 <= i < |s'.sent|
        ensures SentOk(s', s'.sent[i])
      {
        assert SentOk(s, s.sent[i]);
      }
    }
  }

  lemma AddHolds(s: State, id: Uint32, cb: Callback, now: int)
    requires TicketsOk(s) && id !in s.cache
    ensures var s' := AfterAdd(s, id, cb, now).0;
            forall t | 0 <= t < |s'.fates| && s'.fates[t] == Pending :: Holds(s', t)
  {
    var s' := AfterAdd(s, id, cb, now).0;
    forall t | 0 <= t < |s'.fates| && s'.fates[t] == Pending
      ensures Holds(s', t)
    {
      if t < |s.fates| {
        assert Holds(s, t);
        var i :| i in s.cache && s.cache[i].ticket == t;
        assert i in s'.cache && s'.cache[i] == s.cache[i];
      } else {
        assert id in s'.cache;
      }
    }
  }

  lemma DisposeKeepsLedger(s: State)
    requires LedgerOk(s)
    ensures LedgerOk(AfterDispose(s)) && OnlySettles(s, AfterDispose(s))
  {
    TicketsFrame(s, AfterDispose(s));
    assert forall t: nat :: FateOf(AfterDispose(s), t) == FateOf(s, t);
    assert forall i | 0 <= i < |s.sent| :: SentOk(s, s.sent[i]);
  }

  lemma StepKeepsLedger(s: State, op: Op)
    requires LedgerOk(s) && CanRun(s, op)
    ensures LedgerOk(After(s, op)) && OnlySettles(s, After(s, op))
  {
    hide LedgerOk;
    match op
    case Add(id, cb, now) => AddKeepsLedger(s, id, cb, now);
    case Pull(id, now) => PullKeepsLedger(s, id, now);
    case Pass(visited, now, sends) => AllTakenOutKeepsLedger(s, ExpiredAmong(s, visited, now), sends);
    case Dispose => DisposeKeepsLedger(s);
  }

  ghost predicate Run(s: State, ops: seq<Op>)
    decreases |ops|
  {
    ops == [] || (CanRun(s, ops[0]) && Run(After(s, ops[0]), ops[1..]))
  }

  function Final(s: State, ops: seq<Op>): State
    decreases |ops|
  {
    if ops == [] then s else Final(After(s, ops[0]), ops[1..])
  }

  // Does this call hand the callback of ticket `t` out?
  function HandsOut(s: State, op: Op, t: nat): nat {
    if op.Pull? && op.id in s.cache && s.cache[op.id].ticket == t && AfterPull(s, op.id, op.now).1.Found? then 1 else 0
  }

  function HandOuts(s: State, ops: seq<Op>, t: nat): nat
    decreases |ops|
  {
    if ops == [] then 0 else HandsOut(s, ops[0], t) + HandOuts(After(s, ops[0]), ops[1..], t)
  }

  function FateOf(s: State, t: nat): Fate {
    if t < |s.fates| then s.fates[t] else Pending
  }

  lemma {:induction false} PassHandsNothingOut(s: State, ids: seq<Uint32>, sends: nat)
    ensures |AllTakenOut(s, ids, sends).fates| == |s.fates|
    ensures forall t | 0 <= t < |s.fates| ::
              AllTakenOut(s, ids, sends).fates[t] == HandedOut ==> s.fates[t] == HandedOut
  {
    if ids != [] {
      PassHandsNothingOut(s, ids[..|ids| - 1], sends);
    }
  }

  lemma StepHandsOut(s: State, op: Op, t: nat)
    requires LedgerOk(s) && CanRun(s, op)
    ensures PutLog.One(FateOf(After(s, op), t) == HandedOut)
         == PutLog.One(FateOf(s, t) == HandedOut) + HandsOut(s, op, t)
  {
    StepKeepsLedger(s, op);
    match op
    case Pull(id, now) =>
      if id in s.cache {
        assert EntryOk(s, s.cache[id]);
      }
    case Pass(visited, now, sends) => PassHandsNothingOut(s, ExpiredAmong(s, visited, now), sends);
    case _ =>
  }

  // What Pull hands out for a ticket is the callback the ticket was given out for.
  lemma PullHandsOutWhatWasAdded(s: State, id: Uint32, now: int)
    requires LedgerOk(s)
    ensures AfterPull(s, id, now).1.Found? <==> id in s.cache && !Expired(s.cache[id], now, s.timeoutSecs)
    ensures AfterPull(s, id, now).1.Found? ==>
              && s.cache[id].ticket < |s.added|
              && AfterPull(s, id, now).1.callback == s.added[s.cache[id].ticket]
              && FateOf(AfterPull(s, id, now).0, s.cache[id].ticket) == HandedOut
  {
    if id in s.cache {
      assert EntryOk(s, s.cache[id]);
    }
  }

  // Main result. Over every run, the ledger balances: the table holds exactly the pending
  // tickets; every other ticket has one settled fate for good; the table hands a callback
  // out once if its fate is HandedOut and never otherwise, and sends it once if its fate is
  // TimedOut and never otherwise, so it gives it away at most once in all.
  lemma {:induction false} LedgerBalances(s: State, ops: seq<Op>, t: nat)
    requires LedgerOk(s) && Run(s, ops)
    ensures LedgerOk(Final(s, ops)) && OnlySettles(s, Final(s, ops))
    ensures PutLog.One(FateOf(Final(s, ops), t) == HandedOut)
         == PutLog.One(FateOf(s, t) == HandedOut) + HandOuts(s, ops, t)
    ensures SendsOf(Final(s, ops).sent, t) == PutLog.One(FateOf(Final(s, ops), t) == TimedOut)
    ensures HandOuts(s, ops, t) + SendsOf(Final(s, ops).sent, t) <= 1
    decreases |ops|
  {
    hide TicketsOk, CanRun, After;
    if ops != [] {
      var s' := After(s, ops[0]);
      StepKeepsLedger(s, ops[0]);
      StepHandsOut(s, ops[0], t);
      LedgerBalances(s', ops[1..], t);
      OnlySettlesChains(s, s', Final(s, ops));
    }
  }

  // Everything the channel has carried by the end of a run is the callback some Add gave,
  // each Add's at most once, and what it carried before is still at its front.
  lemma ChannelBalances(s: State, ops: seq<Op>, t: nat)
    requires LedgerOk(s) && Run(s, ops)
    ensures |s.sent| <= |Final(s, ops).sent| && Final(s, ops).sent[..|s.sent|] == s.sent
    ensures SendsOf(Final(s, ops).sent, t) == PutLog.One(FateOf(Final(s, ops), t) == TimedOut)
    ensures forall i | 0 <= i < |Final(s, ops).sent| :: SentOk(Final(s, ops), Final(s, ops).sent[i])
  {
    LedgerBalances(s, ops, t);
  }

  // A reply that arrives after the entry expired and before a cleanup takes it out loses
  // the callback: no later call hands it out, and the channel never carries it.
  lemma LateReplyLosesTheCallback(s: State, id: Uint32, now: int, ops: seq<Op>)
    requires LedgerOk(s) && id in s.cache && Run(AfterPull(s, id, now).0, ops)
    ensures AfterPull(s, id, now).1 == MessageExpired <==> Expired(s.cache[id], now, s.timeoutSecs)
    ensures Expired(s.cache[id], now, s.timeoutSecs) ==>
              && FateOf(Final(AfterPull(s, id, now).0, ops), s.cache[id].ticket) == DroppedExpired
              && HandOuts(AfterPull(s, id, now).0, ops, s.cache[id].ticket) == 0
              && SendsOf(Final(AfterPull(s, id, now).0, ops).sent, s.cache[id].ticket) == 0
  {
    if Expired(s.cache[id], now, s.timeoutSecs) {
      assert EntryOk(s, s.cache[id]);
      PullKeepsLedger(s, id, now);
      LedgerBalances(AfterPull(s, id, now).0, ops, s.cache[id].ticket);
    }
  }

  // ---- The failed write ----

  // Neither another request's Add nor a reply's Pull uses `id`.
  predicate Spares(op: Op, id: Uint32) {
    (op.Add? ==> op.id != id) && (op.Pull? ==> op.id != id)
  }

  predicate AllSpare(ops: seq<Op>, id: Uint32) {
    forall i | 0 <= i < |ops| :: Spares(ops[i], id)
  }

  // This pass visits the entry of `id`, finds it timed out and sends it.
  ghost predicate SendsEntry(s: State, op: Op, id: Uint32) {
    && op.Pass? && !s.disposed && id in s.cache
    && SentAmong(ExpiredAmong(s, op.visited, op.now), op.sends, id)
  }

  predicate IsVisitedAt(ids: seq<Uint32>, i: nat, id: Uint32) {
    i < |ids| && ids[i] == id
  }

  ghost predicate SentDuring(s: State, ops: seq<Op>, id: Uint32)
    decreases |ops|
  {
    ops != [] && (SendsEntry(s, ops[0], id) || SentDuring(After(s, ops[0]), ops[1..], id))
  }

  // What taking one entry out does to it,
  lemma TakenOutOwn(s: State, id: Uint32, send: bool)
    requires LedgerOk(s) && id in s.cache
    ensures id !in TakenOut(s, id, send).cache
    ensures FateOf(TakenOut(s, id, send), s.cache[id].ticket) == if send then TimedOut else DroppedDisposed
  {
    assert EntryOk(s, s.cache[id]);
  }

  // to the others,
  lemma TakenOutOther(s: State, other: Uint32, send: bool, id: Uint32)
    requires id != other
    ensures id in TakenOut(s, other, send).cache <==> id in s.cache
    ensures id in s.cache ==> TakenOut(s, other, send).cache[id] == s.cache[id]
  {
  }

  // and to a ticket that was settled before.
  lemma TakenOutSettled(s: State, other: Uint32, send: bool, t: nat)
    requires LedgerOk(s) && FateOf(s, t) != Pending
    ensures FateOf(TakenOut(s, other, send), t) == FateOf(s, t)
  {
    TakenOutKeepsLedger(s, other, send);
    hide TakenOut, LedgerOk;
  }

  // What a pass does to one entry.
  lemma {:induction false} PassOnEntry(s: State, ids: seq<Uint32>, sends: nat, id: Uint32)
    requires LedgerOk(s) && Distinct(ids) && id in s.cache
    ensures var s' := AllTakenOut(s, ids, sends);
            if id in ids then
              && id !in s'.cache
              && FateOf(s', s.cache[id].ticket) == (if SentAmong(ids, sends, id) then TimedOut else DroppedDisposed)
            else id in s'.cache && s'.cache[id] == s.cache[id]
  {
    if ids != [] {
      var last := |ids| - 1;
      var front := ids[..last];
      PassOnEntry(s, front, sends, id);
      AllTakenOutKeepsLedger(s, front, sends);
      OneMoreVisited(ids, sends, id);
      assert AllTakenOut(s, ids, sends) == TakenOut(AllTakenOut(s, front, sends), ids[last], last < sends);
      assert ids == front + [ids[last]];
      hide SentAmong, AllTakenOut, LedgerOk, TakenOut, FateOf, OnlySettles;
      PassOnEntryStep(AllTakenOut(s, front, sends), front, ids[last], last < sends, id, s.cache[id].ticket);
    }
  }

  lemma PassOnEntryStep(before: State, front: seq<Uint32>, visited: Uint32, send: bool, id: Uint32, t: nat)
    requires LedgerOk(before) && visited !in front
    requires if id in front then id !in before.cache && FateOf(before, t) != Pending
             else id in before.cache && before.cache[id].ticket == t
    ensures var s' := TakenOut(before, visited, send);
            if id in front then id !in s'.cache && FateOf(s', t) == FateOf(before, t)
            else if id == visited then id !in s'.cache && FateOf(s', t) == (if send then TimedOut else DroppedDisposed)
            else id in s'.cache && s'.cache[id] == before.cache[id]
  {
    hide LedgerOk, TakenOut, FateOf;
    if id in front {
      TakenOutSettled(before, visited, send, t);
      TakenOutOther(before, visited, send, id);
    } else if id == visited {
      TakenOutOwn(before, id, send);
    } else {
      TakenOutOther(before, visited, send, id);
    }
  }

  // Is `id` one of the first `sends` of `ids`?
  ghost predicate SentAmong(ids: seq<Uint32>, sends: nat, id: Uint32) {
    exists i | 0 <= i < sends :: IsVisitedAt(ids, i, id)
  }

  lemma OneMoreVisited(ids: seq<Uint32>, sends: nat, id: Uint32)
    requires ids != [] && Distinct(ids)
    ensures var last := |ids| - 1;
            if ids[last] == id then id !in ids[..last] && (SentAmong(ids, sends, id) <==> last < sends)
            else SentAmong(ids, sends, id) <==> SentAmong(ids[..last], sends, id)
  {
    var last := |ids| - 1;
    if ids[last] == id {
      assert IsVisitedAt(ids, last, id) && forall i: nat :: IsVisitedAt(ids, i, id) ==> i == last;
    } else {
      assert forall i: nat :: IsVisitedAt(ids, i, id) <==> IsVisitedAt(ids[..last], i, id);
    }
  }

  lemma StepOnEntry(s: State, op: Op, id: Uint32)
    requires LedgerOk(s) && CanRun(s, op) && Spares(op, id) && id in s.cache
    ensures var s' := After(s, op);
            if id in s'.cache then s'.cache[id] == s.cache[id] && !SendsEntry(s, op, id)
            else FateOf(s', s.cache[id].ticket) == (if SendsEntry(s, op, id) then TimedOut else DroppedDisposed)
  {
    if op.Pass? && !s.disposed {
      var ids := ExpiredAmong(s, op.visited, op.now);
      ExpiredAreThere(s, op.visited, op.now);
      PassOnEntry(s, ids, op.sends, id);
    }
  }

  lemma {:induction false} GoneIsNotSent(s: State, ops: seq<Op>, id: Uint32)
    requires Run(s, ops) && AllSpare(ops, id) && id !in s.cache
    ensures id !in Final(s, ops).cache && !SentDuring(s, ops, id)
    decreases |ops|
  {
    if ops != [] {
      assert Spares(ops[0], id);
      if ops[0].Pass? {
        TakenOutIsSmaller(s, ExpiredAmong(s, ops[0].visited, ops[0].now), ops[0].sends);
      }
      assert forall i | 0 <= i < |ops[1..]| :: ops[1..][i] == ops[i + 1];
      GoneIsNotSent(After(s, ops[0]), ops[1..], id);
    }
  }

  // An entry waits, and keeps its ticket, until a pass takes it out; the channel carries
  // its callback exactly if that pass sends it.
  lemma {:induction false} EntryWaits(s: State, ops: seq<Op>, id: Uint32)
    requires LedgerOk(s) && Run(s, ops) && AllSpare(ops, id) && id in s.cache
    ensures LedgerOk(Final(s, ops))
    ensures SendsOf(Final(s, ops).sent, s.cache[id].ticket) == PutLog.One(SentDuring(s, ops, id))
    ensures id in Final(s, ops).cache ==> Final(s, ops).cache[id] == s.cache[id] && !SentDuring(s, ops, id)
    decreases |ops|
  {
    var t := s.cache[id].ticket;
    assert EntryOk(s, s.cache[id]);
    LedgerBalances(s, ops, t);
    if ops != [] {
      var s', rest := After(s, ops[0]), ops[1..];
      assert Spares(ops[0], id);
      assert forall i | 0 <= i < |rest| :: rest[i] == ops[i + 1];
      StepKeepsLedger(s, ops[0]);
      StepOnEntry(s, ops[0], id);
      hide LedgerOk, After, SendsEntry, OnlySettles;
      if id in s'.cache {
        EntryWaits(s', rest, id);
      } else {
        GoneIsNotSent(s', rest, id);
        SettledStays(s', rest, t);
      }
    } else {
      assert SendsOf(s.sent, t) == PutLog.One(FateOf(s, t) == TimedOut);
    }
  }

  lemma SettledStays(s: State, ops: seq<Op>, t: nat)
    requires LedgerOk(s) && Run(s, ops) && t < |s.fates| && s.fates[t] != Pending
    ensures FateOf(Final(s, ops), t) == s.fates[t]
    ensures SendsOf(Final(s, ops).sent, t) == PutLog.One(s.fates[t] == TimedOut)
  {
    LedgerBalances(s, ops, t);
  }

  lemma {:induction false} RunSnoc(s: State, ops: seq<Op>, op: Op)
    requires Run(s, ops) && CanRun(Final(s, ops), op)
    ensures Run(s, ops + [op]) && Final(s, ops + [op]) == After(Final(s, ops), op)
    decreases |ops|
  {
    if ops == [] {
      assert ops + [op] == [op] && [op][1..] == [];
    } else {
      RunSnoc(After(s, ops[0]), ops[1..], op);
      assert (ops + [op])[1..] == ops[1..] + [op];
    }
  }

  // What the client calls after a failed write: what its own Pull gives back, or else the
  // callback it was given.
  function Recalled(pulled: PullResult, cb: Callback): Callback {
    if pulled.Found? then pulled.callback else cb
  }

  // Main result. For a request whose write fails, whatever calls of other requests, passes
  // and disposal come between its Add and its Pull, and whatever comes later: the fallback
  // calls the request's own callback, and the table gives the same callback away for a
  // second call, through the channel, exactly if a pass before the Pull sent its entry.
  lemma FailedWriteCallsTwiceIff(s: State, id: Uint32, cb: Callback, added: int, ops: seq<Op>, now: int, later: seq<Op>)
    requires LedgerOk(s) && id !in s.cache
    requires Run(AfterAdd(s, id, cb, added).0, ops) && AllSpare(ops, id)
    requires Run(AfterPull(Final(AfterAdd(s, id, cb, added).0, ops), id, now).0, later)
    ensures var start := AfterAdd(s, id, cb, added).0;
            var (s', pulled) := AfterPull(Final(start, ops), id, now);
            && Recalled(pulled, cb) == cb
            && (pulled.Found? ==> !SentDuring(start, ops, id))
            && HandOuts(s', later, |s.fates|) == 0
            && SendsOf(Final(s', later).sent, |s.fates|) == (if SentDuring(start, ops, id) then 1 else 0)
  {
    var start, t := AfterAdd(s, id, cb, added).0, |s.fates|;
    AddKeepsLedger(s, id, cb, added);
    EntryWaits(start, ops, id);
    var mid := Final(start, ops);
    LedgerBalances(start, ops, t);
    PullKeepsLedger(mid, id, now);
    var s' := AfterPull(mid, id, now).0;
    PulledIsSettled(start, ops, id, now);
    SettledStays(s', later, t);
    LedgerBalances(s', later, t);
  }

  // After the Pull the entry's ticket is settled, as a pass or the Pull itself settled it.
  lemma PulledIsSettled(start: State, ops: seq<Op>, id: Uint32, now: int)
    requires LedgerOk(start) && Run(start, ops) && AllSpare(ops, id) && id in start.cache
    ensures LedgerOk(Final(start, ops))
    ensures var s' := AfterPull(Final(start, ops), id, now).0;
            && LedgerOk(s') && start.cache[id].ticket < |s'.fates|
            && s'.fates[start.cache[id].ticket] != Pending
            && (s'.fates[start.cache[id].ticket] == TimedOut <==> SentDuring(start, ops, id))
  {
    var t, mid := start.cache[id].ticket, Final(start, ops);
    assert EntryOk(start, start.cache[id]);
    EntryWaits(start, ops, id);
    LedgerBalances(start, ops, t);
    PullKeepsLedger(mid, id, now);
    if id in mid.cache {
      assert EntryOk(mid, mid.cache[id]);
    } else {
      EntryGoneIsSettled(start, ops, id);
    }
  }

  lemma {:induction false} EntryGoneIsSettled(s: State, ops: seq<Op>, id: Uint32)
    requires LedgerOk(s) && Run(s, ops) && AllSpare(ops, id) && id in s.cache && id !in Final(s, ops).cache
    ensures LedgerOk(Final(s, ops)) && s.cache[id].ticket < |Final(s, ops).fates|
    ensures Final(s, ops).fates[s.cache[id].ticket] != Pending
    decreases |ops|
  {
    var t := s.cache[id].ticket;
    assert EntryOk(s, s.cache[id]);
    LedgerBalances(s, ops, t);
    if ops != [] {
      var s', rest := After(s, ops[0]), ops[1..];
      assert Spares(ops[0], id);
      assert forall i | 0 <= i < |rest| :: rest[i] == ops[i + 1];
      StepKeepsLedger(s, ops[0]);
      StepOnEntry(s, ops[0], id);
      if id in s'.cache {
        EntryGoneIsSettled(s', rest, id);
      } else {
        SettledStays(s', rest, t);
      }
    }
  }

  lemma OneVisited(s: State, id: Uint32, now: int)
    requires id in s.cache && Expired(s.cache[id], now, s.timeoutSecs)
    ensures ExpiredAmong(s, [id], now) == [id]
    ensures AllTakenOut(s, [id], 1) == TakenOut(s, id, true)
  {
    var ids := [id];
    assert ids[..|ids| - 1] == [];
  }

  lemma OneEntry(s: State, id: Uint32)
    requires s.cache.Keys == {id}
    ensures |s.cache| == 1 && CrawlSize(|s.cache|) == 1
  {
    assert |s.cache.Keys| == 1;
  }

  // It does happen: with a request alone in the table, one pass after the timeout and
  // before the write fails sends its callback.
  lemma CleanupBeforeFailedWrite(id: Uint32, cb: Callback, timeoutSecs: int, added: int, swept: int)
    requires swept > added + timeoutSecs
    ensures var start := AfterAdd(NewTable(timeoutSecs), id, cb, added).0;
            var ops := [Pass([id], swept, 1)];
            && LedgerOk(NewTable(timeoutSecs)) && Run(start, ops) && AllSpare(ops, id) && SentDuring(start, ops, id)
            && Final(start, ops).sent == [Sent(0, cb)]
  {
    var start := AfterAdd(NewTable(timeoutSecs), id, cb, added).0;
    NewTableBalances(timeoutSecs);
    assert start.cache.Keys == {id};
    SingleEntryIsSent(start, id, swept);
    OneStep(start, Pass([id], swept, 1), id);
    hide LedgerOk, SentDuring, Run, Final, CanRun, After, SendsEntry, AllSpare;
  }

  // A pass over a table of one timed-out entry takes that entry out.
  lemma SingleEntryIsSent(s: State, id: Uint32, now: int)
    requires s.cache.Keys == {id} && !s.disposed && Expired(s.cache[id], now, s.timeoutSecs)
    ensures CanRun(s, Pass([id], now, 1)) && SendsEntry(s, Pass([id], now, 1), id)
    ensures After(s, Pass([id], now, 1)) == TakenOut(s, id, true)
  {
    OneVisited(s, id, now);
    OneEntry(s, id);
    hide ExpiredAmong, AllTakenOut, TakenOut, CrawlSize;
    assert IsVisitedAt([id], 0, id) && SentAmong([id], 1, id);
  }

  lemma NewTableBalances(timeoutSecs: int)
    ensures LedgerOk(NewTable(timeoutSecs))
  {
  }

  lemma OneStep(s: State, op: Op, id: Uint32)
    requires CanRun(s, op) && Spares(op, id)
    ensures Run(s, [op]) && AllSpare([op], id) && Final(s, [op]) == After(s, op)
    ensures SendsEntry(s, op, id) ==> SentDuring(s, [op], id)
  {
    assert [op][1..] == [];
  }

  // ---- Disposal ----

  // A disposed table sends nothing more and stays disposed, and its passes change nothing.
  lemma {:induction false} DisposedIsIdle(s: State, ops: seq<Op>)
    requires s.disposed && Run(s, ops)
    ensures Final(s, ops).disposed && Final(s, ops).sent == s.sent
    ensures (forall i | 0 <= i < |ops| :: ops[i].Pass? || ops[i].Dispose?) ==> Final(s, ops) == s
    decreases |ops|
  {
    if ops != [] {
      assert forall i | 0 <= i < |ops[1..]| :: ops[1..][i] == ops[i + 1];
      assert After(s, ops[0]).disposed && After(s, ops[0]).sent == s.sent;
      assert ops[0].Pass? || ops[0].Dispose? ==> After(s, ops[0]) == s;
      DisposedIsIdle(After(s, ops[0]), ops[1..]);
    }
  }

  // Disposing of a table marks it and changes nothing else; so nothing is sent afterwards,
  // whatever is called.
  lemma NothingIsSentAfterDispose(s: State, ops: seq<Op>)
    requires Run(AfterDispose(s), ops)
    ensures Final(AfterDispose(s), ops).disposed && Final(AfterDispose(s), ops).sent == s.sent
    ensures AfterDispose(s).cache == s.cache && AfterDispose(s).fates == s.fates
    ensures (forall i | 0 <= i < |ops| :: ops[i].Pass?) ==> Final(AfterDispose(s), ops).cache == s.cache
  {
    DisposedIsIdle(AfterDispose(s), ops);
  }

  // ---- Draining ----

  lemma {:induction false} TakenOutSize(s: State, ids: seq<Uint32>, sends: nat)
    requires Distinct(ids) && forall id | id in ids :: id in s.cache
    ensures forall id :: id in AllTakenOut(s, ids, sends).cache <==> id in s.cache && id !in ids
    ensures forall id | id in AllTakenOut(s, ids, sends).cache :: AllTakenOut(s, ids, sends).cache[id] == s.cache[id]
    ensures |AllTakenOut(s, ids, sends).cache| == |s.cache| - |ids|
    ensures AllTakenOut(s, ids, sends).timeoutSecs == s.timeoutSecs
  {
    if ids != [] {
      var last := |ids| - 1;
      TakenOutSize(s, ids[..last], sends);
      assert ids == ids[..last] + [ids[last]];
      OneMoreTakenOut(s, ids, sends);
    }
  }

  lemma OneMoreTakenOut(s: State, ids: seq<Uint32>, sends: nat)
    requires ids != [] && ids[|ids| - 1] in AllTakenOut(s, ids[..|ids| - 1], sends).cache
    ensures var last := |ids| - 1;
            var before, after := AllTakenOut(s, ids[..last], sends), AllTakenOut(s, ids, sends);
            && after.cache == before.cache - {ids[last]} && |after.cache| == |before.cache| - 1
            && after.timeoutSecs == before.timeoutSecs
  {
    var last := |ids| - 1;
    var before := AllTakenOut(s, ids[..last], sends);
    assert AllTakenOut(s, ids, sends) == TakenOut(before, ids[last], last < sends);
    hide AllTakenOut;
    OneLess(before.cache, ids[last]);
  }

  lemma OneLess(cache: map<Uint32, Entry>, id: Uint32)
    requires id in cache
    ensures |cache - {id}| == |cache| - 1
  {
    assert cache.Keys - {id} == (cache - {id}).Keys;
    assert |cache.Keys - {id}| == |cache.Keys| - 1;
  }

  // A pass removes exactly the visited entries older than the timeout.
  lemma PassRemovesTimedOut(s: State, visited: seq<Uint32>, now: int, sends: nat)
    requires PassOf(s, visited, sends, now)
    ensures forall id :: id in AfterPass(s, visited, now, sends).cache
                    <==> id in s.cache && !(id in visited && s.cache[id].createdSecs < now - s.timeoutSecs)
    ensures |AfterPass(s, visited, now, sends).cache| >= |s.cache| - (|s.cache| / 3 + 1)
  {
    ExpiredAreThere(s, visited, now);
    TakenOutSize(s, ExpiredAmong(s, visited, now), sends);
  }

  ghost predicate AllExpired(s: State, now: int) {
    forall id | id in s.cache :: Expired(s.cache[id], now, s.timeoutSecs)
  }

  lemma {:induction false} AllVisitedExpired(s: State, visited: seq<Uint32>, now: int)
    requires AllExpired(s, now) && forall id | id in visited :: id in s.cache
    ensures ExpiredAmong(s, visited, now) == visited
  {
    if visited != [] {
      AllVisitedExpired(s, visited[..|visited| - 1], now);
    }
  }

  // When everything has expired, a pass that Dispose does not cut short leaves
  // n - min(n, n/3 + 1) entries, all of them expired.
  lemma PassOverExpired(s: State, visited: seq<Uint32>, now: int, later: int)
    requires AllExpired(s, now) && now <= later && PassOf(s, visited, |visited|, now)
    ensures var s' := AfterPass(s, visited, now, |visited|);
            && |s'.cache| == |s.cache| - (if |s.cache| < |s.cache| / 3 + 1 then |s.cache| else |s.cache| / 3 + 1)
            && 3 * |s'.cache| <= 2 * |s.cache|
            && (s.cache != map[] ==> |s'.cache| < |s.cache|)
            && AllExpired(s', later)
            && (!s.disposed ==> !s'.disposed)
  {
    AllVisitedExpired(s, visited, now);
    TakenOutSize(s, visited, |visited|);
    AllSent(s, visited, |visited|);
  }

  lemma {:induction false} AllSent(s: State, ids: seq<Uint32>, sends: nat)
    requires |ids| <= sends
    ensures AllTakenOut(s, ids, sends).disposed == s.disposed
  {
    if ids != [] {
      AllSent(s, ids[..|ids| - 1], sends);
    }
  }

  function Power(base: nat, k: nat): nat {
    if k == 0 then 1 else base * Power(base, k - 1)
  }

  // Passes one after the other, at nondecreasing times and with no Add between them.
  ghost predicate Passes(s: State, passes: seq<(seq<Uint32>, int)>)
    decreases |passes|
  {
    passes == []
    || (PassOf(s, passes[0].0, |passes[0].0|, passes[0].1)
        && (|passes| > 1 ==> passes[0].1 <= passes[1].1)
        && Passes(AfterPass(s, passes[0].0, passes[0].1, |passes[0].0|), passes[1..]))
  }

  function AfterPasses(s: State, passes: seq<(seq<Uint32>, int)>): State
    decreases |passes|
  {
    if passes == [] then s
    else AfterPasses(AfterPass(s, passes[0].0, passes[0].1, |passes[0].0|), passes[1..])
  }

  // Main result. If everything has expired and nothing is added, k passes leave at most
  // (2/3)^k of the entries, and as many passes as there are entries leave none.
  lemma {:induction false} GeometricDrain(s: State, passes: seq<(seq<Uint32>, int)>)
    requires Passes(s, passes) && (passes != [] ==> AllExpired(s, passes[0].1))
    ensures Power(3, |passes|) * |AfterPasses(s, passes).cache| <= Power(2, |passes|) * |s.cache|
    ensures |passes| >= |s.cache| ==> AfterPasses(s, passes).cache == map[]
    decreases |passes|
  {
    if passes != [] {
      var (visited, now) := passes[0];
      var s' := AfterPass(s, visited, now, |visited|);
      var k := |passes| - 1;
      PassOverExpired(s, visited, now, if k > 0 then passes[1].1 else now);
      GeometricDrain(s', passes[1..]);
      var n := |AfterPasses(s, passes).cache|;
      DrainArithmetic(Power(3, k), Power(2, k), n, |s'.cache|, |s.cache|);
    }
  }

  lemma DrainArithmetic(p3: nat, p2: nat, n: nat, after: nat, before: nat)
    requires p3 * n <= p2 * after && 3 * after <= 2 * before
    ensures (3 * p3) * n <= (2 * p2) * before
  {
    assert (3 * p3) * n == 3 * (p3 * n);
    assert 3 * (p2 * after) == p2 * (3 * after);
    MulMonotone(p2, 3 * after, 2 * before);
    assert p2 * (2 * before) == (2 * p2) * before;
  }

  lemma MulMonotone(a: nat, b: nat, c: nat)
    requires b <= c
    ensures a * b <= a * c
  {
  }
}

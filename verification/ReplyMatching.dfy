// Every callback is called with the reply to its own request, however the network loses,
// reorders or duplicates replies, as long as the client's 32-bit ids have not come around.

module ReplyMatching {
  import opened ByteStrings
  import opened Wrappers
  import opened Protocol
  import opened Server
  import opened EndToEnd
  import opened WaitingMessage
  import Client

  // The id of the i-th call of a client whose counter started at `start`.
  function IdOf(start: Uint32, i: nat): Uint32 {
    (start + 1 + i) % 0x1_0000_0000
  }

  // Two calls have the same id exactly when they are a multiple of 2^32 apart.
  lemma IdsRepeat(start: Uint32, i: nat, j: nat)
    requires i <= j
    ensures IdOf(start, i) == IdOf(start, j) <==> (j - i) % 0x1_0000_0000 == 0
  {
  }

  // A callback invoked because a frame arrived: what it was given, the frame, and the call
  // the server produced that frame for.
  datatype ReplyCall = ReplyCall(call: Client.Call, frame: Bytes, reply: nat)

  // Calls are numbered by the ids they take. `callbacks` has the callback of every call
  // that entered the table, `writing` the frames that are still to be written, `written`
  // those the network has; `requestOf` says for each ticket of the table which call it
  // waits for; `produced` has every reply frame the server made, with the call it answers.
  datatype Net = Net(
    start: Uint32,
    taken: nat,
    callbacks: map<nat, Callback>,
    writing: map<nat, Bytes>,
    written: map<nat, Bytes>,
    table: State,
    requestOf: seq<nat>,
    produced: set<(nat, Bytes)>,
    calls: seq<ReplyCall>)

  // TakeId is a call that takes an id and never enters the table: one refused because it
  // is too long, or one of the two list calls, which go over TCP.
  datatype Step =
    | TakeId
    | Issue(command: byte, ns: Bytes, data: Bytes, cb: Callback, now: int)
    | Write(i: nat)
    | FailWrite(i: nat, now: int)
    | Reply(i: nat, request: Request, answer: nat, names: seq<Bytes>)
    | Receive(i: nat, frame: Bytes, now: int)
    | Cleanup(op: Op)

  function Initial(start: Uint32, timeoutSecs: int): Net {
    Net(start, 0, map[], map[], map[], NewTable(timeoutSecs), [], {}, [])
  }

  function RequestFrame(start: Uint32, i: nat, command: byte, ns: Bytes, data: Bytes, psk: Bytes, h: Hasher): Bytes {
    Encode(PacketOf(command, Uint32ToBytes(IdOf(start, i)), ns, data, psk, h))
  }

  // A received frame stays in `produced`, so it may be received again.
  ghost predicate Enabled(n: Net, step: Step, psk: Bytes, h: Hasher) {
    match step
    case TakeId => true
    case Issue(command, ns, data, _, _) => IsRequestCmd(command) && |ns| <= NAMESPACE_SIZE && |data| <= DATA_SIZE
    case Write(i) => i in n.writing
    case FailWrite(i, _) => i in n.writing
    case Reply(i, request, answer, names) =>
      && i in n.written && |n.written[i]| >= 82 && request == Classify(n.written[i], psk, h)
      && !request.Keys? && !request.Namespaces?
      && ReplyFor(FieldsOf(n.written[i]), request, answer, names, psk, h).Some?
    case Receive(i, frame, _) => (i, frame) in n.produced && |frame| >= 82
    case Cleanup(op) => (op.Pass? || op.Dispose?) && CanRun(n.table, op)
  }

  ghost function Next(n: Net, step: Step, psk: Bytes, h: Hasher): Net
    requires Enabled(n, step, psk, h)
  {
    match step
    case TakeId => n.(taken := n.taken + 1)
    case Issue(command, ns, data, cb, now) => AfterIssue(n, command, ns, data, cb, now, psk, h)
    case Write(i) => n.(writing := n.writing - {i}, written := n.written[i := n.writing[i]])
    case FailWrite(i, now) =>
      n.(writing := n.writing - {i}, table := AfterPull(n.table, IdOf(n.start, i), now).0)
    case Reply(i, request, answer, names) =>
      var reply := ReplyFor(FieldsOf(n.written[i]), request, answer, names, psk, h).value;
      n.(produced := n.produced + {(i, Encode(reply))})
    case Receive(i, frame, now) =>
      var (table, call) := Client.OnFrame(n.table, frame, now);
      n.(table := table, calls := if call.Some? then n.calls + [ReplyCall(call.value, frame, i)] else n.calls)
    case Cleanup(op) => n.(table := After(n.table, op))
  }

  // A call enters the table under its id, and its frame is to be written.
  ghost function Entered(n: Net, i: nat, cb: Callback, now: int, frame: Bytes): Net {
    n.(callbacks := n.callbacks[i := cb], table := AfterAdd(n.table, IdOf(n.start, i), cb, now).0,
       requestOf := n.requestOf + [i], writing := n.writing[i := frame])
  }

  // The id is taken whether or not it is free in the table.
  ghost function AfterIssue(n: Net, command: byte, ns: Bytes, data: Bytes, cb: Callback, now: int, psk: Bytes,
                            h: Hasher): Net {
    var i, spent := n.taken, n.(taken := n.taken + 1);
    if IdOf(n.start, i) in n.table.cache then spent
    else Entered(spent, i, cb, now, RequestFrame(n.start, i, command, ns, data, psk, h))
  }

  // Every pending entry waits under the id of its call, with its callback.
  ghost predicate EntryMatches(n: Net, id: Uint32)
    requires id in n.table.cache
  {
    var e := n.table.cache[id];
    e.ticket < |n.requestOf| && var i := n.requestOf[e.ticket];
    i < n.taken && i in n.callbacks && IdOf(n.start, i) == id && e.callback == n.callbacks[i]
  }

  ghost predicate CarriesId(n: Net, i: nat, frame: Bytes) {
    i < n.taken && i in n.callbacks && |frame| == PACKET_SIZE && FieldsOf(frame).id == IdOf(n.start, i)
  }

  // What a callback is given for a reply frame.
  function Shown(cb: Callback, frame: Bytes): Client.Call
    requires |frame| >= 82
  {
    var f := FieldsOf(frame);
    if f.command == RES_ERROR then Client.Call(cb, [], Some(Client.Remote(Trim(f.data))))
    else Client.Call(cb, f.data, None)
  }

  // The callback was given the contents of a frame the server produced for call `c.reply`.
  ghost predicate ShowsReply(n: Net, c: ReplyCall) {
    && (c.reply, c.frame) in n.produced && |c.frame| >= 82 && c.reply in n.callbacks
    && c.call == Shown(c.call.callback, c.frame)
  }

  // And it is the callback of that very call.
  ghost predicate IsOwnReply(n: Net, c: ReplyCall) {
    c.reply in n.callbacks && c.call.callback == n.callbacks[c.reply]
  }

  ghost predicate Matched(n: Net) {
    && |n.requestOf| == |n.table.fates|
    && (forall id | id in n.table.cache :: EntryMatches(n, id))
    && (forall i | i in n.writing :: CarriesId(n, i, n.writing[i]))
    && (forall i | i in n.written :: CarriesId(n, i, n.written[i]))
    && (forall p | p in n.produced :: CarriesId(n, p.0, p.1))
    && (forall i | i in n.callbacks :: i < n.taken)
    && (forall c | c in n.calls :: ShowsReply(n, c))
    && (n.taken <= 0x1_0000_0000 ==> forall c | c in n.calls :: IsOwnReply(n, c))
  }

  lemma IssuedCarriesId(start: Uint32, i: nat, command: byte, ns: Bytes, data: Bytes, psk: Bytes, h: Hasher)
    requires IsRequestCmd(command) && |ns| <= NAMESPACE_SIZE && |data| <= DATA_SIZE
    ensures |RequestFrame(start, i, command, ns, data, psk, h)| == PACKET_SIZE
    ensures FieldsOf(RequestFrame(start, i, command, ns, data, psk, h)).id == IdOf(start, i)
  {
    var idBytes := Uint32ToBytes(IdOf(start, i));
    RequestArrives(command, idBytes, ns, data, psk, h);
    assert idBytes[..4] == idBytes;
  }

  // A step that makes no call, and only takes entries out of the table.
  lemma MatchedFrame(n: Net, n': Net)
    requires Matched(n) && n'.start == n.start && n.taken <= n'.taken && n'.callbacks == n.callbacks
    requires n'.requestOf == n.requestOf && n'.calls == n.calls && |n'.table.fates| == |n.table.fates|
    requires forall id | id in n'.table.cache :: id in n.table.cache && n'.table.cache[id] == n.table.cache[id]
    requires forall i | i in n'.writing :: i in n.writing && n'.writing[i] == n.writing[i]
    requires forall i | i in n'.written :: CarriesId(n, i, n'.written[i])
    requires n.produced <= n'.produced && forall p | p in n'.produced :: CarriesId(n, p.0, p.1)
    ensures Matched(n')
  {
    hide FieldsOf, Shown, IdOf;
    forall id | id in n'.table.cache
      ensures EntryMatches(n', id)
    {
      assert EntryMatches(n, id);
    }
    forall i | i in n'.writing
      ensures CarriesId(n', i, n'.writing[i])
    {
      assert CarriesId(n, i, n.writing[i]);
    }
    forall i | i in n'.written
      ensures CarriesId(n', i, n'.written[i])
    {
      assert CarriesId(n, i, n'.written[i]);
    }
    forall p | p in n'.produced
      ensures CarriesId(n', p.0, p.1)
    {
      assert CarriesId(n, p.0, p.1);
    }
    forall c | c in n'.calls
      ensures ShowsReply(n', c)
      ensures n'.taken <= 0x1_0000_0000 ==> IsOwnReply(n', c)
    {
      assert ShowsReply(n, c);
      assert n.taken <= 0x1_0000_0000 ==> IsOwnReply(n, c);
    }
  }

  lemma EnteredCarries(n: Net, i: nat, cb: Callback, now: int, frame: Bytes, j: nat, f: Bytes)
    requires CarriesId(n, j, f)
    ensures CarriesId(Entered(n, i, cb, now, frame), j, f)
  {
  }

  lemma EnteredEntry(n: Net, i: nat, cb: Callback, now: int, frame: Bytes, id: Uint32)
    requires i < n.taken && i !in n.callbacks && IdOf(n.start, i) !in n.table.cache && |n.requestOf| == |n.table.fates|
    requires id in n.table.cache ==> EntryMatches(n, id)
    requires id in Entered(n, i, cb, now, frame).table.cache
    ensures EntryMatches(Entered(n, i, cb, now, frame), id)
  {
    hide IdOf;
  }

  lemma EnteredCall(n: Net, i: nat, cb: Callback, now: int, frame: Bytes, c: ReplyCall)
    requires i !in n.callbacks && ShowsReply(n, c)
    ensures ShowsReply(Entered(n, i, cb, now, frame), c)
    ensures IsOwnReply(n, c) ==> IsOwnReply(Entered(n, i, cb, now, frame), c)
  {
    hide Shown;
  }

  lemma MatchedAfterEntering(n: Net, i: nat, cb: Callback, now: int, frame: Bytes)
    requires Matched(n) && i < n.taken && i !in n.callbacks && IdOf(n.start, i) !in n.table.cache
    requires |frame| == PACKET_SIZE && FieldsOf(frame).id == IdOf(n.start, i)
    ensures Matched(Entered(n, i, cb, now, frame))
  {
    var n' := Entered(n, i, cb, now, frame);
    assert CarriesId(n', i, frame);
    hide CarriesId, EntryMatches, ShowsReply, IsOwnReply, FieldsOf;
    forall id | id in n'.table.cache
      ensures EntryMatches(n', id)
    {
      EnteredEntry(n, i, cb, now, frame, id);
    }
    forall j, f | CarriesId(n, j, f)
      ensures CarriesId(n', j, f)
    {
      EnteredCarries(n, i, cb, now, frame, j, f);
    }
    forall c | c in n'.calls
      ensures ShowsReply(n', c)
      ensures n'.taken <= 0x1_0000_0000 ==> IsOwnReply(n', c)
    {
      EnteredCall(n, i, cb, now, frame, c);
    }
  }

  lemma MatchedAfterSpending(n: Net)
    requires Matched(n)
    ensures Matched(n.(taken := n.taken + 1))
  {
    MatchedFrame(n, n.(taken := n.taken + 1));
  }

  lemma TakenIsNew(n: Net)
    requires Matched(n)
    ensures n.taken !in n.callbacks
  {
  }

  // A frame for the call that has just taken its id.
  lemma MatchedAfterTaking(n: Net, cb: Callback, now: int, frame: Bytes)
    requires Matched(n) && IdOf(n.start, n.taken) !in n.table.cache
    requires |frame| == PACKET_SIZE && FieldsOf(frame).id == IdOf(n.start, n.taken)
    ensures Matched(Entered(n.(taken := n.taken + 1), n.taken, cb, now, frame))
  {
    hide FieldsOf, IdOf, Entered, Matched;
    MatchedAfterSpending(n);
    TakenIsNew(n);
    MatchedAfterEntering(n.(taken := n.taken + 1), n.taken, cb, now, frame);
  }

  lemma MatchedAfterIssue(n: Net, command: byte, ns: Bytes, data: Bytes, cb: Callback, now: int, psk: Bytes, h: Hasher)
    requires IsRequestCmd(command) && |ns| <= NAMESPACE_SIZE && |data| <= DATA_SIZE
    requires Matched(n)
    ensures Matched(AfterIssue(n, command, ns, data, cb, now, psk, h))
  {
    hide Entered, RequestFrame, IdOf, Matched, IsRequestCmd;
    if IdOf(n.start, n.taken) in n.table.cache {
      MatchedAfterSpending(n);
    } else {
      MatchedAfterSending(n, command, ns, data, cb, now, psk, h);
    }
  }

  lemma MatchedAfterSending(n: Net, command: byte, ns: Bytes, data: Bytes, cb: Callback, now: int, psk: Bytes,
                            h: Hasher)
    requires IsRequestCmd(command) && |ns| <= NAMESPACE_SIZE && |data| <= DATA_SIZE
    requires Matched(n) && IdOf(n.start, n.taken) !in n.table.cache
    ensures Matched(Entered(n.(taken := n.taken + 1), n.taken, cb, now,
                            RequestFrame(n.start, n.taken, command, ns, data, psk, h)))
  {
    hide RequestFrame, FieldsOf, IdOf, Entered, Matched, IsRequestCmd;
    IssuedCarriesId(n.start, n.taken, command, ns, data, psk, h);
    MatchedAfterTaking(n, cb, now, RequestFrame(n.start, n.taken, command, ns, data, psk, h));
  }

  // A server's reply carries the id of the request it answers, whatever the request was.
  lemma ReplyKeepsId(frame: Bytes, request: Request, answer: nat, names: seq<Bytes>, psk: Bytes, h: Hasher)
    requires |frame| == PACKET_SIZE && !request.Keys? && !request.Namespaces?
    ensures var reply := ReplyFor(FieldsOf(frame), request, answer, names, psk, h);
            reply.Some? ==>
              |Encode(reply.value)| == PACKET_SIZE && FieldsOf(Encode(reply.value)).id == FieldsOf(frame).id
  {
    ReplyArrives(FieldsOf(frame), request, answer, names, psk, h);
  }

  lemma MatchedAfterReply(n: Net, step: Step, psk: Bytes, h: Hasher)
    requires Matched(n) && Enabled(n, step, psk, h) && step.Reply?
    ensures Matched(Next(n, step, psk, h))
  {
    assert CarriesId(n, step.i, n.written[step.i]);
    ReplyKeepsId(n.written[step.i], step.request, step.answer, step.names, psk, h);
    hide Encode, FieldsOf, ReplyFor, Classify;
    MatchedFrame(n, Next(n, step, psk, h));
  }

  lemma MatchedAfterWrite(n: Net, step: Step, psk: Bytes, h: Hasher)
    requires Matched(n) && Enabled(n, step, psk, h) && (step.Write? || step.FailWrite? || step.TakeId?)
    ensures Matched(Next(n, step, psk, h))
  {
    hide FieldsOf, IdOf;
    MatchedFrame(n, Next(n, step, psk, h));
  }

  lemma MatchedAfterCleanup(n: Net, op: Op, psk: Bytes, h: Hasher)
    requires Matched(n) && Enabled(n, Cleanup(op), psk, h)
    ensures Matched(Next(n, Cleanup(op), psk, h))
  {
    if op.Pass? {
      TakenOutIsSmaller(n.table, ExpiredAmong(n.table, op.visited, op.now), op.sends);
    }
    hide AllTakenOut, ExpiredAmong, FieldsOf;
    MatchedFrame(n, Next(n, Cleanup(op), psk, h));
  }

  // Whatever the number of calls, a genuine reply only ever finds the entry of the call it
  // answers or of one a multiple of 2^32 away.
  lemma ReceiveMatchesModulo(n: Net, i: nat, frame: Bytes)
    requires Matched(n) && (i, frame) in n.produced
    ensures |frame| == PACKET_SIZE && i < n.taken && i in n.callbacks
    ensures var id := FieldsOf(frame).id;
            id in n.table.cache ==>
              && n.table.cache[id].ticket < |n.requestOf|
              && var j := n.requestOf[n.table.cache[id].ticket];
                 && j < n.taken && j in n.callbacks && n.table.cache[id].callback == n.callbacks[j]
                 && (if i <= j then j - i else i - j) % 0x1_0000_0000 == 0
  {
    assert CarriesId(n, (i, frame).0, (i, frame).1);
    var id := FieldsOf(frame).id;
    if id in n.table.cache {
      assert EntryMatches(n, id);
      var j := n.requestOf[n.table.cache[id].ticket];
      IdsRepeat(n.start, if i <= j then i else j, if i <= j then j else i);
    }
  }

  // What a received frame does to the table, and what the callback is given.
  lemma ReceiveShows(table: State, frame: Bytes, now: int)
    requires |frame| >= 82
    ensures var (table', call) := Client.OnFrame(table, frame, now);
            var id := FieldsOf(frame).id;
            && |table'.fates| == |table.fates|
            && (forall k | k in table'.cache :: k in table.cache && table'.cache[k] == table.cache[k])
            && (call.Some? ==> id in table.cache && call.value == Shown(table.cache[id].callback, frame))
  {
  }

  // The callback called belongs to the call whose reply arrived, unless the ids have come
  // around.
  lemma ReceiveIsOwn(n: Net, i: nat, frame: Bytes, now: int)
    requires Matched(n) && (i, frame) in n.produced
    ensures |frame| == PACKET_SIZE
    ensures var (table, call) := Client.OnFrame(n.table, frame, now);
            call.Some? ==>
              && ShowsReply(n, ReplyCall(call.value, frame, i))
              && (n.taken <= 0x1_0000_0000 ==> IsOwnReply(n, ReplyCall(call.value, frame, i)))
  {
    ReceiveMatchesModulo(n, i, frame);
    ReceiveShows(n.table, frame, now);
    hide Matched, FieldsOf, IdOf, Client.OnFrame, Shown;
  }

  lemma MatchedAfterReceive(n: Net, i: nat, frame: Bytes, now: int, psk: Bytes, h: Hasher)
    requires Matched(n) && Enabled(n, Receive(i, frame, now), psk, h)
    ensures Matched(Next(n, Receive(i, frame, now), psk, h))
  {
    ReceiveIsOwn(n, i, frame, now);
    ReceiveShows(n.table, frame, now);
    var (table, call) := Client.OnFrame(n.table, frame, now);
    hide Matched, FieldsOf, IdOf, Client.OnFrame, Shown, CarriesId, EntryMatches;
    MatchedQuietly(n, table);
    if call.Some? {
      MatchedCall(n.(table := table), ReplyCall(call.value, frame, i));
    }
  }

  // Before a callback is called, its entry leaves the table.
  lemma MatchedQuietly(n: Net, table: State)
    requires Matched(n) && |table.fates| == |n.table.fates|
    requires forall k | k in table.cache :: k in n.table.cache && table.cache[k] == n.table.cache[k]
    ensures Matched(n.(table := table))
  {
    hide CarriesId, IdOf, FieldsOf;
    MatchedFrame(n, n.(table := table));
  }

  lemma MatchedCall(n: Net, c: ReplyCall)
    requires Matched(n) && ShowsReply(n, c) && (n.taken <= 0x1_0000_0000 ==> IsOwnReply(n, c))
    ensures Matched(n.(calls := n.calls + [c]))
  {
    var n' := n.(calls := n.calls + [c]);
    hide FieldsOf, Shown, IdOf;
    forall id | id in n'.table.cache
      ensures EntryMatches(n', id)
    {
      assert EntryMatches(n, id);
    }
    assert forall i, frame | CarriesId(n, i, frame) :: CarriesId(n', i, frame);
    forall d | d in n'.calls
      ensures ShowsReply(n', d)
      ensures n'.taken <= 0x1_0000_0000 ==> IsOwnReply(n', d)
    {
      assert d != c ==> ShowsReply(n, d) && (n.taken <= 0x1_0000_0000 ==> IsOwnReply(n, d));
    }
  }

  // A callback gets a reply that is not its own exactly when the ids came around: a late
  // copy of a reply to call i is handed to the call j that reuses its id.
  lemma StaleReplyMismatches(n: Net, i: nat, frame: Bytes, j: nat, now: int, psk: Bytes, h: Hasher)
    requires Matched(n) && (i, frame) in n.produced && FrameError(frame) == None
    requires IsResponseCmd(FieldsOf(frame).command) && FieldsOf(frame).command != CMD_PUT_REPLICATE
    requires IdOf(n.start, i) in n.table.cache
    requires !Expired(n.table.cache[IdOf(n.start, i)], now, n.table.timeoutSecs)
    requires n.table.cache[IdOf(n.start, i)].ticket < |n.requestOf|
    requires n.requestOf[n.table.cache[IdOf(n.start, i)].ticket] == j
    ensures |frame| == PACKET_SIZE && j in n.callbacks
    ensures Next(n, Receive(i, frame, now), psk, h).calls
         == n.calls + [ReplyCall(Shown(n.callbacks[j], frame), frame, i)]
    ensures i == j || (if i <= j then j - i else i - j) >= 0x1_0000_0000
  {
    ReplyHasId(n, i, frame);
    ReceiveMatchesModulo(n, i, frame);
    FrameIsShown(n.table, frame, now);
    hide Matched, IdOf, Expired, Client.OnFrame, Shown, FieldsOf, FrameError, IsResponseCmd;
  }

  lemma ReplyHasId(n: Net, i: nat, frame: Bytes)
    requires Matched(n) && (i, frame) in n.produced
    ensures |frame| == PACKET_SIZE && FieldsOf(frame).id == IdOf(n.start, i)
  {
    assert CarriesId(n, (i, frame).0, (i, frame).1);
  }

  // A response frame that finds its entry in time is shown to the entry's callback.
  lemma FrameIsShown(table: State, frame: Bytes, now: int)
    requires |frame| >= 82 && FrameError(frame) == None
    requires IsResponseCmd(FieldsOf(frame).command) && FieldsOf(frame).command != CMD_PUT_REPLICATE
    requires FieldsOf(frame).id in table.cache
    requires !Expired(table.cache[FieldsOf(frame).id], now, table.timeoutSecs)
    ensures Client.OnFrame(table, frame, now).1 == Some(Shown(table.cache[FieldsOf(frame).id].callback, frame))
  {
    hide FrameError, IsResponseCmd;
  }

  ghost predicate Run(n: Net, steps: seq<Step>, psk: Bytes, h: Hasher)
    decreases |steps|
  {
    steps == [] || (Enabled(n, steps[0], psk, h) && Run(Next(n, steps[0], psk, h), steps[1..], psk, h))
  }

  ghost function Final(n: Net, steps: seq<Step>, psk: Bytes, h: Hasher): Net
    requires Run(n, steps, psk, h)
    decreases |steps|
  {
    if steps == [] then n else Final(Next(n, steps[0], psk, h), steps[1..], psk, h)
  }

  lemma MatchedIsKept(n: Net, step: Step, psk: Bytes, h: Hasher)
    requires Matched(n) && Enabled(n, step, psk, h)
    ensures Matched(Next(n, step, psk, h))
  {
    hide Matched;
    match step
    case Issue(command, ns, data, cb, now) => MatchedAfterIssue(n, command, ns, data, cb, now, psk, h);
    case Reply(_, _, _, _) => MatchedAfterReply(n, step, psk, h);
    case Receive(i, frame, now) => MatchedAfterReceive(n, i, frame, now, psk, h);
    case Cleanup(op) => MatchedAfterCleanup(n, op, psk, h);
    case _ => MatchedAfterWrite(n, step, psk, h);
  }

  lemma {:induction false} RunKeepsMatched(n: Net, steps: seq<Step>, psk: Bytes, h: Hasher)
    requires Matched(n) && Run(n, steps, psk, h)
    ensures Matched(Final(n, steps, psk, h))
    decreases |steps|
  {
    if steps != [] {
      MatchedIsKept(n, steps[0], psk, h);
      hide Matched, Enabled, Next;
      RunKeepsMatched(Next(n, steps[0], psk, h), steps[1..], psk, h);
    }
  }

  // Main result. In every run in which the client has taken at most 2^32 ids, for whatever
  // calls, every callback that was invoked with a reply belongs to the call the server
  // produced that reply for, and was given what the reply says.
  lemma RepliesMatch(start: Uint32, timeoutSecs: int, steps: seq<Step>, psk: Bytes, h: Hasher)
    requires Run(Initial(start, timeoutSecs), steps, psk, h)
    requires Final(Initial(start, timeoutSecs), steps, psk, h).taken <= 0x1_0000_0000
    ensures var n := Final(Initial(start, timeoutSecs), steps, psk, h);
            forall c | c in n.calls ::
              && c.reply in n.callbacks && (c.reply, c.frame) in n.produced && |c.frame| >= 82
              && c.call == Shown(n.callbacks[c.reply], c.frame)
  {
    RunKeepsMatched(Initial(start, timeoutSecs), steps, psk, h);
    var n := Final(Initial(start, timeoutSecs), steps, psk, h);
    forall c | c in n.calls
      ensures c.reply in n.callbacks && (c.reply, c.frame) in n.produced && |c.frame| >= 82
      ensures c.call == Shown(n.callbacks[c.reply], c.frame)
    {
      assert ShowsReply(n, c) && IsOwnReply(n, c);
    }
  }
}

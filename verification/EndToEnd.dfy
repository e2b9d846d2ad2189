// A client call over UDP, all the way to the put log and back.

module EndToEnd {
  import opened ByteStrings
  import opened Wrappers
  import opened Protocol
  import opened Frames
  import opened ExpiryTree
  import opened StoreRefinement
  import opened Server
  import opened RawMessage
  import opened KeyLists
  import opened TcpPath
  import WaitingMessage
  import Client
  import PutLog

  // ---- One request and its reply ----

  // What the server makes of a UDP request a client with the same key printed.
  lemma RequestArrives(command: byte, idBytes: Bytes, ns: Bytes, key: Bytes, psk: Bytes, h: Hasher)
    requires |idBytes| == 4 && |ns| <= NAMESPACE_SIZE && |key| <= DATA_SIZE && IsRequestCmd(command)
    ensures var frame := Encode(PacketOf(command, idBytes, ns, key, psk, h));
            && |frame| == PACKET_SIZE
            && FieldsOf(frame).idBytes == idBytes
            && Classify(frame, psk, h) ==
               if command == CMD_PUT_REPLICATE then Replicate(Trim(ns), Trim(key))
               else if command == CMD_PUT then Request.Put(Trim(ns), Trim(key))
               else if command == CMD_COUNT then Request.Count(Trim(ns), Trim(key))
               else if command == CMD_COUNT_NAMESPACE then Request.CountNamespace(Trim(ns))
               else Request.CountServer
  {
    PrintedFrameParses(command, idBytes, ns, key, psk, h);
  }

  // A reply that fits one packet reaches the client with the request's own id bytes.
  lemma ReplyArrives(f: Fields, request: Request, answer: nat, names: seq<Bytes>, psk: Bytes, h: Hasher)
    requires |f.idBytes| == 4 && |f.ns| == NAMESPACE_SIZE && !request.Keys? && !request.Namespaces?
    ensures var reply := ReplyFor(f, request, answer, names, psk, h);
            reply.Some? ==>
              && |Encode(reply.value)| == PACKET_SIZE && !BadOutputSize(reply.value)
              && ParsePacket(Encode(reply.value)) == Parsed(Travelled(reply.value), None)
              && FieldsOf(Encode(reply.value)).idBytes == f.idBytes
  {
    var reply := ReplyFor(f, request, answer, names, psk, h);
    if reply.Some? {
      var r := reply.value;
      var data := match request
        case Rejected(e) => ErrorText(e)
        case Put(_, _) => []
        case Unknown(c) => Ascii("unknown_command_") + [c]
        case _ => Uint32ToBytes(Capped(answer));
      if request.Rejected? {
        ErrorTextFits(request.error);
      }
      PrintedFrameParses(r.command, f.idBytes, f.ns, data, psk, h);
    }
  }

  // A count's reply has the request's own command and decodes to the count, or to the
  // largest uint32 if it is larger.
  lemma NumberArrives(f: Fields, request: Request, answer: nat, psk: Bytes, h: Hasher)
    requires |f.idBytes| == 4 && |f.ns| == NAMESPACE_SIZE
    requires request.Count? || request.CountNamespace? || request.CountServer?
    ensures var frame := Encode(ReplyFor(f, request, answer, [], psk, h).value);
            && |frame| == PACKET_SIZE && FrameError(frame) == None && FieldsOf(frame).idBytes == f.idBytes
            && FieldsOf(frame).command == (if request.Count? then CMD_COUNT
                                           else if request.CountNamespace? then CMD_COUNT_NAMESPACE
                                           else CMD_COUNT_SERVER)
            && |FieldsOf(frame).data| >= 4
            && Uint32FromBytes(FieldsOf(frame).data[..4]) == if answer < 0x1_0000_0000 then answer else 0xFFFF_FFFF
  {
    ReplyArrives(f, request, answer, [], psk, h);
    var number := Uint32ToBytes(Capped(answer));
    assert Padded(number, DATA_SIZE)[..4] == number;
    assert number[..4] == number;
  }

  function NumberOf(a: Answered): nat {
    if a.Number? then a.n else 0
  }

  // Main result. While its callback is pending and not expired, a Count whose names fit
  // calls it with min(log count of the trimmed names, 2^32 - 1).
  lemma CountEndToEnd(s: State, log: Log, ttl: int, at: int, idBytes: Bytes, ns: Bytes, key: Bytes, psk: Bytes,
                      h: Hasher, table: WaitingMessage.State, later: int)
    requires Refines(s.spaces, log, ttl, s.now) && s.now <= at
    requires |idBytes| == 4 && |ns| <= NAMESPACE_SIZE && |key| <= DATA_SIZE
    requires Uint32FromBytes(idBytes) in table.cache
    requires !WaitingMessage.Expired(table.cache[Uint32FromBytes(idBytes)], later, table.timeoutSecs)
    ensures var frame := Encode(PacketOf(CMD_COUNT, idBytes, ns, key, psk, h));
            && |frame| == PACKET_SIZE && Classify(frame, psk, h) == Request.Count(Trim(ns), Trim(key))
            && var op := Op.Count(Trim(ns), Trim(key), at);
            && CanRun(s, op)
            && var reply := ReplyFor(FieldsOf(frame), Classify(frame, psk, h), NumberOf(Answer(s, op)), [], psk, h);
            && reply.Some? && |Encode(reply.value)| == PACKET_SIZE
            && var call := Client.OnFrame(table, Encode(reply.value), later).1;
            && call.Some? && call.value.callback == table.cache[Uint32FromBytes(idBytes)].callback
            && Client.CountResultOf(call.value)
               == Client.Counted(var n := PutLog.Count(log, Trim(ns), Trim(key), ttl, at);
                                 if n < 0x1_0000_0000 then n else 0xFFFF_FFFF)
  {
    var frame := Encode(PacketOf(CMD_COUNT, idBytes, ns, key, psk, h));
    RequestArrives(CMD_COUNT, idBytes, ns, key, psk, h);
    var op := Op.Count(Trim(ns), Trim(key), at);
    StepRefines(s, log, ttl, op);
    var answer := NumberOf(Answer(s, op));
    NumberArrives(FieldsOf(frame), Classify(frame, psk, h), answer, psk, h);
    var data := FieldsOf(Encode(ReplyFor(FieldsOf(frame), Classify(frame, psk, h), answer, [], psk, h).value)).data;
    assert data[..4][..4] == data[..4];
  }

  // ---- Runs of client calls ----

  // One call of a client, with the clock readings the server makes while serving it.
  datatype ClientCall =
    | Put(ns: Bytes, key: Bytes, filterTime: int, stamp: int)
    | Count(ns: Bytes, key: Bytes, at: int)
    | CountNamespace(ns: Bytes, visit: Visit, until: int)
    | CountServer(order: seq<Bytes>, visits: map<Bytes, Visit>, until: int)

  function RequestFields(call: ClientCall, idBytes: Bytes, psk: Bytes, h: Hasher): Fields
    requires |idBytes| == 4
  {
    match call
    case Put(ns, key, _, _) => PacketOf(CMD_PUT, idBytes, ns, key, psk, h)
    case Count(ns, key, _) => PacketOf(CMD_COUNT, idBytes, ns, key, psk, h)
    case CountNamespace(ns, _, _) => PacketOf(CMD_COUNT_NAMESPACE, idBytes, ns, [], psk, h)
    case CountServer(_, _, _) => PacketOf(CMD_COUNT_SERVER, idBytes, [], [], psk, h)
  }

  // The store call a request leads to, given the readings.
  function Served(request: Request, call: ClientCall): Option<Op> {
    match request
    case Put(ns, key) => if call.Put? then Some(Op.Put(ns, key, call.filterTime, call.stamp)) else None
    case Count(ns, key) => if call.Count? then Some(Op.Count(ns, key, call.at)) else None
    case CountNamespace(ns) => if call.CountNamespace? then Some(Op.CountEntries(ns, call.visit, call.until)) else None
    case CountServer => if call.CountServer? then Some(Op.CountServer(call.order, call.visits, call.until)) else None
    case _ => None
  }

  // A call with its callback, the client's clock when the callback enters the table and
  // when the reply comes, and what it leads to: the callback is called, or the call is
  // refused at once, or the reply comes too late and the callback is dropped.
  datatype Issued = Issued(call: ClientCall, cb: WaitingMessage.Callback, addedAt: int, gotAt: int)

  datatype Result = Refused(error: Client.CallError) | NoAnswer | Got(call: Client.Call)

  // One server, and one client with its reply table and its id counter.
  datatype World = World(store: State, table: WaitingMessage.State, counter: Uint32)

  function NextId(w: World): Uint32 {
    (w.counter + 1) % 0x1_0000_0000
  }

  function FieldsFor(w: World, call: ClientCall, psk: Bytes, h: Hasher): (f: Fields)
    ensures |f.hashBytes| >= 8 && |f.idBytes| >= 4
  {
    RequestFields(call, Uint32ToBytes(NextId(w)), psk, h)
  }

  function WillSend(w: World, call: ClientCall, psk: Bytes, h: Hasher): bool {
    !BadOutputSize(FieldsFor(w, call, psk, h)) && NextId(w) !in w.table.cache
  }

  ghost predicate CanCall(w: World, call: ClientCall, psk: Bytes, h: Hasher) {
    WillSend(w, call, psk, h) ==>
      var frame := Encode(FieldsFor(w, call, psk, h));
      |frame| >= 82 && var op := Served(Classify(frame, psk, h), call);
      op.Some? && CanRun(w.store, op.value)
  }

  // Print and enter the table, or be refused. Then: parse, classify, serve, print the
  // reply, and give it to the client.
  ghost function AfterCall(w: World, c: Issued, psk: Bytes, h: Hasher, ttl: int): (World, Result)
    requires CanCall(w, c.call, psk, h)
  {
    var f := FieldsFor(w, c.call, psk, h);
    if BadOutputSize(f) then (w.(counter := NextId(w)), Refused(Client.BadSize))
    else if NextId(w) in w.table.cache then (w.(counter := NextId(w)), Refused(Client.IdExists))
    else
      var request := Classify(Encode(f), psk, h);
      var op := Served(request, c.call).value;
      var reply := ReplyFor(FieldsOf(Encode(f)), request, NumberOf(Answer(w.store, op)), [], psk, h);
      var waiting := WaitingMessage.AfterAdd(w.table, NextId(w), c.cb, c.addedAt).0;
      var (table, got) := Replied(waiting, reply, c.gotAt);
      (World(After(w.store, op, ttl), table, NextId(w)), if got.Some? then Got(got.value) else NoAnswer)
  }

  function Replied(table: WaitingMessage.State, reply: Option<Fields>, now: int)
    : (WaitingMessage.State, Option<Client.Call>)
  {
    if reply.Some? && |reply.value.hashBytes| >= 8 && |reply.value.idBytes| >= 4 && |Encode(reply.value)| >= 82
    then Client.OnFrame(table, Encode(reply.value), now)
    else (table, None)
  }

  predicate Fits(call: ClientCall) {
    match call
    case Put(ns, key, _, _) => |ns| <= NAMESPACE_SIZE && |key| <= DATA_SIZE
    case Count(ns, key, _) => |ns| <= NAMESPACE_SIZE && |key| <= DATA_SIZE
    case CountNamespace(ns, _, _) => |ns| <= NAMESPACE_SIZE
    case CountServer(_, _, _) => true
  }

  // What the put log of trimmed names allows the callback of a call to be given.
  ghost predicate GotFits(log: Log, ttl: int, now: int, call: ClientCall, got: Client.Call) {
    match call
    case Put(_, _, _, _) => got.error == None
    case Count(ns, key, at) =>
      var n := PutLog.Count(log, Trim(ns), Trim(key), ttl, at);
      Client.CountResultOf(got) == Client.Counted(if n < 0x1_0000_0000 then n else 0xFFFF_FFFF)
    case CountNamespace(ns, _, until) =>
      var result := Client.CountResultOf(got);
      && result.Counted?
      && (PutLog.CountNs(log, Trim(ns), ttl, until) <= result.n || result.n == 0xFFFF_FFFF)
      && result.n <= PutLog.CountNs(log, Trim(ns), ttl, now)
    case CountServer(_, _, until) =>
      var result := Client.CountResultOf(got);
      && result.Counted?
      && (PutLog.CountAll(log, ttl, until) <= result.n || result.n == 0xFFFF_FFFF)
      && result.n <= PutLog.CountAll(log, ttl, now)
  }

  // What may become of a call.
  ghost predicate ResultFits(w: World, log: Log, ttl: int, c: Issued, result: Result) {
    if !Fits(c.call) then result == Refused(Client.BadSize)
    else if NextId(w) in w.table.cache then result == Refused(Client.IdExists)
    else if c.addedAt < c.gotAt - w.table.timeoutSecs then result == NoAnswer
    else result.Got? && result.call.callback == c.cb && GotFits(log, ttl, w.store.now, c.call, result.call)
  }

  // A put that is sent is stored, whether or not its reply comes in time.
  function LoggedCall(w: World, log: Log, call: ClientCall): Log {
    if call.Put? && Fits(call) && NextId(w) !in w.table.cache
    then log + [PutLog.Entry(Trim(call.ns), Trim(call.key), call.stamp)]
    else log
  }

  lemma CallFits(call: ClientCall, idBytes: Bytes, psk: Bytes, h: Hasher)
    requires |idBytes| == 4
    ensures BadOutputSize(RequestFields(call, idBytes, psk, h)) <==> !Fits(call)
  {
  }

  lemma CallArrives(call: ClientCall, idBytes: Bytes, psk: Bytes, h: Hasher)
    requires |idBytes| == 4 && Fits(call)
    ensures var frame := Encode(RequestFields(call, idBytes, psk, h));
            && |frame| == PACKET_SIZE && FieldsOf(frame).idBytes == idBytes
            && Classify(frame, psk, h) ==
               match call
               case Put(ns, key, _, _) => Request.Put(Trim(ns), Trim(key))
               case Count(ns, key, _) => Request.Count(Trim(ns), Trim(key))
               case CountNamespace(ns, _, _) => Request.CountNamespace(Trim(ns))
               case CountServer(_, _, _) => Request.CountServer
  {
    match call
    case Put(ns, key, _, _) => RequestArrives(CMD_PUT, idBytes, ns, key, psk, h);
    case Count(ns, key, _) => RequestArrives(CMD_COUNT, idBytes, ns, key, psk, h);
    case CountNamespace(ns, _, _) => RequestArrives(CMD_COUNT_NAMESPACE, idBytes, ns, [], psk, h);
    case CountServer(_, _, _) => RequestArrives(CMD_COUNT_SERVER, idBytes, [], [], psk, h);
  }

  // The store call a client call that fits leads to.
  function OpOf(call: ClientCall): Op {
    match call
    case Put(ns, key, filterTime, stamp) => Op.Put(Trim(ns), Trim(key), filterTime, stamp)
    case Count(ns, key, at) => Op.Count(Trim(ns), Trim(key), at)
    case CountNamespace(ns, visit, until) => Op.CountEntries(Trim(ns), visit, until)
    case CountServer(order, visits, until) => Op.CountServer(order, visits, until)
  }

  // A reply in time calls the callback, and one that is late drops it. Either way its entry
  // has left the table.
  lemma ReplyIsTaken(table: WaitingMessage.State, id: Uint32, cb: WaitingMessage.Callback, addedAt: int, now: int,
                     f: Fields, request: Request, answer: nat, psk: Bytes, h: Hasher)
    requires id !in table.cache && f.idBytes == Uint32ToBytes(id) && |f.ns| == NAMESPACE_SIZE
    requires request.Put? || request.Count? || request.CountNamespace? || request.CountServer?
    ensures var waiting := WaitingMessage.AfterAdd(table, id, cb, addedAt).0;
            var (after, got) := Replied(waiting, ReplyFor(f, request, answer, [], psk, h), now);
            && after.cache == table.cache && after.timeoutSecs == table.timeoutSecs
            && (got.None? <==> addedAt < now - table.timeoutSecs)
            && (got.Some? ==>
                  && got.value.callback == cb && got.value.error == None
                  && (!request.Put? ==> Client.CountResultOf(got.value) == Client.Counted(Capped(answer))))
  {
    var reply := ReplyFor(f, request, answer, [], psk, h).value;
    ReplyArrives(f, request, answer, [], psk, h);
    if !request.Put? {
      NumberArrives(f, request, answer, psk, h);
    }
    var frame := Encode(reply);
    var data := FieldsOf(frame).data;
    assert FieldsOf(frame).id == id by {
      assert FieldsOf(frame).idBytes == Uint32ToBytes(id);
    }
    hide Encode, FieldsOf, ReplyFor;
    assert data[..4][..4] == data[..4];
    var waiting := WaitingMessage.AfterAdd(table, id, cb, addedAt).0;
    assert waiting.cache - {id} == table.cache;
  }

  lemma AllowedIsFit(log: Log, ttl: int, now: int, call: ClientCall, answer: Answered, got: Client.Call)
    requires Allowed(log, ttl, now, OpOf(call), answer) && got.error == None
    requires !call.Put? ==> Client.CountResultOf(got) == Client.Counted(Capped(NumberOf(answer)))
    ensures GotFits(log, ttl, now, call, got)
  {
  }

  // A call that fits and finds its id free is served as one store call.
  lemma CallIsServed(w: World, c: Issued, psk: Bytes, h: Hasher, ttl: int)
    requires Fits(c.call) && CanCall(w, c.call, psk, h) && NextId(w) !in w.table.cache
    ensures CanRun(w.store, OpOf(c.call))
    ensures var (w', result) := AfterCall(w, c, psk, h, ttl);
            && w'.store == After(w.store, OpOf(c.call), ttl)
            && w'.table.cache == w.table.cache && w'.table.timeoutSecs == w.table.timeoutSecs
            && if c.addedAt < c.gotAt - w.table.timeoutSecs then result == NoAnswer
               else
                 && result.Got? && result.call.callback == c.cb && result.call.error == None
                 && (!c.call.Put? ==> Client.CountResultOf(result.call)
                                      == Client.Counted(Capped(NumberOf(Answer(w.store, OpOf(c.call))))))
  {
    hide Classify, Encode, FieldsOf, CanRun, After;
    hide Answer, ReplyFor, Replied, Client.CountResultOf, WillSend, Client.OnFrame;
    hide Fits, Served, OpOf, NextId, WaitingMessage.AfterAdd, FieldsFor, AfterCall, CanCall;
    FrameIsServed(w, c.call, psk, h);
    CallUnfolds(w, c, OpOf(c.call), psk, h, ttl);
    var frame, answer := Encode(FieldsFor(w, c.call, psk, h)), NumberOf(Answer(w.store, OpOf(c.call)));
    var request := Classify(frame, psk, h);
    ReplyIsTaken(w.table, NextId(w), c.cb, c.addedAt, c.gotAt, FieldsOf(frame), request, answer, psk, h);
    var reply := ReplyFor(FieldsOf(frame), request, answer, [], psk, h);
    var got := Replied(WaitingMessage.AfterAdd(w.table, NextId(w), c.cb, c.addedAt).0, reply, c.gotAt).1;
    assert AfterCall(w, c, psk, h, ttl).1 == if got.Some? then Got(got.value) else NoAnswer;
  }

  // The server makes of a call's frame the store call of the call.
  lemma FrameIsServed(w: World, call: ClientCall, psk: Bytes, h: Hasher)
    requires Fits(call) && NextId(w) !in w.table.cache
    ensures WillSend(w, call, psk, h)
    ensures var frame := Encode(FieldsFor(w, call, psk, h));
            && |frame| == PACKET_SIZE
            && FieldsOf(frame).idBytes == Uint32ToBytes(NextId(w)) && |FieldsOf(frame).ns| == NAMESPACE_SIZE
            && var request := Classify(frame, psk, h);
               && Served(request, call) == Some(OpOf(call))
               && (request.Put? || request.Count? || request.CountNamespace? || request.CountServer?)
               && (request.Put? <==> call.Put?)
  {
    var idBytes := Uint32ToBytes(NextId(w));
    CallFits(call, idBytes, psk, h);
    CallArrives(call, idBytes, psk, h);
    var frame := Encode(RequestFields(call, idBytes, psk, h));
    RequestIsServed(call, Classify(frame, psk, h));
    FrameHasNamespace(frame);
    hide Classify, Encode, FieldsOf, RequestFields, Fits, Served, OpOf, NextId, BadOutputSize;
  }

  // A call that is sent, given the store call it leads to.
  lemma CallUnfolds(w: World, c: Issued, op: Op, psk: Bytes, h: Hasher, ttl: int)
    requires WillSend(w, c.call, psk, h) && CanCall(w, c.call, psk, h)
    requires |Encode(FieldsFor(w, c.call, psk, h))| >= 82
    requires Served(Classify(Encode(FieldsFor(w, c.call, psk, h)), psk, h), c.call) == Some(op)
    ensures CanRun(w.store, op)
    ensures var frame := Encode(FieldsFor(w, c.call, psk, h));
            var reply := ReplyFor(FieldsOf(frame), Classify(frame, psk, h), NumberOf(Answer(w.store, op)), [], psk, h);
            var (table, got) := Replied(WaitingMessage.AfterAdd(w.table, NextId(w), c.cb, c.addedAt).0, reply, c.gotAt);
            AfterCall(w, c, psk, h, ttl)
            == (World(After(w.store, op, ttl), table, NextId(w)), if got.Some? then Got(got.value) else NoAnswer)
  {
    hide Classify, Encode, CanRun, After, Answer, ReplyFor, Replied;
  }

  lemma FrameHasNamespace(frame: Bytes)
    requires |frame| == PACKET_SIZE
    ensures |FieldsOf(frame).ns| == NAMESPACE_SIZE
  {
  }

  // The request a call's frame is classified as is served by the store call of the call.
  lemma RequestIsServed(call: ClientCall, request: Request)
    requires request ==
             match call
             case Put(ns, key, _, _) => Request.Put(Trim(ns), Trim(key))
             case Count(ns, key, _) => Request.Count(Trim(ns), Trim(key))
             case CountNamespace(ns, _, _) => Request.CountNamespace(Trim(ns))
             case CountServer(_, _, _) => Request.CountServer
    ensures Served(request, call) == Some(OpOf(call))
    ensures request.Put? || request.Count? || request.CountNamespace? || request.CountServer?
    ensures request.Put? <==> call.Put?
  {
  }

  lemma CallRefines(w: World, log: Log, ttl: int, c: Issued, psk: Bytes, h: Hasher)
    requires Refines(w.store.spaces, log, ttl, w.store.now) && CanCall(w, c.call, psk, h)
    ensures var (w', result) := AfterCall(w, c, psk, h, ttl);
            && Refines(w'.store.spaces, LoggedCall(w, log, c.call), ttl, w'.store.now)
            && ResultFits(w, log, ttl, c, result)
            && w'.table.cache == w.table.cache && w'.table.timeoutSecs == w.table.timeoutSecs
            && w'.counter == NextId(w)
  {
    CallFits(c.call, Uint32ToBytes(NextId(w)), psk, h);
    if Fits(c.call) && NextId(w) !in w.table.cache {
      CallIsServed(w, c, psk, h, ttl);
      hide Refines, OpOf, Allowed, After, Answer, CanRun, CanCall, GotFits, Client.CountResultOf, Encode, Classify;
      StepRefines(w.store, log, ttl, OpOf(c.call));
      assert Logged(log, OpOf(c.call)) == LoggedCall(w, log, c.call) by {
        OpIsLogged(w, log, c.call);
      }
      var result := AfterCall(w, c, psk, h, ttl).1;
      if result.Got? {
        AllowedIsFit(log, ttl, w.store.now, c.call, Answer(w.store, OpOf(c.call)), result.call);
      }
    }
  }

  lemma OpIsLogged(w: World, log: Log, call: ClientCall)
    requires Fits(call) && NextId(w) !in w.table.cache
    ensures Logged(log, OpOf(call)) == LoggedCall(w, log, call)
  {
  }

  ghost predicate Calls(w: World, calls: seq<Issued>, psk: Bytes, h: Hasher, ttl: int)
    decreases |calls|
  {
    calls == []
    || (CanCall(w, calls[0].call, psk, h) && Calls(AfterCall(w, calls[0], psk, h, ttl).0, calls[1..], psk, h, ttl))
  }

  ghost predicate AllResultsFit(w: World, log: Log, calls: seq<Issued>, psk: Bytes, h: Hasher, ttl: int)
    requires Calls(w, calls, psk, h, ttl)
    decreases |calls|
  {
    calls == []
    || (var (w', result) := AfterCall(w, calls[0], psk, h, ttl);
        ResultFits(w, log, ttl, calls[0], result) && w'.table.cache == w.table.cache
        && AllResultsFit(w', LoggedCall(w, log, calls[0].call), calls[1..], psk, h, ttl))
  }

  lemma {:induction false} CallsRefineFrom(w: World, log: Log, calls: seq<Issued>, psk: Bytes, h: Hasher, ttl: int)
    requires Calls(w, calls, psk, h, ttl) && Refines(w.store.spaces, log, ttl, w.store.now)
    ensures AllResultsFit(w, log, calls, psk, h, ttl)
    decreases |calls|
  {
    if calls != [] {
      hide Refines, ResultFits, AfterCall, CanCall, LoggedCall;
      CallRefines(w, log, ttl, calls[0], psk, h);
      var w', log' := AfterCall(w, calls[0], psk, h, ttl).0, LoggedCall(w, log, calls[0].call);
      CallsRefineFrom(w', log', calls[1..], psk, h, ttl);
    }
  }

  // Main result. Over every run of calls by a client whose reply table may hold any other
  // requests, against an empty server, every result is what the log of the trimmed names
  // allows: a name that is too long or an id that is taken is refused with no effect on the
  // server, a reply that is late calls nothing, and every other call gives its own callback
  // an answer the put log allows and leaves the table as it was.
  lemma CallsRefineLog(start: int, table: WaitingMessage.State, counter: Uint32, calls: seq<Issued>,
                       psk: Bytes, h: Hasher, ttl: int)
    requires Calls(World(State(map[], {}, start), table, counter), calls, psk, h, ttl)
    ensures AllResultsFit(World(State(map[], {}, start), table, counter), [], calls, psk, h, ttl)
  {
    EmptyRefines(ttl, start);
    CallsRefineFrom(World(State(map[], {}, start), table, counter), [], calls, psk, h, ttl);
  }

  // How many of the calls are puts of these trimmed names that fit their packet, find their
  // id free and are live at `at`. The first call's id is one more than `counter`.
  function PutsAmong(calls: seq<Issued>, counter: Uint32, taken: set<Uint32>, ns: Bytes, key: Bytes, ttl: int, at: int)
    : nat
    decreases |calls|
  {
    if calls == [] then 0
    else
      var call, id := calls[0].call, (counter + 1) % 0x1_0000_0000;
      PutLog.One(call.Put? && |call.ns| <= NAMESPACE_SIZE && |call.key| <= DATA_SIZE && id !in taken
                 && Trim(call.ns) == ns && Trim(call.key) == key && call.stamp + ttl > at)
      + PutsAmong(calls[1..], id, taken, ns, key, ttl, at)
  }

  ghost function AfterCalls(w: World, calls: seq<Issued>, psk: Bytes, h: Hasher, ttl: int): World
    requires Calls(w, calls, psk, h, ttl)
    decreases |calls|
  {
    if calls == [] then w else AfterCalls(AfterCall(w, calls[0], psk, h, ttl).0, calls[1..], psk, h, ttl)
  }

  lemma CallIsCounted(w: World, log: Log, call: ClientCall, ns: Bytes, key: Bytes, ttl: int, at: int)
    ensures PutLog.Count(LoggedCall(w, log, call), ns, key, ttl, at)
         == PutLog.Count(log, ns, key, ttl, at)
            + PutLog.One(call.Put? && |call.ns| <= NAMESPACE_SIZE && |call.key| <= DATA_SIZE
                         && (w.counter + 1) % 0x1_0000_0000 !in w.table.cache.Keys
                         && Trim(call.ns) == ns && Trim(call.key) == key && call.stamp + ttl > at)
  {
    if call.Put? && Fits(call) && NextId(w) !in w.table.cache {
      LogSnoc(log, PutLog.Entry(Trim(call.ns), Trim(call.key), call.stamp), ns, key, ttl, at);
    }
  }

  lemma {:induction false} CallsKeepCount(w: World, log: Log, calls: seq<Issued>, psk: Bytes, h: Hasher, ttl: int,
                                          ns: Bytes, key: Bytes, at: int) returns (log': Log)
    requires Calls(w, calls, psk, h, ttl) && Refines(w.store.spaces, log, ttl, w.store.now)
    ensures var w' := AfterCalls(w, calls, psk, h, ttl);
            && Refines(w'.store.spaces, log', ttl, w'.store.now)
            && w'.table.cache == w.table.cache && w'.table.timeoutSecs == w.table.timeoutSecs
    ensures PutLog.Count(log', ns, key, ttl, at)
         == PutLog.Count(log, ns, key, ttl, at) + PutsAmong(calls, w.counter, w.table.cache.Keys, ns, key, ttl, at)
    decreases |calls|
  {
    hide *;
    log' := log;
    if calls == [] {
      NothingAfterCalls(w, psk, h, ttl, ns, key, at);
    } else {
      FirstCall(w, calls, psk, h, ttl, ns, key, at);
      CallRefines(w, log, ttl, calls[0], psk, h);
      CallIsCounted(w, log, calls[0].call, ns, key, ttl, at);
      var w1 := AfterCall(w, calls[0], psk, h, ttl).0;
      log' := CallsKeepCount(w1, LoggedCall(w, log, calls[0].call), calls[1..], psk, h, ttl, ns, key, at);
    }
  }

  lemma NothingAfterCalls(w: World, psk: Bytes, h: Hasher, ttl: int, ns: Bytes, key: Bytes, at: int)
    ensures Calls(w, [], psk, h, ttl) && AfterCalls(w, [], psk, h, ttl) == w
    ensures PutsAmong([], w.counter, w.table.cache.Keys, ns, key, ttl, at) == 0
  {
  }

  // The first of a run of calls, and the rest.
  lemma FirstCall(w: World, calls: seq<Issued>, psk: Bytes, h: Hasher, ttl: int, ns: Bytes, key: Bytes, at: int)
    requires calls != [] && Calls(w, calls, psk, h, ttl)
    ensures CanCall(w, calls[0].call, psk, h)
    ensures var w1 := AfterCall(w, calls[0], psk, h, ttl).0;
            && Calls(w1, calls[1..], psk, h, ttl)
            && AfterCalls(w, calls, psk, h, ttl) == AfterCalls(w1, calls[1..], psk, h, ttl)
    ensures var call := calls[0].call;
            PutsAmong(calls, w.counter, w.table.cache.Keys, ns, key, ttl, at)
            == PutLog.One(call.Put? && |call.ns| <= NAMESPACE_SIZE && |call.key| <= DATA_SIZE
                          && (w.counter + 1) % 0x1_0000_0000 !in w.table.cache.Keys
                          && Trim(call.ns) == ns && Trim(call.key) == key && call.stamp + ttl > at)
               + PutsAmong(calls[1..], NextId(w), w.table.cache.Keys, ns, key, ttl, at)
  {
    hide CanCall, AfterCall, Trim;
  }

  // Main result, with the log taken out. After any run of calls against an empty server, a
  // count that fits, finds its id free and is answered in time gives its callback the number
  // of puts among the calls of the same trimmed names that were sent and are live.
  lemma CallsCountPuts(start: int, table: WaitingMessage.State, counter: Uint32, calls: seq<Issued>, c: Issued,
                       psk: Bytes, h: Hasher, ttl: int)
    requires Calls(World(State(map[], {}, start), table, counter), calls, psk, h, ttl)
    requires var w := AfterCalls(World(State(map[], {}, start), table, counter), calls, psk, h, ttl);
             CanCall(w, c.call, psk, h) && NextId(w) !in table.cache
    requires c.call.Count? && |c.call.ns| <= NAMESPACE_SIZE && |c.call.key| <= DATA_SIZE
    requires c.gotAt - c.addedAt <= table.timeoutSecs
    ensures var w := AfterCalls(World(State(map[], {}, start), table, counter), calls, psk, h, ttl);
            var result := AfterCall(w, c, psk, h, ttl).1;
            var n := PutsAmong(calls, counter, table.cache.Keys, Trim(c.call.ns), Trim(c.call.key), ttl, c.call.at);
            && result.Got? && result.call.callback == c.cb
            && Client.CountResultOf(result.call) == Client.Counted(if n < 0x1_0000_0000 then n else 0xFFFF_FFFF)
  {
    EmptyRefines(ttl, start);
    var first := World(State(map[], {}, start), table, counter);
    var ns, key := Trim(c.call.ns), Trim(c.call.key);
    var log := CallsKeepCount(first, [], calls, psk, h, ttl, ns, key, c.call.at);
    hide Refines, AfterCall, CanCall, AfterCalls, Calls, Trim, Client.CountResultOf;
    CallRefines(AfterCalls(first, calls, psk, h, ttl), log, ttl, c, psk, h);
  }

  // ---- Requests the server cannot use ----

  // What the server complains of, in the order in which the frame is looked at: an unknown
  // command, a missing space, its size, the hash, or a command that no branch of the worker serves.
  // The second space is reported as the first, and the fourth as the third.
  function Complaint(buf: Bytes, psk: Bytes, h: Hasher): Option<string>
    requires |buf| >= PACKET_SIZE
  {
    if buf[0] !in {67, 80, 82, 78, 83, 75, 86, 84, 73, 76, 69} then Some("bad packet: invalid command byte")
    else if buf[1] != 32 || buf[10] != 32 then Some("bad packet: expected space 1")
    else if buf[15] != 32 || buf[80] != 32 then Some("bad packet: expected space 3")
    else if |buf| > PACKET_SIZE && buf[0] !in {75, 86, 84, 73, 76} then
      Some("bad packet: too large, size must be 1500 bytes")
    else if buf[2..10] != h(psk + buf[11..15] + buf[16..80] + buf[81..PACKET_SIZE])[..8] then
      Some("auth failed: packet hash invalid")
    else if buf[0] in {86, 84, 73, 69} then Some("unknown_command_" + [buf[0] as char])
    else None
  }

  lemma WhyRefused(buf: Bytes, psk: Bytes, h: Hasher)
    requires |buf| >= PACKET_SIZE
    ensures var request := Classify(buf, psk, h);
            if buf[0] !in {67, 80, 82, 78, 83, 75, 86, 84, 73, 76, 69} then request == Rejected(InvalidCommandByte)
            else if buf[1] != 32 || buf[10] != 32 then
              request in {Rejected(ExpectedSpace(1)), Rejected(ExpectedSpace(10))}
            else if buf[15] != 32 || buf[80] != 32 then
              request in {Rejected(ExpectedSpace(15)), Rejected(ExpectedSpace(80))}
            else if |buf| > PACKET_SIZE && buf[0] !in {75, 86, 84, 73, 76} then request == Rejected(TooLarge)
            else if buf[2..10] != h(psk + buf[11..15] + buf[16..80] + buf[81..PACKET_SIZE])[..8] then
              request == Rejected(BadHash)
            else if buf[0] in {86, 84, 73, 69} then request == Unknown(buf[0])
            else !request.Rejected? && !request.Unknown?
  {
    ValidatesIff(buf, psk, h);
    hide Validates;
  }

  lemma ComplaintIsMade(buf: Bytes, psk: Bytes, h: Hasher)
    requires |buf| >= PACKET_SIZE
    ensures var request := Classify(buf, psk, h);
            match Complaint(buf, psk, h)
            case None => !request.Rejected? && !request.Unknown?
            case Some(text) =>
              && (request.Rejected? || request.Unknown?)
              && Ascii(text) == if request.Rejected? then ErrorText(request.error)
                                else Ascii("unknown_command_") + [request.command]
  {
    WhyRefused(buf, psk, h);
    hide Classify, Ascii;
    var c := buf[0];
    assert Ascii("unknown_command_" + [c as char]) == Ascii("unknown_command_") + [c];
  }

  // One line of one-byte characters, without white space at its ends.
  predicate Printable(s: string) {
    1 < |s| <= 64 && s[0] > ' ' && s[|s| - 1] > ' ' && OneLine(s)
  }

  predicate OneLine(s: string) {
    forall i | 0 <= i < |s| :: s[i] != '\n' && s[i] as int < 0x100
  }

  lemma CommandTextIsPrintable()
    ensures Printable("bad packet: invalid command byte")
  {
  }

  lemma SpaceTextsArePrintable()
    ensures Printable("bad packet: expected space 1") && Printable("bad packet: expected space 3")
  {
  }

  lemma SizeTextIsPrintable()
    ensures Printable("bad packet: too large, size must be 1500 bytes")
  {
    var a, b := "bad packet: too large, ", "size must be 1500 bytes";
    assert a[0] > ' ' && b[|b| - 1] > ' ' && OneLine(a) && OneLine(b) && |a| + |b| <= 64 && b != [];
    assert "bad packet: too large, size must be 1500 bytes" == a + b;
    hide OneLine, Printable;
    BothArePrintable(a, b);
  }

  lemma HashTextIsPrintable()
    ensures Printable("auth failed: packet hash invalid")
  {
  }

  lemma UnknownTextIsPrintable(c: char)
    requires c in {'V', 'T', 'I', 'E'}
    ensures Printable("unknown_command_" + [c])
  {
    BothArePrintable("unknown_command_", [c]);
  }

  lemma BothArePrintable(a: string, b: string)
    requires a != [] && b != [] && |a| + |b| <= 64 && a[0] > ' ' && b[|b| - 1] > ' ' && OneLine(a) && OneLine(b)
    ensures Printable(a + b)
  {
  }

  lemma ComplaintIsPrintable(buf: Bytes, psk: Bytes, h: Hasher)
    requires |buf| >= PACKET_SIZE && Complaint(buf, psk, h).Some?
    ensures Printable(Complaint(buf, psk, h).value)
  {
    CommandTextIsPrintable();
    SpaceTextsArePrintable();
    SizeTextIsPrintable();
    HashTextIsPrintable();
    hide Printable;
    if buf[0] in {86, 84, 73, 69} {
      UnknownTextIsPrintable(buf[0] as char);
    }
  }

  lemma PrintableIsCarried(s: string)
    requires Printable(s)
    ensures var text := Ascii(s);
            |text| <= DATA_SIZE && Trim(text) == text && Carriable(text)
  {
    var text := Ascii(s);
    assert forall i | 0 <= i < |s| :: text[i] as int == s[i] as int;
    TrimOfTidy(text);
  }

  // The reply to a request the server cannot use.
  lemma ComplaintIsSent(buf: Bytes, answer: nat, names: seq<Bytes>, psk: Bytes, h: Hasher)
    requires |buf| >= PACKET_SIZE && Complaint(buf, psk, h).Some?
    ensures ReplyFor(FieldsOf(buf), Classify(buf, psk, h), answer, names, psk, h)
         == Some(PacketOf(RES_ERROR, buf[11..15], buf[16..80], Ascii(Complaint(buf, psk, h).value), psk, h))
  {
    ComplaintIsMade(buf, psk, h);
    hide Classify, Complaint, PacketOf, ErrorText, Ascii;
  }

  // Main result. A request the server cannot use calls its callback with the complaint as
  // its error, and a count that was refused gives that error and no number.
  lemma ComplaintEndToEnd(buf: Bytes, answer: nat, names: seq<Bytes>, psk: Bytes, h: Hasher,
                          table: WaitingMessage.State, now: int)
    requires |buf| >= PACKET_SIZE && Complaint(buf, psk, h).Some?
    requires Uint32FromBytes(buf[11..15]) in table.cache
    requires !WaitingMessage.Expired(table.cache[Uint32FromBytes(buf[11..15])], now, table.timeoutSecs)
    ensures var reply := ReplyFor(FieldsOf(buf), Classify(buf, psk, h), answer, names, psk, h);
            && reply.Some? && |reply.value.hashBytes| >= 8 && |reply.value.idBytes| >= 4
            && |Encode(reply.value)| == PACKET_SIZE
            && var error := Client.Remote(Ascii(Complaint(buf, psk, h).value));
            && var call := Client.Call(table.cache[Uint32FromBytes(buf[11..15])].callback, [], Some(error));
            && Client.OnFrame(table, Encode(reply.value), now).1 == Some(call)
            && Client.CountResultOf(call) == Client.Failed(error)
  {
    ComplaintIsSent(buf, answer, names, psk, h);
    ComplaintIsPrintable(buf, psk, h);
    PrintableIsCarried(Complaint(buf, psk, h).value);
    var text := Ascii(Complaint(buf, psk, h).value);
    ErrorArrives(buf[11..15], buf[16..80], text, psk, h);
    hide Encode, FieldsOf, Classify, Complaint, Trim, Ascii;
  }

  // A printed error, as the client parses it.
  lemma ErrorArrives(idBytes: Bytes, ns: Bytes, text: Bytes, psk: Bytes, h: Hasher)
    requires |idBytes| == 4 && |ns| <= NAMESPACE_SIZE && |text| <= DATA_SIZE
    ensures var frame := Encode(PacketOf(RES_ERROR, idBytes, ns, text, psk, h));
            && |frame| == PACKET_SIZE && FrameError(frame) == None
            && FieldsOf(frame).command == RES_ERROR && FieldsOf(frame).id == Uint32FromBytes(idBytes)
            && Trim(FieldsOf(frame).data) == Trim(text)
  {
    PrintedFrameParses(RES_ERROR, idBytes, ns, text, psk, h);
  }

  // A frame printed with one key is complained of by a server with another exactly when the
  // two digests differ in their first eight bytes.
  lemma WrongKeyIsToldTo(command: byte, idBytes: Bytes, ns: Bytes, data: Bytes, mine: Bytes, theirs: Bytes, h: Hasher)
    requires |idBytes| == 4 && |ns| <= NAMESPACE_SIZE && |data| <= DATA_SIZE && IsKnownCmd(command)
    ensures var frame := Encode(PacketOf(command, idBytes, ns, data, mine, h));
            var said := idBytes + Padded(ns, NAMESPACE_SIZE) + Padded(data, DATA_SIZE);
            && |frame| == PACKET_SIZE && frame[11..15] == idBytes
            && (Complaint(frame, theirs, h) == Some("auth failed: packet hash invalid")
                <==> h(mine + said)[..8] != h(theirs + said)[..8])
  {
    var frame := Encode(PacketOf(command, idBytes, ns, data, mine, h));
    PrintedFrameSays(command, idBytes, ns, data, mine, h);
    var said := idBytes + Padded(ns, NAMESPACE_SIZE) + Padded(data, DATA_SIZE);
    hide Encode, PacketOf, Padded;
    assert theirs + frame[11..15] + frame[16..80] + frame[81..PACKET_SIZE] == theirs + said;
    assert [frame[0] as char] == [frame[0] as char][..1];
  }

  // Main result. The call of a client with another key than the server's fails with the
  // server's complaint about the hash, and a count gives no number, when the two digests
  // differ in their first eight bytes.
  lemma WrongKeyEndToEnd(command: byte, idBytes: Bytes, ns: Bytes, data: Bytes, mine: Bytes, theirs: Bytes, h: Hasher,
                         table: WaitingMessage.State, now: int)
    requires |idBytes| == 4 && |ns| <= NAMESPACE_SIZE && |data| <= DATA_SIZE && IsKnownCmd(command)
    requires var said := idBytes + Padded(ns, NAMESPACE_SIZE) + Padded(data, DATA_SIZE);
             h(mine + said)[..8] != h(theirs + said)[..8]
    requires Uint32FromBytes(idBytes) in table.cache
    requires !WaitingMessage.Expired(table.cache[Uint32FromBytes(idBytes)], now, table.timeoutSecs)
    ensures var frame := Encode(PacketOf(command, idBytes, ns, data, mine, h));
            && |frame| == PACKET_SIZE
            && var reply := ReplyFor(FieldsOf(frame), Classify(frame, theirs, h), 0, [], theirs, h);
            && reply.Some? && |reply.value.hashBytes| >= 8 && |reply.value.idBytes| >= 4
            && |Encode(reply.value)| == PACKET_SIZE
            && var error := Client.Remote(Ascii("auth failed: packet hash invalid"));
            && var call := Client.Call(table.cache[Uint32FromBytes(idBytes)].callback, [], Some(error));
            && Client.OnFrame(table, Encode(reply.value), now).1 == Some(call)
            && Client.CountResultOf(call) == Client.Failed(error)
  {
    WrongKeyIsToldTo(command, idBytes, ns, data, mine, theirs, h);
    var frame := Encode(PacketOf(command, idBytes, ns, data, mine, h));
    hide Complaint, Ascii, Encode, FieldsOf, Classify, ReplyFor, Client.OnFrame, PacketOf, Padded, Uint32FromBytes;
    ComplaintEndToEnd(frame, 0, [], theirs, h, table, now);
  }

  // Over TCP the client does not look at the command of a reply: the complaint about a
  // KeyMatch or ListNamespaces comes back as a list of one name, without an error.
  lemma ComplaintIsTakenForAKey(buf: Bytes, answer: nat, names: seq<Bytes>, psk: Bytes, h: Hasher, tail: Bytes)
    requires |buf| >= PACKET_SIZE && Complaint(buf, psk, h).Some?
    ensures var reply := ReplyFor(FieldsOf(buf), Classify(buf, psk, h), answer, names, psk, h);
            && reply.Some? && |reply.value.hashBytes| >= 8 && |reply.value.idBytes| >= 4
            && |Encode(reply.value)| == PACKET_SIZE
            && (HeadIsClear(Encode(reply.value)) ==>
                  var text := Ascii(Complaint(buf, psk, h).value);
                  && ClientKeys(Written(reply.value) + tail) == Some([text])
                  && ClientNamespaces(Written(reply.value) + tail) == Some([text]))
  {
    ComplaintIsSent(buf, answer, names, psk, h);
    ComplaintIsPrintable(buf, psk, h);
    PrintableIsCarried(Complaint(buf, psk, h).value);
    hide Encode, FieldsOf, Classify, Complaint, Trim, Ascii, ReplyFor, HeadIsClear, ClientKeys, ClientNamespaces;
    var text := Ascii(Complaint(buf, psk, h).value);
    ErrorComesBackAsKey(buf[11..15], buf[16..80], text, psk, h, tail);
  }

  // ---- KeyMatch over TCP ----

  // The store call of a KeyMatch, given the readings the server makes.
  function KeyOp(matches: (Bytes, Bytes) -> bool, ns: Bytes, pattern: Bytes, all: seq<Bytes>, times: seq<int>,
                 until: int): Op {
    Op.KeyMatch(Trim(ns), k => matches(Trim(pattern), k), all, times, until)
  }

  lemma KeysRequestArrives(idBytes: Bytes, ns: Bytes, pattern: Bytes, psk: Bytes, h: Hasher, tail: Bytes)
    requires |idBytes| == 4 && |ns| <= NAMESPACE_SIZE && |pattern| <= DATA_SIZE
    ensures var f := PacketOf(CMD_TCP_KEYS, idBytes, ns, pattern, psk, h);
            && |Encode(f)| == PACKET_SIZE
            && Classify(Encode(f), psk, h) == Keys(Trim(ns), Trim(pattern))
            && FieldsOf(Encode(f)).idBytes == idBytes && |FieldsOf(Encode(f)).ns| == NAMESPACE_SIZE
            && (Transportable(Encode(f)) ==> Received(Written(f) + tail) == Delivered(Encode(f)))
  {
    PrintedFrameParses(CMD_TCP_KEYS, idBytes, ns, pattern, psk, h);
    TcpRequestArrives(CMD_TCP_KEYS, idBytes, ns, pattern, psk, h, tail);
  }

  // What the client gets of the reply to a KeyMatch frame: the very list, exactly when it
  // survives the way back.
  ghost predicate ReplyReaches(frame: Bytes, names: seq<Bytes>, psk: Bytes, h: Hasher, tail: Bytes)
    requires |frame| == PACKET_SIZE && Classify(frame, psk, h).Keys?
  {
    var f := FieldsOf(frame);
    var got := ClientKeys(Written(ReplyFor(f, Classify(frame, psk, h), 0, names, psk, h).value) + tail);
    var clear := HeadIsClear(ListFrame(f.idBytes, f.ns, names, psk, h));
    && (names != [] ==> (got == Some(names) <==> clear && Survives(names)))
    && (names == [] && clear ==> got == Some([]))
  }

  lemma KeysReplyIs(f: Fields, request: Request, names: seq<Bytes>, psk: Bytes, h: Hasher)
    requires |f.idBytes| == 4 && request.Keys?
    ensures ReplyFor(f, request, 0, names, psk, h)
         == Some(PacketOf(CMD_TCP_KEYS, f.idBytes, f.ns, Join(names), psk, h))
  {
  }

  lemma KeysReplyArrives(frame: Bytes, names: seq<Bytes>, psk: Bytes, h: Hasher, tail: Bytes)
    requires |frame| == PACKET_SIZE && Classify(frame, psk, h).Keys?
    ensures ReplyReaches(frame, names, psk, h, tail)
  {
    var f, request := FieldsOf(frame), Classify(frame, psk, h);
    assert |f.idBytes| == 4 && |f.ns| == NAMESPACE_SIZE;
    hide FieldsOf, ClientKeys, Written, HeadIsClear, Survives, Classify, ReplyFor, PacketOf, ListFrame, Join;
    KeysReplyIs(f, request, names, psk, h);
    if names != [] {
      KeyListSurvivesIff(f.idBytes, f.ns, names, psk, h, tail);
    } else if HeadIsClear(ListFrame(f.idBytes, f.ns, names, psk, h)) {
      EmptyListReturns(f.idBytes, f.ns, psk, h, tail);
    }
  }

  // Main result. A KeyMatch whose request frame is transportable is answered with keys the
  // put log allows: matching, live when the server starts and including all that are live
  // when it ends, in order. The client gets that very list exactly when it survives the
  // way back.
  lemma KeyMatchEndToEnd(s: State, log: Log, ttl: int, matches: (Bytes, Bytes) -> bool, all: seq<Bytes>,
                         times: seq<int>, until: int, idBytes: Bytes, ns: Bytes, pattern: Bytes,
                         psk: Bytes, h: Hasher, tail: Bytes, replyTail: Bytes)
    requires Refines(s.spaces, log, ttl, s.now) && CanRun(s, KeyOp(matches, ns, pattern, all, times, until))
    requires |idBytes| == 4 && |ns| <= NAMESPACE_SIZE && |pattern| <= DATA_SIZE
    requires Transportable(Encode(PacketOf(CMD_TCP_KEYS, idBytes, ns, pattern, psk, h)))
    ensures var f := PacketOf(CMD_TCP_KEYS, idBytes, ns, pattern, psk, h);
            var answer := Answer(s, KeyOp(matches, ns, pattern, all, times, until));
            && Received(Written(f) + tail) == Delivered(Encode(f))
            && |Encode(f)| == PACKET_SIZE && Classify(Encode(f), psk, h) == Keys(Trim(ns), Trim(pattern))
            && answer.Names? && Ascending(answer.names)
            && (forall k | k in answer.names ::
                  matches(Trim(pattern), k) && PutLog.Count(log, Trim(ns), k, ttl, s.now) > 0)
            && (forall k | matches(Trim(pattern), k) && PutLog.Count(log, Trim(ns), k, ttl, until) > 0 ::
                  k in answer.names)
            && ReplyReaches(Encode(f), answer.names, psk, h, replyTail)
  {
    hide Encode, FieldsOf, Classify, ReplyFor, Refines, CanRun, Transportable, Received, ReplyReaches, Trim;
    var f := PacketOf(CMD_TCP_KEYS, idBytes, ns, pattern, psk, h);
    var op := KeyOp(matches, ns, pattern, all, times, until);
    KeysRequestArrives(idBytes, ns, pattern, psk, h, tail);
    StepRefines(s, log, ttl, op);
    KeysReplyArrives(Encode(f), Answer(s, op).names, psk, h, replyTail);
  }

  // ---- ListNamespaces over TCP ----

  lemma NamespacesRequestArrives(idBytes: Bytes, ns: Bytes, psk: Bytes, h: Hasher, tail: Bytes)
    requires |idBytes| == 4 && |ns| <= NAMESPACE_SIZE
    ensures var f := PacketOf(CMD_TCP_NAMESPACES, idBytes, ns, [], psk, h);
            && |Encode(f)| == PACKET_SIZE
            && Classify(Encode(f), psk, h) == Namespaces
            && FieldsOf(Encode(f)).idBytes == idBytes && |FieldsOf(Encode(f)).ns| == NAMESPACE_SIZE
            && (Transportable(Encode(f)) ==> Received(Written(f) + tail) == Delivered(Encode(f)))
  {
    hide Transportable, Received, Written;
    PrintedFrameParses(CMD_TCP_NAMESPACES, idBytes, ns, [], psk, h);
    TcpRequestArrives(CMD_TCP_NAMESPACES, idBytes, ns, [], psk, h, tail);
    hide Encode, Validates, Travelled;
  }

  lemma NamespacesReplyIs(f: Fields, names: seq<Bytes>, psk: Bytes, h: Hasher)
    requires |f.idBytes| == 4
    ensures ReplyFor(f, Namespaces, 0, names, psk, h)
         == Some(PacketOf(CMD_TCP_NAMESPACES, f.idBytes, f.ns, Join(names), psk, h))
  {
  }

  // Main result. A ListNamespaces whose request frame is transportable is answered, after a
  // cleanup, with each namespace left: only ones somebody put to, and all with a live put.
  // The client gets that very list exactly when it survives the way back, and one empty
  // name for an empty list.
  lemma NamespacesEndToEnd(s: State, log: Log, ttl: int, order: seq<Bytes>, visits: map<Bytes, Visit>,
                           left: seq<Bytes>, until: int, idBytes: Bytes, psk: Bytes, h: Hasher, tail: Bytes,
                           replyTail: Bytes)
    requires Refines(s.spaces, log, ttl, s.now) && CanRun(s, Op.Cleanup(order, visits, left, until))
    requires |idBytes| == 4 && Transportable(Encode(PacketOf(CMD_TCP_NAMESPACES, idBytes, [], [], psk, h)))
    ensures var f := PacketOf(CMD_TCP_NAMESPACES, idBytes, [], [], psk, h);
            && Received(Written(f) + tail) == Delivered(Encode(f))
            && |Encode(f)| == PACKET_SIZE && Classify(Encode(f), psk, h) == Namespaces
            && Answer(s, Op.Cleanup(order, visits, left, until)) == Names(left)
            && Distinct(left)
            && (forall ns | ns in left :: exists i :: 0 <= i < |log| && log[i].ns == ns)
            && (forall i | 0 <= i < |log| && log[i].stamp + ttl > until :: log[i].ns in left)
            && NamespacesReach(FieldsOf(Encode(f)), left, psk, h, replyTail)
  {
    hide Encode, FieldsOf, Classify, ReplyFor, Refines, CanRun, Transportable, Received, NamespacesReach, NamespacesFit;
    NamespacesRequestArrives(idBytes, [], psk, h, tail);
    StepRefines(s, log, ttl, Op.Cleanup(order, visits, left, until));
    NamespacesFitIs(log, ttl, left, until);
    NamespacesReplyArrives(FieldsOf(Encode(PacketOf(CMD_TCP_NAMESPACES, idBytes, [], [], psk, h))), left, psk, h,
                           replyTail);
  }

  // What the client gets of the reply to a ListNamespaces.
  ghost predicate NamespacesReach(f: Fields, names: seq<Bytes>, psk: Bytes, h: Hasher, tail: Bytes)
    requires |f.idBytes| == 4
  {
    var reply := ReplyFor(f, Namespaces, 0, names, psk, h).value;
    && |Encode(reply)| >= PACKET_SIZE
    && var got := ClientNamespaces(Written(reply) + tail);
    && (names != [] && names[0] != [] ==> (got == Some(names) <==> HeadIsClear(Encode(reply)) && Survives(names)))
    && (names == [] && HeadIsClear(Encode(reply)) ==> got == Some([[]]))
  }

  lemma NamespacesReplyArrives(f: Fields, names: seq<Bytes>, psk: Bytes, h: Hasher, tail: Bytes)
    requires |f.idBytes| == 4 && |f.ns| == NAMESPACE_SIZE
    ensures NamespacesReach(f, names, psk, h, tail)
  {
    NamespacesReplyIs(f, names, psk, h);
    hide Encode, ClientNamespaces, Written, HeadIsClear, Survives, ReplyFor, Join;
    if names == [] {
      NoNamespacesIsOneEmptyName(f.idBytes, f.ns, psk, h, tail);
    } else if names[0] != [] {
      NamespaceListSurvivesIff(f.idBytes, f.ns, names, psk, h, tail);
    } else {
      assert |Encode(PacketOf(CMD_TCP_NAMESPACES, f.idBytes, f.ns, Join(names), psk, h))| >= PACKET_SIZE by {
        PrintedLayout(PacketOf(CMD_TCP_NAMESPACES, f.idBytes, f.ns, Join(names), psk, h));
      }
    }
  }
}

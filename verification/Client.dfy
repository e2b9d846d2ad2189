// client/client.go: request ids, sending over UDP, and what a received frame does.

module Client {
  import opened ByteStrings
  import opened Wrappers
  import opened WallClock
  import opened Protocol
  import opened WaitingMessage
  import PutLog

  datatype CallError = BadSize | IdExists | WriteFailed | TimedOut | Remote(text: Bytes)

  // One invocation of a callback.
  datatype Call = Call(callback: Callback, data: Bytes, error: Option<CallError>)

  // What one received frame does: the table afterwards, and the callback invoked, if any.
  function OnFrame(table: State, frame: Bytes, now: int): (State, Option<Call>)
    requires |frame| >= 82
  {
    var f := FieldsOf(frame);
    if FrameError(frame).Some? && f.id == 0 then (table, None)
    else
      var (after, pulled) := AfterPull(table, f.id, now);
      if !pulled.Found? || !IsResponseCmd(f.command) then (after, None)
      else if f.command == RES_ERROR then (after, Some(Call(pulled.callback, [], Some(Remote(Trim(f.data))))))
      else if f.command == CMD_PUT_REPLICATE then (after, None)
      else (after, Some(Call(pulled.callback, f.data, None)))
  }

  // A received frame calls a callback exactly when it parses or at least has an id, its entry
  // is in the table and has not expired, and it is an acknowledgement, a number or an error.
  // An error is passed on as its text and everything else as its data. Whatever it is, the
  // entry leaves the table.
  lemma FrameCallsIff(table: State, frame: Bytes, now: int)
    requires |frame| == PACKET_SIZE
    ensures var id := Uint32FromBytes(frame[11..15]);
            var heard := FrameError(frame) == None || id != 0;
            var (after, call) := OnFrame(table, frame, now);
            && (call.Some? <==> heard && id in table.cache && table.cache[id].createdSecs >= now - table.timeoutSecs
                                && frame[0] in {67, 80, 78, 83, 69})
            && (call.Some? ==> call.value.callback == table.cache[id].callback)
            && (call.Some? && frame[0] == 69 ==>
                  call.value.data == [] && call.value.error == Some(Remote(Trim(frame[81..]))))
            && (call.Some? && frame[0] != 69 ==> call.value.data == frame[81..] && call.value.error == None)
            && after.cache == if heard then table.cache - {id} else table.cache
  {
    hide FrameError, Trim;
    assert FieldsOf(frame).data == frame[81..];
    var id := Uint32FromBytes(frame[11..15]);
    assert id !in table.cache ==> table.cache - {id} == table.cache;
  }

  // A run of received frames: the table afterwards, and the callbacks invoked in order.
  function OnFrames(table: State, frames: seq<Bytes>, times: seq<int>): (State, seq<Call>)
    requires |frames| == |times| && forall i | 0 <= i < |frames| :: |frames[i]| >= 82
  {
    if frames == [] then (table, [])
    else
      var last := |frames| - 1;
      var (before, calls) := OnFrames(table, frames[..last], times[..last]);
      var (after, call) := OnFrame(before, frames[last], times[last]);
      (after, if call.Some? then calls + [call.value] else calls)
  }

  lemma NoFrames(table: State)
    ensures OnFrames(table, [], []) == (table, [])
  {
  }

  lemma OnFramesSnoc(table: State, frames: seq<Bytes>, times: seq<int>, frame: Bytes, now: int)
    requires |frames| == |times| && (forall i | 0 <= i < |frames| :: |frames[i]| >= 82) && |frame| >= 82
    ensures var (before, calls) := OnFrames(table, frames, times);
            var (after, call) := OnFrame(before, frame, now);
            OnFrames(table, frames + [frame], times + [now])
            == (after, if call.Some? then calls + [call.value] else calls)
  {
    assert (frames + [frame])[..|frames|] == frames && (times + [now])[..|times|] == times;
  }

  lemma NothingRan(table: State)
    ensures Run(table, []) && Final(table, []) == table
  {
  }

  lemma DisposeRuns(table: State)
    ensures CanRun(table, Op.Dispose) && After(table, Op.Dispose) == AfterDispose(table)
  {
  }

  lemma PassRuns(table: State, visited: seq<Uint32>, sends: nat, now: int)
    requires !table.disposed ==> PassOf(table, visited, sends, now)
    ensures CanRun(table, Pass(visited, now, sends))
    ensures After(table, Pass(visited, now, sends))
         == if table.disposed then table else AfterPass(table, visited, now, sends)
  {
  }

  // Whatever the channel carries for a request's ticket is the request's callback.
  lemma SentIsAdded(table: State, id: Uint32, cb: Callback, added: int, ops: seq<Op>, now: int)
    requires LedgerOk(table) && id !in table.cache && Run(AfterAdd(table, id, cb, added).0, ops)
    ensures var after := AfterPull(Final(AfterAdd(table, id, cb, added).0, ops), id, now).0;
            && LedgerOk(after)
            && forall i | 0 <= i < |after.sent| ::
                 after.sent[i].ticket == |table.fates| ==> after.sent[i].callback == cb
  {
    AddKeepsLedger(table, id, cb, added);
    LedgerBalances(AfterAdd(table, id, cb, added).0, ops, |table.fates|);
    var mid := Final(AfterAdd(table, id, cb, added).0, ops);
    PullKeepsLedger(mid, id, now);
    var after := AfterPull(mid, id, now).0;
    assert forall i | 0 <= i < |after.sent| :: SentOk(after, after.sent[i]);
  }

  // ---- Calls of one callback ----

  // What `handleTimeouts` does with what the channel carries.
  function TimedOutCalls(sent: seq<Sent>): seq<Call> {
    if sent == [] then []
    else TimedOutCalls(sent[..|sent| - 1]) + [Call(sent[|sent| - 1].callback, [], Some(CallError.TimedOut))]
  }

  function CallsOf(calls: seq<Call>, cb: Callback): nat {
    if calls == [] then 0
    else CallsOf(calls[..|calls| - 1], cb) + PutLog.One(calls[|calls| - 1].callback == cb)
  }

  lemma CallsOfSnoc(calls: seq<Call>, call: Call, cb: Callback)
    ensures CallsOf(calls + [call], cb) == CallsOf(calls, cb) + PutLog.One(call.callback == cb)
  {
    assert (calls + [call])[..|calls|] == calls;
  }

  // A callback that one Add alone has given is called for a timeout as often as the
  // channel carries its ticket.
  lemma {:induction false} TimeoutsOfOne(s: State, sent: seq<Sent>, t: nat, cb: Callback)
    requires forall i | 0 <= i < |sent| :: SentOk(s, sent[i])
    requires forall u | 0 <= u < |s.added| :: s.added[u] == cb <==> u == t
    ensures CallsOf(TimedOutCalls(sent), cb) == SendsOf(sent, t)
  {
    if sent != [] {
      var front, last := sent[..|sent| - 1], sent[|sent| - 1];
      assert SentOk(s, last);
      TimeoutsOfOne(s, front, t, cb);
      CallsOfSnoc(TimedOutCalls(front), Call(last.callback, [], Some(CallError.TimedOut)), cb);
    }
  }

  // No Add of `ops` gives `cb`.
  predicate NoneAdds(ops: seq<Op>, cb: Callback) {
    forall i | 0 <= i < |ops| :: ops[i].Add? ==> ops[i].cb != cb
  }

  lemma {:induction false} OthersAdded(s: State, ops: seq<Op>, cb: Callback)
    requires Run(s, ops) && NoneAdds(ops, cb)
    ensures |s.added| <= |Final(s, ops).added| && Final(s, ops).added[..|s.added|] == s.added
    ensures forall u | |s.added| <= u < |Final(s, ops).added| :: Final(s, ops).added[u] != cb
    decreases |ops|
  {
    if ops == [] {
      assert Final(s, ops) == s;
    } else {
      var s', rest := After(s, ops[0]), ops[1..];
      assert forall i | 0 <= i < |rest| :: rest[i] == ops[i + 1];
      assert Run(s', rest) && Final(s, ops) == Final(s', rest);
      hide Run, Final, CanRun, After;
      OneMoreAdded(s, ops[0], cb);
      OthersAdded(s', rest, cb);
      var end := Final(s', rest).added;
      assert end[..|s.added|] == end[..|s'.added|][..|s.added|];
      if |s'.added| > |s.added| {
        assert end[|s.added|] == end[..|s'.added|][|s.added|];
      }
    }
  }

  // One call adds one callback, and it is another one, or none.
  lemma OneMoreAdded(s: State, op: Op, cb: Callback)
    requires CanRun(s, op) && (op.Add? ==> op.cb != cb)
    ensures var more := After(s, op).added;
            more == s.added || (|more| == |s.added| + 1 && more[..|s.added|] == s.added && more[|s.added|] != cb)
  {
    if op.Pass? {
      TakenOutAddsNothing(s, ExpiredAmong(s, op.visited, op.now), op.sends);
      hide ExpiredAmong, AllTakenOut;
    }
  }

  lemma {:induction false} TakenOutAddsNothing(s: State, ids: seq<Uint32>, sends: nat)
    ensures AllTakenOut(s, ids, sends).added == s.added
  {
    if ids != [] {
      TakenOutAddsNothing(s, ids[..|ids| - 1], sends);
    }
  }

  // A callback that was new when it was added, and not added again, is there once.
  lemma AddedOnce(before: seq<Callback>, cb: Callback, mid: seq<Callback>, end: seq<Callback>)
    requires cb !in before && |before| < |mid| <= |end|
    requires mid[..|before| + 1] == before + [cb] && end[..|mid|] == mid
    requires forall u | |before| + 1 <= u < |mid| :: mid[u] != cb
    requires forall u | |mid| <= u < |end| :: end[u] != cb
    ensures forall u | 0 <= u < |end| :: end[u] == cb <==> u == |before|
  {
    forall u | 0 <= u < |mid|
      ensures end[u] == cb <==> u == |before|
    {
      assert end[u] == end[..|mid|][u] == mid[u];
      assert u <= |before| ==> mid[u] == mid[..|before| + 1][u] == (before + [cb])[u];
    }
  }

  // Main result. When the write of a request fails, its callback is called twice exactly
  // if a pass between its Add and its Pull sent its entry, and once otherwise, whatever the
  // client's other requests do before and after. `cb` is a closure no other request has.
  lemma FailedWriteCalls(s: State, id: Uint32, cb: Callback, added: int, ops: seq<Op>, now: int, later: seq<Op>)
    requires LedgerOk(s) && id !in s.cache && cb !in s.added
    requires Run(AfterAdd(s, id, cb, added).0, ops) && AllSpare(ops, id) && NoneAdds(ops, cb)
    requires Run(AfterPull(Final(AfterAdd(s, id, cb, added).0, ops), id, now).0, later) && NoneAdds(later, cb)
    ensures var start := AfterAdd(s, id, cb, added).0;
            var (s', pulled) := AfterPull(Final(start, ops), id, now);
            CallsOf(TimedOutCalls(Final(s', later).sent) + [Call(Recalled(pulled, cb), [], Some(WriteFailed))], cb)
            == if SentDuring(start, ops, id) then 2 else 1
  {
    hide *;
    FailedWriteCallsTwiceIff(s, id, cb, added, ops, now, later);
    FailedWriteAdds(s, id, cb, added, ops, now, later);
    var (s', pulled) := AfterPull(Final(AfterAdd(s, id, cb, added).0, ops), id, now);
    var end := Final(s', later);
    TimeoutsOfOne(end, end.sent, |s.fates|, cb);
    CallsOfSnoc(TimedOutCalls(end.sent), Call(Recalled(pulled, cb), [], Some(WriteFailed)), cb);
    OneIs();
  }

  lemma OneIs()
    ensures PutLog.One(true) == 1 && PutLog.One(false) == 0
  {
  }

  lemma AddGivesTicket(s: State, id: Uint32, cb: Callback, added: int)
    requires LedgerOk(s) && id !in s.cache
    ensures LedgerOk(AfterAdd(s, id, cb, added).0) && |s.fates| == |s.added|
    ensures AfterAdd(s, id, cb, added).0.added == s.added + [cb]
  {
    AddKeepsLedger(s, id, cb, added);
  }

  lemma PullAddsNothing(s: State, id: Uint32, now: int)
    requires LedgerOk(s)
    ensures LedgerOk(AfterPull(s, id, now).0) && AfterPull(s, id, now).0.added == s.added
  {
    PullKeepsLedger(s, id, now);
  }

  lemma RunKeepsLedger(s: State, ops: seq<Op>)
    requires LedgerOk(s) && Run(s, ops)
    ensures LedgerOk(Final(s, ops))
    ensures forall i | 0 <= i < |Final(s, ops).sent| :: SentOk(Final(s, ops), Final(s, ops).sent[i])
  {
    LedgerBalances(s, ops, 0);
  }

  // Of all callbacks the table is ever given, `cb` is the one of this request alone.
  lemma FailedWriteAdds(s: State, id: Uint32, cb: Callback, added: int, ops: seq<Op>, now: int, later: seq<Op>)
    requires LedgerOk(s) && id !in s.cache && cb !in s.added
    requires Run(AfterAdd(s, id, cb, added).0, ops) && NoneAdds(ops, cb)
    requires Run(AfterPull(Final(AfterAdd(s, id, cb, added).0, ops), id, now).0, later) && NoneAdds(later, cb)
    ensures var s' := AfterPull(Final(AfterAdd(s, id, cb, added).0, ops), id, now).0;
            var end := Final(s', later);
            && (forall i | 0 <= i < |end.sent| :: SentOk(end, end.sent[i]))
            && (forall u | 0 <= u < |end.added| :: end.added[u] == cb <==> u == |s.fates|)
  {
    hide *;
    AddGivesTicket(s, id, cb, added);
    var start := AfterAdd(s, id, cb, added).0;
    OthersAdded(start, ops, cb);
    RunKeepsLedger(start, ops);
    var mid := Final(start, ops);
    PullAddsNothing(mid, id, now);
    var s' := AfterPull(mid, id, now).0;
    OthersAdded(s', later, cb);
    RunKeepsLedger(s', later);
    AddedOnce(s.added, cb, mid.added, Final(s', later).added);
  }

  // The callback of Count, CountNamespace and CountServer.
  datatype CountResult = Counted(n: Uint32) | TooShort | Failed(error: CallError)

  function CountResultOf(call: Call): CountResult {
    if call.error.Some? then Failed(call.error.value)
    else if |call.data| < 4 then TooShort
    else Counted(Uint32FromBytes(call.data[..4]))
  }

  class Client {
    const waiting: ResponseCache
    const psk: Bytes
    const h: Hasher
    var counter: Uint32
    // The callbacks invoked so far, in order.
    var calls: seq<Call>
    // How many of the channel's callbacks `handleTimeouts` has received.
    var received: nat

    constructor (timeoutSecs: int, psk: Bytes, h: Hasher)
      ensures counter == 0 && calls == [] && received == 0 && fresh(waiting)
      ensures waiting.Valid() && waiting.View() == NewTable(timeoutSecs)
      ensures this.psk == psk && this.h == h
    {
      var cache := new ResponseCache(timeoutSecs);
      waiting := cache;
      this.psk, this.h := psk, h;
      counter, calls, received := 0, [], 0;
    }

    // The counter is a uint32 and wraps around.
    method MakeMessageID() returns (id: Bytes)
      modifies this`counter
      ensures counter == (old(counter) + 1) % 0x1_0000_0000
      ensures |id| == 4 && Uint32FromBytes(id) == counter
    {
      counter := (counter + 1) % 0x1_0000_0000;
      id := Uint32ToBytes(counter);
    }

    // `_sendUDP`. The socket decides whether the write fails, and by then the table may
    // have been cleaned and disposed: `passes` of its cleanups fall between the two. A
    // packet that is too long, or whose id is taken, is reported at once and not sent;
    // after a failed write the callback is called with the error, whether or not the table
    // still has it, and the table's channel may carry it as well.
    method SendUDP(packet: Packet, cb: Callback, writeFails: bool, passes: nat, clock: Clock)
      returns (written: Option<Bytes>, ghost addedAt: int, ghost ops: seq<Op>)
      requires |packet.hashBytes| >= 8 && |packet.idBytes| >= 4
      requires waiting.Valid() && LedgerOk(waiting.View())
      modifies this`calls, waiting, clock
      ensures waiting.Valid() && LedgerOk(waiting.View())
      ensures BadOutputSize(packet.View()) ==>
                written == None && waiting.View() == old(waiting.View())
                && calls == old(calls) + [Call(cb, [], Some(BadSize))]
      ensures !BadOutputSize(packet.View()) && packet.id in old(waiting.cache) ==>
                written == None && waiting.View() == old(waiting.View())
                && calls == old(calls) + [Call(cb, [], Some(IdExists))]
      ensures !BadOutputSize(packet.View()) && packet.id !in old(waiting.cache) ==>
                var start := AfterAdd(old(waiting.View()), packet.id, cb, addedAt).0;
                && old(clock.now) <= addedAt <= clock.now
                && if writeFails then
                     && written == None
                     && calls == old(calls) + [Call(cb, [], Some(WriteFailed))]
                     && Run(start, ops) && AllSpare(ops, packet.id)
                     && waiting.View() == AfterPull(Final(start, ops), packet.id, clock.now).0
                     && packet.id !in waiting.cache
                     && SendsOf(waiting.sent, |old(waiting.fates)|)
                        == (if SentDuring(start, ops, packet.id) then 1 else 0)
                     && (forall i | 0 <= i < |waiting.sent| ::
                           waiting.sent[i].ticket == |old(waiting.fates)| ==> waiting.sent[i].callback == cb)
                   else
                     && written == Some(Encode(packet.View()))
                     && calls == old(calls)
                     && waiting.View() == start
    {
      ops, addedAt := [], clock.now;
      var b, error := packet.ToBytes();
      if error.Some? {
        calls := calls + [Call(cb, [], Some(BadSize))];
        return None, addedAt, ops;
      }
      AddKeepsLedger(waiting.View(), packet.id, cb, clock.now);
      var added := waiting.Add(packet.id, cb, clock);
      if added.MessageIdExists? {
        calls := calls + [Call(cb, [], Some(IdExists))];
        return None, addedAt, ops;
      }
      addedAt := clock.now;
      AddKeepsLedger(old(waiting.View()), packet.id, cb, addedAt);
      if writeFails {
        ops := CleanMeanwhile(packet.id, passes, clock);
        ghost var start := AfterAdd(old(waiting.View()), packet.id, cb, addedAt).0;
        ghost var table := waiting.View();
        var pulled := waiting.Pull(packet.id, clock);
        FailedWriteCallsTwiceIff(old(waiting.View()), packet.id, cb, addedAt, ops, clock.now, []);
        SentIsAdded(old(waiting.View()), packet.id, cb, addedAt, ops, clock.now);
        var reCall := if pulled.Found? then pulled.callback else cb;
        calls := calls + [Call(reCall, [], Some(WriteFailed))];
        return None, addedAt, ops;
      }
      written := Some(b);
    }

    // Cleanups of the table, and perhaps its disposal, while a request waits in it.
    method CleanMeanwhile(id: Uint32, passes: nat, clock: Clock) returns (ghost ops: seq<Op>)
      requires waiting.Valid()
      modifies waiting, clock
      ensures waiting.Valid() && old(clock.now) <= clock.now
      ensures Run(old(waiting.View()), ops) && AllSpare(ops, id) && waiting.View() == Final(old(waiting.View()), ops)
    {
      hide Run, Final, CanRun, After;
      ops := [];
      NothingRan(waiting.View());
      for i := 0 to passes
        invariant waiting.Valid() && old(clock.now) <= clock.now
        invariant Run(old(waiting.View()), ops) && AllSpare(ops, id)
        invariant waiting.View() == Final(old(waiting.View()), ops)
      {
        if * {
          ghost var before := waiting.View();
          waiting.Dispose();
          DisposeRuns(before);
          RunSnoc(old(waiting.View()), ops, Op.Dispose);
          ops := ops + [Op.Dispose];
        }
        ghost var table := waiting.View();
        ghost var visited, sends;
        visited, sends := waiting.CheckCleanup(clock);
        PassRuns(table, visited, sends, clock.now);
        RunSnoc(old(waiting.View()), ops, Pass(visited, clock.now, sends));
        ops := ops + [Pass(visited, clock.now, sends)];
      }
    }

    // `handleTimeouts`, until the channel holds nothing more.
    method HandleTimeouts()
      requires waiting.Valid() && received <= |waiting.sent|
      modifies this`calls, this`received
      ensures received == |waiting.sent|
      ensures calls == old(calls) + TimedOutCalls(waiting.sent[old(received)..])
    {
      ghost var from := received;
      assert waiting.sent[from..received] == [];
      while received < |waiting.sent|
        invariant from <= received <= |waiting.sent|
        invariant calls == old(calls) + TimedOutCalls(waiting.sent[from..received])
      {
        var message := waiting.sent[received];
        calls := calls + [Call(message.callback, [], Some(CallError.TimedOut))];
        assert waiting.sent[from..received + 1][..received - from] == waiting.sent[from..received];
        received := received + 1;
      }
      assert waiting.sent[from..] == waiting.sent[from..received];
    }

    // One turn of `handleResponsesForever`.
    method HandleResponse(frame: Bytes, clock: Clock)
      requires |frame| == PACKET_SIZE && waiting.Valid()
      modifies this`calls, waiting, clock
      ensures waiting.Valid()
      ensures old(clock.now) <= clock.now
      ensures waiting.View() == OnFrame(old(waiting.View()), frame, clock.now).0
      ensures calls == match OnFrame(old(waiting.View()), frame, clock.now).1
                       case None => old(calls)
                       case Some(call) => old(calls) + [call]
    {
      var f := FieldsOf(frame);
      if FrameError(frame).Some? && f.id == 0 {
        return;
      }
      var pulled := waiting.Pull(f.id, clock);
      if !pulled.Found? {
        return;
      }
      if !IsResponseCmd(f.command) {
        return;
      }
      if f.command == RES_ERROR {
        calls := calls + [Call(pulled.callback, [], Some(Remote(Trim(f.data))))];
        return;
      }
      if f.command == CMD_COUNT || f.command == CMD_PUT
         || f.command == CMD_COUNT_NAMESPACE || f.command == CMD_COUNT_SERVER
      {
        calls := calls + [Call(pulled.callback, f.data, None)];
        return;
      }
    }

    // `handleResponsesForever`, over the frames that arrive.
    method HandleResponses(frames: seq<Bytes>, clock: Clock) returns (ghost times: seq<int>)
      requires waiting.Valid() && forall i | 0 <= i < |frames| :: |frames[i]| == PACKET_SIZE
      modifies this`calls, waiting, clock
      ensures waiting.Valid()
      ensures |times| == |frames|
      ensures waiting.View() == OnFrames(old(waiting.View()), frames, times).0
      ensures calls == old(calls) + OnFrames(old(waiting.View()), frames, times).1
    {
      hide OnFrame, OnFrames;
      times := [];
      assert frames[..0] == [];
      NoFrames(waiting.View());
      for i := 0 to |frames|
        invariant waiting.Valid() && |times| == i
        invariant waiting.View() == OnFrames(old(waiting.View()), frames[..i], times).0
        invariant calls == old(calls) + OnFrames(old(waiting.View()), frames[..i], times).1
      {
        PrefixSnoc(frames, i);
        HandleResponse(frames[i], clock);
        OnFramesSnoc(old(waiting.View()), frames[..i], times, frames[i], clock.now);
        times := times + [clock.now];
      }
      assert frames[..|frames|] == frames;
    }
  }
}

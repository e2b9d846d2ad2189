// server/server.go: what a worker does with one message, against the put log.

module Server {
  import opened ByteStrings
  import opened Wrappers
  import opened WallClock
  import opened Protocol
  import opened ExpiryTree
  import opened ExpiryStore
  import opened StoreRefinement
  import opened Frames
  import opened KeyLists
  import Replication
  import PutLog

  function Ascii(s: string): (b: Bytes)
    ensures |b| == |s| && forall i | 0 <= i < |s| && s[i] as int < 0x100 :: b[i] as int == s[i] as int
  {
    seq(|s|, i requires 0 <= i < |s| => (s[i] as int % 0x100) as byte)
  }

  // The source uses the text of the first space for the second, and of the third for the
  // fourth.
  function ErrorText(e: Error): Bytes {
    match e
    case InvalidCommandByte => Ascii("bad packet: invalid command byte")
    case ExpectedSpace(i) =>
      if i == 1 || i == 10 then Ascii("bad packet: expected space 1") else Ascii("bad packet: expected space 3")
    case TooLarge => Ascii("bad packet: too large, size must be 1500 bytes")
    case BadHash => Ascii("auth failed: packet hash invalid")
    case BadOutput => Ascii("wrong data size during packet construction")
  }

  lemma ErrorTextFits(e: Error)
    ensures |ErrorText(e)| <= DATA_SIZE
  {
  }

  // What a message asks for, once parsed and validated.
  datatype Request =
    | Rejected(error: Error)
    | Replicate(ns: Bytes, key: Bytes)
    | Put(ns: Bytes, key: Bytes)
    | Count(ns: Bytes, key: Bytes)
    | CountNamespace(ns: Bytes)
    | CountServer
    | Keys(ns: Bytes, pattern: Bytes)
    | Namespaces
    | Unknown(command: byte)

  function Classify(message: Bytes, psk: Bytes, h: Hasher): Request
    requires |message| >= 82
  {
    var f := FieldsOf(message);
    if FrameError(message).Some? then Rejected(FrameError(message).value)
    else if !Validates(f, psk, h) then Rejected(BadHash)
    else if f.command == CMD_PUT_REPLICATE then Replicate(Trim(f.ns), Trim(f.data))
    else if f.command == CMD_PUT then Request.Put(Trim(f.ns), Trim(f.data))
    else if f.command == CMD_COUNT then Request.Count(Trim(f.ns), Trim(f.data))
    else if f.command == CMD_COUNT_NAMESPACE then CountNamespace(Trim(f.ns))
    else if f.command == CMD_COUNT_SERVER then Request.CountServer
    else if f.command == CMD_TCP_KEYS then Keys(Trim(f.ns), Trim(f.data))
    else if f.command == CMD_TCP_NAMESPACES then Namespaces
    else Unknown(f.command)
  }

  const MAX_UINT32 := 0xFFFF_FFFF

  function Capped(n: nat): Uint32 {
    if n > MAX_UINT32 then MAX_UINT32 else n
  }

  function ReplyFor(f: Fields, request: Request, answer: nat, names: seq<Bytes>, psk: Bytes, h: Hasher): Option<Fields>
    requires |f.idBytes| >= 4
  {
    var number := Uint32ToBytes(Capped(answer));
    match request
    case Rejected(e) => Some(PacketOf(RES_ERROR, f.idBytes, f.ns, ErrorText(e), psk, h))
    case Replicate(_, _) => None
    case Put(_, _) => Some(PacketOf(CMD_PUT, f.idBytes, f.ns, [], psk, h))
    case Count(_, _) => Some(PacketOf(CMD_COUNT, f.idBytes, f.ns, number, psk, h))
    case CountNamespace(_) => Some(PacketOf(CMD_COUNT_NAMESPACE, f.idBytes, f.ns, number, psk, h))
    case CountServer => Some(PacketOf(CMD_COUNT_SERVER, f.idBytes, f.ns, number, psk, h))
    case Keys(_, _) => Some(PacketOf(CMD_TCP_KEYS, f.idBytes, f.ns, Join(names), psk, h))
    case Namespaces => Some(PacketOf(CMD_TCP_NAMESPACES, f.idBytes, f.ns, Join(names), psk, h))
    case Unknown(c) => Some(PacketOf(RES_ERROR, f.idBytes, f.ns, Ascii("unknown_command_") + [c], psk, h))
  }

  // The log after a request served with the clock at `now`.
  function LoggedRequest(log: Log, request: Request, now: int): Log {
    if request.Put? || request.Replicate? then log + [PutLog.Entry(request.ns, request.key, now)] else log
  }

  // What the log allows as the number of a reply, for a request served between `from` and
  // `to`.
  ghost predicate NumberFits(log: Log, ttl: int, request: Request, answer: nat, from: int, to: int) {
    match request
    case Count(ns, key) => answer == PutLog.Count(log, ns, key, ttl, to)
    case CountNamespace(ns) => PutLog.CountNs(log, ns, ttl, to) <= answer <= PutLog.CountNs(log, ns, ttl, from)
    case CountServer => PutLog.CountAll(log, ttl, to) <= answer <= PutLog.CountAll(log, ttl, from)
    case _ => true
  }

  // What the log allows as the list of a reply. A namespace list is what the store has
  // after a cleanup: at least every namespace with a live entry. With cleaning switched
  // off it is empty.
  ghost predicate NamesFit(log: Log, ttl: int, matches: (Bytes, Bytes) -> bool, request: Request, names: seq<Bytes>,
                           cleanup: bool, from: int, to: int) {
    match request
    case Keys(ns, pattern) =>
      KeysFit(log, ttl, ns, k => matches(pattern, k), names, from, to)
    case Namespaces =>
      if cleanup then NamespacesFit(log, ttl, names, to) else names == []
    case _ => true
  }

  // The log's stamps never go back, and none is later than `now`.
  ghost predicate Stamped(log: Log, now: int) {
    && (forall i | 0 <= i < |log| :: log[i].stamp <= now)
    && (forall i, j | 0 <= i < j < |log| :: log[i].stamp <= log[j].stamp)
  }

  // A put's frame is exactly one packet long, and is republished with only its command
  // byte changed.
  lemma PutFrameRepublishes(message: Bytes, psk: Bytes, h: Hasher)
    requires |message| >= PACKET_SIZE && Classify(message, psk, h).Put?
    ensures WellFormed(message)
    ensures !BadOutputSize(Republished(FieldsOf(message), psk, h))
    ensures Encode(Republished(FieldsOf(message), psk, h)) == message[0 := CMD_PUT_REPLICATE]
  {
    RepublishedFrameValidates(message, psk, h);
  }

  // What a put at one server becomes at a peer with the same key: a replica of the same
  // namespace and key, which is stored and neither answered nor sent on.
  lemma ReplicaIsStored(message: Bytes, psk: Bytes, h: Hasher)
    requires |message| >= PACKET_SIZE && Classify(message, psk, h).Put?
    ensures var replica := message[0 := CMD_PUT_REPLICATE];
            && Classify(replica, psk, h) == Replicate(Classify(message, psk, h).ns, Classify(message, psk, h).key)
            && forall answer, names ::
                 ReplyFor(FieldsOf(replica), Classify(replica, psk, h), answer, names, psk, h) == None
  {
    PutFrameRepublishes(message, psk, h);
    RepublishedFrameValidates(message, psk, h);
  }

  // One turn of the worker: the log and the clock before it, the clock after it, what it
  // replied with, and what it sent to its peers.
  datatype Turn = Turn(log: Log, from: int, to: int, reply: Option<Fields>, answer: nat, names: seq<Bytes>,
                       replicas: seq<(Replication.Server, Bytes)>)

  // What a message makes the server send to its peers, when `writes` frames can be written
  // before one fails: a put goes to the peers in order, with only its command byte changed,
  // and nothing else does.
  ghost predicate SentOn(sends: seq<(Replication.Server, Bytes)>, message: Bytes, isPut: bool,
                         peers: seq<Replication.Server>, writes: nat)
    requires |message| >= PACKET_SIZE
  {
    && |sends| == (if !isPut then 0 else if writes < |peers| then writes else |peers|)
    && forall i | 0 <= i < |sends| :: sends[i] == (peers[i], message[0 := CMD_PUT_REPLICATE])
  }

  // One turn begins when the one before it has ended.
  ghost predicate InTurn(turns: seq<Turn>, from: int, to: int) {
    && from <= to
    && (forall i | 0 <= i < |turns| :: from <= turns[i].from <= turns[i].to <= to)
    && (forall i, j | 0 <= i < j < |turns| :: turns[i].to <= turns[j].from)
  }

  lemma NoTurns(now: int)
    ensures InTurn([], now, now)
  {
  }

  lemma InTurnSnoc(turns: seq<Turn>, from: int, mid: int, t: Turn)
    requires InTurn(turns, from, mid) && mid <= t.from <= t.to
    ensures InTurn(turns + [t], from, t.to)
  {
  }

  // What a turn may do, for a server with these peers and settings.
  ghost predicate TurnFits(t: Turn, message: Bytes, writes: nat, psk: Bytes, h: Hasher, peers: seq<Replication.Server>,
                           ttl: int, matches: (Bytes, Bytes) -> bool, cleanup: bool)
    requires |message| >= PACKET_SIZE
  {
    var request := Classify(message, psk, h);
    && t.from <= t.to
    && t.reply == ReplyFor(FieldsOf(message), request, t.answer, t.names, psk, h)
    && NumberFits(t.log, ttl, request, t.answer, t.from, t.to)
    && NamesFit(t.log, ttl, matches, request, t.names, cleanup, t.from, t.to)
    && SentOn(t.replicas, message, request.Put?, peers, writes)
  }

  lemma TurnSends(t: Turn, message: Bytes, writes: nat, psk: Bytes, h: Hasher, peers: seq<Replication.Server>,
                  ttl: int, matches: (Bytes, Bytes) -> bool, cleanup: bool)
    requires |message| >= PACKET_SIZE && TurnFits(t, message, writes, psk, h, peers, ttl, matches, cleanup)
    ensures SentOn(t.replicas, message, Classify(message, psk, h).Put?, peers, writes)
  {
  }

  // The log grows by the puts and replicas among the messages, in order.
  ghost predicate LogsFollow(turns: seq<Turn>, messages: seq<Bytes>, psk: Bytes, h: Hasher, last: Log)
    requires |turns| == |messages| && forall i | 0 <= i < |messages| :: |messages[i]| >= PACKET_SIZE
  {
    forall i | 0 <= i < |turns| ::
      LogAt(turns, i + 1, last) == LoggedRequest(turns[i].log, Classify(messages[i], psk, h), turns[i].to)
  }

  // The log turn `i` starts with, or the last one.
  ghost function LogAt(turns: seq<Turn>, i: nat, last: Log): Log {
    if i < |turns| then turns[i].log else last
  }

  lemma LogsFollowNone(psk: Bytes, h: Hasher, last: Log)
    ensures LogsFollow([], [], psk, h, last)
  {
  }

  lemma LogsFollowSnoc(turns: seq<Turn>, messages: seq<Bytes>, psk: Bytes, h: Hasher, t: Turn, message: Bytes,
                       last: Log)
    requires |turns| == |messages| && forall i | 0 <= i < |messages| :: |messages[i]| >= PACKET_SIZE
    requires |message| >= PACKET_SIZE && LogsFollow(turns, messages, psk, h, t.log)
    requires last == LoggedRequest(t.log, Classify(message, psk, h), t.to)
    ensures LogsFollow(turns + [t], messages + [message], psk, h, last)
  {
    var all := turns + [t];
    forall i | 0 <= i < |all|
      ensures LogAt(all, i + 1, last)
           == LoggedRequest(all[i].log, Classify((messages + [message])[i], psk, h), all[i].to)
    {
      if i < |turns| {
        assert LogAt(turns, i + 1, t.log) == LoggedRequest(turns[i].log, Classify(messages[i], psk, h), turns[i].to);
      }
    }
  }

  // ---- What a stream of messages adds up to ----

  lemma LogSnoc(log: Log, e: PutLog.Entry, ns: Bytes, key: Bytes, ttl: int, t: int)
    ensures PutLog.Count(log + [e], ns, key, ttl, t)
         == PutLog.Count(log, ns, key, ttl, t) + PutLog.One(e.ns == ns && e.key == key && e.stamp + ttl > t)
  {
    assert (log + [e])[..|log|] == log;
  }

  // A request served at `now` adds one to the count of the names it stores, and nothing to
  // any other.
  lemma RequestIsCounted(log: Log, request: Request, now: int, ns: Bytes, key: Bytes, ttl: int, t: int)
    ensures PutLog.Count(LoggedRequest(log, request, now), ns, key, ttl, t)
         == PutLog.Count(log, ns, key, ttl, t)
            + PutLog.One((request == Request.Put(ns, key) || request == Replicate(ns, key)) && now + ttl > t)
  {
    if request.Put? || request.Replicate? {
      LogSnoc(log, PutLog.Entry(request.ns, request.key, now), ns, key, ttl, t);
    }
  }

  lemma RequestIsCountedOnce(log: Log, request: Request, now: int, ttl: int)
    ensures forall ns, key, t ::
              PutLog.Count(LoggedRequest(log, request, now), ns, key, ttl, t)
              == PutLog.Count(log, ns, key, ttl, t)
                 + PutLog.One((request == Request.Put(ns, key) || request == Replicate(ns, key)) && now + ttl > t)
  {
    forall ns, key, t
      ensures PutLog.Count(LoggedRequest(log, request, now), ns, key, ttl, t)
           == PutLog.Count(log, ns, key, ttl, t)
              + PutLog.One((request == Request.Put(ns, key) || request == Replicate(ns, key)) && now + ttl > t)
    {
      RequestIsCounted(log, request, now, ns, key, ttl, t);
    }
  }

  // Was the message of a turn a client put or a replica of (ns, key) that, `ttl` after the
  // turn's end, is live at `t`?
  function Stored(turn: Turn, message: Bytes, psk: Bytes, h: Hasher, ns: Bytes, key: Bytes, ttl: int, t: int): nat
    requires |message| >= PACKET_SIZE
  {
    var request := Classify(message, psk, h);
    PutLog.One((request == Request.Put(ns, key) || request == Replicate(ns, key)) && turn.to + ttl > t)
  }

  function StoredAmong(turns: seq<Turn>, messages: seq<Bytes>, psk: Bytes, h: Hasher, ns: Bytes, key: Bytes,
                       ttl: int, t: int): nat
    requires |turns| == |messages| && forall i | 0 <= i < |messages| :: |messages[i]| >= PACKET_SIZE
  {
    if turns == [] then 0
    else
      var last := |turns| - 1;
      StoredAmong(turns[..last], messages[..last], psk, h, ns, key, ttl, t)
      + Stored(turns[last], messages[last], psk, h, ns, key, ttl, t)
  }

  lemma {:induction false} LogCountsMessages(turns: seq<Turn>, messages: seq<Bytes>, psk: Bytes, h: Hasher, last: Log,
                                             n: nat, ns: Bytes, key: Bytes, ttl: int, t: int)
    requires |turns| == |messages| && forall i | 0 <= i < |messages| :: |messages[i]| >= PACKET_SIZE
    requires LogsFollow(turns, messages, psk, h, last) && n <= |turns| && turns != []
    ensures PutLog.Count(LogAt(turns, n, last), ns, key, ttl, t)
         == PutLog.Count(turns[0].log, ns, key, ttl, t)
            + StoredAmong(turns[..n], messages[..n], psk, h, ns, key, ttl, t)
  {
    if n > 0 {
      hide *;
      var m := n - 1;
      LogCountsMessages(turns, messages, psk, h, last, m, ns, key, ttl, t);
      LogGrows(turns, messages, psk, h, last, m, ns, key, ttl, t);
      StoredSnoc(turns, messages, psk, h, m, ns, key, ttl, t);
    } else {
      assert turns[..0] == [] && LogAt(turns, 0, last) == turns[0].log;
    }
  }

  lemma StoredSnoc(turns: seq<Turn>, messages: seq<Bytes>, psk: Bytes, h: Hasher, m: nat, ns: Bytes, key: Bytes,
                   ttl: int, t: int)
    requires |turns| == |messages| && m < |turns| && forall i | 0 <= i < |messages| :: |messages[i]| >= PACKET_SIZE
    ensures StoredAmong(turns[..m + 1], messages[..m + 1], psk, h, ns, key, ttl, t)
         == StoredAmong(turns[..m], messages[..m], psk, h, ns, key, ttl, t)
            + Stored(turns[m], messages[m], psk, h, ns, key, ttl, t)
  {
    assert turns[..m + 1][..m] == turns[..m] && messages[..m + 1][..m] == messages[..m];
    hide Classify;
  }

  lemma LogGrows(turns: seq<Turn>, messages: seq<Bytes>, psk: Bytes, h: Hasher, last: Log, m: nat, ns: Bytes,
                 key: Bytes, ttl: int, t: int)
    requires |turns| == |messages| && forall i | 0 <= i < |messages| :: |messages[i]| >= PACKET_SIZE
    requires LogsFollow(turns, messages, psk, h, last) && m < |turns|
    ensures PutLog.Count(LogAt(turns, m + 1, last), ns, key, ttl, t)
         == PutLog.Count(LogAt(turns, m, last), ns, key, ttl, t)
            + Stored(turns[m], messages[m], psk, h, ns, key, ttl, t)
  {
    var request := Classify(messages[m], psk, h);
    assert LogAt(turns, m + 1, last) == LoggedRequest(turns[m].log, request, turns[m].to);
    hide Classify, LoggedRequest, LogsFollow, PutLog.Count;
    RequestIsCounted(turns[m].log, request, turns[m].to, ns, key, ttl, t);
  }

  // Main result. Over a stream of messages a count is answered with the number of live puts
  // to its names: those the log held at the start and those among the messages before it,
  // client puts and replicas alike, or 2^32 - 1 if there are more.
  lemma CountTurnAnswers(turns: seq<Turn>, messages: seq<Bytes>, writes: nat, psk: Bytes, h: Hasher,
                         peers: seq<Replication.Server>, ttl: int, matches: (Bytes, Bytes) -> bool, cleanup: bool,
                         last: Log, n: nat, ns: Bytes, key: Bytes)
    requires |turns| == |messages| && forall i | 0 <= i < |messages| :: |messages[i]| >= PACKET_SIZE
    requires LogsFollow(turns, messages, psk, h, last) && n < |turns|
    requires TurnFits(turns[n], messages[n], writes, psk, h, peers, ttl, matches, cleanup)
    requires Classify(messages[n], psk, h) == Request.Count(ns, key)
    ensures var live := PutLog.Count(turns[0].log, ns, key, ttl, turns[n].to)
                        + StoredAmong(turns[..n], messages[..n], psk, h, ns, key, ttl, turns[n].to);
            turns[n].reply == Some(PacketOf(CMD_COUNT, messages[n][11..15], messages[n][16..80],
              Uint32ToBytes(if live < 0x1_0000_0000 then live else 0xFFFF_FFFF), psk, h))
  {
    hide *;
    LogCountsMessages(turns, messages, psk, h, last, n, ns, key, ttl, turns[n].to);
    assert LogAt(turns, n, last) == turns[n].log by {
      LogAtTurn(turns, n, last);
    }
    CountReplyIs(turns[n], messages[n], writes, psk, h, peers, ttl, matches, cleanup, ns, key);
  }

  lemma LogAtTurn(turns: seq<Turn>, n: nat, last: Log)
    requires n < |turns|
    ensures LogAt(turns, n, last) == turns[n].log
  {
  }

  // A count's reply, field by field.
  lemma CountReplyIs(t: Turn, message: Bytes, writes: nat, psk: Bytes, h: Hasher, peers: seq<Replication.Server>,
                     ttl: int, matches: (Bytes, Bytes) -> bool, cleanup: bool, ns: Bytes, key: Bytes)
    requires |message| >= PACKET_SIZE && TurnFits(t, message, writes, psk, h, peers, ttl, matches, cleanup)
    requires Classify(message, psk, h) == Request.Count(ns, key)
    ensures var live := PutLog.Count(t.log, ns, key, ttl, t.to);
            t.reply == Some(PacketOf(CMD_COUNT, message[11..15], message[16..80],
              Uint32ToBytes(if live < 0x1_0000_0000 then live else 0xFFFF_FFFF), psk, h))
  {
    hide Classify, PacketOf, Uint32ToBytes, PutLog.Count;
  }

  // A total is answered with a number between the live puts at the end and at the start of
  // its turn, or 2^32 - 1 if it is larger.
  lemma TotalTurnAnswers(t: Turn, message: Bytes, writes: nat, psk: Bytes, h: Hasher, peers: seq<Replication.Server>,
                         ttl: int, matches: (Bytes, Bytes) -> bool, cleanup: bool)
    requires |message| >= PACKET_SIZE && TurnFits(t, message, writes, psk, h, peers, ttl, matches, cleanup)
    requires Classify(message, psk, h).CountNamespace? || Classify(message, psk, h).CountServer?
    ensures var command := if Classify(message, psk, h).CountServer? then CMD_COUNT_SERVER else CMD_COUNT_NAMESPACE;
            t.reply == Some(PacketOf(command, message[11..15], message[16..80],
              Uint32ToBytes(if t.answer < 0x1_0000_0000 then t.answer else 0xFFFF_FFFF), psk, h))
    ensures var request := Classify(message, psk, h);
            && (request.CountNamespace? ==>
                  PutLog.CountNs(t.log, request.ns, ttl, t.to) <= t.answer
                  <= PutLog.CountNs(t.log, request.ns, ttl, t.from))
            && (request.CountServer? ==>
                  PutLog.CountAll(t.log, ttl, t.to) <= t.answer <= PutLog.CountAll(t.log, ttl, t.from))
  {
    hide Classify, PacketOf, Uint32ToBytes, PutLog.CountNs, PutLog.CountAll;
  }

  // A list of keys is answered with the matching keys of the namespace, in order: only ones
  // with a live put at the start of the turn, and all with one at its end.
  lemma KeysTurnAnswers(t: Turn, message: Bytes, writes: nat, psk: Bytes, h: Hasher, peers: seq<Replication.Server>,
                        ttl: int, matches: (Bytes, Bytes) -> bool, cleanup: bool, ns: Bytes, pattern: Bytes)
    requires |message| >= PACKET_SIZE && TurnFits(t, message, writes, psk, h, peers, ttl, matches, cleanup)
    requires Classify(message, psk, h) == Keys(ns, pattern)
    ensures t.reply == Some(PacketOf(CMD_TCP_KEYS, message[11..15], message[16..80], Join(t.names), psk, h))
    ensures Ascending(t.names)
    ensures forall k | k in t.names :: matches(pattern, k) && PutLog.Count(t.log, ns, k, ttl, t.from) > 0
    ensures forall k :: matches(pattern, k) && PutLog.Count(t.log, ns, k, ttl, t.to) > 0 ==> k in t.names
  {
    hide Classify, PacketOf, Join, PutLog.Count, Ascending;
  }

  // A list of namespaces is answered with namespaces somebody put to, each once, and among
  // them all with a live put at the end of the turn, or with none if cleaning is off.
  lemma NamespacesTurnAnswers(t: Turn, message: Bytes, writes: nat, psk: Bytes, h: Hasher,
                              peers: seq<Replication.Server>, ttl: int, matches: (Bytes, Bytes) -> bool, cleanup: bool)
    requires |message| >= PACKET_SIZE && TurnFits(t, message, writes, psk, h, peers, ttl, matches, cleanup)
    requires Classify(message, psk, h) == Namespaces
    ensures t.reply == Some(PacketOf(CMD_TCP_NAMESPACES, message[11..15], message[16..80], Join(t.names), psk, h))
    ensures !cleanup ==> t.names == []
    ensures cleanup ==>
              && Distinct(t.names)
              && (forall ns | ns in t.names :: exists i :: 0 <= i < |t.log| && t.log[i].ns == ns)
              && (forall i | 0 <= i < |t.log| && t.log[i].stamp + ttl > t.to :: t.log[i].ns in t.names)
  {
    hide Classify, PacketOf, Join, Distinct;
    if cleanup {
      NamespacesFitIs(t.log, ttl, t.names, t.to);
    }
  }

  lemma NamespacesFitIs(log: Log, ttl: int, names: seq<Bytes>, to: int)
    requires NamespacesFit(log, ttl, names, to)
    ensures Distinct(names)
    ensures forall ns | ns in names :: exists i :: 0 <= i < |log| && log[i].ns == ns
    ensures forall i | 0 <= i < |log| && log[i].stamp + ttl > to :: log[i].ns in names
  {
    forall ns | ns in names
      ensures exists i :: 0 <= i < |log| && log[i].ns == ns
    {
      assert Named(log, ns);
    }
  }

  // A client put is acknowledged with an empty packet, and a replica is not answered.
  lemma PutTurnAnswers(t: Turn, message: Bytes, writes: nat, psk: Bytes, h: Hasher, peers: seq<Replication.Server>,
                       ttl: int, matches: (Bytes, Bytes) -> bool, cleanup: bool)
    requires |message| >= PACKET_SIZE && TurnFits(t, message, writes, psk, h, peers, ttl, matches, cleanup)
    ensures Classify(message, psk, h).Put? ==>
              t.reply == Some(PacketOf(CMD_PUT, message[11..15], message[16..80], [], psk, h))
    ensures Classify(message, psk, h).Replicate? <==> t.reply == None
  {
    hide Classify, PacketOf;
  }

  // Frames sent to peers, as the messages of Replication.
  function ReplicasTo(sends: seq<(Replication.Server, Bytes)>, id: Replication.PutId, origin: Replication.Server,
                      at: int): multiset<Replication.Message>
  {
    if sends == [] then multiset{}
    else
      var last := |sends| - 1;
      ReplicasTo(sends[..last], id, origin, at) + multiset{Replication.R(id, origin, sends[last].0, at)}
  }

  // What the worker sends for a put is what a server of Replication sends when as many of
  // its writes succeed.
  lemma SendsAreFanout(t: Turn, message: Bytes, writes: nat, psk: Bytes, h: Hasher, peers: seq<Replication.Server>,
                       ttl: int, matches: (Bytes, Bytes) -> bool, cleanup: bool, id: Replication.PutId,
                       origin: Replication.Server)
    requires |message| >= PACKET_SIZE && TurnFits(t, message, writes, psk, h, peers, ttl, matches, cleanup)
    requires Classify(message, psk, h).Put?
    ensures var written := if writes < |peers| then writes else |peers|;
            && |t.replicas| == written
            && ReplicasTo(t.replicas, id, origin, t.to) == Replication.Fanout(id, origin, t.to, peers[..written])
  {
    hide Classify, ReplyFor, NumberFits, NamesFit;
    FanoutOfPrefix(t.replicas, peers, id, origin, t.to);
  }

  lemma {:induction false} FanoutOfPrefix(sends: seq<(Replication.Server, Bytes)>, peers: seq<Replication.Server>,
                                          id: Replication.PutId, origin: Replication.Server, at: int)
    requires |sends| <= |peers| && forall i | 0 <= i < |sends| :: sends[i].0 == peers[i]
    ensures ReplicasTo(sends, id, origin, at) == Replication.Fanout(id, origin, at, peers[..|sends|])
  {
    if sends != [] {
      var last := |sends| - 1;
      FanoutOfPrefix(sends[..last], peers, id, origin, at);
      assert peers[..|sends|][..last] == peers[..last];
    }
  }

  // ---- Keys that differ ----

  // Main result. A frame printed with one key is refused by a server with another exactly
  // when the two digests differ in their first eight bytes.
  lemma WrongKeyIsRejected(command: byte, idBytes: Bytes, ns: Bytes, data: Bytes, a: Bytes, b: Bytes, h: Hasher)
    requires |idBytes| == 4 && |ns| <= NAMESPACE_SIZE && |data| <= DATA_SIZE && IsKnownCmd(command)
    ensures var frame := Encode(PacketOf(command, idBytes, ns, data, a, h));
            && |frame| == PACKET_SIZE
            && var said := idBytes + Padded(ns, NAMESPACE_SIZE) + Padded(data, DATA_SIZE);
            && (Classify(frame, b, h) == Rejected(BadHash) <==> h(a + said)[..8] != h(b + said)[..8])
  {
    var frame := Encode(PacketOf(command, idBytes, ns, data, a, h));
    hide *;
    PrintedFrameSays(command, idBytes, ns, data, a, h);
    ValidatesIff(frame, b, h);
    var said := idBytes + Padded(ns, NAMESPACE_SIZE) + Padded(data, DATA_SIZE);
    assert b + frame[11..15] + frame[16..80] + frame[81..PACKET_SIZE] == b + said;
    BadHashIff(frame, b, h);
  }

  lemma PrintedFrameSays(command: byte, idBytes: Bytes, ns: Bytes, data: Bytes, a: Bytes, h: Hasher)
    requires |idBytes| == 4 && |ns| <= NAMESPACE_SIZE && |data| <= DATA_SIZE && IsKnownCmd(command)
    ensures var frame := Encode(PacketOf(command, idBytes, ns, data, a, h));
            && |frame| == PACKET_SIZE && FrameError(frame) == None
            && frame[11..15] == idBytes && frame[16..80] == Padded(ns, NAMESPACE_SIZE)
            && frame[81..PACKET_SIZE] == Padded(data, DATA_SIZE)
            && frame[2..10] == h(a + (idBytes + Padded(ns, NAMESPACE_SIZE) + Padded(data, DATA_SIZE)))[..8]
  {
    var f := PacketOf(command, idBytes, ns, data, a, h);
    PrintedFrameParses(command, idBytes, ns, data, a, h);
    PrintedLayout(f);
    var frame := Encode(f);
    var said := idBytes + Padded(ns, NAMESPACE_SIZE) + Padded(data, DATA_SIZE);
    assert f.ns == Padded(ns, NAMESPACE_SIZE) && f.data == Padded(data, DATA_SIZE);
    assert f.hashBytes == h(a + idBytes + f.ns + f.data);
    hide Encode, PacketOf, Padded, FrameError;
    assert frame[81..PACKET_SIZE] == frame[81..];
    assert a + said == a + idBytes + f.ns + f.data;
    assert ParsePacket(frame).error == None;
  }

  // A frame that parses is refused for its hash exactly when it does not validate.
  lemma BadHashIff(message: Bytes, psk: Bytes, h: Hasher)
    requires |message| >= 82 && FrameError(message) == None
    ensures Classify(message, psk, h) == Rejected(BadHash) <==> !Validates(FieldsOf(message), psk, h)
  {
    hide FieldsOf, FrameError, Validates;
  }

  class Server {
    const store: Store
    const psk: Bytes
    const h: Hasher
    const peers: seq<Replication.Server>
    // The compiled pattern of KeyMatch, as a relation between patterns and keys.
    const matches: (Bytes, Bytes) -> bool
    // The puts stored so far, and a clock reading at which the store agrees with them.
    ghost var log: Log
    ghost var asOf: int

    ghost predicate Valid()
      reads this, store`namespaces, store.Trees()
    {
      store.Valid() && Refines(store.View(), log, store.ttl, asOf) && Stamped(log, asOf)
    }

    // NewServerWithPeers. The source panics when the expiry is below two seconds.
    constructor (ttl: int, psk: Bytes, h: Hasher, matches: (Bytes, Bytes) -> bool,
                 self: Replication.Server, listed: seq<Replication.Server>, now: int)
      requires ttl >= 2
      ensures Valid() && log == [] && asOf == now && store.ttl == ttl && this.psk == psk && this.h == h
      ensures this.matches == matches && peers == Replication.PeersOf(self, listed)
      ensures fresh(store) && store.Trees() == {}
    {
      var peers := Replication.NewPeers(self, listed);
      var store := new Store(ttl);
      this.store, this.peers := store, peers;
      this.psk, this.h, this.matches := psk, h, matches;
      log, asOf := [], now;
      EmptyRefines(ttl, now);
    }

    method ServePut(ns: Bytes, key: Bytes, clock: Clock)
      requires Valid() && asOf <= clock.now
      modifies this`log, this`asOf, store`namespaces, store.Trees(), clock
      ensures Valid() && asOf == clock.now && old(clock.now) <= clock.now && fresh(store.Trees() - old(store.Trees()))
      ensures log == old(log) + [PutLog.Entry(ns, key, clock.now)]
    {
      hide Refines, WithPut;
      ghost var view := store.View();
      ghost var filterTime := store.Put(ns, key, clock);
      PutRefines(view, log, store.ttl, asOf, ns, key, filterTime, clock.now);
      log, asOf := log + [PutLog.Entry(ns, key, clock.now)], clock.now;
    }

    method ServeCount(ns: Bytes, key: Bytes, clock: Clock) returns (answer: nat)
      requires Valid() && asOf <= clock.now
      modifies this`asOf, store.Trees(), clock
      ensures Valid() && asOf == clock.now && old(clock.now) <= clock.now
      ensures answer == PutLog.Count(log, ns, key, store.ttl, clock.now)
    {
      ghost var view := store.View();
      answer := store.Count(ns, key, clock);
      CountRefines(view, log, store.ttl, asOf, ns, key, clock.now);
      asOf := clock.now;
    }

    method ServeCountNamespace(ns: Bytes, clock: Clock) returns (answer: nat)
      requires Valid() && asOf <= clock.now
      modifies this`asOf, store.Trees(), clock
      ensures Valid() && asOf == clock.now && old(clock.now) <= clock.now
      ensures PutLog.CountNs(log, ns, store.ttl, clock.now) <= answer
           <= PutLog.CountNs(log, ns, store.ttl, old(clock.now))
    {
      hide Refines;
      ghost var view, from := store.View(), clock.now;
      RefinesLater(view, log, store.ttl, asOf, from);
      ghost var visits;
      answer, visits := store.CountEntries(ns, clock);
      CountEntriesFits(view, ns, visits, log, store.ttl, from, clock.now);
      asOf := clock.now;
    }

    method ServeCountServer(clock: Clock) returns (answer: nat)
      requires Valid() && asOf <= clock.now
      modifies this`asOf, store.Trees(), clock
      ensures Valid() && asOf == clock.now && old(clock.now) <= clock.now
      ensures PutLog.CountAll(log, store.ttl, clock.now) <= answer <= PutLog.CountAll(log, store.ttl, old(clock.now))
    {
      hide Refines;
      ghost var view, from := store.View(), clock.now;
      RefinesLater(view, log, store.ttl, asOf, from);
      ghost var order, visits;
      answer, order, visits := store.CountServerEntries(clock);
      SweptRefines(view, visits, log, store.ttl, from, clock.now);
      ServerSandwich(view, visits, order, log, store.ttl, from, clock.now);
      asOf := clock.now;
    }

    method ServeKeys(ns: Bytes, pattern: Bytes, clock: Clock) returns (names: seq<Bytes>)
      requires Valid() && asOf <= clock.now
      modifies this`asOf, store.Trees(), clock
      ensures Valid() && asOf == clock.now && old(clock.now) <= clock.now
      ensures KeysFit(log, store.ttl, ns, k => matches(pattern, k), names, old(clock.now), clock.now)
      ensures Ascending(names)
      ensures forall k | k in names :: matches(pattern, k) && PutLog.Count(log, ns, k, store.ttl, old(clock.now)) > 0
      ensures forall k :: matches(pattern, k) && PutLog.Count(log, ns, k, store.ttl, clock.now) > 0 ==> k in names
    {
      hide Refines;
      ghost var view, from := store.View(), clock.now;
      RefinesLater(view, log, store.ttl, asOf, from);
      ghost var all, times;
      var matching := (k: Bytes) => matches(pattern, k);
      names, all, times := store.KeyMatch(ns, matching, clock);
      AscendingIsDistinct(all);
      MatchingChooses(all, matching);
      PartialSweepRefines(view, ns, Matching(all, matching), times, log, store.ttl, from, clock.now);
      forall key
        ensures key in names ==> matching(key) && PutLog.Count(log, ns, key, store.ttl, from) > 0
        ensures matching(key) && PutLog.Count(log, ns, key, store.ttl, clock.now) > 0 ==> key in names
        ensures Ascending(names)
      {
        KeyMatchAnswersLiveKeys(view, ns, all, times, matching, log, store.ttl, from, clock.now, key);
      }
      asOf := clock.now;
    }

    method ServeNamespaces(clock: Clock) returns (names: seq<Bytes>)
      requires Valid() && asOf <= clock.now
      modifies this`asOf, store`namespaces, store`lastCollected, store.Trees(), clock
      ensures Valid() && asOf == clock.now && old(clock.now) <= clock.now && store.Trees() <= old(store.Trees())
      ensures !store.cleanupEnabled ==> names == []
      ensures store.cleanupEnabled ==>
                && NamespacesFit(log, store.ttl, names, clock.now)
                && Distinct(names)
                && (forall ns | ns in names :: exists i :: 0 <= i < |log| && log[i].ns == ns)
                && (forall i | 0 <= i < |log| && log[i].stamp + store.ttl > clock.now :: log[i].ns in names)
    {
      hide Refines, CleanedUp, NamespacesFit, Enumerates;
      ghost var view, last, from := store.View(), store.lastCollected, clock.now;
      RefinesLater(view, log, store.ttl, asOf, from);
      ghost var order, visits;
      names, order, visits := store.Namespaces(clock);
      if store.cleanupEnabled {
        CleanedUpRefines(view, last, store.View(), store.lastCollected, order, visits, names,
                         from, clock.now, log, store.ttl);
        NamespacesFitIs(log, store.ttl, names, clock.now);
      }
      asOf := clock.now;
    }

    // One turn of `worker`, on a message of at least a packet's size (both readers deliver
    // no less). The result is the reply packet, and the frames sent to the peers: `writes`
    // of them can be written before one fails.
    method Handle(message: Bytes, writes: nat, clock: Clock)
      returns (reply: Option<Fields>, replicas: seq<(Replication.Server, Bytes)>, ghost answer: nat,
               ghost names: seq<Bytes>)
      requires |message| >= PACKET_SIZE && Valid() && asOf <= clock.now
      modifies this`log, this`asOf, store`namespaces, store`lastCollected, store.Trees(), clock
      ensures Valid() && asOf <= clock.now && old(clock.now) <= clock.now && fresh(store.Trees() - old(store.Trees()))
      ensures log == LoggedRequest(old(log), Classify(message, psk, h), clock.now)
      ensures forall ns, key, t ::
                PutLog.Count(log, ns, key, store.ttl, t)
                == PutLog.Count(old(log), ns, key, store.ttl, t)
                   + PutLog.One((Classify(message, psk, h) == Request.Put(ns, key)
                                 || Classify(message, psk, h) == Replicate(ns, key)) && clock.now + store.ttl > t)
      ensures reply == ReplyFor(FieldsOf(message), Classify(message, psk, h), answer, names, psk, h)
      ensures NumberFits(old(log), store.ttl, Classify(message, psk, h), answer, old(clock.now), clock.now)
      ensures NamesFit(old(log), store.ttl, matches, Classify(message, psk, h), names, store.cleanupEnabled,
                       old(clock.now), clock.now)
      ensures SentOn(replicas, message, Classify(message, psk, h).Put?, peers, writes)
      ensures |replicas| == if !Classify(message, psk, h).Put? then 0 else if writes < |peers| then writes else |peers|
      ensures forall i | 0 <= i < |replicas| :: replicas[i] == (peers[i], message[0 := CMD_PUT_REPLICATE])
    {
      hide Refines, Stamped, Classify, KeysFit, NamespacesFit;
      var packet := FieldsOf(message);
      var request := Classify(message, psk, h);
      replicas, answer, names := [], 0, [];
      var count, list := 0, [];
      match request {
        case Rejected(_) =>
        case Unknown(_) =>
        case Replicate(ns, key) => ServePut(ns, key, clock);
        case Put(ns, key) =>
          ServePut(ns, key, clock);
          replicas := Republish(packet, writes);
          PutFrameRepublishes(message, psk, h);
        case Count(ns, key) => count := ServeCount(ns, key, clock);
        case CountNamespace(ns) => count := ServeCountNamespace(ns, clock);
        case CountServer => count := ServeCountServer(clock);
        case Keys(ns, pattern) => list := ServeKeys(ns, pattern, clock);
        case Namespaces => list := ServeNamespaces(clock);
      }
      answer, names := count, list;
      RequestIsCountedOnce(old(log), request, clock.now, store.ttl);
      reply := ReplyFor(packet, request, count, list, psk, h);
    }

    // `republish`: the re-hashed packet for every peer, in order, up to the first write that
    // fails. The packet is copied first, so the caller's is unchanged.
    method Republish(packet: Fields, writes: nat) returns (sends: seq<(Replication.Server, Bytes)>)
      requires |packet.idBytes| >= 4
      ensures BadOutputSize(Republished(packet, psk, h)) ==> sends == []
      ensures !BadOutputSize(Republished(packet, psk, h)) ==> |sends| == if writes < |peers| then writes else |peers|
      ensures forall i | 0 <= i < |sends| :: sends[i] == (peers[i], Encode(Republished(packet, psk, h)))
    {
      var copy := new Packet(packet);
      copy.command := CMD_PUT_REPLICATE;
      copy.SetHash(psk, h);
      var b, error := copy.ToBytes();
      if error.Some? {
        return [];
      }
      sends := [];
      for i := 0 to |peers|
        invariant |sends| == i <= writes && forall j | 0 <= j < i :: sends[j] == (peers[j], b)
      {
        if i == writes {
          return sends;
        }
        sends := sends + [(peers[i], b)];
      }
    }

    // One turn, with its record.
    method TakeTurn(message: Bytes, writes: nat, clock: Clock)
      returns (reply: Option<Fields>, replicas: seq<(Replication.Server, Bytes)>, ghost turn: Turn)
      requires |message| >= PACKET_SIZE && Valid() && asOf <= clock.now
      modifies this`log, this`asOf, store`namespaces, store`lastCollected, store.Trees(), clock
      ensures Valid() && asOf <= clock.now && fresh(store.Trees() - old(store.Trees()))
      ensures turn.log == old(log) && turn.from == old(clock.now) <= turn.to == clock.now
      ensures turn.reply == reply && turn.replicas == replicas
      ensures TurnFits(turn, message, writes, psk, h, peers, store.ttl, matches, store.cleanupEnabled)
      ensures log == LoggedRequest(turn.log, Classify(message, psk, h), turn.to)
    {
      hide Refines, ReplyFor, NumberFits, NamesFit, LoggedRequest, Classify, Stamped, SentOn;
      ghost var before, from := log, clock.now;
      ghost var answer, names;
      reply, replicas, answer, names := Handle(message, writes, clock);
      turn := Turn(before, from, clock.now, reply, answer, names, replicas);
    }

    // `worker`, over the messages it receives, one after the other.
    method Worker(messages: seq<Bytes>, writes: seq<nat>, clock: Clock)
      returns (replies: seq<Option<Fields>>, sends: seq<seq<(Replication.Server, Bytes)>>, ghost turns: seq<Turn>)
      requires |writes| == |messages|
      requires forall i | 0 <= i < |messages| :: |messages[i]| >= PACKET_SIZE
      requires Valid() && asOf <= clock.now
      modifies this`log, this`asOf, store`namespaces, store`lastCollected, store.Trees(), clock
      ensures Valid() && asOf <= clock.now
      ensures |replies| == |sends| == |turns| == |messages|
      ensures forall i | 0 <= i < |turns| :: replies[i] == turns[i].reply && sends[i] == turns[i].replicas
      ensures forall i | 0 <= i < |turns| ::
                TurnFits(turns[i], messages[i], writes[i], psk, h, peers, store.ttl, matches, store.cleanupEnabled)
      ensures InTurn(turns, old(clock.now), clock.now)
      ensures turns != [] ==> turns[0].log == old(log)
      ensures LogsFollow(turns, messages, psk, h, log)
      ensures forall i | 0 <= i < |messages| ::
                |sends[i]| == if !Classify(messages[i], psk, h).Put? then 0
                              else if writes[i] < |peers| then writes[i] else |peers|
      ensures forall i, j | 0 <= i < |messages| && 0 <= j < |sends[i]| ::
                sends[i][j] == (peers[j], messages[i][0 := CMD_PUT_REPLICATE])
    {
      hide Refines, TurnFits, LoggedRequest, Classify, LogsFollow, Stamped, InTurn;
      replies, sends, turns := [], [], [];
      ghost var trees := store.Trees();
      assert LogsFollow(turns, messages[..0], psk, h, log) by {
        LogsFollowNone(psk, h, log);
      }
      NoTurns(clock.now);
      for i := 0 to |messages|
        invariant Valid() && asOf <= clock.now && fresh(store.Trees() - trees)
        invariant |replies| == |sends| == |turns| == i
        invariant forall j | 0 <= j < i :: replies[j] == turns[j].reply && sends[j] == turns[j].replicas
        invariant forall j | 0 <= j < i ::
                    TurnFits(turns[j], messages[j], writes[j], psk, h, peers, store.ttl, matches, store.cleanupEnabled)
        invariant InTurn(turns, old(clock.now), clock.now)
        invariant if i == 0 then log == old(log) else turns[0].log == old(log)
        invariant LogsFollow(turns, messages[..i], psk, h, log)
      {
        ghost var turn;
        var reply, replicas;
        reply, replicas, turn := TakeTurn(messages[i], writes[i], clock);
        PrefixSnoc(messages, i);
        InTurnSnoc(turns, old(clock.now), turn.from, turn);
        LogsFollowSnoc(turns, messages[..i], psk, h, turn, messages[i], log);
        replies, sends := replies + [reply], sends + [replicas];
        turns := turns + [turn];
      }
      assert messages[..|messages|] == messages;
      forall i | 0 <= i < |messages|
        ensures SentOn(sends[i], messages[i], Classify(messages[i], psk, h).Put?, peers, writes[i])
      {
        TurnSends(turns[i], messages[i], writes[i], psk, h, peers, store.ttl, matches, store.cleanupEnabled);
      }
    }
  }
}

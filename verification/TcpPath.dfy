// Packets over TCP, in both directions, and the key list of KeyMatch: client.go and
// server.go append the stop symbol to the data value before printing.

module TcpPath {
  import opened ByteStrings
  import opened Wrappers
  import opened Protocol
  import opened Frames
  import opened RawMessage
  import opened KeyLists

  // What `_sendTCP` and `respondOrLogErrorTCP` write for a packet.
  function Written(f: Fields): Bytes
    requires |f.hashBytes| >= 8 && |f.idBytes| >= 4
  {
    Encode(f.(data := f.data + STOP))
  }

  // The stop symbol lands right after the packet's own frame.
  lemma WrittenIsFrameAndStop(command: byte, idBytes: Bytes, ns: Bytes, data: Bytes, psk: Bytes, h: Hasher)
    requires |idBytes| == 4
    ensures Written(PacketOf(command, idBytes, ns, data, psk, h))
         == Encode(PacketOf(command, idBytes, ns, data, psk, h)) + STOP
  {
  }

  // Main result. A packet that fits reaches the server's parser as it was, still
  // validating, exactly when its frame is transportable.
  lemma TcpRequestArrives(command: byte, idBytes: Bytes, ns: Bytes, data: Bytes, psk: Bytes, h: Hasher, tail: Bytes)
    requires IsTcpOnlyCmd(command) && |idBytes| == 4 && |ns| <= NAMESPACE_SIZE && |data| <= DATA_SIZE
    ensures var f := PacketOf(command, idBytes, ns, data, psk, h);
            && (Received(Written(f) + tail) == Delivered(Encode(f)) <==> Transportable(Encode(f)))
            && ParsePacket(Encode(f)) == Parsed(Travelled(f), None)
            && Validates(Travelled(f), psk, h)
  {
    var f := PacketOf(command, idBytes, ns, data, psk, h);
    WrittenIsFrameAndStop(command, idBytes, ns, data, psk, h);
    PrintedFrameParses(command, idBytes, ns, data, psk, h);
    ArrivesIffTransportable(Encode(f), tail);
  }

  // ---- The key list over the connection ----

  // What the callback is given of a reply on the connection.
  function ClientText(stream: Bytes): Option<Bytes> {
    match Received(stream)
    case Delivered(message) =>
      (match ParsePacket(Padded(message, PACKET_SIZE))
       case Parsed(f, error) => if error == None || error == Some(TooLarge) then Some(Trim(f.data)) else None
       case TooSmall => None)
    case _ => None
  }

  // What KeyMatch makes of it,
  function ClientKeys(stream: Bytes): Option<seq<Bytes>> {
    if ClientText(stream).Some? then Some(KeysOf(ClientText(stream).value)) else None
  }

  // and what ListNamespaces, which does not look for an empty list, makes of it.
  function ClientNamespaces(stream: Bytes): Option<seq<Bytes>> {
    if ClientText(stream).Some? then Some(Split(ClientText(stream).value)) else None
  }

  // The frame of a key list, longer than a packet if the list does not fit one.
  function ListFrame(idBytes: Bytes, ns: Bytes, keys: seq<Bytes>, psk: Bytes, h: Hasher): (frame: Bytes)
    requires |idBytes| == 4
    ensures |frame| >= PACKET_SIZE
  {
    Encode(PacketOf(CMD_TCP_KEYS, idBytes, ns, Join(keys), psk, h))
  }

  ghost predicate IsListFrame(body: Bytes, text: Bytes) {
    && |body| >= PACKET_SIZE && IsKnownCmd(body[0])
    && body[1] == body[10] == body[15] == body[80] == SPACE
    && body[81..] == Padded(text, DATA_SIZE)
  }

  // Command, hash, id and namespace hold no stop symbol.
  ghost predicate HeadIsClear(body: Bytes)
    requires |body| >= 80
  {
    forall i: nat :: !StopAt(body[..80], i)
  }

  // The client reads the data of what it received, trimmed.
  lemma ClientReads(stream: Bytes, message: Bytes)
    requires Received(stream) == Delivered(message) && |message| >= PACKET_SIZE
    requires IsKnownCmd(message[0]) && message[1] == message[10] == message[15] == message[80] == SPACE
    ensures ClientText(stream) == Some(Trim(message[81..PACKET_SIZE]))
  {
    assert |message[81..PACKET_SIZE]| == DATA_SIZE;
  }

  // Whatever the client reads, it is one packet's data, split at its newlines.
  lemma ClientReadsLines(stream: Bytes, keys: seq<Bytes>)
    requires ClientKeys(stream) == Some(keys) && keys != []
    ensures (forall i | 0 <= i < |keys| :: NEWLINE !in keys[i]) && keys[0] != []
    ensures Join(keys) != [] && |Join(keys)| <= DATA_SIZE
    ensures !IsSpace(Join(keys)[0]) && !IsSpace(Join(keys)[|Join(keys)| - 1])
  {
    hide Received, Join, Split, Trim;
    var message := Padded(Received(stream).message, PACKET_SIZE);
    var data := FieldsOf(message).data;
    assert |data| == DATA_SIZE;
    JoinOfSplit(Trim(data));
    TrimIsTidy(data);
    SplitOfNothing();
  }

  lemma SplitOfNothing()
    ensures KeysOf([]) == []
  {
  }

  // Trimming a prefix of a frame and padding it again keeps the head's form, and keeps
  // the data but for white space around it.
  lemma RepaddedData(body: Bytes, text: Bytes, c: nat)
    requires IsListFrame(body, text) && 81 <= c <= PACKET_SIZE
    ensures var m := Padded(TrimRight(body[..c]), PACKET_SIZE);
            && |m| == PACKET_SIZE && m[0] == body[0] && m[1] == m[10] == m[15] == m[80] == SPACE
            && Trim(m[81..PACKET_SIZE]) == Trim(body[81..c])
  {
    var b := body[..c];
    var n := |TrimRight(b)|;
    var m := Padded(TrimRight(b), PACKET_SIZE);
    TrimRightIsPrefix(b);
    TrimRightCuts(b);
    assert n > 0 by {
      assert !IsSpace(b[0]);
    }
    hide TrimRight, TrimLeft;
    assert m == b[..n] + Spaces(PACKET_SIZE - n);
    var data, kept := body[81..c], if n <= 81 then 0 else n - 81;
    assert AllSpace(data[kept..]) by {
      assert forall i | 0 <= i < |data| - kept :: data[kept..][i] == b[81 + kept + i];
    }
    assert m[81..][..kept] == data[..kept];
    assert AllSpace(m[81..][kept..]);
    assert m[81..PACKET_SIZE] == m[81..];
    TrimIgnoresEnd(data, kept);
    TrimIgnoresEnd(m[81..], kept);
  }

  // A prefix that ends before the data leaves none.
  lemma RepaddedHead(body: Bytes, text: Bytes, c: nat)
    requires IsListFrame(body, text) && c < 81
    ensures var m := Padded(TrimRight(body[..c]), PACKET_SIZE);
            |m| == PACKET_SIZE && Trim(m[81..PACKET_SIZE]) == []
  {
    TrimRightIsPrefix(body[..c]);
    var m := Padded(TrimRight(body[..c]), PACKET_SIZE);
    assert AllSpace(m[81..PACKET_SIZE]);
    TrimOfAllSpace(m[81..PACKET_SIZE]);
  }

  // What is received of a frame, by the place `c` of the first stop symbol.
  lemma ReceivedCut(body: Bytes, text: Bytes, tail: Bytes, c: nat)
    requires IsListFrame(body, text) && c <= |body|
    requires NoStopBefore(body + STOP, c + 3) && EndsWithStop((body + STOP)[..c + 3])
    ensures Received(body + STOP + tail) == Delivered(Padded(TrimRight(body[..c]), PACKET_SIZE))
  {
    hide Received, TrimRight, NoStopBefore, EndsWithStop;
    ReceivedUpToFirstStop(body + STOP, tail, c + 3);
    assert (body + STOP)[..c + 3 - 3] == body[..c];
  }

  // What the client gets from it.
  lemma ClientCut(body: Bytes, text: Bytes, tail: Bytes, c: nat)
    requires IsListFrame(body, text) && c <= |body|
    requires NoStopBefore(body + STOP, c + 3) && EndsWithStop((body + STOP)[..c + 3])
    ensures 81 <= c <= PACKET_SIZE ==> ClientText(body + STOP + tail) == Some(Trim(body[81..c]))
    ensures c < 81 ==> ClientText(body + STOP + tail) in {None, Some([])}
  {
    hide Received, TrimRight, TrimLeft, Split, NoStopBefore, EndsWithStop;
    var stream, message := body + STOP + tail, Padded(TrimRight(body[..c]), PACKET_SIZE);
    ReceivedCut(body, text, tail, c);
    if c < 81 {
      RepaddedHead(body, text, c);
      ClientReadsNothing(stream, message);
    } else if c <= PACKET_SIZE {
      RepaddedData(body, text, c);
      hide ClientText;
      ClientReads(stream, message);
    }
  }

  lemma ClientReadsNothing(stream: Bytes, message: Bytes)
    requires Received(stream) == Delivered(message) && |message| == PACKET_SIZE
    requires Trim(message[81..PACKET_SIZE]) == []
    ensures ClientText(stream) in {None, Some([])}
  {
    assert FieldsOf(message).data == message[81..PACKET_SIZE];
  }

  // ---- Which lists survive ----

  // What to look at before sending a list: it has a first key, fits one packet, splits at
  // the newlines it was joined with and there only, is not changed by trimming, and forms
  // no stop symbol, not even, where no padding comes between, with the one that follows.
  ghost predicate Survives(keys: seq<Bytes>)
    requires keys != []
  {
    var text := Join(keys);
    && (forall i | 0 <= i < |keys| :: NEWLINE !in keys[i])
    && keys[0] != [] && text != [] && |text| <= DATA_SIZE
    && !IsSpace(text[0]) && !IsSpace(text[|text| - 1])
    && (forall i: nat :: !StopAt(text, i))
    && !(|text| == DATA_SIZE && EndsWithDotLine(text))
  }

  // Head and data hold no stop symbol, nor one together.
  lemma ClearBody(body: Bytes, data: Bytes)
    requires |body| >= 81 && body[80] == SPACE && body[81..] == data && HeadIsClear(body)
    requires (forall i: nat :: !StopAt(data, i)) && !EndsWithDotLine(data)
    ensures NoStopBefore(body + STOP, |body| + 3)
  {
    assert forall j | 0 <= j < |data| :: body[81 + j] == data[j];
    forall i: nat
      ensures !StopAt(body, i)
    {
      if i + 3 <= 80 {
        assert !StopAt(body[..80], i);
      } else if i >= 81 {
        assert !StopAt(data, i - 81);
      }
    }
    assert !EndsWithDotLine(body);
    NoStopBeforeIff(body);
  }

  // Padding hides a dot line at the end.
  lemma PaddedHasNoStop(text: Bytes)
    requires |text| <= DATA_SIZE && (forall i: nat :: !StopAt(text, i))
    requires |text| == DATA_SIZE ==> !EndsWithDotLine(text)
    requires text != [] && !IsSpace(text[|text| - 1])
    ensures (forall i: nat :: !StopAt(Padded(text, DATA_SIZE), i)) && !EndsWithDotLine(Padded(text, DATA_SIZE))
  {
    var data := Padded(text, DATA_SIZE);
    forall i: nat
      ensures !StopAt(data, i)
    {
      assert !StopAt(text, i);
    }
  }

  lemma ListFrameLayout(idBytes: Bytes, ns: Bytes, keys: seq<Bytes>, psk: Bytes, h: Hasher)
    requires |idBytes| == 4 && |ns| <= NAMESPACE_SIZE
    ensures IsListFrame(ListFrame(idBytes, ns, keys, psk, h), Join(keys))
    ensures Written(PacketOf(CMD_TCP_KEYS, idBytes, ns, Join(keys), psk, h))
         == ListFrame(idBytes, ns, keys, psk, h) + STOP
  {
    PrintedLayout(PacketOf(CMD_TCP_KEYS, idBytes, ns, Join(keys), psk, h));
    WrittenIsFrameAndStop(CMD_TCP_KEYS, idBytes, ns, Join(keys), psk, h);
  }

  // With no early stop symbol the client reads all of the data.
  lemma WholeFrameIsRead(body: Bytes, text: Bytes, tail: Bytes)
    requires IsListFrame(body, text) && |body| == PACKET_SIZE && NoStopBefore(body + STOP, |body| + 3)
    ensures ClientText(body + STOP + tail) == Some(Trim(body[81..]))
  {
    hide ClientText, Split, TrimLeft, TrimRight, NoStopBefore;
    var full := body + STOP;
    assert full[|full| - 3..] == STOP && full[..|body| + 3] == full;
    ClientCut(body, text, tail, |body|);
    assert body[81..|body|] == body[81..];
  }

  // The list comes back when nothing stands in its way.
  lemma SurvivorComesBack(body: Bytes, keys: seq<Bytes>, tail: Bytes)
    requires keys != [] && IsListFrame(body, Join(keys)) && HeadIsClear(body) && Survives(keys)
    ensures ClientKeys(body + STOP + tail) == Some(keys)
  {
    var text := Join(keys);
    PaddedHasNoStop(text);
    ClearBody(body, Padded(text, DATA_SIZE));
    WholeFrameIsRead(body, text, tail);
    hide ClientText, Join, Split, TrimLeft, TrimRight, StopAt, EndsWithDotLine;
    TrimOfPadded(text, DATA_SIZE);
    TrimOfTidy(text);
    SplitOfJoin(keys);
  }

  // A list that comes back met no stop symbol.
  lemma ReturnedListSurvives(body: Bytes, keys: seq<Bytes>, tail: Bytes)
    requires keys != [] && IsListFrame(body, Join(keys)) && ClientKeys(body + STOP + tail) == Some(keys)
    ensures HeadIsClear(body) && Survives(keys)
  {
    var text, full := Join(keys), body + STOP;
    ClientReadsLines(full + tail, keys);
    assert full[|full| - 3..] == STOP;
    var end := FirstStop(full, 0);
    EndsWithStopIsStopAt(full, end);
    var c: nat := end - 3;
    ClientCut(body, text, tail, c);
    JoinOfSplit(Trim(body[81..c]));
    TrimIsTidy(body[81..c]);
    SplitOfNothing();
    assert |text| <= c - 81;
    StopsComeLater(body, text, c);
  }

  // With no stop symbol before the end of the text there is none in head and text.
  lemma StopsComeLater(body: Bytes, text: Bytes, c: nat)
    requires IsListFrame(body, text) && |text| <= DATA_SIZE && 81 + |text| <= c <= |body|
    requires NoStopBefore(body + STOP, c + 3)
    ensures HeadIsClear(body)
    ensures (forall i: nat :: !StopAt(text, i)) && !(|text| == DATA_SIZE && EndsWithDotLine(text))
  {
    var full := body + STOP;
    assert forall j | 0 <= j < |text| :: body[81 + j] == body[81..][j] == text[j];
    forall i: nat
      ensures !StopAt(body[..80], i)
    {
      if i + 3 <= 80 {
        EndsWithStopIsStopAt(full, i + 3);
      }
    }
    forall i: nat
      ensures !StopAt(text, i)
    {
      if i + 3 <= |text| {
        EndsWithStopIsStopAt(full, 81 + i + 3);
      }
    }
    if |text| == DATA_SIZE {
      EndsWithStopIsStopAt(full, 81 + DATA_SIZE + 1);
    }
  }

  // Main result, for every nonempty list, however long: it survives join, transport,
  // trimming and split, whatever follows on the connection, exactly when the frame's head
  // is clear and the list is one that survives.
  lemma KeyListSurvivesIff(idBytes: Bytes, ns: Bytes, keys: seq<Bytes>, psk: Bytes, h: Hasher, tail: Bytes)
    requires |idBytes| == 4 && |ns| <= NAMESPACE_SIZE && keys != []
    ensures ClientKeys(Written(PacketOf(CMD_TCP_KEYS, idBytes, ns, Join(keys), psk, h)) + tail) == Some(keys)
       <==> HeadIsClear(ListFrame(idBytes, ns, keys, psk, h)) && Survives(keys)
  {
    var body := ListFrame(idBytes, ns, keys, psk, h);
    ListFrameLayout(idBytes, ns, keys, psk, h);
    hide ListFrame, Written, ClientKeys, Survives, HeadIsClear;
    if ClientKeys(body + STOP + tail) == Some(keys) {
      ReturnedListSurvives(body, keys, tail);
    }
    if HeadIsClear(body) && Survives(keys) {
      SurvivorComesBack(body, keys, tail);
    }
  }

  // In particular a list of carriable keys that fits one packet.
  lemma KeyListSurvives(idBytes: Bytes, ns: Bytes, keys: seq<Bytes>, psk: Bytes, h: Hasher, tail: Bytes)
    requires |idBytes| == 4 && |ns| <= NAMESPACE_SIZE
    requires keys != [] && (forall i | 0 <= i < |keys| :: Carriable(keys[i])) && |Join(keys)| <= DATA_SIZE
    requires forall i: nat :: !StopAt(Encode(PacketOf(CMD_TCP_KEYS, idBytes, ns, Join(keys), psk, h))[..80], i)
    ensures ClientKeys(Written(PacketOf(CMD_TCP_KEYS, idBytes, ns, Join(keys), psk, h)) + tail) == Some(keys)
  {
    JoinHasNoStop(keys);
    assert Carriable(keys[0]);
    assert HeadIsClear(ListFrame(idBytes, ns, keys, psk, h)) && Survives(keys);
    hide ClientKeys, Written, Join, ListFrame, HeadIsClear, Survives, PacketOf;
    KeyListSurvivesIff(idBytes, ns, keys, psk, h, tail);
  }

  // An empty list comes back empty: the client drops a list that starts with an empty key.
  lemma EmptyListSurvives(idBytes: Bytes, ns: Bytes, psk: Bytes, h: Hasher, tail: Bytes)
    requires |idBytes| == 4 && |ns| <= NAMESPACE_SIZE
    requires forall i: nat :: !StopAt(Encode(PacketOf(CMD_TCP_KEYS, idBytes, ns, Join([]), psk, h))[..80], i)
    ensures ClientKeys(Written(PacketOf(CMD_TCP_KEYS, idBytes, ns, Join([]), psk, h)) + tail) == Some([])
  {
    assert HeadIsClear(ListFrame(idBytes, ns, [], psk, h));
    EmptyListReturns(idBytes, ns, psk, h, tail);
  }

  lemma EmptyListReturns(idBytes: Bytes, ns: Bytes, psk: Bytes, h: Hasher, tail: Bytes)
    requires |idBytes| == 4 && |ns| <= NAMESPACE_SIZE && HeadIsClear(ListFrame(idBytes, ns, [], psk, h))
    ensures ClientKeys(Written(PacketOf(CMD_TCP_KEYS, idBytes, ns, Join([]), psk, h)) + tail) == Some([])
  {
    ListFrameLayout(idBytes, ns, [], psk, h);
    EmptyListComesBack(ListFrame(idBytes, ns, [], psk, h), tail);
  }

  lemma EmptyListComesBack(body: Bytes, tail: Bytes)
    requires IsListFrame(body, []) && HeadIsClear(body)
    ensures ClientText(body + STOP + tail) == Some([]) && ClientKeys(body + STOP + tail) == Some([])
  {
    var data := Padded([], DATA_SIZE);
    assert data == Spaces(DATA_SIZE);
    ClearBody(body, data);
    WholeFrameIsRead(body, [], tail);
    TrimOfAllSpace(data);
    SplitOfNothing();
    hide ClientText;
  }

  // ---- Namespaces ----

  lemma NamespaceFrameLayout(idBytes: Bytes, ns: Bytes, names: seq<Bytes>, psk: Bytes, h: Hasher)
    requires |idBytes| == 4 && |ns| <= NAMESPACE_SIZE
    ensures var f := PacketOf(CMD_TCP_NAMESPACES, idBytes, ns, Join(names), psk, h);
            IsListFrame(Encode(f), Join(names)) && Written(f) == Encode(f) + STOP
  {
    PrintedLayout(PacketOf(CMD_TCP_NAMESPACES, idBytes, ns, Join(names), psk, h));
    WrittenIsFrameAndStop(CMD_TCP_NAMESPACES, idBytes, ns, Join(names), psk, h);
  }

  // The two readings of a reply differ for an empty list only.
  lemma NamespacesAreKeys(stream: Bytes, names: seq<Bytes>)
    requires names != [] && names[0] != []
    ensures ClientNamespaces(stream) == Some(names) <==> ClientKeys(stream) == Some(names)
  {
    hide ClientText, Split;
  }

  // A list of namespaces whose first is not empty comes back exactly when a list of keys does.
  lemma NamespaceListSurvivesIff(idBytes: Bytes, ns: Bytes, names: seq<Bytes>, psk: Bytes, h: Hasher, tail: Bytes)
    requires |idBytes| == 4 && |ns| <= NAMESPACE_SIZE && names != [] && names[0] != []
    ensures var f := PacketOf(CMD_TCP_NAMESPACES, idBytes, ns, Join(names), psk, h);
            && |Encode(f)| >= PACKET_SIZE
            && (ClientNamespaces(Written(f) + tail) == Some(names) <==> HeadIsClear(Encode(f)) && Survives(names))
  {
    NamespaceFrameLayout(idBytes, ns, names, psk, h);
    var f := PacketOf(CMD_TCP_NAMESPACES, idBytes, ns, Join(names), psk, h);
    NamespacesAreKeys(Written(f) + tail, names);
    hide ClientNamespaces, ClientKeys, Survives, HeadIsClear, Encode, PacketOf, Join, Written;
    if ClientKeys(Written(f) + tail) == Some(names) {
      ReturnedListSurvives(Encode(f), names, tail);
    }
    if HeadIsClear(Encode(f)) && Survives(names) {
      SurvivorComesBack(Encode(f), names, tail);
    }
  }

  // With no namespace at all the client gets a list of one empty name, not an empty list.
  lemma NoNamespacesIsOneEmptyName(idBytes: Bytes, ns: Bytes, psk: Bytes, h: Hasher, tail: Bytes)
    requires |idBytes| == 4 && |ns| <= NAMESPACE_SIZE
    ensures var f := PacketOf(CMD_TCP_NAMESPACES, idBytes, ns, Join([]), psk, h);
            && |Encode(f)| >= PACKET_SIZE
            && (HeadIsClear(Encode(f)) ==> ClientNamespaces(Written(f) + tail) == Some([[]]))
  {
    NamespaceFrameLayout(idBytes, ns, [], psk, h);
    var f := PacketOf(CMD_TCP_NAMESPACES, idBytes, ns, Join([]), psk, h);
    hide Encode, PacketOf, Written, ClientText, HeadIsClear;
    if HeadIsClear(Encode(f)) {
      EmptyListComesBack(Encode(f), tail);
    }
  }

  // ---- Errors ----

  // The client does not look at the command of a reply on the connection: what an error
  // says comes back as a list of one key, without an error.
  lemma ErrorComesBackAsKey(idBytes: Bytes, ns: Bytes, text: Bytes, psk: Bytes, h: Hasher, tail: Bytes)
    requires |idBytes| == 4 && |ns| <= NAMESPACE_SIZE && |text| <= DATA_SIZE && Carriable(text)
    ensures var f := PacketOf(RES_ERROR, idBytes, ns, text, psk, h);
            && |Encode(f)| == PACKET_SIZE
            && (HeadIsClear(Encode(f)) ==>
                  ClientKeys(Written(f) + tail) == Some([text]) && ClientNamespaces(Written(f) + tail) == Some([text]))
  {
    var f := PacketOf(RES_ERROR, idBytes, ns, text, psk, h);
    PrintedLayout(f);
    WrittenIsFrameAndStop(RES_ERROR, idBytes, ns, text, psk, h);
    TrimOfPadded(text, DATA_SIZE);
    assert Padded(f.data, DATA_SIZE) == Padded(text, DATA_SIZE);
    assert IsListFrame(Encode(f), text);
    JoinHasNoStop([text]);
    assert Join([text]) == text && Survives([text]);
    hide Encode, PacketOf, Written, ClientKeys, ClientNamespaces, HeadIsClear, Survives, Padded, IsListFrame;
    if HeadIsClear(Encode(f)) {
      SurvivorComesBack(Encode(f), [text], tail);
      NamespacesAreKeys(Written(f) + tail, [text]);
    }
  }

  // ---- Dot keys ----

  // The dot key at `j` is read as the stop symbol: a key comes before it, and after it a
  // key or, where the list fills the packet, the stop symbol itself.
  ghost predicate CutsAt(keys: seq<Bytes>, j: nat) {
    0 < j < |keys| && keys[j] == [46] && (j < |keys| - 1 || |Join(keys)| == DATA_SIZE)
  }

  ghost predicate FirstCut(keys: seq<Bytes>, j: nat) {
    j <= |keys| && (j < |keys| ==> CutsAt(keys, j)) && forall i: nat | i < j :: !CutsAt(keys, i)
  }

  // What comes back of a list of plain keys that fits one packet: all keys before the
  // first dot key that cuts. So a dot key in first place, or in last place with room to
  // spare, is carried, and in every other place cuts the list.
  lemma DotKeyCutsTheList(idBytes: Bytes, ns: Bytes, keys: seq<Bytes>, j: nat, psk: Bytes, h: Hasher, tail: Bytes)
    requires |idBytes| == 4 && |ns| <= NAMESPACE_SIZE
    requires keys != [] && (forall i | 0 <= i < |keys| :: Plain(keys[i])) && |Join(keys)| <= DATA_SIZE
    requires HeadIsClear(ListFrame(idBytes, ns, keys, psk, h)) && FirstCut(keys, j)
    ensures ClientKeys(Written(PacketOf(CMD_TCP_KEYS, idBytes, ns, Join(keys), psk, h)) + tail) == Some(keys[..j])
  {
    var body := ListFrame(idBytes, ns, keys, psk, h);
    ListFrameLayout(idBytes, ns, keys, psk, h);
    hide ListFrame, Written, ClientKeys;
    if j == |keys| {
      NoCutSurvives(keys);
      SurvivorComesBack(body, keys, tail);
      assert keys[..j] == keys;
    } else {
      CutComesBack(body, keys, j, tail);
    }
  }

  lemma NoCutSurvives(keys: seq<Bytes>)
    requires keys != [] && (forall i | 0 <= i < |keys| :: Plain(keys[i])) && |Join(keys)| <= DATA_SIZE
    requires FirstCut(keys, |keys|)
    ensures Survives(keys)
  {
    forall i | 0 < i < |keys| - 1
      ensures keys[i] != [46]
    {
      assert !CutsAt(keys, i);
    }
    assert !CutsAt(keys, |keys| - 1);
    assert forall i | 0 <= i < |keys| :: Plain(keys[i]) && NEWLINE !in keys[i];
    OnlyDotKeysStop(keys);
    JoinOfPlain(keys);
    hide Join, StopAt, EndsWithDotLine;
  }

  // Where the first cut is, and what comes before it.
  lemma CutPlace(keys: seq<Bytes>, j: nat)
    requires (forall i | 0 <= i < |keys| :: Plain(keys[i])) && CutsAt(keys, j) && FirstCut(keys, j)
    requires |Join(keys)| <= DATA_SIZE
    ensures var text, before := Join(keys), Join(keys[..j]);
            && |before| + 2 <= |text| && text[..|before|] == before && text[|before|] == 10 && text[|before| + 1] == 46
            && (if |text| == |before| + 2 then |text| == DATA_SIZE else text[|before| + 2] == 10)
            && (forall i: nat :: !StopAt(before, i)) && !EndsWithDotLine(before)
  {
    var before := Join(keys[..j]);
    JoinAround(keys[..j], keys[j], keys[j + 1..]);
    assert keys == keys[..j] + [keys[j]] + keys[j + 1..];
    forall i | 0 < i < j
      ensures keys[..j][i] != [46]
    {
      assert !CutsAt(keys, i);
    }
    assert forall i | 0 <= i < j :: Plain(keys[i]) && NEWLINE !in keys[..j][i];
    OnlyDotKeysStop(keys[..j]);
    hide Join;
  }

  lemma CutComesBack(body: Bytes, keys: seq<Bytes>, j: nat, tail: Bytes)
    requires (forall i | 0 <= i < |keys| :: Plain(keys[i])) && CutsAt(keys, j) && FirstCut(keys, j)
    requires |Join(keys)| <= DATA_SIZE && IsListFrame(body, Join(keys)) && HeadIsClear(body)
    ensures ClientKeys(body + STOP + tail) == Some(keys[..j])
  {
    var text, before := Join(keys), Join(keys[..j]);
    var c := 81 + |before|;
    CutPlace(keys, j);
    JoinOfPlain(keys[..j]);
    assert forall i | 0 <= i < j :: Plain(keys[i]) && NEWLINE !in keys[..j][i];
    SplitOfJoin(keys[..j]);
    assert Plain(keys[0]);
    hide ClientText, Join, Split, StopAt, EndsWithDotLine, CutsAt, FirstCut, Plain;
    FirstStopAtCut(body, text, before);
    ClientCut(body, text, tail, c);
    DataPrefix(body, text, |before|);
    TrimOfTidy(before);
  }

  lemma DataPrefix(body: Bytes, text: Bytes, n: nat)
    requires IsListFrame(body, text) && n <= |text|
    ensures 81 + n <= |body| && body[81..81 + n] == text[..n]
  {
    assert body[81..][..n] == text[..n];
  }

  lemma FirstStopAtCut(body: Bytes, text: Bytes, before: Bytes)
    requires IsListFrame(body, text) && HeadIsClear(body) && |text| <= DATA_SIZE
    requires |before| + 2 <= |text| && text[..|before|] == before && text[|before|] == 10 && text[|before| + 1] == 46
    requires if |text| == |before| + 2 then |text| == DATA_SIZE else text[|before| + 2] == 10
    requires (forall i: nat :: !StopAt(before, i)) && !EndsWithDotLine(before)
    ensures NoStopBefore(body + STOP, 81 + |before| + 3) && EndsWithStop((body + STOP)[..81 + |before| + 3])
  {
    var full, c := body + STOP, 81 + |before|;
    assert forall i | 0 <= i < |text| :: full[81 + i] == body[81..][i] == text[i];
    EndsWithStopIsStopAt(full, c + 3);
    var short := body[..c];
    assert short[81..] == text[..|before|];
    assert short[..80] == body[..80];
    ClearBody(short, before);
    assert full[..c + 3] == short + STOP;
    forall i | 0 <= i < c + 3
      ensures !EndsWithStop(full[..i])
    {
      assert full[..i] == (short + STOP)[..i];
    }
  }
}

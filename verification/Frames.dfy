// What the frame printer and the frame parser guarantee about each other.

module Frames {
  import opened ByteStrings
  import opened Wrappers
  import opened Protocol

  // A UDP packet prints without error exactly when namespace and data fit their fields.
  lemma PrintsIffItFits(command: byte, idBytes: Bytes, ns: Bytes, data: Bytes, psk: Bytes, h: Hasher)
    requires |idBytes| >= 4 && !IsTcpOnlyCmd(command)
    ensures BadOutputSize(PacketOf(command, idBytes, ns, data, psk, h)) <==> |ns| > NAMESPACE_SIZE || |data| > DATA_SIZE
  {
  }

  // Where each field of a printed frame lies.
  lemma PrintedLayout(f: Fields)
    requires |f.hashBytes| >= 8 && |f.idBytes| >= 4
    requires |f.ns| == NAMESPACE_SIZE
    ensures var buf := Encode(f);
            && |buf| == 81 + |Padded(f.data, DATA_SIZE)|
            && buf[0] == f.command && buf[1] == buf[10] == buf[15] == buf[80] == SPACE
            && buf[2..10] == f.hashBytes[..8] && buf[11..15] == f.idBytes[..4]
            && buf[16..80] == f.ns && buf[81..] == Padded(f.data, DATA_SIZE)
  {
  }

  // What the parser gives back: the packet, with the eight bytes of hash that travel.
  function Travelled(f: Fields): Fields
    requires |f.hashBytes| >= 8
  {
    f.(hashBytes := f.hashBytes[..8])
  }

  // Printing then parsing gives the packet back, and its hash validates.
  lemma PrintedFrameParses(command: byte, idBytes: Bytes, ns: Bytes, data: Bytes, psk: Bytes, h: Hasher)
    requires |idBytes| == 4 && |ns| <= NAMESPACE_SIZE && |data| <= DATA_SIZE
    ensures var f := PacketOf(command, idBytes, ns, data, psk, h);
            && |Encode(f)| == PACKET_SIZE
            && ParsePacket(Encode(f))
               == Parsed(Travelled(f), if IsKnownCmd(command) then None else Some(InvalidCommandByte))
            && Validates(Travelled(f), psk, h)
            && Trim(Travelled(f).ns) == Trim(ns)
            && Trim(Travelled(f).data) == Trim(data)
  {
    var f := PacketOf(command, idBytes, ns, data, psk, h);
    PrintedLayout(f);
    var buf := Encode(f);
    assert buf[81..PACKET_SIZE] == buf[81..];
    assert f.hashBytes[..8][..8] == f.hashBytes[..8] && idBytes[..4] == idBytes;
    TrimOfPadded(ns, NAMESPACE_SIZE);
    TrimOfPadded(data, DATA_SIZE);
  }

  predicate WellFormed(buf: Bytes) {
    |buf| == PACKET_SIZE && IsKnownCmd(buf[0]) && buf[1] == buf[10] == buf[15] == buf[80] == SPACE
  }

  lemma WellFormedIffParses(buf: Bytes)
    requires |buf| == PACKET_SIZE
    ensures WellFormed(buf) <==> ParsePacket(buf).Parsed? && ParsePacket(buf).error == None
  {
  }

  // Parsing then printing gives the frame back.
  lemma ParsedFramePrints(buf: Bytes)
    requires WellFormed(buf)
    ensures Encode(ParsePacket(buf).fields) == buf
  {
    var f := ParsePacket(buf).fields;
    assert buf == [buf[0], buf[1]] + buf[2..10] + [buf[10]] + buf[11..15] + [buf[15]] + buf[16..80] + [buf[80]]
           + buf[81..PACKET_SIZE];
    assert f.hashBytes[..8] == buf[2..10] && f.idBytes[..4] == buf[11..15];
  }

  // The hash bytes of a packet that validates are the first eight of its digest.
  lemma ValidHashIsDigest(f: Fields, psk: Bytes, h: Hasher)
    requires |f.hashBytes| == 8 && f.hash == Uint64FromBytes(f.hashBytes) && Validates(f, psk, h)
    ensures f.hashBytes == HashPacket(f, psk, h)[..8]
  {
    var digest := HashPacket(f, psk, h);
    assert f.hashBytes[..8] == f.hashBytes;
    LittleEndianIsInjective(f.hashBytes, digest[..8]);
  }

  // A well-formed frame validates exactly when its hash bytes are the first eight of the
  // hash of the key, the id, the namespace and the data, in this order.
  lemma ValidatesIff(buf: Bytes, psk: Bytes, h: Hasher)
    requires |buf| >= PACKET_SIZE
    ensures Validates(FieldsOf(buf), psk, h)
       <==> buf[2..10] == h(psk + buf[11..15] + buf[16..80] + buf[81..PACKET_SIZE])[..8]
  {
    var f := FieldsOf(buf);
    var digest := h(psk + buf[11..15] + buf[16..80] + buf[81..PACKET_SIZE]);
    assert f.data == buf[81..PACKET_SIZE];
    assert HashPacket(f, psk, h) == digest;
    assert f.hashBytes[..8] == f.hashBytes;
    if Validates(f, psk, h) {
      LittleEndianIsInjective(f.hashBytes, digest[..8]);
    }
  }

  // The frames a server accepts are exactly those a holder of the key can print.
  lemma AcceptedFramesArePrinted(buf: Bytes, psk: Bytes, h: Hasher)
    requires |buf| == PACKET_SIZE
    ensures (WellFormed(buf) && Validates(ParsePacket(buf).fields, psk, h))
        <==> exists command, id: Bytes, ns: Bytes, data: Bytes ::
               && IsKnownCmd(command) && |id| == 4 && |ns| == NAMESPACE_SIZE && |data| == DATA_SIZE
               && buf == Encode(PacketOf(command, id, ns, data, psk, h))
  {
    if WellFormed(buf) && Validates(ParsePacket(buf).fields, psk, h) {
      var f := ParsePacket(buf).fields;
      ParsedFramePrints(buf);
      ValidHashIsDigest(f, psk, h);
      var g := PacketOf(f.command, f.idBytes, f.ns, f.data, psk, h);
      assert g.ns == f.ns && g.data == f.data;
      assert g.hashBytes[..8] == f.hashBytes[..8];
      assert buf == Encode(g);
    }
    if command, id: Bytes, ns: Bytes, data: Bytes :|
      && IsKnownCmd(command) && |id| == 4 && |ns| == NAMESPACE_SIZE && |data| == DATA_SIZE
      && buf == Encode(PacketOf(command, id, ns, data, psk, h))
    {
      PrintedFrameParses(command, id, ns, data, psk, h);
      WellFormedIffParses(buf);
    }
  }

  // ---- Republication ----

  // `republish`: the packet's command becomes 'R' and its hash is set again.
  function Republished(f: Fields, psk: Bytes, h: Hasher): Fields {
    WithHash(f.(command := CMD_PUT_REPLICATE), psk, h)
  }

  // A validated frame is republished unchanged but for its command byte, has the right
  // size, and validates at a peer with the same key under the same id and names.
  lemma RepublishedFrameValidates(buf: Bytes, psk: Bytes, h: Hasher)
    requires WellFormed(buf) && Validates(ParsePacket(buf).fields, psk, h)
    ensures var f, r := ParsePacket(buf).fields, Republished(ParsePacket(buf).fields, psk, h);
            && Encode(r) == buf[0 := CMD_PUT_REPLICATE]
            && !BadOutputSize(r)
            && ParsePacket(Encode(r)) == Parsed(f.(command := CMD_PUT_REPLICATE), None)
            && Validates(ParsePacket(Encode(r)).fields, psk, h)
  {
    var f := ParsePacket(buf).fields;
    var r := Republished(f, psk, h);
    ParsedFramePrints(buf);
    ValidHashIsDigest(f, psk, h);
    assert r.hashBytes[..8] == f.hashBytes[..8];
    PrintedLayout(f);
    assert Encode(r) == [CMD_PUT_REPLICATE] + Encode(f)[1..];
    var out := buf[0 := CMD_PUT_REPLICATE];
    assert out[2..10] == buf[2..10] && out[11..15] == buf[11..15] && out[16..80] == buf[16..80]
        && out[81..PACKET_SIZE] == buf[81..PACKET_SIZE];
  }
}

// protocol/protocol.go: the fixed-width frame, its printer and its parser.

module Protocol {
  import opened ByteStrings
  import opened Wrappers

  const PACKET_SIZE := 1500
  const NAMESPACE_SIZE := 64
  const DATA_SIZE := 1419
  const SPACE: byte := 32

  const CMD_COUNT: byte := 67            // 'C'
  const CMD_PUT: byte := 80              // 'P'
  const CMD_PUT_REPLICATE: byte := 82    // 'R'
  const CMD_COUNT_NAMESPACE: byte := 78  // 'N'
  const CMD_COUNT_SERVER: byte := 83     // 'S'
  const CMD_TCP_KEYS: byte := 75         // 'K'
  const CMD_TCP_VALUES: byte := 86       // 'V'
  const CMD_TCP_STORE: byte := 84        // 'T'
  const CMD_TCP_RETRIEVE: byte := 73     // 'I'
  const CMD_TCP_NAMESPACES: byte := 76   // 'L'
  const RES_ERROR: byte := 69            // 'E'

  const STOP: Bytes := [10, 46, 10]      // "\n.\n"

  predicate IsRequestCmd(c: byte) {
    c == CMD_COUNT || c == CMD_PUT || c == CMD_COUNT_NAMESPACE || c == CMD_COUNT_SERVER || c == CMD_PUT_REPLICATE
  }

  predicate IsTcpOnlyCmd(c: byte) {
    c == CMD_TCP_KEYS || c == CMD_TCP_RETRIEVE || c == CMD_TCP_VALUES || c == CMD_TCP_STORE || c == CMD_TCP_NAMESPACES
  }

  predicate IsResponseCmd(c: byte) {
    c == RES_ERROR || IsRequestCmd(c)
  }

  predicate IsKnownCmd(c: byte) {
    IsRequestCmd(c) || IsResponseCmd(c) || IsTcpOnlyCmd(c)
  }

  // ---- Little-endian integers ----

  type Uint32 = n: nat | n < 0x1_0000_0000
  type Uint64 = n: nat | n < 0x1_0000_0000_0000_0000

  function FromLittleEndian(b: Bytes): nat {
    if b == [] then 0 else b[0] as nat + 0x100 * FromLittleEndian(b[1..])
  }

  function ToLittleEndian(n: nat, size: nat): (b: Bytes)
    ensures |b| == size
  {
    if size == 0 then [] else [(n % 0x100) as byte] + ToLittleEndian(n / 0x100, size - 1)
  }

  function Power256(size: nat): nat {
    if size == 0 then 1 else 0x100 * Power256(size - 1)
  }

  lemma {:induction false} LittleEndianIsBounded(b: Bytes)
    ensures FromLittleEndian(b) < Power256(|b|)
  {
    if b != [] {
      LittleEndianIsBounded(b[1..]);
    }
  }

  lemma {:induction false} PrintedIntegerParses(n: nat, size: nat)
    requires n < Power256(size)
    ensures FromLittleEndian(ToLittleEndian(n, size)) == n
  {
    if size > 0 {
      PrintedIntegerParses(n / 0x100, size - 1);
    }
  }

  lemma ByteAndRest(first: nat, rest: nat)
    requires first < 0x100
    ensures (first + 0x100 * rest) % 0x100 == first && (first + 0x100 * rest) / 0x100 == rest
  {
  }

  lemma {:induction false} ParsedIntegerPrints(b: Bytes)
    ensures ToLittleEndian(FromLittleEndian(b), |b|) == b
  {
    if b != [] {
      var rest := FromLittleEndian(b[1..]);
      ByteAndRest(b[0] as nat, rest);
      ParsedIntegerPrints(b[1..]);
      assert ToLittleEndian(FromLittleEndian(b), |b|) == [b[0]] + ToLittleEndian(rest, |b| - 1);
    }
  }

  // Byte i of an encoded integer is its i-th digit to the base 256, the lowest first.
  lemma {:induction false} ByteOfInteger(n: nat, size: nat, i: nat)
    requires i < size
    ensures Power256(i) > 0 && ToLittleEndian(n, size)[i] as nat == (n / Power256(i)) % 0x100
  {
    if i > 0 {
      ByteOfInteger(n / 0x100, size - 1, i - 1);
      DivideTwice(n, Power256(i - 1));
    }
  }

  lemma DivideTwice(n: nat, p: nat)
    requires p > 0
    ensures (n / 0x100) / p == n / (0x100 * p)
  {
    var q, r := (n / 0x100) / p, (n / 0x100) % p;
    var low := n % 0x100;
    assert n == 0x100 * (q * p + r) + low;
    assert n == q * (0x100 * p) + (0x100 * r + low);
    QuotientIs(n, 0x100 * p, q, 0x100 * r + low);
  }

  lemma QuotientIs(n: nat, d: nat, q: nat, r: nat)
    requires n == q * d + r && r < d
    ensures n / d == q
  {
    var m := n / d;
    assert n == m * d + n % d;
    Distributes(m, q, d);
    Distributes(q, m, d);
    if m > q {
      AtLeastOnce(m - q, d);
    } else if m < q {
      AtLeastOnce(q - m, d);
    }
  }

  lemma Distributes(a: int, b: int, d: int)
    ensures (a - b) * d == a * d - b * d
  {
  }

  lemma AtLeastOnce(a: nat, d: nat)
    requires a > 0
    ensures a * d >= d
  {
  }

  lemma LittleEndianIsInjective(a: Bytes, b: Bytes)
    requires |a| == |b| && FromLittleEndian(a) == FromLittleEndian(b)
    ensures a == b
  {
    ParsedIntegerPrints(a);
    ParsedIntegerPrints(b);
  }

  lemma Powers()
    ensures Power256(4) == 0x1_0000_0000 && Power256(8) == 0x1_0000_0000_0000_0000
  {
    assert Power256(2) == 0x1_0000;
    assert Power256(4) == 0x1_0000_0000;
    assert Power256(6) == 0x1_0000_0000_0000;
  }

  // The source's decoder reads the first four bytes and panics if there are fewer.
  function Uint32FromBytes(b: Bytes): Uint32
    requires |b| >= 4
  {
    LittleEndianIsBounded(b[..4]);
    Powers();
    FromLittleEndian(b[..4])
  }

  function Uint64FromBytes(b: Bytes): Uint64
    requires |b| >= 8
  {
    LittleEndianIsBounded(b[..8]);
    Powers();
    FromLittleEndian(b[..8])
  }

  function Uint32ToBytes(n: Uint32): (b: Bytes)
    ensures |b| == 4 && Uint32FromBytes(b) == n
  {
    Powers();
    PrintedIntegerParses(n, 4);
    var b := ToLittleEndian(n, 4);
    assert b[..4] == b;
    b
  }

  // The four bytes, written out.
  lemma Uint32Layout(n: Uint32)
    ensures Uint32ToBytes(n)[0] as nat == n % 0x100 && Uint32ToBytes(n)[1] as nat == (n / 0x100) % 0x100
    ensures Uint32ToBytes(n)[2] as nat == (n / 0x1_0000) % 0x100 && Uint32ToBytes(n)[3] as nat == n / 0x100_0000
  {
    assert Power256(0) == 1 && Power256(1) == 0x100 && Power256(2) == 0x1_0000 && Power256(3) == 0x100_0000;
    assert Uint32ToBytes(n) == ToLittleEndian(n, 4);
    hide ToLittleEndian, Uint32ToBytes, Power256;
    ByteOfInteger(n, 4, 0);
    ByteOfInteger(n, 4, 1);
    ByteOfInteger(n, 4, 2);
    ByteOfInteger(n, 4, 3);
  }

  function Uint64ToBytes(n: Uint64): (b: Bytes)
    ensures |b| == 8 && Uint64FromBytes(b) == n
  {
    Powers();
    PrintedIntegerParses(n, 8);
    var b := ToLittleEndian(n, 8);
    assert b[..8] == b;
    b
  }

  // ---- Padding and trimming ----

  function Spaces(n: nat): Bytes {
    seq(n, _ => SPACE)
  }

  // `PadRight`: longer input is left as it is.
  function Padded(b: Bytes, size: nat): (p: Bytes)
    ensures |p| == if |b| < size then size else |b|
  {
    if |b| >= size then b else b + Spaces(size - |b|)
  }

  method PadRight(input: Bytes, finalSize: nat) returns (out: Bytes)
    ensures out == Padded(input, finalSize)
    ensures |out| == (if |input| < finalSize then finalSize else |input|) && out[..|input|] == input
    ensures forall i | |input| <= i < |out| :: out[i] == SPACE
  {
    if |input| >= finalSize {
      return input;
    }
    var buffer := new byte[finalSize];
    for i := 0 to |input|
      invariant buffer[..i] == input[..i]
    {
      buffer[i] := input[i];
    }
    for i := |input| to finalSize
      invariant buffer[..i] == input + Spaces(i - |input|)
    {
      buffer[i] := SPACE;
    }
    out := buffer[..];
    assert buffer[..finalSize] == buffer[..];
  }

  // White space among the ASCII bytes.
  predicate IsSpace(b: byte) {
    9 <= b <= 13 || b == SPACE
  }

  function TrimLeft(b: Bytes): Bytes {
    if b == [] || !IsSpace(b[0]) then b else TrimLeft(b[1..])
  }

  function TrimRight(b: Bytes): Bytes {
    if b == [] || !IsSpace(b[|b| - 1]) then b else TrimRight(b[..|b| - 1])
  }

  function Trim(b: Bytes): Bytes {
    TrimRight(TrimLeft(b))
  }

  lemma {:induction false} TrimRightOfPadding(b: Bytes, n: nat)
    ensures TrimRight(b + Spaces(n)) == TrimRight(b)
  {
    if n == 0 {
      assert b + Spaces(0) == b;
    } else {
      var p := b + Spaces(n);
      assert p[..|p| - 1] == b + Spaces(n - 1);
      TrimRightOfPadding(b, n - 1);
    }
  }

  lemma {:induction false} TrimLeftOfPadding(b: Bytes, n: nat)
    ensures TrimLeft(b + Spaces(n)) == if TrimLeft(b) == [] then [] else TrimLeft(b) + Spaces(n)
  {
    if b == [] {
      assert b + Spaces(n) == Spaces(n);
      TrimLeftOfSpaces(n);
    } else {
      var p := b + Spaces(n);
      assert p[1..] == b[1..] + Spaces(n);
      if IsSpace(b[0]) {
        TrimLeftOfPadding(b[1..], n);
      }
    }
  }

  lemma {:induction false} TrimLeftOfSpaces(n: nat)
    ensures TrimLeft(Spaces(n)) == []
  {
    if n > 0 {
      assert Spaces(n)[1..] == Spaces(n - 1);
      TrimLeftOfSpaces(n - 1);
    }
  }

  // Padding is invisible once trimmed.
  lemma TrimOfPadded(b: Bytes, size: nat)
    ensures Trim(Padded(b, size)) == Trim(b)
  {
    if |b| < size {
      TrimLeftOfPadding(b, size - |b|);
      TrimRightOfPadding(TrimLeft(b), size - |b|);
    }
  }

  // ---- Packets ----

  // The hash function: of some concatenated bytes it gives at least the eight bytes used.
  type Digest = d: Bytes | |d| >= 8 witness [0, 0, 0, 0, 0, 0, 0, 0]
  type Hasher = Bytes -> Digest

  // The fields of a packet, by value.
  datatype Fields = Fields(
    command: byte,
    hashBytes: Bytes,
    hash: Uint64,
    idBytes: Bytes,
    id: Uint32,
    ns: Bytes,
    data: Bytes)

  function HashPacket(f: Fields, psk: Bytes, h: Hasher): Digest {
    h(psk + f.idBytes + f.ns + f.data)
  }

  function WithHash(f: Fields, psk: Bytes, h: Hasher): Fields {
    f.(hashBytes := HashPacket(f, psk, h), hash := Uint64FromBytes(HashPacket(f, psk, h)))
  }

  predicate Validates(f: Fields, psk: Bytes, h: Hasher) {
    f.hash == Uint64FromBytes(HashPacket(f, psk, h))
  }

  // `NewPacketFromParts`.
  function PacketOf(command: byte, idBytes: Bytes, ns: Bytes, data: Bytes, psk: Bytes, h: Hasher): Fields
    requires |idBytes| >= 4
  {
    var (ns', data') := (Padded(ns, NAMESPACE_SIZE), Padded(data, DATA_SIZE));
    WithHash(Fields(command, [], 0, idBytes, Uint32FromBytes(idBytes), ns', data'), psk, h)
  }

  // `bytes`: the source panics when the hash or the id is shorter than it reads.
  function Encode(f: Fields): Bytes
    requires |f.hashBytes| >= 8 && |f.idBytes| >= 4
  {
    [f.command, SPACE] + f.hashBytes[..8] + [SPACE] + f.idBytes[..4] + [SPACE]
    + Padded(f.ns, NAMESPACE_SIZE) + [SPACE] + Padded(f.data, DATA_SIZE)
  }

  // `Bytes` reports a wrong size unless the command is for TCP only.
  predicate BadOutputSize(f: Fields)
    requires |f.hashBytes| >= 8 && |f.idBytes| >= 4
  {
    |Encode(f)| != PACKET_SIZE && !IsTcpOnlyCmd(f.command)
  }

  datatype Error =
    | InvalidCommandByte
    | ExpectedSpace(index: nat)
    | TooLarge
    | BadHash
    | BadOutput

  // `ParsePacket` answers no packet, or a packet and perhaps an error.
  datatype Parsed = TooSmall | Parsed(fields: Fields, error: Option<Error>)

  function Min(a: nat, b: nat): nat {
    if a < b then a else b
  }

  function FieldsOf(buf: Bytes): Fields
    requires |buf| >= 82
  {
    Fields(buf[0], buf[2..10], Uint64FromBytes(buf[2..10]), buf[11..15], Uint32FromBytes(buf[11..15]), buf[16..80],
           Padded(buf[81..Min(|buf|, PACKET_SIZE)], DATA_SIZE))
  }

  function FrameError(buf: Bytes): Option<Error>
    requires |buf| >= 82
  {
    if !IsKnownCmd(buf[0]) then Some(InvalidCommandByte)
    else if buf[1] != SPACE then Some(ExpectedSpace(1))
    else if buf[10] != SPACE then Some(ExpectedSpace(10))
    else if buf[15] != SPACE then Some(ExpectedSpace(15))
    else if buf[80] != SPACE then Some(ExpectedSpace(80))
    else if |buf| > PACKET_SIZE && !IsTcpOnlyCmd(buf[0]) then Some(TooLarge)
    else None
  }

  function ParsePacket(buf: Bytes): Parsed {
    if |buf| < 82 then TooSmall else Parsed(FieldsOf(buf), FrameError(buf))
  }

  // The packet as the source holds it, with fields that SetHash and the callers overwrite.
  class Packet {
    var command: byte
    var hashBytes: Bytes
    var hash: Uint64
    var idBytes: Bytes
    var id: Uint32
    var ns: Bytes
    var data: Bytes

    function View(): Fields
      reads this
    {
      Fields(command, hashBytes, hash, idBytes, id, ns, data)
    }

    constructor (f: Fields)
      ensures View() == f
    {
      command, hashBytes, hash, idBytes, id, ns, data := f.command, f.hashBytes, f.hash, f.idBytes, f.id, f.ns, f.data;
    }

    constructor FromParts(command: byte, idBytes: Bytes, ns: Bytes, data: Bytes, psk: Bytes, h: Hasher)
      requires |idBytes| >= 4
      ensures View() == PacketOf(command, idBytes, ns, data, psk, h)
    {
      this.command, this.hashBytes, this.hash := command, [], 0;
      this.idBytes, this.id := idBytes, Uint32FromBytes(idBytes);
      this.ns, this.data := [], [];
      new;
      this.ns := PadRight(ns, NAMESPACE_SIZE);
      this.data := PadRight(data, DATA_SIZE);
      SetHash(psk, h);
    }

    method SetHash(psk: Bytes, h: Hasher)
      modifies this
      ensures hashBytes == h(psk + old(idBytes) + old(ns) + old(data)) && hash == Uint64FromBytes(hashBytes)
      ensures command == old(command) && idBytes == old(idBytes) && id == old(id)
      ensures ns == old(ns) && data == old(data)
      ensures View() == WithHash(old(View()), psk, h)
    {
      hashBytes := HashPacket(View(), psk, h);
      hash := Uint64FromBytes(hashBytes);
    }

    method ToBytes() returns (out: Bytes, error: Option<Error>)
      requires |hashBytes| >= 8 && |idBytes| >= 4
      ensures out == Encode(View())
      ensures error == if BadOutputSize(View()) then Some(BadOutput) else None
    {
      var namespace := PadRight(ns, NAMESPACE_SIZE);
      var dataValue := PadRight(data, DATA_SIZE);
      out := [command, SPACE] + hashBytes[..8] + [SPACE] + idBytes[..4] + [SPACE];
      out := out + namespace;
      out := out + [SPACE];
      out := out + dataValue;
      error := if |out| != PACKET_SIZE && !IsTcpOnlyCmd(command) then Some(BadOutput) else None;
    }
  }
}

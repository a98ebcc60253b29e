/** LS-Net packets: `buildPacket` and `parsePacket` in src/lightspacenet/LightSpaceNetPacket.cpp.

Layout: 10-byte header, size, version (big-endian words), type, command, payload length, payload,
CRC of everything before it. */
module LsNetPacket {
  import opened Bytes
  import opened LsNetCrc
  import opened Options

  /** "LIGHTSPACE" */
  const HEADER: seq<Byte> := [0x4C, 0x49, 0x47, 0x48, 0x54, 0x53, 0x50, 0x41, 0x43, 0x45]
  const PROTOCOL_VERSION: Word := 0x0001
  const OVERHEAD: nat := 20
  const MAX_PACKET: nat := 0xFFFF

  datatype Packet = Packet(version: Word, packetType: Byte, commandWord: Byte, payload: seq<Byte>)

  predicate Buildable(payload: seq<Byte>) { OVERHEAD + |payload| <= MAX_PACKET }

  /** The eight bytes between the header and the payload. */
  function Prologue(size: Word, packetType: Byte, commandWord: Byte, dataLength: Word): (s: seq<Byte>)
    ensures |s| == 8
  {
    [HighByte(size), LowByte(size), HighByte(PROTOCOL_VERSION), LowByte(PROTOCOL_VERSION),
     packetType, commandWord, HighByte(dataLength), LowByte(dataLength)]
  }

  /** Every field before the CRC. */
  function Fields(packetType: Byte, commandWord: Byte, payload: seq<Byte>): (s: seq<Byte>)
    requires Buildable(payload)
    ensures |s| == 18 + |payload|
  {
    HEADER + Prologue(OVERHEAD + |payload|, packetType, commandWord, |payload|) + payload
  }

  /** The bytes of a packet; nothing at all when the payload does not fit the size field. */
  function Build(packetType: Byte, commandWord: Byte, payload: seq<Byte>): seq<Byte>
  {
    if !Buildable(payload) then []
    else
      var fields := Fields(packetType, commandWord, payload);
      fields + WriteBe16(Crc(fields))
  }

  method AppendBe16(output: seq<Byte>, value: Word) returns (extended: seq<Byte>)
    ensures extended == output + [HighByte(value), LowByte(value)]
  {
    extended := output + [HighByte(value)];
    extended := extended + [LowByte(value)];
  }

  method BuildPacket(packetType: Byte, commandWord: Byte, payload: seq<Byte>)
    returns (output: seq<Byte>)
    ensures output == Build(packetType, commandWord, payload)
  {
    hide Crc, HighByte, LowByte;
    var packetSize := OVERHEAD + |payload|;
    if packetSize > MAX_PACKET || |payload| > MAX_PACKET {
      return [];
    }
    var prologue := AppendBe16([], packetSize);
    prologue := AppendBe16(prologue, PROTOCOL_VERSION);
    prologue := prologue + [packetType];
    prologue := prologue + [commandWord];
    prologue := AppendBe16(prologue, |payload|);
    assert prologue == Prologue(packetSize, packetType, commandWord, |payload|);
    output := HEADER + prologue;
    if |payload| > 0 {
      output := output + payload;
    }
    assert output == Fields(packetType, commandWord, payload);
    var crc := Compute(output);
    output := AppendBe16(output, crc);
  }

  function Parse(data: seq<Byte>): Option<Packet>
  {
    if |data| < OVERHEAD then None
    else if data[..10] != HEADER then None
    else if ReadBe16(data[10], data[11]) != |data| then None
    else
      var dataLength := ReadBe16(data[16], data[17]);
      if dataLength + OVERHEAD != |data| then None
      else if ReadBe16(data[|data| - 2], data[|data| - 1]) != Crc(data[..|data| - 2]) then None
      else if ReadBe16(data[12], data[13]) != PROTOCOL_VERSION then None
      else Some(Packet(PROTOCOL_VERSION, data[14], data[15], data[18..18 + dataLength]))
  }

  // ----- printer and parser are exact inverses -----

  lemma ThreeParts(a: seq<Byte>, b: seq<Byte>, c: seq<Byte>)
    ensures var s := a + b + c;
            && s[..|a|] == a
            && s[|a| + |b|..] == c
            && forall i :: |a| <= i < |a| + |b| ==> s[i] == b[i - |a|]
  {
  }

  lemma ReadOfWrite(w: Word)
    ensures ReadBe16(HighByte(w), LowByte(w)) == w
  {
  }

  lemma WriteOfRead(high: Byte, low: Byte)
    ensures HighByte(ReadBe16(high, low)) == high && LowByte(ReadBe16(high, low)) == low
    ensures WriteBe16(ReadBe16(high, low)) == [high, low]
  {
  }

  lemma FieldsAt(packetType: Byte, commandWord: Byte, payload: seq<Byte>)
    requires Buildable(payload)
    ensures var f := Fields(packetType, commandWord, payload);
            && f[..10] == HEADER
            && ReadBe16(f[10], f[11]) == OVERHEAD + |payload|
            && ReadBe16(f[12], f[13]) == PROTOCOL_VERSION
            && f[14] == packetType && f[15] == commandWord
            && ReadBe16(f[16], f[17]) == |payload|
            && f[18..] == payload
  {
    hide ReadBe16, HighByte, LowByte;
    ReadOfWrite(OVERHEAD + |payload|);
    ReadOfWrite(PROTOCOL_VERSION);
    ReadOfWrite(|payload|);
    ThreeParts(HEADER, Prologue(OVERHEAD + |payload|, packetType, commandWord, |payload|), payload);
  }

  lemma ParseOfBuild(packetType: Byte, commandWord: Byte, payload: seq<Byte>)
    requires Buildable(payload)
    ensures Parse(Build(packetType, commandWord, payload))
         == Some(Packet(PROTOCOL_VERSION, packetType, commandWord, payload))
  {
    hide Crc, Fields;
    var fields := Fields(packetType, commandWord, payload);
    var data := Build(packetType, commandWord, payload);
    var stored := WriteBe16(Crc(fields));
    FieldsAt(packetType, commandWord, payload);
    assert data == fields + stored && |data| == OVERHEAD + |payload|;
    assert data[..|data| - 2] == fields;
    assert data[..10] == fields[..10];
    assert data[18..18 + |payload|] == fields[18..];
    assert data[|data| - 2] == stored[0] && data[|data| - 1] == stored[1];
  }

  lemma BuildOfParse(data: seq<Byte>)
    ensures Parse(data).Some? ==>
              var p := Parse(data).value;
              Buildable(p.payload) && Build(p.packetType, p.commandWord, p.payload) == data
  {
    hide Crc, HighByte, LowByte, ReadBe16;
    if Parse(data).Some? {
      var p := Parse(data).value;
      var n := |data| - 2;
      WriteOfRead(data[10], data[11]);
      WriteOfRead(data[12], data[13]);
      WriteOfRead(data[16], data[17]);
      WriteOfRead(data[n], data[n + 1]);
      assert data[10..18] == Prologue(|data|, p.packetType, p.commandWord, |p.payload|);
      assert data[..n] == data[..10] + data[10..18] + data[18..n];
      assert data == data[..n] + [data[n], data[n + 1]];
    }
  }
}

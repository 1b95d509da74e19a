/** Length-delimited packets on a byte stream, and the compilation ID in front of each message. */
module Framing {
  import opened Varints

  const LENGTH_BITS := 53
  const ID_BITS := 32

  datatype Progress<T> = Complete(value: T, rest: seq<Byte>) | Overlong | Incomplete

  /**
   Reads one varint of at most `maxLength` bits from the front of a buffer. `seen`
   are the bytes already consumed.
   */
  function TakeVarint(seen: seq<Byte>, buffer: seq<Byte>, maxLength: nat): Progress<nat>
    decreases |buffer|
  {
    if buffer == [] then Incomplete
    else
      var bytes := seen + [buffer[0]];
      if buffer[0] >= 128 then
        if 7 * |bytes| >= maxLength then Overlong else TakeVarint(bytes, buffer[1..], maxLength)
      else if Payload(bytes) < Pow2(maxLength) then Complete(Payload(bytes), buffer[1..])
      else Overlong
  }

  /** A varint of a number that fits is read back, whatever follows it. */
  lemma {:induction false} TakeWholeVarint(seen: seq<Byte>, bytes: seq<Byte>, rest: seq<Byte>, maxLength: nat)
    requires IsVarint(bytes) && Payload(seen + bytes) < Pow2(maxLength)
    requires 7 * (|seen| + |bytes| - 1) < maxLength || |seen| + |bytes| == 1
    ensures TakeVarint(seen, bytes + rest, maxLength) == Complete(Payload(seen + bytes), rest)
    decreases |bytes|
  {
    var buffer := bytes + rest;
    assert buffer[1..] == bytes[1..] + rest;
    if |bytes| == 1 {
      assert seen + [buffer[0]] == seen + bytes;
      assert bytes[1..] + rest == rest;
    } else {
      assert bytes[..|bytes| - 1][0] == bytes[0];
      assert seen + [buffer[0]] + bytes[1..] == seen + bytes;
      TailIsVarint(bytes);
      TakeWholeVarint(seen + [buffer[0]], bytes[1..], rest, maxLength);
    }
  }

  lemma TailIsVarint(bytes: seq<Byte>)
    requires IsVarint(bytes) && |bytes| > 1
    ensures IsVarint(bytes[1..])
  {
    var rest := bytes[1..];
    assert rest[..|rest| - 1] == bytes[..|bytes| - 1][1..];
  }

  /** The encoding of a number of at most `n` bits is short enough for a builder of `n` bits. */
  lemma EncodingFits(value: nat, maxLength: nat)
    requires value < Pow2(maxLength)
    ensures 7 * (|Varint(value)| - 1) < maxLength || |Varint(value)| == 1
  {
    if value > 0 {
      VarintLength(value);
      Halves(value, maxLength);
    }
  }

  lemma TakeEncoding(value: nat, rest: seq<Byte>, maxLength: nat)
    requires value < Pow2(maxLength)
    ensures TakeVarint([], Varint(value) + rest, maxLength) == Complete(value, rest)
  {
    hide Varint, Pow2, TakeVarint, Payload, IsVarint;
    VarintRoundTrip(value);
    EncodingFits(value, maxLength);
    assert [] + Varint(value) == Varint(value);
    TakeWholeVarint([], Varint(value), rest, maxLength);
  }

  // ---- What the front of a buffer is ----

  /** Not a varint of a number that fits: it goes on for too long, or is too large. */
  predicate TooLong(bytes: seq<Byte>, maxLength: nat) {
    || ((forall b <- bytes :: b >= 128) && 7 * |bytes| >= maxLength)
    || (IsVarint(bytes) && Payload(bytes) >= Pow2(maxLength))
  }

  /** Of a buffer either the first bytes are a varint that fits, or they are too long, or no varint ends in it. */
  lemma {:induction false} TakeMeans(seen: seq<Byte>, buffer: seq<Byte>, maxLength: nat) returns (k: nat)
    requires forall b <- seen :: b >= 128
    ensures k <= |buffer|
    ensures match TakeVarint(seen, buffer, maxLength)
            case Complete(value, rest) =>
              && IsVarint(seen + buffer[..k]) && value == Payload(seen + buffer[..k]) < Pow2(maxLength) && rest == buffer[k..]
            case Incomplete => forall b <- buffer :: b >= 128
            case Overlong => TooLong(seen + buffer[..k], maxLength)
    decreases |buffer|
  {
    hide Payload, Pow2;
    if buffer == [] {
      k := 0;
    } else {
      var bytes := seen + [buffer[0]];
      assert seen + buffer[..1] == bytes;
      if buffer[0] >= 128 && 7 * |bytes| < maxLength {
        var rest := TakeMeans(bytes, buffer[1..], maxLength);
        k := rest + 1;
        assert bytes + buffer[1..][..rest] == seen + buffer[..k] && buffer[1..][rest..] == buffer[k..];
        assert buffer == [buffer[0]] + buffer[1..];
        assert TakeVarint(seen, buffer, maxLength) == TakeVarint(bytes, buffer[1..], maxLength);
      } else {
        k := 1;
        assert bytes[..|bytes| - 1] == seen && bytes[|bytes| - 1] == buffer[0];
        if buffer[0] >= 128 {
          assert TooLong(bytes, maxLength);
        } else {
          assert forall i | 0 <= i < |seen| :: seen[i] in seen;
        }
      }
    }
  }

  /** The front of the data is the length of a packet. */
  predicate LengthAt(data: seq<Byte>, k: nat) {
    k <= |data| && IsVarint(data[..k]) && Payload(data[..k]) < Pow2(LENGTH_BITS)
  }

  /**
   A packet is a length and as many bytes. The stream ends properly where there is
   nothing after a length, or no length at all; otherwise in the middle of a packet.
   */
  lemma PacketMeans(data: seq<Byte>)
    ensures match PacketOf(data)
            case Packet(bytes) =>
              exists k: nat :: LengthAt(data, k) && |bytes| == Payload(data[..k])
                               && k + |bytes| <= |data| && bytes == data[k..k + |bytes|]
            case BadLength => exists k: nat :: k <= |data| && TooLong(data[..k], LENGTH_BITS)
            case StreamEnd(EOF) =>
              (forall b <- data :: b >= 128) || (LengthAt(data, |data|) && Payload(data) > 0)
            case StreamEnd(UnexpectedEOF) =>
              exists k: nat :: LengthAt(data, k) && k < |data| < k + Payload(data[..k])
  {
    hide Payload, Pow2, TakeVarint, TooLong;
    var k := TakeMeans([], data, LENGTH_BITS);
    assert [] + data[..k] == data[..k];
    assert k == |data| ==> data[..k] == data;
    if TakeVarint([], data, LENGTH_BITS).Complete? {
      assert LengthAt(data, k);
      var length, rest := Payload(data[..k]), data[k..];
      assert |rest| == |data| - k && (length <= |rest| ==> rest[..length] == data[k..k + length]);
    }
  }

  /** What a packet that cannot be parsed is like, and what the ID of another one is. */
  lemma ParsedMeans(packet: seq<Byte>)
    ensures match ParsedOf(packet)
            case Message(id, payload) =>
              exists k: nat :: && k <= |packet| && IsVarint(packet[..k]) && id == Payload(packet[..k]) < Pow2(ID_BITS)
                               && payload == packet[k..]
            case BadId => exists k: nat :: k <= |packet| && TooLong(packet[..k], ID_BITS)
            case NoId => forall b <- packet :: b >= 128
  {
    hide Payload, Pow2, TakeVarint, TooLong;
    var k := TakeMeans([], packet, ID_BITS);
    assert [] + packet[..k] == packet[..k];
  }

  // ---- Packets on a stream ----

  datatype ReadError = EOF | UnexpectedEOF
  datatype Read = Bytes(bytes: seq<Byte>) | Failed(error: ReadError)
  datatype PacketRead = Packet(bytes: seq<Byte>) | BadLength | StreamEnd(error: ReadError)

  /** A blocking byte stream: what has been written and not read yet. */
  class Stream {
    var data: seq<Byte>

    constructor ()
      ensures data == []
    {
      data := [];
    }

    method Write(bytes: seq<Byte>)
      modifies this
      ensures data == old(data) + bytes
    {
      data := data + bytes;
    }

    /** Reads exactly `n` bytes, or reports whether none or only some were left. */
    method ReadFull(n: nat) returns (read: Read)
      modifies this
      ensures read == if n <= |old(data)| then Bytes(old(data)[..n])
                      else if old(data) == [] then Failed(EOF) else Failed(UnexpectedEOF)
      ensures data == if n <= |old(data)| then old(data)[n..] else []
    {
      if n <= |data| {
        read, data := Bytes(data[..n]), data[n..];
      } else {
        read, data := Failed(if data == [] then EOF else UnexpectedEOF), [];
      }
    }
  }

  /** What reading one packet gives. */
  function PacketOf(data: seq<Byte>): PacketRead {
    match TakeVarint([], data, LENGTH_BITS)
    case Overlong => BadLength
    case Incomplete => StreamEnd(EOF)
    case Complete(length, rest) =>
      if length <= |rest| then Packet(rest[..length])
      else StreamEnd(if rest == [] then EOF else UnexpectedEOF)
  }

  method ReadPacket(stream: Stream) returns (packet: PacketRead)
    modifies stream
    ensures packet == PacketOf(old(stream.data))
    ensures packet.Packet? ==>
              match TakeVarint([], old(stream.data), LENGTH_BITS)
              case Complete(length, rest) => length <= |rest| && stream.data == rest[length..]
              case _ => false
  {
    hide Payload, Pow2, IsVarint, VarintBuilder.Valid;
    var builder := new VarintBuilder(LENGTH_BITS);
    var length := 0;
    ghost var all := stream.data;
    while true
      invariant builder.Valid() && !builder.done && builder.maxLength == LENGTH_BITS && fresh(builder)
      invariant TakeVarint(builder.consumed, stream.data, LENGTH_BITS) == TakeVarint([], all, LENGTH_BITS)
      decreases |stream.data|
    {
      var buf := stream.ReadFull(1);
      if buf.Failed? {
        return StreamEnd(buf.error);
      }
      var progress := builder.Add(buf.bytes[0]);
      match progress
      case More =>
      case Value(value) =>
        length := value;
        break;
      case _ =>
        return BadLength;
    }
    var read := stream.ReadFull(length);
    return match read
      case Bytes(bytes) => Packet(bytes)
      case Failed(error) => StreamEnd(error);
  }

  /** What a packet looks like on the stream: the length is cut to 32 bits. */
  function Framed(packet: seq<Byte>): seq<Byte> { Varint(|packet| % 0x1_0000_0000) + packet }

  method WritePacket(stream: Stream, packet: seq<Byte>)
    modifies stream
    ensures stream.data == old(stream.data) + Framed(packet)
  {
    var lengthVarint := EncodeVarint(|packet| % 0x1_0000_0000);
    stream.Write(lengthVarint[..]);
    stream.Write(packet);
    assert old(stream.data) + Varint(|packet| % 0x1_0000_0000) + packet == old(stream.data) + Framed(packet);
  }

  lemma IdLimit()
    ensures Pow2(ID_BITS) == 0x1_0000_0000
  {
    Pow2Seven(0);
    Pow2Seven(7);
    Pow2Seven(14);
    Pow2Seven(21);
    assert Pow2(32) == 2 * Pow2(31) && Pow2(31) == 2 * Pow2(30) && Pow2(30) == 2 * Pow2(29) && Pow2(29) == 2 * Pow2(28);
  }

  lemma LengthFits(n: nat)
    requires n < 0x1_0000_0000
    ensures n < Pow2(ID_BITS) && n < Pow2(LENGTH_BITS)
  {
    IdLimit();
    Pow2Grows(ID_BITS, LENGTH_BITS);
  }

  /** A framed packet is read back whole exactly when its length fits 32 bits. */
  lemma FramingRoundTrip(packet: seq<Byte>, rest: seq<Byte>)
    ensures TakeVarint([], Framed(packet) + rest, LENGTH_BITS) == Complete(|packet| % 0x1_0000_0000, packet + rest)
    ensures PacketOf(Framed(packet) + rest) == Packet(packet) <==> |packet| < 0x1_0000_0000
  {
    hide Varint, Pow2, TakeVarint;
    var length := |packet| % 0x1_0000_0000;
    LengthFits(length);
    assert Framed(packet) + rest == Varint(length) + (packet + rest);
    TakeEncoding(length, packet + rest, LENGTH_BITS);
    if |packet| < 0x1_0000_0000 {
      assert (packet + rest)[..length] == packet;
    } else {
      assert |(packet + rest)[..length]| < |packet|;
    }
  }

  function AllFramed(packets: seq<seq<Byte>>): seq<Byte> {
    if packets == [] then [] else Framed(packets[0]) + AllFramed(packets[1..])
  }

  /** Writing any packets of less than 4 GiB and reading the stream back gives the same packets, then the end. */
  method WriteThenRead(packets: seq<seq<Byte>>) returns (read: seq<seq<Byte>>, last: PacketRead)
    requires forall p <- packets :: |p| < 0x1_0000_0000
    ensures read == packets && last == StreamEnd(EOF)
  {
    hide Framed, TakeVarint;
    var stream := new Stream();
    for i := 0 to |packets|
      invariant stream.data + AllFramed(packets[i..]) == AllFramed(packets)
    {
      assert packets[i..][0] == packets[i] && packets[i..][1..] == packets[i + 1..];
      assert stream.data + (Framed(packets[i]) + AllFramed(packets[i + 1..]))
             == stream.data + Framed(packets[i]) + AllFramed(packets[i + 1..]);
      WritePacket(stream, packets[i]);
    }
    read := [];
    for i := 0 to |packets|
      invariant stream.data == AllFramed(packets[i..]) && read == packets[..i]
    {
      assert packets[i..][0] == packets[i] && packets[i..][1..] == packets[i + 1..] && packets[i] in packets;
      FramingRoundTrip(packets[i], AllFramed(packets[i + 1..]));
      var packet := ReadPacket(stream);
      read := read + [packet.bytes];
    }
    assert packets[|packets|..] == [];
    assert PacketOf([]) == StreamEnd(EOF) by {
      NothingToTake();
    }
    last := ReadPacket(stream);
  }

  lemma NothingToTake()
    ensures TakeVarint([], [], LENGTH_BITS) == Incomplete
  {}

  // ---- Compilation IDs ----

  datatype Parsed = Message(id: nat, payload: seq<Byte>) | BadId | NoId

  /** The ID and the rest of a packet. */
  function ParsedOf(packet: seq<Byte>): Parsed {
    match TakeVarint([], packet, ID_BITS)
    case Complete(id, payload) => Message(id, payload)
    case Overlong => BadId
    case Incomplete => NoId
  }

  method ParsePacket(packet: seq<Byte>) returns (parsed: Parsed)
    ensures parsed == ParsedOf(packet)
    ensures parsed.Message? ==> parsed.id < 0x1_0000_0000
  {
    hide Payload, Pow2, IsVarint, VarintBuilder.Valid;
    var builder := new VarintBuilder(ID_BITS);
    for i := 0 to |packet|
      invariant builder.Valid() && !builder.done && builder.maxLength == ID_BITS && fresh(builder)
      invariant TakeVarint(builder.consumed, packet[i..], ID_BITS) == TakeVarint([], packet, ID_BITS)
    {
      assert packet[i..][0] == packet[i] && packet[i..][1..] == packet[i + 1..];
      var progress := builder.Add(packet[i]);
      match progress
      case More =>
      case Value(id) =>
        IdLimit();
        return Message(id, packet[i + 1..]);
      case _ =>
        return BadId;
    }
    return NoId;
  }

  function Serialized(id: nat, message: seq<Byte>): seq<Byte> { Varint(id) + message }

  /** Parsing undoes serializing, for every 32-bit ID and every message. */
  lemma ParseUndoesSerialize(id: nat, message: seq<Byte>)
    requires id < 0x1_0000_0000
    ensures ParsedOf(Serialized(id, message)) == Message(id, message)
  {
    LengthFits(id);
    TakeEncoding(id, message, ID_BITS);
  }

  /** Different IDs or messages give different packets. */
  lemma SerializeIsInjective(id: nat, message: seq<Byte>, other: nat, otherMessage: seq<Byte>)
    requires id < 0x1_0000_0000 && other < 0x1_0000_0000
    requires Serialized(id, message) == Serialized(other, otherMessage)
    ensures id == other && message == otherMessage
  {
    ParseUndoesSerialize(id, message);
    ParseUndoesSerialize(other, otherMessage);
  }
}

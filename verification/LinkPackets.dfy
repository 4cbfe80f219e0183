/**
  The link's own packets as the packet library describes them: what the filters read
  from a packet, and what a write sends, are their fields.
  */
module LinkPackets {
  import opened Bytes
  import opened Framing
  import opened Options
  import opened Printf
  import opened SeqTracking
  import P = PacketSchema
  import H = SerialHost

  const ACK_FRAME := [P.IntField(1), P.IntField(1)]
  const DATA_FRAME := [P.IntField(1), P.IntField(1), P.IntField(1), P.BlobField(P.Unsized)]
  const NO_ACK_DATA_FRAME := [P.IntField(1), P.IntField(1), P.BlobField(P.Unsized)]
  const ACTIVE_MESSAGE :=
    [P.IntField(2), P.IntField(2), P.IntField(1), P.IntField(1), P.IntField(1), P.BlobField(P.Unsized)]

  lemma OneByte(data: seq<Byte>, i: nat)
    ensures P.Decode(Slice(data, i, i + 1)) == H.Field(data, i) as int
  {
    if i < |data| {
      assert Slice(data, i, i + 1) == [data[i]];
      assert [data[i]][..0] == [];
      assert P.Decode([]) == 0;
    }
  }

  lemma ParseInt(schema: seq<P.Field>, s: nat, data: seq<Byte>, offset: nat)
    ensures P.ParseFrom([P.IntField(s)] + schema, data, offset, 0)
         == P.Prepend(P.Number(P.Decode(Slice(data, offset, offset + s))), P.ParseFrom(schema, data, offset + s, 0))
  {
    assert ([P.IntField(s)] + schema)[1..] == schema;
  }

  lemma ParseBlob(data: seq<Byte>, offset: nat)
    ensures P.ParseFrom([P.BlobField(P.Unsized)], data, offset, 0) == Some([P.Blob(Slice(data, offset, |data|))])
  {
    assert [P.BlobField(P.Unsized)][1..] == [];
    assert P.ParseFrom([], data, offset, 0) == Some([]);
    assert [P.Blob(Slice(data, offset, |data|))] + [] == [P.Blob(Slice(data, offset, |data|))];
  }

  lemma ParseNone(data: seq<Byte>, offset: nat)
    ensures P.ParseFrom([], data, offset, 0) == Some([])
  {
  }

  /**
    The ack filter takes exactly the packets whose first field, read as an acknowledgement's,
    is 67, and keeps the second.
    */
  lemma AckFields(data: seq<Byte>) returns (fields: seq<P.Value>)
    ensures P.Parse(ACK_FRAME, data) == Some(fields) && |fields| == 2
    ensures H.Classify(data).AckPacket? <==> fields[0] == P.Number(67)
    ensures H.Classify(data).AckPacket? ==> fields[1] == P.Number(H.Classify(data).seqno)
  {
    FirstTwoFields(data);
    fields := P.Parse(ACK_FRAME, data).value;
  }

  lemma FirstTwoFields(data: seq<Byte>)
    ensures P.Parse(ACK_FRAME, data)
         == Some([P.Number(H.Field(data, 0) as int), P.Number(H.Field(data, 1) as int)])
  {
    hide P.ParseFrom, Slice, H.Field, P.Decode;
    assert ACK_FRAME == [P.IntField(1)] + ([P.IntField(1)] + []);
    ParseInt([P.IntField(1)] + [], 1, data, 0);
    ParseInt([], 1, data, 1);
    ParseNone(data, 2);
    OneByte(data, 0);
    OneByte(data, 1);
    var p, q := P.Number(H.Field(data, 0) as int), P.Number(H.Field(data, 1) as int);
    assert [p] + ([q] + []) == [p, q];
  }

  lemma InnerData(data: seq<Byte>) returns (values: seq<P.Value>)
    ensures P.Parse(NO_ACK_DATA_FRAME, data) == Some(values) && |values| == 3
    ensures values[0] == P.Number(H.Field(data, 0) as int) && values[1] == P.Number(H.Field(data, 1) as int)
    ensures values[2] == P.Blob(Slice(data, 2, |data|))
  {
    hide P.ParseFrom, Slice, H.Field, P.Decode;
    var f, i := P.BlobField(P.Unsized), P.IntField(1);
    OneByte(data, 0);
    OneByte(data, 1);
    ParseInt([i, f], 1, data, 0);
    ParseInt([f], 1, data, 1);
    ParseBlob(data, 2);
    assert NO_ACK_DATA_FRAME == [i] + [i, f] && [i, f] == [i] + [f];
    values := P.Parse(NO_ACK_DATA_FRAME, data).value;
  }

  lemma MessageFields(data: seq<Byte>) returns (values: seq<P.Value>)
    ensures P.Parse(ACTIVE_MESSAGE, data) == Some(values) && |values| == 6
    ensures values[4] == P.Number(H.Field(data, 6) as int) && values[5] == P.Blob(Slice(data, 7, |data|))
  {
    hide P.ParseFrom, Slice, H.Field, P.Decode;
    var f, i, w := P.BlobField(P.Unsized), P.IntField(1), P.IntField(2);
    ParseInt([w, i, i, i, f], 2, data, 0);
    ParseInt([i, i, i, f], 2, data, 2);
    ParseInt([i, i, f], 1, data, 4);
    ParseInt([i, f], 1, data, 5);
    ParseInt([f], 1, data, 6);
    ParseBlob(data, 7);
    OneByte(data, 6);
    assert ACTIVE_MESSAGE == [w] + [w, i, i, i, f] && [w, i, i, i, f] == [w] + [i, i, i, f];
    assert [i, i, i, f] == [i] + [i, i, f] && [i, i, f] == [i] + [i, f] && [i, f] == [i] + [f];
    values := P.Parse(ACTIVE_MESSAGE, data).value;
  }

  lemma ShiftedField(data: seq<Byte>)
    ensures H.Field(Slice(data, 2, |data|), 6) == H.Field(data, 8)
    ensures |data| >= 9 ==> Slice(Slice(data, 2, |data|), 7, |Slice(data, 2, |data|)|) == data[9..]
  {
    if |data| >= 9 {
      var body := data[2..];
      assert Slice(data, 2, |data|) == body;
      assert Slice(body, 7, |body|) == body[7..];
      assert body[7..] == data[9..];
    }
  }

  /**
    The printf filter takes exactly the packets that are no acknowledgements and whose active
    message, inside the data frame, has type 100, and prints that message's data.
    */
  lemma PrintfFields(data: seq<Byte>) returns (outer: seq<P.Value>, inner: seq<P.Value>)
    ensures P.Parse(NO_ACK_DATA_FRAME, data) == Some(outer) && |outer| == 3 && outer[2].Blob?
    ensures P.Parse(ACTIVE_MESSAGE, outer[2].bytes) == Some(inner) && |inner| == 6
    ensures H.Classify(data).AckPacket? <==> outer[0] == P.Number(67)
    ensures H.Classify(data).PrintfPacket? <==> outer[0] != P.Number(67) && inner[4] == P.Number(100)
    ensures H.Classify(data).PrintfPacket? ==> inner[5] == P.Blob(H.Classify(data).text)
  {
    ByteFields(data);
    hide P.ParseFrom, P.Parse, Slice, H.Field, H.Classify;
    outer := InnerData(data);
    var body := outer[2].bytes;
    inner := MessageFields(body);
    ShiftedField(data);
    NineBytes(data);
    if H.Classify(data).PrintfPacket? {
      assert Slice(body, 7, |body|) == data[9..];
    }
  }

  lemma ByteFields(data: seq<Byte>)
    ensures H.Classify(data).AckPacket? <==> H.Field(data, 0) as int == 67
    ensures H.Classify(data).PrintfPacket? <==> H.Field(data, 0) as int != 67 && H.Field(data, 8) as int == 100
  {
  }

  /** The same in terms of a packet's bytes, in the order in which a mote sends them. */
  lemma ClassifiedByLayout(protocol: Byte, dispatch: Byte, addresses: seq<Byte>, length: Byte, group: Byte, ty: Byte,
                           data: seq<Byte>)
    requires |addresses| == 4
    ensures H.Classify([protocol, dispatch] + addresses + [length, group, ty] + data)
         == if protocol == 67 then H.AckPacket(dispatch as int)
            else if ty == 100 then H.PrintfPacket(data)
            else H.OtherPacket
  {
    var packet := [protocol, dispatch] + addresses + [length, group, ty] + data;
    assert packet[9..] == data;
  }

  /**
    A read that finds the buffer empty hands a packet from the line to the application
    exactly if neither filter takes it; only a printf packet changes anything.
    */
  lemma HandedExactly(h: H.Host, data: seq<Byte>) returns (outer: seq<P.Value>, inner: seq<P.Value>)
    requires h.inQueue == []
    ensures P.Parse(NO_ACK_DATA_FRAME, data) == Some(outer) && |outer| == 3 && outer[2].Blob?
    ensures P.Parse(ACTIVE_MESSAGE, outer[2].bytes) == Some(inner) && |inner| == 6 && inner[5].Blob?
    ensures
      var (next, reply) := H.ReadOnce(h, Packet(data));
      if outer[0] != P.Number(67) && inner[4] == P.Number(100) then
        reply == H.Filtered && next == h.(printer := Accept(h.printer, inner[5].bytes))
      else if outer[0] == P.Number(67) then reply == H.Filtered && next == h
      else reply == H.Handed(data) && next == h
  {
    outer, inner := PrintfFields(data);
    var body := outer[2].bytes;
    var values := MessageFields(body);
    hide P.Parse, H.Classify, Accept;
    match H.Classify(data)
    case AckPacket(_) =>
    case PrintfPacket(text) =>
    case OtherPacket =>
  }

  /**
    What a write that waits for number expected makes of a packet it hears. An acknowledgement
    goes to the tracker, and ends the wait if it is unknown or the one expected; a printf packet
    is printed; any other goes behind the buffered ones, the oldest of which gives way in a full buffer.
    */
  lemma HeardExactly(h: H.Host, qsize: nat, data: seq<Byte>, now: real, expected: int)
    returns (outer: seq<P.Value>, inner: seq<P.Value>)
    requires |h.inQueue| <= qsize
    ensures P.Parse(NO_ACK_DATA_FRAME, data) == Some(outer) && |outer| == 3 && outer[1].Number? && outer[2].Blob?
    ensures P.Parse(ACTIVE_MESSAGE, outer[2].bytes) == Some(inner) && |inner| == 6 && inner[5].Blob?
    ensures
      var (next, turn) := H.Hear(h, qsize, data, now, expected);
      if outer[0] == P.Number(67) then
        var (tracker, result) := Acked(h.tracker, outer[1].n, now);
        && next == H.Host(tracker, h.inQueue, h.printer)
        && (turn == H.BadAck <==> result == BadAckSeqno)
        && (turn == H.GotAck <==> result == Known && outer[1].n == expected)
        && (turn == H.KeepWaiting <==> result == Known && outer[1].n != expected)
      else if inner[4] == P.Number(100) then
        next == H.Host(h.tracker, h.inQueue, Accept(h.printer, inner[5].bytes)) && turn == H.KeepWaiting
      else
        var all := h.inQueue + [data];
        if qsize == 0 then next == h && turn == H.EmptyPop
        else
          && next == H.Host(h.tracker, if |all| <= qsize then all else all[1..], h.printer)
          && turn == H.KeepWaiting
  {
    outer, inner := PrintfFields(data);
    var values := MessageFields(outer[2].bytes);
    var second := InnerData(data);
    hide P.Parse, H.Classify, Accept, Acked;
    SecondField(data);
    if H.Classify(data).OtherPacket? && h.inQueue != [] {
      assert (h.inQueue + [data])[1..] == h.inQueue[1..] + [data];
    }
  }

  lemma SecondField(data: seq<Byte>)
    ensures H.Classify(data).AckPacket? ==> H.Classify(data).seqno == H.Field(data, 1) as int
  {
  }

  lemma NineBytes(data: seq<Byte>)
    ensures H.Classify(data).PrintfPacket? ==> |data| >= 9 && H.Classify(data).text == data[9..]
  {
  }

  lemma PackByte(schema: seq<P.Field>, values: seq<P.Value>, b: Byte, r: seq<Byte>)
    requires |schema| == |values|
    ensures P.PayloadFrom([P.IntField(1)] + schema, [P.Number(b as int)] + values, r, 0)
         == P.PayloadFrom(schema, values, r + [b], 0)
  {
    assert ([P.IntField(1)] + schema)[1..] == schema && ([P.Number(b as int)] + values)[1..] == values;
    EncodeByte(b);
  }

  lemma EncodeByte(b: Byte)
    ensures P.Encode(b as int, 1) == [b]
  {
    ByteOfValue(b);
    var n := b as int;
    SmallByte(n);
  }

  lemma SmallByte(n: nat)
    requires n < 256
    ensures P.Encode(n, 1) == [ByteOf(n)]
  {
    hide ByteOf;
    assert n % 256 == n;
    assert P.Encode(n / 256, 0) == [];
  }

  lemma PackBlob(bytes: seq<Byte>, r: seq<Byte>)
    ensures P.PayloadFrom([P.BlobField(P.Unsized)], [P.Blob(bytes)], r, 0) == Some(r + bytes)
  {
    assert [P.BlobField(P.Unsized)][1..] == [] && [P.Blob(bytes)][1..] == [];
  }

  /** A write sends what the library packs for a data frame that asks, by its first field, to be acknowledged. */
  lemma WrittenFields(seqno: Byte, payload: seq<Byte>)
    ensures P.Payload(DATA_FRAME,
                      [P.Number(68), P.Number(seqno as int), P.Number(0), P.Blob(payload)])
         == Some(H.DataFrame(seqno, payload))
  {
    hide P.PayloadFrom;
    var f, i := P.BlobField(P.Unsized), P.IntField(1);
    var zero: Byte := 0;
    var p, q := P.Number(H.PROTOCOL_PACKET_ACK as int), P.Number(seqno as int);
    var z, t := P.Number(zero as int), P.Blob(payload);
    PackByte([i, i, f], [q, z, t], H.PROTOCOL_PACKET_ACK, []);
    PackByte([i, f], [z, t], seqno, [] + [H.PROTOCOL_PACKET_ACK]);
    PackByte([f], [t], zero, [] + [H.PROTOCOL_PACKET_ACK] + [seqno]);
    PackBlob(payload, [] + [H.PROTOCOL_PACKET_ACK] + [seqno] + [zero]);
    assert DATA_FRAME == [i] + [i, i, f] && [i, i, f] == [i] + [i, f] && [i, f] == [i] + [f];
    assert [p, q, z, t] == [p] + [q, z, t] && [q, z, t] == [q] + [z, t] && [z, t] == [z] + [t];
    assert [] + [H.PROTOCOL_PACKET_ACK] + [seqno] + [zero] + payload == H.DataFrame(seqno, payload);
  }
}

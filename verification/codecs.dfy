/** The message structs of components/lightsnapcast/snapcast.c and the functions that fill
    them field by field through a cursor, every field being attempted. */
module Codecs {
  import opened Words
  import opened Cursors
  import opened Messages

  /** `a | b` for return values 0 and 1. */
  function Or(a: int, b: int): int
    requires (a == 0 || a == 1) && (b == 0 || b == 1)
  {
    if a == 0 then b else 1
  }

  /** What the longest whole-field prefix of `full` leaves in `mem`. */
  function Overlay(mem: seq<byte>, full: seq<byte>, n: nat): (r: seq<byte>)
    requires n <= |full| && n <= |mem|
    ensures |r| == |mem|
  {
    full[..n] + mem[n..]
  }

  lemma NothingOverlaid(mem: seq<byte>, full: seq<byte>)
    ensures Overlay(mem, full, 0) == mem
  {
  }

  lemma OverlayExtends(mem: seq<byte>, full: seq<byte>, n: nat, bs: seq<byte>)
    requires n + |bs| <= |full| && n + |bs| <= |mem|
    requires full[n..n + |bs|] == bs
    ensures PutAt(Overlay(mem, full, n), n, bs) == Overlay(mem, full, n + |bs|)
  {
    assert full[..n] + bs == full[..n + |bs|];
  }

  /** One attempted field keeps the memory an overlay of the whole fields so far. */
  lemma FieldStep(c: Cursor, mem: seq<byte>, full: seq<byte>, k: Kind, v: int)
    requires c.Valid() && |mem| == |c.mem| && c.index <= |full| && c.mem == Overlay(mem, full, c.index)
    requires c.Room(k.Width()) ==>
               c.index + k.Width() <= |full| && full[c.index..c.index + k.Width()] == Encode(k, v)
    ensures var (c', ok) := Write(c, Word(k, v));
            && (ok <==> c.Room(k.Width()))
            && c'.size == c.size && c'.index == c.index + (if ok then k.Width() else 0)
            && c'.index <= |full| && c'.mem == Overlay(mem, full, c'.index)
  {
    hide LeBytes;
    if c.Room(k.Width()) {
      OverlayExtends(mem, full, c.index, Encode(k, v));
    }
  }

  lemma BaseFieldBytes(b: Base)
    ensures var bs := EncodeBase(b);
            && bs[0..2] == Encode(U16, b.typ)
            && bs[2..4] == Encode(U16, b.id)
            && bs[4..6] == Encode(U16, b.refersTo)
            && bs[6..10] == Encode(I32, b.sent.sec)
            && bs[10..14] == Encode(I32, b.sent.usec)
            && bs[14..18] == Encode(I32, b.received.sec)
            && bs[18..22] == Encode(I32, b.received.usec)
            && bs[22..26] == Encode(U32, b.size)
  {
    var bs := EncodeBase(b);
    assert bs[6..14] == EncodeTv(b.sent);
    assert bs[14..22] == EncodeTv(b.received);
    assert bs[6..14][..4] == bs[6..10] && bs[6..14][4..] == bs[10..14];
    assert bs[14..22][..4] == bs[14..18] && bs[14..22][4..] == bs[18..22];
  }

  class BaseMessage {
    var typ: u16
    var id: u16
    var refersTo: u16
    var sent: Tv
    var received: Tv
    var size: u32

    constructor (b: Base)
      ensures Value() == b
    {
      typ, id, refersTo, sent, received, size := b.typ, b.id, b.refersTo, b.sent, b.received, b.size;
    }

    function Value(): Base
      reads this
    {
      Base(typ, id, refersTo, sent, received, size)
    }

    method Serialize(data: array<byte>, n: nat) returns (result: int)
      requires n <= data.Length
      modifies data
      ensures result == if n >= BASE_MESSAGE_SIZE then 0 else 1
      ensures data[..] == Overlay(old(data[..]), EncodeBase(Value()), WholeFields(n))
    {
      ghost var mem := data[..];
      var buffer := new WriteBuffer(data, n);
      result := WriteShorts(buffer, mem);
      var status := WriteStamps(buffer, mem);
      result := Or(result, status);
      status := WriteSize(buffer, mem);
      result := Or(result, status);
    }

    /** The first three fields. */
    method WriteShorts(buffer: WriteBuffer, ghost mem: seq<byte>) returns (result: int)
      requires buffer.Valid() && buffer.index == 0 && buffer.buffer[..] == mem
      modifies buffer`index, buffer.buffer
      ensures buffer.Valid() && buffer.index == (if buffer.size < 6 then WholeFields(buffer.size) else 6)
      ensures buffer.buffer[..] == Overlay(mem, EncodeBase(Value()), buffer.index)
      ensures result == if buffer.size >= 6 then 0 else 1
    {
      hide Encode, EncodeBase, Write, Overlay;
      ghost var full := EncodeBase(Value());
      BaseFieldBytes(Value());
      NothingOverlaid(mem, full);
      FieldStep(buffer.Value(), mem, full, U16, typ);
      result := buffer.WriteUint16(typ);
      FieldStep(buffer.Value(), mem, full, U16, id);
      var status := buffer.WriteUint16(id);
      result := Or(result, status);
      FieldStep(buffer.Value(), mem, full, U16, refersTo);
      status := buffer.WriteUint16(refersTo);
      result := Or(result, status);
    }

    /** The four words of the two stamps. */
    method WriteStamps(buffer: WriteBuffer, ghost mem: seq<byte>) returns (result: int)
      requires buffer.Valid() && |mem| == buffer.buffer.Length
      requires buffer.index == (if buffer.size < 6 then WholeFields(buffer.size) else 6)
      requires buffer.buffer[..] == Overlay(mem, EncodeBase(Value()), buffer.index)
      modifies buffer`index, buffer.buffer
      ensures buffer.Valid() && buffer.index == (if buffer.size < 22 then WholeFields(buffer.size) else 22)
      ensures buffer.buffer[..] == Overlay(mem, EncodeBase(Value()), buffer.index)
      ensures result == if buffer.size >= 22 then 0 else 1
    {
      hide Encode, EncodeBase, Write, Overlay;
      ghost var full := EncodeBase(Value());
      BaseFieldBytes(Value());
      FieldStep(buffer.Value(), mem, full, I32, sent.sec);
      result := buffer.WriteInt32(sent.sec);
      FieldStep(buffer.Value(), mem, full, I32, sent.usec);
      var status := buffer.WriteInt32(sent.usec);
      result := Or(result, status);
      FieldStep(buffer.Value(), mem, full, I32, received.sec);
      status := buffer.WriteInt32(received.sec);
      result := Or(result, status);
      FieldStep(buffer.Value(), mem, full, I32, received.usec);
      status := buffer.WriteInt32(received.usec);
      result := Or(result, status);
    }

    /** The last field. */
    method WriteSize(buffer: WriteBuffer, ghost mem: seq<byte>) returns (result: int)
      requires buffer.Valid() && |mem| == buffer.buffer.Length
      requires buffer.index == (if buffer.size < 22 then WholeFields(buffer.size) else 22)
      requires buffer.buffer[..] == Overlay(mem, EncodeBase(Value()), buffer.index)
      modifies buffer`index, buffer.buffer
      ensures buffer.buffer[..] == Overlay(mem, EncodeBase(Value()), WholeFields(buffer.size))
      ensures result == if buffer.size >= 26 then 0 else 1
    {
      hide Encode, EncodeBase, Write, Overlay;
      BaseFieldBytes(Value());
      FieldStep(buffer.Value(), mem, EncodeBase(Value()), U32, size);
      result := buffer.WriteUint32(size);
    }

    /** Each field changes exactly when its own last byte is inside the data. */
    method Deserialize(data: array<byte>, n: nat) returns (result: int)
      requires n <= data.Length
      modifies this
      ensures result == if n >= BASE_MESSAGE_SIZE then 0 else 1
      ensures typ == if n >= 2 then At(U16, data[..], 0) else old(typ)
      ensures id == if n >= 4 then At(U16, data[..], 2) else old(id)
      ensures refersTo == if n >= 6 then At(U16, data[..], 4) else old(refersTo)
      ensures sent.sec == if n >= 10 then At(I32, data[..], 6) else old(sent.sec)
      ensures sent.usec == if n >= 14 then At(I32, data[..], 10) else old(sent.usec)
      ensures received.sec == if n >= 18 then At(I32, data[..], 14) else old(received.sec)
      ensures received.usec == if n >= 22 then At(I32, data[..], 18) else old(received.usec)
      ensures size == if n >= 26 then At(U32, data[..], 22) else old(size)
    {
      hide Read, At;
      var buffer := new ReadBuffer(data, n);
      result := ReadShorts(buffer);
      var status := ReadStamps(buffer);
      result := Or(result, status);
      status, size := buffer.ReadUint32(size);
      result := Or(result, status);
    }

    method ReadShorts(buffer: ReadBuffer) returns (result: int)
      requires buffer.Valid() && buffer.index == 0
      modifies buffer`index, `typ, `id, `refersTo
      ensures buffer.Valid() && buffer.index == (if buffer.size < 6 then WholeFields(buffer.size) else 6)
      ensures typ == if buffer.size >= 2 then At(U16, buffer.buffer[..], 0) else old(typ)
      ensures id == if buffer.size >= 4 then At(U16, buffer.buffer[..], 2) else old(id)
      ensures refersTo == if buffer.size >= 6 then At(U16, buffer.buffer[..], 4) else old(refersTo)
      ensures result == if buffer.size >= 6 then 0 else 1
    {
      hide Read, At;
      var status: int;
      result, typ := buffer.ReadUint16(typ);
      status, id := buffer.ReadUint16(id);
      result := Or(result, status);
      status, refersTo := buffer.ReadUint16(refersTo);
      result := Or(result, status);
    }

    method ReadStamps(buffer: ReadBuffer) returns (result: int)
      requires buffer.Valid() && buffer.index == (if buffer.size < 6 then WholeFields(buffer.size) else 6)
      modifies buffer`index, `sent, `received
      ensures buffer.Valid() && buffer.index == (if buffer.size < 22 then WholeFields(buffer.size) else 22)
      ensures sent.sec == if buffer.size >= 10 then At(I32, buffer.buffer[..], 6) else old(sent.sec)
      ensures sent.usec == if buffer.size >= 14 then At(I32, buffer.buffer[..], 10) else old(sent.usec)
      ensures received.sec == if buffer.size >= 18 then At(I32, buffer.buffer[..], 14) else old(received.sec)
      ensures received.usec == if buffer.size >= 22 then At(I32, buffer.buffer[..], 18) else old(received.usec)
      ensures result == if buffer.size >= 22 then 0 else 1
    {
      hide Read, At;
      var status: int, word: i32;
      result, word := buffer.ReadInt32(sent.sec);
      sent := sent.(sec := word);
      status, word := buffer.ReadInt32(sent.usec);
      sent := sent.(usec := word);
      result := Or(result, status);
      status, word := buffer.ReadInt32(received.sec);
      received := received.(sec := word);
      result := Or(result, status);
      status, word := buffer.ReadInt32(received.usec);
      received := received.(usec := word);
      result := Or(result, status);
    }
  }

  class TimeMessage {
    var latency: Tv

    constructor ()
      ensures latency == Tv(0, 0)
    {
      latency := Tv(0, 0);
    }

    method Serialize(data: array<byte>, n: nat) returns (result: int)
      requires n <= data.Length
      modifies data
      ensures result == if n >= TIME_MESSAGE_SIZE then 0 else 1
      ensures data[..] == Overlay(old(data[..]), TimeBody(latency), if n < 4 then 0 else if n < 8 then 4 else 8)
    {
      ghost var mem := data[..];
      ghost var full := TimeBody(latency);
      var buffer := new WriteBuffer(data, n);
      NothingOverlaid(mem, full);
      FieldStep(buffer.Value(), mem, full, I32, latency.sec);
      result := buffer.WriteInt32(latency.sec);
      FieldStep(buffer.Value(), mem, full, I32, latency.usec);
      var status := buffer.WriteInt32(latency.usec);
      result := Or(result, status);
    }

    method Deserialize(data: array<byte>, n: nat) returns (result: int)
      requires n <= data.Length
      modifies this
      ensures result == if n >= TIME_MESSAGE_SIZE then 0 else 1
      ensures latency.sec == if n >= 4 then At(I32, data[..], 0) else old(latency.sec)
      ensures latency.usec == if n >= 8 then At(I32, data[..], 4) else old(latency.usec)
    {
      hide Read, At;
      var buffer := new ReadBuffer(data, n);
      var status: int, word: i32;
      status, word := buffer.ReadInt32(latency.sec);
      latency := latency.(sec := word);
      result := status;
      status, word := buffer.ReadInt32(latency.usec);
      latency := latency.(usec := word);
      result := Or(result, status);
    }
  }

  class CodecHeaderMessage {
    /** `codec` and `payload` are the two allocated blocks; null is a refused request. */
    var codec: array?<byte>
    var size: u32
    var payload: array?<byte>

    constructor ()
      ensures codec == null && size == 0 && payload == null
    {
      codec, size, payload := null, 0, null;
    }

    /** `nameGranted` and `payloadGranted` say whether the allocator serves the two requests.
        A refused body leaves behind what the steps before the refusal stored. */
    method Deserialize(data: array<byte>, n: nat, nameGranted: bool, payloadGranted: bool) returns (result: int)
      requires n <= data.Length
      modifies this
      ensures result == ParseCodec(data[..n], nameGranted, payloadGranted).Status()
      ensures result == if n < 4 then 1
                        else
                          var len := At(U32, data[..], 0);
                          if !nameGranted || len == 0xFFFF_FFFF then 2
                          else if n < 8 + len then 1
                          else if !payloadGranted then 2
                          else if n < 8 + len + At(U32, data[..], 4 + len) then 1 else 0
      ensures result == 0 ==>
                var r := ParseCodec(data[..n], nameGranted, payloadGranted);
                && codec != null && codec[..] == r.name + [0]
                && payload != null && payload[..] == r.payload && size == |r.payload|
      ensures n < 4 ==> unchanged(this)
      ensures n >= 4 ==>
                var len := At(U32, data[..], 0);
                if !NameAllocated(len, nameGranted) then codec == null && unchanged(`size, `payload)
                else
                  && codec != null && fresh(codec) && codec.Length == len + 1 && codec[len] == 0
                  && (len <= n - 4 ==> codec[..len] == data[4..4 + len])
                  && size == (if n >= 8 + len then At(U32, data[..], 4 + len)
                              else if n >= 8 && n < 4 + len then At(U32, data[..], 4) else old(size))
                  && (if n < 8 + len then payload == old(payload)
                      else if !payloadGranted then payload == null
                      else payload != null && fresh(payload) && payload.Length == size)
    {
      hide ParseCodec, At, Read;
      ParseCodecInPlace(data[..], n, nameGranted, payloadGranted);
      var buffer := new ReadBuffer(data, n);
      var stringSize: u32;
      result, stringSize := buffer.ReadUint32(0);
      if result != 0 {
        return 1;
      }
      if !nameGranted || stringSize == UINT32_MAX {
        codec := null;
        return 2;
      }
      result := ReadName(buffer, stringSize);
      if result != 0 {
        return 1;
      }
      if !payloadGranted {
        payload := null;
        return 2;
      }
      result := ReadPayload(buffer);
    }

    /** The name, its terminator, and the payload size, which is attempted even when the
        name did not fit. */
    method ReadName(buffer: ReadBuffer, stringSize: u32) returns (result: int)
      requires buffer.Valid()
      modifies buffer`index, `codec, `size
      ensures buffer.Valid()
      ensures result == if stringSize + 4 <= buffer.size - old(buffer.index) then 0 else 1
      ensures codec != null && fresh(codec) && codec.Length == stringSize + 1 && codec[stringSize] == 0
      ensures var at, left := old(buffer.index), buffer.size - old(buffer.index);
              && (stringSize <= left ==> codec[..stringSize] == buffer.buffer[at..at + stringSize])
              && (stringSize + 4 <= left ==> buffer.index == at + stringSize + 4)
              && size == (if stringSize + 4 <= left then At(U32, buffer.buffer[..], at + stringSize)
                          else if 4 <= left < stringSize then At(U32, buffer.buffer[..], at) else old(size))
    {
      hide Read, At;
      codec := new byte[stringSize + 1];
      result := buffer.ReadBlock(codec, stringSize);
      codec[stringSize] := 0;
      var status: int;
      status, size := buffer.ReadUint32(size);
      result := Or(result, status);
    }

    method ReadPayload(buffer: ReadBuffer) returns (result: int)
      requires buffer.Valid()
      modifies buffer`index, `payload
      ensures buffer.Valid()
      ensures result == if size <= buffer.size - old(buffer.index) then 0 else 1
      ensures payload != null && fresh(payload) && payload.Length == size
      ensures result == 0 ==> payload[..] == buffer.buffer[old(buffer.index)..old(buffer.index) + size]
    {
      hide Read;
      payload := new byte[size];
      result := buffer.ReadBlock(payload, size);
    }
  }

  class WireChunkMessage {
    var timestamp: Tv
    var size: u32
    /** The offset in the data at which the payload starts: the payload is not copied. */
    var payload: nat

    constructor ()
    {
      timestamp := Tv(0, 0);
      size := 0;
      payload := 0;
    }

    method Deserialize(data: array<byte>, n: nat) returns (result: int)
      requires n <= data.Length
      modifies this
      ensures result == if n >= 12 then 0 else 1
      ensures timestamp.sec == if n >= 4 then At(I32, data[..], 0) else old(timestamp.sec)
      ensures timestamp.usec == if n >= 8 then At(I32, data[..], 4) else old(timestamp.usec)
      ensures size == if n >= 12 then At(U32, data[..], 8) else old(size)
      ensures payload == if n >= 12 then 12 else old(payload)
    {
      hide Read, At;
      var buffer := new ReadBuffer(data, n);
      var status: int, word: i32;
      result, word := buffer.ReadInt32(timestamp.sec);
      timestamp := timestamp.(sec := word);
      status, word := buffer.ReadInt32(timestamp.usec);
      timestamp := timestamp.(usec := word);
      result := Or(result, status);
      status, size := buffer.ReadUint32(size);
      result := Or(result, status);
      if result != 0 {
        return;
      }
      payload := buffer.index;
    }
  }

  /** The part of `hello_message_serialize` that follows the JSON printer: the length
      prefix and the copy.  `granted` says whether the allocator serves the request. */
  method HelloMessageSerialize(text: seq<byte>, granted: bool) returns (prefixed: Option<array<byte>>)
    requires |text| < 0x8000_0000 - 4
    ensures prefixed.Some? <==> granted
    ensures granted ==> fresh(prefixed.value) && prefixed.value[..] == PrefixedText(text)
  {
    var strLength := |text|;
    var prefixedLength := strLength + 4;
    if !granted {
      return None;
    }
    var str := new byte[prefixedLength];
    LeBytesSpelled(strLength);
    str[0] := strLength % 256;
    str[1] := strLength / 0x100 % 256;
    str[2] := strLength / 0x1_0000 % 256;
    str[3] := strLength / 0x100_0000 % 256;
    var i := 0;
    while i < strLength
      invariant 0 <= i <= strLength
      invariant str[..4] == Encode(U32, strLength) && str[4..4 + i] == text[..i]
    {
      str[4 + i] := text[i];
      i := i + 1;
    }
    assert str[..] == str[..4] + str[4..4 + i];
    prefixed := Some(str);
  }

  /** The overlapping `memmove` and the store of the terminator in a server-settings body. */
  method ShiftSettings(buffer: array<byte>, n: nat)
    requires 4 <= n <= buffer.Length
    modifies buffer
    ensures buffer[..] == Shifted(old(buffer[..]), n)
  {
    var i := 0;
    while i < n - 4
      invariant 0 <= i <= n - 4
      invariant forall k :: 0 <= k < i ==> buffer[k] == old(buffer[k + 4])
      invariant forall k :: i <= k < buffer.Length ==> buffer[k] == old(buffer[k])
    {
      buffer[i] := buffer[i + 4];
      i := i + 1;
    }
    buffer[n - 3] := 0;
  }
}

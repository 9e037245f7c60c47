/** The bounded read and write cursors of components/libbuffer/buffer.c.

    The first half gives a cursor as a value and one operation on it; the classes in
    the second half are the C structs, each method proved against that value. */
module Cursors {
  import opened Words

  datatype Option<+T> = None | Some(value: T)

  /** What one write puts down: a word of some type, or a raw block. */
  datatype Item = Word(kind: Kind, value: int) | Block(bytes: seq<byte>) {
    predicate Valid() {
      Word? ==> kind.Holds(value)
    }

    function Print(): (bs: seq<byte>) {
      match this
      case Word(kind, value) => Encode(kind, value)
      case Block(bytes) => bytes
    }

    function Shape(): Slot {
      match this
      case Word(kind, _) => WordSlot(kind)
      case Block(bytes) => BlockSlot(|bytes|)
    }
  }

  /** What one read asks for. */
  datatype Slot = WordSlot(kind: Kind) | BlockSlot(len: nat) {
    function Width(): nat {
      match this
      case WordSlot(kind) => kind.Width()
      case BlockSlot(len) => len
    }

    function Parse(bs: seq<byte>): Item
      requires |bs| == Width()
    {
      match this
      case WordSlot(kind) => Word(kind, Decode(kind, bs))
      case BlockSlot(_) => Block(bs)
    }
  }

  /** A cursor over the first `size` bytes of `mem`. */
  datatype Cursor = Cursor(mem: seq<byte>, size: nat, index: nat) {
    predicate Valid() {
      index <= size <= |mem|
    }

    predicate Room(n: nat)
      requires Valid()
    {
      n <= size - index
    }
  }

  function PutAt(mem: seq<byte>, at: nat, bs: seq<byte>): (mem': seq<byte>)
    requires at + |bs| <= |mem|
    ensures |mem'| == |mem|
  {
    mem[..at] + bs + mem[at + |bs|..]
  }

  lemma OneMoreByte(mem: seq<byte>, at: nat, bs: seq<byte>, i: nat)
    requires i < |bs| && at + i < |mem|
    ensures PutAt(mem, at, bs[..i])[at + i := bs[i]] == PutAt(mem, at, bs[..i + 1])
  {
  }

  /** One write: all of it or nothing. */
  function Write(c: Cursor, it: Item): (r: (Cursor, bool))
    requires c.Valid()
    ensures r.0.Valid() && r.0.size == c.size && |r.0.mem| == |c.mem|
  {
    var bs := it.Print();
    if !c.Room(|bs|) then (c, false)
    else (Cursor(PutAt(c.mem, c.index, bs), c.size, c.index + |bs|), true)
  }

  /** One read: all of it or nothing. */
  function Read(c: Cursor, slot: Slot): (r: (Cursor, Option<Item>))
    requires c.Valid()
    ensures r.0.Valid() && r.0.size == c.size && r.0.mem == c.mem
  {
    var n := slot.Width();
    if !c.Room(n) then (c, None)
    else (c.(index := c.index + n), Some(slot.Parse(c.mem[c.index..c.index + n])))
  }

  /** Every write of a trace is attempted, whatever happened to the earlier ones. */
  function WriteAll(c: Cursor, items: seq<Item>): (r: (Cursor, seq<bool>))
    requires c.Valid()
    ensures r.0.Valid() && r.0.size == c.size && |r.0.mem| == |c.mem|
    ensures |r.1| == |items| && c.index <= r.0.index
    decreases items
  {
    if items == [] then (c, [])
    else
      var (c1, ok) := Write(c, items[0]);
      var (c2, oks) := WriteAll(c1, items[1..]);
      (c2, [ok] + oks)
  }

  function ReadAll(c: Cursor, slots: seq<Slot>): (r: (Cursor, seq<Option<Item>>))
    requires c.Valid()
    ensures r.0.Valid() && r.0.size == c.size && r.0.mem == c.mem
    ensures |r.1| == |slots|
    decreases slots
  {
    if slots == [] then (c, [])
    else
      var (c1, got) := Read(c, slots[0]);
      var (c2, gots) := ReadAll(c1, slots[1..]);
      (c2, [got] + gots)
  }

  function Shapes(items: seq<Item>): (slots: seq<Slot>)
    ensures |slots| == |items|
  {
    seq(|items|, i requires 0 <= i < |items| => items[i].Shape())
  }

  /** What a trace of writes puts down never changes what lies before the cursor,
      nor what lies beyond the size the cursor was given. */
  lemma {:induction false} WriteAllFrame(c: Cursor, items: seq<Item>)
    requires c.Valid()
    ensures WriteAll(c, items).0.mem[..c.index] == c.mem[..c.index]
    ensures WriteAll(c, items).0.mem[c.size..] == c.mem[c.size..]
    decreases items
  {
    if items != [] {
      var (c1, _) := Write(c, items[0]);
      var c2 := WriteAll(c1, items[1..]).0;
      WriteAllFrame(c1, items[1..]);
      assert c1.mem[..c.index] == c.mem[..c.index];
      assert c2.mem[..c1.index][..c.index] == c2.mem[..c.index];
      assert c1.mem[..c1.index][..c.index] == c1.mem[..c.index];
      assert c1.mem[c.size..] == c.mem[c.size..];
    }
  }

  /** Round trip of a whole trace, refused operations included: reading the memory back
      with the same sequence of types refuses exactly the operations that were refused,
      returns the value of every other one, and ends at the same index. */
  lemma {:induction false} Replay(c: Cursor, items: seq<Item>)
    requires c.Valid()
    requires forall i :: 0 <= i < |items| ==> items[i].Valid()
    ensures var (w, oks) := WriteAll(c, items);
            var (r, gots) := ReadAll(c.(mem := w.mem), Shapes(items));
            && r.index == w.index
            && forall i :: 0 <= i < |items| ==> gots[i] == if oks[i] then Some(items[i]) else None
    decreases items
  {
    if items != [] {
      var it := items[0];
      var (c1, ok) := Write(c, it);
      var w := WriteAll(c1, items[1..]).0;
      WriteAllFrame(c1, items[1..]);
      Replay(c1, items[1..]);
      assert Shapes(items)[1..] == Shapes(items[1..]);
      if ok {
        assert w.mem[c.index..c1.index] == it.Print() by {
          assert w.mem[..c1.index][c.index..] == w.mem[c.index..c1.index];
          assert c1.mem[..c1.index][c.index..] == it.Print();
        }
        if it.Word? {
          DecodeEncode(it.kind, it.value);
        }
        assert Read(c.(mem := w.mem), it.Shape()).1 == Some(it);
      }
    }
  }

  // ---- attempting every field after a failure ---------------------------------------

  /** Which fields of the given widths go through when `room` bytes are left. */
  function Attempt(widths: seq<nat>, room: nat): (oks: seq<bool>)
    ensures |oks| == |widths|
    decreases widths
  {
    if widths == [] then []
    else if room < widths[0] then [false] + Attempt(widths[1..], room)
    else [true] + Attempt(widths[1..], room - widths[0])
  }

  function Sum(widths: seq<nat>): nat
    decreases widths
  {
    if widths == [] then 0 else widths[0] + Sum(widths[1..])
  }

  /** A record never has a hole: a field goes through exactly when it and all the
      fields before it fit. */
  ghost predicate LongestPrefix(widths: seq<nat>, room: nat) {
    forall i :: 0 <= i < |widths| ==> (Attempt(widths, room)[i] <==> Sum(widths[..i + 1]) <= room)
  }

  ghost predicate NonDecreasing(widths: seq<nat>) {
    forall i, j :: 0 <= i < j < |widths| ==> widths[i] <= widths[j]
  }

  lemma {:induction false} SumGrows(widths: seq<nat>, i: nat)
    requires i < |widths|
    ensures Sum(widths[..i + 1]) == Sum(widths[..i]) + widths[i]
    decreases widths
  {
    if i > 0 {
      SumGrows(widths[1..], i - 1);
      assert widths[..i + 1][1..] == widths[1..][..i];
      assert widths[..i][1..] == widths[1..][..i - 1];
    }
  }

  lemma {:induction false} SumMonotone(widths: seq<nat>, i: nat, j: nat)
    requires i <= j <= |widths|
    ensures Sum(widths[..i]) <= Sum(widths[..j])
    decreases j
  {
    if i < j {
      SumMonotone(widths, i, j - 1);
      SumGrows(widths, j - 1);
    }
  }

  lemma SumPositive(widths: seq<nat>, i: nat)
    requires 0 < i <= |widths|
    ensures Sum(widths[..i]) >= widths[0]
  {
    assert widths[..i][0] == widths[0];
  }

  lemma {:induction false} NonDecreasingIsEnough(widths: seq<nat>, room: nat)
    requires NonDecreasing(widths)
    ensures LongestPrefix(widths, room)
    decreases widths
  {
    forall i | 0 <= i < |widths|
      ensures Attempt(widths, room)[i] <==> Sum(widths[..i + 1]) <= room
    {
      var tail := widths[1..];
      assert NonDecreasing(tail);
      SumPositive(widths, i + 1);
      if room < widths[0] {
        AllTooWide(widths, room, i);
      } else {
        NonDecreasingIsEnough(tail, room - widths[0]);
        assert widths[..i + 1][1..] == tail[..i];
        if i > 0 {
          assert Attempt(widths, room)[i] == Attempt(tail, room - widths[0])[i - 1];
          assert LongestPrefix(tail, room - widths[0]);
        }
      }
    }
  }

  lemma {:induction false} AllTooWide(widths: seq<nat>, room: nat, i: nat)
    requires i < |widths|
    requires forall j :: 0 <= j < |widths| ==> room < widths[j]
    ensures !Attempt(widths, room)[i]
    decreases widths
  {
    if i > 0 {
      AllTooWide(widths[1..], room, i - 1);
    }
  }

  /** When the fields before `i` take exactly `room - rest`, field `i` is tried with `rest`. */
  lemma {:induction false} AttemptAfterPrefix(widths: seq<nat>, room: nat, i: nat)
    requires i <= |widths| && Sum(widths[..i]) <= room
    ensures Attempt(widths, room)[i..] == Attempt(widths[i..], room - Sum(widths[..i]))
    decreases widths
  {
    if i == 0 {
      assert widths[..0] == [] && widths[0..] == widths;
    } else {
      SumPositive(widths, i);
      assert widths[..i][1..] == widths[1..][..i - 1];
      AttemptAfterPrefix(widths[1..], room - widths[0], i - 1);
      assert widths[1..][i - 1..] == widths[i..];
      assert Attempt(widths, room)[i..] == Attempt(widths[1..], room - widths[0])[i - 1..];
    }
  }

  lemma {:induction false} SomeDescent(widths: seq<nat>) returns (i: nat)
    requires !NonDecreasing(widths)
    ensures i + 1 < |widths| && widths[i] > widths[i + 1]
    decreases widths
  {
    if widths[0] > widths[1] {
      i := 0;
    } else {
      if NonDecreasing(widths[1..]) {
        forall a, b | 0 <= a < b < |widths|
          ensures widths[a] <= widths[b]
        {
          assert widths[b] == widths[1..][b - 1];
          if a == 0 && b > 1 {
            assert widths[1] == widths[1..][0];
          } else if a > 0 {
            assert widths[a] == widths[1..][a - 1];
          }
        }
        assert false;
      }
      i := SomeDescent(widths[1..]);
      i := i + 1;
    }
  }

  /** Attempting every field yields the longest prefix of whole fields for every amount
      of room exactly when the widths never decrease. */
  lemma LongestPrefixIff(widths: seq<nat>)
    ensures (forall room: nat :: LongestPrefix(widths, room)) <==> NonDecreasing(widths)
  {
    if NonDecreasing(widths) {
      forall room: nat
        ensures LongestPrefix(widths, room)
      {
        NonDecreasingIsEnough(widths, room);
      }
    } else {
      var i := SomeDescent(widths);
      var room := Sum(widths[..i]) + widths[i + 1];
      AttemptAfterPrefix(widths, room, i);
      var tail := widths[i..];
      assert tail[0] == widths[i] && tail[1..][0] == widths[i + 1];
      assert Attempt(tail, widths[i + 1])[1];
      assert Attempt(widths, room)[i + 1] == Attempt(widths, room)[i..][1];
      SumGrows(widths, i);
      SumGrows(widths, i + 1);
      assert !LongestPrefix(widths, room);
    }
  }

  // ---- the C structs ---------------------------------------------------------------

  class ReadBuffer {
    const buffer: array<byte>
    const size: nat
    var index: nat

    ghost predicate Valid()
      reads this
    {
      index <= size <= buffer.Length
    }

    ghost function Value(): (c: Cursor)
      requires Valid()
      reads this, buffer
      ensures c.Valid()
    {
      Cursor(buffer[..], size, index)
    }

    constructor (data: array<byte>, size: nat)
      requires size <= data.Length
      ensures Valid() && Value() == Cursor(data[..], size, 0)
      ensures buffer == data && this.size == size && index == 0
    {
      buffer := data;
      this.size := size;
      index := 0;
    }

    method ReadBlock(data: array<byte>, n: nat) returns (status: int)
      requires Valid() && n <= data.Length && data != buffer
      modifies this`index, data
      ensures Valid() && status == (if size - old(index) < n then 1 else 0)
      ensures status == 1 ==> index == old(index) && data[..] == old(data[..])
      ensures status == 0 ==> index == old(index) + n && data[..] == buffer[old(index)..index] + old(data[n..])
      ensures (Value(), if status == 0 then Some(Block(data[..n])) else None) == Read(old(Value()), BlockSlot(n))
    {
      if size - index < n {
        return 1;
      }
      var i := 0;
      while i < n
        invariant 0 <= i <= n && index == old(index) + i
        invariant data[..i] == buffer[old(index)..index]
        invariant data[n..] == old(data[n..])
      {
        data[i] := buffer[index];
        index := index + 1;
        i := i + 1;
      }
      status := 0;
    }

    method ReadUint8(prior: u8) returns (status: int, data: u8)
      requires Valid()
      modifies this`index
      ensures Valid() && status == (if size - old(index) < 1 then 1 else 0)
      ensures status == 1 ==> index == old(index) && data == prior
      ensures status == 0 ==> index == old(index) + 1 && data == At(U8, buffer[..], old(index))
      ensures (Value(), if status == 0 then Some(Word(U8, data)) else None) == Read(old(Value()), WordSlot(U8))
    {
      if size - index < 1 {
        return 1, prior;
      }
      data := buffer[index];
      LeNatSpelled(buffer[..][index..index + 1]);
      index := index + 1;
      status := 0;
    }

    method ReadUint16(prior: u16) returns (status: int, data: u16)
      requires Valid()
      modifies this`index
      ensures Valid() && status == (if size - old(index) < 2 then 1 else 0)
      ensures status == 1 ==> index == old(index) && data == prior
      ensures status == 0 ==> index == old(index) + 2 && data == At(U16, buffer[..], old(index))
      ensures (Value(), if status == 0 then Some(Word(U16, data)) else None) == Read(old(Value()), WordSlot(U16))
    {
      if size - index < 2 {
        return 1, prior;
      }
      LeNatSpelled(buffer[..][index..index + 2]);
      data := buffer[index];
      data := data + buffer[index + 1] as int * 0x100;
      index := index + 2;
      status := 0;
    }

    method ReadUint32(prior: u32) returns (status: int, data: u32)
      requires Valid()
      modifies this`index
      ensures Valid() && status == (if size - old(index) < 4 then 1 else 0)
      ensures status == 1 ==> index == old(index) && data == prior
      ensures status == 0 ==> index == old(index) + 4 && data == At(U32, buffer[..], old(index))
      ensures (Value(), if status == 0 then Some(Word(U32, data)) else None) == Read(old(Value()), WordSlot(U32))
    {
      if size - index < 4 {
        return 1, prior;
      }
      LeNatSpelled(buffer[..][index..index + 4]);
      data := buffer[index];
      data := data + buffer[index + 1] as int * 0x100;
      data := data + buffer[index + 2] as int * 0x1_0000;
      data := data + buffer[index + 3] as int * 0x100_0000;
      index := index + 4;
      status := 0;
    }

    method ReadInt8(prior: i8) returns (status: int, data: i8)
      requires Valid()
      modifies this`index
      ensures Valid() && status == (if size - old(index) < 1 then 1 else 0)
      ensures status == 1 ==> index == old(index) && data == prior
      ensures status == 0 ==> index == old(index) + 1 && data == At(I8, buffer[..], old(index))
      ensures (Value(), if status == 0 then Some(Word(I8, data)) else None) == Read(old(Value()), WordSlot(I8))
    {
      if size - index < 1 {
        return 1, prior;
      }
      LeNatSpelled(buffer[..][index..index + 1]);
      SpanValues();
      data := Signed(buffer[index], 1);
      index := index + 1;
      status := 0;
    }

    method ReadInt16(prior: i16) returns (status: int, data: i16)
      requires Valid()
      modifies this`index
      ensures Valid() && status == (if size - old(index) < 2 then 1 else 0)
      ensures status == 1 ==> index == old(index) && data == prior
      ensures status == 0 ==> index == old(index) + 2 && data == At(I16, buffer[..], old(index))
      ensures (Value(), if status == 0 then Some(Word(I16, data)) else None) == Read(old(Value()), WordSlot(I16))
    {
      if size - index < 2 {
        return 1, prior;
      }
      LeNatSpelled(buffer[..][index..index + 2]);
      SpanValues();
      var low: int := buffer[index];
      data := Signed(low + buffer[index + 1] as int * 0x100, 2);
      index := index + 2;
      status := 0;
    }

    method ReadInt32(prior: i32) returns (status: int, data: i32)
      requires Valid()
      modifies this`index
      ensures Valid() && status == (if size - old(index) < 4 then 1 else 0)
      ensures status == 1 ==> index == old(index) && data == prior
      ensures status == 0 ==> index == old(index) + 4 && data == At(I32, buffer[..], old(index))
      ensures (Value(), if status == 0 then Some(Word(I32, data)) else None) == Read(old(Value()), WordSlot(I32))
    {
      if size - index < 4 {
        return 1, prior;
      }
      LeNatSpelled(buffer[..][index..index + 4]);
      SpanValues();
      var bits: int := buffer[index];
      bits := bits + buffer[index + 1] as int * 0x100;
      bits := bits + buffer[index + 2] as int * 0x1_0000;
      data := Signed(bits + buffer[index + 3] as int * 0x100_0000, 4);
      index := index + 4;
      status := 0;
    }
  }

  class WriteBuffer {
    const buffer: array<byte>
    const size: nat
    var index: nat

    ghost predicate Valid()
      reads this
    {
      index <= size <= buffer.Length
    }

    ghost function Value(): (c: Cursor)
      requires Valid()
      reads this, buffer
      ensures c.Valid()
    {
      Cursor(buffer[..], size, index)
    }

    constructor (data: array<byte>, size: nat)
      requires size <= data.Length
      ensures Valid() && Value() == Cursor(data[..], size, 0)
      ensures buffer == data && this.size == size && index == 0
    {
      buffer := data;
      this.size := size;
      index := 0;
    }

    method WriteBlock(data: array<byte>, n: nat) returns (status: int)
      requires Valid() && n <= data.Length && data != buffer
      modifies this`index, buffer
      ensures Valid() && (status == 0 || status == 1)
      ensures (Value(), status == 0) == Write(old(Value()), Block(data[..n]))
    {
      if size - index < n {
        return 1;
      }
      ghost var mem, at := buffer[..], index;
      assert PutAt(mem, at, data[..0]) == mem;
      var i := 0;
      while i < n
        invariant 0 <= i <= n && index == at + i && at + n <= size
        invariant buffer[..] == PutAt(mem, at, data[..i])
      {
        ghost var before := buffer[..];
        buffer[index] := data[i];
        OneMoreByte(mem, at, data[..], i);
        assert buffer[..] == before[at + i := data[i]];
        assert data[..][..i] == data[..i] && data[..][..i + 1] == data[..i + 1];
        index := index + 1;
        i := i + 1;
      }
      status := 0;
    }

    method WriteUint8(data: u8) returns (status: int)
      requires Valid()
      modifies this`index, buffer
      ensures Valid() && (status == 0 || status == 1)
      ensures (Value(), status == 0) == Write(old(Value()), Word(U8, data))
    {
      status := WriteLow8(data, U8);
    }

    method WriteInt8(data: i8) returns (status: int)
      requires Valid()
      modifies this`index, buffer
      ensures Valid() && (status == 0 || status == 1)
      ensures (Value(), status == 0) == Write(old(Value()), Word(I8, data))
    {
      status := WriteLow8(data, I8);
    }

    method WriteUint16(data: u16) returns (status: int)
      requires Valid()
      modifies this`index, buffer
      ensures Valid() && (status == 0 || status == 1)
      ensures (Value(), status == 0) == Write(old(Value()), Word(U16, data))
    {
      status := WriteLow16(data, U16);
    }

    method WriteInt16(data: i16) returns (status: int)
      requires Valid()
      modifies this`index, buffer
      ensures Valid() && (status == 0 || status == 1)
      ensures (Value(), status == 0) == Write(old(Value()), Word(I16, data))
    {
      status := WriteLow16(data, I16);
    }

    method WriteUint32(data: u32) returns (status: int)
      requires Valid()
      modifies this`index, buffer
      ensures Valid() && (status == 0 || status == 1)
      ensures (Value(), status == 0) == Write(old(Value()), Word(U32, data))
    {
      status := WriteLow32(data, U32);
    }

    method WriteInt32(data: i32) returns (status: int)
      requires Valid()
      modifies this`index, buffer
      ensures Valid() && (status == 0 || status == 1)
      ensures (Value(), status == 0) == Write(old(Value()), Word(I32, data))
    {
      status := WriteLow32(data, I32);
    }

    // The signed and the unsigned writer of a width have the same statements in C.

    method WriteLow8(data: int, ghost k: Kind) returns (status: int)
      requires Valid() && k.Width() == 1
      modifies this`index, buffer
      ensures Valid() && (status == 0 || status == 1)
      ensures (Value(), status == 0) == Write(old(Value()), Word(k, data))
    {
      if size - index < 1 {
        return 1;
      }
      LeBytesSpelled(data);
      buffer[index] := data % 256;
      assert buffer[..] == PutAt(old(buffer[..]), index, LeBytes(data, 1));
      index := index + 1;
      status := 0;
    }

    method WriteLow16(data: int, ghost k: Kind) returns (status: int)
      requires Valid() && k.Width() == 2
      modifies this`index, buffer
      ensures Valid() && (status == 0 || status == 1)
      ensures (Value(), status == 0) == Write(old(Value()), Word(k, data))
    {
      if size - index < 2 {
        return 1;
      }
      LeBytesSpelled(data);
      buffer[index] := data % 256;
      buffer[index + 1] := data / 0x100 % 256;
      assert buffer[..] == PutAt(old(buffer[..]), index, LeBytes(data, 2));
      index := index + 2;
      status := 0;
    }

    method WriteLow32(data: int, ghost k: Kind) returns (status: int)
      requires Valid() && k.Width() == 4
      modifies this`index, buffer
      ensures Valid() && (status == 0 || status == 1)
      ensures (Value(), status == 0) == Write(old(Value()), Word(k, data))
    {
      if size - index < 4 {
        return 1;
      }
      LeBytesSpelled(data);
      buffer[index] := data % 256;
      buffer[index + 1] := data / 0x100 % 256;
      buffer[index + 2] := data / 0x1_0000 % 256;
      buffer[index + 3] := data / 0x100_0000 % 256;
      assert buffer[..] == PutAt(old(buffer[..]), index, LeBytes(data, 4));
      index := index + 4;
      status := 0;
    }
  }
}

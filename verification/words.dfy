/** Fixed-width little-endian words, as components/libbuffer/buffer.c lays them out.

    A C `char` is modelled by its low eight bits.  `x & 0xff` is `x % 256` and
    `(x >> 8)` is `x / 256`: Dafny's division rounds towards minus infinity for a
    positive divisor, which is the arithmetic shift of a negative operand. */
module Words {

  type byte = x: int | 0 <= x < 0x100
  type u8 = x: int | 0 <= x < 0x100
  type u16 = x: int | 0 <= x < 0x1_0000
  type u32 = x: int | 0 <= x < 0x1_0000_0000
  type i8 = x: int | -0x80 <= x < 0x80
  type i16 = x: int | -0x8000 <= x < 0x8000
  type i32 = x: int | -0x8000_0000 <= x < 0x8000_0000

  /** The six word types that have a reader and a writer. */
  datatype Kind = U8 | U16 | U32 | I8 | I16 | I32 {
    function Width(): (w: nat)
      ensures w == 1 || w == 2 || w == 4
    {
      match this
      case U8 | I8 => 1
      case U16 | I16 => 2
      case U32 | I32 => 4
    }

    predicate Signed() {
      I8? || I16? || I32?
    }

    predicate Holds(v: int) {
      match this
      case U8 => 0 <= v < 0x100
      case U16 => 0 <= v < 0x1_0000
      case U32 => 0 <= v < 0x1_0000_0000
      case I8 => -0x80 <= v < 0x80
      case I16 => -0x8000 <= v < 0x8000
      case I32 => -0x8000_0000 <= v < 0x8000_0000
    }
  }

  /** The number of different strings of `n` bytes. */
  function Span(n: nat): (m: nat)
    ensures m >= 1
    ensures n > 0 ==> m % 2 == 0
  {
    if n == 0 then 1 else 256 * Span(n - 1)
  }

  /** The low `n` bytes of `v`, least significant first. */
  function LeBytes(v: int, n: nat): (bs: seq<byte>)
    ensures |bs| == n
    decreases n, v
  {
    if n == 0 then [] else [v % 256] + LeBytes(v / 256, n - 1)
  }

  /** The number that a little-endian byte string denotes. */
  function LeNat(bs: seq<byte>): (v: nat)
    ensures v < Span(|bs|)
  {
    if bs == [] then 0 else bs[0] + 256 * LeNat(bs[1..])
  }

  /** A C conversion of an unsigned number below `Span(n)` to the signed type of `n` bytes. */
  function Signed(v: nat, n: nat): int {
    if 2 * v < Span(n) then v else v - Span(n)
  }

  function Encode(k: Kind, v: int): (bs: seq<byte>)
    ensures |bs| == k.Width()
  {
    LeBytes(v, k.Width())
  }

  function Decode(k: Kind, bs: seq<byte>): (v: int)
    requires |bs| == k.Width()
    ensures k.Holds(v)
  {
    SpanValues();
    if k.Signed() then Signed(LeNat(bs), |bs|) else LeNat(bs)
  }

  /** The word of type `k` that starts at offset `at`. */
  function At(k: Kind, bs: seq<byte>, at: nat): (v: int)
    requires at + k.Width() <= |bs|
    ensures k.Holds(v)
  {
    Decode(k, bs[at..at + k.Width()])
  }

  /** A conversion of any integer to int32_t. */
  function ToInt32(v: int): i32 {
    (v + 0x8000_0000) % 0x1_0000_0000 - 0x8000_0000
  }

  /** Where the parts of a concatenation lie. */
  lemma Parts<T>(a: seq<T>, b: seq<T>, c: seq<T>, d: seq<T>, e: seq<T>)
    ensures var s := a + b + c + d + e;
            && s[..|a|] == a
            && s[|a|..|a| + |b|] == b
            && s[|a| + |b|..|a| + |b| + |c|] == c
            && s[|a| + |b| + |c|..|a| + |b| + |c| + |d|] == d
            && s[|a| + |b| + |c| + |d|..] == e
  {
  }

  /** A prefix is the concatenation of its consecutive slices. */
  lemma Slices<T>(s: seq<T>, i: nat, j: nat, k: nat, l: nat)
    requires i <= j <= k <= l <= |s|
    ensures s[0..i] + s[i..j] + s[j..k] + s[k..l] == s[..l]
  {
    assert s[0..i] + s[i..j] == s[..j];
    assert s[..j] + s[j..k] == s[..k];
  }

  lemma SpanValues()
    ensures Span(1) == 0x100 && Span(2) == 0x1_0000 && Span(4) == 0x1_0000_0000
  {
    assert Span(2) == 256 * Span(1);
    assert Span(3) == 256 * Span(2);
    assert Span(4) == 256 * Span(3);
  }

  /** Printing then reading an unsigned number gives it back. */
  lemma {:induction false} NatRoundTrip(v: nat, n: nat)
    requires v < Span(n)
    ensures LeNat(LeBytes(v, n)) == v
  {
    if n > 0 {
      NatRoundTrip(v / 256, n - 1);
      assert LeBytes(v, n)[1..] == LeBytes(v / 256, n - 1);
    }
  }

  /** Adding a multiple of the span does not change the low bytes. */
  lemma {:induction false} LeBytesWrap(v: int, n: nat)
    ensures LeBytes(v + Span(n), n) == LeBytes(v, n)
    decreases n, v
  {
    if n > 0 {
      LeBytesWrap(v / 256, n - 1);
      assert (v + Span(n)) / 256 == v / 256 + Span(n - 1);
    }
  }

  /** Reading then printing gives the same bytes back, for either sign. */
  lemma {:induction false} BytesRoundTrip(bs: seq<byte>)
    ensures LeBytes(LeNat(bs), |bs|) == bs
    ensures LeBytes(Signed(LeNat(bs), |bs|), |bs|) == bs
  {
    if bs != [] {
      BytesRoundTrip(bs[1..]);
      assert LeNat(bs) / 256 == LeNat(bs[1..]);
    }
    LeBytesWrap(LeNat(bs) - Span(|bs|), |bs|);
  }

  /** A word of every type, negative ones included, survives a write and a read. */
  lemma DecodeEncode(k: Kind, v: int)
    requires k.Holds(v)
    ensures Decode(k, Encode(k, v)) == v
  {
    SpanValues();
    var n := k.Width();
    if v >= 0 {
      NatRoundTrip(v, n);
    } else {
      LeBytesWrap(v, n);
      NatRoundTrip(v + Span(n), n);
    }
  }

  /** Every byte string of the right length is the encoding of what it decodes to. */
  lemma EncodeDecode(k: Kind, bs: seq<byte>)
    requires |bs| == k.Width()
    ensures Encode(k, Decode(k, bs)) == bs
  {
    BytesRoundTrip(bs);
  }

  /** The one-, two- and four-byte forms that the C code spells out. */
  lemma LeNatSpelled(bs: seq<byte>)
    ensures |bs| == 1 ==> LeNat(bs) == bs[0]
    ensures |bs| == 2 ==> LeNat(bs) == bs[0] + bs[1] as int * 0x100
    ensures |bs| == 4 ==>
              LeNat(bs) == bs[0] + bs[1] as int * 0x100 + bs[2] as int * 0x1_0000 + bs[3] as int * 0x100_0000
  {
    if |bs| == 1 {
      assert LeNat(bs[1..]) == 0;
    } else if |bs| == 2 {
      LeNatSpelled(bs[1..]);
    } else if |bs| == 4 {
      assert bs[1..][1..] == bs[2..];
      LeNatSpelled(bs[2..]);
    }
  }

  lemma LeBytesSpelled(v: int)
    ensures LeBytes(v, 1) == [v % 256]
    ensures LeBytes(v, 2) == [v % 256, v / 0x100 % 256]
    ensures LeBytes(v, 4) == [v % 256, v / 0x100 % 256, v / 0x1_0000 % 256, v / 0x100_0000 % 256]
  {
    assert v / 0x100 / 256 == v / 0x1_0000 && v / 0x1_0000 / 256 == v / 0x100_0000;
    assert LeBytes(v / 0x100_0000, 1) == [v / 0x100_0000 % 256];
    assert LeBytes(v / 0x1_0000, 2) == [v / 0x1_0000 % 256] + LeBytes(v / 0x100_0000, 1);
    assert LeBytes(v / 0x100, 3) == [v / 0x100 % 256] + LeBytes(v / 0x1_0000, 2);
    assert LeBytes(v / 0x100, 1) == [v / 0x100 % 256];
  }
}

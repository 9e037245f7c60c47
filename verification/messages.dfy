/** The Snapcast messages as values: what components/lightsnapcast/snapcast.c prints and
    parses, and the laws that printer and parser obey.  The client has no printer for
    codec headers, wire chunks and server settings; theirs are specifications. */
module Messages {
  import opened Words
  import opened Cursors

  const BASE_MESSAGE_SIZE := 26
  const TIME_MESSAGE_SIZE := 8

  const TYPE_BASE: u16 := 0
  const TYPE_CODEC_HEADER: u16 := 1
  const TYPE_WIRE_CHUNK: u16 := 2
  const TYPE_SERVER_SETTINGS: u16 := 3
  const TYPE_TIME: u16 := 4
  const TYPE_HELLO: u16 := 5
  const TYPE_STREAM_TAGS: u16 := 6

  datatype Tv = Tv(sec: i32, usec: i32)

  datatype Base = Base(typ: u16, id: u16, refersTo: u16, sent: Tv, received: Tv, size: u32)

  lemma AtPrefix(k: Kind, a: seq<byte>, b: seq<byte>, at: nat)
    requires at + k.Width() <= |a|
    ensures At(k, a + b, at) == At(k, a, at)
  {
    assert (a + b)[at..at + k.Width()] == a[at..at + k.Width()];
  }

  lemma AtEncoded(k: Kind, v: int, before: seq<byte>, after: seq<byte>)
    requires k.Holds(v)
    ensures At(k, before + Encode(k, v) + after, |before|) == v
  {
    DecodeEncode(k, v);
    assert (before + Encode(k, v) + after)[|before|..|before| + k.Width()] == Encode(k, v);
  }

  // ---- stamps ------------------------------------------------------------------------

  function EncodeTv(t: Tv): (bs: seq<byte>)
    ensures |bs| == 8
  {
    Encode(I32, t.sec) + Encode(I32, t.usec)
  }

  function DecodeTv(bs: seq<byte>, at: nat): Tv
    requires at + 8 <= |bs|
  {
    Tv(At(I32, bs, at), At(I32, bs, at + 4))
  }

  lemma TvRoundTrip(t: Tv, before: seq<byte>, after: seq<byte>)
    ensures DecodeTv(before + EncodeTv(t) + after, |before|) == t
  {
    var bs := before + EncodeTv(t) + after;
    assert bs == before + Encode(I32, t.sec) + (Encode(I32, t.usec) + after);
    assert bs == (before + Encode(I32, t.sec)) + Encode(I32, t.usec) + after;
    AtEncoded(I32, t.sec, before, Encode(I32, t.usec) + after);
    AtEncoded(I32, t.usec, before + Encode(I32, t.sec), after);
  }

  lemma TvPrinted(bs: seq<byte>, at: nat)
    requires at + 8 <= |bs|
    ensures EncodeTv(DecodeTv(bs, at)) == bs[at..at + 8]
  {
    EncodeDecode(I32, bs[at..at + 4]);
    EncodeDecode(I32, bs[at + 4..at + 8]);
    assert bs[at..at + 4] + bs[at + 4..at + 8] == bs[at..at + 8];
  }

  // ---- the base header ---------------------------------------------------------------

  function EncodeBase(b: Base): (bs: seq<byte>)
    ensures |bs| == BASE_MESSAGE_SIZE
  {
    Encode(U16, b.typ) + Encode(U16, b.id) + Encode(U16, b.refersTo)
    + EncodeTv(b.sent) + EncodeTv(b.received) + Encode(U32, b.size)
  }

  function DecodeBase(bs: seq<byte>): Base
    requires |bs| >= BASE_MESSAGE_SIZE
  {
    Base(At(U16, bs, 0), At(U16, bs, 2), At(U16, bs, 4), DecodeTv(bs, 6), DecodeTv(bs, 14), At(U32, bs, 22))
  }

  /** No message is lost: what is printed, whatever follows it, reads back as itself. */
  lemma BaseParsesBack(b: Base, rest: seq<byte>)
    ensures DecodeBase(EncodeBase(b) + rest) == b
  {
    var bs := EncodeBase(b) + rest;
    var p0 := Encode(U16, b.typ);
    var p1 := p0 + Encode(U16, b.id);
    var p2 := p1 + Encode(U16, b.refersTo);
    var p3 := p2 + EncodeTv(b.sent);
    var p4 := p3 + EncodeTv(b.received);
    var p5 := p4 + Encode(U32, b.size);
    assert bs == p5 + rest;
    assert bs == [] + p0 + bs[2..];
    AtEncoded(U16, b.typ, [], bs[2..]);
    assert bs == p0 + Encode(U16, b.id) + bs[4..];
    AtEncoded(U16, b.id, p0, bs[4..]);
    assert bs == p1 + Encode(U16, b.refersTo) + bs[6..];
    AtEncoded(U16, b.refersTo, p1, bs[6..]);
    assert bs == p2 + EncodeTv(b.sent) + bs[14..];
    TvRoundTrip(b.sent, p2, bs[14..]);
    assert bs == p3 + EncodeTv(b.received) + bs[22..];
    TvRoundTrip(b.received, p3, bs[22..]);
    assert bs == p4 + Encode(U32, b.size) + rest;
    AtEncoded(U32, b.size, p4, rest);
  }

  /** No byte is lost: every 26-byte string is the print of what it parses to. */
  lemma BasePrintsBack(bs: seq<byte>)
    requires |bs| >= BASE_MESSAGE_SIZE
    ensures EncodeBase(DecodeBase(bs)) == bs[..BASE_MESSAGE_SIZE]
  {
    EncodeDecode(U16, bs[0..2]);
    EncodeDecode(U16, bs[2..4]);
    EncodeDecode(U16, bs[4..6]);
    TvPrinted(bs, 6);
    TvPrinted(bs, 14);
    EncodeDecode(U32, bs[22..26]);
    assert bs[0..2] + bs[2..4] == bs[..4];
    assert bs[..4] + bs[4..6] == bs[..6];
    assert bs[..6] + bs[6..14] == bs[..14];
    assert bs[..14] + bs[14..22] == bs[..22];
    assert bs[..22] + bs[22..26] == bs[..26];
  }

  /** Two different messages never share an encoding. */
  lemma BaseInjective(a: Base, b: Base)
    ensures EncodeBase(a) == EncodeBase(b) <==> a == b
  {
    BaseParsesBack(a, []);
    BaseParsesBack(b, []);
  }

  /** The type is in the first two bytes. */
  lemma TypeIsFirst(b: Base)
    ensures EncodeBase(b)[..2] == [b.typ % 256, b.typ / 256]
  {
    hide EncodeTv;
    LeBytesSpelled(b.typ);
    assert EncodeBase(b)[..2] == Encode(U16, b.typ);
  }

  /** The widths of the eight fields, in the order they are attempted. */
  const BASE_WIDTHS: seq<nat> := [2, 2, 2, 4, 4, 4, 4, 4]

  /** How many of the 26 bytes are whole fields when `size` bytes are available. */
  function WholeFields(size: nat): (n: nat)
    ensures n <= size && n <= BASE_MESSAGE_SIZE
    ensures n == BASE_MESSAGE_SIZE <==> size >= BASE_MESSAGE_SIZE
  {
    if size < 2 then 0
    else if size < 4 then 2
    else if size < 6 then 4
    else if size < 10 then 6
    else if size < 14 then 10
    else if size < 18 then 14
    else if size < 22 then 18
    else if size < 26 then 22
    else 26
  }

  lemma BaseWidthSums()
    ensures Sum(BASE_WIDTHS[..0]) == 0 && Sum(BASE_WIDTHS[..1]) == 2 && Sum(BASE_WIDTHS[..2]) == 4
    ensures Sum(BASE_WIDTHS[..3]) == 6 && Sum(BASE_WIDTHS[..4]) == 10 && Sum(BASE_WIDTHS[..5]) == 14
    ensures Sum(BASE_WIDTHS[..6]) == 18 && Sum(BASE_WIDTHS[..7]) == 22 && Sum(BASE_WIDTHS[..8]) == 26
  {
    assert BASE_WIDTHS[..0] == [];
    SumGrows(BASE_WIDTHS, 0);
    SumGrows(BASE_WIDTHS, 1);
    SumGrows(BASE_WIDTHS, 2);
    SumGrows(BASE_WIDTHS, 3);
    SumGrows(BASE_WIDTHS, 4);
    SumGrows(BASE_WIDTHS, 5);
    SumGrows(BASE_WIDTHS, 6);
    SumGrows(BASE_WIDTHS, 7);
  }

  lemma FieldCount(size: nat) returns (fields: nat)
    ensures fields <= 8 && WholeFields(size) == Sum(BASE_WIDTHS[..fields])
    ensures fields < 8 ==> size < Sum(BASE_WIDTHS[..fields + 1])
  {
    BaseWidthSums();
    fields := if size < 2 then 0 else if size < 4 then 1 else if size < 6 then 2 else if size < 10 then 3
    else if size < 14 then 4 else if size < 18 then 5 else if size < 22 then 6 else if size < 26 then 7 else 8;
  }

  /** The attempted fields that go through are the longest whole-field prefix, and
      `WholeFields` is its length: the next field, when there is one, does not fit. */
  lemma WholeFieldsLongest(size: nat) returns (fields: nat)
    ensures fields <= 8 && WholeFields(size) == Sum(BASE_WIDTHS[..fields])
    ensures fields < 8 ==> size < Sum(BASE_WIDTHS[..fields + 1])
    ensures forall i :: 0 <= i < 8 ==> (Attempt(BASE_WIDTHS, size)[i] <==> i < fields)
  {
    hide Attempt, Sum, WholeFields;
    fields := FieldCount(size);
    NonDecreasingIsEnough(BASE_WIDTHS, size);
    forall i | 0 <= i < 8
      ensures Attempt(BASE_WIDTHS, size)[i] <==> i < fields
    {
      if i < fields {
        SumMonotone(BASE_WIDTHS, i + 1, fields);
      } else {
        SumMonotone(BASE_WIDTHS, fields + 1, i + 1);
      }
    }
  }

  // ---- the codec header --------------------------------------------------------------

  const UINT32_MAX: u32 := 0xFFFF_FFFF

  datatype Parsed = Codec(name: seq<byte>, payload: seq<byte>) | Short | NoMemory {
    /** The C return value. */
    function Status(): int {
      match this
      case Codec(_, _) => 0
      case Short => 1
      case NoMemory => 2
    }
  }

  /** Specification of the printer. */
  function CodecBody(name: seq<byte>, payload: seq<byte>): (bs: seq<byte>)
    ensures |bs| == 8 + |name| + |payload|
  {
    Encode(U32, |name|) + name + Encode(U32, |payload|) + payload
  }

  /** Whether `malloc(nameLen + 1)` hands out a block: the sum is taken in 32 bits, and
      a request that wraps to zero bytes gets none. */
  predicate NameAllocated(nameLen: u32, granted: bool) {
    granted && nameLen != UINT32_MAX
  }

  function ParseCodec(bs: seq<byte>, nameGranted: bool, payloadGranted: bool): (r: Parsed) {
    if |bs| < 4 then Short
    else
      var n := At(U32, bs, 0);
      if !NameAllocated(n, nameGranted) then NoMemory
      else if |bs| - 4 < n || |bs| - 4 - n < 4 then Short
      else
        var m := At(U32, bs, 4 + n);
        if !payloadGranted then NoMemory
        else if |bs| - 8 - n < m then Short
        else Codec(bs[4..4 + n], bs[8 + n..8 + n + m])
  }

  /** Parsing the first `n` bytes of a larger buffer, read where they lie. */
  lemma ParseCodecInPlace(mem: seq<byte>, n: nat, nameGranted: bool, payloadGranted: bool)
    requires n <= |mem|
    ensures ParseCodec(mem[..n], nameGranted, payloadGranted)
            == if n < 4 then Short
               else
                 var len := At(U32, mem, 0);
                 if !NameAllocated(len, nameGranted) then NoMemory
                 else if n < 8 + len then Short
                 else if !payloadGranted then NoMemory
                 else
                   var m := At(U32, mem, 4 + len);
                   if n < 8 + len + m then Short
                   else Codec(mem[4..4 + len], mem[8 + len..8 + len + m])
  {
    hide Decode;
    assert mem == mem[..n] + mem[n..];
    if 4 <= n {
      AtPrefix(U32, mem[..n], mem[n..], 0);
      var len := At(U32, mem, 0);
      if 8 + len <= n {
        AtPrefix(U32, mem[..n], mem[n..], 4 + len);
        var m := At(U32, mem, 4 + len);
        if 8 + len + m <= n {
          assert mem[..n][4..4 + len] == mem[4..4 + len];
          assert mem[..n][8 + len..8 + len + m] == mem[8 + len..8 + len + m];
        }
      }
    }
  }

  lemma CodecLayout(name: seq<byte>, payload: seq<byte>, rest: seq<byte>)
    requires |name| <= UINT32_MAX && |payload| <= UINT32_MAX
    ensures var bs := CodecBody(name, payload) + rest;
            && At(U32, bs, 0) == |name|
            && bs[4..4 + |name|] == name
            && At(U32, bs, 4 + |name|) == |payload|
            && bs[8 + |name|..8 + |name| + |payload|] == payload
  {
    Parts(Encode(U32, |name|), name, Encode(U32, |payload|), payload, rest);
    DecodeEncode(U32, |name|);
    DecodeEncode(U32, |payload|);
  }

  /** Every printed pair, whatever follows it, parses back to itself. */
  lemma CodecParsesBack(name: seq<byte>, payload: seq<byte>, rest: seq<byte>)
    requires |name| < UINT32_MAX && |payload| <= UINT32_MAX
    ensures ParseCodec(CodecBody(name, payload) + rest, true, true) == Codec(name, payload)
  {
    CodecLayout(name, payload, rest);
  }

  /** What parses is the print of the result, followed by bytes that were not consumed. */
  lemma CodecPrintsBack(bs: seq<byte>)
    requires ParseCodec(bs, true, true).Codec?
    ensures var r := ParseCodec(bs, true, true);
            CodecBody(r.name, r.payload) <= bs
  {
    var r := ParseCodec(bs, true, true);
    var n, m := |r.name|, |r.payload|;
    assert Encode(U32, n) == bs[0..4] by {
      EncodeDecode(U32, bs[0..4]);
    }
    assert Encode(U32, m) == bs[4 + n..8 + n] by {
      EncodeDecode(U32, bs[4 + n..8 + n]);
    }
    Slices(bs, 4, 4 + n, 8 + n, 8 + n + m);
  }

  /** With memory to spare a body is accepted exactly when it starts with the print of
      some pair, and then with the print of no other; in terms of the two lengths, exactly
      when both texts fit, although a name that does not fit is followed by one more read. */
  lemma CodecAcceptedIff(bs: seq<byte>)
    ensures ParseCodec(bs, true, true).Status() == 0
       <==> exists name: seq<byte>, payload: seq<byte> ::
              |name| < UINT32_MAX && |payload| <= UINT32_MAX && CodecBody(name, payload) <= bs
    ensures forall name: seq<byte>, payload: seq<byte> ::
              |name| < UINT32_MAX && |payload| <= UINT32_MAX && CodecBody(name, payload) <= bs
              ==> ParseCodec(bs, true, true) == Codec(name, payload)
    ensures |bs| >= 4 && At(U32, bs, 0) < UINT32_MAX ==>
              var n := At(U32, bs, 0);
              (ParseCodec(bs, true, true).Status() == 0
               <==> 8 + n <= |bs| && 4 + n + 4 + At(U32, bs, 4 + n) <= |bs|)
  {
    if ParseCodec(bs, true, true).Codec? {
      CodecPrintsBack(bs);
    }
    forall name: seq<byte>, payload: seq<byte> |
      |name| < UINT32_MAX && |payload| <= UINT32_MAX && CodecBody(name, payload) <= bs
      ensures ParseCodec(bs, true, true) == Codec(name, payload)
    {
      var len := 8 + |name| + |payload|;
      assert bs == CodecBody(name, payload) + bs[len..];
      CodecParsesBack(name, payload, bs[len..]);
    }
  }

  // ---- C strings and codec names -----------------------------------------------------

  /** The C string that starts at offset 0: what lies before the first NUL. */
  function CString(bs: seq<byte>): (s: seq<byte>)
    ensures s <= bs && (forall i :: 0 <= i < |s| ==> s[i] != 0)
    ensures |s| < |bs| ==> bs[|s|] == 0
    decreases bs
  {
    if bs == [] || bs[0] == 0 then [] else [bs[0]] + CString(bs[1..])
  }

  lemma CStringIs(bs: seq<byte>, s: seq<byte>)
    requires s + [0] <= bs && 0 !in s
    ensures CString(bs) == s
  {
    var t := CString(bs);
    assert bs[|s|] == (s + [0])[|s|];
    assert forall i :: 0 <= i < |s| ==> bs[i] == (s + [0])[i] == s[i] && s[i] != 0;
    assert |t| <= |s|;
    assert |t| == |s|;
    assert t == bs[..|t|] == s;
  }

  const OPUS: seq<byte> := [0x6F, 0x70, 0x75, 0x73]
  const FLAC: seq<byte> := [0x66, 0x6C, 0x61, 0x63]
  const PCM: seq<byte> := [0x70, 0x63, 0x6D]
  const OGG: seq<byte> := [0x6F, 0x67, 0x67]

  /** Whether the terminated name compares equal, as a C string, to a known codec. */
  predicate Supported(name: seq<byte>) {
    CString(name + [0]) in [OPUS, FLAC, PCM, OGG]
  }

  predicate IsAscii(s: string) {
    forall i :: 0 <= i < |s| ==> 0 < s[i] as int < 0x80
  }

  function Ascii(s: string): (bs: seq<byte>)
    requires IsAscii(s)
    ensures |bs| == |s| && 0 !in bs
  {
    seq(|s|, i requires 0 <= i < |s| => s[i] as int)
  }

  /** The terminated name begins with the word and its NUL. */
  predicate Begins(name: seq<byte>, word: string)
    requires IsAscii(word)
  {
    Ascii(word) + [0] <= name + [0]
  }

  lemma CStringIff(bs: seq<byte>, s: seq<byte>)
    requires 0 in bs && 0 !in s
    ensures CString(bs) == s <==> s + [0] <= bs
  {
    var t := CString(bs);
    assert |t| < |bs| by {
      var i :| 0 <= i < |bs| && bs[i] == 0;
    }
    assert t + [0] == bs[..|t| + 1];
    if s + [0] <= bs {
      CStringIs(bs, s);
    }
  }

  /** The known codecs, letter by letter. */
  lemma SupportedIff(name: seq<byte>)
    ensures Supported(name)
       <==> Begins(name, "opus") || Begins(name, "flac") || Begins(name, "pcm") || Begins(name, "ogg")
  {
    hide CString;
    assert (name + [0])[|name|] == 0;
    assert Ascii("opus") == OPUS && Ascii("flac") == FLAC && Ascii("pcm") == PCM && Ascii("ogg") == OGG;
    CStringIff(name + [0], OPUS);
    CStringIff(name + [0], FLAC);
    CStringIff(name + [0], PCM);
    CStringIff(name + [0], OGG);
  }

  // ---- wire chunks, times, length-prefixed texts -------------------------------------

  /** Specification of the printer. */
  function ChunkBody(stamp: Tv, payload: seq<byte>): (bs: seq<byte>)
    ensures |bs| == 12 + |payload|
  {
    EncodeTv(stamp) + Encode(U32, |payload|) + payload
  }

  lemma ChunkParsesBack(stamp: Tv, payload: seq<byte>)
    requires |payload| <= UINT32_MAX
    ensures var bs := ChunkBody(stamp, payload);
            DecodeTv(bs, 0) == stamp && At(U32, bs, 8) == |payload| && bs[12..] == payload
  {
    var bs := ChunkBody(stamp, payload);
    assert bs == [] + EncodeTv(stamp) + bs[8..];
    TvRoundTrip(stamp, [], bs[8..]);
    AtEncoded(U32, |payload|, EncodeTv(stamp), payload);
  }

  function TimeBody(latency: Tv): (bs: seq<byte>)
    ensures |bs| == TIME_MESSAGE_SIZE
  {
    EncodeTv(latency)
  }

  lemma TimeParsesBack(latency: Tv)
    ensures DecodeTv(TimeBody(latency), 0) == latency
  {
    assert TimeBody(latency) == [] + EncodeTv(latency) + [];
    TvRoundTrip(latency, [], []);
  }

  /** A text after its 32-bit length: HELLO bodies and server-settings bodies. */
  function PrefixedText(text: seq<byte>): (bs: seq<byte>)
    ensures |bs| == 4 + |text|
  {
    Encode(U32, |text|) + text
  }

  /** The hand-written prefix is the one `buffer_read_uint32` understands. */
  lemma PrefixedTextParsesBack(text: seq<byte>, rest: seq<byte>)
    requires |text| <= UINT32_MAX
    ensures var bs := PrefixedText(text) + rest;
            var n := At(U32, bs, 0);
            n == |text| && bs[4..4 + n] == text
  {
    var bs := PrefixedText(text) + rest;
    assert bs == [] + Encode(U32, |text|) + (text + rest);
    AtEncoded(U32, |text|, [], text + rest);
  }

  // ---- the in-place shift of server settings -----------------------------------------

  /** The buffer after the shift by four and the store of the terminator: the byte at
      `n - 4` keeps its old value and separates the text from the terminator. */
  function Shifted(buf: seq<byte>, n: nat): (r: seq<byte>)
    requires 4 <= n <= |buf|
    ensures |r| == |buf|
  {
    buf[4..n] + [buf[n - 4], 0] + buf[n - 2..]
  }

  /** A body in the length-prefixed layout ends up with its text at offset 0 and a NUL at
      `n - 3`, and no byte at or beyond `n` changes. */
  lemma ShiftMovesText(buf: seq<byte>, text: seq<byte>)
    requires PrefixedText(text) <= buf
    ensures var n := 4 + |text|;
            var r := Shifted(buf, n);
            r[..|text|] == text && r[n - 3] == 0 && r[n..] == buf[n..]
  {
    var n := 4 + |text|;
    var r := Shifted(buf, n);
    assert buf[..n] == PrefixedText(text);
    assert buf[4..n] == buf[..n][4..] == text;
    assert r[n..] == buf[n - 2..][2..] == buf[n..];
  }

  /** The string that is then found lies within the body, whatever is behind it. */
  lemma TextInBody(body: seq<byte>, behind: seq<byte>)
    requires |body| >= 4
    ensures CString(Shifted(body + behind, |body|)) == CString(Shifted(body, |body|))
  {
    var n := |body|;
    var s := Shifted(body, n);
    assert Shifted(body + behind, n) == s + behind;
    assert s[n - 3] == 0;
    var t := CString(s);
    assert |t| <= n - 3;
    assert t + [0] == s[..|t| + 1];
    CStringIs(s + behind, t);
  }

  /** The terminator lies one past the end of the text, and the byte in between keeps its old
      value.  So the C string that the JSON parser sees is the text itself exactly when
      the text is shorter than the length prefix; else it is one byte longer, and that byte
      is the text's own fourth from the end. */
  lemma ShiftedStringIff(buf: seq<byte>, text: seq<byte>)
    requires PrefixedText(text) <= buf
    requires 0 !in text && |text| <= UINT32_MAX
    ensures var s := CString(Shifted(buf, 4 + |text|));
            && s == (if |text| < 4 then text else text + [text[|text| - 4]])
            && (s == text <==> |text| < 4)
  {
    var n := 4 + |text|;
    var r := Shifted(buf, n);
    ShiftMovesText(buf, text);
    var junk := buf[n - 4];
    assert buf[..n] == PrefixedText(text);
    if |text| < 4 {
      LeBytesSpelled(|text|);
      assert junk == PrefixedText(text)[|text|] == Encode(U32, |text|)[|text|] == 0;
      assert r[..|text| + 1] == text + [0];
      CStringIs(r, text);
    } else {
      assert junk == PrefixedText(text)[|text|] == text[|text| - 4];
      assert junk in text && junk != 0;
      assert (text + [junk]) + [0] == r[..|text| + 2];
      CStringIs(r, text + [junk]);
    }
  }

  /** A text for which they differ: of the settings body that carries "abcd" the JSON parser
      is given "abcda". */
  lemma ShiftedStringDiffers()
    ensures var text: seq<byte> := [0x61, 0x62, 0x63, 0x64];
            CString(Shifted(PrefixedText(text), 8)) == [0x61, 0x62, 0x63, 0x64, 0x61]
  {
    var text: seq<byte> := [0x61, 0x62, 0x63, 0x64];
    var r := Shifted(PrefixedText(text), 8);
    ShiftMovesText(PrefixedText(text), text);
    assert PrefixedText(text)[4] == text[0];
    assert [0x61, 0x62, 0x63, 0x64, 0x61] + [0] == r[..6];
    CStringIs(r, [0x61, 0x62, 0x63, 0x64, 0x61]);
  }
}

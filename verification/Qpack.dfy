/** QPACK field sections (RFC 9204) as src/http/qpack.cpp writes and reads them, over any Huffman and static table. */
module Qpack {
  import opened Bytes
  import opened PrefixInt
  import opened DynamicTable
  import Hpack
  import Huffman

  type Tables = Hpack.Tables

  // ---------------------------------------------------------------- strings

  /** As in HPACK, but a Huffman string that decodes to nothing is an error. */
  function DecodeString(t: Huffman.Table, data: seq<byte>): (r: Hpack.StringRead)
    ensures r.Text? ==> 1 <= r.consumed <= |data|
  {
    var s := Hpack.DecodeString(t, data);
    if s.Text? && data[0] >= 128 && s.text == [] && DecodeInt(data, 128).value.value > 0 then Hpack.Nothing else s
  }

  /** Does the receiver accept s in the form it is sent in? */
  predicate Readable(t: Huffman.Table, s: seq<byte>) {
    Hpack.UsesHuffman(t, s) && Hpack.Delivered(t, s) == [] ==> Huffman.Encode(t, s) == []
  }

  lemma StringTransfer(t: Huffman.Table, s: seq<byte>, rest: seq<byte>)
    requires |s| < WORD64
    ensures DecodeString(t, Hpack.EncodeString(t, s) + rest)
         == if Readable(t, s) then Hpack.Text(Hpack.Delivered(t, s), |Hpack.EncodeString(t, s)|) else Hpack.Nothing
  {
    hide Huffman.Encode, Huffman.Decode;
    Hpack.StringTransfer(t, s, rest);
    if Hpack.UsesHuffman(t, s) {
      Hpack.LengthPrefixed(0x80, Huffman.Encode(t, s), rest);
    } else {
      Hpack.LengthPrefixed(0x00, s, rest);
    }
  }

  // ---------------------------------------------------------------- encoding

  /** The first index from `from` on that holds exactly f, or the table's length. */
  function IndexOfField(fields: seq<Field>, f: Field, from: nat): (r: nat)
    requires from <= |fields|
    ensures from <= r <= |fields|
    ensures r < |fields| ==> fields[r] == f
    ensures forall i :: from <= i < r ==> fields[i] != f
    decreases |fields| - from
  {
    if from == |fields| || fields[from] == f then from else IndexOfField(fields, f, from + 1)
  }

  /** The same for a name alone. */
  function IndexOfName(fields: seq<Field>, name: seq<byte>, from: nat): (r: nat)
    requires from <= |fields|
    ensures from <= r <= |fields|
    ensures r < |fields| ==> fields[r].name == name
    ensures forall i :: from <= i < r ==> fields[i].name != name
    decreases |fields| - from
  {
    if from == |fields| || fields[from].name == name then from else IndexOfName(fields, name, from + 1)
  }

  /** An indexed line, a literal with a static name, or a literal with both strings. */
  function EncodeLine(tb: Tables, f: Field): seq<byte> {
    var i := IndexOfField(tb.fields, f, 0);
    var n := IndexOfName(tb.fields, f.name, 0);
    if i < |tb.fields| then EncodeInt(i, 64, 0xC0)
    else if n < |tb.fields| then EncodeInt(n, 16, 0x50) + Hpack.EncodeString(tb.huffman, f.value)
    else [0x20] + Hpack.EncodeString(tb.huffman, f.name) + Hpack.EncodeString(tb.huffman, f.value)
  }

  function EncodeLines(tb: Tables, fs: seq<Field>): seq<byte> {
    if |fs| == 0 then [] else EncodeLine(tb, fs[0]) + EncodeLines(tb, fs[1..])
  }

  /** Required Insert Count 0 and Delta Base 0, then the lines. */
  function EncodeSection(tb: Tables, fs: seq<Field>): seq<byte> {
    [0x00, 0x00] + EncodeLines(tb, fs)
  }

  // ---------------------------------------------------------------- decoding

  /** The decoder's table: newest entry first, and how many entries were ever inserted. */
  datatype Dynamic = Dynamic(entries: seq<Field>, insertCount: nat)

  /** Unread stands for the source's zero byte count, Thrown for an exception, Overrun for a read beyond the input. */
  datatype LineRead = Unread | Thrown | Overrun | Line(field: Field, consumed: nat)

  function Entry(fields: seq<Field>, index: nat): Option<Field> {
    if index < |fields| then Some(fields[index]) else None
  }

  function ReadIndexed(fields: seq<Field>, base: nat, data: seq<byte>, span: Span): (r: LineRead)
    ensures r.Line? ==> 1 <= r.consumed <= |data|
  {
    var index := DecodeInt(data, span);
    if index.None? then Unread
    else
      var f := Entry(fields, (base + index.value.value) % WORD64);
      if f.None? then Unread else Line(f.value, index.value.consumed)
  }

  /** A line whose last part is a string: its name and the bytes before the string are known. */
  function WithValue(name: seq<byte>, before: nat, value: Hpack.StringRead): LineRead {
    match value
    case Nothing => Unread
    case TooLong => Thrown
    case PastEnd => Overrun
    case Text(text, n) => Line(Field(name, text), before + n)
  }

  /** A literal whose name is an entry of the given table. */
  function ReadNamed(t: Huffman.Table, fields: seq<Field>, data: seq<byte>): (r: LineRead)
    ensures r.Line? ==> 1 <= r.consumed <= |data|
  {
    var index := DecodeInt(data, 16);
    if index.None? then Unread
    else
      var f := Entry(fields, index.value.value);
      if f.None? then Unread else WithValue(f.value.name, index.value.consumed,
        DecodeString(t, data[index.value.consumed..]))
  }

  function ReadLiteral(t: Huffman.Table, data: seq<byte>): (r: LineRead)
    requires |data| > 0
    ensures r.Line? ==> 1 <= r.consumed <= |data|
  {
    match DecodeString(t, data[1..])
    case Nothing => Unread
    case TooLong => Thrown
    case PastEnd => Overrun
    case Text(name, n) => WithValue(name, 1 + n, DecodeString(t, data[1 + n..]))
  }

  function DecodeLine(tb: Tables, dyn: Dynamic, base: nat, data: seq<byte>): (r: LineRead)
    ensures r.Line? ==> 1 <= r.consumed <= |data|
  {
    if |data| == 0 then Unread
    else
      var b := data[0];
      if b >= 0xC0 then ReadIndexed(tb.fields, 0, data, 64)
      else if b >= 0xA0 then ReadIndexed(dyn.entries, base, data, 32)
      else if 0x40 <= b < 0x80 then
        if b / 16 % 2 == 1 then ReadNamed(tb.huffman, tb.fields, data) else ReadNamed(tb.huffman, dyn.entries, data)
      else if 0x20 <= b < 0x40 then ReadLiteral(tb.huffman, data)
      else if b < 0x04 then ReadIndexed(dyn.entries, 0, data, 16)
      else Unread
  }

  /** The lines read, and how the decoder ended. */
  datatype Section = Section(headers: seq<Field>, fate: Hpack.Fate)

  /** Lines until one cannot be read; those read so far are kept. */
  function DecodeLines(tb: Tables, dyn: Dynamic, base: nat, data: seq<byte>): Section
    decreases |data|
  {
    match DecodeLine(tb, dyn, base, data)
    case Unread => Section([], Hpack.Returned)
    case Thrown => Section([], Hpack.Threw)
    case Overrun => Section([], Hpack.Beyond)
    case Line(field, n) =>
      var rest := DecodeLines(tb, dyn, base, data[n..]);
      Section([field] + rest.headers, rest.fate)
  }

  /** The Required Insert Count of a non-zero encoded count, in 64-bit arithmetic. */
  function InsertCount(encoded: nat, maxTableSize: nat, inserted: nat): nat
    requires encoded > 0
  {
    var maxEntries := maxTableSize / 32;
    var fullRange := if maxEntries == 0 then 1 else 2 * maxEntries;
    var maxValue := inserted + maxEntries;
    var count := (maxValue / fullRange * fullRange + (encoded - 1)) % WORD64;
    ((if count > maxValue then count - fullRange else count) + 1) % WORD64
  }

  /** The sign bit of the Delta Base is read before its bytes are known to be there. */
  function DecodeSection(tb: Tables, dyn: Dynamic, maxTableSize: nat, data: seq<byte>): Section {
    var ric := DecodeInt(data, 256);
    if |data| < 2 || ric.None? then Section([], Hpack.Returned)
    else
      var rest := data[ric.value.consumed..];
      var delta := DecodeInt(rest, 128);
      if |rest| == 0 then Section([], Hpack.Beyond)
      else if delta.None? then Section([], Hpack.Returned)
      else
        var count: int := if ric.value.value == 0 then 0
            else InsertCount(ric.value.value, maxTableSize, dyn.insertCount);
        var base := if count == 0 then 0
                    else if rest[0] >= 128 then (count - 1 - delta.value.value) % WORD64
                    else (count - 1 + delta.value.value) % WORD64;
        DecodeLines(tb, dyn, base, rest[delta.value.consumed..])
  }

  /** As in HPACK: beyond the input, or by an exception, under the same conditions. */
  lemma PastEndIff(t: Huffman.Table, data: seq<byte>)
    requires |data| < WORD64
    ensures var len := DecodeInt(data, 128);
            var wraps := len.Some? && len.value.value >= WORD64 - len.value.consumed;
            && (DecodeString(t, data) == Hpack.PastEnd <==>
                  wraps && data[0] >= 128 && !Huffman.GivesUp(t, data[len.value.consumed..]))
            && (DecodeString(t, data) == Hpack.TooLong <==> wraps && data[0] < 128)
  {
    hide Hpack.DecodeString, DecodeInt, Huffman.GivesUp;
    Hpack.PastEndIff(t, data);
  }

  /** But a string on which the bit loop gives up is refused, whatever its length. */
  lemma GivenUpIsRefused(t: Huffman.Table, data: seq<byte>)
    requires Hpack.Wraps(data) && data[0] >= 128 && Huffman.GivesUp(t, data[DecodeInt(data, 128).value.consumed..])
    ensures DecodeString(t, data) == Hpack.Nothing
  {
    hide DecodeInt, Huffman.GivesUp, Huffman.Decode;
  }

  /** A literal line whose name is said to be 2^64 - 1 bytes long. */
  function HugeName(mask: byte, rest: seq<byte>): seq<byte>
    requires mask == 0x00 || mask == 0x80
  {
    [0x00, 0x00, 0x20] + (EncodeInt(WORD64 - 1, 128, mask) + rest)
  }

  /**
    In plain form the decoder throws; in Huffman form it refuses the line if the bit loop gives up, and reads on
    beyond if not.
   */
  lemma OverrunSection(tb: Tables, dyn: Dynamic, maxTableSize: nat, mask: byte, rest: seq<byte>)
    requires (mask == 0x00 || mask == 0x80) && |EncodeInt(WORD64 - 1, 128, mask) + rest| < WORD64
    ensures DecodeSection(tb, dyn, maxTableSize, HugeName(mask, rest))
         == Section([], if mask == 0x00 then Hpack.Threw
                        else if Huffman.GivesUp(tb.huffman, rest) then Hpack.Returned
                        else Hpack.Beyond)
  {
    hide DecodeString, EncodeInt, Huffman.GivesUp;
    var length := EncodeInt(WORD64 - 1, 128, mask) + rest;
    HugeString(tb.huffman, mask, rest);
    var data := [0x00, 0x00, 0x20] + length;
    assert DecodeInt(data, 256) == Some(Decoded(0, 1));
    assert DecodeInt(data[1..], 128) == Some(Decoded(0, 1));
    assert data[1..][1..] == [0x20] + length;
    assert ([0x20] + length)[1..] == length;
  }

  lemma HugeString(t: Huffman.Table, mask: byte, rest: seq<byte>)
    requires (mask == 0x00 || mask == 0x80) && |EncodeInt(WORD64 - 1, 128, mask) + rest| < WORD64
    ensures DecodeString(t, EncodeInt(WORD64 - 1, 128, mask) + rest)
         == if mask == 0x00 then Hpack.TooLong else if Huffman.GivesUp(t, rest) then Hpack.Nothing else Hpack.PastEnd
  {
    hide DecodeString, EncodeInt, Huffman.GivesUp, DecodeInt, Hpack.Wraps;
    var head := EncodeInt(WORD64 - 1, 128, mask);
    var data := head + rest;
    PastEndIff(t, data);
    Hpack.WrapsIff(data);
    IntRoundTrip(WORD64 - 1, 128, mask, rest);
    LongestForm(WORD64 - 1, 128, mask);
    Hpack.FormBit(WORD64 - 1, mask, rest);
    assert data[|head|..] == rest;
    if mask == 0x80 && Huffman.GivesUp(t, rest) {
      GivenUpIsRefused(t, data);
    }
  }

  /** A section that is all Required Insert Count: the sign bit of the Delta Base is read one byte beyond it. */
  lemma PrefixFillsSection(tb: Tables, dyn: Dynamic, maxTableSize: nat, data: seq<byte>)
    requires |data| >= 2 && DecodeInt(data, 256).Some?
    ensures DecodeInt(data, 256).value.consumed == |data| ==>
              DecodeSection(tb, dyn, maxTableSize, data) == Section([], Hpack.Beyond)
  {
    hide DecodeInt, DecodeLines;
  }

  // ---------------------------------------------------------------- transfer

  /** Which strings of a field are sent at all decides what can go wrong with it. */
  predicate LineReadable(tb: Tables, f: Field) {
    || IndexOfField(tb.fields, f, 0) < |tb.fields|
    || ((IndexOfName(tb.fields, f.name, 0) < |tb.fields| || Readable(tb.huffman, f.name))
        && Readable(tb.huffman, f.value))
  }

  /** What the peer reads when f is sent and readable. */
  function DeliveredLine(tb: Tables, f: Field): Field {
    if IndexOfField(tb.fields, f, 0) < |tb.fields| then f
    else if IndexOfName(tb.fields, f.name, 0) < |tb.fields| then Field(f.name, Hpack.Delivered(tb.huffman, f.value))
    else Field(Hpack.Delivered(tb.huffman, f.name), Hpack.Delivered(tb.huffman, f.value))
  }

  /** The lines the peer reads: all up to the first it cannot read. */
  function DeliveredLines(tb: Tables, fs: seq<Field>): (r: seq<Field>)
    ensures |r| <= |fs|
  {
    if |fs| == 0 || !LineReadable(tb, fs[0]) then [] else [DeliveredLine(tb, fs[0])] + DeliveredLines(tb, fs[1..])
  }

  ghost predicate Transferable(tb: Tables, f: Field) {
    Hpack.Sized(f) && |tb.fields| < WORD64
  }

  lemma IndexedTransfer(tb: Tables, dyn: Dynamic, base: nat, i: nat, rest: seq<byte>)
    requires i < |tb.fields| < WORD64
    ensures DecodeLine(tb, dyn, base, EncodeInt(i, 64, 0xC0) + rest) == Line(tb.fields[i], |EncodeInt(i, 64, 0xC0)|)
  {
    IntRoundTrip(i, 64, 0xC0, rest);
    assert (EncodeInt(i, 64, 0xC0) + rest)[0] == EncodeInt(i, 64, 0xC0)[0] >= 0xC0;
  }

  lemma NamedTransfer(tb: Tables, dyn: Dynamic, base: nat, n: nat, value: seq<byte>, rest: seq<byte>)
    requires n < |tb.fields| < WORD64
    ensures var head := EncodeInt(n, 16, 0x50);
            DecodeLine(tb, dyn, base, head + value + rest)
            == WithValue(tb.fields[n].name, |head|, DecodeString(tb.huffman, value + rest))
  {
    hide DecodeString;
    var head := EncodeInt(n, 16, 0x50);
    var data := head + value + rest;
    assert data == head + (value + rest);
    IntRoundTrip(n, 16, 0x50, value + rest);
    assert data[|head|..] == value + rest;
    assert data[0] == head[0] && 0x50 <= data[0] < 0x60;
  }

  lemma LiteralTransfer(tb: Tables, dyn: Dynamic, base: nat, name: seq<byte>, value: seq<byte>, rest: seq<byte>)
    requires var n := DecodeString(tb.huffman, name + (value + rest));
             n == Hpack.Nothing || (n.Text? && n.consumed == |name|)
    ensures var n, v := DecodeString(tb.huffman, name + (value + rest)), DecodeString(tb.huffman, value + rest);
            DecodeLine(tb, dyn, base, [0x20] + name + value + rest)
            == if n.Nothing? then Unread else WithValue(n.text, 1 + |name|, v)
  {
    hide DecodeString;
    var data := [0x20] + name + value + rest;
    assert data[1..] == name + (value + rest);
    assert data[1 + |name|..] == value + rest;
  }

  /** A line decodes to what is delivered, or to an error, whatever the dynamic table holds. */
  lemma LineTransfer(tb: Tables, dyn: Dynamic, base: nat, f: Field, rest: seq<byte>)
    requires Transferable(tb, f)
    ensures DecodeLine(tb, dyn, base, EncodeLine(tb, f) + rest)
         == if LineReadable(tb, f) then Line(DeliveredLine(tb, f), |EncodeLine(tb, f)|) else Unread
  {
    hide DecodeString, DecodeLine, Hpack.EncodeString, Hpack.Delivered, Readable;
    var i := IndexOfField(tb.fields, f, 0);
    var n := IndexOfName(tb.fields, f.name, 0);
    var name, value := Hpack.EncodeString(tb.huffman, f.name), Hpack.EncodeString(tb.huffman, f.value);
    if i < |tb.fields| {
      IndexedTransfer(tb, dyn, base, i, rest);
    } else {
      StringTransfer(tb.huffman, f.value, rest);
      if n < |tb.fields| {
        NamedTransfer(tb, dyn, base, n, value, rest);
      } else {
        StringTransfer(tb.huffman, f.name, value + rest);
        LiteralTransfer(tb, dyn, base, name, value, rest);
      }
    }
  }

  lemma {:induction false} LinesTransfer(tb: Tables, dyn: Dynamic, base: nat, fs: seq<Field>)
    requires forall f :: f in fs ==> Transferable(tb, f)
    ensures DecodeLines(tb, dyn, base, EncodeLines(tb, fs)) == Section(DeliveredLines(tb, fs), Hpack.Returned)
    decreases |fs|
  {
    hide EncodeLine, DecodeLine, LineReadable, DeliveredLine;
    if |fs| > 0 {
      assert fs[0] in fs;
      var head, tail := EncodeLine(tb, fs[0]), EncodeLines(tb, fs[1..]);
      LineTransfer(tb, dyn, base, fs[0], tail);
      assert (head + tail)[|head|..] == tail;
      LinesTransfer(tb, dyn, base, fs[1..]);
    } else {
      NoLine(tb, dyn, base);
    }
  }

  lemma NoLine(tb: Tables, dyn: Dynamic, base: nat)
    ensures DecodeLine(tb, dyn, base, []) == Unread
  {
  }

  /** A section decodes to its delivered lines, whatever the decoder's dynamic table holds. */
  lemma SectionTransfer(tb: Tables, dyn: Dynamic, maxTableSize: nat, fs: seq<Field>)
    requires forall f :: f in fs ==> Transferable(tb, f)
    ensures DecodeSection(tb, dyn, maxTableSize, EncodeSection(tb, fs))
            == Section(DeliveredLines(tb, fs), Hpack.Returned)
  {
    hide EncodeLines, DecodeLines, DeliveredLines;
    var data := EncodeSection(tb, fs);
    assert DecodeInt(data, 256) == Some(Decoded(0, 1));
    assert DecodeInt(data[1..], 128) == Some(Decoded(0, 1));
    assert data[1..][1..] == EncodeLines(tb, fs);
    LinesTransfer(tb, dyn, 0, fs);
  }
}

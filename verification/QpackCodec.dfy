/** The imperative form of the QPACK encoder and decoder of src/http/qpack.cpp. */
module QpackCodec {
  import opened Bytes
  import opened PrefixInt
  import opened DynamicTable
  import opened Qpack
  import Hpack
  import Huffman
  import HpackCodec

  /** find_static: -1 when no entry matches exactly. */
  method FindStatic(fields: seq<Field>, f: Field) returns (index: int)
    ensures index == if IndexOfField(fields, f, 0) < |fields| then IndexOfField(fields, f, 0) else -1
  {
    var i := 0;
    while i < |fields|
      invariant 0 <= i <= |fields| && IndexOfField(fields, f, 0) == IndexOfField(fields, f, i)
    {
      if fields[i].name == f.name && fields[i].value == f.value {
        return i;
      }
      i := i + 1;
    }
    return -1;
  }

  method FindStaticName(fields: seq<Field>, name: seq<byte>) returns (index: int)
    ensures index == if IndexOfName(fields, name, 0) < |fields| then IndexOfName(fields, name, 0) else -1
  {
    var i := 0;
    while i < |fields|
      invariant 0 <= i <= |fields| && IndexOfName(fields, name, 0) == IndexOfName(fields, name, i)
    {
      if fields[i].name == name {
        return i;
      }
      i := i + 1;
    }
    return -1;
  }

  lemma {:induction false} EncodeLinesSnoc(tb: Tables, fs: seq<Field>, i: nat)
    requires i < |fs|
    ensures EncodeLines(tb, fs[..i + 1]) == EncodeLines(tb, fs[..i]) + EncodeLine(tb, fs[i])
    decreases i
  {
    hide EncodeLine;
    var now, next := fs[..i], fs[..i + 1];
    if i == 0 {
      assert next[1..] == [];
      assert EncodeLines(tb, next[1..]) == [];
    } else {
      EncodeLinesSnoc(tb, fs[1..], i - 1);
      assert next[1..] == fs[1..][..i];
      assert now[1..] == fs[1..][..i - 1];
    }
  }

  method EncodeOne(tb: Tables, f: Field) returns (r: seq<byte>)
    requires Transferable(tb, f)
    ensures r == EncodeLine(tb, f)
  {
    hide Hpack.EncodeString, EncodeInt;
    var index := FindStatic(tb.fields, f);
    if index >= 0 {
      r := HpackCodec.WriteInt(index, 64, 0xC0);
      return;
    }
    var nameIndex := FindStaticName(tb.fields, f.name);
    var value := HpackCodec.WriteString(tb.huffman, f.value);
    if nameIndex >= 0 {
      r := HpackCodec.WriteInt(nameIndex, 16, 0x50);
      r := r + value;
    } else {
      var name := HpackCodec.WriteString(tb.huffman, f.name);
      r := [0x20] + name + value;
    }
  }

  method EncodeStatic(tb: Tables, headers: seq<Field>) returns (result: seq<byte>)
    requires forall f :: f in headers ==> Transferable(tb, f)
    ensures result == EncodeSection(tb, headers)
  {
    hide EncodeLine;
    result := [0x00, 0x00];
    for i := 0 to |headers|
      invariant result == [0x00, 0x00] + EncodeLines(tb, headers[..i])
    {
      assert headers[i] in headers;
      var line := EncodeOne(tb, headers[i]);
      EncodeLinesSnoc(tb, headers, i);
      result := result + line;
    }
    assert headers[..|headers|] == headers;
  }

  method ReadString(t: Huffman.Table, data: seq<byte>) returns (r: Hpack.StringRead)
    ensures r == DecodeString(t, data)
  {
    hide Hpack.DecodeString, DecodeInt;
    r := HpackCodec.ReadString(t, data);
    if r.Text? {
      assert |data| > 0;
      var len := HpackDecodeInt(data, 128);
      assert len.Some? by { ReadHasLength(t, data); }
      if data[0] >= 128 && r.text == [] && len.value.value > 0 {
        r := Hpack.Nothing;
      }
    }
  }

  lemma ReadHasLength(t: Huffman.Table, data: seq<byte>)
    requires Hpack.DecodeString(t, data).Text?
    ensures DecodeInt(data, 128).Some?
  {
    hide Huffman.Decode, DecodeInt;
  }

  /** The line a failed string makes. */
  function Failure(s: Hpack.StringRead): LineRead {
    match s
    case TooLong => Thrown
    case PastEnd => Overrun
    case _ => Unread
  }

  function FateOf(line: LineRead): Hpack.Fate {
    match line
    case Thrown => Hpack.Threw
    case Overrun => Hpack.Beyond
    case _ => Hpack.Returned
  }

  class QpackDecoder {
    const tables: Tables
    const table: HeaderTable
    const maxTableSize: nat

    ghost function View(): Dynamic
      reads table
    {
      Dynamic(table.entries, table.insertCount)
    }

    constructor (tables: Tables)
      ensures this.tables == tables && maxTableSize == 4096 && View() == Dynamic([], 0) && fresh(table) && table.Valid()
    {
      this.tables, maxTableSize := tables, 4096;
      table := new HeaderTable(4096);
    }

    /** decode_field_line. */
    method ReadLine(data: seq<byte>, base: nat) returns (r: LineRead)
      ensures r == DecodeLine(tables, View(), base, data)
    {
      hide DecodeInt, DecodeString;
      if |data| == 0 {
        return Unread;
      }
      var b := data[0];
      if b >= 0xC0 {
        r := Indexed(tables.fields, 0, data, 64);
      } else if b >= 0xA0 {
        r := Indexed(table.entries, base, data, 32);
      } else if 0x40 <= b < 0x80 {
        if b / 16 % 2 == 1 {
          r := Named(tables.fields, data);
        } else {
          r := Named(table.entries, data);
        }
      } else if 0x20 <= b < 0x40 {
        r := Literal(data);
      } else if b < 0x04 {
        r := Indexed(table.entries, 0, data, 16);
      } else {
        r := Unread;
      }
    }

    method Indexed(fields: seq<Field>, base: nat, data: seq<byte>, span: Span) returns (r: LineRead)
      ensures r == ReadIndexed(fields, base, data, span)
    {
      var index := HpackDecodeInt(data, span);
      if index.None? || (base + index.value.value) % WORD64 >= |fields| {
        return Unread;
      }
      r := Line(fields[(base + index.value.value) % WORD64], index.value.consumed);
    }

    method Named(fields: seq<Field>, data: seq<byte>) returns (r: LineRead)
      ensures r == ReadNamed(tables.huffman, fields, data)
    {
      hide DecodeString;
      var index := HpackDecodeInt(data, 16);
      if index.None? || index.value.value >= |fields| {
        return Unread;
      }
      var value := ReadString(tables.huffman, data[index.value.consumed..]);
      if !value.Text? {
        return Failure(value);
      }
      r := Line(Field(fields[index.value.value].name, value.text), index.value.consumed + value.consumed);
    }

    method Literal(data: seq<byte>) returns (r: LineRead)
      requires |data| > 0
      ensures r == ReadLiteral(tables.huffman, data)
    {
      hide DecodeString;
      var consumed := 1;
      var name := ReadString(tables.huffman, data[consumed..]);
      if !name.Text? {
        return Failure(name);
      }
      consumed := consumed + name.consumed;
      var value := ReadString(tables.huffman, data[consumed..]);
      if !value.Text? {
        return Failure(value);
      }
      consumed := consumed + value.consumed;
      r := Line(Field(name.text, value.text), consumed);
    }

    method Decode(data: seq<byte>) returns (headers: seq<Field>, fate: Hpack.Fate)
      ensures Section(headers, fate) == DecodeSection(tables, View(), maxTableSize, data)
    {
      hide DecodeLine, DecodeInt, InsertCount;
      headers, fate := [], Hpack.Returned;
      if |data| < 2 {
        return;
      }
      var ric := HpackDecodeInt(data, 256);
      if ric.None? {
        return;
      }
      var consumed := ric.value.consumed;
      var count: int := if ric.value.value == 0 then 0
          else InsertCount(ric.value.value, maxTableSize, table.insertCount);
      var rest := data[consumed..];
      if |rest| == 0 {
        return [], Hpack.Beyond;
      }
      var delta := HpackDecodeInt(rest, 128);
      if delta.None? {
        return;
      }
      var base := 0;
      if count != 0 {
        if rest[0] >= 128 {
          base := (count - 1 - delta.value.value) % WORD64;
        } else {
          base := (count - 1 + delta.value.value) % WORD64;
        }
      }
      consumed := consumed + delta.value.consumed;
      assert data[consumed..] == rest[delta.value.consumed..];
      headers, fate := ReadLines(data, consumed, base);
    }

    /** The line loop: stop at the end or at the first line that cannot be read. */
    method ReadLines(data: seq<byte>, start: nat, base: nat) returns (headers: seq<Field>, fate: Hpack.Fate)
      requires start <= |data|
      ensures Section(headers, fate) == DecodeLines(tables, View(), base, data[start..])
    {
      hide DecodeLine;
      headers, fate := [], Hpack.Returned;
      var consumed := start;
      while consumed < |data|
        invariant start <= consumed <= |data|
        invariant fate == Hpack.Returned
        invariant var rest := DecodeLines(tables, View(), base, data[consumed..]);
                  Section(headers + rest.headers, rest.fate) == DecodeLines(tables, View(), base, data[start..])
      {
        var line := ReadLine(data[consumed..], base);
        if !line.Line? {
          return headers, FateOf(line);
        }
        assert data[consumed..][line.consumed..] == data[consumed + line.consumed..];
        headers := headers + [line.field];
        consumed := consumed + line.consumed;
      }
      NoLine(tables, View(), base);
      assert data[consumed..] == [];
    }
  }
}

/** The imperative form of the HPACK encoder and decoder of src/http/hpack.cpp. */
module HpackCodec {
  import opened Bytes
  import opened PrefixInt
  import opened DynamicTable
  import opened Hpack
  import Huffman
  import HuffmanCodec

  /** The first index with the same name is reported when there is no exact match. */
  method FindStatic(fields: seq<Field>, f: Field) returns (index: nat, exact: bool)
    ensures exact <==> StaticIndex(fields, f, 1) > 0
    ensures exact ==> index == StaticIndex(fields, f, 1)
    ensures !exact && index > 0 ==> index < |fields| && fields[index].name == f.name
    ensures !exact ==> forall j :: 1 <= j < |fields| && (index == 0 || j < index) ==> fields[j].name != f.name
  {
    var nameMatch := 0;
    var i := 1;
    while i < |fields|
      invariant 1 <= i && (i <= |fields| || nameMatch == 0)
      invariant StaticIndex(fields, f, 1) == StaticIndex(fields, f, i)
      invariant nameMatch > 0 ==> nameMatch < i && fields[nameMatch].name == f.name
      invariant forall j :: 1 <= j < i && j < |fields| && (nameMatch == 0 || j < nameMatch) ==> fields[j].name != f.name
    {
      if fields[i].name == f.name {
        if fields[i].value == f.value {
          return i, true;
        }
        if nameMatch == 0 {
          nameMatch := i;
        }
      }
      i := i + 1;
    }
    return nameMatch, false;
  }

  /** A prefix integer through the 16-byte scratch buffer. */
  method WriteInt(value: nat, span: Span, mask: byte) returns (r: seq<byte>)
    requires mask + span <= 256 && value < WORD64
    ensures r == EncodeInt(value, span, mask)
  {
    var buf := new byte[16];
    FitsScratch(value, span, mask);
    var n := HpackEncodeInt(buf, value, span, mask);
    r := buf[..n];
  }

  method WriteString(t: Huffman.Table, s: seq<byte>) returns (r: seq<byte>)
    requires |s| < WORD64
    ensures r == EncodeString(t, s)
  {
    var shorter := HuffmanCodec.HuffmanIsShorter(t, s);
    if shorter {
      var encoded := HuffmanCodec.HuffmanEncode(t, s);
      r := WriteInt(|encoded|, 128, 0x80);
      r := r + encoded;
    } else {
      r := WriteInt(|s|, 128, 0x00);
      r := r + s;
    }
  }

  method ReadString(t: Huffman.Table, data: seq<byte>) returns (r: StringRead)
    ensures r == DecodeString(t, data)
  {
    hide Huffman.Decode, Huffman.GivesUp;
    if |data| == 0 {
      return Nothing;
    }
    var huffman := data[0] >= 128;
    var len := HpackDecodeInt(data, 128);
    if len.None? {
      return Nothing;
    }
    var start, end := len.value.consumed, len.value.consumed + len.value.value;
    if end > |data| && end % WORD64 > |data| {
      return Nothing;
    }
    if !huffman {
      return if end > |data| then TooLong else Text(data[start..end], end);
    }
    if end > |data| {
      var s, gaveUp := HuffmanCodec.HuffmanDecode(t, data[start..]);
      if !gaveUp {
        return PastEnd;
      }
      return if end % WORD64 == 0 then Nothing else Text([], end % WORD64);
    }
    var s, _ := HuffmanCodec.HuffmanDecode(t, data[start..end]);
    r := Text(s, end);
  }

  /** The representation a failed string makes. */
  function Failure(s: StringRead): Item {
    match s
    case TooLong => Thrown
    case PastEnd => Overrun
    case _ => Bad
  }

  lemma {:induction false} EncodeFieldsSnoc(tb: Tables, fs: seq<Field>, i: nat)
    requires i < |fs|
    ensures EncodeFields(tb, fs[..i + 1]) == EncodeFields(tb, fs[..i]) + EncodeField(tb, fs[i])
    decreases i
  {
    var now, next := fs[..i], fs[..i + 1];
    if i == 0 {
      assert next[1..] == [];
      assert EncodeFields(tb, next[1..]) == [];
    } else {
      EncodeFieldsSnoc(tb, fs[1..], i - 1);
      assert next[1..] == fs[1..][..i];
      assert now[1..] == fs[1..][..i - 1];
    }
  }

  lemma NoFields(tb: Tables, fs: seq<Field>)
    ensures EncodeFields(tb, fs[..0]) == []
  {
  }

  class HpackEncoder {
    const tables: Tables
    const table: HeaderTable
    var maxTableSize: nat
    var tableSizeUpdated: bool

    ghost predicate Valid()
      reads this, table
    {
      table.Valid() && Addressable(tables) && maxTableSize < WORD64
    }

    ghost function View(): Encoder
      reads this, table
    {
      Encoder(tables, table.View(), maxTableSize, tableSizeUpdated)
    }

    constructor (tables: Tables, max: nat)
      requires Addressable(tables) && max < WORD64
      ensures Valid() && View() == NewEncoder(tables, max) && fresh(table)
    {
      this.tables := tables;
      table := new HeaderTable(max);
      maxTableSize, tableSizeUpdated := max, false;
    }

    method SetMaxSize(size: nat)
      requires Valid() && size < WORD64
      modifies this, table
      ensures Valid() && View() == SetMaxTableSize(old(View()), size)
    {
      maxTableSize := size;
      table.SetMax(size);
      tableSizeUpdated := true;
    }

    method EncodeOne(f: Field) returns (r: seq<byte>)
      requires Valid() && Sized(f)
      ensures r == EncodeField(tables, f)
    {
      var index, exact := FindStatic(tables.fields, f);
      if exact {
        r := WriteInt(index, 128, 0x80);
      } else {
        r := WriteInt(0, 16, 0x00);
        var name := WriteString(tables.huffman, f.name);
        var value := WriteString(tables.huffman, f.value);
        r := r + name + value;
      }
    }

    method Encode(headers: seq<Field>) returns (result: seq<byte>)
      requires Valid() && AllSized(headers)
      modifies this`tableSizeUpdated
      ensures Valid() && View() == AfterBlock(old(View()))
      ensures result == EncodeBlock(old(View()), headers)
    {
      hide EncodeField, EncodeFields, EncodeInt;
      NoFields(tables, headers);
      result := [];
      if tableSizeUpdated {
        result := WriteInt(maxTableSize, 32, 0x20);
        tableSizeUpdated := false;
      }
      for i := 0 to |headers|
        invariant result == SizeUpdate(old(View())) + EncodeFields(tables, headers[..i])
        invariant !tableSizeUpdated
      {
        var one := EncodeOne(headers[i]);
        EncodeFieldsSnoc(tables, headers, i);
        result := result + one;
      }
      assert headers[..|headers|] == headers;
    }
  }

  class HpackDecoder {
    const tables: Tables
    const table: HeaderTable

    constructor (tables: Tables, max: nat)
      ensures table.Valid() && this.tables == tables && table.View() == DynTable([], 0, max) && fresh(table)
    {
      this.tables := tables;
      table := new HeaderTable(max);
    }

    method Lookup(index: nat) returns (r: Option<Field>)
      ensures r == GetIndexed(tables, table.View(), index)
    {
      if 0 < index < |tables.fields| {
        return Some(tables.fields[index]);
      }
      if index <= |tables.fields| || index - |tables.fields| > |table.entries| {
        return None;
      }
      r := Some(table.entries[index - |tables.fields| - 1]);
    }

    /** The name of a literal and where it ends. */
    method ReadLiteralName(data: seq<byte>, span: Span) returns (r: StringRead)
      ensures r == ReadName(Entries(tables, table.View()), tables.huffman, data, span)
    {
      hide DecodeString, DecodeInt, GetIndexed;
      var index := HpackDecodeInt(data, span);
      if index.None? {
        return Nothing;
      }
      var pos := index.value.consumed;
      if index.value.value > 0 {
        var entry := Lookup(index.value.value);
        return if entry.None? then Nothing else Text(entry.value.name, pos);
      }
      r := ReadString(tables.huffman, data[pos..]);
      if r.Text? {
        r := Text(r.text, pos + r.consumed);
      }
    }

    method ReadLiteralItem(data: seq<byte>, span: Span, indexing: bool) returns (r: Item)
      ensures r == ReadLiteral(Entries(tables, table.View()), tables.huffman, data, span, indexing)
    {
      hide DecodeString, DecodeInt, GetIndexed, ReadName;
      var name := ReadLiteralName(data, span);
      if !name.Text? {
        return Failure(name);
      }
      var value := ReadString(tables.huffman, data[name.consumed..]);
      if !value.Text? {
        return Failure(value);
      }
      r := Header(Field(name.text, value.text), indexing, name.consumed + value.consumed);
    }

    method ReadOne(data: seq<byte>) returns (r: Item)
      requires |data| > 0
      ensures r == ReadItem(tables, table.View(), data)
    {
      var b := data[0];
      if b >= 0x80 {
        var index := HpackDecodeInt(data, 128);
        if index.None? || index.value.value == 0 {
          return Bad;
        }
        var entry := Lookup(index.value.value);
        if entry.None? {
          return Bad;
        }
        r := Header(entry.value, false, index.value.consumed);
      } else if b >= 0x40 {
        r := ReadLiteralItem(data, 64, true);
      } else if b >= 0x20 {
        var size := HpackDecodeInt(data, 32);
        if size.None? {
          return Bad;
        }
        r := NewSize(size.value.value, size.value.consumed);
      } else {
        r := ReadLiteralItem(data, 16, false);
      }
    }

    /** An empty list stands for an error; size updates made before the error stay. */
    method Decode(data: seq<byte>) returns (result: seq<Field>, fate: Fate)
      requires table.Valid()
      modifies table
      ensures table.Valid()
      ensures Decoding(result, table.View(), fate) == DecodeBlock(tables, old(table.View()), data)
    {
      hide ReadItem, Resize, Insert;
      result, fate := [], Returned;
      var pos := 0;
      var newEntries: seq<Field> := [];
      while pos < |data|
        invariant 0 <= pos <= |data| && table.Valid() && fate == Returned
        invariant DecodeFrom(tables, table.View(), data[pos..], result, newEntries)
                  == DecodeBlock(tables, old(table.View()), data)
      {
        var item := ReadOne(data[pos..]);
        if !Read(item) {
          return [], FateOf(item);
        }
        assert data[pos..][item.consumed..] == data[pos + item.consumed..];
        if item.NewSize? {
          table.SetMax(item.max);
        } else {
          if item.indexing {
            newEntries := newEntries + [item.field];
          }
          result := result + [item.field];
        }
        pos := pos + item.consumed;
      }
      for i := 0 to |newEntries|
        invariant table.Valid()
        invariant Decoding(result, InsertAll(table.View(), newEntries[i..]), fate)
                  == DecodeBlock(tables, old(table.View()), data)
      {
        assert newEntries[i..][1..] == newEntries[i + 1..];
        table.Add(newEntries[i]);
      }
    }
  }
}

/**
  The representations of section 6 of RFC 7541, written the way any peer may write them, and what the decoder of
  src/http/hpack.cpp makes of a block of them.
 */
module HpackForms {
  import opened Bytes
  import opened PrefixInt
  import opened DynamicTable
  import opened Hpack
  import Huffman

  // ---------------------------------------------------------------- representations

  /** A string literal of section 5.2: octets as they are, or octets of the Huffman code. */
  datatype Literal = Plain(octets: seq<byte>) | Coded(octets: seq<byte>)

  /** A literal field's name: that of an entry, or a new one. */
  datatype Name = ByIndex(index: nat) | ByName(name: Literal)

  datatype Kind = Incremental | WithoutIndexing | NeverIndexed

  datatype Form = Indexed(index: nat) | LiteralField(kind: Kind, name: Name, value: Literal) | SizeUpdate(max: nat)

  ghost predicate SizedLiteral(s: Literal) {
    |s.octets| < WORD64
  }

  /** What 64-bit integers can say; index 0 does not name an entry of a literal. */
  ghost predicate SizedForm(f: Form) {
    match f
    case Indexed(i) => i < WORD64
    case LiteralField(_, name, value) =>
      && SizedLiteral(value)
      && (if name.ByIndex? then 0 < name.index < WORD64 else SizedLiteral(name.name))
    case SizeUpdate(max) => max < WORD64
  }

  // ---------------------------------------------------------------- writing

  function WriteLiteral(s: Literal): seq<byte> {
    EncodeInt(|s.octets|, 128, if s.Coded? then 0x80 else 0x00) + s.octets
  }

  /** The name part of a literal field: its kind's pattern, the index or 0, and a new name. */
  function WriteName(kind: Kind, name: Name): seq<byte> {
    var index := if name.ByIndex? then name.index else 0;
    var head := match kind
      case Incremental => EncodeInt(index, 64, 0x40)
      case WithoutIndexing => EncodeInt(index, 16, 0x00)
      case NeverIndexed => EncodeInt(index, 16, 0x10);
    head + if name.ByName? then WriteLiteral(name.name) else []
  }

  function WriteForm(f: Form): seq<byte> {
    match f
    case Indexed(i) => EncodeInt(i, 128, 0x80)
    case LiteralField(kind, name, value) => WriteName(kind, name) + WriteLiteral(value)
    case SizeUpdate(max) => EncodeInt(max, 32, 0x20)
  }

  function WriteForms(fs: seq<Form>): seq<byte> {
    if |fs| == 0 then [] else WriteForm(fs[0]) + WriteForms(fs[1..])
  }

  // ---------------------------------------------------------------- what they stand for

  function TextOf(t: Huffman.Table, s: Literal): seq<byte> {
    match s
    case Plain(octets) => octets
    case Coded(octets) => Huffman.Decode(t, octets)
  }

  /** The entry an index addresses: static ones first, then, after one unused index, dynamic ones, newest first. */
  function Addressed(tb: Tables, dyn: DynTable, index: nat): Option<Field> {
    var space := Statics(tb.fields) + [None] + Somes(dyn.entries);
    if index < |space| then space[index] else None
  }

  /** The static entries by index; index 0 addresses none. */
  function Statics(fields: seq<Field>): seq<Option<Field>> {
    seq(|fields|, i requires 0 <= i < |fields| => if i == 0 then None else Some(fields[i]))
  }

  function Somes(fields: seq<Field>): seq<Option<Field>> {
    seq(|fields|, i requires 0 <= i < |fields| => Some(fields[i]))
  }

  /** The header field a representation stands for, if the entry it refers to exists. */
  function Stands(tb: Tables, dyn: DynTable, f: Form): Option<Field>
    requires !f.SizeUpdate?
  {
    match f
    case Indexed(i) => Addressed(tb, dyn, i)
    case LiteralField(_, ByIndex(i), value) =>
      var entry := Addressed(tb, dyn, i);
      if entry.None? then None else Some(Field(entry.value.name, TextOf(tb.huffman, value)))
    case LiteralField(_, ByName(name), value) => Some(Field(TextOf(tb.huffman, name), TextOf(tb.huffman, value)))
  }

  /**
    What a block amounts to: its fields, those to be inserted, the table its size updates leave, and whether it is
    refused.
   */
  datatype Sense = Sense(headers: seq<Field>, inserted: seq<Field>, dyn: DynTable, refused: bool)

  function Amounts(tb: Tables, dyn: DynTable, fs: seq<Form>): Sense
    decreases |fs|
  {
    if |fs| == 0 then Sense([], [], dyn, false)
    else if fs[0].SizeUpdate? then Amounts(tb, Resize(dyn, fs[0].max), fs[1..])
    else
      var field := Stands(tb, dyn, fs[0]);
      if field.None? then Sense([], [], dyn, true)
      else
        var rest := Amounts(tb, dyn, fs[1..]);
        var added := if fs[0].LiteralField? && fs[0].kind.Incremental? then [field.value] else [];
        Sense([field.value] + rest.headers, added + rest.inserted, rest.dyn, rest.refused)
  }

  // ---------------------------------------------------------------- reading them

  lemma AddressedIs(tb: Tables, dyn: DynTable, index: nat)
    ensures Addressed(tb, dyn, index) == GetIndexed(tb, dyn, index)
  {
  }

  lemma LiteralReads(t: Huffman.Table, s: Literal, rest: seq<byte>)
    requires SizedLiteral(s)
    ensures DecodeString(t, WriteLiteral(s) + rest) == Text(TextOf(t, s), |WriteLiteral(s)|)
  {
    hide EncodeInt, DecodeInt, Huffman.Decode, Huffman.GivesUp;
    var mask := if s.Coded? then 0x80 else 0x00;
    LengthPrefixed(mask, s.octets, rest);
  }

  /** The pattern bits of an integer's first byte are those of its mask. */
  lemma FirstByte(v: nat, span: Span, mask: byte, rest: seq<byte>)
    requires Mask(mask, span)
    ensures mask + span <= 256 && |EncodeInt(v, span, mask)| > 0
    ensures mask <= (EncodeInt(v, span, mask) + rest)[0] < mask + span
  {
    hide Groups;
    MaskRoom(mask, span);
  }

  lemma IndexedReads(tb: Tables, dyn: DynTable, i: nat, rest: seq<byte>)
    requires i < WORD64
    ensures var bytes := EncodeInt(i, 128, 0x80);
            var entry := Addressed(tb, dyn, i);
            ReadItem(tb, dyn, bytes + rest) == if entry.None? then Bad else Header(entry.value, false, |bytes|)
  {
    hide EncodeInt, DecodeInt, GetIndexed, Addressed, ReadLiteral;
    IntRoundTrip(i, 128, 0x80, rest);
    FirstByte(i, 128, 0x80, rest);
    AddressedIs(tb, dyn, i);
    NothingAtZero(tb, dyn);
  }

  lemma NothingAtZero(tb: Tables, dyn: DynTable)
    ensures Addressed(tb, dyn, 0) == None
  {
  }

  /** The pattern of a kind of literal, as a mask and the room of its index. */
  function SpanOf(kind: Kind): Span {
    if kind.Incremental? then 64 else 16
  }

  function MaskOf(kind: Kind): byte {
    match kind
    case Incremental => 0x40
    case WithoutIndexing => 0x00
    case NeverIndexed => 0x10
  }

  lemma NameReads(tb: Tables, dyn: DynTable, kind: Kind, name: Name, rest: seq<byte>)
    requires if name.ByIndex? then 0 < name.index < WORD64 else SizedLiteral(name.name)
    ensures var bytes := WriteName(kind, name);
            var r := ReadName(Entries(tb, dyn), tb.huffman, bytes + rest, SpanOf(kind));
            match name
            case ByIndex(i) =>
              var entry := Addressed(tb, dyn, i);
              r == if entry.None? then Nothing else Text(entry.value.name, |bytes|)
            case ByName(s) => r == Text(TextOf(tb.huffman, s), |bytes|)
  {
    hide EncodeInt, DecodeInt, GetIndexed, Addressed, DecodeString, WriteLiteral, TextOf;
    var index := if name.ByIndex? then name.index else 0;
    var head := EncodeInt(index, SpanOf(kind), MaskOf(kind));
    var bytes := WriteName(kind, name);
    match name {
      case ByIndex(i) =>
        assert bytes == head;
        IntRoundTrip(index, SpanOf(kind), MaskOf(kind), rest);
        AddressedIs(tb, dyn, i);
      case ByName(s) =>
        var tail := WriteLiteral(s) + rest;
        assert bytes + rest == head + tail;
        IntRoundTrip(index, SpanOf(kind), MaskOf(kind), tail);
        assert (bytes + rest)[|head|..] == tail;
        LiteralReads(tb.huffman, s, rest);
    }
  }

  lemma LiteralFieldReads(tb: Tables, dyn: DynTable, kind: Kind, name: Name, value: Literal, rest: seq<byte>)
    requires SizedForm(LiteralField(kind, name, value))
    ensures var bytes := WriteForm(LiteralField(kind, name, value));
            var field := Stands(tb, dyn, LiteralField(kind, name, value));
            ReadLiteral(Entries(tb, dyn), tb.huffman, bytes + rest, SpanOf(kind), kind.Incremental?)
            == if field.None? then Bad else Header(field.value, kind.Incremental?, |bytes|)
  {
    hide ReadName, Addressed, DecodeString, WriteName, WriteLiteral, TextOf;
    var a, b := WriteName(kind, name), WriteLiteral(value);
    var data := a + b + rest;
    assert data == a + (b + rest);
    NameReads(tb, dyn, kind, name, b + rest);
    assert data[|a|..] == b + rest;
    LiteralReads(tb.huffman, value, rest);
  }

  lemma KindByte(kind: Kind, name: Name, value: Literal, rest: seq<byte>)
    requires SizedForm(LiteralField(kind, name, value))
    ensures var bytes := WriteForm(LiteralField(kind, name, value));
            |bytes| > 0 && MaskOf(kind) <= (bytes + rest)[0] < MaskOf(kind) + SpanOf(kind)
  {
    hide EncodeInt, WriteLiteral;
    var index := if name.ByIndex? then name.index else 0;
    FirstByte(index, SpanOf(kind), MaskOf(kind), rest);
  }

  /** One representation, whatever follows it. */
  lemma FormReads(tb: Tables, dyn: DynTable, f: Form, rest: seq<byte>)
    requires SizedForm(f)
    ensures |WriteForm(f)| > 0
    ensures var item := ReadItem(tb, dyn, WriteForm(f) + rest);
            if f.SizeUpdate? then item == NewSize(f.max, |WriteForm(f)|)
            else
              var field := Stands(tb, dyn, f);
              var indexing := f.LiteralField? && f.kind.Incremental?;
              item == if field.None? then Bad else Header(field.value, indexing, |WriteForm(f)|)
  {
    hide EncodeInt, DecodeInt, ReadLiteral, ReadIndexed, Addressed, WriteName, WriteLiteral, TextOf;
    match f {
      case Indexed(i) =>
        FirstByte(i, 128, 0x80, rest);
        IndexedReads(tb, dyn, i, rest);
      case SizeUpdate(max) =>
        FirstByte(max, 32, 0x20, rest);
        SizeUpdateTransfer(tb, dyn, max, rest);
      case LiteralField(kind, name, value) =>
        KindByte(kind, name, value, rest);
        LiteralFieldReads(tb, dyn, kind, name, value, rest);
    }
  }

  lemma {:induction false} FormsRead(tb: Tables, dyn: DynTable, fs: seq<Form>, acc: seq<Field>, added: seq<Field>)
    requires forall f :: f in fs ==> SizedForm(f)
    ensures var sense := Amounts(tb, dyn, fs);
            DecodeFrom(tb, dyn, WriteForms(fs), acc, added)
            == if sense.refused then Decoding([], sense.dyn, Returned)
               else Decoding(acc + sense.headers, InsertAll(sense.dyn, added + sense.inserted), Returned)
    decreases |fs|
  {
    hide WriteForm, ReadItem, Stands, Resize, InsertAll;
    if |fs| == 0 {
      assert acc + [] == acc && added + [] == added;
    } else {
      var head, tail := WriteForm(fs[0]), WriteForms(fs[1..]);
      assert fs[0] in fs;
      FormReads(tb, dyn, fs[0], tail);
      assert (head + tail)[|head|..] == tail;
      if fs[0].SizeUpdate? {
        FormsRead(tb, Resize(dyn, fs[0].max), fs[1..], acc, added);
      } else if Stands(tb, dyn, fs[0]).Some? {
        var field := Stands(tb, dyn, fs[0]).value;
        var indexing := fs[0].LiteralField? && fs[0].kind.Incremental?;
        FormsRead(tb, dyn, fs[1..], acc + [field], if indexing then added + [field] else added);
        var rest := Amounts(tb, dyn, fs[1..]);
        assert acc + [field] + rest.headers == acc + ([field] + rest.headers);
        assert added + [field] + rest.inserted == added + ([field] + rest.inserted);
        assert [] + rest.inserted == rest.inserted;
      }
    }
  }

  /**
    Every block of representations decodes to what they stand for: each field named by its entry or by itself, the
    fields of incremental literals inserted and no others, size updates in force at once, and nothing at all if one
    of them refers to no entry.
   */
  lemma BlockAmounts(tb: Tables, dyn: DynTable, fs: seq<Form>)
    requires forall f :: f in fs ==> SizedForm(f)
    ensures var sense := Amounts(tb, dyn, fs);
            DecodeBlock(tb, dyn, WriteForms(fs))
            == if sense.refused then Decoding([], sense.dyn, Returned)
               else Decoding(sense.headers, InsertAll(sense.dyn, sense.inserted), Returned)
  {
    hide WriteForms, DecodeFrom, Amounts, InsertAll;
    FormsRead(tb, dyn, fs, [], []);
    var sense := Amounts(tb, dyn, fs);
    assert [] + sense.headers == sense.headers && [] + sense.inserted == sense.inserted;
  }

  /** The block 5F 01 61: a literal with indexing, named by static entry 31, with the value "a". */
  lemma NamedByEntry(tb: Tables, dyn: DynTable)
    requires |tb.fields| > 31
    ensures var field := Field(tb.fields[31].name, [97]);
            DecodeBlock(tb, dyn, [0x5F, 0x01, 0x61]) == Decoding([field], Insert(dyn, field), Returned)
  {
    hide Insert;
    var form := LiteralField(Incremental, ByIndex(31), Plain([97]));
    assert WriteForm(form) == [0x5F, 0x01, 0x61];
    assert [form][1..] == [] && WriteForms([form][1..]) == [];
    assert WriteForms([form]) == [0x5F, 0x01, 0x61];
    BlockAmounts(tb, dyn, [form]);
    var field := Field(tb.fields[31].name, [97]);
    assert Stands(tb, dyn, form) == Some(field);
    assert Amounts(tb, dyn, [form]) == Sense([field], [field], dyn, false);
    assert [field][1..] == [] && InsertAll(Insert(dyn, field), []) == Insert(dyn, field);
  }
}

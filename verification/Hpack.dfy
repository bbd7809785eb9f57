/**
  HPACK header blocks (RFC 7541) as src/http/hpack.cpp writes and reads them,
  over any Huffman table and any static table.
 */
module Hpack {
  import opened Bytes
  import opened PrefixInt
  import opened DynamicTable
  import Huffman

  /** The shared tables: string code and static fields; static index 0 is a placeholder. */
  datatype Tables = Tables(huffman: Huffman.Table, fields: seq<Field>)

  // ---------------------------------------------------------------- strings

  predicate UsesHuffman(t: Huffman.Table, s: seq<byte>) {
    |Huffman.Encode(t, s)| < |s|
  }

  function EncodeString(t: Huffman.Table, s: seq<byte>): seq<byte> {
    if UsesHuffman(t, s) then EncodeInt(|Huffman.Encode(t, s)|, 128, 0x80) + Huffman.Encode(t, s)
    else EncodeInt(|s|, 128, 0x00) + s
  }

  /** How a decoder ends: it returns, an exception leaves it, or it reads beyond its input. */
  datatype Fate = Returned | Threw | Beyond

  /**
    Nothing stands for the source's zero byte count, TooLong for the exception of an impossible length, PastEnd for a
    read beyond.
   */
  datatype StringRead = Nothing | TooLong | PastEnd | Text(text: seq<byte>, consumed: nat)

  /** The length test adds in 64 bits: this length is too large for the input, and passes because the sum wraps. */
  predicate Wraps(data: seq<byte>) {
    var len := DecodeInt(data, 128);
    len.Some? && len.value.consumed + len.value.value > |data| >= (len.value.consumed + len.value.value) % WORD64
  }

  /**
    A plain string of a wrapping length cannot be allocated. A Huffman string of one is read on beyond the input,
    unless the bit loop gives up before its end: then it is empty, and the wrapped sum is what it consumed.
   */
  function DecodeString(t: Huffman.Table, data: seq<byte>): (r: StringRead)
    ensures r.Text? ==> 1 <= r.consumed <= |data|
  {
    var len := DecodeInt(data, 128);
    if len.None? then Nothing
    else
      var start, end := len.value.consumed, len.value.consumed + len.value.value;
      if end <= |data| then
        Text(if data[0] >= 128 then Huffman.Decode(t, data[start..end]) else data[start..end], end)
      else if !Wraps(data) then Nothing
      else if data[0] < 128 then TooLong
      else if !Huffman.GivesUp(t, data[start..]) then PastEnd
      else if end % WORD64 == 0 then Nothing
      else Text([], end % WORD64)
  }

  /** The lengths that pass by wrapping are exactly those within `consumed` of 2^64. */
  lemma WrapsIff(data: seq<byte>)
    requires |data| < WORD64
    ensures var len := DecodeInt(data, 128);
            Wraps(data) <==> len.Some? && len.value.value >= WORD64 - len.value.consumed
  {
    hide DecodeInt;
    var len := DecodeInt(data, 128);
    if len.Some? {
      DecodedFits(data, 128);
      WrappedSum(len.value.consumed, len.value.value, |data|);
    }
  }

  lemma WrappedSum(consumed: nat, value: nat, len: nat)
    requires value < WORD64 && consumed <= len < WORD64
    ensures consumed + value > len && (consumed + value) % WORD64 <= len <==> value >= WORD64 - consumed
  {
  }

  /** What becomes of the decoder at a string, told from its length, its form and the bytes behind the length. */
  function StringFate(t: Huffman.Table, data: seq<byte>): Fate {
    var len := DecodeInt(data, 128);
    if len.None? || !Wraps(data) then Returned
    else if data[0] < 128 then Threw
    else if Huffman.GivesUp(t, data[len.value.consumed..]) then Returned
    else Beyond
  }

  /**
    A string is read beyond its input if and only if it is a Huffman string, its length is at least 2^64 less the
    bytes of the length itself, and the bit loop does not give up on the bytes that are there.
   */
  lemma PastEndIff(t: Huffman.Table, data: seq<byte>)
    requires |data| < WORD64
    ensures var len := DecodeInt(data, 128);
            var wraps := len.Some? && len.value.value >= WORD64 - len.value.consumed;
            && (DecodeString(t, data) == PastEnd <==>
                  wraps && data[0] >= 128 && !Huffman.GivesUp(t, data[len.value.consumed..]))
            && (DecodeString(t, data) == TooLong <==> wraps && data[0] < 128)
  {
    hide Huffman.Decode, Huffman.GivesUp, DecodeInt, Wraps;
    WrapsIff(data);
    if Wraps(data) {
      WrapsMeans(data);
    }
  }

  lemma WrapsMeans(data: seq<byte>)
    requires Wraps(data)
    ensures DecodeInt(data, 128).Some? && |data| > 0
    ensures DecodeInt(data, 128).value.consumed + DecodeInt(data, 128).value.value > |data|
  {
    hide DecodeInt;
  }

  /**
    A length written as the encoder writes it wraps exactly from 2^64 - 11 on; what follows decides what comes of it.
   */
  lemma PastEndLengths(t: Huffman.Table, v: nat, mask: byte, rest: seq<byte>)
    requires v < WORD64 && (mask == 0x00 || mask == 0x80) && |EncodeInt(v, 128, mask) + rest| < WORD64
    ensures var r := DecodeString(t, EncodeInt(v, 128, mask) + rest);
            && (r == PastEnd <==> v >= WORD64 - 11 && mask == 0x80 && !Huffman.GivesUp(t, rest))
            && (r == TooLong <==> v >= WORD64 - 11 && mask == 0x00)
            && (v > WORD64 - 11 && mask == 0x80 && Huffman.GivesUp(t, rest) ==> r == Text([], v - (WORD64 - 11)))
  {
    hide Huffman.Decode, Huffman.GivesUp, EncodeInt, DecodeInt, Wraps;
    var head := EncodeInt(v, 128, mask);
    var data := head + rest;
    PastEndIff(t, data);
    WrapsIff(data);
    IntRoundTrip(v, 128, mask, rest);
    FitsScratch(v, 128, mask);
    FormBit(v, mask, rest);
    assert data[|head|..] == rest;
    if v >= WORD64 - 11 {
      LongestForm(v, 128, mask);
      WrapOnce(11 + v);
    }
  }

  lemma WrapOnce(n: nat)
    requires WORD64 <= n < 2 * WORD64
    ensures n % WORD64 == n - WORD64
  {
  }

  lemma FormBit(v: nat, mask: byte, rest: seq<byte>)
    requires mask == 0x00 || mask == 0x80
    ensures (EncodeInt(v, 128, mask) + rest)[0] >= 128 <==> mask == 0x80
  {
  }

  /** What the peer reads when s is sent. */
  function Delivered(t: Huffman.Table, s: seq<byte>): seq<byte> {
    if UsesHuffman(t, s) then Huffman.Decode(t, Huffman.Encode(t, s)) else s
  }

  /** A length-prefixed body is cut out exactly. */
  lemma LengthPrefixed(mask: byte, body: seq<byte>, rest: seq<byte>)
    requires mask == 0x00 || mask == 0x80
    requires |body| < WORD64
    ensures var head := EncodeInt(|body|, 128, mask);
            var data := head + body + rest;
            && DecodeInt(data, 128) == Some(Decoded(|body|, |head|))
            && data[|head|..|head| + |body|] == body
            && (data[0] >= 128 <==> mask == 0x80)
  {
    var head := EncodeInt(|body|, 128, mask);
    var data := head + body + rest;
    IntRoundTrip(|body|, 128, mask, body + rest);
    assert data == head + (body + rest);
    assert data[0] == head[0];
  }

  /** Every string arrives as `Delivered` says, and its bytes are consumed exactly. */
  lemma StringTransfer(t: Huffman.Table, s: seq<byte>, rest: seq<byte>)
    requires |s| < WORD64
    ensures DecodeString(t, EncodeString(t, s) + rest) == Text(Delivered(t, s), |EncodeString(t, s)|)
  {
    if UsesHuffman(t, s) {
      LengthPrefixed(0x80, Huffman.Encode(t, s), rest);
    } else {
      LengthPrefixed(0x00, s, rest);
    }
  }

  // ---------------------------------------------------------------- encoding

  /** The first static index from `from` on that holds exactly f, or 0. */
  function StaticIndex(fields: seq<Field>, f: Field, from: nat): (r: nat)
    requires 1 <= from
    ensures r > 0 ==> from <= r < |fields| && fields[r] == f
    ensures r == 0 ==> forall i :: from <= i < |fields| ==> fields[i] != f
    decreases |fields| - from
  {
    if from >= |fields| then 0
    else if fields[from] == f then from
    else StaticIndex(fields, f, from + 1)
  }

  function EncodeField(tb: Tables, f: Field): seq<byte> {
    var i := StaticIndex(tb.fields, f, 1);
    if i > 0 then EncodeInt(i, 128, 0x80)
    else EncodeInt(0, 16, 0x00) + EncodeString(tb.huffman, f.name) + EncodeString(tb.huffman, f.value)
  }

  function EncodeFields(tb: Tables, fs: seq<Field>): seq<byte> {
    if |fs| == 0 then [] else EncodeField(tb, fs[0]) + EncodeFields(tb, fs[1..])
  }

  /** The encoder: its own dynamic table, the last limit set and whether the peer still has to be told. */
  datatype Encoder = Encoder(tables: Tables, dyn: DynTable, max: nat, updated: bool)

  function NewEncoder(tb: Tables, max: nat): Encoder {
    Encoder(tb, DynTable([], 0, max), max, false)
  }

  function SetMaxTableSize(e: Encoder, max: nat): Encoder {
    Encoder(e.tables, Resize(e.dyn, max), max, true)
  }

  function SizeUpdate(e: Encoder): seq<byte> {
    if e.updated then EncodeInt(e.max, 32, 0x20) else []
  }

  function EncodeBlock(e: Encoder, fs: seq<Field>): seq<byte> {
    SizeUpdate(e) + EncodeFields(e.tables, fs)
  }

  function AfterBlock(e: Encoder): Encoder {
    e.(updated := false)
  }

  // ---------------------------------------------------------------- decoding

  /** Static entries from index 1; dynamic entries start two indices after the last static one. */
  function GetIndexed(tb: Tables, dyn: DynTable, index: nat): Option<Field> {
    if 0 < index < |tb.fields| then Some(tb.fields[index])
    else if index <= |tb.fields| || index - |tb.fields| > |dyn.entries| then None
    else Some(dyn.entries[index - |tb.fields| - 1])
  }

  /** What the indices of a block stand for. */
  type Lookup = nat -> Option<Field>

  function Entries(tb: Tables, dyn: DynTable): Lookup {
    (i: nat) => GetIndexed(tb, dyn, i)
  }

  /** One representation of a header block. */
  datatype Item = Bad | Thrown | Overrun | Header(field: Field, indexing: bool, consumed: nat)
    | NewSize(max: nat, consumed: nat)

  predicate Read(i: Item) {
    i.Header? || i.NewSize?
  }

  function ReadIndexed(get: Lookup, data: seq<byte>): (r: Item)
    ensures Read(r) ==> 1 <= r.consumed <= |data|
  {
    var index := DecodeInt(data, 128);
    if index.None? || index.value.value == 0 then Bad
    else
      var f := get(index.value.value);
      if f.None? then Bad else Header(f.value, false, index.value.consumed)
  }

  /** The name of a literal: an indexed one when the index is positive, a string otherwise. */
  function ReadName(get: Lookup, t: Huffman.Table, data: seq<byte>, span: Span): (r: StringRead)
    ensures r.Text? ==> 1 <= r.consumed <= |data|
  {
    var index := DecodeInt(data, span);
    if index.None? then Nothing
    else if index.value.value > 0 then
      var f := get(index.value.value);
      if f.None? then Nothing else Text(f.value.name, index.value.consumed)
    else
      match DecodeString(t, data[index.value.consumed..])
      case Text(name, n) => Text(name, index.value.consumed + n)
      case failed => failed
  }

  function ReadLiteral(get: Lookup, t: Huffman.Table, data: seq<byte>, span: Span, indexing: bool): (r: Item)
    ensures Read(r) ==> 1 <= r.consumed <= |data|
  {
    match ReadName(get, t, data, span)
    case Nothing => Bad
    case TooLong => Thrown
    case PastEnd => Overrun
    case Text(name, n) =>
      match DecodeString(t, data[n..])
      case Nothing => Bad
      case TooLong => Thrown
      case PastEnd => Overrun
      case Text(value, m) => Header(Field(name, value), indexing, n + m)
  }

  function ReadAny(get: Lookup, t: Huffman.Table, data: seq<byte>): (r: Item)
    requires |data| > 0
    ensures Read(r) ==> 1 <= r.consumed <= |data|
  {
    var b := data[0];
    if b >= 0x80 then ReadIndexed(get, data)
    else if b >= 0x40 then ReadLiteral(get, t, data, 64, true)
    else if b >= 0x20 then
      var size := DecodeInt(data, 32);
      if size.None? then Bad else NewSize(size.value.value, size.value.consumed)
    else ReadLiteral(get, t, data, 16, false)
  }

  function ReadItem(tb: Tables, dyn: DynTable, data: seq<byte>): (r: Item)
    requires |data| > 0
    ensures Read(r) ==> 1 <= r.consumed <= |data|
  {
    ReadAny(Entries(tb, dyn), tb.huffman, data)
  }

  function FateOf(i: Item): Fate {
    match i
    case Thrown => Threw
    case Overrun => Beyond
    case _ => Returned
  }

  /** The header list, empty on an error, the dynamic table afterwards, and how the decoder ended. */
  datatype Decoding = Decoding(headers: seq<Field>, dyn: DynTable, fate: Fate)

  /** Table size updates act at once; insertions wait for the end of a block without errors. */
  function DecodeFrom(tb: Tables, dyn: DynTable, data: seq<byte>, acc: seq<Field>, added: seq<Field>): Decoding
    decreases |data|
  {
    if |data| == 0 then Decoding(acc, InsertAll(dyn, added), Returned)
    else
      match ReadItem(tb, dyn, data)
      case Bad => Decoding([], dyn, Returned)
      case Thrown => Decoding([], dyn, Threw)
      case Overrun => Decoding([], dyn, Beyond)
      case Header(f, indexing, n) => DecodeFrom(tb, dyn, data[n..], acc + [f], if indexing then added + [f] else added)
      case NewSize(max, n) => DecodeFrom(tb, Resize(dyn, max), data[n..], acc, added)
  }

  function DecodeBlock(tb: Tables, dyn: DynTable, data: seq<byte>): Decoding {
    DecodeFrom(tb, dyn, data, [], [])
  }

  // ---------------------------------------------------------------- where decoding ends

  /** What becomes of the decoder at the strings of one representation; only literals have any. */
  function ItemFate(tb: Tables, dyn: DynTable, data: seq<byte>): Fate
    requires |data| > 0
  {
    var b := data[0];
    var index := DecodeInt(data, if b >= 0x40 then 64 else 16);
    if b >= 0x80 || 0x20 <= b < 0x40 || index.None? then Returned
    else
      var rest := data[index.value.consumed..];
      if index.value.value > 0 then
        if GetIndexed(tb, dyn, index.value.value).None? then Returned else StringFate(tb.huffman, rest)
      else if StringFate(tb.huffman, rest) != Returned then StringFate(tb.huffman, rest)
      else
        match DecodeString(tb.huffman, rest)
        case Text(_, n) => StringFate(tb.huffman, rest[n..])
        case _ => Returned
  }

  /** The first representation, in order, at which the decoder does not come back. */
  function BlockFate(tb: Tables, dyn: DynTable, data: seq<byte>): Fate
    decreases |data|
  {
    if |data| == 0 then Returned
    else if ItemFate(tb, dyn, data) != Returned then ItemFate(tb, dyn, data)
    else
      match ReadItem(tb, dyn, data)
      case Header(_, _, n) => BlockFate(tb, dyn, data[n..])
      case NewSize(max, n) => BlockFate(tb, Resize(dyn, max), data[n..])
      case _ => Returned
  }

  lemma StringFateIs(t: Huffman.Table, data: seq<byte>)
    ensures StringFate(t, data)
            == match DecodeString(t, data) case TooLong => Threw case PastEnd => Beyond case _ => Returned
  {
    hide Huffman.Decode, Huffman.GivesUp, DecodeInt, Wraps;
    if Wraps(data) {
      WrapsMeans(data);
    }
  }

  lemma NameFate(tb: Tables, dyn: DynTable, data: seq<byte>, span: Span)
    ensures var index := DecodeInt(data, span);
            var name := ReadName(Entries(tb, dyn), tb.huffman, data, span);
            && (name.TooLong? || name.PastEnd? ==>
                  && index.Some? && index.value.value == 0
                  && name == DecodeString(tb.huffman, data[index.value.consumed..]))
            && (index.Some? && index.value.value == 0 ==>
                  match DecodeString(tb.huffman, data[index.value.consumed..])
                  case Text(text, n) => name == Text(text, index.value.consumed + n)
                  case failed => name == failed)
  {
    hide DecodeString, DecodeInt;
  }

  lemma LiteralFate(tb: Tables, dyn: DynTable, data: seq<byte>, span: Span, indexing: bool)
    requires |data| > 0 && (if data[0] >= 0x40 then span == 64 && data[0] < 0x80 else span == 16 && data[0] < 0x20)
    ensures FateOf(ReadLiteral(Entries(tb, dyn), tb.huffman, data, span, indexing)) == ItemFate(tb, dyn, data)
  {
    hide DecodeString, DecodeInt, StringFate;
    var index := DecodeInt(data, span);
    if index.Some? {
      var rest := data[index.value.consumed..];
      StringFateIs(tb.huffman, rest);
      var name := ReadName(Entries(tb, dyn), tb.huffman, data, span);
      if name.Text? {
        StringFateIs(tb.huffman, data[name.consumed..]);
        if index.value.value == 0 {
          assert rest[name.consumed - index.value.consumed..] == data[name.consumed..];
        }
      }
    }
  }

  lemma ItemFateIs(tb: Tables, dyn: DynTable, data: seq<byte>)
    requires |data| > 0
    ensures FateOf(ReadItem(tb, dyn, data)) == ItemFate(tb, dyn, data)
  {
    hide DecodeInt, ReadLiteral;
    if data[0] < 0x20 {
      LiteralFate(tb, dyn, data, 16, false);
    } else if 0x40 <= data[0] < 0x80 {
      LiteralFate(tb, dyn, data, 64, true);
    }
  }

  lemma {:induction false} DecodeFate(tb: Tables, dyn: DynTable, data: seq<byte>, acc: seq<Field>, added: seq<Field>)
    ensures DecodeFrom(tb, dyn, data, acc, added).fate == BlockFate(tb, dyn, data)
    decreases |data|
  {
    hide ReadItem, ItemFate, Resize, InsertAll;
    if |data| > 0 {
      ItemFateIs(tb, dyn, data);
      match ReadItem(tb, dyn, data)
      case Header(f, indexing, n) =>
        DecodeFate(tb, dyn, data[n..], acc + [f], if indexing then added + [f] else added);
      case NewSize(max, n) => DecodeFate(tb, Resize(dyn, max), data[n..], acc, added);
      case _ =>
    }
  }

  /**
    How decoding a block ends is told by its representations: the first string of a wrapping length on which nothing
    gives up.
   */
  lemma BlockFateIs(tb: Tables, dyn: DynTable, data: seq<byte>)
    ensures DecodeBlock(tb, dyn, data).fate == BlockFate(tb, dyn, data)
  {
    hide DecodeFrom, BlockFate;
    DecodeFate(tb, dyn, data, [], []);
  }

  /** A literal whose name is said to be 2^64 - 1 bytes long. */
  function HugeName(mask: byte, rest: seq<byte>): seq<byte>
    requires mask == 0x00 || mask == 0x80
  {
    [0x00] + (EncodeInt(WORD64 - 1, 128, mask) + rest)
  }

  /**
    In Huffman form the decoder reads beyond the block unless the bit loop gives up on what follows; in plain form it
    throws.
   */
  lemma OverrunBlock(tb: Tables, dyn: DynTable, mask: byte, rest: seq<byte>)
    requires (mask == 0x00 || mask == 0x80) && |EncodeInt(WORD64 - 1, 128, mask) + rest| < WORD64
    ensures mask == 0x80 && !Huffman.GivesUp(tb.huffman, rest) ==>
              DecodeBlock(tb, dyn, HugeName(mask, rest)) == Decoding([], dyn, Beyond)
    ensures mask == 0x00 ==> DecodeBlock(tb, dyn, HugeName(mask, rest)) == Decoding([], dyn, Threw)
  {
    hide DecodeString, EncodeInt, Huffman.GivesUp;
    var length := EncodeInt(WORD64 - 1, 128, mask) + rest;
    PastEndLengths(tb.huffman, WORD64 - 1, mask, rest);
    var data := [0x00] + length;
    assert DecodeInt(data, 16) == Some(Decoded(0, 1));
    assert data[1..] == length;
  }

  lemma HugeNameEnds(rest: seq<byte>)
    ensures |EncodeInt(WORD64 - 1, 128, 0x80)| == 11 && (EncodeInt(WORD64 - 1, 128, 0x80) + rest)[10..] == [1] + rest
  {
    hide Groups, EncodeInt;
    LongestForm(WORD64 - 1, 128, 0x80);
    LastGroup();
  }

  /**
    Followed by four FF bytes, on which the loop gives up where no code is made of ones: the name is empty, the
    wrapped sum takes the decoder back into the length, the last byte of which is the length of the value. The block
    is refused, and nothing is read beyond it.
   */
  lemma GivenUpBlock(tb: Tables, dyn: DynTable)
    requires Huffman.GivesUp(tb.huffman, [255, 255, 255, 255])
    ensures ReadItem(tb, dyn, HugeName(0x80, [255, 255, 255, 255])) == Header(Field([], [255]), false, 13)
    ensures DecodeBlock(tb, dyn, HugeName(0x80, [255, 255, 255, 255])) == Decoding([], dyn, Returned)
  {
    hide EncodeInt, Huffman.GivesUp, Huffman.Decode;
    var rest: seq<byte> := [255, 255, 255, 255];
    var length := EncodeInt(WORD64 - 1, 128, 0x80) + rest;
    HugeNameEnds(rest);
    PastEndLengths(tb.huffman, WORD64 - 1, 0x80, rest);
    var data := [0x00] + length;
    assert data[1..] == length && data[11..] == length[10..] == [1, 255, 255, 255, 255];
    GivenUpItem(tb, dyn, data);
    assert data[13..] == [255, 255, 255];
    Unfinished(tb, dyn);
    assert DecodeFrom(tb, dyn, data[13..], [] + [Field([], [255])], []) == Decoding([], dyn, Returned);
  }

  lemma GivenUpItem(tb: Tables, dyn: DynTable, data: seq<byte>)
    requires |data| == 16 && data[0] == 0 && DecodeString(tb.huffman, data[1..]) == Text([], 10)
             && data[11..] == [1, 255, 255, 255, 255]
    ensures ReadItem(tb, dyn, data) == Header(Field([], [255]), false, 13)
  {
    hide Huffman.GivesUp, Huffman.Decode;
    assert DecodeInt(data, 16) == Some(Decoded(0, 1));
    var value := data[11..];
    assert DecodeInt(value, 128) == Some(Decoded(1, 1));
    assert value[1..2] == [255];
    assert DecodeString(tb.huffman, value) == Text([255], 2);
  }

  lemma Unfinished(tb: Tables, dyn: DynTable)
    ensures ReadItem(tb, dyn, [255, 255, 255]) == Bad
  {
    var data: seq<byte> := [255, 255, 255];
    assert data[1..] == [255, 255] && data[1..][1..] == [255] && data[1..][1..][1..] == [];
    CutOff();
  }

  // ---------------------------------------------------------------- transfer

  /** What the peer reads when f is sent. */
  function DeliveredField(tb: Tables, f: Field): Field {
    if StaticIndex(tb.fields, f, 1) > 0 then f
    else Field(Delivered(tb.huffman, f.name), Delivered(tb.huffman, f.value))
  }

  function DeliveredFields(tb: Tables, fs: seq<Field>): (r: seq<Field>)
    ensures |r| == |fs|
    ensures forall i :: 0 <= i < |fs| ==> r[i] == DeliveredField(tb, fs[i])
  {
    if |fs| == 0 then [] else [DeliveredField(tb, fs[0])] + DeliveredFields(tb, fs[1..])
  }

  /** Sizes a 64-bit machine can hold. */
  ghost predicate Sized(f: Field) {
    |f.name| < WORD64 && |f.value| < WORD64
  }

  ghost predicate AllSized(fs: seq<Field>) {
    forall f :: f in fs ==> Sized(f)
  }

  ghost predicate Addressable(tb: Tables) {
    |tb.fields| <= WORD64
  }

  lemma IndexedTransfer(tb: Tables, dyn: DynTable, i: nat, rest: seq<byte>)
    requires 0 < i < |tb.fields| <= WORD64
    ensures var data := EncodeInt(i, 128, 0x80) + rest;
            ReadItem(tb, dyn, data) == Header(tb.fields[i], false, |EncodeInt(i, 128, 0x80)|)
  {
    IntRoundTrip(i, 128, 0x80, rest);
    assert (EncodeInt(i, 128, 0x80) + rest)[0] >= 0x80;
  }

  /** A literal made of two encoded strings, given how each of them reads. */
  lemma LiteralPieces(tb: Tables, dyn: DynTable, name: seq<byte>, value: seq<byte>, rest: seq<byte>, f: Field)
    requires DecodeString(tb.huffman, name + (value + rest)) == Text(f.name, |name|)
    requires DecodeString(tb.huffman, value + rest) == Text(f.value, |value|)
    ensures ReadItem(tb, dyn, [0x00] + (name + (value + rest))) == Header(f, false, 1 + |name| + |value|)
  {
    hide DecodeString;
    var data := [0x00] + (name + (value + rest));
    assert DecodeInt(data, 16) == Some(Decoded(0, 1));
    assert data[1..] == name + (value + rest);
    assert data[1 + |name|..] == value + rest;
  }

  lemma LiteralLayout(name: seq<byte>, value: seq<byte>, rest: seq<byte>)
    ensures EncodeInt(0, 16, 0x00) + name + value + rest == [0x00] + (name + (value + rest))
    ensures |EncodeInt(0, 16, 0x00)| == 1
  {
  }

  lemma LiteralTransfer(tb: Tables, dyn: DynTable, f: Field, rest: seq<byte>)
    requires Sized(f) && StaticIndex(tb.fields, f, 1) == 0
    ensures ReadItem(tb, dyn, EncodeField(tb, f) + rest) == Header(DeliveredField(tb, f), false, |EncodeField(tb, f)|)
  {
    hide DecodeString, EncodeString, ReadItem;
    var name, value := EncodeString(tb.huffman, f.name), EncodeString(tb.huffman, f.value);
    StringTransfer(tb.huffman, f.name, value + rest);
    StringTransfer(tb.huffman, f.value, rest);
    LiteralPieces(tb, dyn, name, value, rest, DeliveredField(tb, f));
    LiteralLayout(name, value, rest);
  }

  lemma FieldTransfer(tb: Tables, dyn: DynTable, f: Field, rest: seq<byte>)
    requires Sized(f) && Addressable(tb)
    ensures ReadItem(tb, dyn, EncodeField(tb, f) + rest) == Header(DeliveredField(tb, f), false, |EncodeField(tb, f)|)
  {
    var i := StaticIndex(tb.fields, f, 1);
    if i > 0 {
      IndexedTransfer(tb, dyn, i, rest);
    } else {
      LiteralTransfer(tb, dyn, f, rest);
    }
  }

  lemma {:induction false} FieldsTransfer(tb: Tables, dyn: DynTable, fs: seq<Field>, acc: seq<Field>)
    requires AllSized(fs) && Addressable(tb)
    ensures DecodeFrom(tb, dyn, EncodeFields(tb, fs), acc, []) == Decoding(acc + DeliveredFields(tb, fs), dyn, Returned)
    decreases |fs|
  {
    if |fs| == 0 {
      assert acc + DeliveredFields(tb, fs) == acc;
    } else {
      var head, tail := EncodeField(tb, fs[0]), EncodeFields(tb, fs[1..]);
      assert fs[0] in fs;
      FieldTransfer(tb, dyn, fs[0], tail);
      var d := DeliveredField(tb, fs[0]);
      assert (head + tail)[|head|..] == tail;
      FieldsTransfer(tb, dyn, fs[1..], acc + [d]);
      assert acc + [d] + DeliveredFields(tb, fs[1..]) == acc + DeliveredFields(tb, fs);
    }
  }

  lemma SizeUpdateTransfer(tb: Tables, dyn: DynTable, max: nat, rest: seq<byte>)
    requires max < WORD64
    ensures ReadItem(tb, dyn, EncodeInt(max, 32, 0x20) + rest) == NewSize(max, |EncodeInt(max, 32, 0x20)|)
  {
    IntRoundTrip(max, 32, 0x20, rest);
    var b := (EncodeInt(max, 32, 0x20) + rest)[0];
    assert b == EncodeInt(max, 32, 0x20)[0];
    assert 0x20 <= b < 0x40;
  }

  /** A block decodes to what is delivered, and only a pending size update touches the table. */
  lemma BlockTransfer(e: Encoder, dyn: DynTable, fs: seq<Field>)
    requires AllSized(fs) && Addressable(e.tables) && e.max < WORD64
    ensures DecodeBlock(e.tables, dyn, EncodeBlock(e, fs))
         == Decoding(DeliveredFields(e.tables, fs), if e.updated then Resize(dyn, e.max) else dyn, Returned)
  {
    var body := EncodeFields(e.tables, fs);
    assert [] + DeliveredFields(e.tables, fs) == DeliveredFields(e.tables, fs);
    if e.updated {
      var head := EncodeInt(e.max, 32, 0x20);
      SizeUpdateTransfer(e.tables, dyn, e.max, body);
      assert (head + body)[|head|..] == body;
      FieldsTransfer(e.tables, Resize(dyn, e.max), fs, []);
    } else {
      assert EncodeBlock(e, fs) == body;
      FieldsTransfer(e.tables, dyn, fs, []);
    }
  }

  // ---------------------------------------------------------------- whole runs

  /** What an encoder's owner can do. */
  datatype EncoderOp = SetMax(max: nat) | Send(fields: seq<Field>)

  ghost predicate OpSized(op: EncoderOp) {
    match op
    case SetMax(max) => max < WORD64
    case Send(fs) => AllSized(fs)
  }

  /** An encoder and the decoder fed with its blocks, and the header lists the decoder has returned. */
  datatype Link = Link(enc: Encoder, dyn: DynTable, received: seq<seq<Field>>)

  function LinkStep(l: Link, op: EncoderOp): Link {
    match op
    case SetMax(max) => l.(enc := SetMaxTableSize(l.enc, max))
    case Send(fs) =>
      var d := DecodeBlock(l.enc.tables, l.dyn, EncodeBlock(l.enc, fs));
      Link(AfterBlock(l.enc), d.dyn, l.received + [d.headers])
  }

  function LinkRun(l: Link, ops: seq<EncoderOp>): Link {
    if |ops| == 0 then l else LinkStep(LinkRun(l, ops[..|ops| - 1]), ops[|ops| - 1])
  }

  function Sent(tb: Tables, ops: seq<EncoderOp>): seq<seq<Field>> {
    if |ops| == 0 then []
    else
      var before := Sent(tb, ops[..|ops| - 1]);
      match ops[|ops| - 1]
      case SetMax(_) => before
      case Send(fs) => before + [DeliveredFields(tb, fs)]
  }

  /** Over every run, each list arrives as delivered, in order, and both dynamic tables stay empty. */
  lemma {:induction false} LinkTheorem(tb: Tables, max: nat, ops: seq<EncoderOp>)
    requires Addressable(tb) && max < WORD64
    requires forall op :: op in ops ==> OpSized(op)
    ensures var l := LinkRun(Link(NewEncoder(tb, max), DynTable([], 0, max), []), ops);
            && l.enc.tables == tb && l.enc.max < WORD64
            && l.enc.dyn.entries == [] && l.dyn.entries == []
            && l.received == Sent(tb, ops)
  {
    if |ops| > 0 {
      var front, op := ops[..|ops| - 1], ops[|ops| - 1];
      assert op in ops;
      LinkTheorem(tb, max, front);
      var l := LinkRun(Link(NewEncoder(tb, max), DynTable([], 0, max), []), front);
      match op
      case SetMax(m) =>
      case Send(fs) => BlockTransfer(l.enc, l.dyn, fs);
    }
  }

  /** The last limit set, or the first one. */
  function LastMax(ops: seq<EncoderOp>, max: nat): nat {
    if |ops| == 0 then max
    else if ops[|ops| - 1].SetMax? then ops[|ops| - 1].max
    else LastMax(ops[..|ops| - 1], max)
  }

  /**
    The encoder keeps the last limit set, and with every block the decoder has it too; in between it is still to be
    announced exactly when one was set since the last block. The encoder's own table stays empty.
   */
  lemma {:induction false} LimitsAgree(tb: Tables, max: nat, ops: seq<EncoderOp>)
    requires Addressable(tb) && max < WORD64
    requires forall op :: op in ops ==> OpSized(op)
    ensures var l := LinkRun(Link(NewEncoder(tb, max), DynTable([], 0, max), []), ops);
            && l.enc.dyn == DynTable([], 0, LastMax(ops, max)) && l.enc.max == LastMax(ops, max)
            && (l.enc.updated <==> |ops| > 0 && ops[|ops| - 1].SetMax?)
            && (!l.enc.updated ==> l.dyn == DynTable([], 0, LastMax(ops, max)))
  {
    hide DecodeBlock, EncodeBlock;
    if |ops| > 0 {
      var front, op := ops[..|ops| - 1], ops[|ops| - 1];
      assert op in ops;
      LinkTheorem(tb, max, front);
      LimitsAgree(tb, max, front);
      EmptyTables(tb, max, front);
      var l := LinkRun(Link(NewEncoder(tb, max), DynTable([], 0, max), []), front);
      match op
      case SetMax(m) =>
      case Send(fs) => BlockTransfer(l.enc, l.dyn, fs);
    }
  }

  lemma {:induction false} EmptyTables(tb: Tables, max: nat, ops: seq<EncoderOp>)
    requires Addressable(tb) && max < WORD64
    requires forall op :: op in ops ==> OpSized(op)
    ensures var l := LinkRun(Link(NewEncoder(tb, max), DynTable([], 0, max), []), ops);
            l.dyn.entries == [] && l.dyn.size == 0 && l.enc.tables == tb && l.enc.max < WORD64
  {
    hide DecodeBlock, EncodeBlock;
    if |ops| > 0 {
      var front, op := ops[..|ops| - 1], ops[|ops| - 1];
      assert op in ops;
      EmptyTables(tb, max, front);
      var l := LinkRun(Link(NewEncoder(tb, max), DynTable([], 0, max), []), front);
      match op
      case SetMax(m) =>
      case Send(fs) => BlockTransfer(l.enc, l.dyn, fs);
    }
  }

  /** A string is sent in the shorter of its two forms, and as it is if they are equally long. */
  lemma ShorterForm(t: Huffman.Table, s: seq<byte>)
    ensures var coded, sent := |Huffman.Encode(t, s)|, EncodeString(t, s);
            && (sent[0] >= 0x80 <==> coded < |s|)
            && |sent| == |EncodeInt(Min(coded, |s|), 128, 0x00)| + Min(coded, |s|)
  {
    hide Huffman.Encode;
  }
}

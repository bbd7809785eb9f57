/**
  The static table of src/http/hpack.cpp, and exactly which header lists survive an encoder and a decoder that share
  it.
 */
module HpackTables {
  import opened Bytes
  import opened DynamicTable
  import opened Hpack
  import Huffman
  import HuffmanTable

  function Static(name: string, value: string): Field {
    Field(Ascii(name), Ascii(value))
  }

  /** Index 0 is the placeholder. */
  function StaticEntry(i: nat): Field {
    match i
    case 0 => Static("", "")
    case 1 => Static(":authority", "")
    case 2 => Static(":method", "GET")
    case 3 => Static(":method", "POST")
    case 4 => Static(":path", "/")
    case 5 => Static(":path", "/index.html")
    case 6 => Static(":scheme", "http")
    case 7 => Static(":scheme", "https")
    case 8 => Static(":status", "200")
    case 9 => Static(":status", "204")
    case 10 => Static(":status", "206")
    case 11 => Static(":status", "304")
    case 12 => Static(":status", "400")
    case 13 => Static(":status", "404")
    case 14 => Static(":status", "500")
    case 15 => Static("accept-charset", "")
    case 16 => Static("accept-encoding", "gzip, deflate")
    case 17 => Static("accept-language", "")
    case 18 => Static("accept-ranges", "")
    case 19 => Static("accept", "")
    case 20 => Static("access-control-allow-origin", "")
    case 21 => Static("age", "")
    case 22 => Static("allow", "")
    case 23 => Static("authorization", "")
    case 24 => Static("cache-control", "")
    case 25 => Static("content-disposition", "")
    case 26 => Static("content-encoding", "")
    case 27 => Static("content-language", "")
    case 28 => Static("content-length", "")
    case 29 => Static("content-location", "")
    case 30 => Static("content-range", "")
    case 31 => Static("content-type", "")
    case 32 => Static("cookie", "")
    case 33 => Static("date", "")
    case 34 => Static("etag", "")
    case 35 => Static("expect", "")
    case 36 => Static("expires", "")
    case 37 => Static("from", "")
    case 38 => Static("host", "")
    case 39 => Static("if-match", "")
    case 40 => Static("if-modified-since", "")
    case 41 => Static("if-none-match", "")
    case 42 => Static("if-range", "")
    case 43 => Static("if-unmodified-since", "")
    case 44 => Static("last-modified", "")
    case 45 => Static("link", "")
    case 46 => Static("location", "")
    case 47 => Static("max-forwards", "")
    case 48 => Static("proxy-authenticate", "")
    case 49 => Static("proxy-authorization", "")
    case 50 => Static("range", "")
    case 51 => Static("referer", "")
    case 52 => Static("refresh", "")
    case 53 => Static("retry-after", "")
    case 54 => Static("server", "")
    case 55 => Static("set-cookie", "")
    case 56 => Static("strict-transport-security", "")
    case 57 => Static("transfer-encoding", "")
    case 58 => Static("user-agent", "")
    case 59 => Static("vary", "")
    case 60 => Static("via", "")
    case _ => Static("www-authenticate", "")
  }

  function StaticFields(): seq<Field> {
    seq(62, i requires 0 <= i < 62 => StaticEntry(i))
  }

  function Shared(): Tables {
    Tables(HuffmanTable.HpackHuffman(), StaticFields())
  }

  lemma SharedAddressable()
    ensures Addressable(Shared()) && |Shared().fields| == 62
  {
    hide HuffmanTable.HpackHuffman;
  }

  /** A string survives unless it is sent in Huffman form and holds one of the sixteen misread bytes. */
  ghost predicate StringSurvives(s: seq<byte>) {
    UsesHuffman(Shared().huffman, s) ==> forall ch :: ch in s ==> ch !in HuffmanTable.MISREAD
  }

  /** A field survives when it is a static one or both its strings do. */
  ghost predicate FieldSurvives(f: Field) {
    StaticIndex(Shared().fields, f, 1) > 0 || (StringSurvives(f.name) && StringSurvives(f.value))
  }

  lemma StringDelivered(s: seq<byte>)
    ensures Delivered(Shared().huffman, s) == s <==> StringSurvives(s)
  {
    hide HuffmanTable.HpackHuffman, Huffman.Encode, Huffman.Decode, StaticFields;
    HuffmanTable.HpackRoundTrip(s);
  }

  lemma FieldDelivered(f: Field)
    ensures DeliveredField(Shared(), f) == f <==> FieldSurvives(f)
  {
    hide Shared, Delivered, StringSurvives;
    StringDelivered(f.name);
    StringDelivered(f.value);
  }

  /** A list arrives unchanged exactly when every field of it survives. */
  lemma FieldsDelivered(fs: seq<Field>)
    ensures DeliveredFields(Shared(), fs) == fs <==> forall f :: f in fs ==> FieldSurvives(f)
  {
    hide Shared, DeliveredField, FieldSurvives;
    forall i | 0 <= i < |fs| ensures DeliveredField(Shared(), fs[i]) == fs[i] <==> FieldSurvives(fs[i]) {
      FieldDelivered(fs[i]);
    }
    if forall f :: f in fs ==> FieldSurvives(f) {
      assert forall i :: 0 <= i < |fs| ==> fs[i] in fs;
    }
  }

  ghost predicate AsciiField(f: Field) {
    (forall ch :: ch in f.name ==> ch < 128) && (forall ch :: ch in f.value ==> ch < 128)
  }

  lemma AsciiSurvives(s: seq<byte>)
    requires forall ch :: ch in s ==> ch < 128
    ensures StringSurvives(s)
  {
    hide UsesHuffman, Shared;
  }

  /** In particular every list of 7-bit fields arrives unchanged. */
  lemma AsciiFieldsDelivered(fs: seq<Field>)
    requires forall f :: f in fs ==> AsciiField(f)
    ensures DeliveredFields(Shared(), fs) == fs
  {
    hide Shared, StringSurvives, DeliveredFields;
    FieldsDelivered(fs);
    forall f | f in fs ensures FieldSurvives(f) {
      AsciiSurvives(f.name);
      AsciiSurvives(f.value);
    }
  }

  lemma {:induction false} ZerosBits(n: nat)
    ensures |Huffman.CodeBits(HuffmanTable.HpackHuffman(), seq(n, _ => 48))| == 5 * n
  {
    hide HuffmanTable.HpackHuffman;
    var s: seq<byte> := seq(n, _ => 48);
    if n > 0 {
      ZerosBits(n - 1);
      assert s[1..] == seq(n - 1, _ => 48);
      CodeLength(48, 5);
    }
  }

  lemma CodeLength(ch: byte, bits: nat)
    requires HuffmanTable.Entry(ch).bits == bits
    ensures HuffmanTable.HpackHuffman()[ch].bits == bits
  {
    hide HuffmanTable.Entry;
  }

  /** The byte 147 followed by twenty zero digits: shorter in Huffman form, and not what arrives. */
  lemma LostString()
    ensures var s: seq<byte> := [147] + seq(20, _ => 48); Delivered(Shared().huffman, s) != s
  {
    hide StaticFields, Delivered, Huffman.Decode;
    var t := HuffmanTable.HpackHuffman();
    var s: seq<byte> := [147] + seq(20, _ => 48);
    assert UsesHuffman(t, s) by {
      hide HuffmanTable.HpackHuffman;
      ZerosBits(20);
      assert s[1..] == seq(20, _ => 48);
      CodeLength(147, 23);
      Huffman.PackLength(Huffman.CodeBits(t, s));
    }
    StringDelivered(s);
    assert s[0] in s && s[0] in HuffmanTable.MISREAD;
  }

  /**
    With the table as written the block of an impossible Huffman length and four FF bytes is refused and nothing is
    read beyond it.
   */
  lemma GivenUpHere(dyn: DynTable)
    ensures DecodeBlock(Shared(), dyn, HugeName(0x80, [255, 255, 255, 255])) == Decoding([], dyn, Returned)
  {
    hide StaticFields, HuffmanTable.HpackHuffman, DecodeBlock, HugeName;
    HuffmanTable.OnesAreRefused();
    GivenUpBlock(Shared(), dyn);
  }
}

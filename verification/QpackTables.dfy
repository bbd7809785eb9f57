/** The static table of src/http/qpack.cpp, which header lists survive it, and HTTP/3 requests end to end. */
module QpackTables {
  import opened Bytes
  import opened DynamicTable
  import opened Qpack
  import Hpack
  import Huffman
  import HuffmanTable
  import HpackTables
  import H3Frame
  import Varint

  function StaticEntry(i: nat): Field {
    match i
    case 0 => HpackTables.Static(":authority", "")
    case 1 => HpackTables.Static(":path", "/")
    case 2 => HpackTables.Static("age", "0")
    case 3 => HpackTables.Static("content-disposition", "")
    case 4 => HpackTables.Static("content-length", "0")
    case 5 => HpackTables.Static("cookie", "")
    case 6 => HpackTables.Static("date", "")
    case 7 => HpackTables.Static("etag", "")
    case 8 => HpackTables.Static("if-modified-since", "")
    case 9 => HpackTables.Static("if-none-match", "")
    case 10 => HpackTables.Static("last-modified", "")
    case 11 => HpackTables.Static("link", "")
    case 12 => HpackTables.Static("location", "")
    case 13 => HpackTables.Static("referer", "")
    case 14 => HpackTables.Static("set-cookie", "")
    case 15 => HpackTables.Static(":method", "CONNECT")
    case 16 => HpackTables.Static(":method", "DELETE")
    case 17 => HpackTables.Static(":method", "GET")
    case 18 => HpackTables.Static(":method", "HEAD")
    case 19 => HpackTables.Static(":method", "OPTIONS")
    case 20 => HpackTables.Static(":method", "POST")
    case 21 => HpackTables.Static(":method", "PUT")
    case 22 => HpackTables.Static(":scheme", "http")
    case 23 => HpackTables.Static(":scheme", "https")
    case 24 => HpackTables.Static(":status", "103")
    case 25 => HpackTables.Static(":status", "200")
    case 26 => HpackTables.Static(":status", "304")
    case 27 => HpackTables.Static(":status", "404")
    case 28 => HpackTables.Static(":status", "503")
    case 29 => HpackTables.Static("accept", "*/*")
    case 30 => HpackTables.Static("accept", "application/dns-message")
    case 31 => HpackTables.Static("accept-encoding", "gzip, deflate, br")
    case 32 => HpackTables.Static("accept-ranges", "bytes")
    case 33 => HpackTables.Static("access-control-allow-headers", "cache-control")
    case 34 => HpackTables.Static("access-control-allow-headers", "content-type")
    case 35 => HpackTables.Static("access-control-allow-origin", "*")
    case 36 => HpackTables.Static("cache-control", "max-age=0")
    case 37 => HpackTables.Static("cache-control", "max-age=2592000")
    case 38 => HpackTables.Static("cache-control", "max-age=604800")
    case 39 => HpackTables.Static("cache-control", "no-cache")
    case 40 => HpackTables.Static("cache-control", "no-store")
    case 41 => HpackTables.Static("cache-control", "public, max-age=31536000")
    case 42 => HpackTables.Static("content-encoding", "br")
    case 43 => HpackTables.Static("content-encoding", "gzip")
    case 44 => HpackTables.Static("content-type", "application/dns-message")
    case 45 => HpackTables.Static("content-type", "application/javascript")
    case 46 => HpackTables.Static("content-type", "application/json")
    case 47 => HpackTables.Static("content-type", "application/x-www-form-urlencoded")
    case 48 => HpackTables.Static("content-type", "image/gif")
    case 49 => HpackTables.Static("content-type", "image/jpeg")
    case 50 => HpackTables.Static("content-type", "image/png")
    case 51 => HpackTables.Static("content-type", "text/css")
    case 52 => HpackTables.Static("content-type", "text/html; charset=utf-8")
    case 53 => HpackTables.Static("content-type", "text/plain")
    case 54 => HpackTables.Static("content-type", "text/plain;charset=utf-8")
    case 55 => HpackTables.Static("range", "bytes=0-")
    case 56 => HpackTables.Static("strict-transport-security", "max-age=31536000")
    case 57 => HpackTables.Static("strict-transport-security", "max-age=31536000; includesubdomains")
    case 58 => HpackTables.Static("strict-transport-security", "max-age=31536000; includesubdomains; preload")
    case 59 => HpackTables.Static("vary", "accept-encoding")
    case 60 => HpackTables.Static("vary", "origin")
    case 61 => HpackTables.Static("x-content-type-options", "nosniff")
    case 62 => HpackTables.Static("x-xss-protection", "1; mode=block")
    case 63 => HpackTables.Static(":status", "100")
    case 64 => HpackTables.Static(":status", "204")
    case 65 => HpackTables.Static(":status", "206")
    case 66 => HpackTables.Static(":status", "302")
    case 67 => HpackTables.Static(":status", "400")
    case 68 => HpackTables.Static(":status", "403")
    case 69 => HpackTables.Static(":status", "421")
    case 70 => HpackTables.Static(":status", "425")
    case 71 => HpackTables.Static(":status", "500")
    case 72 => HpackTables.Static("accept-language", "")
    case 73 => HpackTables.Static("access-control-allow-credentials", "FALSE")
    case 74 => HpackTables.Static("access-control-allow-credentials", "TRUE")
    case 75 => HpackTables.Static("access-control-allow-headers", "*")
    case 76 => HpackTables.Static("access-control-allow-methods", "get")
    case 77 => HpackTables.Static("access-control-allow-methods", "get, post, options")
    case 78 => HpackTables.Static("access-control-allow-methods", "options")
    case 79 => HpackTables.Static("access-control-expose-headers", "content-length")
    case 80 => HpackTables.Static("access-control-request-headers", "content-type")
    case 81 => HpackTables.Static("access-control-request-method", "get")
    case 82 => HpackTables.Static("access-control-request-method", "post")
    case 83 => HpackTables.Static("alt-svc", "clear")
    case 84 => HpackTables.Static("authorization", "")
    case 85 => HpackTables.Static("content-security-policy", "script-src 'none'; object-src 'none'; base-uri 'none'")
    case 86 => HpackTables.Static("early-data", "1")
    case 87 => HpackTables.Static("expect-ct", "")
    case 88 => HpackTables.Static("forwarded", "")
    case 89 => HpackTables.Static("if-range", "")
    case 90 => HpackTables.Static("origin", "")
    case 91 => HpackTables.Static("purpose", "prefetch")
    case 92 => HpackTables.Static("server", "")
    case 93 => HpackTables.Static("timing-allow-origin", "*")
    case 94 => HpackTables.Static("upgrade-insecure-requests", "1")
    case 95 => HpackTables.Static("user-agent", "")
    case 96 => HpackTables.Static("x-forwarded-for", "")
    case 97 => HpackTables.Static("x-frame-options", "deny")
    case _ => HpackTables.Static("x-frame-options", "sameorigin")
  }

  function StaticFields(): seq<Field> {
    seq(99, i requires 0 <= i < 99 => StaticEntry(i))
  }

  function Shared(): Tables {
    Hpack.Tables(HuffmanTable.HpackHuffman(), StaticFields())
  }

  lemma SharedSize()
    ensures |Shared().fields| == 99
  {
    hide HuffmanTable.HpackHuffman, HpackTables.Static;
  }

  /** A field survives when it is a static one, or each of its strings that is sent does. */
  ghost predicate FieldSurvives(fields: seq<Field>, f: Field) {
    || IndexOfField(fields, f, 0) < |fields|
    || ((IndexOfName(fields, f.name, 0) < |fields| || HpackTables.StringSurvives(f.name))
        && HpackTables.StringSurvives(f.value))
  }

  lemma SameHuffman()
    ensures Shared().huffman == HpackTables.Shared().huffman
  {
    hide HuffmanTable.HpackHuffman, StaticFields, HpackTables.StaticFields;
  }

  /** A surviving string is never mistaken for a decoding error. */
  lemma SurvivorReadable(s: seq<byte>)
    requires HpackTables.StringSurvives(s)
    ensures Readable(Shared().huffman, s)
  {
    hide Shared, HpackTables.Shared, Huffman.Encode, Huffman.Decode, HpackTables.StringSurvives;
    SameHuffman();
    HpackTables.StringDelivered(s);
  }

  lemma LineSurvives(f: Field)
    ensures LineReadable(Shared(), f) && DeliveredLine(Shared(), f) == f <==> FieldSurvives(Shared().fields, f)
  {
    hide Shared, HpackTables.Shared, Hpack.Delivered, HpackTables.StringSurvives, Readable;
    SameHuffman();
    HpackTables.StringDelivered(f.name);
    HpackTables.StringDelivered(f.value);
    if HpackTables.StringSurvives(f.name) {
      SurvivorReadable(f.name);
    }
    if HpackTables.StringSurvives(f.value) {
      SurvivorReadable(f.value);
    }
  }

  /** A list arrives unchanged exactly when every field of it survives. */
  lemma {:induction false} LinesSurvive(fs: seq<Field>)
    ensures DeliveredLines(Shared(), fs) == fs <==> forall f :: f in fs ==> FieldSurvives(Shared().fields, f)
    decreases |fs|
  {
    hide Shared, FieldSurvives, LineReadable, DeliveredLine;
    if |fs| > 0 {
      LineSurvives(fs[0]);
      LinesSurvive(fs[1..]);
      var r := DeliveredLines(Shared(), fs);
      assert fs[0] in fs && forall f :: f in fs[1..] ==> f in fs;
      assert fs == [fs[0]] + fs[1..];
      if r == fs {
        assert r[0] == DeliveredLine(Shared(), fs[0]) && r[1..] == DeliveredLines(Shared(), fs[1..]);
      }
    }
  }

  lemma {:induction false} AsciiLinesSurvive(fs: seq<Field>)
    requires forall f :: f in fs ==> HpackTables.AsciiField(f)
    ensures DeliveredLines(Shared(), fs) == fs
  {
    hide Shared, HpackTables.StringSurvives, DeliveredLines;
    LinesSurvive(fs);
    forall f | f in fs ensures FieldSurvives(Shared().fields, f) {
      HpackTables.AsciiSurvives(f.name);
      HpackTables.AsciiSurvives(f.value);
    }
  }

  // ---------------------------------------------------------------- end to end

  /** The two frames of a message with a body. */
  function Message(section: seq<byte>, body: seq<byte>): seq<H3Frame.Frame> {
    [H3Frame.Frame(H3Frame.HEADERS, section), H3Frame.Frame(H3Frame.DATA, body)]
  }

  /** Whatever the chunks, the reader reports the two frames and nothing is left over. */
  lemma MessageArrives(section: seq<byte>, body: seq<byte>, chunks: seq<seq<byte>>)
    requires body != [] && |body| < Varint.VARINT_LIMIT && |section| < Varint.VARINT_LIMIT
    requires H3Frame.Concat(chunks) == H3Frame.Serialize(Message(section, body))
    ensures H3Frame.FeedAll(H3Frame.Inbox([], []), chunks) == H3Frame.Inbox(Message(section, body), [])
  {
    hide H3Frame.Serialize, H3Frame.Parse, H3Frame.Ready, H3Frame.FeedAll, H3Frame.Concat;
    H3Frame.EmptyIsPartial();
    H3Frame.ChunkingIrrelevant(H3Frame.Inbox([], []), chunks);
    H3Frame.SerializeParse(Message(section, body));
    var bytes := H3Frame.Concat(chunks);
    assert [] + bytes == bytes;
    assert [] + Message(section, body) == Message(section, body);
  }

  /**
    A list decodes to itself exactly when every field survives, whatever the decoder's table holds; bytes below 128
    always do.
   */
  lemma HeadersDecode(fs: seq<Field>, dyn: Dynamic, maxTableSize: nat)
    requires forall f :: f in fs ==> Hpack.Sized(f)
    ensures DecodeSection(Shared(), dyn, maxTableSize, EncodeSection(Shared(), fs)) == Section(fs, Hpack.Returned)
            <==> forall f :: f in fs ==> FieldSurvives(Shared().fields, f)
    ensures (forall f :: f in fs ==> HpackTables.AsciiField(f)) ==>
              DecodeSection(Shared(), dyn, maxTableSize, EncodeSection(Shared(), fs)) == Section(fs, Hpack.Returned)
  {
    hide Shared, DecodeSection, EncodeSection, DeliveredLines, FieldSurvives, HpackTables.AsciiField;
    SharedSize();
    SectionTransfer(Shared(), dyn, maxTableSize, fs);
    LinesSurvive(fs);
    if forall f :: f in fs ==> HpackTables.AsciiField(f) {
      AsciiLinesSurvive(fs);
    }
  }

  /**
    HTTP/3 end to end: a message with a non-empty body, its bytes cut in any way, is reported as a HEADERS
    and a DATA frame with that body, and the first decodes to the list sent exactly when every field survives.
   */
  lemma EndToEnd(fs: seq<Field>, body: seq<byte>, chunks: seq<seq<byte>>, dyn: Dynamic, maxTableSize: nat)
    requires forall f :: f in fs ==> Hpack.Sized(f)
    requires body != [] && |body| < Varint.VARINT_LIMIT && |EncodeSection(Shared(), fs)| < Varint.VARINT_LIMIT
    requires H3Frame.Concat(chunks) == H3Frame.Serialize(Message(EncodeSection(Shared(), fs), body))
    ensures var got := H3Frame.FeedAll(H3Frame.Inbox([], []), chunks);
            && got.pending == [] && |got.reported| == 2
            && got.reported[0].kind == H3Frame.HEADERS && got.reported[1] == H3Frame.Frame(H3Frame.DATA, body)
            && (DecodeSection(Shared(), dyn, maxTableSize, got.reported[0].payload) == Section(fs, Hpack.Returned)
                <==> forall f :: f in fs ==> FieldSurvives(Shared().fields, f))
  {
    hide Shared, DecodeSection, EncodeSection, FieldSurvives, H3Frame.Serialize, H3Frame.FeedAll, H3Frame.Concat;
    MessageArrives(EncodeSection(Shared(), fs), body, chunks);
    HeadersDecode(fs, dyn, maxTableSize);
  }
}

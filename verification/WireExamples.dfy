/** Examples the standards give, byte by byte. */
module WireExamples {
  import opened Bytes
  import opened DynamicTable
  import PrefixInt
  import Huffman
  import HuffmanTable
  import Hpack
  import HpackForms
  import HpackTables
  import H2Frame
  import H2Session
  import HttpTypes
  import Qpack
  import QpackForms
  import QpackTables
  import Varint

  // ---------------------------------------------------------------- RFC 7541

  /** Appendix C.1 of RFC 7541. */
  lemma Integers()
    ensures PrefixInt.EncodeInt(10, 32, 0) == [0x0A]
    ensures PrefixInt.EncodeInt(1337, 32, 0) == [0x1F, 0x9A, 0x0A]
    ensures PrefixInt.EncodeInt(42, 256, 0) == [0x2A]
  {
    assert PrefixInt.Groups(10) == [10];
    assert PrefixInt.Groups(1306) == [0x9A, 0x0A];
  }

  /** Appendix B: the code of "a" is 00011, most significant bit first, and the last byte is filled with ones. */
  lemma OneLetter()
    ensures Huffman.Encode(HuffmanTable.HpackHuffman(), [97]) == [0x1F]
  {
    hide HuffmanTable.HpackHuffman, Value, ToBits, Ones;
    var t := HuffmanTable.HpackHuffman();
    assert t[97] == Huffman.Code(3, 5) by { LetterCode(); }
    assert [97][1..] == [];
    var bits := ToBits(3, 5);
    assert Huffman.CodeBits(t, [97]) == bits + Huffman.CodeBits(t, []) == bits;
    Pow2Literals();
    ValueOfToBits(3, 5);
    Huffman.ValueOfOnes(3);
    ValueConcat(bits, Ones(3));
    assert |Ones(3)| == 3 by { OnesLength(); }
  }

  lemma OnesLength()
    ensures |Ones(3)| == 3
  {
  }

  lemma LetterCode()
    ensures HuffmanTable.HpackHuffman()[97] == Huffman.Code(3, 5)
  {
  }

  function Host(): seq<byte> {
    Ascii("www.example.com")
  }

  /** Appendix C.3.1: three indexed fields and a literal named by its index. */
  lemma FirstRequest(dyn: DynTable)
    ensures var authority := Field(Ascii(":authority"), Host());
            Hpack.DecodeBlock(HpackTables.Shared(), dyn, [0x82, 0x86, 0x84, 0x41, 0x0F] + Host())
            == Hpack.Decoding([HpackTables.Static(":method", "GET"), HpackTables.Static(":scheme", "http"),
                               HpackTables.Static(":path", "/"), authority], InsertAll(dyn, [authority]),
                                 Hpack.Returned)
  {
    hide Host, Ascii, HuffmanTable.HpackHuffman, Hpack.DecodeBlock, InsertAll;
    HostLength();
    var last := HpackForms.LiteralField(HpackForms.Incremental, HpackForms.ByIndex(1), HpackForms.Plain(Host()));
    var forms := [HpackForms.Indexed(2), HpackForms.Indexed(6), HpackForms.Indexed(4), last];
    FirstForms(dyn, last);
    HpackForms.BlockAmounts(HpackTables.Shared(), dyn, forms);
  }

  /** The same appendix: the table then holds 57 bytes. */
  lemma FirstTable()
    ensures var authority := Field(Ascii(":authority"), Host());
            InsertAll(DynTable([], 0, 4096), [authority]) == DynTable([authority], 57, 4096)
  {
    hide Host, Ascii;
    HostLength();
    NameLength();
    var authority := Field(Ascii(":authority"), Host());
    assert [authority][1..] == [];
  }

  lemma NameLength()
    ensures |Ascii(":authority")| == 10
  {
  }

  lemma HostLength()
    ensures |Host()| == 15
  {
  }

  lemma OneMore(dyn: DynTable, f: HpackForms.Form, rest: seq<HpackForms.Form>)
    requires !f.SizeUpdate? && HpackForms.Stands(HpackTables.Shared(), dyn, f).Some?
    ensures HpackForms.WriteForms([f] + rest) == HpackForms.WriteForm(f) + HpackForms.WriteForms(rest)
    ensures var field := HpackForms.Stands(HpackTables.Shared(), dyn, f).value;
            var sense := HpackForms.Amounts(HpackTables.Shared(), dyn, rest);
            HpackForms.Amounts(HpackTables.Shared(), dyn, [f] + rest)
            == sense.(headers := [field] + sense.headers,
                      inserted := (if f.LiteralField? && f.kind.Incremental? then [field] else []) + sense.inserted)
  {
    hide HpackForms.Stands, HpackForms.WriteForm, HpackTables.Shared;
    assert ([f] + rest)[1..] == rest;
  }

  lemma NoMore(dyn: DynTable)
    ensures HpackForms.WriteForms([]) == []
    ensures HpackForms.Amounts(HpackTables.Shared(), dyn, []) == HpackForms.Sense([], [], dyn, false)
  {
  }

  lemma IndexedIs(dyn: DynTable, i: nat)
    requires 0 < i < 62
    ensures HpackForms.WriteForm(HpackForms.Indexed(i)) == [0x80 + i]
    ensures HpackForms.Stands(HpackTables.Shared(), dyn, HpackForms.Indexed(i)) == Some(HpackTables.StaticEntry(i))
  {
    hide HuffmanTable.HpackHuffman, HpackTables.StaticEntry;
  }

  lemma AuthorityIs(dyn: DynTable, last: HpackForms.Form)
    requires last == HpackForms.LiteralField(HpackForms.Incremental, HpackForms.ByIndex(1), HpackForms.Plain(Host()))
    ensures HpackForms.WriteForm(last) == [0x41, 0x0F] + Host()
    ensures HpackForms.Stands(HpackTables.Shared(), dyn, last) == Some(Field(Ascii(":authority"), Host()))
  {
    hide Host, Ascii, HuffmanTable.HpackHuffman;
    HostLength();
  }

  lemma FirstForms(dyn: DynTable, last: HpackForms.Form)
    requires last == HpackForms.LiteralField(HpackForms.Incremental, HpackForms.ByIndex(1), HpackForms.Plain(Host()))
    ensures var forms := [HpackForms.Indexed(2), HpackForms.Indexed(6), HpackForms.Indexed(4), last];
            var authority := Field(Ascii(":authority"), Host());
            && HpackForms.WriteForms(forms) == [0x82, 0x86, 0x84, 0x41, 0x0F] + Host()
            && HpackForms.Amounts(HpackTables.Shared(), dyn, forms)
               == HpackForms.Sense([HpackTables.Static(":method", "GET"), HpackTables.Static(":scheme", "http"),
                                    HpackTables.Static(":path", "/"), authority], [authority], dyn, false)
  {
    hide Host, Ascii, HpackTables.Shared, HpackForms.WriteForm, HpackForms.WriteForms, HpackForms.Stands,
      HpackForms.Amounts, HpackTables.Static;
    NoMore(dyn);
    AuthorityIs(dyn, last);
    OneMore(dyn, last, []);
    var one := [last] + [];
    IndexedIs(dyn, 4);
    OneMore(dyn, HpackForms.Indexed(4), one);
    var two := [HpackForms.Indexed(4)] + one;
    IndexedIs(dyn, 6);
    OneMore(dyn, HpackForms.Indexed(6), two);
    var three := [HpackForms.Indexed(6)] + two;
    IndexedIs(dyn, 2);
    OneMore(dyn, HpackForms.Indexed(2), three);
    var four := [HpackForms.Indexed(2)] + three;
    assert four == [HpackForms.Indexed(2), HpackForms.Indexed(6), HpackForms.Indexed(4), last];
    var authority := Field(Ascii(":authority"), Host());
    assert HpackForms.Amounts(HpackTables.Shared(), dyn, one) == HpackForms.Sense([authority], [authority], dyn, false);
  }

  // ---------------------------------------------------------------- RFC 7540

  /** Numbers are big-endian (section 4.1 of RFC 7540). */
  lemma BigEndian()
    ensures H2Frame.Be32(0x0102_0304) == [1, 2, 3, 4]
    ensures H2Frame.From32([1, 2, 3, 4]) == 0x0102_0304
  {
  }

  /** Length, type, flags and stream of the frames of sections 6.4 to 6.9. */
  lemma ResetAndSettings()
    ensures H2Frame.Build(H2Frame.RstStreamFrame(3, 5)) == [0, 0, 4, 3, 0, 0, 0, 0, 3, 0, 0, 0, 5]
    ensures H2Frame.Build(H2Frame.SettingsFrame([H2Frame.Setting(4, 65535)]))
            == [0, 0, 6, 4, 0, 0, 0, 0, 0, 0, 4, 0, 0, 255, 255]
    ensures H2Frame.Build(H2Frame.SettingsAck()) == [0, 0, 0, 4, 1, 0, 0, 0, 0]
  {
    assert H2Frame.SettingsPayload([H2Frame.Setting(4, 65535)]) == [0, 4, 0, 0, 255, 255] by {
      assert [H2Frame.Setting(4, 65535)][1..] == [];
      assert H2Frame.SettingsPayload([]) == [];
    }
  }

  lemma OneSetting(x: H2Frame.Setting, rest: seq<H2Frame.Setting>)
    ensures H2Frame.SettingsPayload([x] + rest) == H2Frame.SettingBytes(x) + H2Frame.SettingsPayload(rest)
  {
    assert ([x] + rest)[1..] == rest;
  }

  /** What a session says first: 100 streams, windows of 65535, header lists of 8192 bytes, and push. */
  lemma Hello()
    ensures H2Frame.SettingsPayload(H2Session.InitialSettings())
            == [0, 3, 0, 0, 0, 100] + [0, 4, 0, 0, 255, 255] + [0, 6, 0, 0, 32, 0] + [0, 2, 0, 0, 0, 1]
  {
    hide H2Frame.SettingsPayload;
    var xs := H2Session.InitialSettings();
    OneSetting(xs[0], xs[1..]);
    OneSetting(xs[1], xs[2..]);
    OneSetting(xs[2], xs[3..]);
    OneSetting(xs[3], []);
    assert xs == [xs[0]] + xs[1..] && xs[1..] == [xs[1]] + xs[2..] && xs[2..] == [xs[2]] + xs[3..];
    assert xs[3..] == [xs[3]] + [] && H2Frame.SettingsPayload([]) == [] by { NoSettings(); }
  }

  /** Both tables of a new session are empty and have room for 4096 bytes (section 6.5.2 of RFC 7540). */
  lemma NewTables(mode: H2Session.Mode, tb: Hpack.Tables, handler: HttpTypes.Request -> HttpTypes.Response)
    ensures var s := H2Session.NewSession(mode, tb, handler);
            s.dyn == s.encoder.dyn == DynTable([], 0, 4096)
  {
    hide H2Frame.SettingsPayload;
  }

  lemma NoSettings()
    ensures H2Frame.SettingsPayload([]) == []
  {
  }

  lemma PingFrame(data: seq<byte>)
    requires |data| == 8
    ensures H2Frame.Build(H2Frame.PingAck(data)) == [0, 0, 8, 6, 1, 0, 0, 0, 0] + data
  {
  }

  lemma GoawayExample()
    ensures H2Frame.Build(H2Frame.GoawayFrame(7, 1, [])) == [0, 0, 8, 7, 0, 0, 0, 0, 0, 0, 0, 0, 7, 0, 0, 0, 1]
  {
    assert H2Frame.GoawayFrame(7, 1, []).payload == [0, 0, 0, 7, 0, 0, 0, 1];
  }

  lemma UpdateExample()
    ensures H2Frame.Build(H2Frame.WindowUpdateFrame(1, 0x0102_0304)) == [0, 0, 4, 8, 0, 0, 0, 0, 1, 1, 2, 3, 4]
  {
  }

  /** A block in two frames and a body, as sections 6.1, 6.2 and 6.10 lay them out. */
  lemma StreamFrames()
    ensures var fs := H2Session.HeaderFrames(1, true, seq(16385, _ => 130), 16384);
            && |fs| == 2
            && H2Frame.Build(fs[0])[..9] == [0, 64, 0, 1, 1, 0, 0, 0, 1]
            && H2Frame.Build(fs[1]) == [0, 0, 1, 9, 4, 0, 0, 0, 1, 130]
    ensures H2Session.HeaderFrames(3, false, [130], 16384) == [H2Frame.Frame(1, 4, 3, [130])]
    ensures H2Session.DataFrames(3, true, [65], 16384) == [H2Frame.Frame(0, 1, 3, [65])]
  {
    var block: seq<byte> := seq(16385, _ => 130);
    assert block[16384..] == [130];
    var fs := H2Session.HeaderFrames(1, true, block, 16384);
    assert H2Frame.Build(fs[0])[..9] == H2Frame.HeaderBytes(fs[0]);
    assert [65][1..] == [];
  }

  // ---------------------------------------------------------------- RFC 9000

  /** Appendix A.1 of RFC 9000. */
  lemma ShortVarints()
    ensures Varint.Encode(15_293) == [0x7B, 0xBD] && Varint.Encode(37) == [0x25]
    ensures Varint.Encode(494_878_333) == [0x9D, 0x7F, 0x3E, 0x7D]
  {
  }

  lemma LongVarint()
    ensures Varint.Encode(151_288_809_941_952_652) == [0xC2, 0x19, 0x7C, 0x5E, 0xFF, 0x14, 0xE8, 0x8C]
  {
    var v := 151_288_809_941_952_652;
    assert v / 0x1_0000_0000 == 0x0219_7C5E && v % 0x1_0000_0000 == 0xFF14_E88C;
    LongHalves();
  }

  lemma LongHalves()
    ensures Varint.Wide(0x0219_7C5E, 0xFF14_E88C) == [0xC2, 0x19, 0x7C, 0x5E, 0xFF, 0x14, 0xE8, 0x8C]
  {
  }
}

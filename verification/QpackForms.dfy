/**
  The field-line representations src/http/qpack.cpp knows, written the way any peer may write them, and what its decoder
  makes of a section of them.
 */
module QpackForms {
  import opened Bytes
  import opened PrefixInt
  import opened DynamicTable
  import opened Qpack
  import Hpack
  import HpackForms
  import Huffman

  // ---------------------------------------------------------------- representations

  type Literal = HpackForms.Literal

  /** References to the static table, to the dynamic table, and lines with a name of their own. */
  datatype Form =
    | Static(index: nat)
    | Dynamic(index: nat)
    | Newest(index: nat)
    | NamedStatic(never: bool, index: nat, value: Literal)
    | NamedDynamic(never: bool, index: nat, value: Literal)
    | Named(never: bool, name: Literal, value: Literal)

  ghost predicate SizedForm(f: Form) {
    match f
    case Static(i) => i < WORD64
    case Dynamic(i) => i < WORD64
    case Newest(i) => i < 4
    case NamedStatic(_, i, value) => i < WORD64 && HpackForms.SizedLiteral(value)
    case NamedDynamic(_, i, value) => i < WORD64 && HpackForms.SizedLiteral(value)
    case Named(_, name, value) => HpackForms.SizedLiteral(name) && HpackForms.SizedLiteral(value)
  }

  function WriteForm(f: Form): seq<byte> {
    match f
    case Static(i) => EncodeInt(i, 64, 0xC0)
    case Dynamic(i) => EncodeInt(i, 32, 0xA0)
    case Newest(i) => EncodeInt(i, 16, 0x00)
    case NamedStatic(never, i, value) => EncodeInt(i, 16, if never then 0x70 else 0x50) + HpackForms.WriteLiteral(value)
    case NamedDynamic(never, i, value) => EncodeInt(i, 16, if never then 0x60 else 0x40)
      + HpackForms.WriteLiteral(value)
    case Named(never, name, value) =>
      [if never then 0x30 else 0x20] + HpackForms.WriteLiteral(name) + HpackForms.WriteLiteral(value)
  }

  function WriteForms(fs: seq<Form>): seq<byte> {
    if |fs| == 0 then [] else WriteForm(fs[0]) + WriteForms(fs[1..])
  }

  // ---------------------------------------------------------------- what they stand for

  /** A Huffman string that stands for nothing is no string, unless it is empty. */
  function TextOf(t: Huffman.Table, s: Literal): Option<seq<byte>> {
    var text := HpackForms.TextOf(t, s);
    if s.Coded? && text == [] && s.octets != [] then None else Some(text)
  }

  function At(entries: seq<Field>, index: int): Option<Field> {
    if 0 <= index < |entries| then Some(entries[index]) else None
  }

  function WithText(name: Option<seq<byte>>, value: Option<seq<byte>>): Option<Field> {
    if name.Some? && value.Some? then Some(Field(name.value, value.value)) else None
  }

  function NameOf(f: Option<Field>): Option<seq<byte>> {
    if f.Some? then Some(f.value.name) else None
  }

  /** The field a representation stands for: the base only shifts references of the second kind. */
  function Stands(tb: Tables, entries: seq<Field>, base: nat, f: Form): Option<Field> {
    match f
    case Static(i) => At(tb.fields, i)
    case Dynamic(i) => At(entries, (base + i) % WORD64)
    case Newest(i) => At(entries, i)
    case NamedStatic(_, i, value) => WithText(NameOf(At(tb.fields, i)), TextOf(tb.huffman, value))
    case NamedDynamic(_, i, value) => WithText(NameOf(At(entries, i)), TextOf(tb.huffman, value))
    case Named(_, name, value) => WithText(TextOf(tb.huffman, name), TextOf(tb.huffman, value))
  }

  /** The fields up to the first representation that stands for nothing. */
  function Amounts(tb: Tables, entries: seq<Field>, base: nat, fs: seq<Form>): seq<Field> {
    if |fs| == 0 || Stands(tb, entries, base, fs[0]).None? then []
    else [Stands(tb, entries, base, fs[0]).value] + Amounts(tb, entries, base, fs[1..])
  }

  // ---------------------------------------------------------------- reading them

  lemma LiteralReads(t: Huffman.Table, s: Literal, rest: seq<byte>)
    requires HpackForms.SizedLiteral(s)
    ensures var data := HpackForms.WriteLiteral(s) + rest;
            DecodeString(t, data)
            == match TextOf(t, s) case None => Hpack.Nothing case Some(text) => Hpack.Text(text, |data| - |rest|)
  {
    hide EncodeInt, DecodeInt, Huffman.Decode, Hpack.DecodeString;
    var mask := if s.Coded? then 0x80 else 0x00;
    var data := HpackForms.WriteLiteral(s) + rest;
    HpackForms.LiteralReads(t, s, rest);
    var head := EncodeInt(|s.octets|, 128, mask);
    assert data == head + (s.octets + rest);
    IntRoundTrip(|s.octets|, 128, mask, s.octets + rest);
    HpackForms.FirstByte(|s.octets|, 128, mask, s.octets + rest);
  }

  lemma ReferenceReads(fields: seq<Field>, base: nat, i: nat, span: Span, mask: byte, rest: seq<byte>)
    requires Mask(mask, span) && i < WORD64
    ensures var head := EncodeInt(i, span, mask);
            ReadIndexed(fields, base, head + rest, span)
            == match At(fields, (base + i) % WORD64) case None => Unread case Some(f) => Line(f, |head|)
  {
    hide EncodeInt, DecodeInt;
    IntRoundTrip(i, span, mask, rest);
  }

  lemma NamedReads(t: Huffman.Table, fields: seq<Field>, i: nat, mask: byte, value: Literal, rest: seq<byte>)
    requires Mask(mask, 16) && i < WORD64 && HpackForms.SizedLiteral(value)
    ensures var bytes := EncodeInt(i, 16, mask) + HpackForms.WriteLiteral(value);
            ReadNamed(t, fields, bytes + rest)
            == match WithText(NameOf(At(fields, i)),
              TextOf(t, value)) case None => Unread case Some(f) => Line(f, |bytes|)
  {
    hide EncodeInt, DecodeInt, DecodeString, HpackForms.WriteLiteral, TextOf;
    var head, tail := EncodeInt(i, 16, mask), HpackForms.WriteLiteral(value) + rest;
    var data := head + HpackForms.WriteLiteral(value) + rest;
    assert data == head + tail;
    IntRoundTrip(i, 16, mask, tail);
    assert data[|head|..] == tail;
    LiteralReads(t, value, rest);
  }

  lemma OwnNameReads(t: Huffman.Table, first: byte, name: Literal, value: Literal, rest: seq<byte>)
    requires HpackForms.SizedLiteral(name) && HpackForms.SizedLiteral(value)
    ensures var bytes := [first] + HpackForms.WriteLiteral(name) + HpackForms.WriteLiteral(value);
            ReadLiteral(t, bytes + rest)
            == match WithText(TextOf(t, name), TextOf(t, value)) case None => Unread case Some(f) => Line(f, |bytes|)
  {
    hide DecodeString, HpackForms.WriteLiteral, TextOf;
    var n, v := HpackForms.WriteLiteral(name), HpackForms.WriteLiteral(value);
    var data := [first] + n + v + rest;
    assert data[1..] == n + (v + rest);
    LiteralReads(t, name, v + rest);
    assert data[1 + |n|..] == v + rest;
    LiteralReads(t, value, rest);
  }

  /** What the decoder makes of one representation. */
  ghost predicate Reads(tb: Tables, dyn: Qpack.Dynamic, base: nat, f: Form, rest: seq<byte>) {
    DecodeLine(tb, dyn, base, WriteForm(f) + rest)
    == match Stands(tb, dyn.entries, base, f) case None => Unread case Some(field) => Line(field, |WriteForm(f)|)
  }

  lemma Small(i: nat)
    requires i < WORD64
    ensures (0 + i) % WORD64 == i
  {
  }

  lemma ReferencesRead(tb: Tables, dyn: Qpack.Dynamic, base: nat, f: Form, rest: seq<byte>)
    requires SizedForm(f) && (f.Static? || f.Dynamic? || f.Newest?)
    ensures Reads(tb, dyn, base, f, rest) && |WriteForm(f)| > 0
  {
    hide ReadIndexed, DecodeInt, EncodeInt;
    match f {
      case Static(i) =>
        HpackForms.FirstByte(i, 64, 0xC0, rest);
        ReferenceReads(tb.fields, 0, i, 64, 0xC0, rest);
        Small(i);
      case Dynamic(i) =>
        HpackForms.FirstByte(i, 32, 0xA0, rest);
        ReferenceReads(dyn.entries, base, i, 32, 0xA0, rest);
      case Newest(i) =>
        assert EncodeInt(i, 16, 0x00) == [i] by { FitsPrefix(i); }
        ReferenceReads(dyn.entries, 0, i, 16, 0x00, rest);
        Small(i);
    }
  }

  lemma FitsPrefix(i: nat)
    requires i < 4
    ensures EncodeInt(i, 16, 0x00) == [i]
  {
  }

  lemma NamesRead(tb: Tables, dyn: Qpack.Dynamic, base: nat, f: Form, rest: seq<byte>)
    requires SizedForm(f) && (f.NamedStatic? || f.NamedDynamic? || f.Named?)
    ensures Reads(tb, dyn, base, f, rest) && |WriteForm(f)| > 0
  {
    hide ReadNamed, ReadLiteral, DecodeInt, EncodeInt, HpackForms.WriteLiteral, TextOf;
    match f {
      case NamedStatic(never, i, value) =>
        var mask := if never then 0x70 else 0x50;
        HpackForms.FirstByte(i, 16, mask, HpackForms.WriteLiteral(value) + rest);
        assert WriteForm(f) + rest == EncodeInt(i, 16, mask) + (HpackForms.WriteLiteral(value) + rest);
        NamedReads(tb.huffman, tb.fields, i, mask, value, rest);
      case NamedDynamic(never, i, value) =>
        var mask := if never then 0x60 else 0x40;
        HpackForms.FirstByte(i, 16, mask, HpackForms.WriteLiteral(value) + rest);
        assert WriteForm(f) + rest == EncodeInt(i, 16, mask) + (HpackForms.WriteLiteral(value) + rest);
        NamedReads(tb.huffman, dyn.entries, i, mask, value, rest);
      case Named(never, name, value) =>
        OwnNameReads(tb.huffman, if never then 0x30 else 0x20, name, value, rest);
    }
  }

  /** One representation, whatever follows it. */
  lemma FormReads(tb: Tables, dyn: Qpack.Dynamic, base: nat, f: Form, rest: seq<byte>)
    requires SizedForm(f)
    ensures Reads(tb, dyn, base, f, rest) && |WriteForm(f)| > 0
  {
    hide Reads, WriteForm;
    match f
    case Static(_) => ReferencesRead(tb, dyn, base, f, rest);
    case Dynamic(_) => ReferencesRead(tb, dyn, base, f, rest);
    case Newest(_) => ReferencesRead(tb, dyn, base, f, rest);
    case NamedStatic(_, _, _) => NamesRead(tb, dyn, base, f, rest);
    case NamedDynamic(_, _, _) => NamesRead(tb, dyn, base, f, rest);
    case Named(_, _, _) => NamesRead(tb, dyn, base, f, rest);
  }

  /** The lines read are those that stand for something, up to the first that does not. */
  lemma {:induction false} LinesAmount(tb: Tables, dyn: Qpack.Dynamic, base: nat, fs: seq<Form>)
    requires forall f :: f in fs ==> SizedForm(f)
    ensures DecodeLines(tb, dyn, base, WriteForms(fs)) == Section(Amounts(tb, dyn.entries, base, fs), Hpack.Returned)
    decreases |fs|
  {
    hide WriteForm, DecodeLine, Stands;
    if |fs| == 0 {
      NoLine(tb, dyn, base);
    } else {
      var head, tail := WriteForm(fs[0]), WriteForms(fs[1..]);
      assert fs[0] in fs;
      FormReads(tb, dyn, base, fs[0], tail);
      assert (head + tail)[|head|..] == tail;
      if Stands(tb, dyn.entries, base, fs[0]).Some? {
        LinesAmount(tb, dyn, base, fs[1..]);
      }
    }
  }

  // ---------------------------------------------------------------- the section prefix

  /** How section 4.5.1.1 of RFC 9204 has a Required Insert Count encoded. */
  function EncodedCount(count: nat, maxTableSize: nat): nat
    requires maxTableSize >= 32
  {
    if count == 0 then 0 else count % (2 * (maxTableSize / 32)) + 1
  }

  /** The counts section 4.5.1.1 lets a decoder tell apart. */
  predicate Recoverable(count: nat, maxTableSize: nat, inserted: nat) {
    inserted < count + maxTableSize / 32 && count <= inserted + maxTableSize / 32
  }

  lemma SmallProduct(q: nat, d: nat, r: nat)
    requires d > 0 && r < d
    ensures (q * d + r) / d == q && (q * d + r) % d == r
  {
    DivideUnique(q * d + r, d, q, r);
  }

  /**
    A count within the window of max: the quotients by the window are the same, or max has the next one.
   */
  lemma Rounded(count: nat, max: nat, full: nat)
    requires full > 0 && count <= max < count + full
    ensures var r := max / full * full + count % full; r == if count / full == max / full then count else count + full
    ensures count / full == max / full || count / full + 1 == max / full
    ensures (max / full * full + count % full > max) <==> count / full != max / full
  {
    var q, p := count / full, max / full;
    assert count == q * full + count % full && max == p * full + max % full;
    if p < q {
      MultipleAtLeast(q - p, full);
      Distribute(q, p, full);
    } else if p >= q + 2 {
      MultipleAtLeast(p - q - 1, full);
      Distribute(p, q + 1, full);
      Distribute(q, 1, full);
    } else if p == q + 1 {
      Distribute(q, 1, full);
    }
  }

  lemma NoWrap64(x: nat)
    requires x < WORD64
    ensures x % WORD64 == x
  {
  }

  /** Every count section 4.5.1.1 lets a decoder tell apart is recovered; the decoder keeps it one higher. */
  lemma CountRecovered(count: nat, maxTableSize: nat, inserted: nat)
    requires maxTableSize >= 32 && count > 0 && Recoverable(count, maxTableSize, inserted)
    requires 2 * inserted + 4 * maxTableSize < WORD64
    ensures InsertCount(EncodedCount(count, maxTableSize), maxTableSize, inserted) == count + 1
  {
    var entries := maxTableSize / 32;
    var full, max := 2 * entries, inserted + entries;
    Rounded(count, max, full);
    var r := max / full * full + count % full;
    NoWrap64(r);
    NoWrap64(count + 1);
  }

  /** Without room for an entry a count is taken as it is, one lower where it goes beyond what was inserted. */
  lemma NoRoom(encoded: nat, maxTableSize: nat, inserted: nat)
    requires encoded > 0 && maxTableSize < 32 && inserted + encoded < WORD64
    ensures InsertCount(encoded, maxTableSize, inserted) == if encoded == 1 then inserted + 1
            else inserted + encoded - 1
  {
    NoWrap64(inserted + (encoded - 1));
    NoWrap64(if encoded == 1 then inserted + 1 else inserted + encoded - 1);
  }

  /** A section: its Required Insert Count, the Delta Base with its sign, and the lines. */
  function WriteSection(encoded: nat, negative: bool, delta: nat, fs: seq<Form>): seq<byte> {
    EncodeInt(encoded, 256, 0x00) + (EncodeInt(delta, 128, if negative then 0x80 else 0x00) + WriteForms(fs))
  }

  /** The base the lines are read with; section 4.5.1.2 of RFC 9204 has it one lower when the sign is negative. */
  function BaseOf(count: nat, negative: bool, delta: nat): int {
    if count == 0 then 0 else (if negative then count - delta else count + delta) % WORD64
  }

  lemma PrefixReads(tb: Tables, dyn: Qpack.Dynamic, maxTableSize: nat, encoded: nat, negative: bool, delta: nat,
      fs: seq<Form>)
    requires encoded < WORD64 && delta < WORD64
    ensures var count := if encoded == 0 then 0 else InsertCount(encoded, maxTableSize, dyn.insertCount);
            var base := if count == 0 then 0
                        else if negative then (count - 1 - delta) % WORD64 else (count - 1 + delta) % WORD64;
            DecodeSection(tb, dyn, maxTableSize, WriteSection(encoded, negative, delta, fs))
            == DecodeLines(tb, dyn, base, WriteForms(fs))
  {
    hide EncodeInt, DecodeInt, WriteForms, InsertCount, DecodeLines;
    var mask := if negative then 0x80 else 0x00;
    var a, b := EncodeInt(encoded, 256, 0x00), EncodeInt(delta, 128, mask);
    var data := WriteSection(encoded, negative, delta, fs);
    IntRoundTrip(encoded, 256, 0x00, b + WriteForms(fs));
    assert data[|a|..] == b + WriteForms(fs);
    IntRoundTrip(delta, 128, mask, WriteForms(fs));
    HpackForms.FirstByte(delta, 128, mask, WriteForms(fs));
    assert (b + WriteForms(fs))[|b|..] == WriteForms(fs);
  }

  /**
    Every section any peer may write is read as the fields its representations stand for, up to the first that is
    none.
   */
  lemma SectionAmounts(tb: Tables, dyn: Qpack.Dynamic, maxTableSize: nat, count: nat, negative: bool, delta: nat,
      fs: seq<Form>)
    requires (forall f :: f in fs ==> SizedForm(f)) && delta < WORD64
    requires maxTableSize >= 32 && 2 * dyn.insertCount + 4 * maxTableSize < WORD64
    requires count == 0 || Recoverable(count, maxTableSize, dyn.insertCount)
    ensures DecodeSection(tb, dyn, maxTableSize, WriteSection(EncodedCount(count, maxTableSize), negative, delta, fs))
            == Section(Amounts(tb, dyn.entries, BaseOf(count, negative, delta), fs), Hpack.Returned)
  {
    hide WriteSection, WriteForms, Amounts, InsertCount, DecodeSection, DecodeLines, SizedForm;
    var encoded := EncodedCount(count, maxTableSize);
    if count > 0 {
      CountRecovered(count, maxTableSize, dyn.insertCount);
    }
    PrefixReads(tb, dyn, maxTableSize, encoded, negative, delta, fs);
    LinesAmount(tb, dyn, BaseOf(count, negative, delta), fs);
  }

  /** The first bytes that begin no line. */
  lemma NoPattern(tb: Tables, dyn: Qpack.Dynamic, base: nat, data: seq<byte>)
    requires |data| > 0 && (data[0] / 16 in {8, 9, 1} || 4 <= data[0] < 16)
    ensures DecodeLine(tb, dyn, base, data) == Unread
  {
  }

  // ---------------------------------------------------------------- what the RFC says

  lemma NoSuchString(t: Huffman.Table, data: seq<byte>)
    requires |data| > 0 && |data| - 1 < data[0] < 127
    ensures DecodeString(t, data) == Hpack.Nothing
  {
    hide Huffman.Decode, Huffman.GivesUp;
    assert DecodeInt(data, 128) == Some(Decoded(data[0], 1));
  }

  /**
    A literal name as section 4.5.6 of RFC 9204 has it, its length in the last three bits of the first byte: the
    decoder skips that byte and takes the first letter of the name for a length, so no line with more letters than
    what follows is read.
   */
  lemma ShortNameRefused(tb: Tables, dyn: Qpack.Dynamic, base: nat, name: seq<byte>, rest: seq<byte>)
    requires 0 < |name| < 7 && |name + rest| - 1 < name[0] < 127
    ensures DecodeLine(tb, dyn, base, [0x20 + |name|] + (name + rest)) == Unread
  {
    hide DecodeString;
    var data := [0x20 + |name|] + (name + rest);
    assert data[1..] == name + rest;
    NoSuchString(tb.huffman, name + rest);
  }
}

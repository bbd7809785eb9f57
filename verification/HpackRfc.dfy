/**
  The header block decoder of src/http/hpack.cpp against the one RFC 7541 asks for. They differ in two ways: the
  dynamic indices start one too late, and insertions wait for the end of the block. Here is exactly when that shows.
 */
module HpackRfc {
  import opened Bytes
  import opened PrefixInt
  import opened DynamicTable
  import opened Hpack
  import opened TableOrder
  import Huffman

  // ---------------------------------------------------------------- the index space

  /** Section 2.3.3 of RFC 7541: the first dynamic entry follows the last static one. */
  function RfcIndexed(tb: Tables, dyn: DynTable, index: nat): Option<Field> {
    if index == 0 then None
    else if index < |tb.fields| then Some(tb.fields[index])
    else if index - |tb.fields| < |dyn.entries| then Some(dyn.entries[index - |tb.fields|])
    else None
  }

  /** An index means the same to both when it is static, beyond both ranges, or addresses equal neighbours. */
  predicate SameIndex(tb: Tables, dyn: DynTable, index: nat) {
    || index < |tb.fields| || index == 0
    || (var k := index - |tb.fields|;
        dyn.entries == [] || k > |dyn.entries| || (0 < k < |dyn.entries| && dyn.entries[k - 1] == dyn.entries[k]))
  }

  lemma IndexingAgrees(tb: Tables, dyn: DynTable, index: nat)
    ensures GetIndexed(tb, dyn, index) == RfcIndexed(tb, dyn, index) <==> SameIndex(tb, dyn, index)
  {
  }

  // ---------------------------------------------------------------- one representation

  /** The index the first representation of a block refers to, if any. */
  function Reference(data: seq<byte>): Option<nat>
    requires |data| > 0
  {
    var b := data[0];
    if 0x20 <= b < 0x40 then None
    else
      var index := DecodeInt(data, if b >= 0x80 then 128 else if b >= 0x40 then 64 else 16);
      if index.Some? && index.value.value > 0 then Some(index.value.value) else None
  }

  /** Two readings of one representation differ in nothing but the entry referred to. */
  lemma ReadingsCompared(a: Lookup, b: Lookup, t: Huffman.Table, data: seq<byte>)
    requires |data| > 0
    ensures var x, y := ReadAny(a, t, data), ReadAny(b, t, data);
            && (x != y ==> Reference(data).Some? && a(Reference(data).value) != b(Reference(data).value))
            && (x != y ==> !x.NewSize? && !y.NewSize?)
            && (x != y && Read(x) && Read(y) ==> x.Header? && y == x.(field := y.field))
            && (data[0] >= 0x80 && Reference(data).Some? ==>
              (x == y <==> a(Reference(data).value) == b(Reference(data).value)))
  {
    hide DecodeString, DecodeInt;
  }

  // ---------------------------------------------------------------- whole blocks

  /** The entries of an index: as the source looks them up, or as RFC 7541 does. */
  function View(rfc: bool, tb: Tables, dyn: DynTable): Lookup {
    if rfc then (i: nat) => RfcIndexed(tb, dyn, i) else Entries(tb, dyn)
  }

  /** A table after a representation that takes effect at once. */
  function AtOnce(dyn: DynTable, i: Item): DynTable {
    match i
    case Header(f, indexing, _) => if indexing then Insert(dyn, f) else dyn
    case NewSize(max, _) => Resize(dyn, max)
    case _ => dyn
  }

  /** The same, but insertions wait. */
  function Deferred(dyn: DynTable, i: Item): DynTable {
    if i.NewSize? then Resize(dyn, i.max) else dyn
  }

  /** The decoder that inserts at once, as section 3.2 of RFC 7541 asks for. */
  function DecodeNow(rfc: bool, tb: Tables, dyn: DynTable, data: seq<byte>, acc: seq<Field>): Decoding
    decreases |data|
  {
    if |data| == 0 then Decoding(acc, dyn, Returned)
    else
      var item := ReadAny(View(rfc, tb, dyn), tb.huffman, data);
      if !Read(item) then Decoding([], dyn, FateOf(item))
      else DecodeNow(rfc, tb, AtOnce(dyn, item), data[item.consumed..], if item.Header?
        then acc + [item.field] else acc)
  }

  /** Going through the block side by side, some representation reads differently in the two tables. */
  predicate Disturbed(rfc: bool, tb: Tables, mine: DynTable, theirs: DynTable, data: seq<byte>)
    decreases |data|
  {
    |data| > 0 &&
    var item := ReadItem(tb, mine, data);
    item != ReadAny(View(rfc, tb, theirs), tb.huffman, data)
    || (Read(item) && Disturbed(rfc, tb, Deferred(mine, item), AtOnce(theirs, item), data[item.consumed..]))
  }

  predicate SameResult(x: Decoding, y: Decoding) {
    x.headers == y.headers && x.fate == y.fate
  }

  /** The first representation this decoder refuses, if it comes to one. */
  function MineStops(tb: Tables, dyn: DynTable, data: seq<byte>): Option<Item>
    decreases |data|
  {
    if |data| == 0 then None
    else
      var item := ReadItem(tb, dyn, data);
      if !Read(item) then Some(item) else MineStops(tb, Deferred(dyn, item), data[item.consumed..])
  }

  /** The same for the decoder that inserts at once. */
  function TheirsStops(rfc: bool, tb: Tables, dyn: DynTable, data: seq<byte>): Option<Item>
    decreases |data|
  {
    if |data| == 0 then None
    else
      var item := ReadAny(View(rfc, tb, dyn), tb.huffman, data);
      if !Read(item) then Some(item) else TheirsStops(rfc, tb, AtOnce(dyn, item), data[item.consumed..])
  }

  /**
    A decoder either comes to the end and returns all it has read, or stops at a representation and returns nothing.
   */
  ghost predicate EndsWith(x: Decoding, stop: Option<Item>, acc: seq<Field>) {
    match stop
    case None => acc <= x.headers && x.fate == Returned
    case Some(item) => x.headers == [] && x.fate == FateOf(item) && !Read(item)
  }

  lemma {:induction false} MineEnds(tb: Tables, dyn: DynTable, data: seq<byte>, acc: seq<Field>, added: seq<Field>)
    ensures EndsWith(DecodeFrom(tb, dyn, data, acc, added), MineStops(tb, dyn, data), acc)
    decreases |data|
  {
    hide ReadItem, Resize, InsertAll;
    if |data| > 0 {
      match ReadItem(tb, dyn, data)
      case Header(f, indexing, n) => MineEnds(tb, dyn, data[n..], acc + [f], if indexing then added + [f] else added);
      case NewSize(max, n) => MineEnds(tb, Resize(dyn, max), data[n..], acc, added);
      case _ =>
    }
  }

  lemma {:induction false} TheirsEnds(rfc: bool, tb: Tables, dyn: DynTable, data: seq<byte>, acc: seq<Field>)
    ensures EndsWith(DecodeNow(rfc, tb, dyn, data, acc), TheirsStops(rfc, tb, dyn, data), acc)
    decreases |data|
  {
    hide ReadAny, AtOnce, View;
    if |data| > 0 {
      var item := ReadAny(View(rfc, tb, dyn), tb.huffman, data);
      if Read(item) {
        var more := if item.Header? then acc + [item.field] else acc;
        TheirsEnds(rfc, tb, AtOnce(dyn, item), data[item.consumed..], more);
      }
    }
  }

  /** Both sides come to a representation that they refuse in the same way. */
  predicate BothStop(rfc: bool, tb: Tables, mine: DynTable, theirs: DynTable, data: seq<byte>) {
    MineStops(tb, mine, data).Some? && MineStops(tb, mine, data) == TheirsStops(rfc, tb, theirs, data)
  }

  lemma StopsAlike(a: Item, b: Item)
    requires !Read(a) && !Read(b) && FateOf(a) == FateOf(b)
    ensures a == b
  {
  }

  /** After a representation that reads differently, only a common refusal gives the same result. */
  lemma PartedWays(rfc: bool, tb: Tables, mine: DynTable, theirs: DynTable, data: seq<byte>, acc: seq<Field>,
        added: seq<Field>)
    requires |data| > 0 && ReadItem(tb, mine, data) != ReadAny(View(rfc, tb, theirs), tb.huffman, data)
    ensures var x, y := DecodeFrom(tb, mine, data, acc, added), DecodeNow(rfc, tb, theirs, data, acc);
            SameResult(x, y) ==> BothStop(rfc, tb, mine, theirs, data)
  {
    hide ReadAny, Resize, InsertAll, View, AtOnce, DecodeFrom, DecodeNow;
    var a, b := ReadItem(tb, mine, data), ReadAny(View(rfc, tb, theirs), tb.huffman, data);
    var x, y := DecodeFrom(tb, mine, data, acc, added), DecodeNow(rfc, tb, theirs, data, acc);
    ReadingsCompared(Entries(tb, mine), View(rfc, tb, theirs), tb.huffman, data);
    MineEnds(tb, mine, data, acc, added);
    TheirsEnds(rfc, tb, theirs, data, acc);
    if a.Header? {
      MineFirst(tb, mine, data, acc, added);
    }
    if b.Header? {
      TheirsFirst(rfc, tb, theirs, data, acc);
    }
    var m, t := MineStops(tb, mine, data), TheirsStops(rfc, tb, theirs, data);
    assert m.None? ==> a.Header? && x.headers[|acc|] == a.field;
    assert t.None? ==> b.Header? && y.headers[|acc|] == b.field;
    if SameResult(x, y) && m.Some? && t.Some? {
      StopsAlike(m.value, t.value);
    }
  }

  lemma MineFirst(tb: Tables, dyn: DynTable, data: seq<byte>, acc: seq<Field>, added: seq<Field>)
    requires |data| > 0 && ReadItem(tb, dyn, data).Header?
    ensures MineStops(tb, dyn, data).None? ==>
              acc + [ReadItem(tb, dyn, data).field] <= DecodeFrom(tb, dyn, data, acc, added).headers
  {
    hide ReadItem, Resize, InsertAll;
    var a := ReadItem(tb, dyn, data);
    MineEnds(tb, dyn, data[a.consumed..], acc + [a.field], if a.indexing then added + [a.field] else added);
  }

  lemma TheirsFirst(rfc: bool, tb: Tables, dyn: DynTable, data: seq<byte>, acc: seq<Field>)
    requires |data| > 0 && ReadAny(View(rfc, tb, dyn), tb.huffman, data).Header?
    ensures TheirsStops(rfc, tb, dyn, data).None? ==>
              acc + [ReadAny(View(rfc, tb, dyn), tb.huffman, data).field] <= DecodeNow(rfc, tb, dyn, data, acc).headers
  {
    hide ReadAny, View, AtOnce;
    var b := ReadAny(View(rfc, tb, dyn), tb.huffman, data);
    TheirsEnds(rfc, tb, AtOnce(dyn, b), data[b.consumed..], acc + [b.field]);
  }

  lemma {:induction false} SideBySide(
      rfc: bool, tb: Tables, mine: DynTable, theirs: DynTable, data: seq<byte>, acc: seq<Field>, added: seq<Field>)
    ensures var x, y := DecodeFrom(tb, mine, data, acc, added), DecodeNow(rfc, tb, theirs, data, acc);
            if Disturbed(rfc, tb, mine, theirs, data) then SameResult(x, y) ==> BothStop(rfc, tb, mine, theirs, data)
            else SameResult(x, y)
    decreases |data|
  {
    hide ReadAny, Resize, InsertAll, View, Insert;
    if |data| > 0 {
      var item := ReadItem(tb, mine, data);
      if item != ReadAny(View(rfc, tb, theirs), tb.huffman, data) {
        PartedWays(rfc, tb, mine, theirs, data, acc, added);
      } else if item.Header? {
        SideBySide(rfc, tb, mine, AtOnce(theirs, item), data[item.consumed..], acc + [item.field],
                   if item.indexing then added + [item.field] else added);
      } else if item.NewSize? {
        SideBySide(rfc, tb, Resize(mine, item.max), AtOnce(theirs, item), data[item.consumed..], acc, added);
      }
    }
  }

  /**
    From the same table this decoder and one that inserts at once, with either index space, give the same header list
    if and only if no representation reads differently on the way, or both come to one that they refuse in the same way.
   */
  lemma ResultsAgree(rfc: bool, tb: Tables, dyn: DynTable, data: seq<byte>)
    ensures SameResult(DecodeBlock(tb, dyn, data), DecodeNow(rfc, tb, dyn, data, [])) <==>
              !Disturbed(rfc, tb, dyn, dyn, data) || BothStop(rfc, tb, dyn, dyn, data)
  {
    hide DecodeFrom, DecodeNow, Disturbed, MineStops, TheirsStops;
    SideBySide(rfc, tb, dyn, dyn, data, [], []);
    MineEnds(tb, dyn, data, [], []);
    TheirsEnds(rfc, tb, dyn, data, []);
  }

  /** Every reference of the block, read by this decoder, is to the static table. */
  predicate OnlyStatic(tb: Tables, dyn: DynTable, data: seq<byte>)
    decreases |data|
  {
    |data| > 0 ==>
      && (Reference(data).Some? ==> Reference(data).value < |tb.fields|)
      && (var item := ReadItem(tb, dyn, data);
        Read(item) ==> OnlyStatic(tb, Deferred(dyn, item), data[item.consumed..]))
  }

  /** A block without dynamic references is never disturbed, whatever the tables hold. */
  lemma {:induction false} StaticUndisturbed(rfc: bool, tb: Tables, mine: DynTable, theirs: DynTable, data: seq<byte>)
    requires OnlyStatic(tb, mine, data)
    ensures !Disturbed(rfc, tb, mine, theirs, data)
    decreases |data|
  {
    hide ReadAny, Resize, Insert, Reference;
    if |data| > 0 {
      var item := ReadItem(tb, mine, data);
      ReadingsCompared(Entries(tb, mine), View(rfc, tb, theirs), tb.huffman, data);
      if Read(item) {
        StaticUndisturbed(rfc, tb, Deferred(mine, item), AtOnce(theirs, item), data[item.consumed..]);
      }
    }
  }

  // ---------------------------------------------------------------- the tables afterwards

  lemma {:induction false} KeptTwice(entries: seq<Field>, a: nat, b: nat)
    requires b <= a
    ensures Kept(Kept(entries, a), b) == Kept(entries, b)
    decreases |entries|
  {
    if SizeOf(entries) > a {
      KeptTwice(entries[..|entries| - 1], a, b);
    }
  }

  lemma {:induction false} KeptBehind(f: Field, entries: seq<Field>, limit: nat)
    ensures Kept([f] + entries, limit) == if EntrySize(f) > limit then [] else [f] + Kept(entries, limit - EntrySize(f))
    decreases |entries|
  {
    var all := [f] + entries;
    SizeOfCons(f, entries);
    if SizeOf(all) > limit {
      if |entries| == 0 {
        assert all[..|all| - 1] == [];
        assert Kept([], limit) == [] && SizeOf(entries) == 0;
      } else {
        assert all[..|all| - 1] == [f] + entries[..|entries| - 1];
        KeptBehind(f, entries[..|entries| - 1], limit);
      }
    }
  }

  /** Shrinking a table after an insertion is inserting after the shrinking. */
  lemma ShrinkCommutes(d: DynTable, f: Field, max: nat)
    requires max <= d.max
    ensures Resize(Insert(d, f), max) == Insert(Resize(d, max), f)
  {
    hide Kept, SizeOf, EntrySize;
    var esz := EntrySize(f);
    assert Kept([], max) == [] by { KeptNothing(max); }
    assert SizeOf([]) == 0 by { KeptNothing(max); }
    if esz <= d.max {
      var front := Kept(d.entries, d.max - esz);
      KeptBehind(f, front, max);
      if esz <= max {
        KeptTwice(d.entries, d.max - esz, max - esz);
        KeptTwice(d.entries, max, max - esz);
      }
    }
  }

  lemma KeptNothing(max: nat)
    ensures Kept([], max) == [] && SizeOf([]) == 0
  {
  }

  lemma {:induction false} InsertAllSnoc(d: DynTable, fs: seq<Field>, f: Field)
    ensures InsertAll(d, fs + [f]) == Insert(InsertAll(d, fs), f)
    decreases |fs|
  {
    hide Insert;
    if |fs| > 0 {
      InsertAllSnoc(Insert(d, fs[0]), fs[1..], f);
      assert (fs + [f])[1..] == fs[1..] + [f];
    } else {
      assert fs + [f] == [f] && [f][1..] == [];
      assert InsertAll(Insert(d, f), []) == Insert(d, f);
    }
  }

  /** What the representations of a block do to a table, in order. */
  function OpsOf(tb: Tables, dyn: DynTable, data: seq<byte>): seq<TableOp>
    decreases |data|
  {
    if |data| == 0 then []
    else
      match ReadItem(tb, dyn, data)
      case Header(f, indexing, n) => (if indexing then [OpInsert(f)] else []) + OpsOf(tb, dyn, data[n..])
      case NewSize(max, n) => [OpResize(max)] + OpsOf(tb, Resize(dyn, max), data[n..])
      case _ => []
  }

  function Fields(inserts: seq<TableOp>): seq<Field>
    requires forall op :: op in inserts ==> op.OpInsert?
  {
    seq(|inserts|, i requires 0 <= i < |inserts| => (assert inserts[i] in inserts; inserts[i].f))
  }

  lemma {:induction false} InsertAllIsApply(d: DynTable, ops: seq<TableOp>, inserts: seq<TableOp>)
    requires forall op :: op in inserts ==> op.OpInsert?
    ensures InsertAll(Apply(d, ops), Fields(inserts)) == Apply(d, ops + inserts)
    decreases |inserts|
  {
    hide Insert, Apply, InsertAll;
    if |inserts| == 0 {
      assert ops + inserts == ops;
      NoneInserted(Apply(d, ops));
      assert Fields(inserts) == [];
    } else {
      var front, op := inserts[..|inserts| - 1], inserts[|inserts| - 1];
      assert op in inserts && forall x :: x in front ==> x in inserts;
      InsertAllIsApply(d, ops, front);
      assert ops + inserts == (ops + front) + [op];
      Snoc(d, ops + front, op);
      assert Fields(inserts) == Fields(front) + [op.f];
      InsertAllSnoc(Apply(d, ops), Fields(front), op.f);
    }
  }

  lemma MineAtEnd(d: DynTable, ops: seq<TableOp>)
    requires forall op :: op in Inserts(ops) ==> op.OpInsert?
    ensures InsertAll(Apply(d, Sizes(ops)), Fields(Inserts(ops))) == Apply(d, Late(ops))
  {
    hide InsertAll, Apply, Sizes, Inserts;
    InsertAllIsApply(d, Sizes(ops), Inserts(ops));
  }

  /**
    An undisturbed block that reads to its end: one table is what the operations make in order, the other with late
    inserts.
   */
  lemma {:induction false} TablesAre(rfc: bool, tb: Tables, d: DynTable, ops: seq<TableOp>, data: seq<byte>,
        acc: seq<Field>)
    requires forall op :: op in Inserts(ops) ==> op.OpInsert?
    requires MineStops(tb, Apply(d, Sizes(ops)), data).None?
    requires !Disturbed(rfc, tb, Apply(d, Sizes(ops)), Apply(d, ops), data)
    ensures var all := ops + OpsOf(tb, Apply(d, Sizes(ops)), data);
            && DecodeFrom(tb, Apply(d, Sizes(ops)), data, acc, Fields(Inserts(ops))).dyn == Apply(d, Late(all))
            && DecodeNow(rfc, tb, Apply(d, ops), data, acc).dyn == Apply(d, all)
    decreases |data|
  {
    hide ReadItem, ReadAny, Resize, InsertAll, View, Insert, Apply, Sizes, Inserts, Fields, Late;
    var mine := Apply(d, Sizes(ops));
    if |data| == 0 {
      assert ops + OpsOf(tb, mine, data) == ops;
      MineAtEnd(d, ops);
    } else {
      var item := ReadItem(tb, mine, data);
      var rest := OpsOf(tb, Deferred(mine, item), data[item.consumed..]);
      if item.NewSize? {
        OneMore(d, ops, OpResize(item.max));
        TablesAre(rfc, tb, d, ops + [OpResize(item.max)], data[item.consumed..], acc);
        assert (ops + [OpResize(item.max)]) + rest == ops + ([OpResize(item.max)] + rest);
      } else if item.indexing {
        OneMore(d, ops, OpInsert(item.field));
        TablesAre(rfc, tb, d, ops + [OpInsert(item.field)], data[item.consumed..], acc + [item.field]);
        assert (ops + [OpInsert(item.field)]) + rest == ops + ([OpInsert(item.field)] + rest);
      } else {
        TablesAre(rfc, tb, d, ops, data[item.consumed..], acc + [item.field]);
        assert [] + rest == rest;
      }
    }
  }

  /** One more operation, as either decoder keeps it. */
  lemma OneMore(d: DynTable, ops: seq<TableOp>, op: TableOp)
    requires forall x :: x in Inserts(ops) ==> x.OpInsert?
    ensures forall x :: x in Inserts(ops + [op]) ==> x.OpInsert?
    ensures op.OpInsert? ==> Fields(Inserts(ops + [op])) == Fields(Inserts(ops)) + [op.f]
    ensures op.OpResize? ==> Fields(Inserts(ops + [op])) == Fields(Inserts(ops))
    ensures op.OpInsert? ==>
              Apply(d, Sizes(ops + [op])) == Apply(d, Sizes(ops)) && Apply(d, ops + [op]) == Insert(Apply(d, ops), op.f)
    ensures op.OpResize? ==>
              Apply(d, Sizes(ops + [op])) == Resize(Apply(d, Sizes(ops)), op.max)
              && Apply(d, ops + [op]) == Resize(Apply(d, ops), op.max)
  {
    hide Resize, Insert, Apply, Sizes, Inserts;
    Snoc(d, ops, op);
    Snoc(d, Sizes(ops), op);
    var none: seq<TableOp> := [];
    assert Sizes(ops) + none == Sizes(ops) && Inserts(ops) + none == Inserts(ops);
  }

  lemma NoneInserted(d: DynTable)
    ensures InsertAll(d, []) == d
  {
  }

  lemma NothingDone(d: DynTable)
    ensures Apply(d, []) == d && Sizes([]) == [] && Inserts([]) == []
  {
  }

  /**
    An undisturbed block that reads to its end leaves this decoder with all entries of the other, and with the same
    table if and only if its entries would have had room all along.
   */
  lemma TablesAgree(rfc: bool, tb: Tables, dyn: DynTable, data: seq<byte>)
    requires MineStops(tb, dyn, data).None? && !Disturbed(rfc, tb, dyn, dyn, data)
    ensures var x, y := DecodeBlock(tb, dyn, data), DecodeNow(rfc, tb, dyn, data, []);
            y.dyn.entries <= x.dyn.entries && (x == y <==> Room(dyn, OpsOf(tb, dyn, data), |x.dyn.entries|))
  {
    hide DecodeFrom, DecodeNow, Disturbed, Room, Apply, Sizes, Inserts, OpsOf, MineStops;
    NothingDone(dyn);
    var none: seq<TableOp> := [];
    TablesAre(rfc, tb, dyn, none, data, []);
    assert none + OpsOf(tb, dyn, data) == OpsOf(tb, dyn, data);
    assert Fields(none) == [];
    LateExactly(dyn, OpsOf(tb, dyn, data));
    SideBySide(rfc, tb, dyn, dyn, data, [], []);
  }

  // ---------------------------------------------------------------- where they part

  /** An indexed field at the start of a block reads the same as in RFC 7541 exactly when its index means the same. */
  lemma FirstIndexed(tb: Tables, dyn: DynTable, data: seq<byte>)
    requires |data| > 0 && data[0] >= 0x80 && Reference(data).Some?
    ensures ReadItem(tb, dyn, data) == ReadAny(View(true, tb, dyn), tb.huffman, data) <==>
              SameIndex(tb, dyn, Reference(data).value)
  {
    hide ReadAny, GetIndexed, RfcIndexed, Reference, SameIndex;
    ReadingsCompared(Entries(tb, dyn), View(true, tb, dyn), tb.huffman, data);
    IndexingAgrees(tb, dyn, Reference(data).value);
  }

  /** A literal "a: b" to be inserted. */
  function Literal(): (r: seq<byte>)
    ensures |r| == 5
  {
    [0x40, 1, 97, 1, 98]
  }

  function AB(): Field {
    Field([97], [98])
  }

  lemma LiteralRead(get: Lookup, t: Huffman.Table, rest: seq<byte>)
    ensures ReadAny(get, t, Literal() + rest) == Header(AB(), true, 5)
  {
    hide Huffman.Decode;
    var data := Literal() + rest;
    assert data[1..][0] == 1 && data[1..][1..2] == [97];
    assert DecodeString(t, data[1..]) == Text([97], 2);
    assert data[3..][0] == 1 && data[3..][1..2] == [98];
    assert DecodeString(t, data[3..]) == Text([98], 2);
  }

  lemma IndexRead(get: Lookup, t: Huffman.Table, index: nat)
    requires 0 < index < 127
    ensures ReadAny(get, t, [0x80 + index]) == if get(index).None? then Bad else Header(get(index).value, false, 1)
  {
  }

  function Fresh(): DynTable {
    DynTable([], 0, 4096)
  }

  lemma InsertedAB()
    ensures Insert(Fresh(), AB()) == DynTable([AB()], 34, 4096)
  {
    hide Kept, SizeOf;
    assert Kept([], 4096 - 34) == [] && SizeOf([]) == 0 by { KeptNothing(4096 - 34); }
    SizeOfCons(AB(), []);
    assert [AB()] + [] == [AB()];
  }

  /** A literal with indexing and then index 62: RFC 7541 reads the field twice, this decoder refuses the block. */
  lemma InsertThenUse(tb: Tables)
    requires |tb.fields| == 62
    ensures DecodeBlock(tb, Fresh(), Literal() + [0xBE]) == Decoding([], Fresh(), Returned)
    ensures DecodeNow(true, tb, Fresh(), Literal() + [0xBE], [])
            == Decoding([AB(), AB()], DynTable([AB()], 34, 4096), Returned)
  {
    hide ReadAny, Insert, Literal, AB;
    var data := Literal() + [0xBE];
    assert data[5..] == [0xBE] && |data| == 6;
    LiteralRead(Entries(tb, Fresh()), tb.huffman, [0xBE]);
    LiteralRead(View(true, tb, Fresh()), tb.huffman, [0xBE]);
    InsertedAB();
    var after := DynTable([AB()], 34, 4096);
    IndexRead(Entries(tb, Fresh()), tb.huffman, 62);
    IndexRead(View(true, tb, after), tb.huffman, 62);
    assert [0xBE][1..] == [];
    assert DecodeNow(true, tb, after, [], [AB(), AB()]) == Decoding([AB(), AB()], after, Returned);
    assert [] + [AB()] + [AB()] == [AB(), AB()];
    assert DecodeNow(true, tb, after, [0xBE], [] + [AB()]) == Decoding([AB(), AB()], after, Returned);
    assert DecodeFrom(tb, Fresh(), [0xBE], [] + [AB()], [] + [AB()]) == Decoding([], Fresh(), Returned);
  }

  /** Index 63 alone, with two entries: this decoder answers with the first, RFC 7541 with the second. */
  lemma OffByOne(tb: Tables, dyn: DynTable)
    requires |tb.fields| == 62 && |dyn.entries| == 2
    ensures DecodeBlock(tb, dyn, [0xBF]).headers == [dyn.entries[0]]
    ensures DecodeNow(true, tb, dyn, [0xBF], []).headers == [dyn.entries[1]]
  {
    hide ReadAny;
    IndexRead(Entries(tb, dyn), tb.huffman, 63);
    IndexRead(View(true, tb, dyn), tb.huffman, 63);
    assert [0xBF][1..] == [];
    assert DecodeFrom(tb, dyn, [], [] + [dyn.entries[0]], []).headers == [dyn.entries[0]];
    assert DecodeNow(true, tb, dyn, [], [] + [dyn.entries[1]]).headers == [dyn.entries[1]];
  }

  lemma SizeRead(get: Lookup, t: Huffman.Table, max: nat, rest: seq<byte>)
    requires max < 31
    ensures ReadAny(get, t, [0x20 + max] + rest) == NewSize(max, 1)
  {
  }

  /**
    A literal with indexing, then limit 0 and limit 4096: at once the table ends empty, here it ends with the literal.
   */
  lemma InsertThenGrow(tb: Tables)
    ensures var data := Literal() + ([0x20] + EncodeInt(4096, 32, 0x20));
            && DecodeBlock(tb, Fresh(), data) == Decoding([AB()], DynTable([AB()], 34, 4096), Returned)
            && DecodeNow(true, tb, Fresh(), data, []) == Decoding([AB()], Fresh(), Returned)
  {
    hide ReadAny, Insert, Literal, AB, EncodeInt, Kept, SizeOf;
    var grow := EncodeInt(4096, 32, 0x20);
    var data := Literal() + ([0x20] + grow);
    assert data[5..] == [0x20] + grow && |data| > 5;
    assert ([0x20] + grow)[1..] == grow && grow + [] == grow && grow[|grow|..] == [];
    var zero := DynTable([], 0, 0);
    var after := DynTable([AB()], 34, 4096);
    LiteralRead(Entries(tb, Fresh()), tb.huffman, [0x20] + grow);
    LiteralRead(View(true, tb, Fresh()), tb.huffman, [0x20] + grow);
    InsertedAB();
    SizeRead(Entries(tb, Fresh()), tb.huffman, 0, grow);
    SizeRead(View(true, tb, after), tb.huffman, 0, grow);
    GrowRead(Entries(tb, zero), tb.huffman);
    GrowRead(View(true, tb, zero), tb.huffman);
    Resized();
    assert DecodeNow(true, tb, Fresh(), [], [AB()]) == Decoding([AB()], Fresh(), Returned);
    assert DecodeNow(true, tb, zero, grow, [AB()]) == Decoding([AB()], Fresh(), Returned);
    assert DecodeNow(true, tb, after, [0x20] + grow, [AB()]) == Decoding([AB()], Fresh(), Returned);
    assert [] + [AB()] == [AB()] && [AB()][1..] == [];
    assert InsertAll(after, []) == after;
    assert InsertAll(Fresh(), [AB()]) == after;
    assert DecodeFrom(tb, Fresh(), [], [AB()], [AB()]) == Decoding([AB()], after, Returned);
    assert DecodeFrom(tb, zero, grow, [AB()], [AB()]) == Decoding([AB()], after, Returned);
    assert DecodeFrom(tb, Fresh(), [0x20] + grow, [AB()], [AB()]) == Decoding([AB()], after, Returned);
  }

  lemma GrowRead(get: Lookup, t: Huffman.Table)
    ensures var grow := EncodeInt(4096, 32, 0x20); ReadAny(get, t, grow) == NewSize(4096, |grow|)
  {
    hide DecodeInt, ReadLiteral;
    var grow := EncodeInt(4096, 32, 0x20);
    IntRoundTrip(4096, 32, 0x20, []);
    assert grow + [] == grow;
    assert grow[0] == 0x3F;
  }

  lemma Resized()
    ensures Resize(Fresh(), 0) == DynTable([], 0, 0) && Resize(DynTable([], 0, 0), 4096) == Fresh()
    ensures Resize(DynTable([AB()], 34, 4096), 0) == DynTable([], 0, 0)
  {
    hide Kept, SizeOf;
    KeptNothing(0);
    KeptNothing(4096);
    KeptBehind(AB(), [], 0);
    assert [AB()] + [] == [AB()];
  }
}

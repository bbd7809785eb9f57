/**
  What it changes to insert into a dynamic table late. A table after inserts and resizes holds the newest entries that
  have had room all along; with all inserts after all resizes it holds as many or more, and exactly when they are the
  same is known.
 */
module TableOrder {
  import opened DynamicTable

  /** Every entry that ever was, newest first. */
  function Newest(d: DynTable, ops: seq<TableOp>): seq<Field> {
    if |ops| == 0 then d.entries
    else
      var before := Newest(d, ops[..|ops| - 1]);
      match ops[|ops| - 1]
      case OpInsert(f) => [f] + before
      case OpResize(_) => before
  }

  /** The limit in force. */
  function Limit(d: DynTable, ops: seq<TableOp>): nat {
    if |ops| == 0 then d.max
    else
      match ops[|ops| - 1]
      case OpInsert(_) => Limit(d, ops[..|ops| - 1])
      case OpResize(max) => max
  }

  /** The newest n entries have fitted the limit, as far as they were there, after every operation. */
  predicate Room(d: DynTable, ops: seq<TableOp>, n: nat) {
    if |ops| == 0 then n <= |d.entries|
    else
      var before := ops[..|ops| - 1];
      && n <= |Newest(d, ops)| && SizeOf(Newest(d, ops)[..n]) <= Limit(d, ops)
      && if ops[|ops| - 1].OpInsert? then n == 0 || Room(d, before, n - 1) else Room(d, before, n)
  }

  /** The operations of a kind, in order. */
  function Sizes(ops: seq<TableOp>): seq<TableOp> {
    if |ops| == 0 then []
    else Sizes(ops[..|ops| - 1]) + if ops[|ops| - 1].OpResize? then [ops[|ops| - 1]] else []
  }

  function Inserts(ops: seq<TableOp>): seq<TableOp> {
    if |ops| == 0 then []
    else Inserts(ops[..|ops| - 1]) + if ops[|ops| - 1].OpInsert? then [ops[|ops| - 1]] else []
  }

  /** The same operations with the inserts last. */
  function Late(ops: seq<TableOp>): seq<TableOp> {
    Sizes(ops) + Inserts(ops)
  }

  // ---------------------------------------------------------------- a table is what has had room

  lemma {:induction false} KeptExactly(entries: seq<Field>, limit: nat, n: nat)
    requires n <= |entries|
    ensures n <= |Kept(entries, limit)| <==> SizeOf(entries[..n]) <= limit
  {
    hide Kept;
    KeptIsLongest(entries, limit);
    var kept := Kept(entries, limit);
    if n <= |kept| {
      SizeOfPrefix(kept, n);
      assert kept[..n] == entries[..n];
    }
  }

  lemma Snoc(d: DynTable, before: seq<TableOp>, op: TableOp)
    ensures var ops := before + [op];
            && Newest(d, ops) == (if op.OpInsert? then [op.f] + Newest(d, before) else Newest(d, before))
            && Limit(d, ops) == (if op.OpInsert? then Limit(d, before) else op.max)
            && Apply(d, ops) == (if op.OpInsert? then Insert(Apply(d, before), op.f)
              else Resize(Apply(d, before), op.max))
            && Sizes(ops) == Sizes(before) + (if op.OpResize? then [op] else [])
            && Inserts(ops) == Inserts(before) + (if op.OpInsert? then [op] else [])
  {
    hide Insert, Resize;
    assert (before + [op])[..|before|] == before;
  }

  lemma RoomSnoc(d: DynTable, before: seq<TableOp>, op: TableOp, n: nat)
    ensures var ops := before + [op];
            Room(d, ops, n) <==>
              && n <= |Newest(d, ops)| && SizeOf(Newest(d, ops)[..n]) <= Limit(d, ops)
              && if op.OpInsert? then n == 0 || Room(d, before, n - 1) else Room(d, before, n)
  {
    hide Newest, Limit, SizeOf;
    assert (before + [op])[..|before|] == before;
  }

  /** The entries, their number and their size. */
  ghost predicate Holds(t: DynTable, d: DynTable, ops: seq<TableOp>) {
    && t.max == Limit(d, ops) && t.entries <= Newest(d, ops)
    && (ops != [] ==> t.size == SizeOf(t.entries))
    && forall n: nat :: Room(d, ops, n) <==> n <= |t.entries|
  }

  lemma ResizeHolds(d: DynTable, before: seq<TableOp>, max: nat)
    requires Holds(Apply(d, before), d, before)
    ensures Holds(Apply(d, before + [OpResize(max)]), d, before + [OpResize(max)])
  {
    hide Apply, Newest, Limit, Room, SizeOf, Kept;
    var ops, t := before + [OpResize(max)], Apply(d, before);
    Snoc(d, before, OpResize(max));
    KeptIsLongest(t.entries, max);
    forall n: nat ensures Room(d, ops, n) <==> n <= |Kept(t.entries, max)| {
      RoomSnoc(d, before, OpResize(max), n);
      if n <= |t.entries| {
        KeptExactly(t.entries, max, n);
        assert t.entries[..n] == Newest(d, ops)[..n];
      }
    }
  }

  lemma InsertHolds(d: DynTable, before: seq<TableOp>, f: Field)
    requires Holds(Apply(d, before), d, before)
    ensures Holds(Apply(d, before + [OpInsert(f)]), d, before + [OpInsert(f)])
  {
    hide Apply, Newest, Limit, Room, SizeOf, Kept, EntrySize;
    var ops, t := before + [OpInsert(f)], Apply(d, before);
    var t' := Insert(t, f);
    Snoc(d, before, OpInsert(f));
    assert SizeOf([]) == 0 by { NoSize(); }
    if EntrySize(f) <= t.max {
      KeptIsLongest(t.entries, t.max - EntrySize(f));
    }
    forall n: nat ensures Room(d, ops, n) <==> n <= |t'.entries| {
      RoomSnoc(d, before, OpInsert(f), n);
      if 0 < n <= |t.entries| + 1 {
        var newest := Newest(d, before)[..n - 1];
        assert Newest(d, ops)[..n] == [f] + newest;
        SizeOfCons(f, newest);
        assert newest == t.entries[..n - 1];
        if EntrySize(f) <= t.max {
          KeptExactly(t.entries, t.max - EntrySize(f), n - 1);
        }
      } else if n == 0 {
        assert Newest(d, ops)[..n] == [];
      }
    }
  }

  lemma NoSize()
    ensures SizeOf([]) == 0
  {
  }

  /** After any run of inserts and resizes a table holds exactly the newest entries that have had room all along. */
  lemma {:induction false} HoldsWhatHadRoom(d: DynTable, ops: seq<TableOp>)
    ensures Holds(Apply(d, ops), d, ops)
  {
    hide Holds;
    if |ops| == 0 {
      StartHolds(d);
      assert ops == [];
    } else {
      var before, op := ops[..|ops| - 1], ops[|ops| - 1];
      assert ops == before + [op];
      HoldsWhatHadRoom(d, before);
      match op
      case OpInsert(f) => InsertHolds(d, before, f);
      case OpResize(max) => ResizeHolds(d, before, max);
    }
  }

  lemma StartHolds(d: DynTable)
    ensures Holds(Apply(d, []), d, [])
  {
  }

  // ---------------------------------------------------------------- late inserts

  /** The entries and the limit at the end do not depend on the order of inserts among resizes. */
  lemma {:induction false} LateSame(d: DynTable, sizes: seq<TableOp>, inserts: seq<TableOp>, max: nat)
    requires forall op :: op in inserts ==> op.OpInsert?
    ensures Newest(d, (sizes + [OpResize(max)]) + inserts) == Newest(d, sizes + inserts)
    ensures Limit(d, (sizes + [OpResize(max)]) + inserts) == max
    ensures Limit(d, sizes + inserts) == Limit(d, sizes)
    decreases |inserts|
  {
    hide Apply, Insert, Resize;
    var more := sizes + [OpResize(max)];
    if |inserts| == 0 {
      assert more + inserts == more && sizes + inserts == sizes;
      Snoc(d, sizes, OpResize(max));
    } else {
      var front, op := inserts[..|inserts| - 1], inserts[|inserts| - 1];
      assert op in inserts;
      LateSame(d, sizes, front, max);
      assert more + inserts == (more + front) + [op] && sizes + inserts == (sizes + front) + [op];
      Snoc(d, more + front, op);
      Snoc(d, sizes + front, op);
    }
  }

  /** A resize moved in front of the inserts leaves them the room they had. */
  lemma {:induction false} RoomEarlier(d: DynTable, sizes: seq<TableOp>, inserts: seq<TableOp>, max: nat, n: nat)
    requires forall op :: op in inserts ==> op.OpInsert?
    requires Room(d, sizes + inserts, n) && n <= |Newest(d, sizes + inserts)|
             && SizeOf(Newest(d, sizes + inserts)[..n]) <= max
    ensures Room(d, (sizes + [OpResize(max)]) + inserts, n)
    decreases |inserts|
  {
    hide Newest, Limit, SizeOf, Room;
    var more := sizes + [OpResize(max)];
    LateSame(d, sizes, inserts, max);
    if |inserts| == 0 {
      assert more + inserts == more && sizes + inserts == sizes;
      RoomSnoc(d, sizes, OpResize(max), n);
    } else {
      var front, op := inserts[..|inserts| - 1], inserts[|inserts| - 1];
      assert op in inserts;
      assert more + inserts == (more + front) + [op] && sizes + inserts == (sizes + front) + [op];
      RoomSnoc(d, sizes + front, op, n);
      RoomSnoc(d, more + front, op, n);
      if n > 0 {
        Snoc(d, sizes + front, op);
        RoomCounts(d, sizes + front, n - 1);
        FewerFit(op.f, Newest(d, sizes + front), n);
        RoomEarlier(d, sizes, front, max, n - 1);
      }
    }
  }

  lemma RoomCounts(d: DynTable, ops: seq<TableOp>, n: nat)
    requires Room(d, ops, n)
    ensures n <= |Newest(d, ops)|
  {
  }

  lemma FewerFit(f: Field, entries: seq<Field>, n: nat)
    requires 0 < n <= |entries| + 1
    ensures SizeOf(entries[..n - 1]) <= SizeOf(([f] + entries)[..n])
  {
    hide SizeOf;
    assert ([f] + entries)[..n] == [f] + entries[..n - 1];
    SizeOfCons(f, entries[..n - 1]);
  }

  lemma {:induction false} InsertsOnly(ops: seq<TableOp>)
    ensures forall op :: op in Inserts(ops) ==> op.OpInsert?
  {
    if |ops| > 0 {
      InsertsOnly(ops[..|ops| - 1]);
    }
  }

  /** Late inserts find at least the room of timely ones; entries and limit come out the same. */
  lemma {:induction false} LateRoom(d: DynTable, ops: seq<TableOp>)
    ensures Newest(d, Late(ops)) == Newest(d, ops) && Limit(d, Late(ops)) == Limit(d, ops)
    ensures forall n: nat :: Room(d, ops, n) ==> Room(d, Late(ops), n)
  {
    hide Newest, Limit, SizeOf, Room, Apply, Sizes, Inserts;
    if |ops| == 0 {
      NoOps();
      assert ops == [] && Late(ops) == [];
    } else {
      var before, op := ops[..|ops| - 1], ops[|ops| - 1];
      assert ops == before + [op];
      LateRoom(d, before);
      InsertsOnly(before);
      var sizes, inserts := Sizes(before), Inserts(before);
      Snoc(d, before, op);
      if op.OpInsert? {
        assert Late(ops) == Late(before) + [op];
        Snoc(d, Late(before), op);
      } else {
        assert Late(ops) == (sizes + [op]) + inserts;
        LateSame(d, sizes, inserts, op.max);
      }
      forall n: nat | Room(d, ops, n) ensures Room(d, Late(ops), n) {
        RoomSnoc(d, before, op, n);
        if op.OpInsert? {
          RoomSnoc(d, Late(before), op, n);
        } else {
          RoomEarlier(d, sizes, inserts, op.max, n);
        }
      }
    }
  }

  lemma NoOps()
    ensures Sizes([]) == [] && Inserts([]) == []
  {
  }

  /**
    A table with late inserts holds everything the timely one does, and is the same table if and only if the entries
    it ends with would have had room all along.
   */
  lemma LateExactly(d: DynTable, ops: seq<TableOp>)
    ensures Apply(d, ops).entries <= Apply(d, Late(ops)).entries
    ensures Apply(d, Late(ops)) == Apply(d, ops) <==> Room(d, ops, |Apply(d, Late(ops)).entries|)
  {
    hide Newest, Limit, SizeOf, Room, Apply, Sizes, Inserts;
    HoldsWhatHadRoom(d, ops);
    HoldsWhatHadRoom(d, Late(ops));
    LateRoom(d, ops);
    var t, late := Apply(d, ops), Apply(d, Late(ops));
    assert |t.entries| <= |late.entries| by {
      assert Room(d, ops, |t.entries|);
    }
    assert t.entries == Newest(d, ops)[..|t.entries|] && late.entries == Newest(d, ops)[..|late.entries|];
    LateCount(ops);
    if ops == [] {
      assert Late(ops) == [];
    }
  }

  lemma {:induction false} LateCount(ops: seq<TableOp>)
    ensures |Late(ops)| == |ops|
  {
    if |ops| > 0 {
      LateCount(ops[..|ops| - 1]);
    }
  }
}

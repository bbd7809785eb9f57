/** The dynamic header tables of HPACK and QPACK (sections 4.1 to 4.4 of RFC 7541). */
module DynamicTable {
  import opened Bytes

  /** A header field: name and value as bytes. */
  datatype Field = Field(name: seq<byte>, value: seq<byte>)

  function EntrySize(f: Field): nat {
    |f.name| + |f.value| + 32
  }

  function SizeOf(entries: seq<Field>): nat {
    if |entries| == 0 then 0 else SizeOf(entries[..|entries| - 1]) + EntrySize(entries[|entries| - 1])
  }

  /** Entries newest first, their total size and the limit. */
  datatype DynTable = DynTable(entries: seq<Field>, size: nat, max: nat)

  ghost predicate Consistent(d: DynTable) {
    d.size == SizeOf(d.entries) && d.size <= d.max
  }

  /** Drops oldest entries until the rest fits the limit. */
  function Kept(entries: seq<Field>, limit: nat): seq<Field> {
    if SizeOf(entries) <= limit then entries
    else Kept(entries[..|entries| - 1], limit)
  }

  function Insert(d: DynTable, f: Field): DynTable {
    if EntrySize(f) > d.max then DynTable([], 0, d.max)
    else
      var entries := [f] + Kept(d.entries, d.max - EntrySize(f));
      DynTable(entries, SizeOf(entries), d.max)
  }

  function Resize(d: DynTable, max: nat): DynTable {
    DynTable(Kept(d.entries, max), SizeOf(Kept(d.entries, max)), max)
  }

  function InsertAll(d: DynTable, fs: seq<Field>): DynTable
    decreases |fs|
  {
    if |fs| == 0 then d else InsertAll(Insert(d, fs[0]), fs[1..])
  }

  lemma {:induction false} SizeOfCons(f: Field, entries: seq<Field>)
    ensures SizeOf([f] + entries) == EntrySize(f) + SizeOf(entries)
  {
    var all := [f] + entries;
    if |entries| == 0 {
      assert all[..0] == [];
      assert SizeOf(all) == SizeOf(all[..0]) + EntrySize(f);
    } else {
      SizeOfCons(f, entries[..|entries| - 1]);
      assert all[..|all| - 1] == [f] + entries[..|entries| - 1];
    }
  }

  lemma {:induction false} SizeOfPrefix(entries: seq<Field>, n: nat)
    requires n <= |entries|
    ensures SizeOf(entries[..n]) <= SizeOf(entries)
    ensures n < |entries| ==> SizeOf(entries[..n]) < SizeOf(entries)
    decreases |entries|
  {
    if n < |entries| {
      var front := entries[..|entries| - 1];
      SizeOfPrefix(front, n);
      assert front[..n] == entries[..n];
    } else {
      assert entries[..n] == entries;
    }
  }

  /** Greedy eviction keeps exactly the longest newest-first run that fits. */
  lemma {:induction false} KeptIsLongest(entries: seq<Field>, limit: nat)
    ensures Kept(entries, limit) <= entries
    ensures SizeOf(Kept(entries, limit)) <= limit
    ensures forall n :: |Kept(entries, limit)| < n <= |entries| ==> SizeOf(entries[..n]) > limit
    decreases |entries|
  {
    if SizeOf(entries) > limit {
      var front := entries[..|entries| - 1];
      KeptIsLongest(front, limit);
      forall n | |Kept(front, limit)| < n <= |entries| ensures SizeOf(entries[..n]) > limit {
        if n < |entries| {
          assert entries[..n] == front[..n];
        } else {
          assert entries[..n] == entries;
        }
      }
    }
  }

  /** Operations a peer can cause on a table. */
  datatype TableOp = OpInsert(f: Field) | OpResize(max: nat)

  function Apply(d: DynTable, ops: seq<TableOp>): DynTable {
    if |ops| == 0 then d
    else
      var d' := Apply(d, ops[..|ops| - 1]);
      match ops[|ops| - 1]
      case OpInsert(f) => Insert(d', f)
      case OpResize(max) => Resize(d', max)
  }

  /** Over every run of inserts and resizes the tracked size is the sum of the entry sizes and within the limit. */
  lemma {:induction false} RunKeepsSize(d: DynTable, ops: seq<TableOp>)
    requires Consistent(d)
    ensures Consistent(Apply(d, ops))
  {
    if |ops| > 0 {
      var d' := Apply(d, ops[..|ops| - 1]);
      RunKeepsSize(d, ops[..|ops| - 1]);
      match ops[|ops| - 1]
      case OpInsert(f) =>
        if EntrySize(f) <= d'.max {
          KeptIsLongest(d'.entries, d'.max - EntrySize(f));
          SizeOfCons(f, Kept(d'.entries, d'.max - EntrySize(f)));
        }
      case OpResize(max) => KeptIsLongest(d'.entries, max);
    }
  }

  lemma EvictStep(entries: seq<Field>, limit: int)
    requires |entries| > 0 && SizeOf(entries) > limit
    ensures limit >= 0 ==> Kept(entries, limit) == Kept(entries[..|entries| - 1], limit)
  {
  }

  /** The table object; `Qpack` tables differ only in counting insertions. */
  class HeaderTable {
    var entries: seq<Field>
    var currentSize: nat
    var maxSize: nat
    var insertCount: nat

    ghost predicate Valid()
      reads this
    {
      Consistent(View())
    }

    ghost function View(): DynTable
      reads this
    {
      DynTable(entries, currentSize, maxSize)
    }

    constructor (max: nat)
      ensures Valid() && View() == DynTable([], 0, max) && insertCount == 0
    {
      entries, currentSize, maxSize, insertCount := [], 0, max, 0;
    }

    method Evict()
      requires Valid()
      modifies this`entries, this`currentSize
      ensures Valid() && entries == if old(entries) == [] then [] else old(entries)[..|old(entries)| - 1]
    {
      if entries == [] {
        return;
      }
      SizeOfPrefix(entries, |entries| - 1);
      currentSize := currentSize - EntrySize(entries[|entries| - 1]);
      entries := entries[..|entries| - 1];
    }

    method Add(f: Field)
      requires Valid()
      modifies this
      ensures Valid() && View() == Insert(old(View()), f)
      ensures insertCount == old(insertCount) + 1
    {
      var esz := EntrySize(f);
      ghost var kept := if esz <= maxSize then Kept(entries, maxSize - esz) else [];
      while currentSize + esz > maxSize && entries != []
        invariant Valid() && maxSize == old(maxSize) && insertCount == old(insertCount)
        invariant esz <= maxSize ==> Kept(entries, maxSize - esz) == kept
        decreases |entries|
      {
        EvictStep(entries, maxSize - esz);
        Evict();
      }
      if esz <= maxSize {
        SizeOfCons(f, entries);
        entries := [f] + entries;
        currentSize := currentSize + esz;
      }
      insertCount := insertCount + 1;
    }

    method SetMax(max: nat)
      requires Valid()
      modifies this`entries, this`currentSize, this`maxSize
      ensures Valid() && View() == Resize(old(View()), max)
    {
      maxSize := max;
      while currentSize > maxSize && entries != []
        invariant maxSize == max && currentSize == SizeOf(entries)
        invariant Kept(entries, max) == Kept(old(entries), max)
        decreases |entries|
      {
        EvictStep(entries, max);
        SizeOfPrefix(entries, |entries| - 1);
        currentSize := currentSize - EntrySize(entries[|entries| - 1]);
        entries := entries[..|entries| - 1];
      }
    }
  }
}

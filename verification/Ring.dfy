/**
  The io_uring rings of src/io/io_uring_backend.cpp: 32-bit head and tail indices that wrap, slots
  addressed by masking, and the kernel as the other party. Ghost logs hold the unbounded history.
 */
module Ring {
  import opened Bytes

  const WORD := 0x1_0000_0000

  /** Ring sizes are powers of two, that is, divisors of 2^32; masking with size - 1 is the remainder. */
  type RingSize = n: nat | IsRingSize(n) witness 1

  predicate IsRingSize(n: nat) {
    0 < n <= 0x8000_0000 && WORD % n == 0
  }

  /** Unsigned 32-bit subtraction. */
  function Diff(a: nat, b: nat): (r: nat)
    ensures r < WORD
  {
    (a - b) % WORD
  }

  function Slot(index: nat, size: RingSize): (r: nat)
    ensures r < size
  {
    assert IsRingSize(size);
    index % size
  }

  // ---------------------------------------------------------------- index arithmetic

  /** The wrapped difference of two indices is the number of entries between them. */
  lemma DiffCounts(head: nat, tail: nat)
    requires head <= tail < head + WORD
    ensures Diff(tail % WORD, head % WORD) == tail - head
  {
  }

  lemma DiffBelow(head: nat, tail: nat, size: RingSize)
    requires head <= tail <= head + size
    ensures Diff(tail % WORD, head % WORD) == tail - head
  {
    assert IsRingSize(size);
    DiffCounts(head, tail);
  }

  lemma SameIndex(head: nat, tail: nat, size: RingSize)
    requires head <= tail <= head + size
    ensures head % WORD == tail % WORD <==> head == tail
  {
    assert IsRingSize(size);
  }

  lemma Advance(index: nat, n: nat)
    ensures (index % WORD + n) % WORD == (index + n) % WORD
  {
  }

  lemma RemainderOfSum(k: int, r: int, n: int)
    requires n > 0
    ensures (k * n + r) % n == r % n
  {
    Distribute(k, r / n, n);
    DivideUnique(k * n + r, n, k + r / n, r % n);
  }

  /** A wrapped index and the index itself address the same slot. */
  lemma SlotWraps(index: nat, size: RingSize)
    ensures Slot(index % WORD, size) == Slot(index, size)
  {
    assert IsRingSize(size);
    var m, q, r := WORD / size, index / WORD, index % WORD;
    assert WORD == m * size by { ExactDivision(WORD, size); }
    assert q * WORD == (q * m) * size by { Regroup(q, m, size); }
    RemainderOfSum(q * m, r, size);
  }

  lemma ExactDivision(a: nat, b: nat)
    requires b > 0 && a % b == 0
    ensures a == (a / b) * b
  {
  }

  lemma Regroup(q: int, m: int, n: int)
    ensures q * (m * n) == (q * m) * n
  {
  }

  /** Entries less than a full ring apart never share a slot. */
  lemma SlotsDiffer(a: nat, b: nat, size: RingSize)
    requires a < b < a + size
    ensures Slot(a, size) != Slot(b, size)
  {
    assert IsRingSize(size);
    var n := size;
    if a % n == b % n {
      var q := b / n - a / n;
      Distribute(b / n, a / n, n);
      assert b - a == q * n;
      if q >= 1 {
        MultipleAtLeast(q, n);
      } else {
        NotPositive(q, n);
      }
    }
  }

  lemma NotPositive(q: int, n: int)
    requires q <= 0 && n > 0
    ensures q * n <= 0
  {
  }

  // ---------------------------------------------------------------- submissions

  /** A submission entry; the zero value is what memset leaves. */
  datatype Sqe = Blank | Request(userData: nat)

  class SubmissionRing {
    const size: RingSize
    const sqes: array<Sqe>
    const indices: array<nat>
    var head: nat                // advanced by the kernel
    var tail: nat                // advanced by get_sqe
    ghost var log: seq<Sqe>      // every entry ever queued, as last filled in
    ghost var consumed: nat      // how many of them the kernel has taken
    ghost var handed: seq<Sqe>   // what the kernel saw when it took them

    ghost predicate Valid()
      reads this, sqes, indices
    {
      && sqes.Length == size && indices.Length == size && sqes != indices as object
      && consumed <= |log| <= consumed + size
      && head == consumed % WORD && tail == |log| % WORD
      && handed == log[..consumed]
      && forall k :: consumed <= k < |log| ==> indices[Slot(k, size)] == Slot(k, size) && sqes[Slot(k, size)] == log[k]
    }

    constructor (size: RingSize)
      ensures Valid() && log == [] && fresh(sqes) && fresh(indices) && this.size == size
    {
      this.size := size;
      sqes := new Sqe[size](_ => Blank);
      indices := new nat[size](_ => 0);
      head, tail := 0, 0;
      log, consumed, handed := [], 0, [];
    }

    /** The kernel takes the next n entries through the index array. */
    method KernelTakes(n: nat)
      requires Valid() && n <= |log| - consumed
      modifies this`head, this`consumed, this`handed
      ensures Valid() && log == old(log) && consumed == old(consumed) + n
    {
      hide Slot, IsRingSize;
      Advance(consumed, n);
      for i := 0 to n
        invariant consumed == old(consumed) + i && n <= |log| - old(consumed) && handed == log[..consumed]
        invariant forall k :: consumed <= k < |log| ==>
                    indices[Slot(k, size)] == Slot(k, size) && sqes[Slot(k, size)] == log[k]
      {
        var slot := indices[Slot(consumed, size)];
        handed := handed + [sqes[slot]];
        assert log[..consumed + 1] == log[..consumed] + [log[consumed]];
        consumed := consumed + 1;
      }
      head := (head + n) % WORD;
    }

    /** submit_sqes: ask the kernel for exactly what is queued; it takes some of it. */
    method SubmitSqes(kernelTakes: nat) returns (toSubmit: nat)
      requires Valid()
      modifies this`head, this`consumed, this`handed
      ensures Valid() && log == old(log) && toSubmit == |log| - old(consumed)
      ensures consumed == old(consumed) + Min(kernelTakes, toSubmit)
    {
      hide Slot, IsRingSize, Diff;
      DiffBelow(consumed, |log|, size);
      toSubmit := Diff(tail, head);
      if toSubmit > 0 {
        KernelTakes(Min(kernelTakes, toSubmit));
      }
    }

    /**
      get_sqe: a blank slot holding no entry the kernel has yet to take, or nothing when the ring
      is still full after submitting.
     */
    method GetSqe(kernelTakes: nat) returns (slot: Option<nat>)
      requires Valid()
      modifies this, sqes, indices
      ensures Valid()
      ensures slot.None? ==> log == old(log) && consumed == old(consumed) && |log| - consumed == size
      ensures slot.Some? ==>
                && log == old(log) + [Blank] && old(consumed) <= consumed && slot.value == Slot(|old(log)|, size)
                && forall k :: consumed <= k < |old(log)| ==> Slot(k, size) != slot.value
    {
      hide Slot, IsRingSize, Diff;
      DiffBelow(consumed, |log|, size);
      if Diff(tail, head) >= size {
        var _ := SubmitSqes(kernelTakes);
        DiffBelow(consumed, |log|, size);
        if Diff(tail, head) >= size {
          return None;
        }
      }
      var index := Slot(tail, size);
      SlotWraps(|log|, size);
      forall k | consumed <= k < |log| ensures Slot(k, size) != index {
        SlotsDiffer(k, |log|, size);
      }
      Advance(|log|, 1);
      sqes[index] := Blank;
      indices[index] := index;
      tail := (tail + 1) % WORD;
      log := log + [Blank];
      slot := Some(index);
    }

    /** The caller fills in the entry it was given. */
    method Fill(slot: nat, userData: nat)
      requires Valid() && consumed < |log| && slot == Slot(|log| - 1, size)
      modifies this`log, sqes
      ensures Valid() && log == old(log)[..|old(log)| - 1] + [Request(userData)]
    {
      hide Slot, IsRingSize;
      ghost var last := |log| - 1;
      forall k | consumed <= k < last ensures Slot(k, size) != slot {
        SlotsDiffer(k, last, size);
      }
      sqes[slot] := Request(userData);
      log := log[..last] + [Request(userData)];
    }
  }

  // ---------------------------------------------------------------- completions

  /** Completions: timeouts, the wake-up descriptor, none (a null context), or a context to resume. */
  datatype Cqe = Timeout | Wakeup | NoContext | Completed(ctx: nat)

  /** The contexts to resume, in the order of their completions. */
  function Contexts(cs: seq<Cqe>): seq<nat> {
    if |cs| == 0 then []
    else Contexts(cs[..|cs| - 1]) + if cs[|cs| - 1].Completed? then [cs[|cs| - 1].ctx] else []
  }

  lemma NoContexts(cs: seq<Cqe>)
    requires cs == []
    ensures Contexts(cs) == []
  {
  }

  lemma OneMoreContext(all: seq<Cqe>, first: nat, n: nat)
    requires first <= n < |all|
    ensures Contexts(all[first..n + 1]) == Contexts(all[first..n]) + if all[n].Completed? then [all[n].ctx] else []
  {
    assert all[first..n + 1][..n - first] == all[first..n];
  }

  class CompletionRing {
    const size: RingSize
    const cqes: array<Cqe>
    var head: nat                 // advanced by process_cqes
    var tail: nat                 // advanced by the kernel
    ghost var log: seq<Cqe>       // every completion ever posted
    ghost var reaped: nat         // how many of them are released

    ghost predicate Valid()
      reads this, cqes
    {
      && cqes.Length == size
      && reaped <= |log| <= reaped + size
      && head == reaped % WORD && tail == |log| % WORD
      && forall k :: reaped <= k < |log| ==> cqes[Slot(k, size)] == log[k]
    }

    constructor (size: RingSize)
      ensures Valid() && log == [] && fresh(cqes) && this.size == size
    {
      this.size := size;
      cqes := new Cqe[size](_ => NoContext);
      head, tail := 0, 0;
      log, reaped := [], 0;
    }

    /** The kernel posts a completion into a released slot; it never posts into a full ring. */
    method KernelPosts(c: Cqe)
      requires Valid() && |log| < reaped + size
      modifies this`tail, this`log, cqes
      ensures Valid() && log == old(log) + [c]
    {
      hide Slot, IsRingSize;
      SlotWraps(|log|, size);
      Advance(|log|, 1);
      forall k | reaped <= k < |log| ensures Slot(k, size) != Slot(tail, size) {
        SlotsDiffer(k, |log|, size);
      }
      cqes[Slot(tail, size)] := c;
      tail := (tail + 1) % WORD;
      log := log + [c];
    }

    /** More completions while the loop runs, as far as there is room. */
    method KernelPostsAll(cs: seq<Cqe>)
      requires Valid()
      modifies this`tail, this`log, cqes
      ensures Valid() && old(log) <= log
    {
      hide Slot, IsRingSize, Diff;
      for i := 0 to |cs|
        invariant Valid() && old(log) <= log
      {
        DiffBelow(reaped, |log|, size);
        if Diff(tail, head) < size {
          KernelPosts(cs[i]);
        }
      }
    }

    /**
      process_cqes: visits each completion between head and tail once, in order, and releases exactly
      those, whatever the kernel posts meanwhile.
     */
    method ProcessCqes(meanwhile: seq<seq<Cqe>>) returns (toResume: seq<nat>)
      requires Valid()
      modifies this, cqes
      ensures Valid() && old(log) <= log && reaped == |old(log)|
      ensures toResume == Contexts(old(log)[old(reaped)..])
    {
      hide Slot, IsRingSize, Diff, Contexts;
      toResume := [];
      var h, t := head, tail;
      ghost var first, last, all := reaped, |log|, log;
      ghost var n := first;
      var step := 0;
      assert Contexts(all[first..first]) == [] by { NoContexts(all[first..first]); }
      while h != t
        invariant Valid() && first == reaped == old(reaped) && all <= log && last == |all|
        invariant n == first + step <= last && h == n % WORD && t == last % WORD
        invariant toResume == Contexts(all[first..n])
        decreases last - n
      {
        SameIndex(n, last, size);
        SlotWraps(n, size);
        Advance(n, 1);
        var cqe := cqes[Slot(h, size)];
        assert cqe == all[n];
        OneMoreContext(all, first, n);
        match cqe {
          case Timeout =>
          case NoContext =>
          case Wakeup =>   // the source arms the wake-up poll again
          case Completed(ctx) => toResume := toResume + [ctx];
        }
        if step < |meanwhile| {
          KernelPostsAll(meanwhile[step]);
        }
        h := (h + 1) % WORD;
        n, step := n + 1, step + 1;
      }
      SameIndex(n, last, size);
      head := h;
      reaped := n;
      assert all[first..last] == all[first..];
    }
  }
}

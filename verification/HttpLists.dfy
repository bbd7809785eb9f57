/**
  What looking up and passing on headers means, said without the loops of include/async_net/http/types.hpp that do it.
 */
module HttpLists {
  import opened Bytes
  import opened DynamicTable
  import opened HttpTypes

  // ---------------------------------------------------------------- passing on

  /**
    The headers at these places, lower-cased: those whose lower-cased name is not skipped, once each, in order, no
    others.
   */
  ghost predicate LoweredAt(hdrs: seq<Field>, skip: set<seq<byte>>, out: seq<Field>, at: seq<nat>) {
    OnlyThose(hdrs, skip, out, at) && Increasing(at) && AllThose(hdrs, skip, at)
  }

  ghost predicate OnlyThose(hdrs: seq<Field>, skip: set<seq<byte>>, out: seq<Field>, at: seq<nat>) {
    && |at| == |out|
    && forall i :: 0 <= i < |at| ==>
         && at[i] < |hdrs| && Lower(hdrs[at[i]].name) !in skip
         && out[i] == Field(Lower(hdrs[at[i]].name), hdrs[at[i]].value)
  }

  ghost predicate Increasing(at: seq<nat>) {
    forall i, j :: 0 <= i < j < |at| ==> at[i] < at[j]
  }

  ghost predicate AllThose(hdrs: seq<Field>, skip: set<seq<byte>>, at: seq<nat>) {
    forall k :: 0 <= k < |hdrs| && Lower(hdrs[k].name) !in skip ==> k in at
  }

  ghost predicate Lowered(hdrs: seq<Field>, skip: set<seq<byte>>, out: seq<Field>) {
    exists at :: LoweredAt(hdrs, skip, out, at)
  }

  function Shifted(at: seq<nat>): seq<nat> {
    seq(|at|, i requires 0 <= i < |at| => at[i] + 1)
  }

  lemma InShifted(at: seq<nat>, k: nat)
    ensures k in at ==> k + 1 in Shifted(at)
  {
    if k in at {
      var i :| 0 <= i < |at| && at[i] == k;
      assert Shifted(at)[i] == k + 1;
    }
  }

  lemma {:induction false} ForwardedAt(hdrs: seq<Field>, skip: set<seq<byte>>) returns (at: seq<nat>)
    ensures LoweredAt(hdrs, skip, Forwarded(hdrs, skip), at)
    decreases |hdrs|
  {
    hide Lower, LoweredAt;
    if |hdrs| == 0 {
      at := [];
      NoneLowered(skip);
      assert hdrs == [];
    } else {
      var rest := ForwardedAt(hdrs[1..], skip);
      var tail := Forwarded(hdrs[1..], skip);
      assert hdrs == [hdrs[0]] + hdrs[1..];
      if Lower(hdrs[0].name) in skip {
        at := Shifted(rest);
        SkippedFirst(hdrs[0], hdrs[1..], skip, tail, rest);
      } else {
        at := [0] + Shifted(rest);
        KeptFirst(hdrs[0], hdrs[1..], skip, tail, rest);
      }
    }
  }

  lemma NoneLowered(skip: set<seq<byte>>)
    ensures LoweredAt([], skip, [], [])
  {
  }

  lemma SkippedFirst(f: Field, hdrs: seq<Field>, skip: set<seq<byte>>, out: seq<Field>, at: seq<nat>)
    requires LoweredAt(hdrs, skip, out, at) && Lower(f.name) in skip
    ensures LoweredAt([f] + hdrs, skip, out, Shifted(at))
  {
    hide Lower;
    var all := [f] + hdrs;
    forall k | 0 <= k < |all| && Lower(all[k].name) !in skip ensures k in Shifted(at) {
      InShifted(at, k - 1);
    }
  }

  lemma KeptFirst(f: Field, hdrs: seq<Field>, skip: set<seq<byte>>, out: seq<Field>, at: seq<nat>)
    requires LoweredAt(hdrs, skip, out, at) && Lower(f.name) !in skip
    ensures LoweredAt([f] + hdrs, skip, [Field(Lower(f.name), f.value)] + out, [0] + Shifted(at))
  {
    hide OnlyThose, Increasing, AllThose;
    KeptOnly(f, hdrs, skip, out, at);
    KeptIncreasing(at);
    KeptAll(f, hdrs, skip, at);
  }

  lemma KeptOnly(f: Field, hdrs: seq<Field>, skip: set<seq<byte>>, out: seq<Field>, at: seq<nat>)
    requires OnlyThose(hdrs, skip, out, at) && Lower(f.name) !in skip
    ensures OnlyThose([f] + hdrs, skip, [Field(Lower(f.name), f.value)] + out, [0] + Shifted(at))
  {
    hide Lower;
    var all, places := [f] + hdrs, [0] + Shifted(at);
    forall i | 0 < i < |places| ensures places[i] == at[i - 1] + 1 && all[places[i]] == hdrs[at[i - 1]] {
    }
  }

  lemma KeptIncreasing(at: seq<nat>)
    requires Increasing(at)
    ensures Increasing([0] + Shifted(at))
  {
  }

  lemma KeptAll(f: Field, hdrs: seq<Field>, skip: set<seq<byte>>, at: seq<nat>)
    requires AllThose(hdrs, skip, at)
    ensures AllThose([f] + hdrs, skip, [0] + Shifted(at))
  {
    hide Lower;
    var all, places := [f] + hdrs, [0] + Shifted(at);
    assert places[0] == 0;
    forall k | 0 < k < |all| && Lower(all[k].name) !in skip ensures k in places {
      InShifted(at, k - 1);
    }
  }

  /** Forwarding passes on exactly the headers it should. */
  lemma ForwardedLowers(hdrs: seq<Field>, skip: set<seq<byte>>)
    ensures Lowered(hdrs, skip, Forwarded(hdrs, skip))
  {
    hide LoweredAt, Forwarded;
    var at := ForwardedAt(hdrs, skip);
  }

  lemma SameLast(a: seq<nat>, b: seq<nat>)
    requires |a| > 0 && |b| > 0 && Increasing(a) && Increasing(b) && forall x :: x in a <==> x in b
    ensures a[|a| - 1] == b[|b| - 1]
  {
    assert a[|a| - 1] in b;
    assert b[|b| - 1] in a;
  }

  lemma HasMember(a: seq<nat>)
    ensures a != [] ==> exists x :: x in a
  {
    if a != [] {
      assert a[0] in a;
    }
  }

  lemma {:induction false} SameIncreasing(a: seq<nat>, b: seq<nat>)
    requires Increasing(a) && Increasing(b) && forall x :: x in a <==> x in b
    ensures a == b
    decreases |a|
  {
    HasMember(a);
    HasMember(b);
    if a != [] && b != [] {
      var m, n := |a| - 1, |b| - 1;
      SameLast(a, b);
      AllBefore(a);
      AllBefore(b);
      forall x ensures x in a[..m] <==> x in b[..n] {
        assert x in a <==> x in b;
      }
      SameIncreasing(a[..m], b[..n]);
      assert a == a[..m] + [a[m]] && b == b[..n] + [b[n]];
    }
  }

  lemma AllBefore(a: seq<nat>)
    requires |a| > 0 && Increasing(a)
    ensures Increasing(a[..|a| - 1])
    ensures forall x :: x in a[..|a| - 1] <==> x in a && x < a[|a| - 1]
  {
    forall x | x in a && x < a[|a| - 1] ensures x in a[..|a| - 1] {
      var i :| 0 <= i < |a| && a[i] == x;
      assert a[..|a| - 1][i] == x;
    }
  }

  /** There is only one such list. */
  lemma LoweredOnce(hdrs: seq<Field>, skip: set<seq<byte>>, a: seq<Field>, b: seq<Field>)
    requires Lowered(hdrs, skip, a) && Lowered(hdrs, skip, b)
    ensures a == b
  {
    hide Lower;
    var at :| LoweredAt(hdrs, skip, a, at);
    var bt :| LoweredAt(hdrs, skip, b, bt);
    forall x ensures x in at <==> x in bt {
    }
    SameIncreasing(at, bt);
  }

  // ---------------------------------------------------------------- looking up

  /** The value of the first header with this name, in any case. */
  ghost predicate FirstUnder(hdrs: seq<Field>, lowered: seq<byte>, value: Option<seq<byte>>) {
    match value
    case None => forall k :: 0 <= k < |hdrs| ==> Lower(hdrs[k].name) != lowered
    case Some(v) =>
      exists i :: 0 <= i < |hdrs| && Lower(hdrs[i].name) == lowered && hdrs[i].value == v
        && forall k :: 0 <= k < i ==> Lower(hdrs[k].name) != lowered
  }

  lemma {:induction false} GetIsFirst(hdrs: seq<Field>, name: seq<byte>)
    ensures FirstUnder(hdrs, Lower(name), Get(hdrs, name))
    decreases |hdrs|
  {
    hide Lower;
    if |hdrs| > 0 && Lower(hdrs[0].name) != Lower(name) {
      GetIsFirst(hdrs[1..], name);
      match Get(hdrs[1..], name)
      case None =>
        forall k | 0 <= k < |hdrs| ensures Lower(hdrs[k].name) != Lower(name) {
          assert k > 0 ==> hdrs[k] == hdrs[1..][k - 1];
        }
      case Some(v) =>
        var tail := hdrs[1..];
        var i :| 0 <= i < |tail| && Lower(tail[i].name) == Lower(name) && tail[i].value == v
          && forall k :: 0 <= k < i ==> Lower(tail[k].name) != Lower(name);
        assert hdrs[i + 1] == tail[i];
        forall k | 0 <= k < i + 1 ensures Lower(hdrs[k].name) != Lower(name) {
          assert k > 0 ==> hdrs[k] == tail[k - 1];
        }
    }
  }

  /** Only the letters change. */
  lemma LowerLetters()
    ensures Lower(Ascii("AZaz@[")) == Ascii("azaz@[")
    ensures forall b: byte :: LowerByte(b) - b == if Ascii("A")[0] <= b <= Ascii("Z")[0] then 97 - 65 else 0
  {
    var s := Ascii("AZaz@[");
    assert |s| == 6 && s[0] == 65 && s[1] == 90 && s[2] == 97 && s[3] == 122 && s[4] == 64 && s[5] == 91;
  }

  // ---------------------------------------------------------------- decimal numbers

  ghost predicate AllDigits(s: seq<byte>) {
    forall d :: d in s ==> 48 <= d <= 57
  }

  lemma {:induction false} DigitRunSnoc(s: seq<byte>, d: byte, acc: nat)
    requires AllDigits(s) && 48 <= d <= 57
    ensures DigitRun(s + [d], acc) == 10 * DigitRun(s, acc) + (d - 48)
    decreases |s|
  {
    if |s| == 0 {
      assert s + [d] == [d] && [d][1..] == [];
      assert DigitRun([d][1..], 10 * acc + (d - 48)) == 10 * acc + (d - 48);
    } else {
      assert s[0] in s && forall x :: x in s[1..] ==> x in s;
      assert (s + [d])[1..] == s[1..] + [d];
      DigitRunSnoc(s[1..], d, 10 * acc + (s[0] - 48));
    }
  }

  /** What decimal digits stand for: each place is worth ten times the next. */
  ghost function DecimalOf(s: seq<byte>): int {
    if |s| == 0 then 0 else 10 * DecimalOf(s[..|s| - 1]) + (s[|s| - 1] as int - 48)
  }

  /** A decimal number. */
  ghost predicate Denotes(s: seq<byte>, n: int) {
    AllDigits(s) && s != [] && DecimalOf(s) == n
  }

  /** A decimal number, which may be negative. */
  ghost predicate Writes(s: seq<byte>, n: int) {
    if n < 0 then s != [] && s[0] == 45 && Denotes(s[1..], -n) else Denotes(s, n)
  }

  /** The parser's reading of digits is what they stand for. */
  lemma {:induction false} DigitsMean(s: seq<byte>)
    requires AllDigits(s)
    ensures DigitRun(s, 0) == DecimalOf(s)
    decreases |s|
  {
    if |s| > 0 {
      var front, d := s[..|s| - 1], s[|s| - 1];
      assert forall x :: x in front ==> x in s;
      assert d in s && front + [d] == s;
      DigitsMean(front);
      DigitRunSnoc(front, d, 0);
    }
  }

  lemma {:induction false} DigitsRead(n: nat)
    ensures Denotes(Digits(n), n) && DigitRun(Digits(n), 0) == n
    decreases n
  {
    if n < 10 {
      assert Digits(n) == [48 + n] && [48 + n][..0] == [];
    } else {
      DigitsRead(n / 10);
      assert Digits(n)[..|Digits(n)| - 1] == Digits(n / 10);
    }
    DigitsMean(Digits(n));
  }

  lemma DecimalWrites(n: int)
    ensures Writes(Decimal(n), n)
  {
    hide Digits, Denotes;
    if n < 0 {
      DigitsRead(-n);
      assert Decimal(n)[1..] == Digits(-n);
    } else {
      DigitsRead(n);
    }
  }

  /** A number that fits an int is read back from its decimal form. */
  lemma WrittenIsRead(s: seq<byte>, n: int)
    requires Writes(s, n) && -0x8000_0000 <= n <= 0x7FFF_FFFF
    ensures StatusOf(s) == n
  {
    hide DigitRun, DecimalOf;
    if n < 0 {
      DigitsMean(s[1..]);
    } else {
      DigitsMean(s);
      assert s[0] in s;
    }
  }
}

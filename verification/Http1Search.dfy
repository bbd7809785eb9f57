/** The substring searches the HTTP/1.1 parser is made of. */
module Http1Search {
  import opened Bytes

  const CR: byte := 13
  const LF: byte := 10

  function Crlf(): seq<byte> {
    [CR, LF]
  }

  // ---------------------------------------------------------------- searching

  predicate Occurs(s: seq<byte>, p: seq<byte>, i: nat) {
    i + |p| <= |s| && s[i..i + |p|] == p
  }

  /** std::string::find: the first occurrence. */
  function Find(s: seq<byte>, p: seq<byte>): (r: Option<nat>)
    ensures r.Some? ==> r.value + |p| <= |s|
    decreases |s|
  {
    if |s| < |p| then None
    else if Occurs(s, p, 0) then Some(0)
    else
      match Find(s[1..], p)
      case None => None
      case Some(i) => Some(i + 1)
  }

  lemma OccursLater(s: seq<byte>, p: seq<byte>, i: nat)
    requires 1 <= i && |s| > 0
    ensures Occurs(s, p, i) <==> Occurs(s[1..], p, i - 1)
  {
    if i + |p| <= |s| {
      assert s[i..i + |p|] == s[1..][i - 1..i - 1 + |p|];
    }
  }

  /** It occurs there, and nowhere before. */
  lemma {:induction false} FindMeans(s: seq<byte>, p: seq<byte>)
    ensures Find(s, p).Some? ==>
              Occurs(s, p, Find(s, p).value) && forall i: nat :: i < Find(s, p).value ==> !Occurs(s, p, i)
    ensures Find(s, p).None? ==> forall i: nat :: !Occurs(s, p, i)
    decreases |s|
  {
    if |s| >= |p| && !Occurs(s, p, 0) {
      FindMeans(s[1..], p);
      forall i: nat | i >= 1 ensures Occurs(s, p, i) <==> Occurs(s[1..], p, i - 1) {
        OccursLater(s, p, i);
      }
    }
  }

  /** The first occurrence is the only place with that property. */
  lemma FindIs(s: seq<byte>, p: seq<byte>, k: nat)
    requires Occurs(s, p, k) && forall i: nat :: i < k ==> !Occurs(s, p, i)
    ensures Find(s, p) == Some(k)
  {
    hide Find;
    FindMeans(s, p);
  }

  lemma OccursPrefix(a: seq<byte>, b: seq<byte>, p: seq<byte>, i: nat)
    requires i + |p| <= |a|
    ensures Occurs(a + b, p, i) <==> Occurs(a, p, i)
  {
    assert (a + b)[i..i + |p|] == a[i..i + |p|];
  }

  /** What was found stays found, at the same place. */
  lemma FindStable(a: seq<byte>, b: seq<byte>, p: seq<byte>)
    requires Find(a, p).Some?
    ensures Find(a + b, p) == Find(a, p)
  {
    hide Find;
    var i := Find(a, p).value;
    FindMeans(a, p);
    forall j: nat | j <= i ensures Occurs(a + b, p, j) <==> Occurs(a, p, j) {
      OccursPrefix(a, b, p, j);
    }
    FindIs(a + b, p, i);
  }

  /** Nothing is found in a prefix that stops before the end of the first occurrence. */
  lemma FindPrefix(s: seq<byte>, p: seq<byte>, k: nat)
    requires Find(s, p).Some? && k < Find(s, p).value + |p| && k <= |s|
    ensures Find(s[..k], p).None?
  {
    hide Find;
    assert s[..k] + s[k..] == s;
    if Find(s[..k], p).Some? {
      FindStable(s[..k], s[k..], p);
    }
  }

  lemma FoundInPrefix(s: seq<byte>, p: seq<byte>, k: nat)
    requires Find(s, p).Some? && Find(s, p).value + |p| <= k <= |s|
    ensures Find(s[..k], p) == Find(s, p)
  {
    hide Find;
    var i := Find(s, p).value;
    assert s[..k] + s[k..] == s;
    FindMeans(s, p);
    forall j: nat | j <= i ensures Occurs(s[..k], p, j) <==> Occurs(s, p, j) {
      OccursPrefix(s[..k], s[k..], p, j);
    }
    FindIs(s[..k], p, i);
  }

  /** The first line break is behind the first line. */
  lemma FirstBreak(line: seq<byte>, rest: seq<byte>)
    requires forall i :: 0 <= i < |line| ==> line[i] != CR
    ensures Find(line + Crlf() + rest, Crlf()) == Some(|line|)
  {
    hide Find;
    var d := line + Crlf() + rest;
    assert d[|line|..|line| + 2] == Crlf();
    forall i: nat | i < |line| ensures !Occurs(d, Crlf(), i) {
      assert d[i] == line[i] && (i + 2 <= |d| ==> d[i..i + 2][0] == d[i]);
    }
    FindIs(d, Crlf(), |line|);
  }
}

/** Scope-key construction: the strings every other component uses as counter keys. */
module Keys {
  const NUL: char := '\0'

  // ---- decimal numerals -------------------------------------------------------------

  function Digit(d: nat): (c: char)
    requires d < 10
    ensures '0' <= c <= '9'
  {
    '0' + d as char
  }

  function Itoa(n: nat): (s: string)
    ensures s != "" && forall i :: 0 <= i < |s| ==> '0' <= s[i] <= '9'
  {
    if n < 10 then [Digit(n)] else Itoa(n / 10) + [Digit(n % 10)]
  }

  lemma {:induction false} ItoaInjective(a: nat, b: nat)
    requires Itoa(a) == Itoa(b)
    ensures a == b
  {
    var s, t := Itoa(a), Itoa(b);
    assert s[|s| - 1] == Digit(a % 10) && t[|t| - 1] == Digit(b % 10);
    assert a % 10 == b % 10;
    assert (a >= 10 <==> |s| > 1) && (b >= 10 <==> |t| > 1);
    if a >= 10 && b >= 10 {
      assert s[..|s| - 1] == Itoa(a / 10) && t[..|t| - 1] == Itoa(b / 10);
      ItoaInjective(a / 10, b / 10);
    }
  }

  // ---- splitting at delimiters ------------------------------------------------------

  /** A prefix free of the delimiter is determined by the joined string. */
  lemma SplitFirst(d: char, a: string, b: string, x: string, y: string)
    requires d !in a && d !in b && a + [d] + x == b + [d] + y
    ensures a == b && x == y
  {
    var s := a + [d] + x;
    assert s[|a|] == d && s[|b|] == d;
    assert forall i :: 0 <= i < |a| ==> s[i] == a[i];
    assert forall i :: 0 <= i < |b| ==> s[i] == b[i];
    assert |a| == |b|;
    assert s[..|a|] == a && (b + [d] + y)[..|b|] == b;
    assert s[|a| + 1..] == x && (b + [d] + y)[|b| + 1..] == y;
  }

  /** A suffix free of the delimiter is determined by the joined string. */
  lemma SplitLast(d: char, a: string, b: string, x: string, y: string)
    requires d !in x && d !in y && a + [d] + x == b + [d] + y
    ensures a == b && x == y
  {
    var s := a + [d] + x;
    assert s == b + [d] + y;
    assert s[|a|] == d && s[|b|] == d;
    assert forall i :: |a| < i < |s| ==> s[i] == x[i - |a| - 1];
    assert forall i :: |b| < i < |s| ==> s[i] == y[i - |b| - 1];
    assert |a| == |b|;
    assert s[..|a|] == a && (b + [d] + y)[..|b|] == b;
    assert s[|a| + 1..] == x && (b + [d] + y)[|b| + 1..] == y;
  }

  lemma PrefixCancel(p: string, x: string, y: string)
    requires p + x == p + y
    ensures x == y
  {
    assert (p + x)[|p|..] == x && (p + y)[|p|..] == y;
  }

  // ---- the firewall's own (flat) keys ------------------------------------------------

  /** Firewall.runKey: the owner is length-prefixed, so it may contain anything. */
  function FlatRunKey(owner: string, runID: string): string {
    if runID == "" then "" else "run:" + (Itoa(|owner|) + ([':'] + (owner + ([NUL] + runID))))
  }

  function FlatClientKey(client: string): string {
    "key:" + client
  }

  /** The flat run key is injective in (owner, run id), whatever bytes either contains. */
  lemma FlatRunKeyInjective(o1: string, r1: string, o2: string, r2: string)
    requires r1 != "" && r2 != "" && FlatRunKey(o1, r1) == FlatRunKey(o2, r2)
    ensures o1 == o2 && r1 == r2
  {
    var x, y := OwnerAndRun(o1, r1), OwnerAndRun(o2, r2);
    var n1, n2 := Itoa(|o1|), Itoa(|o2|);
    PrefixCancel("run:", n1 + ([':'] + x), n2 + ([':'] + y));
    assert n1 + [':'] + x == n1 + ([':'] + x) && n2 + [':'] + y == n2 + ([':'] + y);
    SplitFirst(':', n1, n2, x, y);
    ItoaInjective(|o1|, |o2|);
    assert x[..|o1|] == o1 && y[..|o2|] == o2;
    assert x[|o1| + 1..] == r1 && y[|o2| + 1..] == r2;
  }

  function OwnerAndRun(o: string, r: string): string {
    o + ([NUL] + r)
  }

  // ---- distinct keys -------------------------------------------------------------------------------------------

  ghost predicate Distinct(ks: seq<string>) {
    forall i, j :: 0 <= i < j < |ks| ==> ks[i] != ks[j]
  }

  lemma DistinctTail(ks: seq<string>)
    requires ks != [] && Distinct(ks)
    ensures Distinct(ks[1..]) && ks[0] !in ks[1..]
    ensures forall k :: k in ks <==> k == ks[0] || k in ks[1..]
  {
    assert forall i :: 0 <= i < |ks| - 1 ==> ks[1..][i] == ks[i + 1];
    forall k | k in ks
      ensures k == ks[0] || k in ks[1..]
    {
      var i :| 0 <= i < |ks| && ks[i] == k;
      assert i > 0 ==> ks[1..][i - 1] == k;
    }
  }

  lemma {:induction false} OccursOnce(ks: seq<string>, k: string)
    requires Distinct(ks)
    ensures multiset(ks)[k] == if k in ks then 1 else 0
  {
    if ks != [] {
      DistinctTail(ks);
      OccursOnce(ks[1..], k);
      assert ks == [ks[0]] + ks[1..];
    }
  }

  /** fall for each time k is listed. */
  function Falls(ks: seq<string>, k: string, fall: real): real {
    if ks == [] then 0.0 else Falls(ks[1..], k, fall) + if ks[0] == k then fall else 0.0
  }

  lemma {:induction false} FallsNonNegative(ks: seq<string>, k: string, fall: real)
    requires fall >= 0.0
    ensures Falls(ks, k, fall) >= 0.0
    ensures fall == 0.0 ==> Falls(ks, k, fall) == 0.0
  {
    if ks != [] {
      FallsNonNegative(ks[1..], k, fall);
    }
  }
}

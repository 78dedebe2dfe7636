/** Descending runs of values, as an external merge sort makes and merges them (hw03). */
module Runs {
  /** `data_type_t`, a 32-bit unsigned number. */
  type Data = x: int | 0 <= x < 0x1_0000_0000

  const DATA_MIN_VALUE: Data := 0

  predicate DataLess(a: Data, b: Data) {
    a < b
  }

  ghost predicate Descending(s: seq<Data>) {
    forall i, j :: 0 <= i < j < |s| ==> s[i] >= s[j]
  }

  ghost predicate AllDescending(runs: seq<seq<Data>>) {
    forall i :: 0 <= i < |runs| ==> Descending(runs[i])
  }

  /** The values of all runs together. */
  ghost function Values(runs: seq<seq<Data>>): (r: multiset<Data>) {
    if runs == [] then multiset{} else multiset(runs[0]) + Values(runs[1..])
  }

  /** The values a merge keeps: it never picks one that equals the minimum. */
  ghost function Kept(m: multiset<Data>): (r: multiset<Data>) {
    m[DATA_MIN_VALUE := 0]
  }

  function NonZero(s: seq<Data>): (r: seq<Data>)
    ensures multiset(r) == Kept(multiset(s))
    ensures forall x :: x in r <==> x in s && x != DATA_MIN_VALUE
  {
    if s == [] then []
    else
      assert s == [s[0]] + s[1..];
      if s[0] == DATA_MIN_VALUE then NonZero(s[1..]) else [s[0]] + NonZero(s[1..])
  }

  lemma ConsDescending(x: Data, t: seq<Data>)
    requires Descending(t) && forall y :: y in t ==> x >= y
    ensures Descending([x] + t)
  {
    var r := [x] + t;
    forall i, j | 0 <= i < j < |r| ensures r[i] >= r[j] {
      assert r[j] == t[j-1] && t[j-1] in t;
    }
  }

  lemma TailDescending(s: seq<Data>)
    requires Descending(s) && s != []
    ensures Descending(s[1..]) && s == [s[0]] + s[1..]
    ensures forall y :: y in s ==> s[0] >= y
  {
    forall i, j | 0 <= i < j < |s| - 1 ensures s[1..][i] >= s[1..][j] {
      assert s[1..][i] == s[i+1] && s[1..][j] == s[j+1];
    }
    forall y | y in s ensures s[0] >= y {
      var i :| 0 <= i < |s| && s[i] == y;
    }
  }

  function Insert(x: Data, s: seq<Data>): (r: seq<Data>)
    requires Descending(s)
    ensures Descending(r) && multiset(r) == multiset(s) + multiset{x}
    ensures forall y :: y in r ==> y == x || y in s
  {
    if s == [] then [x]
    else if x >= s[0] then
      TailDescending(s);
      ConsDescending(x, s);
      [x] + s
    else
      TailDescending(s);
      var t := Insert(x, s[1..]);
      ConsDescending(s[0], t);
      [s[0]] + t
  }

  /** The descending rearrangement of a sequence. */
  function SortDescending(s: seq<Data>): (r: seq<Data>)
    ensures Descending(r) && multiset(r) == multiset(s) && |r| == |s|
  {
    if s == [] then []
    else
      assert s == [s[0]] + s[1..];
      var r := Insert(s[0], SortDescending(s[1..]));
      assert |multiset(r)| == |multiset(s)|;
      r
  }

  /** There is only one descending sequence of given values. */
  lemma {:induction false} DescendingIsUnique(a: seq<Data>, b: seq<Data>)
    requires Descending(a) && Descending(b) && multiset(a) == multiset(b)
    ensures a == b
  {
    hide Descending;
    if a == [] {
      assert |multiset(b)| == |b|;
    } else {
      assert a[0] in multiset(b);
      TailDescending(a);
      TailDescending(b);
      SameHead(a, b);
      DescendingIsUnique(a[1..], b[1..]);
    }
  }

  lemma SameHead(a: seq<Data>, b: seq<Data>)
    requires a != [] && b != [] && multiset(a) == multiset(b)
    requires a == [a[0]] + a[1..] && b == [b[0]] + b[1..]
    requires forall y :: y in a ==> a[0] >= y
    requires forall y :: y in b ==> b[0] >= y
    ensures a[0] == b[0] && multiset(a[1..]) == multiset(b[1..])
  {
    assert a[0] in multiset(a) && b[0] in multiset(b);
    assert a[0] in b && b[0] in a;
    assert multiset(a[1..]) == multiset([a[0]] + a[1..]) - multiset{a[0]};
    assert multiset(b[1..]) == multiset([b[0]] + b[1..]) - multiset{b[0]};
  }

  lemma {:induction false} ValuesOfAppend(a: seq<seq<Data>>, b: seq<seq<Data>>)
    ensures Values(a + b) == Values(a) + Values(b)
  {
    if a == [] {
      assert a + b == b;
    } else {
      assert (a + b)[1..] == a[1..] + b;
      ValuesOfAppend(a[1..], b);
    }
  }

  /** Taking the first value of one run takes it out of the values. */
  lemma {:induction false} ValuesOfPop(runs: seq<seq<Data>>, i: nat)
    requires i < |runs| && runs[i] != []
    ensures Values(runs) == Values(runs[i := runs[i][1..]]) + multiset{runs[i][0]}
  {
    var popped := runs[i := runs[i][1..]];
    assert runs[i] == [runs[i][0]] + runs[i][1..];
    if i > 0 {
      ValuesOfPop(runs[1..], i - 1);
      assert popped[1..] == runs[1..][i-1 := runs[i][1..]];
    } else {
      assert popped[1..] == runs[1..];
    }
  }

  lemma {:induction false} ValueIsSomewhere(runs: seq<seq<Data>>, x: Data) returns (i: nat)
    requires x in Values(runs)
    ensures i < |runs| && x in runs[i]
  {
    if x in runs[0] {
      i := 0;
    } else {
      var k := ValueIsSomewhere(runs[1..], x);
      i := k + 1;
    }
  }

  lemma {:induction false} MemberIsValue(runs: seq<seq<Data>>, i: nat, x: Data)
    requires i < |runs| && x in runs[i]
    ensures x in Values(runs)
  {
    if i > 0 {
      MemberIsValue(runs[1..], i - 1, x);
    }
  }

  /** The total number of values left. */
  ghost function Total(runs: seq<seq<Data>>): (r: nat) {
    |Values(runs)|
  }

  lemma AppendDescending(s: seq<Data>, x: Data)
    requires Descending(s) && (s == [] || s[|s|-1] >= x)
    ensures Descending(s + [x])
  {
  }

  /** Moving a value other than the minimum from a run to the output keeps the kept values. */
  lemma KeptOfPop(runs: seq<seq<Data>>, i: nat)
    requires i < |runs| && runs[i] != [] && runs[i][0] != DATA_MIN_VALUE
    ensures Kept(Values(runs)) == Kept(Values(runs[i := runs[i][1..]])) + multiset{runs[i][0]}
    ensures Total(runs[i := runs[i][1..]]) < Total(runs)
  {
    ValuesOfPop(runs, i);
  }

  /** When no run has a value above the minimum in front, descending runs have nothing to keep. */
  lemma NothingLeft(runs: seq<seq<Data>>)
    requires AllDescending(runs)
    requires forall i :: 0 <= i < |runs| ==> runs[i] == [] || runs[i][0] == DATA_MIN_VALUE
    ensures Kept(Values(runs)) == multiset{}
  {
    forall x | x in Values(runs) ensures x == DATA_MIN_VALUE {
      var i := ValueIsSomewhere(runs, x);
      TailDescending(runs[i]);
    }
  }

  lemma PopStaysDescending(runs: seq<seq<Data>>, i: nat)
    requires AllDescending(runs) && i < |runs| && runs[i] != []
    ensures AllDescending(runs[i := runs[i][1..]])
    ensures forall y :: y in runs[i] ==> runs[i][0] >= y
  {
    TailDescending(runs[i]);
  }
}

/** The external merge sort (hw03/main.cpp). */
module ExternalSort {
  import opened Seqs
  import opened Runs
  import opened Ways

  const MAXWAYS: nat := 20

  /** The ways of a merge: slices of one buffer, one behind the other and all before `limit`, that
      have yet to deliver `rests`. */
  ghost predicate WaysHold(ways: seq<InputWay>, buf: array<Data>, rests: seq<seq<Data>>, w: nat, limit: nat)
    reads ways, buf
  {
    && |ways| == |rests| && w >= 1
    && (forall i :: 0 <= i < |ways| ==>
          && ways[i].buf == buf && ways[i].capacity == w && ways[i].base + w <= limit
          && ways[i].Valid() && ways[i].Rest() == rests[i])
    && (forall i, j :: 0 <= i < j < |ways| ==> ways[i].base + w <= ways[j].base)
  }

  /** A way is undisturbed by what happens outside its slice. */
  lemma InputOkStays(s: seq<Data>, t: seq<Data>, file: seq<Data>, base: nat, capacity: nat, pos: nat, size: nat, remain: nat)
    requires InputOk(s, file, base, capacity, pos, size, remain) && SameInside(s, t, base, capacity)
    ensures InputOk(t, file, base, capacity, pos, size, remain)
  {
    assert pos < size ==> t[base..base+size] == s[base..base+size];
  }

  /** Looks at the next value of way `i`. */
  method TopAt(ways: seq<InputWay>, buf: array<Data>, ghost rests: seq<seq<Data>>, ghost w: nat, ghost limit: nat, i: nat)
      returns (x: Data)
    requires WaysHold(ways, buf, rests, w, limit) && i < |ways|
    modifies ways, buf
    ensures WaysHold(ways, buf, rests, w, limit)
    ensures x == if rests[i] == [] then DATA_MIN_VALUE else rests[i][0]
    ensures SameInside(old(buf[..]), buf[..], limit, w)
  {
    ghost var s := buf[..];
    x := ways[i].Top();
    forall j | 0 <= j < |ways| && j != i ensures ways[j].Valid() && ways[j].Rest() == rests[j] {
      SlicesApart(s, buf[..], ways[i].base, w, ways[j].base, w);
      InputOkStays(s, buf[..], ways[j].file, ways[j].base, w, ways[j].pos, ways[j].size, ways[j].remain);
    }
    SlicesApart(s, buf[..], ways[i].base, w, limit, w);
  }

  /** Takes the next value of way `i`. */
  method GetAt(ways: seq<InputWay>, buf: array<Data>, ghost rests: seq<seq<Data>>, ghost w: nat, ghost limit: nat, i: nat)
      returns (x: Data)
    requires WaysHold(ways, buf, rests, w, limit) && i < |ways| && rests[i] != []
    modifies ways, buf
    ensures WaysHold(ways, buf, rests[i := rests[i][1..]], w, limit)
    ensures x == rests[i][0]
    ensures SameInside(old(buf[..]), buf[..], limit, w)
  {
    ghost var s := buf[..];
    x := ways[i].Get();
    forall j | 0 <= j < |ways| && j != i ensures ways[j].Valid() && ways[j].Rest() == rests[j] {
      SlicesApart(s, buf[..], ways[i].base, w, ways[j].base, w);
      InputOkStays(s, buf[..], ways[j].file, ways[j].base, w, ways[j].pos, ways[j].size, ways[j].remain);
    }
    SlicesApart(s, buf[..], ways[i].base, w, limit, w);
  }

  /** Puts a value into the output way, whose slice lies behind those of the input ways. */
  method PutOut(ways: seq<InputWay>, out: OutputWay, ghost rests: seq<seq<Data>>, ghost w: nat, x: Data)
    requires WaysHold(ways, out.buf, rests, w, out.base) && out.Valid()
    modifies out, out.buf
    ensures WaysHold(ways, out.buf, rests, w, out.base)
    ensures out.Valid() && out.Contents() == old(out.Contents()) + [x]
  {
    ghost var s := out.buf[..];
    out.Put(x);
    forall j | 0 <= j < |ways| ensures ways[j].Valid() && ways[j].Rest() == rests[j] {
      SlicesApart(s, out.buf[..], out.base, out.size, ways[j].base, w);
      InputOkStays(s, out.buf[..], ways[j].file, ways[j].base, w, ways[j].pos, ways[j].size, ways[j].remain);
    }
  }

  /** The value `max` is in front of way `best`, is above the minimum, and no way has a greater one;
      without a best way, no way has a value above the minimum in front. */
  ghost predicate IsMax(rests: seq<seq<Data>>, upto: nat, best: int, max: Data)
    requires upto <= |rests|
  {
    && -1 <= best < upto
    && (if best == -1 then max == DATA_MIN_VALUE
        else rests[best] != [] && rests[best][0] == max && max > DATA_MIN_VALUE)
    && (forall i :: 0 <= i < upto && rests[i] != [] ==> rests[i][0] <= max)
  }

  /** The loop that finds the greatest value in front of the ways. */
  method FindMax(ways: seq<InputWay>, buf: array<Data>, ghost rests: seq<seq<Data>>, ghost w: nat, ghost limit: nat)
      returns (best: int, max: Data)
    requires WaysHold(ways, buf, rests, w, limit) && limit + w <= buf.Length
    modifies ways, buf
    ensures WaysHold(ways, buf, rests, w, limit)
    ensures IsMax(rests, |rests|, best, max)
    ensures SameInside(old(buf[..]), buf[..], limit, w)
  {
    hide WaysHold;
    WaysCount(ways, buf, rests, w, limit);
    max := DATA_MIN_VALUE;
    best := -1;
    for i := 0 to |ways|
      invariant WaysHold(ways, buf, rests, w, limit)
      invariant IsMax(rests, i, best, max)
      invariant SameInside(old(buf[..]), buf[..], limit, w)
    {
      var xi := TopAt(ways, buf, rests, w, limit, i);
      var empty := EmptyAt(ways, buf, rests, w, limit, i);
      if !empty && DataLess(max, xi) {
        max := xi;
        best := i;
      }
    }
  }

  method EmptyAt(ways: seq<InputWay>, buf: array<Data>, ghost rests: seq<seq<Data>>, ghost w: nat, ghost limit: nat, i: nat)
      returns (e: bool)
    requires WaysHold(ways, buf, rests, w, limit) && i < |ways|
    ensures e <==> rests[i] == []
  {
    e := ways[i].Empty();
  }

  lemma WaysCount(ways: seq<InputWay>, buf: array<Data>, rests: seq<seq<Data>>, w: nat, limit: nat)
    requires WaysHold(ways, buf, rests, w, limit)
    ensures |ways| == |rests| && w >= 1
  {
  }

  /** Where the slice of way `i` begins. */
  function SliceStart(i: nat, w: nat): (r: nat) {
    i * w
  }

  lemma SliceStep(i: nat, k: nat, w: nat)
    requires i < k
    ensures SliceStart(i + 1, w) == SliceStart(i, w) + w <= SliceStart(k, w)
  {
    assert (k - i - 1) * w >= 0;
    assert k * w == (i + 1) * w + (k - i - 1) * w;
  }

  /** `d` slices of `n / d` places fit into `n` places. */
  lemma SlicesFit(n: nat, d: nat)
    requires 0 < d <= n
    ensures n / d >= 1 && SliceStart(d, n / d) <= n
  {
    assert n == d * (n / d) + n % d;
  }

  lemma MoreRoom(ways: seq<InputWay>, buf: array<Data>, rests: seq<seq<Data>>, w: nat, limit: nat,
                 way: InputWay, rest: seq<Data>)
    requires WaysHold(ways, buf, rests, w, limit)
    requires way.buf == buf && way.capacity == w && way.base == limit && way.Valid() && way.Rest() == rest
    ensures WaysHold(ways + [way], buf, rests + [rest], w, limit + w)
  {
  }

  /** Opens one more run as an input way, behind the slices of the others. */
  method OpenWay(ways: seq<InputWay>, buf: array<Data>, ghost rests: seq<seq<Data>>, w: nat, at: nat, file: seq<Data>)
      returns (way: InputWay)
    requires WaysHold(ways, buf, rests, w, at) && at + w <= buf.Length
    ensures fresh(way) && WaysHold(ways + [way], buf, rests + [file], w, at + w)
  {
    hide WaysHold;
    WaysCount(ways, buf, rests, w, at);
    way := new InputWay(file, buf, at, w);
    MoreRoom(ways, buf, rests, w, at, way, file);
  }

  /** Opens the first `k` runs as input ways, each with its own slice. */
  method OpenWays(inputs: seq<seq<Data>>, k: nat, buf: array<Data>, w: nat) returns (ways: seq<InputWay>)
    requires k <= |inputs| && w >= 1 && SliceStart(k, w) <= buf.Length
    ensures WaysHold(ways, buf, inputs[..k], w, SliceStart(k, w))
    ensures forall i :: 0 <= i < |ways| ==> fresh(ways[i])
  {
    hide WaysHold, SliceStart;
    ways := [];
    NoWays(buf, w);
    ghost var rests := [];
    for i := 0 to k
      invariant WaysHold(ways, buf, rests, w, SliceStart(i, w)) && rests == inputs[..i]
      invariant forall j :: 0 <= j < |ways| ==> fresh(ways[j])
    {
      SliceStep(i, k, w);
      var way := OpenWay(ways, buf, rests, w, SliceStart(i, w), inputs[i]);
      ways := ways + [way];
      rests := rests + [inputs[i]];
    }
  }

  lemma NoWays(buf: array<Data>, w: nat)
    requires w >= 1
    ensures WaysHold([], buf, [], w, SliceStart(0, w))
  {
  }

  /** What a merge has put out and has yet to take in, between two turns of its loop. */
  ghost predicate Merging(out: seq<Data>, rests: seq<seq<Data>>, values: multiset<Data>) {
    && Descending(out) && AllDescending(rests)
    && multiset(out) + Kept(Values(rests)) == values
    && (out != [] ==> forall i :: 0 <= i < |rests| && rests[i] != [] ==> rests[i][0] <= out[|out|-1])
  }

  lemma MergeTurn(out: seq<Data>, rests: seq<seq<Data>>, values: multiset<Data>, best: nat, x: Data)
    requires Merging(out, rests, values) && IsMax(rests, |rests|, best, x)
    ensures Merging(out + [x], rests[best := rests[best][1..]], values)
    ensures Total(rests[best := rests[best][1..]]) < Total(rests)
  {
    hide Descending, AllDescending, Values, Kept;
    AppendDescending(out, x);
    KeptOfPop(rests, best);
    PopStaysDescending(rests, best);
    assert rests[best][1..] != [] ==> rests[best][1..][0] in rests[best];
  }

  lemma MergeEnds(out: seq<Data>, rests: seq<seq<Data>>, values: multiset<Data>)
    requires Merging(out, rests, values) && IsMax(rests, |rests|, -1, DATA_MIN_VALUE)
    ensures Descending(out) && multiset(out) == values
  {
    NothingLeft(rests);
  }

  lemma MergeBegins(runs: seq<seq<Data>>)
    requires AllDescending(runs)
    ensures Merging([], runs, Kept(Values(runs)))
  {
  }

  /** The part of a slice that is in use is the same when the slice is. */
  lemma SliceSame(s: seq<Data>, t: seq<Data>, base: nat, n: nat, used: nat)
    requires SameInside(s, t, base, n) && used <= n && base + n <= |s|
    ensures s[base..base+used] == t[base..base+used]
  {
  }

  /** Moves the next value of way `best` to the output. */
  method MoveNext(ways: seq<InputWay>, out: OutputWay, ghost rests: seq<seq<Data>>, ghost w: nat, best: nat)
    requires WaysHold(ways, out.buf, rests, w, out.base) && out.Valid() && out.size == w
    requires best < |rests| && rests[best] != []
    modifies ways, out, out.buf
    ensures WaysHold(ways, out.buf, rests[best := rests[best][1..]], w, out.base) && out.Valid()
    ensures out.Contents() == old(out.Contents()) + [rests[best][0]]
  {
    hide WaysHold, SameInside;
    WaysCount(ways, out.buf, rests, w, out.base);
    ghost var s := out.buf[..];
    var x := GetAt(ways, out.buf, rests, w, out.base, best);
    SliceSame(s, out.buf[..], out.base, w, out.pos);
    PutOut(ways, out, rests[best := rests[best][1..]], w, x);
  }

  /** The loop of `merge`: the greatest value in front goes to the output until none is above the
      minimum. */
  method MergeWays(ways: seq<InputWay>, out: OutputWay, ghost runs: seq<seq<Data>>, ghost w: nat)
    requires WaysHold(ways, out.buf, runs, w, out.base) && AllDescending(runs)
    requires out.Valid() && out.size == w && out.Contents() == []
    modifies ways, out, out.buf
    ensures out.Valid() && Descending(out.Contents())
    ensures multiset(out.Contents()) == Kept(Values(runs))
  {
    hide WaysHold, Descending, AllDescending, Kept, SameInside, Merging, IsMax, Values, Total;
    ghost var rests := runs;
    MergeBegins(runs);
    while true
      invariant WaysHold(ways, out.buf, rests, w, out.base) && out.Valid()
      invariant Merging(out.Contents(), rests, Kept(Values(runs)))
      decreases Total(rests)
    {
      ghost var s, contents := out.buf[..], out.Contents();
      var best, max := FindMax(ways, out.buf, rests, w, out.base);
      SliceSame(s, out.buf[..], out.base, w, out.pos);
      assert out.Contents() == contents;
      MaxCases(rests, best, max);
      if best == -1 {
        MergeEnds(contents, rests, Kept(Values(runs)));
        return;
      }
      MergeTurn(contents, rests, Kept(Values(runs)), best, max);
      BestIsThere(rests, best, max);
      MoveNext(ways, out, rests, w, best);
      rests := rests[best := rests[best][1..]];
    }
  }

  lemma MaxCases(rests: seq<seq<Data>>, best: int, max: Data)
    requires IsMax(rests, |rests|, best, max)
    ensures best >= -1 && (best == -1 ==> max == DATA_MIN_VALUE)
  {
  }

  lemma BestIsThere(rests: seq<seq<Data>>, best: nat, max: Data)
    requires IsMax(rests, |rests|, best, max)
    ensures best < |rests| && rests[best] != [] && rests[best][0] == max
  {
  }

  // ---- what the sort computes

  function Concat(runs: seq<seq<Data>>): (r: seq<Data>)
    ensures multiset(r) == Values(runs)
  {
    if runs == [] then [] else runs[0] + Concat(runs[1..])
  }

  /** One merge: the values above the minimum of its runs, in descending order. */
  function MergeOf(runs: seq<seq<Data>>): (r: seq<Data>)
    ensures Descending(r) && multiset(r) == Kept(Values(runs))
  {
    SortDescending(NonZero(Concat(runs)))
  }

  function GroupSize(runs: nat): (k: nat)
    ensures k <= runs && (runs > 0 ==> k > 0)
  {
    if runs > MAXWAYS then MAXWAYS else runs
  }

  /** One pass: the runs of the queue are merged in groups, from the front. */
  function PassOf(runs: seq<seq<Data>>): (r: seq<seq<Data>>)
    decreases |runs|
  {
    if runs == [] then []
    else
      var k := GroupSize(|runs|);
      [MergeOf(runs[..k])] + PassOf(runs[k..])
  }

  /** The first runs: pieces of at most `k` values, each sorted. */
  function SplitOf(input: seq<Data>, k: nat): (r: seq<seq<Data>>)
    requires k >= 1
    decreases |input|
  {
    if input == [] then []
    else
      var n := if |input| < k then |input| else k;
      [SortDescending(input[..n])] + SplitOf(input[n..], k)
  }

  /** How many groups of at most `k` there are among `n`. */
  function Groups(n: nat, k: nat): (r: nat)
    requires k > 0
    decreases n
  {
    if n == 0 then 0 else 1 + Groups(n - (if n < k then n else k), k)
  }

  /** A merge pass over `n` runs leaves n / 20 runs, rounded up: fewer than before, if there were
      at least two. */
  lemma {:induction false} GroupsOfTwenty(n: nat)
    ensures Groups(n, MAXWAYS) == (n + 19) / 20
    ensures n > 1 ==> Groups(n, MAXWAYS) < n
    ensures n > 0 ==> Groups(n, MAXWAYS) > 0
    decreases n
  {
    if n > 0 {
      GroupsOfTwenty(n - (if n < 20 then n else 20));
    }
  }

  lemma ValuesOfCons(r: seq<Data>, rs: seq<seq<Data>>)
    ensures Values([r] + rs) == multiset(r) + Values(rs)
    ensures Descending(r) && AllDescending(rs) ==> AllDescending([r] + rs)
  {
    assert ([r] + rs)[1..] == rs;
  }

  lemma KeptOfSum(a: multiset<Data>, b: multiset<Data>)
    ensures Kept(a + b) == Kept(a) + Kept(b)
    ensures Kept(multiset{}) == multiset{}
  {
  }

  /** A pass leaves one run for every group: none is lost, none merged twice; the values above the
      minimum stay, and every run it leaves is descending. */
  lemma {:induction false} PassKeeps(runs: seq<seq<Data>>)
    ensures |PassOf(runs)| == Groups(|runs|, MAXWAYS)
    ensures AllDescending(PassOf(runs)) && Values(PassOf(runs)) == Kept(Values(runs))
    decreases |runs|
  {
    hide MergeOf, Descending, Kept, AllDescending;
    NoRuns();
    if runs != [] {
      var k := GroupSize(|runs|);
      PassKeeps(runs[k..]);
      assert runs == runs[..k] + runs[k..];
      ValuesOfAppend(runs[..k], runs[k..]);
      ValuesOfCons(MergeOf(runs[..k]), PassOf(runs[k..]));
      KeptOfSum(Values(runs[..k]), Values(runs[k..]));
    }
  }

  lemma NoRuns()
    ensures AllDescending([]) && Kept(multiset{}) == multiset{}
  {
  }

  lemma {:induction false} SplitKeeps(input: seq<Data>, k: nat)
    requires k >= 1
    ensures AllDescending(SplitOf(input, k)) && Values(SplitOf(input, k)) == multiset(input)
    ensures |SplitOf(input, k)| == Groups(|input|, k)
    decreases |input|
  {
    hide Descending, SortDescending, AllDescending, Values, SplitOf, Groups;
    NoRuns();
    NoValues();
    NothingToSplit(k);
    if input != [] {
      var n := if |input| < k then |input| else k;
      SplitUnfolds(input, k);
      SplitKeeps(input[n..], k);
      assert input == input[..n] + input[n..];
      ValuesOfCons(SortDescending(input[..n]), SplitOf(input[n..], k));
    }
  }

  lemma NoValues()
    ensures Values([]) == multiset{}
  {
  }

  lemma NothingToSplit(k: nat)
    requires k >= 1
    ensures SplitOf([], k) == [] && Groups(0, k) == 0
  {
  }

  lemma SplitUnfolds(input: seq<Data>, k: nat)
    requires k >= 1 && input != []
    ensures var n := if |input| < k then |input| else k;
            && SplitOf(input, k) == [SortDescending(input[..n])] + SplitOf(input[n..], k)
            && Groups(|input|, k) == 1 + Groups(|input| - n, k)
  {
    hide SortDescending;
  }

  /** One turn of the loop that splits the input. */
  lemma SplitTurn(done: seq<seq<Data>>, input: seq<Data>, k: nat)
    requires k >= 1 && input != []
    ensures var n := if |input| < k then |input| else k;
            done + SplitOf(input, k) == done + [SortDescending(input[..n])] + SplitOf(input[n..], k)
  {
    hide SortDescending, SplitOf;
    SplitUnfolds(input, k);
  }

  lemma PassOfNone()
    ensures PassOf([]) == []
  {
  }

  /** One turn of the loop that makes a pass. */
  lemma PassTurn(done: seq<seq<Data>>, runs: seq<seq<Data>>)
    requires runs != [] && AllDescending(runs)
    ensures var k := GroupSize(|runs|);
            && done + PassOf(runs) == done + [MergeOf(runs[..k])] + PassOf(runs[k..])
            && AllDescending(runs[k..]) && k > 0
  {
    hide MergeOf, Descending, AllDescending, Values;
    var k := GroupSize(|runs|);
    PassUnfolds(runs);
    SuffixDescending(runs, k);
    Regroup(done, [MergeOf(runs[..k])], PassOf(runs[k..]));
  }

  lemma PassUnfolds(runs: seq<seq<Data>>)
    requires runs != []
    ensures PassOf(runs) == [MergeOf(runs[..GroupSize(|runs|)])] + PassOf(runs[GroupSize(|runs|)..])
  {
  }

  lemma SuffixDescending(runs: seq<seq<Data>>, k: nat)
    requires AllDescending(runs) && k <= |runs|
    ensures AllDescending(runs[k..])
  {
    hide Descending;
  }

  /** The input is one sorted run exactly if it fits into the buffer. */
  lemma SplitCount(input: seq<Data>, k: nat)
    requires k >= 1 && input != []
    ensures SplitOf(input, k) != []
    ensures |SplitOf(input, k)| == 1 <==> |input| <= k
    ensures |input| <= k ==> SplitOf(input, k) == [SortDescending(input)]
  {
    if |input| <= k {
      assert input[..|input|] == input && input[|input|..] == [];
    }
  }

  lemma KeptTwice(m: multiset<Data>, n: multiset<Data>)
    ensures Kept(Kept(m)) == Kept(m)
    ensures m == Kept(n) ==> Kept(m) == m
  {
  }

  /** A single descending run of the values above the minimum is what the sort promises. */
  lemma SingleRun(runs: seq<seq<Data>>, input: seq<Data>)
    requires |runs| == 1 && AllDescending(runs) && Values(runs) == Kept(multiset(input))
    ensures runs[0] == SortDescending(NonZero(input))
  {
    assert runs[1..] == [];
    DescendingIsUnique(runs[0], SortDescending(NonZero(input)));
  }

  /** What the sort answers. An input that fits into the buffer is one run and is never merged. */
  function SortResult(input: seq<Data>, bufSize: nat): (r: seq<Data>) {
    if |input| <= bufSize then SortDescending(input) else SortDescending(NonZero(input))
  }

  /** The answer is descending, and every value occurs in it as often as in the input; except that
      zeros are left out of an input that does not fit into the buffer. */
  lemma SortResultIs(input: seq<Data>, bufSize: nat)
    ensures Descending(SortResult(input, bufSize))
    ensures multiset(SortResult(input, bufSize)) ==
            if |input| <= bufSize then multiset(input) else multiset(input)[0 := 0]
  {
    hide Descending;
  }

  /** The answer is descending, and it is a permutation of the input exactly if the input fits
      into the buffer or has no value equal to the minimum. */
  lemma SortResultIff(input: seq<Data>, bufSize: nat)
    ensures Descending(SortResult(input, bufSize))
    ensures multiset(SortResult(input, bufSize)) == multiset(input)
            <==> |input| <= bufSize || DATA_MIN_VALUE !in input
  {
    if |input| > bufSize {
      assert DATA_MIN_VALUE in input <==> multiset(input)[DATA_MIN_VALUE] != 0;
      if DATA_MIN_VALUE !in input {
        assert Kept(multiset(input)) == multiset(input);
      } else {
        assert Kept(multiset(input))[DATA_MIN_VALUE] == 0;
      }
    }
  }

  lemma {:induction false} NoneKept(s: seq<Data>)
    requires forall x :: x in s ==> x == DATA_MIN_VALUE
    ensures NonZero(s) == []
  {
    if s != [] {
      assert s[0] in s && forall x :: x in s[1..] ==> x in s;
      NoneKept(s[1..]);
    }
  }

  /** An input of zeros only that does not fit into the buffer comes out empty. */
  lemma ZerosVanish(input: seq<Data>, bufSize: nat)
    requires |input| > bufSize && forall x :: x in input ==> x == DATA_MIN_VALUE
    ensures SortResult(input, bufSize) == []
  {
    NoneKept(input);
  }

  function Passes(runs: seq<seq<Data>>, n: nat): (r: seq<seq<Data>>)
    decreases n
  {
    if n == 0 then runs else Passes(PassOf(runs), n - 1)
  }

  /** Some number of passes leaves one run exactly if the input is not empty: an empty input leaves
      the queue empty for ever. */
  lemma PassesEndIff(input: seq<Data>, bufSize: nat)
    requires bufSize >= 1
    ensures (exists n: nat :: |Passes(SplitOf(input, bufSize), n)| == 1) <==> input != []
  {
    SplitKeeps(input, bufSize);
    if input == [] {
      forall n: nat ensures Passes([], n) == [] {
        NoRunsStay(n);
      }
    } else {
      SplitCount(input, bufSize);
      var n := PassesEnd(SplitOf(input, bufSize));
    }
  }

  lemma {:induction false} NoRunsStay(n: nat)
    ensures Passes([], n) == []
  {
    if n > 0 {
      NoRunsStay(n - 1);
    }
  }

  lemma {:induction false} PassesEnd(runs: seq<seq<Data>>) returns (n: nat)
    requires runs != []
    ensures |Passes(runs, n)| == 1
    decreases |runs|
  {
    hide PassOf, Groups, AllDescending, Values, Kept;
    if |runs| == 1 {
      n := 0;
    } else {
      PassKeeps(runs);
      GroupsOfTwenty(|runs|);
      var m := PassesEnd(PassOf(runs));
      n := m + 1;
    }
  }

  // ---- the program

  class Sorter {
    const buf: array<Data>
    var currQueue: seq<seq<Data>>
    var nextQueue: seq<seq<Data>>

    constructor (bufSize: nat)
      ensures fresh(buf) && buf.Length == bufSize && currQueue == [] && nextQueue == []
    {
      buf := new Data[bufSize];
      currQueue, nextQueue := [], [];
    }

    /** The library's sort on the first `n` places of the buffer, in descending order. */
    method QSort(n: nat)
      requires n <= buf.Length
      modifies buf
      ensures buf[..n] == SortDescending(old(buf[..n]))
    {
      var sorted := SortDescending(buf[..n]);
      forall i | 0 <= i < n {
        buf[i] := sorted[i];
      }
    }

    /** Cuts the input into sorted runs. */
    method Split(input: seq<Data>)
      requires buf.Length >= 1 && currQueue == []
      modifies this`currQueue, buf
      ensures currQueue == SplitOf(input, buf.Length)
    {
      hide SortDescending, SplitOf;
      var n := |input|;
      var k := buf.Length;
      assert input[0..] == input;
      while n > 0
        invariant 0 <= n <= |input|
        invariant currQueue + SplitOf(input[|input|-n..], k) == SplitOf(input, k)
      {
        var from := |input| - n;
        var chunkSize := if n < k then n else k;
        ghost var left := input[from..];
        SplitTurn(currQueue, left, k);
        ReadChunk(input, from, chunkSize);
        n := n - chunkSize;
        QSort(chunkSize);
        assert left[chunkSize..] == input[|input|-n..];
        currQueue := currQueue + [buf[..chunkSize]];
      }
      NothingToSplit(k);
      assert input[|input|..] == [];
    }

    /** Reads the next values of the input into the buffer. */
    method ReadChunk(input: seq<Data>, from: nat, n: nat)
      requires from + n <= |input| && n <= buf.Length
      modifies buf
      ensures buf[..n] == input[from..][..n]
    {
      forall i | 0 <= i < n {
        buf[i] := input[from+i];
      }
    }

    /** Merges up to `MAXWAYS` runs from the front of one queue into one run of the other. */
    method Merge()
      requires currQueue != [] && AllDescending(currQueue) && buf.Length > MAXWAYS
      modifies this`currQueue, this`nextQueue, buf
      ensures currQueue == old(currQueue)[GroupSize(|old(currQueue)|)..]
      ensures nextQueue == old(nextQueue) + [MergeOf(old(currQueue)[..GroupSize(|old(currQueue)|)])]
    {
      hide WaysHold, Descending, SliceStart, Kept, Values, MergeOf;
      var k := if |currQueue| > MAXWAYS then MAXWAYS else |currQueue|;
      SlicesFit(buf.Length, k + 1);
      var waySize := buf.Length / (k + 1);
      SliceStep(k, k + 1, waySize);
      var ways := OpenWays(currQueue, k, buf, waySize);
      ghost var runs := currQueue[..k];
      currQueue := currQueue[k..];
      var out := new OutputWay(buf, SliceStart(k, waySize), waySize);
      MergeWays(ways, out, runs, waySize);
      out.Flush();
      DescendingIsUnique(out.file, MergeOf(runs));
      nextQueue := nextQueue + [out.file];
    }

    /** One pass: merges until the queue is empty, then swaps the queues. */
    method MergePass()
      requires AllDescending(currQueue) && nextQueue == [] && buf.Length > MAXWAYS
      modifies this, buf
      ensures currQueue == PassOf(old(currQueue)) && nextQueue == []
    {
      hide AllDescending, MergeOf, PassOf;
      PassOfNone();
      while currQueue != []
        invariant AllDescending(currQueue)
        invariant nextQueue + PassOf(currQueue) == PassOf(old(currQueue))
        decreases |currQueue|
      {
        PassTurn(nextQueue, currQueue);
        Merge();
      }
      currQueue, nextQueue := nextQueue, currQueue;
    }

    /** The whole sort: splits the input and merges in passes until one run is left. */
    method Sort(input: seq<Data>) returns (sorted: seq<Data>)
      requires input != [] && buf.Length > MAXWAYS && currQueue == [] && nextQueue == []
      modifies this, buf
      ensures sorted == SortResult(input, buf.Length)
      ensures Descending(sorted)
      ensures multiset(sorted) == if |input| <= buf.Length then multiset(input) else multiset(input)[0 := 0]
    {
      hide AllDescending, MergeOf, PassOf, SplitOf, SortDescending, NonZero, Values, Groups, Descending;
      Split(input);
      SplitKeeps(input, buf.Length);
      SplitCount(input, buf.Length);
      ghost var merged := false;
      while |currQueue| != 1
        invariant currQueue != [] && nextQueue == [] && AllDescending(currQueue)
        invariant if merged then Values(currQueue) == Kept(multiset(input)) else currQueue == SplitOf(input, buf.Length)
        invariant merged ==> |input| > buf.Length
        decreases |currQueue|
      {
        PassKeeps(currQueue);
        GroupsOfTwenty(|currQueue|);
        KeptTwice(Values(currQueue), multiset(input));
        MergePass();
        merged := true;
      }
      sorted := currQueue[0];
      if merged {
        SingleRun(currQueue, input);
      }
      SortResultIs(input, buf.Length);
    }
  }
}

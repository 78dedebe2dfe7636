/** Facts on sequences that several modules use. */
module Seqs {
  /** `s` without its element at `q`. */
  function Drop<T>(s: seq<T>, q: nat): (r: seq<T>)
    requires q < |s|
    ensures |r| == |s| - 1
  {
    s[..q] + s[q+1..]
  }

  /** `s` with `x` put in at `p`. */
  function InsertAt<T>(s: seq<T>, p: nat, x: T): (r: seq<T>)
    requires p <= |s|
    ensures |r| == |s| + 1
  {
    s[..p] + [x] + s[p..]
  }

  lemma DropIndex<T>(s: seq<T>, q: nat)
    requires q < |s|
    ensures forall i :: 0 <= i < q ==> Drop(s, q)[i] == s[i]
    ensures forall i :: q <= i < |s| - 1 ==> Drop(s, q)[i] == s[i+1]
  {
  }

  lemma InsertIndex<T>(s: seq<T>, p: nat, x: T)
    requires p <= |s|
    ensures InsertAt(s, p, x)[p] == x
    ensures forall i :: 0 <= i < p ==> InsertAt(s, p, x)[i] == s[i]
    ensures forall i :: p < i <= |s| ==> InsertAt(s, p, x)[i] == s[i-1]
  {
  }

  /** A slice of a slice. */
  lemma SubSlice<T>(s: seq<T>, off: nat, n: nat, i: nat, j: nat)
    requires off + n <= |s| && i <= j <= n
    ensures s[off..off+n][i..j] == s[off+i..off+j]
  {
    var a, b := s[off..off+n][i..j], s[off+i..off+j];
    assert forall k :: 0 <= k < |a| ==> a[k] == b[k];
  }

  /** Two slices that agree place by place. */
  lemma SlicesAgree<T>(s: seq<T>, i: nat, t: seq<T>, j: nat, n: nat)
    requires i + n <= |s| && j + n <= |t|
    requires forall k :: i <= k < i + n ==> s[k] == t[j + (k - i)]
    ensures s[i..i+n] == t[j..j+n]
  {
    var a, b := s[i..i+n], t[j..j+n];
    forall k | 0 <= k < |a| ensures a[k] == b[k] {
      assert s[i+k] == t[j+(i+k-i)];
    }
  }

  /** Two slices, one behind the other. */
  lemma Adjacent<T>(s: seq<T>, i: nat, j: nat, k: nat)
    requires i <= j <= k <= |s|
    ensures s[i..j] + s[j..k] == s[i..k]
    ensures s[j..][..k-j] == s[j..k]
  {
  }

  lemma Regroup<T>(a: seq<T>, b: seq<T>, c: seq<T>)
    ensures (a + b) + c == a + (b + c)
  {
  }
}

/** Small facts about cutting sequences. */
module Seqs {

  lemma Halves<T>(a: seq<T>, b: seq<T>)
    ensures (a + b)[..|a|] == a && (a + b)[|a|..] == b
  {}

  lemma CutOfConcat<T>(a: seq<T>, b: seq<T>, i: nat)
    requires |a| <= i <= |a| + |b|
    ensures (a + b)[..i] == a + b[..i - |a|] && (a + b)[i..] == b[i - |a|..]
  {}

  lemma CutOfDrop<T>(s: seq<T>, i: nat, n: nat)
    requires i + n <= |s|
    ensures s[i..][..n] == s[i..i + n] && s[i..][n..] == s[i + n..]
  {}

  lemma CutOfTake<T>(s: seq<T>, i: nat, k: nat)
    requires k <= i <= |s|
    ensures s[..i][..k] == s[..k] && s[..i][k..] == s[k..i]
  {}

  lemma Assoc<T>(a: seq<T>, b: seq<T>, c: seq<T>)
    ensures (a + b) + c == a + (b + c)
  {}

  lemma SliceCons<T>(s: seq<T>, i: nat, j: nat)
    requires i < j <= |s|
    ensures s[i..j] == [s[i]] + s[i + 1..j]
  {}

  lemma SliceSnoc<T>(s: seq<T>, i: nat, j: nat)
    requires i <= j < |s|
    ensures s[i..j + 1] == s[i..j] + [s[j]]
  {}

  lemma DropDrop<T>(s: seq<T>, i: nat, j: nat)
    requires i + j <= |s|
    ensures s[i..][j..] == s[i + j..]
  {}

  lemma TakeTake<T>(s: seq<T>, i: nat, j: nat)
    requires j <= i <= |s|
    ensures s[..i][..j] == s[..j]
  {}

  lemma ConsTail<T>(x: T, s: seq<T>)
    ensures ([x] + s)[1..] == s && ([x] + s)[0] == x
  {}

  lemma HeadTail<T>(s: seq<T>)
    requires s != []
    ensures s == [s[0]] + s[1..]
  {}

  lemma LastOf<T>(s: seq<T>)
    requires s != []
    ensures s[|s| - 1..] == [s[|s| - 1]] && s == s[..|s| - 1] + [s[|s| - 1]]
  {}

  lemma LastOfConcat<T>(a: seq<T>, b: seq<T>)
    requires b != []
    ensures var ab := a + b; ab[..|ab| - 1] == a + b[..|b| - 1] && ab[|ab| - 1] == b[|b| - 1]
  {}

  lemma TakeSnoc<T>(s: seq<T>, i: nat)
    requires i < |s|
    ensures s[..i + 1] == s[..i] + [s[i]]
  {}

  lemma NoneLeft<T>(a: seq<T>)
    ensures [] + a == a && a + [] == a && a[0..] == a && a[..|a|] == a
  {}

  lemma MiddleOf<T>(a: seq<T>, m: seq<T>, b: seq<T>)
    ensures (a + m + b)[|a|..|a| + |m|] == m && |a + m| == |a| + |m|
  {}

  lemma SliceSlice<T>(s: seq<T>, i: nat, j: nat, a: nat, b: nat)
    requires i <= j <= |s| && a <= b <= j - i
    ensures s[i..j][a..b] == s[i + a..i + b]
  {
    var x, y := s[i..j][a..b], s[i + a..i + b];
    forall k | 0 <= k < b - a ensures x[k] == y[k] {
      assert x[k] == s[i..j][a + k] == s[i + (a + k)];
    }
  }

  lemma SliceJoin<T>(s: seq<T>, i: nat, k: nat, j: nat)
    requires i <= k <= j <= |s|
    ensures s[i..j] == s[i..k] + s[k..j]
  {}

  lemma SliceAt<T>(s: seq<T>, i: nat, j: nat, k: nat)
    requires i <= k < j <= |s|
    ensures s[i..j][k - i] == s[k]
  {}

  lemma SliceOfTake<T>(s: seq<T>, n: nat, i: nat, j: nat)
    requires i <= j <= n <= |s|
    ensures s[..n][i..j] == s[i..j]
  {}

  lemma Rejoin<T>(s: seq<T>, i: nat)
    requires i <= |s|
    ensures s[..i] + s[i..] == s
  {}
}

/** Ranking views: pandas `nlargest(n, col)` and `value_counts().head(n)`
    order a table by a count column, largest first, and keep the first `n`
    rows. The model sorts with a stable insertion sort, so rows with equal
    counts keep their original relative order (nlargest's keep='first'). */
module Ranking {

  /** Non-increasing by score. */
  predicate SortedDesc<T>(s: seq<T>, score: T -> int) {
    forall i, j :: 0 <= i < j < |s| ==> score(s[i]) >= score(s[j])
  }

  /** Puts `x` in front of the first element whose score is not larger. */
  function InsertDesc<T(==)>(x: T, s: seq<T>, score: T -> int): (r: seq<T>)
    requires SortedDesc(s, score)
    ensures SortedDesc(r, score)
    ensures multiset(r) == multiset(s) + multiset{x}
    ensures |r| == |s| + 1
    ensures forall i :: 0 <= i < |r| ==> r[i] == x || r[i] in s
  {
    if s == [] || score(s[0]) <= score(x) then [x] + s
    else
      var rest := InsertDesc(x, s[1..], score);
      assert s == [s[0]] + s[1..];
      assert forall i :: 0 <= i < |rest| ==> score(rest[i]) <= score(s[0]);
      [s[0]] + rest
  }

  /** The rows of `s`, largest score first; ties keep their input order. */
  function SortDesc<T(==)>(s: seq<T>, score: T -> int): (r: seq<T>)
    ensures SortedDesc(r, score)
    ensures multiset(r) == multiset(s)
    ensures |r| == |s|
  {
    if s == [] then []
    else
      assert s == [s[0]] + s[1..];
      InsertDesc(s[0], SortDesc(s[1..], score), score)
  }

  /** The first `n` rows of the descending order: at most `n` rows, largest
      first, drawn from `s`, and no row left out scores above a row kept. */
  function TopN<T(==,!new)>(s: seq<T>, n: nat, score: T -> int): (r: seq<T>)
    ensures |r| == if n < |s| then n else |s|
    ensures SortedDesc(r, score)
    ensures multiset(r) <= multiset(s)
    ensures forall x, y :: x in multiset(s) - multiset(r) && y in r ==> score(x) <= score(y)
  {
    var sorted := SortDesc(s, score);
    var m := if n < |s| then n else |s|;
    PrefixDominates(sorted, m, score);
    sorted[..m]
  }

  /** Every row kept by the top `n` is a row of `s`. */
  lemma TopNMembers<T(!new)>(s: seq<T>, n: nat, score: T -> int)
    ensures forall i :: 0 <= i < |TopN(s, n, score)| ==> TopN(s, n, score)[i] in s
  {
    var r := TopN(s, n, score);
    forall i | 0 <= i < |r| ensures r[i] in s {
      assert r[i] in multiset(r);
    }
  }

  /** A row of `s` that the top `n` leave out scores no more than any row kept. */
  lemma TopNExcluded<T(!new)>(s: seq<T>, n: nat, score: T -> int, x: T)
    requires x in s && x !in TopN(s, n, score)
    ensures forall i :: 0 <= i < |TopN(s, n, score)| ==> score(x) <= score(TopN(s, n, score)[i])
  {
    var r := TopN(s, n, score);
    assert x in multiset(s) - multiset(r);
    forall i | 0 <= i < |r| ensures score(x) <= score(r[i]) {
      assert r[i] in r;
    }
  }

  /** In a descending sequence, whatever lies past position `m` scores no
      more than anything before it. */
  lemma PrefixDominates<T(!new)>(sorted: seq<T>, m: nat, score: T -> int)
    requires SortedDesc(sorted, score) && m <= |sorted|
    ensures multiset(sorted[..m]) <= multiset(sorted)
    ensures multiset(sorted) - multiset(sorted[..m]) == multiset(sorted[m..])
    ensures forall x, y :: x in multiset(sorted) - multiset(sorted[..m]) && y in sorted[..m] ==> score(x) <= score(y)
  {
    var kept, dropped := sorted[..m], sorted[m..];
    assert sorted == kept + dropped;
    assert multiset(sorted) == multiset(kept) + multiset(dropped);
    forall x, y | x in multiset(dropped) && y in kept ensures score(x) <= score(y) {
      var j :| 0 <= j < |dropped| && dropped[j] == x;
      var i :| 0 <= i < |kept| && kept[i] == y;
      assert sorted[m + j] == x && sorted[i] == y;
    }
  }
}

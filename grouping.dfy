/** Table primitives shared by every phase: missing values, row filters
    (boolean masks), de-duplication (drop_duplicates / nunique) and the
    group-by-key counts and sums that pandas computes with groupby. A table is
    a sequence of rows; a column is a function from a row to a value. */
module Grouping {

  /** A value that pandas may hold as NaN. */
  datatype Option<+T> = None | Some(value: T)

  /** A cell of a numeric column as read from CSV: a number, text that is
      not a number, or an empty cell (NaN). */
  datatype Cell = Number(value: real) | Text(text: string) | Blank

  /** pd.to_numeric(..., errors='coerce'): numbers stay, everything else
      becomes NaN. */
  function ToNumeric(c: Cell): (r: Cell)
    ensures r.Number? <==> c.Number?
    ensures r.Number? ==> r == c
    ensures !r.Number? ==> r == Blank
  {
    if c.Number? then c else Blank
  }

  // ---------------------------------------------------------------------
  // Boolean masks: df[mask]
  // ---------------------------------------------------------------------

  /** `r` can be obtained from `s` by deleting elements: an order-preserving
      subsequence. */
  predicate IsSubseq<T(==,!new)>(r: seq<T>, s: seq<T>)
    decreases |s|
  {
    if r == [] then true
    else if s == [] then false
    else (r[0] == s[0] && IsSubseq(r[1..], s[1..])) || IsSubseq(r, s[1..])
  }

  /** The rows of `s` for which the mask `p` holds, in their original order. */
  function Filter<T(==,!new)>(s: seq<T>, p: T -> bool): (r: seq<T>)
    ensures |r| <= |s|
    ensures forall x :: x in r <==> x in s && p(x)
    ensures forall x :: p(x) ==> multiset(r)[x] == multiset(s)[x]
    ensures IsSubseq(r, s)
  {
    if s == [] then []
    else
      var rest := Filter(s[1..], p);
      assert s == [s[0]] + s[1..];
      if p(s[0]) then [s[0]] + rest else rest
  }

  /** A mask that holds for no row keeps nothing. */
  lemma {:induction false} FilterNone<T(!new)>(s: seq<T>, p: T -> bool)
    requires forall i :: 0 <= i < |s| ==> !p(s[i])
    ensures Filter(s, p) == []
  {
    if s != [] {
      FilterNone(s[1..], p);
    }
  }

  lemma {:induction false} FilterAppend<T(!new)>(a: seq<T>, b: seq<T>, p: T -> bool)
    ensures Filter(a + b, p) == Filter(a, p) + Filter(b, p)
  {
    if a == [] {
      assert a + b == b;
    } else {
      assert (a + b)[1..] == a[1..] + b;
      FilterAppend(a[1..], b, p);
    }
  }

  /** A mask applied to a column without repeated values keeps it without
      repeated values. */
  lemma {:induction false} FilterNoDuplicates<T(!new)>(s: seq<T>, p: T -> bool)
    requires NoDuplicates(s)
    ensures NoDuplicates(Filter(s, p))
  {
    if s != [] {
      assert NoDuplicates(s[1..]);
      FilterNoDuplicates(s[1..], p);
      assert s[0] !in s[1..];
    }
  }

  // ---------------------------------------------------------------------
  // drop_duplicates / unique: first occurrences, in order
  // ---------------------------------------------------------------------

  predicate NoDuplicates<T(==,!new)>(s: seq<T>) {
    forall i, j :: 0 <= i < j < |s| ==> s[i] != s[j]
  }

  /** The position of the first occurrence of `x` in `s`. */
  function FirstIndex<T(==)>(s: seq<T>, x: T): (i: nat)
    requires x in s
    ensures i < |s| && s[i] == x && x !in s[..i]
  {
    var init := s[..|s| - 1];
    if x in init then
      var i := FirstIndex(init, x);
      assert s[..i] == init[..i];
      i
    else |s| - 1
  }

  /** The distinct values of `s` (drop_duplicates, keep='first'): every value
      once, as an order-preserving subsequence of `s`, ordered by where each
      value first occurs. */
  function Distinct<T(==,!new)>(s: seq<T>): (d: seq<T>)
    ensures forall x :: x in d <==> x in s
    ensures NoDuplicates(d)
    ensures |d| <= |s|
    ensures IsSubseq(d, s)
  {
    if s == [] then []
    else
      var init, last := s[..|s| - 1], s[|s| - 1];
      var d := Distinct(init);
      assert s == init + [last];
      SubseqSnoc(d, init, last);
      if last in d then d else d + [last]
  }

  /** drop_duplicates keeps the first occurrences: the values of `Distinct(s)`
      come in the order in which they first occur in `s`. */
  lemma {:induction false} DistinctFirstOccurrences<T(!new)>(s: seq<T>)
    ensures forall i, j :: 0 <= i < j < |Distinct(s)| ==>
      FirstIndex(s, Distinct(s)[i]) < FirstIndex(s, Distinct(s)[j])
  {
    if s != [] {
      var init, last := s[..|s| - 1], s[|s| - 1];
      var d := Distinct(init);
      assert s == init + [last];
      DistinctFirstOccurrences(init);
      forall i | 0 <= i < |d| ensures d[i] in s && FirstIndex(s, d[i]) == FirstIndex(init, d[i]) {
        assert d[i] in init;
      }
    }
  }

  /** Two sequences without repeats that hold the same values are equally long. */
  lemma SameValuesSameLength<T(!new)>(a: seq<T>, b: seq<T>)
    requires NoDuplicates(a) && NoDuplicates(b)
    requires forall x :: x in a <==> x in b
    ensures |a| == |b|
  {
    NoDuplicatesCard(a);
    NoDuplicatesCard(b);
    assert (set x | x in a) == (set x | x in b);
  }

  /** `[x]` is a subsequence of anything ending in `x`. */
  lemma {:induction false} SubseqEnd<T(!new)>(x: T, s: seq<T>)
    ensures IsSubseq([x], s + [x])
    decreases |s|
  {
    if s != [] {
      assert (s + [x])[1..] == s[1..] + [x];
      SubseqEnd(x, s[1..]);
    }
  }

  /** Appending to the sequence keeps a subsequence one, with or without the
      new element. */
  lemma {:induction false} SubseqSnoc<T(!new)>(r: seq<T>, s: seq<T>, x: T)
    requires IsSubseq(r, s)
    ensures IsSubseq(r, s + [x])
    ensures IsSubseq(r + [x], s + [x])
    decreases |s|
  {
    if r == [] {
      SubseqEnd(x, s);
      assert r + [x] == [x];
    } else {
      assert (s + [x])[1..] == s[1..] + [x];
      assert (r + [x])[1..] == r[1..] + [x];
      assert (r + [x])[0] == r[0] && (s + [x])[0] == s[0];
      if r[0] == s[0] && IsSubseq(r[1..], s[1..]) {
        SubseqSnoc(r[1..], s[1..], x);
      } else {
        SubseqSnoc(r, s[1..], x);
      }
    }
  }

  /** A sequence without duplicates has as many elements as its set. */
  lemma {:induction false} NoDuplicatesCard<T(!new)>(s: seq<T>)
    requires NoDuplicates(s)
    ensures |set x | x in s| == |s|
  {
    if s != [] {
      var init := s[..|s| - 1];
      var last := s[|s| - 1];
      assert s == init + [last];
      assert NoDuplicates(init);
      NoDuplicatesCard(init);
      assert last !in init;
      assert (set x | x in s) == (set x | x in init) + {last};
    }
  }

  /** The number of distinct values (pandas nunique) is the size of the set. */
  lemma DistinctCard<T(!new)>(s: seq<T>)
    ensures |Distinct(s)| == |set x | x in s|
  {
    NoDuplicatesCard(Distinct(s));
    assert (set x | x in Distinct(s)) == (set x | x in s);
  }

  // ---------------------------------------------------------------------
  // groupby(key).agg(...): per-key counts and sums
  // ---------------------------------------------------------------------

  /** The key column of a table. */
  function Project<R, K>(rows: seq<R>, key: R -> K): (ks: seq<K>)
    ensures |ks| == |rows|
    ensures forall i :: 0 <= i < |rows| ==> ks[i] == key(rows[i])
  {
    if rows == [] then [] else Project(rows[..|rows| - 1], key) + [key(rows[|rows| - 1])]
  }

  /** A value of a column comes from some row. */
  lemma ProjectIndex<R, K(!new)>(rows: seq<R>, key: R -> K, k: K) returns (i: nat)
    requires k in Project(rows, key)
    ensures i < |rows| && key(rows[i]) == k
  {
    i :| 0 <= i < |rows| && Project(rows, key)[i] == k;
  }

  /** Every row's value is in the column. */
  lemma ProjectHas<R, K(!new)>(rows: seq<R>, key: R -> K, i: nat)
    requires i < |rows|
    ensures key(rows[i]) in Project(rows, key)
  {
    assert Project(rows, key)[i] == key(rows[i]);
  }

  /** The keys of a table, each once, in first-appearance order. */
  function DistinctKeys<R, K(==,!new)>(rows: seq<R>, key: R -> K): (ks: seq<K>)
    ensures NoDuplicates(ks)
    ensures forall k :: k in ks <==> exists i :: 0 <= i < |rows| && key(rows[i]) == k
  {
    var p := Project(rows, key);
    assert forall k :: k in p <==> exists i :: 0 <= i < |rows| && key(rows[i]) == k by {
      forall k | k in p ensures exists i :: 0 <= i < |rows| && key(rows[i]) == k {
        var i :| 0 <= i < |p| && p[i] == k;
      }
    }
    Distinct(p)
  }

  function One<R>(r: R): nat { 1 }

  /** Sum of the weight column over the whole table. */
  function Total<R>(rows: seq<R>, w: R -> nat): nat {
    if rows == [] then 0 else Total(rows[..|rows| - 1], w) + w(rows[|rows| - 1])
  }

  /** Sum of the weight column over the rows whose key is `k`. */
  function SumBy<R, K(==,!new)>(rows: seq<R>, key: R -> K, w: R -> nat, k: K): nat {
    if rows == [] then 0
    else SumBy(rows[..|rows| - 1], key, w, k) + (if key(rows[|rows| - 1]) == k then w(rows[|rows| - 1]) else 0)
  }

  /** Number of rows whose key is `k` (groupby(...).size()). */
  function CountBy<R, K(==,!new)>(rows: seq<R>, key: R -> K, k: K): (n: nat)
    ensures n == 0 <==> forall i :: 0 <= i < |rows| ==> key(rows[i]) != k
    ensures n <= |rows|
  {
    if rows == [] then 0
    else
      var init := rows[..|rows| - 1];
      var n0 := CountBy(init, key, k);
      assert forall i :: 0 <= i < |init| ==> init[i] == rows[i];
      n0 + (if key(rows[|rows| - 1]) == k then 1 else 0)
  }

  /** Sum of the weight column over the rows whose key is one of `ks`. */
  function TotalIn<R, K(==,!new)>(rows: seq<R>, key: R -> K, w: R -> nat, ks: seq<K>): nat {
    if rows == [] then 0
    else TotalIn(rows[..|rows| - 1], key, w, ks) + (if key(rows[|rows| - 1]) in ks then w(rows[|rows| - 1]) else 0)
  }

  /** Per-key sums added up over a list of keys. */
  function SumByKeys<R, K(==,!new)>(rows: seq<R>, key: R -> K, w: R -> nat, ks: seq<K>): nat {
    if ks == [] then 0 else SumByKeys(rows, key, w, ks[..|ks| - 1]) + SumBy(rows, key, w, ks[|ks| - 1])
  }

  /** Appending a row to the table adds its weight to the group sum of its
      key, when that key is listed once. */
  lemma {:induction false} SumByKeysSnoc<R, K(!new)>(rows: seq<R>, r: R, key: R -> K, w: R -> nat, ks: seq<K>)
    requires NoDuplicates(ks)
    ensures SumByKeys(rows + [r], key, w, ks)
         == SumByKeys(rows, key, w, ks) + (if key(r) in ks then w(r) else 0)
  {
    assert (rows + [r])[..|rows|] == rows;
    if ks != [] {
      var init := ks[..|ks| - 1];
      assert ks == init + [ks[|ks| - 1]];
      assert NoDuplicates(init);
      SumByKeysSnoc(rows, r, key, w, init);
      assert key(r) in ks <==> key(r) in init || key(r) == ks[|ks| - 1];
    }
  }

  /** Summing the groups of distinct keys adds up exactly the rows whose key
      is among them: no row is counted twice or lost. */
  lemma {:induction false} GroupsPartition<R, K(!new)>(rows: seq<R>, key: R -> K, w: R -> nat, ks: seq<K>)
    requires NoDuplicates(ks)
    ensures SumByKeys(rows, key, w, ks) == TotalIn(rows, key, w, ks)
  {
    if rows == [] {
      EmptyGroups(key, w, ks);
    } else {
      var init := rows[..|rows| - 1];
      assert rows == init + [rows[|rows| - 1]];
      GroupsPartition(init, key, w, ks);
      SumByKeysSnoc(init, rows[|rows| - 1], key, w, ks);
    }
  }

  lemma {:induction false} EmptyGroups<R, K(!new)>(key: R -> K, w: R -> nat, ks: seq<K>)
    ensures SumByKeys([], key, w, ks) == 0
  {
    if ks != [] { EmptyGroups(key, w, ks[..|ks| - 1]); }
  }

  /** When every row's key is listed, TotalIn is the whole total. */
  lemma {:induction false} TotalInAll<R, K(!new)>(rows: seq<R>, key: R -> K, w: R -> nat, ks: seq<K>)
    requires forall i :: 0 <= i < |rows| ==> key(rows[i]) in ks
    ensures TotalIn(rows, key, w, ks) == Total(rows, w)
  {
    if rows != [] {
      var init := rows[..|rows| - 1];
      assert forall i :: 0 <= i < |init| ==> init[i] == rows[i];
      TotalInAll(init, key, w, ks);
    }
  }

  lemma {:induction false} TotalOne<R>(rows: seq<R>)
    ensures Total(rows, One) == |rows|
  {
    if rows != [] { TotalOne(rows[..|rows| - 1]); }
  }

  lemma {:induction false} SumByOne<R, K(!new)>(rows: seq<R>, key: R -> K, k: K)
    ensures SumBy(rows, key, One, k) == CountBy(rows, key, k)
  {
    if rows != [] { SumByOne(rows[..|rows| - 1], key, k); }
  }

  // ---------------------------------------------------------------------
  // groupby(key).size().reset_index(): one (key, count) row per group
  // ---------------------------------------------------------------------

  /** The key column of a (key, count) table. */
  function GroupKey<K>(e: (K, nat)): K { e.0 }

  /** One (key, count) entry per listed key. */
  function Tally<R, K(==,!new)>(rows: seq<R>, key: R -> K, ks: seq<K>): (t: seq<(K, nat)>)
    ensures |t| == |ks|
    ensures forall i :: 0 <= i < |ks| ==> t[i].0 == ks[i] && t[i].1 == CountBy(rows, key, ks[i])
  {
    if ks == [] then [] else Tally(rows, key, ks[..|ks| - 1]) + [(ks[|ks| - 1], CountBy(rows, key, ks[|ks| - 1]))]
  }

  /** The count column of a tally, added up. */
  function SumCounts<K>(t: seq<(K, nat)>): nat {
    if t == [] then 0 else SumCounts(t[..|t| - 1]) + t[|t| - 1].1
  }

  lemma {:induction false} SumCountsTally<R, K(!new)>(rows: seq<R>, key: R -> K, ks: seq<K>)
    ensures SumCounts(Tally(rows, key, ks)) == SumByKeys(rows, key, One, ks)
  {
    if ks != [] {
      var init := ks[..|ks| - 1];
      SumCountsTally(rows, key, init);
      SumByOne(rows, key, ks[|ks| - 1]);
      assert Tally(rows, key, ks)[..|ks| - 1] == Tally(rows, key, init);
    }
  }

  /** groupby(key).size() over all keys: one entry per distinct key, every
      count at least one, and the counts add up to the number of rows. */
  function GroupSizes<R, K(==,!new)>(rows: seq<R>, key: R -> K): (t: seq<(K, nat)>)
    ensures NoDuplicates(Project(t, GroupKey))
    ensures forall k :: k in Project(t, GroupKey) <==> k in Project(rows, key)
    ensures forall i :: 0 <= i < |t| ==> t[i].1 == CountBy(rows, key, t[i].0) && t[i].1 >= 1
    ensures SumCounts(t) == |rows|
  {
    var ks := DistinctKeys(rows, key);
    TallyKeys(rows, key, ks);
    DistinctKeysAreKeys(rows, key);
    TallyTotal(rows, key);
    Tally(rows, key, ks)
  }

  /** In a sequence without repeats every value occurs at most once. */
  lemma {:induction false} NoDuplicatesMultiplicity<T(!new)>(s: seq<T>, x: T)
    requires NoDuplicates(s)
    ensures multiset(s)[x] <= 1
  {
    if s != [] {
      var init, last := s[..|s| - 1], s[|s| - 1];
      assert s == init + [last];
      assert NoDuplicates(init);
      NoDuplicatesMultiplicity(init, x);
      assert last !in init;
    }
  }

  /** A value found at two positions occurs at least twice. */
  lemma TwoOccurrences<T>(r: seq<T>, i: nat, j: nat)
    requires i < j < |r| && r[i] == r[j]
    ensures multiset(r)[r[i]] >= 2
  {
    assert r == r[..i] + [r[i]] + r[i + 1..j] + [r[j]] + r[j + 1..];
  }

  /** Entries drawn from a table whose keys are all different (a sub-multiset
      of it, such as its top rows) have all different keys too. */
  lemma SubMultisetKeysDistinct<K(!new)>(r: seq<(K, nat)>, s: seq<(K, nat)>)
    requires multiset(r) <= multiset(s)
    requires NoDuplicates(Project(s, GroupKey))
    ensures NoDuplicates(Project(r, GroupKey))
  {
    var ks := Project(s, GroupKey);
    assert NoDuplicates(s) by {
      forall a, b | 0 <= a < b < |s| ensures s[a] != s[b] {
        assert ks[a] != ks[b];
      }
    }
    forall x ensures multiset(r)[x] <= 1 {
      NoDuplicatesMultiplicity(s, x);
    }
    forall i, j | 0 <= i < j < |r| ensures Project(r, GroupKey)[i] != Project(r, GroupKey)[j] {
      if r[i] == r[j] {
        TwoOccurrences(r, i, j);
        assert false;
      }
      assert r[i] in multiset(r) && r[j] in multiset(r);
      var a :| 0 <= a < |s| && s[a] == r[i];
      var b :| 0 <= b < |s| && s[b] == r[j];
      assert ks[a] == r[i].0 && ks[b] == r[j].0;
    }
  }

  /** Every key that occurs has its entry in the group sizes. */
  lemma GroupEntryFor<R, K(!new)>(rows: seq<R>, key: R -> K, k: K) returns (e: (K, nat))
    requires k in Project(rows, key)
    ensures e in GroupSizes(rows, key) && e.0 == k
  {
    var t := GroupSizes(rows, key);
    var tk := Project(t, GroupKey);
    assert k in tk;
    var m :| 0 <= m < |tk| && tk[m] == k;
    e := t[m];
  }

  lemma TallyKeys<R, K(!new)>(rows: seq<R>, key: R -> K, ks: seq<K>)
    requires forall k :: k in ks ==> exists i :: 0 <= i < |rows| && key(rows[i]) == k
    ensures Project(Tally(rows, key, ks), GroupKey) == ks
    ensures forall i :: 0 <= i < |ks| ==> Tally(rows, key, ks)[i].1 >= 1
  {
    var t := Tally(rows, key, ks);
    forall i | 0 <= i < |ks| ensures t[i].1 >= 1 {
      assert ks[i] in ks;
    }
  }

  /** The group keys are exactly the values of the key column. */
  lemma DistinctKeysAreKeys<R, K(!new)>(rows: seq<R>, key: R -> K)
    ensures forall k :: k in DistinctKeys(rows, key) <==> k in Project(rows, key)
  {
    var p := Project(rows, key);
    forall k | k in p ensures k in DistinctKeys(rows, key) {
      var j :| 0 <= j < |p| && p[j] == k;
    }
  }

  /** The sizes of all groups add up to the number of rows. */
  lemma TallyTotal<R, K(!new)>(rows: seq<R>, key: R -> K)
    ensures SumCounts(Tally(rows, key, DistinctKeys(rows, key))) == |rows|
  {
    var ks := DistinctKeys(rows, key);
    SumCountsTally(rows, key, ks);
    GroupsPartition(rows, key, One, ks);
    forall i | 0 <= i < |rows| ensures key(rows[i]) in ks {
      assert exists j :: 0 <= j < |rows| && key(rows[j]) == key(rows[i]);
    }
    TotalInAll(rows, key, One, ks);
    TotalOne(rows);
    calc {
      SumCounts(Tally(rows, key, ks));
      SumByKeys(rows, key, One, ks);
      TotalIn(rows, key, One, ks);
      Total(rows, One);
      |rows|;
    }
  }
}

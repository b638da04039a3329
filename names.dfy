/** String helpers the scripts use to name datasets and files: Python's
    `str(n)` for a natural number, `str.replace(pattern, '')`, and
    `os.path.basename` / `os.path.dirname` with '/' as the separator. */
module Names {

  // ---------------------------------------------------------------------
  // str(n) and its inverse
  // ---------------------------------------------------------------------

  predicate IsDigit(c: char) { '0' <= c <= '9' }

  function DigitChar(d: nat): (c: char)
    requires d < 10
    ensures IsDigit(c) && c as int - '0' as int == d
  {
    (d + '0' as int) as char
  }

  /** Decimal spelling of `n`, without leading zeros (Python's str(n)). */
  function NatToString(n: nat): (s: string)
    ensures |s| >= 1
    ensures forall i :: 0 <= i < |s| ==> IsDigit(s[i])
    ensures |s| > 1 ==> s[0] != '0'
  {
    if n < 10 then [DigitChar(n)] else NatToString(n / 10) + [DigitChar(n % 10)]
  }

  /** Value of a string of decimal digits (Python's int(s)). */
  function ParseNat(s: string): nat
    requires forall i :: 0 <= i < |s| ==> IsDigit(s[i])
  {
    if s == [] then 0 else ParseNat(s[..|s| - 1]) * 10 + DigitValue(s[|s| - 1])
  }

  function DigitValue(c: char): (d: nat)
    requires IsDigit(c)
    ensures d < 10 && DigitChar(d) == c
  {
    c as int - '0' as int
  }

  /** Reading a spelled number back gives the number: the spelling is
      injective, so distinct numbers never share a name. */
  lemma {:induction false} ParseNatToString(n: nat)
    ensures ParseNat(NatToString(n)) == n
  {
    if n >= 10 {
      var s := NatToString(n);
      assert s[..|s| - 1] == NatToString(n / 10);
      ParseNatToString(n / 10);
    }
  }

  lemma NatToStringInjective(a: nat, b: nat)
    requires NatToString(a) == NatToString(b)
    ensures a == b
  {
    ParseNatToString(a);
    ParseNatToString(b);
  }

  /** str.endswith */
  predicate EndsWith(s: string, suffix: string) {
    |suffix| <= |s| && s[|s| - |suffix|..] == suffix
  }

  /** The extension of the per-dataset traffic extracts. */
  const CsvGzSuffix: string := ".csv.gz"

  // ---------------------------------------------------------------------
  // s.replace(pattern, '')
  // ---------------------------------------------------------------------

  /** Python's `s.replace(pat, '')`: scans left to right and removes every
      non-overlapping occurrence of `pat`. */
  function RemoveAll(s: string, pat: string): (r: string)
    requires |pat| > 0
    ensures |r| <= |s|
    decreases |s|
  {
    if |s| < |pat| then s
    else if s[..|pat|] == pat then RemoveAll(s[|pat|..], pat)
    else [s[0]] + RemoveAll(s[1..], pat)
  }

  /** No occurrence of `pat` starts in `t` before position `m`. */
  predicate NoMatchBefore(t: string, pat: string, m: nat) {
    forall i :: 0 <= i < m ==> !MatchAt(t, pat, i)
  }

  /** An occurrence of `pat` starts at position `i` of `t`. */
  predicate MatchAt(t: string, pat: string, i: nat) {
    i + |pat| <= |t| && t[i..i + |pat|] == pat
  }

  /** The part of `t` before the first occurrence of `pat` is kept verbatim. */
  lemma {:induction false} RemoveAllKeepsPrefix(t: string, pat: string, m: nat)
    requires |pat| > 0 && m <= |t|
    requires NoMatchBefore(t, pat, m)
    ensures RemoveAll(t, pat) == t[..m] + RemoveAll(t[m..], pat)
    decreases m
  {
    if m == 0 {
      assert t[..0] == [] && t[0..] == t;
    } else if |t| < |pat| {
      assert RemoveAll(t[m..], pat) == t[m..];
      assert t == t[..m] + t[m..];
    } else {
      NoMatchShift(t, pat, m);
      RemoveAllKeepsPrefix(t[1..], pat, m - 1);
      KeepsPrefixStep(t, pat, m);
    }
  }

  /** One step of the scan: the first character is not the start of an
      occurrence, so it is kept and the scan goes on from the next. */
  lemma KeepsPrefixStep(t: string, pat: string, m: nat)
    requires |pat| > 0 && 0 < m <= |t| && |pat| <= |t|
    requires !MatchAt(t, pat, 0)
    requires RemoveAll(t[1..], pat) == t[1..][..m - 1] + RemoveAll(t[1..][m - 1..], pat)
    ensures RemoveAll(t, pat) == t[..m] + RemoveAll(t[m..], pat)
  {
    RemoveAllSkip(t, pat);
    PrefixShift(t, m);
    ConsJoin(t, m, RemoveAll(t[1..], pat), RemoveAll(t[m..], pat));
  }

  /** Putting the first character back in front of a split of the rest. */
  lemma ConsJoin(t: string, m: nat, b: string, c: string)
    requires 0 < m <= |t|
    requires b == t[1..][..m - 1] + c
    ensures [t[0]] + b == t[..m] + c
  {
    PrefixShift(t, m);
  }

  /** Where no occurrence starts at the front, the first character stays. */
  lemma RemoveAllSkip(t: string, pat: string)
    requires |pat| > 0 && |pat| <= |t|
    requires !MatchAt(t, pat, 0)
    ensures RemoveAll(t, pat) == [t[0]] + RemoveAll(t[1..], pat)
  {
    assert t[..|pat|] == t[0..0 + |pat|];
  }

  lemma PrefixShift(t: string, m: nat)
    requires 0 < m <= |t|
    ensures t[..m] == [t[0]] + t[1..][..m - 1]
    ensures t[1..][m - 1..] == t[m..]
  {
  }

  lemma NoMatchShift(t: string, pat: string, m: nat)
    requires 0 < m <= |t|
    requires NoMatchBefore(t, pat, m)
    ensures NoMatchBefore(t[1..], pat, m - 1)
  {
    forall i: nat | i < m - 1 ensures !MatchAt(t[1..], pat, i) {
      assert !MatchAt(t, pat, i + 1);
      if i + |pat| <= |t[1..]| {
        assert t[1..][i..i + |pat|] == t[i + 1..i + 1 + |pat|];
      }
    }
  }

  /** A string without any occurrence of `pat` is left unchanged. */
  lemma RemoveAllAbsent(s: string, pat: string)
    requires |pat| > 0
    requires NoMatchBefore(s, pat, |s|)
    ensures RemoveAll(s, pat) == s
  {
    RemoveAllKeepsPrefix(s, pat, |s|);
    assert s[..|s|] == s;
  }

  /** A trailing `pat` is removed when no occurrence starts earlier. */
  lemma RemoveAllTrailing(s: string, pat: string)
    requires |pat| > 0
    requires NoMatchBefore(s + pat, pat, |s|)
    ensures RemoveAll(s + pat, pat) == s
  {
    RemoveAllKeepsPrefix(s + pat, pat, |s|);
    assert (s + pat)[|s|..] == pat;
    assert (s + pat)[..|s|] == s;
    assert pat[|pat|..] == [];
  }

  // ---------------------------------------------------------------------
  // os.path.basename / os.path.dirname
  // ---------------------------------------------------------------------

  const Sep: char := '/'

  /** Index just after the last separator, 0 when there is none. */
  function AfterLastSep(p: string): (i: nat)
    ensures i <= |p|
    ensures i > 0 ==> p[i - 1] == Sep
    ensures forall j :: i <= j < |p| ==> p[j] != Sep
  {
    if p == [] then 0
    else if p[|p| - 1] == Sep then |p|
    else AfterLastSep(p[..|p| - 1])
  }

  /** os.path.basename: everything after the last separator. */
  function Basename(p: string): (b: string)
    ensures Sep !in b
    ensures |b| <= |p| && b == p[|p| - |b|..]
  {
    p[AfterLastSep(p)..]
  }

  predicate AllSeps(s: string) { forall i :: 0 <= i < |s| ==> s[i] == Sep }

  function RStripSeps(s: string): (r: string)
    ensures |r| <= |s| && r == s[..|r|]
    ensures r != [] ==> r[|r| - 1] != Sep
  {
    if s != [] && s[|s| - 1] == Sep then RStripSeps(s[..|s| - 1]) else s
  }

  /** os.path.dirname: everything before the last separator, without the
      trailing separators unless it consists of separators only. */
  function Dirname(p: string): (d: string)
    ensures |d| <= |p| && d == p[..|d|]
  {
    var head := p[..AfterLastSep(p)];
    if head != [] && !AllSeps(head) then RStripSeps(head) else head
  }

  lemma {:induction false} AfterLastSepOf(a: string, b: string)
    requires Sep !in b
    ensures AfterLastSep(a + [Sep] + b) == |a| + 1
    decreases |b|
  {
    var p := a + [Sep] + b;
    if b != [] {
      assert p[..|p| - 1] == a + [Sep] + b[..|b| - 1];
      AfterLastSepOf(a, b[..|b| - 1]);
    } else {
      assert p[|p| - 1] == Sep;
    }
  }

  /** `os.path.basename(os.path.dirname(d/n/f))` is `n` when neither `n` nor
      `f` holds a separator and `n` is not empty. */
  lemma ParentName(d: string, n: string, f: string)
    requires Sep !in n && Sep !in f && n != []
    ensures Basename(Dirname(d + [Sep] + n + [Sep] + f)) == n
  {
    var p := d + [Sep] + n + [Sep] + f;
    assert p == (d + [Sep] + n) + [Sep] + f;
    AfterLastSepOf(d + [Sep] + n, f);
    var head := p[..|d| + |n| + 2];
    assert head == (d + [Sep] + n) + [Sep];
    assert head[|head| - 2] == n[|n| - 1] != Sep;
    assert !AllSeps(head);
    assert RStripSeps(head) == d + [Sep] + n;
    AfterLastSepOf(d, n);
    assert (d + [Sep] + n)[|d| + 1..] == n;
  }
}

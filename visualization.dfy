/** The data-selection steps of the phase-2 plots: the packet sizes kept
    for the histogram, the communicating pairs kept for the bar chart, the
    five-minute buckets and their moving average for the line chart, and the
    mapping from a feature file name to its dataset folder. */
module Visualization {
  import opened Grouping
  import opened Ranking
  import opened Names
  import Features

  // ---------------------------------------------------------------------
  // plot_packet_size_distribution
  // ---------------------------------------------------------------------

  const HistogramCap: nat := 2000

  predicate WithinCap(size: Option<nat>) {
    size.Some? && size.value <= HistogramCap
  }

  /** `df[df['packet_size'] <= 2000]`: missing sizes compare false. */
  function HistogramInput(sizes: seq<Option<nat>>): (kept: seq<Option<nat>>)
    ensures IsSubseq(kept, sizes)
    ensures forall s :: s in kept <==> s in sizes && s.Some? && s.value <= HistogramCap
    ensures forall s :: WithinCap(s) ==> multiset(kept)[s] == multiset(sizes)[s]
  {
    Filter(sizes, WithinCap)
  }

  // ---------------------------------------------------------------------
  // plot_communication_frequency
  // ---------------------------------------------------------------------

  const DefaultThreshold: int := 100
  const TopCount: nat := 20

  datatype FreqRow = FreqRow(srcIp: string, dstIp: string, count: Cell)

  /** `astype(int)` on a number: truncation toward zero. */
  function Trunc(x: real): (n: int)
    ensures x >= 0.0 ==> n >= 0 && n as real <= x < n as real + 1.0
    ensures x < 0.0 ==> n <= 0 && n as real - 1.0 < x <= n as real
  {
    if x >= 0.0 then x.Floor else -((-x).Floor)
  }

  /** `pd.to_numeric(errors='coerce').fillna(0).astype(int)` on one cell. */
  function CoercedCount(c: Cell): (n: int)
    ensures !c.Number? ==> n == 0
    ensures c.Number? ==> n == Trunc(c.value)
  {
    if c.Number? then Trunc(c.value) else 0
  }

  /** The row after `fillna(0).astype(int)` on `count`: the count becomes a
      truncated number, 0 when it was not numeric; the addresses stay. */
  function WithIntCount(r: FreqRow): (q: FreqRow)
    ensures q.srcIp == r.srcIp && q.dstIp == r.dstIp && q.count.Number?
    ensures q.count.value == if r.count.Number? then Trunc(r.count.value) as real else 0.0
  {
    r.(count := Number(CoercedCount(r.count) as real))
  }

  /** The count of a row whose count column has been coerced. */
  function CountScore(r: FreqRow): int {
    if r.count.Number? then r.count.value.Floor else 0
  }

  predicate AtLeast(r: FreqRow, threshold: int) {
    CountScore(r) >= threshold
  }

  /** After the coercion every count is the integer the cell coerces to. */
  lemma CoercedScore(r: FreqRow)
    ensures CountScore(WithIntCount(r)) == CoercedCount(r.count)
    ensures WithIntCount(r).srcIp == r.srcIp && WithIntCount(r).dstIp == r.dstIp
  {
  }

  /** The rows at or above the threshold, then the 20 largest counts. */
  function TopCommunicators(rows: seq<FreqRow>, threshold: int): (top: seq<FreqRow>)
    ensures |top| == if TopCount < |Filter(rows, r => AtLeast(r, threshold))| then TopCount
                     else |Filter(rows, r => AtLeast(r, threshold))|
    ensures multiset(top) <= multiset(Filter(rows, r => AtLeast(r, threshold)))
    ensures SortedDesc(top, CountScore)
    ensures forall r :: r in top ==> r in rows && CountScore(r) >= threshold
    ensures forall x, y :: x in multiset(Filter(rows, r => AtLeast(r, threshold))) - multiset(top) && y in top
              ==> CountScore(x) <= CountScore(y)
  {
    var kept := Filter(rows, r => AtLeast(r, threshold));
    var top := TopN(kept, TopCount, CountScore);
    forall r | r in top ensures r in kept {
      assert r in multiset(top);
    }
    top
  }

  /** Whether a row survives depends only on its coerced count: a count that
      is not a number is 0 and survives only a threshold of at most 0. */
  lemma NonNumericCounts(r: FreqRow, threshold: int)
    requires !r.count.Number?
    ensures AtLeast(WithIntCount(r), threshold) <==> threshold <= 0
  {
  }

  /** With the default threshold of 100, a pair reaches the chart's input
      exactly when its count is a number of at least 100: truncation cannot
      lift a count below 100 to 100, and a non-number becomes 0. */
  lemma DefaultThresholdKeeps(r: FreqRow)
    ensures AtLeast(WithIntCount(r), DefaultThreshold) <==> r.count.Number? && r.count.value >= 100.0
  {
    CoercedScore(r);
    if r.count.Number? {
      var x, n := r.count.value, Trunc(r.count.value);
      if x >= 100.0 {
        assert n as real > 99.0;
      }
    }
  }

  /** The table the bar chart reads. */
  class FrequencyFrame {
    var rows: seq<FreqRow>

    constructor (data: seq<FreqRow>)
      ensures rows == data
    {
      rows := data;
    }

    /** Overwrites the count column with its integer coercion, then keeps
        the rows at or above the threshold and the 20 largest of those. */
    method PlotCommunicationFrequency(threshold: int) returns (top: seq<FreqRow>)
      modifies this
      ensures rows == Project(old(rows), WithIntCount)
      ensures top == TopCommunicators(Project(old(rows), WithIntCount), threshold)
    {
      rows := Project(rows, WithIntCount);
      top := TopCommunicators(rows, threshold);
    }
  }

  // ---------------------------------------------------------------------
  // plot_traffic_volume_over_time
  // ---------------------------------------------------------------------

  /** Five minutes, in seconds. */
  const BucketSeconds: nat := 300

  /** The bucket of a timestamp: buckets start at multiples of five minutes. */
  function BucketOf(v: Features.Volume): int { v.timestamp / BucketSeconds }

  function SizeSumOf(v: Features.Volume): nat { v.packetSizeSum }

  function PacketCountOf(v: Features.Volume): nat { v.packetCount }

  function MinBucket(rows: seq<Features.Volume>): (b: int)
    requires rows != []
    ensures forall i :: 0 <= i < |rows| ==> b <= BucketOf(rows[i])
    ensures exists i :: 0 <= i < |rows| && b == BucketOf(rows[i])
  {
    if |rows| == 1 then BucketOf(rows[0])
    else
      var m := MinBucket(rows[..|rows| - 1]);
      assert forall i :: 0 <= i < |rows| - 1 ==> rows[..|rows| - 1][i] == rows[i];
      if BucketOf(rows[|rows| - 1]) < m then BucketOf(rows[|rows| - 1]) else m
  }

  function MaxBucket(rows: seq<Features.Volume>): (b: int)
    requires rows != []
    ensures forall i :: 0 <= i < |rows| ==> BucketOf(rows[i]) <= b
    ensures exists i :: 0 <= i < |rows| && b == BucketOf(rows[i])
  {
    if |rows| == 1 then BucketOf(rows[0])
    else
      var m := MaxBucket(rows[..|rows| - 1]);
      assert forall i :: 0 <= i < |rows| - 1 ==> rows[..|rows| - 1][i] == rows[i];
      if BucketOf(rows[|rows| - 1]) > m then BucketOf(rows[|rows| - 1]) else m
  }

  /** The consecutive buckets from the first row's to the last row's. */
  function BucketRange(rows: seq<Features.Volume>): (bs: seq<int>)
    ensures rows == [] ==> bs == []
    ensures rows != [] ==> |bs| == MaxBucket(rows) - MinBucket(rows) + 1
    ensures forall i :: 0 <= i < |bs| ==> bs[i] == MinBucket(rows) + i
  {
    if rows == [] then []
    else seq(MaxBucket(rows) - MinBucket(rows) + 1, i => MinBucket(rows) + i)
  }

  /** `resample('5min').sum()`: one row per five-minute bucket from the
      first to the last, each holding the column sums over its rows; a
      bucket without rows holds zeros. */
  function Resample(rows: seq<Features.Volume>): (buckets: seq<Features.Volume>)
    ensures |buckets| == |BucketRange(rows)|
    ensures forall i :: 0 <= i < |buckets| ==>
      buckets[i].timestamp == BucketRange(rows)[i] * BucketSeconds &&
      buckets[i].packetSizeSum == SumBy(rows, BucketOf, SizeSumOf, BucketRange(rows)[i]) &&
      buckets[i].packetCount == SumBy(rows, BucketOf, PacketCountOf, BucketRange(rows)[i])
  {
    var bs := BucketRange(rows);
    seq(|bs|, i requires 0 <= i < |bs| =>
      Features.Volume(bs[i] * BucketSeconds, SumBy(rows, BucketOf, SizeSumOf, bs[i]), SumBy(rows, BucketOf, PacketCountOf, bs[i])))
  }

  /** A bucket that no row falls in sums to 0. */
  lemma {:induction false} EmptyBucket(rows: seq<Features.Volume>, w: Features.Volume -> nat, b: int)
    requires forall i :: 0 <= i < |rows| ==> BucketOf(rows[i]) != b
    ensures SumBy(rows, BucketOf, w, b) == 0
  {
    if rows != [] {
      EmptyBucket(rows[..|rows| - 1], w, b);
    }
  }

  function CountColumn(buckets: seq<Features.Volume>): seq<nat> {
    Project(buckets, PacketCountOf)
  }

  function SumNat(s: seq<nat>): nat {
    if s == [] then 0 else SumNat(s[..|s| - 1]) + s[|s| - 1]
  }

  /** Resampling loses no packet: the bucket counts add up to the counts of
      all rows. */
  lemma ResampleConservesCount(rows: seq<Features.Volume>)
    ensures SumNat(CountColumn(Resample(rows))) == Total(rows, PacketCountOf)
  {
    var bs := BucketRange(rows);
    var buckets := Resample(rows);
    CountColumnSum(rows, bs);
    assert CountColumn(buckets) == CountsOf(rows, bs);
    assert NoDuplicates(bs);
    if rows != [] {
      forall i | 0 <= i < |rows| ensures BucketOf(rows[i]) in bs {
        var k := BucketOf(rows[i]) - MinBucket(rows);
        assert bs[k] == BucketOf(rows[i]);
      }
    }
    GroupsPartition(rows, BucketOf, PacketCountOf, bs);
    TotalInAll(rows, BucketOf, PacketCountOf, bs);
  }

  function CountsOf(rows: seq<Features.Volume>, bs: seq<int>): (c: seq<nat>)
    ensures |c| == |bs|
    ensures forall i :: 0 <= i < |bs| ==> c[i] == SumBy(rows, BucketOf, PacketCountOf, bs[i])
  {
    if bs == [] then [] else CountsOf(rows, bs[..|bs| - 1]) + [SumBy(rows, BucketOf, PacketCountOf, bs[|bs| - 1])]
  }

  lemma {:induction false} CountColumnSum(rows: seq<Features.Volume>, bs: seq<int>)
    ensures SumNat(CountsOf(rows, bs)) == SumByKeys(rows, BucketOf, PacketCountOf, bs)
  {
    if bs != [] {
      CountColumnSum(rows, bs[..|bs| - 1]);
      assert CountsOf(rows, bs)[..|bs| - 1] == CountsOf(rows, bs[..|bs| - 1]);
    }
  }

  const SmoothingWindow: nat := 5

  /** The trailing window of `rolling(window=5, min_periods=1)` at `i`. */
  function Window(s: seq<nat>, i: nat): (w: seq<nat>)
    requires i < |s|
    ensures |w| == if i + 1 < SmoothingWindow then i + 1 else SmoothingWindow
    ensures w == s[i + 1 - |w|..i + 1]
  {
    if i + 1 < SmoothingWindow then s[..i + 1] else s[i + 1 - SmoothingWindow..i + 1]
  }

  /** The mean of a non-empty window. */
  function Mean(w: seq<nat>): (m: real)
    requires |w| > 0
    ensures m * |w| as real == SumNat(w) as real
  {
    SumNat(w) as real / |w| as real
  }

  /** `.rolling(window=5, min_periods=1).mean()`: value `i` is the mean of
      the last min(i + 1, 5) counts. */
  function Smooth(s: seq<nat>): (m: seq<real>)
    ensures |m| == |s|
    ensures forall i :: 0 <= i < |s| ==> m[i] == Mean(Window(s, i))
  {
    seq(|s|, i requires 0 <= i < |s| => Mean(Window(s, i)))
  }

  lemma {:induction false} SumNatBounds(w: seq<nat>, lo: nat, hi: nat)
    requires forall i :: 0 <= i < |w| ==> lo <= w[i] <= hi
    ensures |w| * lo <= SumNat(w) <= |w| * hi
  {
    if w != [] {
      var n := |w| - 1;
      SumNatBounds(w[..n], lo, hi);
      assert SumNat(w) == SumNat(w[..n]) + w[n];
      assert (n + 1) * lo == n * lo + lo;
      assert (n + 1) * hi == n * hi + hi;
    }
  }

  /** The mean of counts between `lo` and `hi` is between them too. */
  lemma MeanBounds(w: seq<nat>, lo: nat, hi: nat)
    requires |w| > 0
    requires forall i :: 0 <= i < |w| ==> lo <= w[i] <= hi
    ensures lo as real <= Mean(w) <= hi as real
  {
    SumNatBounds(w, lo, hi);
    QuotientBoundsNat(|w|, SumNat(w), lo, hi, Mean(w));
  }

  lemma QuotientBoundsNat(n: nat, total: nat, lo: nat, hi: nat, m: real)
    requires n > 0 && m * n as real == total as real
    requires n * lo <= total <= n * hi
    ensures lo as real <= m <= hi as real
  {
    CastProduct(n, lo);
    CastProduct(n, hi);
    QuotientBounds(m, n as real, total as real, lo as real, hi as real);
  }

  lemma CastProduct(a: nat, b: nat)
    ensures (a * b) as real == a as real * b as real
  {
  }

  lemma QuotientBounds(m: real, n: real, total: real, lo: real, hi: real)
    requires n > 0.0 && m * n == total
    requires n * lo <= total <= n * hi
    ensures lo <= m <= hi
  {
  }

  /** A moving average stays between the smallest and the largest count. */
  lemma SmoothBounds(s: seq<nat>, lo: nat, hi: nat)
    requires forall i :: 0 <= i < |s| ==> lo <= s[i] <= hi
    ensures forall i :: 0 <= i < |s| ==> lo as real <= Smooth(s)[i] <= hi as real
  {
    forall i | 0 <= i < |s| ensures lo as real <= Smooth(s)[i] <= hi as real {
      var w := Window(s, i);
      assert forall j :: 0 <= j < |w| ==> w[j] == s[i + 1 - |w| + j];
      MeanBounds(w, lo, hi);
    }
  }

  /** Constant counts are left as they are. */
  lemma SmoothConstant(s: seq<nat>, c: nat)
    requires forall i :: 0 <= i < |s| ==> s[i] == c
    ensures forall i :: 0 <= i < |s| ==> Smooth(s)[i] == c as real
  {
    SmoothBounds(s, c, c);
  }

  /** The traffic volume table the line chart reads; `timestampIndex` is
      set once the timestamp column has been moved to the index. */
  class VolumeFrame {
    var rows: seq<Features.Volume>
    var timestampIndex: bool

    constructor (data: seq<Features.Volume>)
      ensures rows == data && !timestampIndex
    {
      rows := data;
      timestampIndex := false;
    }

    /** Moves the timestamp to the index, resamples into five-minute buckets
        and smooths the packet counts. A frame whose timestamp is already
        the index has no timestamp column: KeyError. */
    method PlotTrafficVolumeOverTime() returns (smoothed: Option<seq<real>>)
      modifies this
      ensures rows == old(rows) && timestampIndex
      ensures old(timestampIndex) ==> smoothed.None?
      ensures !old(timestampIndex) ==> smoothed == Some(Smooth(CountColumn(Resample(rows))))
    {
      if timestampIndex {
        return None;
      }
      timestampIndex := true;
      var resampled := Resample(rows);
      return Some(Smooth(CountColumn(resampled)));
    }
  }

  // ---------------------------------------------------------------------
  // The main loop: which dataset folder a feature file belongs to
  // ---------------------------------------------------------------------

  const CapturePrefix: string := "botnet-capture-"

  const DatasetFolderMap: map<string, string> := map[
    "20110810-neris" := "1",
    "20110811-neris" := "2",
    "20110812-rbot" := "3",
    "20110815-rbot-dos" := "4",
    "20110815-fast-flux" := "5",
    "20110816-donbot" := "6",
    "20110816-sogou" := "7",
    "20110816-qvod" := "8",
    "20110817-bot" := "9",
    "20110818-filtered" := "10",
    "20110818-bot-2" := "11",
    "20110819-bot" := "12",
    "20110815-fast-flux-2" := "13"]

  /** The prefix and the three feature suffixes removed, wherever they
      occur, in that order. */
  function BaseName(filename: string): (b: string)
    ensures |b| <= |filename|
  {
    RemoveAll(RemoveAll(RemoveAll(RemoveAll(filename, CapturePrefix),
      Features.PacketSizesSuffix), Features.CommunicationFrequencySuffix), Features.TrafficVolumeSuffix)
  }

  /** `dataset_folder_map.get(base_name)` */
  function FolderFor(filename: string): (folder: Option<string>)
    ensures folder.Some? <==> BaseName(filename) in DatasetFolderMap
    ensures folder.Some? ==> folder.value == DatasetFolderMap[BaseName(filename)]
  {
    var b := BaseName(filename);
    if b in DatasetFolderMap then Some(DatasetFolderMap[b]) else None
  }

  /** A feature file written for capture `stem` maps back to `stem`, as long
      as none of the removed patterns occurs elsewhere in the name. */
  lemma BaseNameOfFeatureFile(stem: string, suffix: string)
    requires suffix in {Features.PacketSizesSuffix, Features.CommunicationFrequencySuffix, Features.TrafficVolumeSuffix}
    requires NoMatchBefore(stem + suffix, CapturePrefix, |stem + suffix|)
    requires NoMatchBefore(stem + suffix, suffix, |stem|)
    requires forall other :: other in {Features.PacketSizesSuffix, Features.CommunicationFrequencySuffix,
                                       Features.TrafficVolumeSuffix} && other != suffix ==>
               NoMatchBefore(stem + suffix, other, |stem + suffix|) && NoMatchBefore(stem, other, |stem|)
    ensures BaseName(CapturePrefix + stem + suffix) == stem
  {
    var rest := stem + suffix;
    assert CapturePrefix + stem + suffix == CapturePrefix + rest;
    StripLeading(rest);
    RemoveAllAbsent(rest, CapturePrefix);
    assert RemoveAll(CapturePrefix + rest, CapturePrefix) == rest;
    var p, c, t := Features.PacketSizesSuffix, Features.CommunicationFrequencySuffix, Features.TrafficVolumeSuffix;
    if suffix == p {
      RemoveAllTrailing(stem, p);
      RemoveAllAbsent(stem, c);
      RemoveAllAbsent(stem, t);
    } else if suffix == c {
      RemoveAllAbsent(rest, p);
      RemoveAllTrailing(stem, c);
      RemoveAllAbsent(stem, t);
    } else {
      RemoveAllAbsent(rest, p);
      RemoveAllAbsent(rest, c);
      RemoveAllTrailing(stem, t);
    }
  }

  /** A leading occurrence of the prefix is removed first. */
  lemma StripLeading(rest: string)
    ensures RemoveAll(CapturePrefix + rest, CapturePrefix) == RemoveAll(rest, CapturePrefix)
  {
    var s := CapturePrefix + rest;
    assert s[..|CapturePrefix|] == CapturePrefix;
    assert s[|CapturePrefix|..] == rest;
  }

  /** The main loop over a feature directory's listing: unmapped names are
      skipped, the others are plotted into their dataset folder. */
  method SelectFeatureFiles(filenames: seq<string>) returns (jobs: seq<(string, string)>)
    ensures jobs == MappedFiles(filenames)
  {
    jobs := [];
    for i := 0 to |filenames|
      invariant jobs == MappedFiles(filenames[..i])
    {
      assert filenames[..i + 1][..i] == filenames[..i];
      var folder := FolderFor(filenames[i]);
      if folder.None? {
        continue;
      }
      jobs := jobs + [(filenames[i], folder.value)];
    }
    assert filenames[..|filenames|] == filenames;
  }

  /** The (file, folder) pairs the loop plots, in listing order. */
  function MappedFiles(filenames: seq<string>): (jobs: seq<(string, string)>)
    ensures forall j :: j in jobs ==> j.0 in filenames && FolderFor(j.0) == Some(j.1)
    ensures forall f :: f in filenames && FolderFor(f).Some? ==> (f, FolderFor(f).value) in jobs
  {
    if filenames == [] then []
    else
      var init, f := filenames[..|filenames| - 1], filenames[|filenames| - 1];
      var jobs := MappedFiles(init) + (if FolderFor(f).Some? then [(f, FolderFor(f).value)] else []);
      assert forall g :: g in filenames <==> g in init || g == f;
      jobs
  }
}

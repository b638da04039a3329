/** Phase-2 feature extraction from a processed capture table: the packet
    size column, the number of rows per (source, destination) pair, and per
    timestamp the byte total and the number of sized rows. Each extractor is
    a pure function of the table. */
module Features {
  import opened Grouping
  import opened Analysis
  import Names

  // ---------------------------------------------------------------------
  // extract_packet_sizes
  // ---------------------------------------------------------------------

  function SizeOf(f: Flow): Option<nat> { f.packetSize }

  /** `df[['packet_size']]`: the one column, same length, same order. */
  function ExtractPacketSizes(rows: seq<Flow>): (sizes: seq<Option<nat>>)
    ensures |sizes| == |rows|
    ensures forall i :: 0 <= i < |rows| ==> sizes[i] == rows[i].packetSize
  {
    Project(rows, SizeOf)
  }

  // ---------------------------------------------------------------------
  // extract_communication_frequency
  // ---------------------------------------------------------------------

  type Pair = (Ip, Ip)

  function PairOf(f: Flow): Pair { (f.srcIp, f.dstIp) }

  /** `groupby(['src_ip', 'dst_ip']).size()`: one entry per pair that occurs,
      no pair twice, each count the number of rows with that pair (so at
      least one), and the counts add up to the number of rows. */
  function ExtractCommunicationFrequency(rows: seq<Flow>): (t: seq<(Pair, nat)>)
    ensures NoDuplicates(Project(t, GroupKey))
    ensures forall pr :: pr in Project(t, GroupKey) <==> pr in Project(rows, PairOf)
    ensures forall i :: 0 <= i < |t| ==> t[i].1 == CountBy(rows, PairOf, t[i].0) && t[i].1 >= 1
    ensures SumCounts(t) == |rows|
  {
    GroupSizes(rows, PairOf)
  }

  // ---------------------------------------------------------------------
  // extract_traffic_volume
  // ---------------------------------------------------------------------

  function TimestampOf(f: Flow): int { f.timestamp }

  /** What 'sum' adds for a row: its size, or nothing when it is missing. */
  function SizeOrZero(f: Flow): nat {
    if f.packetSize.Some? then f.packetSize.value else 0
  }

  predicate HasSize(f: Flow) { f.packetSize.Some? }

  /** What 'count' adds for a row: one when its size is present. */
  function SizeCount(f: Flow): nat {
    if f.packetSize.Some? then 1 else 0
  }

  /** The timestamp of a row that has a size, None for a row without one. */
  function SizedTimestamp(f: Flow): Option<int> {
    if f.packetSize.Some? then Some(f.timestamp) else None
  }

  datatype Volume = Volume(timestamp: int, packetSizeSum: nat, packetCount: nat)

  function VolumeTime(v: Volume): int { v.timestamp }

  /** One volume row per listed timestamp. */
  function VolumeRows(rows: seq<Flow>, ks: seq<int>): (v: seq<Volume>)
    ensures |v| == |ks|
    ensures forall i :: 0 <= i < |ks| ==>
      v[i] == Volume(ks[i], SumBy(rows, TimestampOf, SizeOrZero, ks[i]), SumBy(rows, TimestampOf, SizeCount, ks[i]))
  {
    if ks == [] then []
    else
      var k := ks[|ks| - 1];
      VolumeRows(rows, ks[..|ks| - 1])
        + [Volume(k, SumBy(rows, TimestampOf, SizeOrZero, k), SumBy(rows, TimestampOf, SizeCount, k))]
  }

  /** The rows that 'count' counts for timestamp `k` are those with that
      timestamp and a size. */
  lemma {:induction false} SizeCountIsCount(rows: seq<Flow>, k: int)
    ensures SumBy(rows, TimestampOf, SizeCount, k) == CountBy(rows, SizedTimestamp, Some(k))
  {
    if rows != [] {
      SizeCountIsCount(rows[..|rows| - 1], k);
    }
  }

  /** `groupby('timestamp').agg(sum, count)`: one row per timestamp that
      occurs, none twice; its byte total is the sum of the sizes of the rows
      with that timestamp and its count the number of those rows that have a
      size. */
  function ExtractTrafficVolume(rows: seq<Flow>): (v: seq<Volume>)
    ensures NoDuplicates(Project(v, VolumeTime))
    ensures forall k :: k in Project(v, VolumeTime) <==> k in Project(rows, TimestampOf)
    ensures forall i :: 0 <= i < |v| ==>
      v[i].packetSizeSum == SumBy(rows, TimestampOf, SizeOrZero, v[i].timestamp)
    ensures forall i :: 0 <= i < |v| ==>
      v[i].packetCount == CountBy(rows, SizedTimestamp, Some(v[i].timestamp))
  {
    var ks := DistinctKeys(rows, TimestampOf);
    var v := VolumeRows(rows, ks);
    assert Project(v, VolumeTime) == ks;
    forall k ensures k in ks <==> k in Project(rows, TimestampOf) {
      if k in Project(rows, TimestampOf) {
        var j :| 0 <= j < |rows| && Project(rows, TimestampOf)[j] == k;
      }
    }
    forall i | 0 <= i < |v| ensures v[i].packetCount == CountBy(rows, SizedTimestamp, Some(v[i].timestamp)) {
      SizeCountIsCount(rows, ks[i]);
    }
    v
  }

  function SumSizeColumn(v: seq<Volume>): nat {
    if v == [] then 0 else SumSizeColumn(v[..|v| - 1]) + v[|v| - 1].packetSizeSum
  }

  function SumCountColumn(v: seq<Volume>): nat {
    if v == [] then 0 else SumCountColumn(v[..|v| - 1]) + v[|v| - 1].packetCount
  }

  lemma {:induction false} VolumeColumnSums(rows: seq<Flow>, ks: seq<int>)
    ensures SumSizeColumn(VolumeRows(rows, ks)) == SumByKeys(rows, TimestampOf, SizeOrZero, ks)
    ensures SumCountColumn(VolumeRows(rows, ks)) == SumByKeys(rows, TimestampOf, SizeCount, ks)
  {
    if ks != [] {
      VolumeColumnSums(rows, ks[..|ks| - 1]);
      assert VolumeRows(rows, ks)[..|ks| - 1] == VolumeRows(rows, ks[..|ks| - 1]);
    }
  }

  /** The rows that have a size, counted. */
  lemma {:induction false} SizedRows(rows: seq<Flow>)
    ensures Total(rows, SizeCount) == |Filter(rows, HasSize)|
  {
    if rows != [] {
      var init, r := rows[..|rows| - 1], rows[|rows| - 1];
      SizedRows(init);
      assert rows == init + [r];
      FilterAppend(init, [r], HasSize);
      assert Filter([r], HasSize) == if HasSize(r) then [r] else [];
    }
  }

  /** Every row's timestamp is one of the groups. */
  lemma AllTimestampsGrouped(rows: seq<Flow>)
    ensures forall i :: 0 <= i < |rows| ==> TimestampOf(rows[i]) in DistinctKeys(rows, TimestampOf)
  {
  }

  /** Nothing is lost or counted twice: the byte totals add up to the bytes
      of the whole table. */
  lemma VolumeBytesConserved(rows: seq<Flow>)
    ensures SumSizeColumn(ExtractTrafficVolume(rows)) == Total(rows, SizeOrZero)
  {
    var ks := DistinctKeys(rows, TimestampOf);
    assert ExtractTrafficVolume(rows) == VolumeRows(rows, ks);
    VolumeColumnSums(rows, ks);
    GroupsPartition(rows, TimestampOf, SizeOrZero, ks);
    AllTimestampsGrouped(rows);
    TotalInAll(rows, TimestampOf, SizeOrZero, ks);
  }

  /** The per-timestamp counts add up to the number of rows with a size. */
  lemma VolumeCountsConserved(rows: seq<Flow>)
    ensures SumCountColumn(ExtractTrafficVolume(rows)) == |Filter(rows, HasSize)|
  {
    var ks := DistinctKeys(rows, TimestampOf);
    assert ExtractTrafficVolume(rows) == VolumeRows(rows, ks);
    VolumeColumnSums(rows, ks);
    GroupsPartition(rows, TimestampOf, SizeCount, ks);
    AllTimestampsGrouped(rows);
    TotalInAll(rows, TimestampOf, SizeCount, ks);
    SizedRows(rows);
  }

  // ---------------------------------------------------------------------
  // Output names
  // ---------------------------------------------------------------------

  const ProcessedSuffix: string := "_processed.csv"

  /** The suffixes of the three feature files written for a stem. */
  const PacketSizesSuffix: string := "_packet_sizes.csv"
  const CommunicationFrequencySuffix: string := "_communication_frequency.csv"
  const TrafficVolumeSuffix: string := "_traffic_volume.csv"

  /** `os.path.basename(dataset_path).replace('_processed.csv', '')`: the
      stem the three feature files are named after. */
  function OutputStem(datasetPath: string): (stem: string)
    ensures |stem| <= |datasetPath|
  {
    Names.RemoveAll(Names.Basename(datasetPath), ProcessedSuffix)
  }

  /** For a processed capture `dir/stem_processed.csv` the stem is recovered,
      when the suffix does not occur earlier in the name. */
  lemma OutputStemOf(dir: string, stem: string)
    requires Names.Sep !in stem
    requires Names.NoMatchBefore(stem + ProcessedSuffix, ProcessedSuffix, |stem|)
    ensures OutputStem(dir + [Names.Sep] + stem + ProcessedSuffix) == stem
  {
    var name := stem + ProcessedSuffix;
    assert Names.Sep !in ProcessedSuffix;
    assert Names.Sep !in name;
    assert dir + [Names.Sep] + stem + ProcessedSuffix == dir + [Names.Sep] + name;
    Names.AfterLastSepOf(dir, name);
    assert Names.Basename(dir + [Names.Sep] + name) == name;
    Names.RemoveAllTrailing(stem, ProcessedSuffix);
  }
}

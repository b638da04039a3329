/** Phase-1 architecture analysis of a capture: read at most `sample_size`
    packets, one row per packet that has an IP layer, drop duplicate rows,
    then summarise who talks to whom: pair counts, the ten destinations
    with the most distinct partners, per-destination counts and the UDP
    subset. */
module Architecture {
  import opened Grouping
  import opened Ranking
  import opened Names

  type Ip = string

  /** A packet of the capture file. `isIp` is what the reader's display
      filter "ip" tests; `ip` is the source and destination as the loop reads
      them, absent when reading them raises AttributeError; `transport` is
      the transport layer's name, None when there is none. */
  datatype RawPacket = RawPacket(isIp: bool, ip: Option<(Ip, Ip)>, transport: Option<string>, length: nat, sniffTime: real)

  /** Opening the capture either fails or yields the packets of the file. */
  datatype Capture = OpenFailed | Opened(packets: seq<RawPacket>)

  predicate IsIp(p: RawPacket) { p.isIp }

  /** `FileCapture(..., display_filter="ip")`: the reader yields only the IP
      packets of the file, in file order, so only those are enumerated. */
  function DisplayFilter(packets: seq<RawPacket>): (shown: seq<RawPacket>)
    ensures forall p :: p in shown <==> p in packets && p.isIp
    ensures IsSubseq(shown, packets)
  {
    Filter(packets, IsIp)
  }

  datatype Row = Row(timestamp: real, srcIp: Ip, dstIp: Ip, protocol: Option<string>, packetSize: nat)

  const DefaultSampleSize: int := 1000

  // ---------------------------------------------------------------------
  // analyze_pcap
  // ---------------------------------------------------------------------

  /** How many packets the loop looks at before `i >= sample_size` breaks. */
  function Examined(available: nat, sampleSize: int): (n: nat)
    ensures n <= available && n as int <= (if sampleSize < 0 then 0 else sampleSize)
    ensures n == available || n as int == (if sampleSize < 0 then 0 else sampleSize)
  {
    if sampleSize <= 0 then 0 else if available <= sampleSize then available else sampleSize
  }

  function RowOf(p: RawPacket): Row
    requires p.ip.Some?
  {
    Row(p.sniffTime, p.ip.value.0, p.ip.value.1, p.transport, p.length)
  }

  /** The rows appended for the examined packets: a packet without an IP
      layer is skipped and the loop goes on. */
  function ExtractedRows(packets: seq<RawPacket>): (rows: seq<Row>)
    ensures |rows| <= |packets|
  {
    if packets == [] then []
    else
      var p := packets[|packets| - 1];
      ExtractedRows(packets[..|packets| - 1]) + (if p.ip.Some? then [RowOf(p)] else [])
  }

  /** Every extracted row is the row of an examined packet with an IP layer,
      and every such packet contributes its row. */
  lemma {:induction false} ExtractedRowsExact(packets: seq<RawPacket>)
    ensures forall r :: r in ExtractedRows(packets) <==>
      exists i :: 0 <= i < |packets| && packets[i].ip.Some? && r == RowOf(packets[i])
  {
    if packets != [] {
      var init, p := packets[..|packets| - 1], packets[|packets| - 1];
      ExtractedRowsExact(init);
      forall r ensures r in ExtractedRows(packets) <==>
        exists i :: 0 <= i < |packets| && packets[i].ip.Some? && r == RowOf(packets[i])
      {
        if exists i :: 0 <= i < |packets| && packets[i].ip.Some? && r == RowOf(packets[i]) {
          var i :| 0 <= i < |packets| && packets[i].ip.Some? && r == RowOf(packets[i]);
          if i < |init| {
            assert init[i] == packets[i];
          }
        }
        if r in ExtractedRows(init) {
          var i :| 0 <= i < |init| && init[i].ip.Some? && r == RowOf(init[i]);
          assert packets[i] == init[i];
        }
      }
    }
  }

  /** The table analyze_pcap returns: empty when the capture cannot be
      opened, otherwise the de-duplicated rows of the first `sample_size`
      packets the reader yields. */
  function SampleTable(capture: Capture, sampleSize: int): (table: seq<Row>)
    ensures capture.OpenFailed? ==> table == []
    ensures NoDuplicates(table)
  {
    match capture
    case OpenFailed => []
    case Opened(packets) =>
      var shown := DisplayFilter(packets);
      Distinct(ExtractedRows(shown[..Examined(|shown|, sampleSize)]))
  }

  /** No two rows of the table are equal, it never has more rows than the
      sample size, and each row comes from a packet within the sample of
      the filtered packets. */
  lemma SampleTableBounds(capture: Capture, sampleSize: int)
    ensures NoDuplicates(SampleTable(capture, sampleSize))
    ensures |SampleTable(capture, sampleSize)| <= if sampleSize < 0 then 0 else sampleSize
    ensures capture.Opened? ==> forall r :: r in SampleTable(capture, sampleSize) <==>
      exists i :: 0 <= i < Examined(|DisplayFilter(capture.packets)|, sampleSize) &&
        DisplayFilter(capture.packets)[i].ip.Some? && r == RowOf(DisplayFilter(capture.packets)[i])
  {
    if capture.Opened? {
      var shown := DisplayFilter(capture.packets);
      var n := Examined(|shown|, sampleSize);
      var sample := shown[..n];
      ExtractedRowsExact(sample);
      forall r | r in SampleTable(capture, sampleSize)
        ensures exists i :: 0 <= i < n && shown[i].ip.Some? && r == RowOf(shown[i])
      {
        var i :| 0 <= i < |sample| && sample[i].ip.Some? && r == RowOf(sample[i]);
        assert sample[i] == shown[i];
      }
      forall i | 0 <= i < n && shown[i].ip.Some?
        ensures RowOf(shown[i]) in SampleTable(capture, sampleSize)
      {
        assert sample[i] == shown[i];
      }
    }
  }

  /** Packets the display filter drops never take a sample index: putting
      non-IP packets in front of a capture leaves its table unchanged. */
  lemma {:induction false} NonIpPacketsIgnored(front: seq<RawPacket>, packets: seq<RawPacket>, sampleSize: int)
    requires forall i :: 0 <= i < |front| ==> !front[i].isIp
    ensures SampleTable(Opened(front + packets), sampleSize) == SampleTable(Opened(packets), sampleSize)
  {
    FilterAppend(front, packets, IsIp);
    FilterNone(front, IsIp);
    assert DisplayFilter(front + packets) == DisplayFilter(packets);
  }

  /** analyze_pcap: open the capture through the display filter, run the
      sampling loop, then drop_duplicates. */
  method AnalyzePcap(capture: Capture, sampleSize: int) returns (df: seq<Row>)
    ensures df == SampleTable(capture, sampleSize)
  {
    if capture.OpenFailed? {
      return [];
    }
    var data := SampleLoop(DisplayFilter(capture.packets), sampleSize);
    df := Distinct(data);
  }

  /** The loop over the packets the reader yields, with its early `break`
      at the sample size and its `continue` on a missing field. */
  method SampleLoop(packets: seq<RawPacket>, sampleSize: int) returns (data: seq<Row>)
    ensures data == ExtractedRows(packets[..Examined(|packets|, sampleSize)])
  {
    data := [];
    var i := 0;
    while i < |packets|
      invariant 0 <= i <= |packets|
      invariant i <= Examined(|packets|, sampleSize) || (sampleSize <= 0 && i == 0)
      invariant data == ExtractedRows(packets[..i])
    {
      if i >= sampleSize {
        break;
      }
      var pkt := packets[i];
      assert packets[..i + 1][..i] == packets[..i];
      if pkt.ip.None? {
        i := i + 1;
        continue;
      }
      data := data + [RowOf(pkt)];
      i := i + 1;
    }
    assert i == Examined(|packets|, sampleSize);
  }

  // ---------------------------------------------------------------------
  // analyze_ctu13_datasets: the aggregations
  // ---------------------------------------------------------------------

  type Pair = (Ip, Ip)

  function PairOf(r: Row): Pair { (r.srcIp, r.dstIp) }

  function DstOf(r: Row): Ip { r.dstIp }

  /** `groupby(['src_ip', 'dst_ip']).size()` */
  function PairCounts(rows: seq<Row>): (t: seq<(Pair, nat)>)
    ensures NoDuplicates(Project(t, GroupKey))
    ensures forall pr :: pr in Project(t, GroupKey) <==> pr in Project(rows, PairOf)
    ensures forall i :: 0 <= i < |t| ==> t[i].1 == CountBy(rows, PairOf, t[i].0) && t[i].1 >= 1
    ensures SumCounts(t) == |rows|
  {
    GroupSizes(rows, PairOf)
  }

  function PairDst(e: (Pair, nat)): Ip { e.0.1 }

  function EntryCount(e: (Ip, nat)): int { e.1 }

  /** The distinct sources that sent to `dst`. */
  function PartnersOf(rows: seq<Row>, dst: Ip): set<Ip> {
    set r | r in rows && r.dstIp == dst :: r.srcIp
  }

  /** `ip_comm_freq['dst_ip'].value_counts().head(10)`: the pair table has
      one entry per distinct pair, so counting its destinations counts each
      destination's distinct partners; the ten largest are kept. */
  function Centralization(rows: seq<Row>): (top: seq<(Ip, nat)>)
    ensures |top| == if 10 < |Distinct(Project(rows, DstOf))| then 10 else |Distinct(Project(rows, DstOf))|
    ensures NoDuplicates(Project(top, GroupKey))
    ensures SortedDesc(top, EntryCount)
    ensures forall i :: 0 <= i < |top| ==> top[i].1 == |PartnersOf(rows, top[i].0)| && top[i].1 >= 1
  {
    var tally := GroupSizes(PairCounts(rows), PairDst);
    var top := TopN(tally, 10, EntryCount);
    TopNMembers(tally, 10, EntryCount);
    forall i | 0 <= i < |top| ensures top[i].1 == |PartnersOf(rows, top[i].0)| && top[i].1 >= 1 {
      PartnerTally(rows, top[i]);
    }
    DestinationTallySize(rows);
    SubMultisetKeysDistinct(top, tally);
    top
  }

  /** The destination tally has one entry per distinct destination of the
      table (what `value_counts` counts before `head`). */
  lemma DestinationTallySize(rows: seq<Row>)
    ensures |GroupSizes(PairCounts(rows), PairDst)| == |Distinct(Project(rows, DstOf))|
  {
    var tk := Project(GroupSizes(PairCounts(rows), PairDst), GroupKey);
    var dsts := Distinct(Project(rows, DstOf));
    forall d ensures d in tk <==> d in dsts {
      if d in dsts {
        DestinationOfSomePair(rows, d);
      }
      if d in tk {
        PairDestinationIsDestination(rows, d);
      }
    }
    SameValuesSameLength(tk, dsts);
  }

  /** Every pair destination is a destination of the table. */
  lemma PairDestinationIsDestination(rows: seq<Row>, d: Ip)
    requires d in Project(PairCounts(rows), PairDst)
    ensures d in Project(rows, DstOf)
  {
    var pairs := PairCounts(rows);
    var j :| 0 <= j < |pairs| && Project(pairs, PairDst)[j] == d;
    var pr := pairs[j].0;
    assert Project(pairs, GroupKey)[j] == pr;
    var k :| 0 <= k < |rows| && Project(rows, PairOf)[k] == pr;
    assert Project(rows, DstOf)[k] == d;
  }

  /** A destination of the table that is not among the ten has no more
      distinct partners than any destination that is. */
  lemma CentralizationDominates(rows: seq<Row>, d: Ip)
    requires d in Project(rows, DstOf)
    requires d !in Project(Centralization(rows), GroupKey)
    ensures forall i :: 0 <= i < |Centralization(rows)| ==>
      |PartnersOf(rows, d)| <= Centralization(rows)[i].1
  {
    var tally := GroupSizes(PairCounts(rows), PairDst);
    var e := DestinationEntry(rows, d);
    PartnerTally(rows, e);
    NotListed(Centralization(rows), e);
    assert Centralization(rows) == TopN(tally, 10, EntryCount);
    TopNExcluded(tally, 10, EntryCount, e);
  }

  /** The destination tally has an entry for every destination of the table. */
  lemma DestinationEntry(rows: seq<Row>, d: Ip) returns (e: (Ip, nat))
    requires d in Project(rows, DstOf)
    ensures e in GroupSizes(PairCounts(rows), PairDst) && e.0 == d
  {
    DestinationOfSomePair(rows, d);
    e := GroupEntryFor(PairCounts(rows), PairDst, d);
  }

  /** Every destination of the table is the destination of one of its pairs. */
  lemma DestinationOfSomePair(rows: seq<Row>, d: Ip)
    requires d in Project(rows, DstOf)
    ensures d in Project(PairCounts(rows), PairDst)
  {
    var k := ProjectIndex(rows, DstOf, d);
    var pr := PairOf(rows[k]);
    ProjectHas(rows, PairOf, k);
    var pairs := PairCounts(rows);
    var j := ProjectIndex(pairs, GroupKey, pr);
    ProjectHas(pairs, PairDst, j);
  }

  lemma NotListed(top: seq<(Ip, nat)>, e: (Ip, nat))
    requires e.0 !in Project(top, GroupKey)
    ensures e !in top
  {
  }

  /** Each entry of the destination tally counts the destination's distinct
      partners. */
  lemma PartnerTally(rows: seq<Row>, e: (Ip, nat))
    requires e in GroupSizes(PairCounts(rows), PairDst)
    ensures e.1 == |PartnersOf(rows, e.0)| && e.1 >= 1
  {
    var tally := GroupSizes(PairCounts(rows), PairDst);
    var j :| 0 <= j < |tally| && tally[j] == e;
    PartnerCount(rows, e.0);
  }

  /** The sources paired with `dst` in a pair table. */
  function SourcesTo(pairs: seq<(Pair, nat)>, dst: Ip): (srcs: set<Ip>)
    ensures forall x :: x in srcs <==> exists j :: 0 <= j < |pairs| && pairs[j].0 == (x, dst)
  {
    if pairs == [] then {}
    else
      var init, last := pairs[..|pairs| - 1], pairs[|pairs| - 1];
      var srcs := SourcesTo(init, dst) + (if last.0.1 == dst then {last.0.0} else {});
      assert forall j :: 0 <= j < |init| ==> init[j] == pairs[j];
      srcs
  }

  /** Destinations of the pair table are counted once per distinct partner. */
  lemma PartnerCount(rows: seq<Row>, dst: Ip)
    ensures CountBy(PairCounts(rows), PairDst, dst) == |PartnersOf(rows, dst)|
  {
    DistinctPairsByDst(PairCounts(rows), dst);
    PartnersArePairSources(rows, dst);
    PairSourcesArePartners(rows, dst);
    assert SourcesTo(PairCounts(rows), dst) == PartnersOf(rows, dst);
  }

  lemma PartnersArePairSources(rows: seq<Row>, dst: Ip)
    ensures PartnersOf(rows, dst) <= SourcesTo(PairCounts(rows), dst)
  {
    var pairs := PairCounts(rows);
    var keys := Project(pairs, GroupKey);
    forall x | x in PartnersOf(rows, dst) ensures x in SourcesTo(pairs, dst) {
      var r :| r in rows && r.dstIp == dst && r.srcIp == x;
      var k :| 0 <= k < |rows| && rows[k] == r;
      assert (x, dst) == Project(rows, PairOf)[k];
      assert (x, dst) in Project(rows, PairOf);
      assert (x, dst) in keys;
      var j :| 0 <= j < |keys| && keys[j] == (x, dst);
      assert pairs[j].0 == (x, dst);
    }
  }

  lemma PairSourcesArePartners(rows: seq<Row>, dst: Ip)
    ensures SourcesTo(PairCounts(rows), dst) <= PartnersOf(rows, dst)
  {
    var pairs := PairCounts(rows);
    var keys := Project(pairs, GroupKey);
    forall x | x in SourcesTo(pairs, dst) ensures x in PartnersOf(rows, dst) {
      var j :| 0 <= j < |pairs| && pairs[j].0 == (x, dst);
      assert keys[j] == (x, dst);
      assert (x, dst) in Project(rows, PairOf);
      var k :| 0 <= k < |rows| && Project(rows, PairOf)[k] == (x, dst);
      assert rows[k] in rows && rows[k].dstIp == dst && rows[k].srcIp == x;
    }
  }

  /** In a table whose pairs are all different, the entries with destination
      `dst` are as many as their distinct sources. */
  lemma {:induction false} DistinctPairsByDst(pairs: seq<(Pair, nat)>, dst: Ip)
    requires NoDuplicates(Project(pairs, GroupKey))
    ensures CountBy(pairs, PairDst, dst) == |SourcesTo(pairs, dst)|
  {
    if pairs != [] {
      var init, last := pairs[..|pairs| - 1], pairs[|pairs| - 1];
      var keys := Project(pairs, GroupKey);
      assert Project(init, GroupKey) == keys[..|init|];
      DistinctPairsByDst(init, dst);
      assert forall j :: 0 <= j < |init| ==> init[j].0 == keys[j] != keys[|init|] == last.0;
      assert last.0.0 !in SourcesTo(init, dst) || last.0.1 != dst;
    }
  }

  /** `groupby('dst_ip').size()` */
  function DestinationCounts(rows: seq<Row>): (t: seq<(Ip, nat)>)
    ensures NoDuplicates(Project(t, GroupKey))
    ensures forall d :: d in Project(t, GroupKey) <==> d in Project(rows, DstOf)
    ensures forall i :: 0 <= i < |t| ==> t[i].1 == CountBy(rows, DstOf, t[i].0) && t[i].1 >= 1
    ensures SumCounts(t) == |rows|
  {
    GroupSizes(rows, DstOf)
  }

  predicate IsUdp(r: Row) { r.protocol == Some("UDP") }

  /** `data[data['protocol'] == 'UDP']` */
  function UdpRows(rows: seq<Row>): (udp: seq<Row>)
    ensures IsSubseq(udp, rows)
    ensures forall r :: r in udp <==> r in rows && r.protocol == Some("UDP")
    ensures forall r :: IsUdp(r) ==> multiset(udp)[r] == multiset(rows)[r]
  {
    Filter(rows, IsUdp)
  }

  /** The dataset number: the name of the folder holding the capture. */
  function DatasetNumber(path: string): (n: string)
    ensures Sep !in n
  {
    Basename(Dirname(path))
  }

  lemma DatasetNumberOfLayout(root: string, number: string, file: string)
    requires Sep !in number && Sep !in file && number != []
    ensures DatasetNumber(root + [Sep] + number + [Sep] + file) == number
  {
    ParentName(root, number, file);
  }

  datatype DatasetReport = DatasetReport(
    datasetNumber: string,
    pairCounts: seq<(Pair, nat)>,
    centralized: seq<(Ip, nat)>,
    c2Communication: seq<(Ip, nat)>,
    udpData: seq<Row>)

  /** One iteration of analyze_ctu13_datasets: an empty table is skipped. */
  method AnalyzeDataset(path: string, capture: Capture) returns (report: Option<DatasetReport>)
    ensures report.None? <==> SampleTable(capture, DefaultSampleSize) == []
    ensures capture.OpenFailed? ==> report.None?
    ensures report.Some? ==> report.value == ReportOf(path, SampleTable(capture, DefaultSampleSize))
  {
    var data := AnalyzePcap(capture, DefaultSampleSize);
    if data == [] {
      return None;
    }
    return Some(ReportOf(path, data));
  }

  function ReportOf(path: string, data: seq<Row>): DatasetReport {
    DatasetReport(DatasetNumber(path), PairCounts(data), Centralization(data),
                  DestinationCounts(data), UdpRows(data))
  }
}

/** Phase-2 pre-processing of a capture: keep the IP packets that carry TCP
    or UDP, one flow row per packet with its time truncated to whole
    seconds; then add the gap to the previous row; then, when the dataset
    has a known C&C address, keep only the rows that involve it. */
module Analysis {
  import opened Grouping

  type Ip = string

  /** The fields of a packet's IP layer that the script reads. */
  datatype IpLayer = IpLayer(src: Ip, dst: Ip, proto: string)

  /** A captured packet as the capture reader presents it: capture time in
      seconds since the epoch, the IP layer when there is one, whether a
      TCP or a UDP layer is present, and the frame length in bytes. */
  datatype CapturedPacket = CapturedPacket(time: real, ip: Option<IpLayer>, hasTcp: bool, hasUdp: bool, length: nat)

  /** One row of the processed table. `timeInterval` is absent until
      calculate_time_intervals adds the column. */
  datatype Flow = Flow(timestamp: int, srcIp: Ip, dstIp: Ip, protocol: string,
                       packetSize: Option<nat>, timeInterval: Option<int>)

  // ---------------------------------------------------------------------
  // parse_pcap
  // ---------------------------------------------------------------------

  /** `IP in packet and (TCP in packet or UDP in packet)` */
  predicate IsSelected(p: CapturedPacket) {
    p.ip.Some? && (p.hasTcp || p.hasUdp)
  }

  /** The capture time as stored: formatted to the second, so the fraction
      is dropped. */
  function WholeSeconds(t: real): (s: int)
    ensures s as real <= t < s as real + 1.0
  {
    t.Floor
  }

  /** The row parse_pcap appends for a selected packet. */
  function ToFlow(p: CapturedPacket): (f: Flow)
    requires p.ip.Some?
    ensures f.srcIp == p.ip.value.src && f.dstIp == p.ip.value.dst && f.protocol == p.ip.value.proto
    ensures f.packetSize == Some(p.length) && f.timeInterval.None?
    ensures f.timestamp as real <= p.time < f.timestamp as real + 1.0
  {
    Flow(WholeSeconds(p.time), p.ip.value.src, p.ip.value.dst, p.ip.value.proto, Some(p.length), None)
  }

  /** The rows parse_pcap produces for a capture, in capture order. */
  function ParsedRows(packets: seq<CapturedPacket>): (rows: seq<Flow>)
    ensures |rows| <= |packets|
  {
    if packets == [] then []
    else
      var p := packets[|packets| - 1];
      ParsedRows(packets[..|packets| - 1]) + (if IsSelected(p) then [ToFlow(p)] else [])
  }

  /** Parsing a capture split in two parses each part and joins the rows, so
      rows appear in capture order. */
  lemma {:induction false} ParsedRowsAppend(a: seq<CapturedPacket>, b: seq<CapturedPacket>)
    ensures ParsedRows(a + b) == ParsedRows(a) + ParsedRows(b)
    decreases |b|
  {
    if b == [] {
      assert a + b == a;
    } else {
      var init, last := b[..|b| - 1], b[|b| - 1];
      assert (a + b)[..|a + b| - 1] == a + init;
      assert (a + b)[|a + b| - 1] == last;
      ParsedRowsAppend(a, init);
    }
  }

  /** A single packet gives its row exactly when it is selected. */
  lemma ParsedRowsOne(p: CapturedPacket)
    ensures ParsedRows([p]) == if IsSelected(p) then [ToFlow(p)] else []
  {
    assert [p][..0] == [];
  }

  /** Exactly the selected packets produce rows. */
  lemma {:induction false} ParsedRowsCount(packets: seq<CapturedPacket>)
    ensures |ParsedRows(packets)| == |Filter(packets, IsSelected)|
  {
    if packets != [] {
      var init, p := packets[..|packets| - 1], packets[|packets| - 1];
      ParsedRowsCount(init);
      assert packets == init + [p];
      FilterAppend(init, [p], IsSelected);
      assert Filter([p], IsSelected) == if IsSelected(p) then [p] else [];
    }
  }

  /** Every row comes from a selected packet of the capture. */
  lemma {:induction false} ParsedRowsFromSelected(packets: seq<CapturedPacket>)
    ensures forall f :: f in ParsedRows(packets) ==>
      exists i :: 0 <= i < |packets| && IsSelected(packets[i]) && f == ToFlow(packets[i])
  {
    if packets != [] {
      var init := packets[..|packets| - 1];
      ParsedRowsFromSelected(init);
      forall f | f in ParsedRows(packets)
        ensures exists i :: 0 <= i < |packets| && IsSelected(packets[i]) && f == ToFlow(packets[i])
      {
        if f in ParsedRows(init) {
          var i :| 0 <= i < |init| && IsSelected(init[i]) && f == ToFlow(init[i]);
          assert packets[i] == init[i];
        }
      }
    }
  }

  /** The loop of parse_pcap. */
  method ParsePcap(packets: seq<CapturedPacket>) returns (data: seq<Flow>)
    ensures data == ParsedRows(packets)
  {
    data := [];
    for i := 0 to |packets|
      invariant data == ParsedRows(packets[..i])
    {
      var packet := packets[i];
      assert packets[..i + 1][..i] == packets[..i];
      if IsSelected(packet) {
        data := data + [ToFlow(packet)];
      }
    }
    assert packets[..|packets|] == packets;
  }

  // ---------------------------------------------------------------------
  // calculate_time_intervals
  // ---------------------------------------------------------------------

  /** diff() of the timestamp column with the leading NaN filled with 0. */
  function Gap(rows: seq<Flow>, i: nat): int
    requires i < |rows|
  {
    if i == 0 then 0 else rows[i].timestamp - rows[i - 1].timestamp
  }

  /** The rows with the time_interval column set: every other column, the
      row count and the order are unchanged. */
  function WithIntervals(rows: seq<Flow>): (r: seq<Flow>)
    ensures |r| == |rows|
    ensures forall i {:trigger r[i]} :: 0 <= i < |rows| ==> r[i] == rows[i].(timeInterval := Some(Gap(rows, i)))
  {
    seq(|rows|, i requires 0 <= i < |rows| => rows[i].(timeInterval := Some(Gap(rows, i))))
  }

  function IntervalOf(f: Flow): int {
    if f.timeInterval.Some? then f.timeInterval.value else 0
  }

  /** Sum of the intervals of rows 1 .. i. */
  function Elapsed(r: seq<Flow>, i: nat): int
    requires i < |r|
  {
    if i == 0 then 0 else Elapsed(r, i - 1) + IntervalOf(r[i])
  }

  /** The first interval is 0, the others are differences of neighbours. */
  lemma IntervalAt(rows: seq<Flow>, i: nat)
    requires i < |rows|
    ensures IntervalOf(WithIntervals(rows)[i]) == if i == 0 then 0 else rows[i].timestamp - rows[i - 1].timestamp
  {
    assert WithIntervals(rows)[i].timeInterval == Some(Gap(rows, i));
  }

  /** Adding up the intervals recovers every timestamp from the first. */
  lemma {:induction false} IntervalsTelescope(rows: seq<Flow>, i: nat)
    requires i < |rows|
    ensures rows[i].timestamp == rows[0].timestamp + Elapsed(WithIntervals(rows), i)
  {
    if i > 0 {
      IntervalsTelescope(rows, i - 1);
      TelescopeStep(rows, i);
    }
  }

  lemma TelescopeStep(rows: seq<Flow>, i: nat)
    requires 0 < i < |rows|
    requires rows[i - 1].timestamp == rows[0].timestamp + Elapsed(WithIntervals(rows), i - 1)
    ensures rows[i].timestamp == rows[0].timestamp + Elapsed(WithIntervals(rows), i)
  {
    var r := WithIntervals(rows);
    IntervalAt(rows, i);
    assert Elapsed(r, i) == Elapsed(r, i - 1) + IntervalOf(r[i]);
  }

  predicate NonDecreasingTimes(rows: seq<Flow>) {
    forall i :: 0 < i < |rows| ==> rows[i - 1].timestamp <= rows[i].timestamp
  }

  /** No interval is negative exactly when the timestamps never go back. */
  lemma IntervalsNonNegative(rows: seq<Flow>)
    ensures (forall i :: 0 <= i < |rows| ==> IntervalOf(WithIntervals(rows)[i]) >= 0)
        <==> NonDecreasingTimes(rows)
  {
    var r := WithIntervals(rows);
    if NonDecreasingTimes(rows) {
      forall i | 0 <= i < |rows| ensures IntervalOf(r[i]) >= 0 {
        IntervalAt(rows, i);
      }
    }
    if forall i :: 0 <= i < |rows| ==> IntervalOf(r[i]) >= 0 {
      forall i | 0 < i < |rows| ensures rows[i - 1].timestamp <= rows[i].timestamp {
        IntervalAt(rows, i);
      }
    }
  }

  /** The parsed traffic of one capture. */
  class CaptureFrame {
    var rows: seq<Flow>

    constructor (data: seq<Flow>)
      ensures rows == data
    {
      rows := data;
    }

    /** Adds the time_interval column in place. A capture with no selected
        packet gives a table without columns, and reading its timestamp
        column raises KeyError: the frame is then left as it was. */
    method CalculateTimeIntervals() returns (keyError: bool)
      modifies this
      ensures keyError <==> old(rows) == []
      ensures rows == WithIntervals(old(rows))
    {
      if rows == [] {
        return true;
      }
      rows := WithIntervals(rows);
      return false;
    }
  }

  // ---------------------------------------------------------------------
  // filter_cnc_traffic
  // ---------------------------------------------------------------------

  predicate Involves(f: Flow, ip: Ip) {
    f.srcIp == ip || f.dstIp == ip
  }

  /** Python truthiness of the C&C address: None and "" are false. */
  predicate IsTruthy(c2: Option<Ip>) {
    c2.Some? && c2.value != ""
  }

  /** With a C&C address, the rows that have it as source or destination, in
      order; without one, the table unchanged. */
  function FilterCncTraffic(rows: seq<Flow>, c2: Option<Ip>): (r: seq<Flow>)
    ensures !IsTruthy(c2) ==> r == rows
    ensures IsTruthy(c2) ==> IsSubseq(r, rows)
    ensures IsTruthy(c2) ==> forall f :: f in r <==> f in rows && Involves(f, c2.value)
    ensures IsTruthy(c2) ==> forall f :: Involves(f, c2.value) ==> multiset(r)[f] == multiset(rows)[f]
  {
    if IsTruthy(c2) then Filter(rows, f => Involves(f, c2.value)) else rows
  }

  /** The C&C address known for each capture, in dataset order. */
  const C2Ips: seq<Option<Ip>> := [
    Some("147.32.84.165"), Some("147.32.84.165"), Some("147.32.84.165"), None, None,
    Some("147.32.84.165"), None, None, Some("147.32.84.165"), Some("147.32.84.165"),
    Some("147.32.84.165"), Some("147.32.84.165"), None]

  /** Captures 4, 5, 7, 8 and 13 have no known C&C address and keep all
      their rows. */
  lemma UnfilteredDatasets(k: nat, rows: seq<Flow>)
    requires k < |C2Ips|
    ensures k in {3, 4, 6, 7, 12} ==> FilterCncTraffic(rows, C2Ips[k]) == rows
    ensures k !in {3, 4, 6, 7, 12} ==>
      FilterCncTraffic(rows, C2Ips[k]) == Filter(rows, f => Involves(f, "147.32.84.165"))
  {
  }
}

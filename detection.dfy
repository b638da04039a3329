/** Rule-based detection over the phase-3 traffic extracts: three threshold
    rules, the de-duplicated union of the two per-packet rules, the two
    percentage rates and the proxy false-positive rate, plus the loader that
    concatenates the per-dataset CSV extracts. A table row holds the four
    columns the loader keeps: ip.src, ip.dst, frame.len, frame.time_delta. */
module Detection {
  import opened Grouping
  import opened Names

  type Ip = string

  datatype Packet = Packet(src: Option<Ip>, dst: Option<Ip>, frameLen: Cell, timeDelta: Cell)

  /** Thresholds the script uses. */
  const PacketSizeThreshold: real := 1000.0
  const TimeIntervalThreshold: real := 0.05
  const CncRequestThreshold: nat := 5

  /** The row after `pd.to_numeric` on `frame.len`: a numeric length is
      kept, anything else becomes missing, and no other column changes. */
  function WithNumericFrameLen(p: Packet): (q: Packet)
    ensures q.src == p.src && q.dst == p.dst && q.timeDelta == p.timeDelta
    ensures q.frameLen == if p.frameLen.Number? then p.frameLen else Blank
  {
    p.(frameLen := ToNumeric(p.frameLen))
  }

  /** The row after `pd.to_numeric` on `frame.time_delta`, likewise. */
  function WithNumericTimeDelta(p: Packet): (q: Packet)
    ensures q.src == p.src && q.dst == p.dst && q.frameLen == p.frameLen
    ensures q.timeDelta == if p.timeDelta.Number? then p.timeDelta else Blank
  {
    p.(timeDelta := ToNumeric(p.timeDelta))
  }

  /** The table after `df['frame.len'] = pd.to_numeric(...)`: same rows in
      the same order, only frame.len coerced. */
  lemma CoerceFrameLenOnlyTouchesLength(rows: seq<Packet>)
    ensures |Project(rows, WithNumericFrameLen)| == |rows|
    ensures forall i :: 0 <= i < |rows| ==>
      var q := Project(rows, WithNumericFrameLen)[i];
      q.src == rows[i].src && q.dst == rows[i].dst && q.timeDelta == rows[i].timeDelta &&
      (rows[i].frameLen.Number? ==> q.frameLen == rows[i].frameLen) &&
      (!rows[i].frameLen.Number? ==> q.frameLen == Blank)
  {
  }

  // ---------------------------------------------------------------------
  // The three rules
  // ---------------------------------------------------------------------

  predicate IsHighVolume(p: Packet, sizeThreshold: real) {
    p.frameLen.Number? && p.frameLen.value > sizeThreshold
  }

  predicate IsShortInterval(p: Packet, intervalThreshold: real) {
    p.timeDelta.Number? && p.timeDelta.value <= intervalThreshold
  }

  /** detect_high_traffic_volume's result: the coerced rows whose frame.len is
      a number strictly above the threshold, in table order. */
  function HighTrafficVolume(rows: seq<Packet>, sizeThreshold: real): (hits: seq<Packet>)
    ensures IsSubseq(hits, Project(rows, WithNumericFrameLen))
    ensures forall x :: x in hits <==>
      exists i :: 0 <= i < |rows| && x == WithNumericFrameLen(rows[i])
        && rows[i].frameLen.Number? && rows[i].frameLen.value > sizeThreshold
    ensures forall x :: IsHighVolume(x, sizeThreshold) ==>
      multiset(hits)[x] == multiset(Project(rows, WithNumericFrameLen))[x]
  {
    var coerced := Project(rows, WithNumericFrameLen);
    var hits := Filter(coerced, p => IsHighVolume(p, sizeThreshold));
    assert forall x :: x in coerced <==> exists i :: 0 <= i < |rows| && x == WithNumericFrameLen(rows[i]) by {
      forall x | x in coerced ensures exists i :: 0 <= i < |rows| && x == WithNumericFrameLen(rows[i]) {
        var i :| 0 <= i < |coerced| && coerced[i] == x;
      }
    }
    hits
  }

  /** detect_repeated_time_intervals's result: the coerced rows whose
      frame.time_delta is a number at most the threshold, in table order. */
  function RepeatedTimeIntervals(rows: seq<Packet>, intervalThreshold: real): (hits: seq<Packet>)
    ensures IsSubseq(hits, Project(rows, WithNumericTimeDelta))
    ensures forall x :: x in hits <==>
      exists i :: 0 <= i < |rows| && x == WithNumericTimeDelta(rows[i])
        && rows[i].timeDelta.Number? && rows[i].timeDelta.value <= intervalThreshold
    ensures forall x :: IsShortInterval(x, intervalThreshold) ==>
      multiset(hits)[x] == multiset(Project(rows, WithNumericTimeDelta))[x]
  {
    var coerced := Project(rows, WithNumericTimeDelta);
    var hits := Filter(coerced, p => IsShortInterval(p, intervalThreshold));
    assert forall x :: x in coerced <==> exists i :: 0 <= i < |rows| && x == WithNumericTimeDelta(rows[i]) by {
      forall x | x in coerced ensures exists i :: 0 <= i < |rows| && x == WithNumericTimeDelta(rows[i]) {
        var i :| 0 <= i < |coerced| && coerced[i] == x;
      }
    }
    hits
  }

  /** Boundary of the high-volume rule: a length equal to the threshold is
      never flagged, one a unit above always is. */
  lemma HighVolumeBoundary(p: Packet, sizeThreshold: real)
    ensures p.frameLen == Number(sizeThreshold) ==> HighTrafficVolume([p], sizeThreshold) == []
    ensures p.frameLen == Number(sizeThreshold + 1.0) ==> HighTrafficVolume([p], sizeThreshold) == [p]
    ensures !p.frameLen.Number? ==> HighTrafficVolume([p], sizeThreshold) == []
  {
    var hits := HighTrafficVolume([p], sizeThreshold);
    var q := WithNumericFrameLen(p);
    assert Project([p], WithNumericFrameLen) == [q];
    if p.frameLen == Number(sizeThreshold + 1.0) {
      assert q == p && q in hits;
      assert |hits| == 1;
    } else if hits != [] {
      assert hits[0] in hits;
    }
  }

  function SrcOf(p: Packet): Option<Ip> { p.src }

  datatype SourceCount = SourceCount(src: Ip, requestCount: nat)

  function SourceOf(e: SourceCount): Ip { e.src }

  /** The sources kept by the frequent-C&C rule: non-missing, above the threshold. */
  predicate IsFrequentSource(rows: seq<Packet>, requestThreshold: nat, k: Option<Ip>) {
    k.Some? && CountBy(rows, SrcOf, k) > requestThreshold
  }

  /** One entry per key of `ks` (none missing), with its group size. */
  function SourceCounts(rows: seq<Packet>, ks: seq<Option<Ip>>): (r: seq<SourceCount>)
    requires forall i :: 0 <= i < |ks| ==> ks[i].Some?
    ensures |r| == |ks|
    ensures forall i :: 0 <= i < |ks| ==> r[i] == SourceCount(ks[i].value, CountBy(rows, SrcOf, ks[i]))
  {
    if ks == [] then []
    else SourceCounts(rows, ks[..|ks| - 1]) + [SourceCount(ks[|ks| - 1].value, CountBy(rows, SrcOf, ks[|ks| - 1]))]
  }

  lemma SourceCountsNames(rows: seq<Packet>, ks: seq<Option<Ip>>)
    requires forall i :: 0 <= i < |ks| ==> ks[i].Some?
    requires NoDuplicates(ks)
    ensures NoDuplicates(Project(SourceCounts(rows, ks), SourceOf))
    ensures forall ip :: ip in Project(SourceCounts(rows, ks), SourceOf) <==> Some(ip) in ks
    ensures forall i :: 0 <= i < |ks| ==> Some(SourceCounts(rows, ks)[i].src) == ks[i]
  {
    var names := Project(SourceCounts(rows, ks), SourceOf);
    assert forall i :: 0 <= i < |ks| ==> names[i] == ks[i].value;
    forall ip | Some(ip) in ks ensures ip in names {
      var i :| 0 <= i < |ks| && ks[i] == Some(ip);
      assert names[i] == ip;
    }
  }

  /** The groupby keys that survive the size filter, in key order. */
  function FrequentSources(rows: seq<Packet>, requestThreshold: nat): (ks: seq<Option<Ip>>)
    ensures NoDuplicates(ks)
    ensures forall i :: 0 <= i < |ks| ==> IsFrequentSource(rows, requestThreshold, ks[i])
    ensures forall k :: IsFrequentSource(rows, requestThreshold, k) ==> k in ks
  {
    var keys := DistinctKeys(rows, SrcOf);
    var ks := Filter(keys, k => IsFrequentSource(rows, requestThreshold, k));
    FilterNoDuplicates(keys, k => IsFrequentSource(rows, requestThreshold, k));
    assert forall i :: 0 <= i < |ks| ==> ks[i] in ks;
    forall k | IsFrequentSource(rows, requestThreshold, k) ensures k in ks {
      var i :| 0 <= i < |rows| && SrcOf(rows[i]) == k;
      assert k in keys;
    }
    ks
  }

  /** detect_frequent_cnc_requests: groupby('ip.src').size() keeps one group
      per non-missing source; only groups above the threshold are returned.
      There is no time bucketing: the count is over the whole table. */
  function FrequentCncRequests(rows: seq<Packet>, requestThreshold: nat): (r: seq<SourceCount>)
    ensures NoDuplicates(Project(r, SourceOf))
    ensures forall i :: 0 <= i < |r| ==>
      r[i].requestCount == CountBy(rows, SrcOf, Some(r[i].src)) && r[i].requestCount > requestThreshold
    ensures forall ip :: ip in Project(r, SourceOf) <==> CountBy(rows, SrcOf, Some(ip)) > requestThreshold
  {
    var ks := FrequentSources(rows, requestThreshold);
    SourceCountsNames(rows, ks);
    SourceCounts(rows, ks)
  }

  // ---------------------------------------------------------------------
  // Union of the per-packet rules and the rates
  // ---------------------------------------------------------------------

  /** pd.concat([high, repeated]).drop_duplicates(): each distinct row value
      once, whichever rule flagged it. */
  function FlaggedPackets(high: seq<Packet>, repeated: seq<Packet>): (flagged: seq<Packet>)
    ensures NoDuplicates(flagged)
    ensures forall x :: x in flagged <==> x in high || x in repeated
    ensures |flagged| <= |high| + |repeated|
  {
    Distinct(high + repeated)
  }

  /** `part / whole * 100 if whole > 0 else 0`. */
  function Percentage(part: nat, whole: nat): (rate: real)
    ensures whole == 0 ==> rate == 0.0
    ensures whole > 0 ==> rate * whole as real == part as real * 100.0
    ensures 0.0 <= rate
    ensures part <= whole ==> rate <= 100.0
  {
    if whole > 0 then part as real / whole as real * 100.0 else 0.0
  }

  /** The reported false-positive rate is not measured: it is a fixed tenth
      of the detection rate. */
  function FalsePositiveProxy(detectionRate: real): (fpr: real)
    ensures fpr * 10.0 == detectionRate
    ensures 0.0 <= detectionRate <= 100.0 ==> 0.0 <= fpr <= 10.0
  {
    detectionRate * 0.1
  }

  /** The set of non-missing sources (what nunique counts). */
  function Sources(rows: seq<Packet>): set<Ip> {
    set p | p in rows && p.src.Some? :: p.src.value
  }

  /** The value a row contributes to the union: its high-volume copy when
      that rule flags it, otherwise its fully coerced copy. */
  function UnionValue(p: Packet, sizeThreshold: real): Packet {
    if IsHighVolume(WithNumericFrameLen(p), sizeThreshold) then WithNumericFrameLen(p)
    else WithNumericTimeDelta(WithNumericFrameLen(p))
  }

  /** A row flagged by both rules yields the same value twice, so every
      flagged value is the union value of some input row. */
  lemma FlaggedAreUnionValues(data: seq<Packet>, sizeThreshold: real, intervalThreshold: real)
    ensures forall x :: x in HighTrafficVolume(data, sizeThreshold)
                          + RepeatedTimeIntervals(Project(data, WithNumericFrameLen), intervalThreshold)
                     ==> x in set p | p in data :: UnionValue(p, sizeThreshold)
  {
    var lens := Project(data, WithNumericFrameLen);
    var high := HighTrafficVolume(data, sizeThreshold);
    var repeated := RepeatedTimeIntervals(lens, intervalThreshold);
    forall x | x in high + repeated ensures x in set p | p in data :: UnionValue(p, sizeThreshold) {
      if x in high {
        var i :| 0 <= i < |data| && x == WithNumericFrameLen(data[i])
          && data[i].frameLen.Number? && data[i].frameLen.value > sizeThreshold;
        assert data[i] in data && UnionValue(data[i], sizeThreshold) == x;
      } else {
        assert x in repeated;
        var i :| 0 <= i < |lens| && x == WithNumericTimeDelta(lens[i])
          && lens[i].timeDelta.Number? && lens[i].timeDelta.value <= intervalThreshold;
        assert lens[i] == WithNumericFrameLen(data[i]);
        assert data[i] in data && UnionValue(data[i], sizeThreshold) == x;
      }
    }
  }

  lemma {:induction false} UnionValuesCard(data: seq<Packet>, sizeThreshold: real)
    ensures |set p | p in data :: UnionValue(p, sizeThreshold)| <= |data|
  {
    if data != [] {
      var init, last := data[..|data| - 1], data[|data| - 1];
      UnionValuesCard(init, sizeThreshold);
      assert data == init + [last];
      assert (set p | p in data :: UnionValue(p, sizeThreshold))
          == (set p | p in init :: UnionValue(p, sizeThreshold)) + {UnionValue(last, sizeThreshold)};
    }
  }

  /** Distinct flagged values never outnumber the input rows. */
  lemma FlaggedAtMostTotal(data: seq<Packet>, sizeThreshold: real, intervalThreshold: real)
    ensures |FlaggedPackets(HighTrafficVolume(data, sizeThreshold),
                            RepeatedTimeIntervals(Project(data, WithNumericFrameLen), intervalThreshold))| <= |data|
  {
    var both := HighTrafficVolume(data, sizeThreshold)
              + RepeatedTimeIntervals(Project(data, WithNumericFrameLen), intervalThreshold);
    var image := set p | p in data :: UnionValue(p, sizeThreshold);
    FlaggedAreUnionValues(data, sizeThreshold, intervalThreshold);
    DistinctCard(both);
    SubsetCard((set x | x in both), image);
    UnionValuesCard(data, sizeThreshold);
  }

  /** Every source among the flagged packets is a source of the table. */
  lemma FlaggedSourcesAmongSources(data: seq<Packet>, sizeThreshold: real, intervalThreshold: real)
    ensures Sources(FlaggedPackets(HighTrafficVolume(data, sizeThreshold),
                                   RepeatedTimeIntervals(Project(data, WithNumericFrameLen), intervalThreshold)))
         <= Sources(data)
  {
    var lens := Project(data, WithNumericFrameLen);
    var high := HighTrafficVolume(data, sizeThreshold);
    var repeated := RepeatedTimeIntervals(lens, intervalThreshold);
    forall ip | ip in Sources(FlaggedPackets(high, repeated)) ensures ip in Sources(data) {
      var x :| x in FlaggedPackets(high, repeated) && x.src == Some(ip);
      if x in high {
        var i :| 0 <= i < |data| && x == WithNumericFrameLen(data[i])
          && data[i].frameLen.Number? && data[i].frameLen.value > sizeThreshold;
        assert data[i] in data;
      } else {
        var i :| 0 <= i < |lens| && x == WithNumericTimeDelta(lens[i])
          && lens[i].timeDelta.Number? && lens[i].timeDelta.value <= intervalThreshold;
        assert lens[i] == WithNumericFrameLen(data[i]);
        assert data[i] in data;
      }
    }
  }

  // ---------------------------------------------------------------------
  // The shared frame: the two per-packet rules write back into it
  // ---------------------------------------------------------------------

  /** The concatenated traffic table that the rules are applied to. Both
      per-packet rules replace one of its columns with the numeric coercion
      before filtering, so the second rule sees the first rule's write. */
  class TrafficFrame {
    var rows: seq<Packet>

    constructor (data: seq<Packet>)
      ensures rows == data
    {
      rows := data;
    }

    method DetectHighTrafficVolume(sizeThreshold: real) returns (hits: seq<Packet>)
      modifies this
      ensures rows == Project(old(rows), WithNumericFrameLen)
      ensures hits == HighTrafficVolume(old(rows), sizeThreshold)
    {
      rows := Project(rows, WithNumericFrameLen);
      hits := Filter(rows, p => IsHighVolume(p, sizeThreshold));
    }

    method DetectRepeatedTimeIntervals(intervalThreshold: real) returns (hits: seq<Packet>)
      modifies this
      ensures rows == Project(old(rows), WithNumericTimeDelta)
      ensures hits == RepeatedTimeIntervals(old(rows), intervalThreshold)
    {
      rows := Project(rows, WithNumericTimeDelta);
      hits := Filter(rows, p => IsShortInterval(p, intervalThreshold));
    }
  }

  datatype Report = Report(
    highTraffic: seq<Packet>,
    repeatedInterval: seq<Packet>,
    frequentCnc: seq<SourceCount>,
    flagged: seq<Packet>,
    totalPackets: nat,
    uniqueIpsFlagged: nat,
    totalUniqueIps: nat,
    detectionRate: real,
    flagRateByIps: real,
    falsePositiveRate: real)

  /** What the script reports for the table `data` at the given
      thresholds: the rules applied in the script's order on the shared
      frame, the union of the per-packet hits, the totals and the rates. */
  predicate RulesReport(data: seq<Packet>, sizeThreshold: real, intervalThreshold: real, requestThreshold: nat,
                        report: Report)
  {
    && report.highTraffic == HighTrafficVolume(data, sizeThreshold)
    && report.repeatedInterval == RepeatedTimeIntervals(Project(data, WithNumericFrameLen), intervalThreshold)
    && report.frequentCnc
       == FrequentCncRequests(Project(Project(data, WithNumericFrameLen), WithNumericTimeDelta), requestThreshold)
    && report.flagged == FlaggedPackets(report.highTraffic, report.repeatedInterval)
    && report.totalPackets == |data| && report.totalUniqueIps == |Sources(data)|
    && report.uniqueIpsFlagged == |Sources(report.flagged)| <= report.totalUniqueIps
    && |report.flagged| <= report.totalPackets
    && 0.0 <= report.detectionRate <= 100.0 && 0.0 <= report.flagRateByIps <= 100.0
    && report.detectionRate == Percentage(|report.flagged|, report.totalPackets)
    && report.flagRateByIps == Percentage(report.uniqueIpsFlagged, report.totalUniqueIps)
    && (data == [] ==> report.detectionRate == 0.0 && report.flagRateByIps == 0.0)
    && report.falsePositiveRate * 10.0 == report.detectionRate
  }

  /** The script body after loading: apply the rules in the script's order,
      union the per-packet hits and compute the rates. */
  method EvaluateRules(data: seq<Packet>, sizeThreshold: real, intervalThreshold: real, requestThreshold: nat)
    returns (report: Report)
    ensures RulesReport(data, sizeThreshold, intervalThreshold, requestThreshold, report)
  {
    var frame := new TrafficFrame(data);
    var high := frame.DetectHighTrafficVolume(sizeThreshold);
    var repeated := frame.DetectRepeatedTimeIntervals(intervalThreshold);
    var cnc := FrequentCncRequests(frame.rows, requestThreshold);
    var flagged := FlaggedPackets(high, repeated);
    FlaggedAtMostTotal(data, sizeThreshold, intervalThreshold);
    FlaggedSourcesAmongSources(data, sizeThreshold, intervalThreshold);
    SubsetCard(Sources(flagged), Sources(data));
    NoRowsNoSources(data);
    var totalSources := |Sources(data)|;
    var flaggedSources := |Sources(flagged)|;
    var detectionRate := Percentage(|flagged|, |data|);
    var flagRate := Percentage(flaggedSources, totalSources);
    report := Report(high, repeated, cnc, flagged, |data|, flaggedSources, totalSources,
                     detectionRate, flagRate, FalsePositiveProxy(detectionRate));
  }

  lemma NoRowsNoSources(data: seq<Packet>)
    ensures data == [] ==> |Sources(data)| == 0
  {
  }

  lemma SubsetCard<T>(a: set<T>, b: set<T>)
    requires a <= b
    ensures |a| <= |b|
  {
    assert b == a + (b - a);
  }

  // ---------------------------------------------------------------------
  // Loading the per-dataset extracts
  // ---------------------------------------------------------------------

  /** What pd.read_csv does with one file: a table, a ParserError (caught and
      skipped), or any other failure, which the script does not catch. */
  datatype CsvRead = Parsed(table: seq<Packet>) | ParserError | OtherError

  datatype CsvFile = CsvFile(name: string, read: CsvRead)

  /** The outcome of the loading loop and pd.concat: the concatenated table,
      pd.concat's error on an empty list, or an uncaught exception. */
  datatype LoadOutcome = Loaded(data: seq<Packet>) | NoObjectsToConcatenate | Raised

  /** The tables appended from one dataset directory, in listing order. */
  function DirFrames(files: seq<CsvFile>): (frames: seq<seq<Packet>>)
    ensures |frames| <= |files|
  {
    if files == [] then []
    else
      var f := files[|files| - 1];
      DirFrames(files[..|files| - 1])
        + (if EndsWith(f.name, CsvGzSuffix) && f.read.Parsed? then [f.read.table] else [])
  }

  predicate DirRaises(files: seq<CsvFile>) {
    exists j :: 0 <= j < |files| && EndsWith(files[j].name, CsvGzSuffix) && files[j].read.OtherError?
  }

  /** The tables appended over all dataset directories (a missing directory,
      None, contributes nothing). */
  function AllFrames(dirs: seq<Option<seq<CsvFile>>>): (frames: seq<seq<Packet>>)
    ensures (forall k :: 0 <= k < |dirs| ==> dirs[k].None?) ==> frames == []
  {
    if dirs == [] then []
    else
      var d := dirs[|dirs| - 1];
      AllFrames(dirs[..|dirs| - 1]) + (if d.Some? then DirFrames(d.value) else [])
  }

  predicate AnyRaises(dirs: seq<Option<seq<CsvFile>>>) {
    exists k :: 0 <= k < |dirs| && dirs[k].Some? && DirRaises(dirs[k].value)
  }

  function Concat(frames: seq<seq<Packet>>): (all: seq<Packet>)
    ensures |all| >= (if frames == [] then 0 else |frames[|frames| - 1]|)
  {
    if frames == [] then [] else Concat(frames[..|frames| - 1]) + frames[|frames| - 1]
  }

  /** pd.concat keeps every row of every table and adds none. */
  lemma {:induction false} ConcatMembers(frames: seq<seq<Packet>>)
    ensures forall x :: x in Concat(frames) <==> exists i :: 0 <= i < |frames| && x in frames[i]
  {
    if frames != [] {
      var init := frames[..|frames| - 1];
      ConcatMembers(init);
      forall x | exists i :: 0 <= i < |frames| && x in frames[i] ensures x in Concat(frames) {
        var i :| 0 <= i < |frames| && x in frames[i];
        if i < |init| {
          assert init[i] == frames[i];
        }
      }
      forall x | x in Concat(init) ensures exists i :: 0 <= i < |frames| && x in frames[i] {
        var i :| 0 <= i < |init| && x in init[i];
        assert frames[i] == init[i];
      }
    }
  }

  /** Every table loaded from a directory is a parsed `.csv.gz` file of it. */
  lemma {:induction false} DirFramesParsed(files: seq<CsvFile>)
    ensures forall t :: t in DirFrames(files) ==>
      exists j :: 0 <= j < |files| && EndsWith(files[j].name, CsvGzSuffix) && files[j].read == Parsed(t)
  {
    if files != [] {
      var init := files[..|files| - 1];
      DirFramesParsed(init);
      forall t | t in DirFrames(init)
        ensures exists j :: 0 <= j < |files| && EndsWith(files[j].name, CsvGzSuffix) && files[j].read == Parsed(t)
      {
        var j :| 0 <= j < |init| && EndsWith(init[j].name, CsvGzSuffix) && init[j].read == Parsed(t);
        assert files[j] == init[j];
      }
    }
  }

  /** The loading loop: every existing dataset directory, every `.csv.gz`
      file in it; unparsable files are skipped, other read failures abort. */
  method LoadTrafficData(dirs: seq<Option<seq<CsvFile>>>) returns (outcome: LoadOutcome)
    ensures AnyRaises(dirs) ==> outcome == Raised
    ensures !AnyRaises(dirs) && AllFrames(dirs) == [] ==> outcome == NoObjectsToConcatenate
    ensures !AnyRaises(dirs) && AllFrames(dirs) != [] ==> outcome == Loaded(Concat(AllFrames(dirs)))
  {
    var dataframes: seq<seq<Packet>> := [];
    var k := 0;
    while k < |dirs|
      invariant 0 <= k <= |dirs|
      invariant dataframes == AllFrames(dirs[..k])
      invariant !AnyRaises(dirs[..k])
    {
      assert dirs[..k + 1][..k] == dirs[..k];
      if dirs[k].Some? {
        var files := dirs[k].value;
        var j := 0;
        while j < |files|
          invariant 0 <= j <= |files|
          invariant dataframes == AllFrames(dirs[..k]) + DirFrames(files[..j])
          invariant !DirRaises(files[..j])
        {
          assert files[..j + 1][..j] == files[..j];
          var f := files[j];
          if EndsWith(f.name, CsvGzSuffix) {
            match f.read {
              case Parsed(table) =>
                dataframes := dataframes + [table];
              case ParserError =>
              case OtherError =>
                assert dirs[k].Some? && DirRaises(dirs[k].value) by {
                  assert files[j] == f;
                }
                assert dirs[k] == dirs[..|dirs|][k];
                return Raised;
            }
          }
          j := j + 1;
        }
        assert files[..j] == files;
      }
      k := k + 1;
    }
    assert dirs[..k] == dirs;
    if dataframes == [] {
      return NoObjectsToConcatenate;
    }
    return Loaded(Concat(dataframes));
  }

  // ---------------------------------------------------------------------
  // The script as a whole
  // ---------------------------------------------------------------------

  /** The script end to end: load the extracts, then apply the rules at the
      script's thresholds. No report when loading raises (an uncaught read
      error, or pd.concat on no tables). */
  method DetectCtu13(dirs: seq<Option<seq<CsvFile>>>) returns (report: Option<Report>)
    ensures report.Some? <==> !AnyRaises(dirs) && AllFrames(dirs) != []
    ensures report.Some? ==>
      RulesReport(Concat(AllFrames(dirs)), PacketSizeThreshold, TimeIntervalThreshold, CncRequestThreshold,
                  report.value)
  {
    var outcome := LoadTrafficData(dirs);
    if !outcome.Loaded? {
      return None;
    }
    var r := EvaluateRules(outcome.data, PacketSizeThreshold, TimeIntervalThreshold, CncRequestThreshold);
    return Some(r);
  }
}

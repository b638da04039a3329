/** Phase-3 extraction: for each of the thirteen captures, tshark prints a
    header line and one CSV line per packet; the script writes the header and
    every data line whose 1-based position is a multiple of the sample rate
    into a gzip text file named after the dataset's 1-based id. */
module Sampling {
  import opened Names

  /** Keep every n-th packet. */
  const SampleRate: nat := 10

  /** The capture files, in the order the script processes them. */
  const CaptureFiles: seq<string> := [
    "botnet-capture-20110810-neris.pcap",
    "botnet-capture-20110811-neris.pcap",
    "botnet-capture-20110812-rbot.pcap",
    "botnet-capture-20110815-rbot-dos.pcap",
    "botnet-capture-20110815-fast-flux.pcap",
    "botnet-capture-20110816-donbot.pcap",
    "botnet-capture-20110816-sogou.pcap",
    "botnet-capture-20110816-qvod.pcap",
    "botnet-capture-20110817-bot.pcap",
    "botnet-capture-20110818-filtered.pcap",
    "botnet-capture-20110818-bot-2.pcap",
    "botnet-capture-20110819-bot.pcap",
    "botnet-capture-20110815-fast-flux-2.pcap"]

  /** What one tshark run yields: its standard output already split into
      lines, or a non-zero exit status (CalledProcessError). */
  datatype TsharkRun = Completed(lines: seq<string>) | Failed

  // ---------------------------------------------------------------------
  // Names
  // ---------------------------------------------------------------------

  /** The dataset id of the capture at position `k`: str(k + 1). */
  function DatasetId(k: nat): (id: string)
    ensures id != [] && Sep !in id
    ensures forall i :: 0 <= i < |id| ==> IsDigit(id[i])
    ensures ParseNat(id) == k + 1
  {
    ParseNatToString(k + 1);
    NatToString(k + 1)
  }

  const OutputPrefix: string := "extracted_traffic_"

  /** `extracted_traffic_{id}.csv.gz` */
  function OutputFileName(k: nat): (name: string)
    ensures EndsWith(name, CsvGzSuffix)
    ensures Sep !in name
  {
    var name := OutputPrefix + DatasetId(k) + CsvGzSuffix;
    assert name[|name| - |CsvGzSuffix|..] == CsvGzSuffix;
    name
  }

  /** `{base}/{id}/extracted_traffic_{id}.csv.gz` */
  function OutputPath(baseDir: string, k: nat): string {
    baseDir + [Sep] + DatasetId(k) + [Sep] + OutputFileName(k)
  }

  /** Different datasets never share an output file name. */
  lemma OutputFileNameInjective(a: nat, b: nat)
    requires OutputFileName(a) == OutputFileName(b)
    ensures a == b
  {
    var na, nb := OutputFileName(a), OutputFileName(b);
    var p := |OutputPrefix|;
    assert DatasetId(a) == na[p..|na| - |CsvGzSuffix|];
    assert DatasetId(b) == nb[p..|nb| - |CsvGzSuffix|];
    NatToStringInjective(a + 1, b + 1);
  }

  /** The folder holding an output file is named after the dataset id, which
      is what the loaders take as the dataset number. */
  lemma OutputFolderIsId(baseDir: string, k: nat)
    ensures Basename(Dirname(OutputPath(baseDir, k))) == DatasetId(k)
  {
    ParentName(baseDir, DatasetId(k), OutputFileName(k));
  }

  // ---------------------------------------------------------------------
  // Lines and sampling
  // ---------------------------------------------------------------------

  /** Text made of the given lines, each followed by a newline. */
  function JoinLines(ls: seq<string>): (text: string)
    ensures |text| >= |ls|
    ensures ls != [] ==> text[|text| - 1] == '\n'
  {
    if ls == [] then [] else JoinLines(ls[..|ls| - 1]) + ls[|ls| - 1] + "\n"
  }

  lemma {:induction false} JoinLinesAppend(a: seq<string>, b: seq<string>)
    ensures JoinLines(a + b) == JoinLines(a) + JoinLines(b)
    decreases |b|
  {
    if b == [] {
      assert a + b == a;
    } else {
      assert (a + b)[..|a + b| - 1] == a + b[..|b| - 1];
      JoinLinesAppend(a, b[..|b| - 1]);
    }
  }

  /** Index of the first newline of `s`, or |s| when there is none. */
  function LineEnd(s: string): (i: nat)
    ensures i <= |s|
    ensures forall j :: 0 <= j < i ==> s[j] != '\n'
    ensures i < |s| ==> s[i] == '\n'
  {
    if s == [] || s[0] == '\n' then 0 else 1 + LineEnd(s[1..])
  }

  /** Reading a text back line by line (str.splitlines on '\n'). */
  function SplitLines(s: string): (ls: seq<string>)
    ensures forall k :: 0 <= k < |ls| ==> '\n' !in ls[k]
    decreases |s|
  {
    if s == [] then []
    else
      var i := LineEnd(s);
      assert '\n' !in s[..i];
      [s[..i]] + (if i < |s| then SplitLines(s[i + 1..]) else [])
  }

  predicate NoLineBreaks(ls: seq<string>) {
    forall i :: 0 <= i < |ls| ==> '\n' !in ls[i]
  }

  /** Lines that hold no newline are read back exactly as they were written. */
  lemma {:induction false} SplitJoinLines(ls: seq<string>)
    requires NoLineBreaks(ls)
    ensures SplitLines(JoinLines(ls)) == ls
    decreases |ls|
  {
    if ls != [] {
      var rest := ls[1..];
      assert ls == [ls[0]] + rest;
      JoinLinesAppend([ls[0]], rest);
      assert JoinLines([ls[0]]) == ls[0] + "\n" by {
        assert [ls[0]][..0] == [];
      }
      var s := JoinLines(ls);
      assert s == ls[0] + "\n" + JoinLines(rest);
      assert s[|ls[0]|] == '\n';
      assert forall j :: 0 <= j < |ls[0]| ==> s[j] == ls[0][j];
      assert LineEnd(s) == |ls[0]|;
      assert s[..|ls[0]|] == ls[0];
      assert s[|ls[0]| + 1..] == JoinLines(rest);
      SplitJoinLines(rest);
    }
  }

  /** The data lines among positions 1 .. n-1 that the sampling loop keeps:
      those whose position is a multiple of the sample rate. */
  function KeptLines(lines: seq<string>, n: nat): (kept: seq<string>)
    requires n <= |lines|
    ensures forall x :: x in kept ==> exists j :: 1 <= j < n && lines[j] == x
  {
    if n <= 1 then []
    else KeptLines(lines, n - 1) + (if (n - 1) % SampleRate == 0 then [lines[n - 1]] else [])
  }

  /** The `j`-th kept data line is line `(j + 1) * SampleRate`, and there are
      exactly `(n - 1) / SampleRate` of them. */
  lemma {:induction false} KeptLinesAre(lines: seq<string>, n: nat)
    requires 1 <= n <= |lines|
    ensures |KeptLines(lines, n)| == (n - 1) / SampleRate
    ensures forall j :: 0 <= j < |KeptLines(lines, n)| ==>
      (j + 1) * SampleRate < n && KeptLines(lines, n)[j] == lines[(j + 1) * SampleRate]
  {
    if n > 1 {
      KeptLinesAre(lines, n - 1);
    }
  }

  /** Every sampled line, the header included, is a line of the tshark output. */
  lemma KeptLinesFromCapture(lines: seq<string>)
    requires |lines| >= 1
    ensures forall l :: l in [lines[0]] + KeptLines(lines, |lines|) ==> l in lines
  {
    KeptLinesAre(lines, |lines|);
  }

  /** The text the script writes for a capture whose output has lines. */
  function SampledText(lines: seq<string>): string
    requires |lines| >= 1
  {
    JoinLines([lines[0]] + KeptLines(lines, |lines|))
  }

  /** Reading an output file back yields the header followed by lines
      10, 20, 30, ... of the tshark output. */
  lemma ReadBackSample(lines: seq<string>)
    requires |lines| >= 1 && NoLineBreaks(lines)
    ensures var back := SplitLines(SampledText(lines));
      |back| == 1 + (|lines| - 1) / SampleRate &&
      back[0] == lines[0] &&
      forall j :: 1 <= j < |back| ==> back[j] == lines[j * SampleRate]
  {
    var kept := [lines[0]] + KeptLines(lines, |lines|);
    KeptLinesAre(lines, |lines|);
    assert NoLineBreaks(kept) by {
      forall i | 0 <= i < |kept| ensures '\n' !in kept[i] {
        if i > 0 {
          assert kept[i] == lines[i * SampleRate];
        }
      }
    }
    SplitJoinLines(kept);
    forall j | 1 <= j < |kept| ensures kept[j] == lines[j * SampleRate] {
      assert kept[j] == KeptLines(lines, |lines|)[j - 1];
    }
  }

  // ---------------------------------------------------------------------
  // The output files
  // ---------------------------------------------------------------------

  /** A gzip file opened for writing text: created empty, written in order. */
  class GzipTextFile {
    const path: string
    var text: string

    constructor (path: string)
      ensures this.path == path && text == []
    {
      this.path := path;
      text := [];
    }

    method Write(s: string)
      modifies this
      ensures text == old(text) + s
    {
      text := text + s;
    }
  }

  /** One step of the sampling loop, on the text written so far. */
  lemma SampleStep(lines: seq<string>, i: nat)
    requires 1 <= i < |lines|
    ensures JoinLines([lines[0]] + KeptLines(lines, i + 1))
         == JoinLines([lines[0]] + KeptLines(lines, i)) + (if i % SampleRate == 0 then lines[i] + "\n" else [])
  {
    var before := [lines[0]] + KeptLines(lines, i);
    if i % SampleRate == 0 {
      assert [lines[0]] + KeptLines(lines, i + 1) == before + [lines[i]];
      JoinOne(before, lines[i]);
    } else {
      assert [lines[0]] + KeptLines(lines, i + 1) == before;
    }
  }

  /** Writing one more line appends it and its newline. */
  lemma JoinOne(before: seq<string>, line: string)
    ensures JoinLines(before + [line]) == JoinLines(before) + line + "\n"
  {
    JoinLinesAppend(before, [line]);
    assert [line][..0] == [];
  }

  /** Writes the header, then every data line whose position is a multiple
      of the sample rate. */
  method WriteSample(f: GzipTextFile, lines: seq<string>)
    requires |lines| >= 1
    modifies f
    ensures f.text == old(f.text) + SampledText(lines)
  {
    ghost var start := f.text;
    f.Write(lines[0] + "\n");
    assert [lines[0]][..0] == [];
    assert KeptLines(lines, 1) == [];
    assert [lines[0]] + [] == [lines[0]];
    var i := 1;
    while i < |lines|
      invariant 1 <= i <= |lines|
      invariant f.text == start + JoinLines([lines[0]] + KeptLines(lines, i))
    {
      SampleStep(lines, i);
      if i % SampleRate == 0 {
        f.Write(lines[i] + "\n");
      }
      i := i + 1;
    }
  }

  /** A produced output file: its path and its (uncompressed) text. */
  datatype OutputFile = OutputFile(path: string, text: string)

  /** The file the script leaves for capture `k`: the sampled text, or an
      empty file when tshark failed or printed nothing. */
  function ExpectedOutput(baseDir: string, k: nat, run: TsharkRun): OutputFile {
    OutputFile(OutputPath(baseDir, k),
               if run.Completed? && run.lines != [] then SampledText(run.lines) else [])
  }

  /** An empty tshark output makes `lines[0]` raise IndexError, which the
      script does not catch. */
  predicate Crashes(run: TsharkRun) {
    run == Completed([])
  }

  /** The extraction loop over the captures, in order. A failed run leaves an
      empty file and the loop goes on; an empty output leaves an empty file
      and aborts the script. */
  method ExtractTrafficData(baseDir: string, runs: seq<TsharkRun>) returns (outputs: seq<OutputFile>, crashed: bool)
    requires |runs| == |CaptureFiles|
    ensures crashed <==> exists k :: 0 <= k < |runs| && Crashes(runs[k])
    ensures 1 <= |outputs| <= |runs|
    ensures crashed ==> Crashes(runs[|outputs| - 1])
    ensures forall k :: 0 <= k < |outputs| - 1 ==> !Crashes(runs[k])
    ensures !crashed ==> |outputs| == |runs|
    ensures forall k :: 0 <= k < |outputs| ==> outputs[k] == ExpectedOutput(baseDir, k, runs[k])
  {
    outputs := [];
    crashed := false;
    var k := 0;
    while k < |runs|
      invariant 0 <= k <= |runs| && |outputs| == k
      invariant forall j :: 0 <= j < k ==> !Crashes(runs[j])
      invariant forall j :: 0 <= j < k ==> outputs[j] == ExpectedOutput(baseDir, j, runs[j])
    {
      var f := new GzipTextFile(OutputPath(baseDir, k));
      match runs[k] {
        case Failed =>
        case Completed(lines) =>
          if lines == [] {
            outputs := outputs + [OutputFile(f.path, f.text)];
            crashed := true;
            return;
          }
          WriteSample(f, lines);
      }
      outputs := outputs + [OutputFile(f.path, f.text)];
      k := k + 1;
    }
  }
}

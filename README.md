# Botnet traffic pipeline: a Dafny model of its record-level core

The repository studies botnet traffic in the thirteen CTU-13 captures in four
phases of Python scripts. Under the pandas, capture-reader, tshark and
matplotlib glue, each phase applies a few record-level transformations. This
project models those transformations and proves what they promise. A table
is a `seq` of row datatypes, a column is a function from a row to a value,
and a value that pandas may hold as NaN is an `Option` or a `Cell`.

* **Phase 1, architecture analysis** (`architecture.dfy`). `analyze_pcap` reads
  only the packets the display filter "ip" lets through, so a non-IP packet
  never uses a sample index. Its loop breaks at `sample_size` packets, skips a
  packet whose fields cannot be read, and then the rows lose their duplicates. After that come the per-dataset summaries: pair
  counts, the ten destinations with the most distinct partners,
  per-destination counts, the UDP subset and the dataset number.
* **Phase 2, pre-processing** (`analysis.dfy`). Packets are selected when they
  have an IP layer and a TCP or UDP layer. Each selected packet becomes one
  row whose timestamp is truncated to the second. `calculate_time_intervals`
  then adds the gap to the previous row, with 0 for the first row, and
  `filter_cnc_traffic` keeps the rows that involve the dataset's C&C address.
* **Phase 2, feature extraction** (`features.dfy`). It yields the packet-size
  column, the row count per (source, destination) pair, and per timestamp the
  byte total and the number of rows that have a size.
* **Phase 2, visualisation data** (`visualization.dfy`). This covers the data
  steps behind the three plots:
  * the 2000-byte histogram cap;
  * count coercion, the `>= threshold` filter and the top 20;
  * five-minute buckets and the trailing five-bucket moving average;
  * the mapping from a feature file name to its dataset folder.
* **Phase 3, sampling** (`sampling.dfy`). For each capture the script writes
  tshark's header line and every tenth data line to
  `extracted_traffic_{k+1}.csv.gz`.
* **Phase 3, rule-based detection** (`detection.dfy`). It covers:
  * the three threshold rules;
  * the de-duplicated union of the two per-packet rules;
  * the detection rate and the flag rate by source addresses, both guarded
    against division by zero;
  * the fixed proxy false-positive rate;
  * the loader that concatenates the per-dataset extracts.

Three files are shared by the phases. `grouping.dfy` holds the pandas
primitives: the missing marker, boolean masks, `drop_duplicates`,
`groupby(...).size()`, per-key sums and the proofs that groups partition a
table. `ranking.dfy` holds `nlargest` and `value_counts().head`. `names.dfy`
holds `str(n)`, `str.replace(p, '')`, `os.path.basename` and
`os.path.dirname`.

Code that changes state step by step is modelled imperatively. Each such
method is proved against a function that specifies it:
* the loops of `parse_pcap`, `analyze_pcap`, the sampling writer and the
  detection loader;
* the columns that `detect_high_traffic_volume`, `calculate_time_intervals` and
  `plot_communication_frequency` overwrite in the caller's frame (classes
  `TrafficFrame`, `CaptureFrame` and `FrequencyFrame`);
* `set_index(inplace=True)` (class `VolumeFrame`);
* the gzip file that the sampling loop writes to (class `GzipTextFile`).

Behaviour of the code worth knowing:
* The frequent-requester rule groups by source address only, so a source's
  count covers the whole table
  (`src/phase3/rule_based_detection.py:40-42`).
* Non-numeric frame lengths and time deltas become missing and are never
  flagged.
* The repeated-interval rule flags a time delta at most the threshold.
* The union of the two per-packet rules is by row value (`drop_duplicates`):
  two equal rows count once. It is also taken after the first rule has
  overwritten `frame.len` in the shared frame, so the repeated-interval hits
  carry the coerced length.
* A read failure other than a `ParserError` (for example a missing column) is
  not caught and aborts the loader. If no file is loaded, `pd.concat` fails
  with "no objects to concatenate" instead of a dedicated error.
* The communication-frequency table holds one count per (source,
  destination) pair. The top-N view ranks destinations by their number of
  distinct partners.

## Model

| member | source | states |
|---|---|---|
| Grouping.ToNumeric | src/phase3/rule_based_detection.py:33 | `pd.to_numeric(errors='coerce')` on one cell: a number stays exactly as it was, anything else becomes the missing marker |
| Grouping.Filter | src/phase3/rule_based_detection.py:34 | a boolean mask keeps exactly the rows that satisfy it, as an order-preserving subsequence, with every kept value as often as in the input |
| Grouping.FilterAppend | src/phase2/traffic_analysis.py:86 | masking a concatenation is concatenating the masked parts |
| Grouping.FilterNone | src/phase1/botnet_architecture.py:48 | a mask that holds for no row keeps nothing |
| Grouping.FilterNoDuplicates | src/phase3/rule_based_detection.py:113 | masking a column without repeats leaves no repeats |
| Grouping.Distinct | src/phase1/botnet_architecture.py:80 | `drop_duplicates`: the same set of values, none twice, never longer than the input, and an order-preserving subsequence of the input |
| Grouping.FirstIndex | src/phase1/botnet_architecture.py:80 | the position of a value's first occurrence: it holds the value and no earlier position does |
| Grouping.DistinctFirstOccurrences | src/phase3/rule_based_detection.py:73 | `drop_duplicates` keeps first occurrences: the kept values come in the order in which they first occur in the input |
| Grouping.SubseqEnd | src/phase1/botnet_architecture.py:80 | proof step for `Distinct`'s subsequence clause: a single value is a subsequence of any sequence ending in it |
| Grouping.SubseqSnoc | src/phase1/botnet_architecture.py:80 | proof step for `Distinct`'s subsequence clause: appending a value keeps a subsequence one, with or without that value appended to it too |
| Grouping.NoDuplicatesCard | src/phase3/rule_based_detection.py:78 | a column without repeats has as many entries as distinct values |
| Grouping.DistinctCard | src/phase3/rule_based_detection.py:77-78 | the number of rows left by `drop_duplicates` is the number of distinct values (what `nunique` counts) |
| Grouping.SameValuesSameLength | src/phase1/botnet_architecture.py:102 | two repeat-free sequences holding the same values are equally long |
| Grouping.NoDuplicatesMultiplicity | src/phase1/botnet_architecture.py:102 | in a repeat-free sequence every value occurs at most once |
| Grouping.TwoOccurrences | src/phase1/botnet_architecture.py:102 | proof step for `SubMultisetKeysDistinct` (the distinct keys of `Centralization`): a value found at two positions occurs at least twice |
| Grouping.SubMultisetKeysDistinct | src/phase1/botnet_architecture.py:102 | entries drawn from a table whose keys are all different have all different keys |
| Grouping.Project | src/phase2/feature_extraction.py:38 | a column: one value per row, same length and order |
| Grouping.ProjectIndex | src/phase2/feature_extraction.py:38 | every value of a column comes from some row |
| Grouping.ProjectHas | src/phase2/feature_extraction.py:38 | every row's value is in the column |
| Grouping.DistinctKeys | src/phase2/feature_extraction.py:46 | the group keys: no key twice, and a key is listed iff some row has it |
| Grouping.CountBy | src/phase3/rule_based_detection.py:41 | a group's size is 0 iff no row has the key, and never exceeds the row count |
| Grouping.SumByKeysSnoc | src/phase2/feature_extraction.py:46-48 | appending a row adds its weight to exactly one listed group |
| Grouping.GroupsPartition | src/phase2/feature_extraction.py:46-48 | summing the groups of distinct keys adds up exactly the rows whose key is listed: no row lost or counted twice |
| Grouping.EmptyGroups | src/phase2/feature_extraction.py:46-48 | an empty table has empty group sums |
| Grouping.TotalInAll | src/phase2/feature_extraction.py:46-48 | when every row's key is listed, the listed groups add up to the whole table |
| Grouping.TotalOne | src/phase2/feature_extraction.py:42 | counting one per row gives the row count |
| Grouping.SumByOne | src/phase2/feature_extraction.py:42 | summing one per row of a group gives the group's size |
| Grouping.Tally | src/phase2/feature_extraction.py:42 | one (key, size) entry per listed key, in order |
| Grouping.SumCountsTally | src/phase2/feature_extraction.py:42 | a tally's counts add up to the group sizes of its keys |
| Grouping.GroupSizes | src/phase2/feature_extraction.py:42 | `groupby(key).size()`: one entry per key that occurs, none twice, each count the number of rows with that key and at least 1, counts adding up to the row count |
| Grouping.GroupEntryFor | src/phase2/feature_extraction.py:42 | every key that occurs has its (key, size) entry in the group sizes |
| Grouping.TallyKeys | src/phase2/feature_extraction.py:42 | tallying keys that occur lists exactly those keys, in order, each with a size of at least 1 |
| Grouping.DistinctKeysAreKeys | src/phase2/feature_extraction.py:42 | a key is among the groups iff some row has it |
| Grouping.TallyTotal | src/phase2/feature_extraction.py:42 | the group sizes add up to the number of rows |
| Ranking.InsertDesc | src/phase2/traffic_visualization.py:65 | inserting into a non-increasing sequence keeps it sorted and adds exactly the one element |
| Ranking.SortDesc | src/phase2/traffic_visualization.py:65 | the rows, largest count first, as a permutation of the input |
| Ranking.TopN | src/phase2/traffic_visualization.py:65 | `nlargest(n)`: min(n, rows) rows, non-increasing, drawn from the input, and no row left out scores above a row kept |
| Ranking.TopNExcluded | src/phase1/botnet_architecture.py:102 | a row that the top n leave out scores no more than any row kept |
| Ranking.TopNMembers | src/phase1/botnet_architecture.py:102 | every row the top n keep is a row of the input |
| Ranking.PrefixDominates | src/phase2/traffic_visualization.py:65 | in a sorted sequence the dropped suffix never outscores the kept prefix |
| Names.DigitChar | src/phase3/extract_traffic_data.py:33 | a digit's character is a decimal digit of that value |
| Names.NatToString | src/phase3/extract_traffic_data.py:33 | `str(n)`: non-empty, decimal digits only, no leading zero |
| Names.DigitValue | src/phase3/extract_traffic_data.py:33 | a digit character's value is below 10 and spells back to the same character |
| Names.ParseNatToString | src/phase3/extract_traffic_data.py:33 | reading `str(n)` back as a number gives n |
| Names.NatToStringInjective | src/phase3/extract_traffic_data.py:33 | different numbers have different spellings |
| Names.RemoveAll | src/phase2/traffic_visualization.py:107 | `str.replace(pat, '')` never lengthens the string |
| Names.RemoveAllKeepsPrefix | src/phase2/traffic_visualization.py:107 | the part before the first occurrence of the pattern is kept verbatim |
| Names.KeepsPrefixStep | src/phase2/traffic_visualization.py:107 | a first character that does not start the pattern is kept and the scan resumes after it |
| Names.RemoveAllSkip | src/phase2/traffic_visualization.py:107 | when the pattern does not start the string, its first character is kept in front of the rest's result |
| Names.NoMatchShift | src/phase2/traffic_visualization.py:107 | dropping the first character shifts the occurrence-free prefix by one |
| Names.RemoveAllAbsent | src/phase2/traffic_visualization.py:107 | a string without the pattern is unchanged |
| Names.RemoveAllTrailing | src/phase2/traffic_visualization.py:107 | a pattern that only occurs at the end is removed and nothing else changes |
| Names.AfterLastSep | src/phase1/botnet_architecture.py:94 | the position after the last '/', with no '/' after it |
| Names.RStripSeps | src/phase1/botnet_architecture.py:94 | stripping trailing separators keeps a prefix that does not end in '/' |
| Names.AfterLastSepOf | src/phase1/botnet_architecture.py:94 | in `a/b` with no '/' in b, the last separator is the one before b |
| Names.ParentName | src/phase1/botnet_architecture.py:94 | `basename(dirname(d/n/f))` is n when n and f hold no separator and n is non-empty |
| Names.Basename | src/phase1/botnet_architecture.py:94 | `os.path.basename`: a suffix of the path that holds no separator |
| Names.Dirname | src/phase1/botnet_architecture.py:94 | `os.path.dirname`: a prefix of the path |
| Detection.CoerceFrameLenOnlyTouchesLength | src/phase3/rule_based_detection.py:33 | the coercion keeps row count, order and every other column, and changes frame.len only when it is not a number |
| Detection.WithNumericFrameLen | src/phase3/rule_based_detection.py:33 | `to_numeric` on `frame.len`: a numeric length stays, any other becomes missing, no other column changes |
| Detection.WithNumericTimeDelta | src/phase3/rule_based_detection.py:37 | `to_numeric` on `frame.time_delta`: a numeric delta stays, any other becomes missing, no other column changes |
| Detection.Sources | src/phase3/rule_based_detection.py:77-78 | the set of non-missing `ip.src` values, whose size `nunique` reports |
| Detection.HighTrafficVolume | src/phase3/rule_based_detection.py:32-34 | exactly the coerced rows whose frame.len is a number strictly above the threshold, as an order-preserving subsequence, with multiplicities kept |
| Detection.RepeatedTimeIntervals | src/phase3/rule_based_detection.py:36-38 | exactly the coerced rows whose frame.time_delta is a number at most the threshold (missing deltas excluded), as an order-preserving subsequence, with multiplicities kept |
| Detection.HighVolumeBoundary | src/phase3/rule_based_detection.py:34 | a length equal to the threshold is never flagged, threshold + 1 always is, and a non-numeric length never is |
| Detection.SourceCounts | src/phase3/rule_based_detection.py:41 | one (source, request count) entry per listed source, each count the size of its group |
| Detection.SourceCountsNames | src/phase3/rule_based_detection.py:41 | the entries name each listed source exactly once |
| Detection.FrequentSources | src/phase3/rule_based_detection.py:41-42 | the non-missing sources with more requests than the threshold, each once, and all of them |
| Detection.FrequentCncRequests | src/phase3/rule_based_detection.py:40-42 | one entry per source, none twice; each count is the number of rows from that source over the whole table and exceeds the threshold; a source is listed iff its count exceeds the threshold |
| Detection.FlaggedPackets | src/phase3/rule_based_detection.py:73 | the value-distinct union: a row is flagged iff either rule hit it, no value appears twice, never more than both hit lists together |
| Detection.Percentage | src/phase3/rule_based_detection.py:80-81 | 0 when the whole is 0; otherwise rate × whole = part × 100; never negative; at most 100 when the part does not exceed the whole |
| Detection.FalsePositiveProxy | src/phase3/rule_based_detection.py:92 | the proxy is exactly a tenth of the detection rate, so it lies in [0, 10] when the rate lies in [0, 100] |
| Detection.FlaggedAreUnionValues | src/phase3/rule_based_detection.py:73 | every flagged value is the coerced form of some input row |
| Detection.UnionValuesCard | src/phase3/rule_based_detection.py:73 | the coerced forms of the input rows are at most as many as the rows |
| Detection.FlaggedAtMostTotal | src/phase3/rule_based_detection.py:73-76 | the de-duplicated union never has more rows than the input table |
| Detection.FlaggedSourcesAmongSources | src/phase3/rule_based_detection.py:77-78 | every source among the flagged rows is a source of the table |
| Detection.TrafficFrame.constructor | src/phase3/rule_based_detection.py:59 | the frame holds the concatenated table |
| Detection.TrafficFrame.DetectHighTrafficVolume | src/phase3/rule_based_detection.py:32-34 | overwrites frame.len in the caller's frame with its coercion and returns the high-volume hits |
| Detection.TrafficFrame.DetectRepeatedTimeIntervals | src/phase3/rule_based_detection.py:36-38 | overwrites frame.time_delta in the caller's frame with its coercion and returns the repeated-interval hits |
| Detection.RulesReport | src/phase3/rule_based_detection.py:62-92 | what the script reports for a table (the predicate both `EvaluateRules` and `DetectCtu13` ensure): the rules in the script's order on the shared frame, the union, the totals and both rates |
| Detection.EvaluateRules | src/phase3/rule_based_detection.py:62-92 | `RulesReport`: applies the rules in the script's order on the shared frame; the union, the totals and both rates as specified; at most as many flagged rows as rows and flagged sources as sources; both rates in [0, 100] and 0 on an empty table; the proxy a tenth of the detection rate |
| Detection.NoRowsNoSources | src/phase3/rule_based_detection.py:78 | proof step for `EvaluateRules`' zero IP flag rate on an empty table: an empty table has no sources |
| Detection.SubsetCard | src/phase3/rule_based_detection.py:77-78 | proof step for `EvaluateRules`' bound on the flagged sources: a subset is no larger than its superset |
| Detection.LoadTrafficData | src/phase3/rule_based_detection.py:44-59 | visits every existing dataset directory and every `.csv.gz` file in it, in order; skips unparsable files; aborts on any other read failure; otherwise returns the concatenation of the loaded tables, or the empty-concat error when none loaded |
| Detection.DirFrames | src/phase3/rule_based_detection.py:48-56 | one directory contributes at most one table per listed file |
| Detection.DirFramesParsed | src/phase3/rule_based_detection.py:48-56 | every table loaded from a directory is a parsed `.csv.gz` file of it |
| Detection.AllFrames | src/phase3/rule_based_detection.py:45-56 | when no dataset directory exists, no table is loaded |
| Detection.Concat | src/phase3/rule_based_detection.py:59 | `pd.concat` is at least as long as the last table |
| Detection.ConcatMembers | src/phase3/rule_based_detection.py:59 | `pd.concat` keeps every row of every table and adds none |
| Detection.DetectCtu13 | src/phase3/rule_based_detection.py:44-92 | the script end to end: a report exactly when loading neither raises nor finds no tables, and then the three rules at 1000 bytes, 0.05 s and 5 requests on the concatenated table, with the union, the unique-IP totals, both rates and the proxy, all as `RulesReport` states |
| Sampling.DatasetId | src/phase3/extract_traffic_data.py:33 | the id of list position k is the decimal spelling of k + 1: non-empty, digits only, no separator, reading back as k + 1 |
| Sampling.OutputFileName | src/phase3/extract_traffic_data.py:38 | `extracted_traffic_{id}.csv.gz` ends in `.csv.gz` (so the loader picks it up) and holds no separator |
| Sampling.OutputFileNameInjective | src/phase3/extract_traffic_data.py:38 | different datasets never share an output file name |
| Sampling.OutputFolderIsId | src/phase3/extract_traffic_data.py:34-38 | the folder of an output file is named after the dataset id |
| Sampling.JoinLinesAppend | src/phase3/extract_traffic_data.py:62-67 | writing lines in two batches gives the same text as writing them at once |
| Sampling.LineEnd | src/phase3/extract_traffic_data.py:59 | the first newline, or the end of the text |
| Sampling.SplitLines | src/phase3/extract_traffic_data.py:59 | `splitlines` yields lines that hold no newline |
| Sampling.JoinLines | src/phase3/extract_traffic_data.py:62-67 | writing each line with `+ '\n'` gives at least one character per line and ends in a newline |
| Sampling.JoinOne | src/phase3/extract_traffic_data.py:67 | writing one more line appends it and its newline |
| Sampling.SplitJoinLines | src/phase3/extract_traffic_data.py:59-67 | lines without newlines, each written with one '\n', split back into the same lines |
| Sampling.KeptLinesAre | src/phase3/extract_traffic_data.py:65-67 | of n output lines, exactly (n - 1) / 10 data lines are kept, the j-th being line (j + 1) × 10, so a line at position i ≥ 1 is kept iff i % 10 == 0 |
| Sampling.KeptLines | src/phase3/extract_traffic_data.py:65-67 | every kept line is a data line of the output, never the header |
| Sampling.KeptLinesFromCapture | src/phase3/extract_traffic_data.py:62-67 | every written line, the header included, is a line of tshark's output |
| Sampling.ReadBackSample | src/phase3/extract_traffic_data.py:62-67 | the written file reads back as the header unchanged followed by lines 10, 20, 30, … in order |
| Sampling.GzipTextFile.constructor | src/phase3/extract_traffic_data.py:56 | opening for writing creates the file empty |
| Sampling.GzipTextFile.Write | src/phase3/extract_traffic_data.py:62 | a write appends its text |
| Sampling.SampleStep | src/phase3/extract_traffic_data.py:66-67 | one loop step appends line i and a newline exactly when i % 10 == 0 |
| Sampling.WriteSample | src/phase3/extract_traffic_data.py:62-67 | the header, then every data line whose 1-based position is a multiple of 10, each ending in one newline |
| Sampling.ExtractTrafficData | src/phase3/extract_traffic_data.py:31-71 | one output per capture in list order; a failed tshark run leaves an empty file and the loop goes on; an empty tshark output leaves an empty file and aborts the remaining captures |
| Analysis.WholeSeconds | src/phase2/traffic_analysis.py:67 | the stored second is the capture time truncated: s ≤ t < s + 1 |
| Analysis.IsSelected | src/phase2/traffic_analysis.py:61 | the selection test: an IP layer and a TCP or UDP layer |
| Analysis.ToFlow | src/phase2/traffic_analysis.py:62-75 | the row of a packet: its IP addresses and protocol, its length as packet size, its time truncated to the second |
| Analysis.ParsedRows | src/phase2/traffic_analysis.py:56-77 | parse_pcap's rows: never more rows than packets |
| Analysis.ParsedRowsAppend | src/phase2/traffic_analysis.py:60-75 | parsing a capture in two parts joins the parts' rows, so rows follow capture order |
| Analysis.ParsedRowsOne | src/phase2/traffic_analysis.py:60-61 | one packet gives its row exactly when it is selected, and nothing otherwise |
| Analysis.ParsedRowsCount | src/phase2/traffic_analysis.py:61 | as many rows as selected packets |
| Analysis.ParsedRowsFromSelected | src/phase2/traffic_analysis.py:61 | every row is the row of a selected packet (IP layer and TCP or UDP layer) |
| Analysis.ParsePcap | src/phase2/traffic_analysis.py:56-77 | the loop appends the row of each selected packet, in capture order |
| Analysis.WithIntervals | src/phase2/traffic_analysis.py:81 | same row count and order, every other column unchanged, the interval 0 for the first row and the timestamp difference to the previous row otherwise |
| Analysis.IntervalAt | src/phase2/traffic_analysis.py:81 | interval i is 0 for i = 0 and timestamp[i] − timestamp[i−1] otherwise, unclamped |
| Analysis.IntervalsTelescope | src/phase2/traffic_analysis.py:81 | adding up the intervals recovers each timestamp from the first |
| Analysis.TelescopeStep | src/phase2/traffic_analysis.py:81 | one step of that sum |
| Analysis.IntervalsNonNegative | src/phase2/traffic_analysis.py:81 | no interval is negative iff the timestamps never go back |
| Analysis.CaptureFrame.constructor | src/phase2/traffic_analysis.py:77 | the frame holds the parsed rows |
| Analysis.CaptureFrame.CalculateTimeIntervals | src/phase2/traffic_analysis.py:79-82 | adds the interval column in place; on an empty table (no columns) raises KeyError |
| Analysis.FilterCncTraffic | src/phase2/traffic_analysis.py:84-87 | with a truthy C&C address, exactly the rows with it as source or destination, in order, with multiplicities; with None or "" the table unchanged |
| Analysis.UnfilteredDatasets | src/phase2/traffic_analysis.py:40-54 | captures 4, 5, 7, 8 and 13 keep all rows; the others keep the rows involving 147.32.84.165 |
| Features.ExtractPacketSizes | src/phase2/feature_extraction.py:36-38 | the packet_size column only, same length and order |
| Features.ExtractCommunicationFrequency | src/phase2/feature_extraction.py:40-42 | one row per (src, dst) pair that occurs, none twice; each count the number of rows with that pair and at least 1; counts add up to the row count |
| Features.VolumeRows | src/phase2/feature_extraction.py:44-49 | one volume row per listed timestamp with its sum and count |
| Features.SizeCountIsCount | src/phase2/feature_extraction.py:48 | 'count' for a timestamp is the number of its rows with a size |
| Features.ExtractTrafficVolume | src/phase2/feature_extraction.py:44-49 | one row per timestamp that occurs, none twice; packet_size_sum sums the sizes of that timestamp's rows (missing sizes add nothing); packet_count counts those that have a size |
| Features.VolumeColumnSums | src/phase2/feature_extraction.py:46-49 | the column sums of the volume table are the group sums of its keys |
| Features.SizedRows | src/phase2/feature_extraction.py:48 | counting one per sized row counts the sized rows |
| Features.AllTimestampsGrouped | src/phase2/feature_extraction.py:46 | every row's timestamp is a group |
| Features.VolumeBytesConserved | src/phase2/feature_extraction.py:47 | the byte totals add up to the bytes of the whole table |
| Features.VolumeCountsConserved | src/phase2/feature_extraction.py:48 | the per-timestamp counts add up to the number of rows with a size |
| Features.OutputStem | src/phase2/feature_extraction.py:74 | the stem the feature files are named after is never longer than the path |
| Features.OutputStemOf | src/phase2/feature_extraction.py:74 | for `dir/stem_processed.csv` the stem is recovered when the suffix does not occur earlier |
| Architecture.RowOf | src/phase1/botnet_architecture.py:61-73 | the row appended for a packet whose fields can be read: time, both addresses, transport layer and length |
| Architecture.Examined | src/phase1/botnet_architecture.py:56-58 | the loop looks at min(available, sample_size) packets, none for a size of 0 or less |
| Architecture.DisplayFilter | src/phase1/botnet_architecture.py:48 | the reader yields exactly the IP packets of the file, in file order |
| Architecture.SampleTable | src/phase1/botnet_architecture.py:47-81 | analyze_pcap's table: empty when the capture cannot be opened, and never two equal rows |
| Architecture.ExtractedRows | src/phase1/botnet_architecture.py:59-76 | no more rows than examined packets |
| Architecture.ExtractedRowsExact | src/phase1/botnet_architecture.py:59-76 | a row is extracted iff it is the row of an examined packet that has an IP layer; others are skipped without stopping |
| Architecture.SampleTableBounds | src/phase1/botnet_architecture.py:47-81 | the table has no two equal rows, at most sample_size rows, and exactly the rows of the IP packets, among the first sample_size packets the display filter lets through, whose fields can be read (none when the capture cannot be opened) |
| Architecture.NonIpPacketsIgnored | src/phase1/botnet_architecture.py:48-58 | packets the display filter drops never use a sample index: non-IP packets in front of a capture leave its table unchanged |
| Architecture.SampleLoop | src/phase1/botnet_architecture.py:56-76 | the loop over the reader's packets, with its break at the cap and continue on an unreadable field, appends the rows of the first sample_size packets that can be read |
| Architecture.AnalyzePcap | src/phase1/botnet_architecture.py:36-81 | opening through the display filter, the sampling loop, then drop_duplicates, computes that table |
| Architecture.PairCounts | src/phase1/botnet_architecture.py:101 | one entry per (src, dst) pair, none twice, each the pair's row count and at least 1, adding up to the row count |
| Architecture.Centralization | src/phase1/botnet_architecture.py:101-102 | exactly min(10, number of distinct destinations) entries, no destination twice, in non-increasing order; each count is the number of distinct sources that talked to it, at least 1 |
| Architecture.DestinationTallySize | src/phase1/botnet_architecture.py:101-102 | `value_counts` of the pair table's destinations has one entry per distinct destination of the table |
| Architecture.PairDestinationIsDestination | src/phase1/botnet_architecture.py:101-102 | every destination of the pair table is a destination of the table |
| Architecture.CentralizationDominates | src/phase1/botnet_architecture.py:102 | a destination left out has no more distinct partners than any destination kept |
| Architecture.DestinationEntry | src/phase1/botnet_architecture.py:101-102 | every destination of the table has an entry in the destination tally |
| Architecture.DestinationOfSomePair | src/phase1/botnet_architecture.py:101 | every destination of the table is the destination of some (source, destination) pair |
| Architecture.NotListed | src/phase1/botnet_architecture.py:102 | an entry whose destination is not among the kept keys is not kept |
| Architecture.PartnerTally | src/phase1/botnet_architecture.py:101-102 | each destination tally entry counts its distinct partners |
| Architecture.SourcesTo | src/phase1/botnet_architecture.py:101-102 | the sources paired with a destination in the pair table |
| Architecture.PartnerCount | src/phase1/botnet_architecture.py:101-102 | a destination occurs in the pair table once per distinct partner |
| Architecture.PartnersArePairSources | src/phase1/botnet_architecture.py:101 | every partner of a destination has a pair entry |
| Architecture.PairSourcesArePartners | src/phase1/botnet_architecture.py:101 | every pair entry names a real partner |
| Architecture.DistinctPairsByDst | src/phase1/botnet_architecture.py:101-102 | in a table of distinct pairs, a destination's entries are as many as its distinct sources |
| Architecture.DestinationCounts | src/phase1/botnet_architecture.py:110 | one entry per destination, none twice, each its row count and at least 1, adding up to the row count |
| Architecture.UdpRows | src/phase1/botnet_architecture.py:121 | exactly the rows whose protocol is 'UDP', in order, with multiplicities |
| Architecture.DatasetNumber | src/phase1/botnet_architecture.py:94 | the dataset number is a folder name: it holds no separator |
| Architecture.DatasetNumberOfLayout | src/phase1/botnet_architecture.py:94 | the dataset number of `root/n/file` is n |
| Architecture.AnalyzeDataset | src/phase1/botnet_architecture.py:87-121 | an empty table (including a capture that cannot be opened) is skipped; otherwise the summaries of that table |
| Visualization.HistogramInput | src/phase2/traffic_visualization.py:46 | exactly the sizes that are present and at most 2000, in order, with multiplicities |
| Visualization.Trunc | src/phase2/traffic_visualization.py:59 | `astype(int)` truncates toward zero |
| Visualization.WithIntCount | src/phase2/traffic_visualization.py:59 | the row after the coercion: the count is a number, the truncated count or 0 when it was not numeric, and the addresses stay |
| Visualization.CoercedCount | src/phase2/traffic_visualization.py:59 | a non-numeric count becomes 0; a number is truncated toward zero |
| Visualization.CoercedScore | src/phase2/traffic_visualization.py:59 | after the coercion a row's count is its coerced count, and the addresses are unchanged |
| Visualization.TopCommunicators | src/phase2/traffic_visualization.py:62-65 | exactly min(20, rows with count ≥ threshold) rows, drawn from those rows with multiplicities, non-increasing by count; no dropped row at or above the threshold has a larger count than a kept row |
| Visualization.NonNumericCounts | src/phase2/traffic_visualization.py:59-62 | a non-numeric count survives the filter iff the threshold is at most 0 |
| Visualization.DefaultThresholdKeeps | src/phase2/traffic_visualization.py:57-62 | with the default threshold 100, a pair survives the filter exactly when its count is a number of at least 100 |
| Visualization.FrequencyFrame.constructor | src/phase2/traffic_visualization.py:57 | the frame holds the table read |
| Visualization.FrequencyFrame.PlotCommunicationFrequency | src/phase2/traffic_visualization.py:57-65 | overwrites the count column in the caller's frame with its integer coercion and selects the top communicators of the coerced table |
| Visualization.MinBucket | src/phase2/traffic_visualization.py:82 | the first bucket: no row is in an earlier one |
| Visualization.MaxBucket | src/phase2/traffic_visualization.py:82 | the last bucket: no row is in a later one |
| Visualization.BucketRange | src/phase2/traffic_visualization.py:82 | every bucket from the first row's to the last row's, consecutive, none for an empty table |
| Visualization.Resample | src/phase2/traffic_visualization.py:79-82 | one row per five-minute bucket from first to last, stamped at the bucket start, each holding the sums of its rows |
| Visualization.EmptyBucket | src/phase2/traffic_visualization.py:82 | a bucket without rows sums to 0 |
| Visualization.ResampleConservesCount | src/phase2/traffic_visualization.py:82 | the bucket packet counts add up to the packet counts of all rows |
| Visualization.CountsOf | src/phase2/traffic_visualization.py:82-83 | the packet_count column of the buckets |
| Visualization.CountColumnSum | src/phase2/traffic_visualization.py:82-83 | that column adds up to the group sums of the buckets |
| Visualization.Window | src/phase2/traffic_visualization.py:83 | the trailing window at i holds the last min(i + 1, 5) counts |
| Visualization.Mean | src/phase2/traffic_visualization.py:83 | the mean times the window length is the window sum |
| Visualization.Smooth | src/phase2/traffic_visualization.py:83 | one smoothed value per bucket; value i is the mean of the last min(i + 1, 5) counts |
| Visualization.SumNatBounds | src/phase2/traffic_visualization.py:83 | a window of counts between lo and hi sums to between length × lo and length × hi |
| Visualization.MeanBounds | src/phase2/traffic_visualization.py:83 | the mean of counts between lo and hi lies between them |
| Visualization.QuotientBoundsNat | src/phase2/traffic_visualization.py:83 | proof step for `MeanBounds` (and so `SmoothBounds`): a mean whose total lies between n × lo and n × hi lies between lo and hi |
| Visualization.CastProduct | src/phase2/traffic_visualization.py:83 | arithmetic step for `QuotientBoundsNat`: a product of counts read as a real is the product of the reals |
| Visualization.QuotientBounds | src/phase2/traffic_visualization.py:83 | arithmetic step for `QuotientBoundsNat`: a quotient of a total bounded by n × lo and n × hi lies between lo and hi |
| Visualization.SmoothBounds | src/phase2/traffic_visualization.py:83 | the smoothed series stays between the smallest and the largest count |
| Visualization.SmoothConstant | src/phase2/traffic_visualization.py:83 | constant counts are left unchanged by the smoothing |
| Visualization.VolumeFrame.constructor | src/phase2/traffic_visualization.py:79 | the frame holds the table read, not yet indexed by timestamp |
| Visualization.VolumeFrame.PlotTrafficVolumeOverTime | src/phase2/traffic_visualization.py:79-83 | moves the timestamp to the index in place, then smooths the bucket counts; a frame already indexed has no timestamp column (KeyError) |
| Visualization.FolderFor | src/phase2/traffic_visualization.py:107-110 | a file has a folder iff its base name is a key of the dataset map, and then it is that key's folder |
| Visualization.BaseName | src/phase2/traffic_visualization.py:107 | the replace chain never lengthens the file name |
| Visualization.BaseNameOfFeatureFile | src/phase2/traffic_visualization.py:107 | the feature file written for capture stem maps back to stem when no stripped pattern occurs elsewhere in the name |
| Visualization.StripLeading | src/phase2/traffic_visualization.py:107 | a leading `botnet-capture-` is removed first |
| Visualization.SelectFeatureFiles | src/phase2/traffic_visualization.py:103-113 | the main loop plots every mapped file into its folder, in listing order, and skips unmapped names with `continue` |
| Visualization.MappedFiles | src/phase2/traffic_visualization.py:103-113 | every job is a listed file with its mapped folder, and every listed file that has a folder yields a job |

## Left out

- Reading captures (scapy `rdpcap`, pyshark `FileCapture`) and running tshark are foreign code. Their results are inputs: a sequence of packets with optional IP, TCP and UDP layers, or tshark's stdout split into lines.
- Which packets the display filter "ip" matches is an input (`isIp`), and so is whether reading a packet's fields raises AttributeError (`ip` absent). The filter's own evaluation is tshark's.
- CSV and gzip reading and writing, `os.makedirs`, `os.path.exists`, console messages and the hard-coded paths are I/O. The model takes the directory listing and the file contents as parameters, and represents a written file by its text.
- The matplotlib plots are not modelled. The phase-3 `plot_packet_volume_over_time` and `plot_flagged_ip_count` only feed plots: they derive a minute column from frame.time_delta and count sources per rule.
- Phase 4 (`train_ml_model.py`) is left out. It consists only of scikit-learn calls, on a `label` column that the loader never reads.
- The phase-1 summaries that only go to CSV statistics files are left out: `protocol_counts`, the UDP timestamp `value_counts().describe()`, `nunique`, the mean packet size and the packet-size histogram.
- The pandas datetime parsing and formatting (`to_datetime`, `strftime`, `resample` on datetimes) is left out. Timestamps are whole seconds since the epoch, and a five-minute bucket is the floor of the timestamp divided by 300.
- Floating-point rounding is left out. Thresholds, rates and means are exact `real`s.
- Text cells that look like numbers are left out: a `Cell` is already either a number or text that is not a number, so the parsing of numeric text is not modelled.
- Grouping.GroupSizes, Grouping.DistinctKeys, Features.ExtractTrafficVolume, Architecture.DestinationCounts: emit groups in first-appearance order, whereas pandas `groupby` sorts the keys. The contracts do not depend on the order.
- Ranking.TopN: breaks ties in input order, like `nlargest(keep='first')`. `value_counts().head(10)` may order ties differently. The contracts do not depend on the tie order.
- Names.RemoveAll, Names.Basename, Names.Dirname: use '/' as the only separator. Windows separators and paths without a file part beyond the cases proved are not modelled.
- Sampling.SplitJoinLines: `splitlines` is modelled on '\n' only. Lines holding other line breaks ('\r', form feeds, …) are outside the round trip.
- Visualization.Resample: buckets are computed only for the packet_size_sum and packet_count columns, which are the columns the plot reads.
- Visualization.VolumeFrame.PlotTrafficVolumeOverTime: the KeyError on a frame that is already indexed is returned as None. In Python the exception propagates and ends the script.
- Detection.EvaluateRules: the proxy false-positive rate is exactly a tenth of the detection rate in exact arithmetic. The floating-point product `detection_rate * 0.1` may differ in the last bit.

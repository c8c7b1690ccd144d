# RiskMapper: the text-to-table core of `mapper.py`

RiskMapper sends threat-intelligence report URLs to a text-generation
service, parses the tab-separated lines it answers into a table of MITRE
ATT&CK observations, writes that table to a dated spreadsheet, joins it with
a controls assessment on the technique identifier and reports the share of
joined rows whose coverage status is `Yes`.

This Dafny project models the deterministic part of that pipeline:

- `PyStrings` (pystrings.dfy): Python's `str.split(sep)`, `sep.join`,
  `strip()` (with Python's whitespace set) and `lower()`.
- `UrlSources` (url_sources.dfy): `parse_urls_from_file` as a function over
  the file's lines, and the `while True` loop of `parse_urls_from_input` as a
  method over the lines of standard input.
- `Extraction` (extraction.dfy): the record parser and the nested loops of
  `process_pdf_urls` as a method, proved equal to a function `Extract`; the
  service is a parameter `ask: string -> Reply` that answers text or raises.
- `ThreatReport` (threat_report.dfy): the empty-table gate of
  `generate_threat_report` and the name of the spreadsheet, with the day
  passed in as a `Date`.
- `Coverage` (coverage.dfy): the pandas left join on `Technique ID` and the
  coverage percentage as an exact rational (`Option<real>`, `None` where
  pandas gives NaN).
- `Cli` (cli.dfy): the mode selection and controls-path choice of `main`, and
  `main`'s steps up to `load_data` as the function `Plan`.

The code compares the coverage status with `'Yes'` (mapper.py:134).
`generate_threat_report` prints `No data to generate Threat Report.` and
returns `None` for an empty table (mapper.py:121-123), yet `main` passes that
`None` to `load_data` (mapper.py:299); see Findings.

## Model

| member | source | states |
|---|---|---|
| PyStrings.Split | mapper.py:97-98 | `str.split` yields `count(sep) + 1` pieces, empty ones included, none containing the separator |
| PyStrings.JoinSplit | mapper.py:97-98 | joining the pieces of a split with the separator gives back the string |
| PyStrings.SplitJoin | mapper.py:97-98 | splitting a join of separator-free pieces gives back the pieces |
| PyStrings.Strip | mapper.py:84 | `strip()` never lengthens a string and leaves a string without whitespace unchanged |
| PyStrings.StripIsTrimmedSlice | mapper.py:84 | `strip()` returns the slice after the leading whitespace; everything cut off is whitespace; the result neither starts nor ends with whitespace |
| PyStrings.StripBlank | mapper.py:84 | `strip()` is empty exactly when the line is all whitespace |
| PyStrings.StripIdempotent | mapper.py:84 | stripping a stripped string changes nothing |
| PyStrings.Lower | mapper.py:76 | lower-casing keeps the length and maps each character on its own |
| UrlSources.UrlsFromFile | mapper.py:81-85 | no more URLs than lines, and none of them empty |
| UrlSources.UrlsFromFileTrimmed | mapper.py:84 | every URL read from a file is already stripped |
| UrlSources.UrlsFromFileAppend | mapper.py:84 | URLs come out in file order: reading `a + b` gives the URLs of `a` then those of `b` |
| UrlSources.UrlsFromFileEmpty | mapper.py:84 | a file yields no URL iff every line is blank |
| UrlSources.UrlsFromFileSource | mapper.py:84 | every URL is the stripped form of some non-blank line of the file |
| UrlSources.SentinelSpelling | mapper.py:76 | a line ends entry iff it is `done` in any mix of upper and lower case |
| UrlSources.InputUrls | mapper.py:70-79 | entry, as a value: when it succeeds, its URLs are the lines before a sentinel line, unchanged; it fails only when no line is a sentinel |
| UrlSources.InputUrlsAtSentinel | mapper.py:70-79 | with the first sentinel at position k, entry yields the k lines before it |
| UrlSources.InputUrlsNoSentinel | mapper.py:75 | without a sentinel, entry ends in the end-of-input error |
| UrlSources.ReadUrlsFromInput | mapper.py:70-79 | the loop returns the lines before the first sentinel, unchanged and without it, or fails when input ends first |
| Extraction.ParseLine | mapper.py:97-108 | an answer line becomes a record iff it holds exactly six tabs, and then its fields are the tab-separated pieces in order |
| Extraction.ParseLineAccepts | mapper.py:97-108 | a line becomes a record iff it holds exactly six tabs; its fields are the split pieces by position, and re-joining them with tabs gives the line |
| Extraction.FormatParses | mapper.py:98-108 | a record whose fields hold no tab is read back from its tab-joined line |
| Extraction.ParseLines | mapper.py:97-108 | the records of an answer's lines: at most one per line, each the record of one of the lines |
| Extraction.ParseLinesCount | mapper.py:97-99 | the records of an answer are as many as its well-formed lines |
| Extraction.ParseLinesAppend | mapper.py:97-108 | records keep the order of their lines |
| Extraction.ParseLinesFromLines | mapper.py:97-108 | every record, written back, is one of the answer's well-formed lines |
| Extraction.ReplyRecords | mapper.py:93-110 | one URL's contribution: nothing when the call raised, otherwise only records of lines of the answer |
| Extraction.Flatten | mapper.py:93-111 | every element of the concatenated outputs comes from the output for some input element |
| Extraction.Extract | mapper.py:91-111 | the threat table, as a value: every row is a record of the answer for one of the URLs |
| Extraction.ExtractAppend | mapper.py:91-111 | the table of a batch is the table of its first part followed by that of its second |
| Extraction.FailedUrlAddsNothing | mapper.py:93-111 | a URL whose call raises adds no record and the URLs after it are still processed |
| Extraction.ExtractCount | mapper.py:91-111 | the table has one row per well-formed line of every answer received |
| Extraction.ProcessUrls | mapper.py:87-112 | the nested loops build exactly `Extract(urls, ask)`: URL order first, then line order |
| Extraction.OneWellFormedLine | mapper.py:97-108 | an answer of one record's line and a malformed line yields exactly that record |
| Extraction.OneWellFormedLineExample | mapper.py:97-108 | the seven-field line `Activity … APT29` plus a five-field line gives one row with those values |
| ThreatReport.DateStamp | mapper.py:117 | `%Y%m%d` is eight decimal digits |
| ThreatReport.StampRoundTrip | mapper.py:117 | the stamp reads back to the same date, so different days give different names |
| ThreatReport.ThreatReportName | mapper.py:114-123 | no file name iff the table is empty |
| ThreatReport.ThreatReportNameParts | mapper.py:117 | the name is the prefix, `_Threat_Report_`, the date stamp and `.xlsx`, and prefix and date can be read back from it |
| Coverage.Matches | mapper.py:133 | the matching control rows all come from the controls table and carry the identifier; there are none iff no control has that identifier |
| Coverage.LeftJoinSound | mapper.py:133 | every joined row pairs a threat row with a control of the same identifier, or with none when no control has it |
| Coverage.LeftJoinComplete | mapper.py:133 | every threat row appears in the join, and so does every matching threat/control pair |
| Coverage.LeftJoinUnique | mapper.py:133 | with unique control identifiers the join has exactly one row per threat row, in threat order |
| Coverage.JoinRow | mapper.py:133 | one threat row's share of the merge: at least one row, every row carrying that threat row, and a row without control exactly when no control matches |
| Coverage.LeftJoin | mapper.py:133 | the left join as a value: it never has fewer rows than the threat table |
| Coverage.MatchesMultiplicity | mapper.py:133 | a control row is matched as often as it occurs in the controls table when it has the identifier sought, and never otherwise |
| Coverage.PairMultiplicity | mapper.py:133 | pairing a threat row with a list of controls yields each control's pair as often as the control occurs |
| Coverage.PairIsRow | mapper.py:133 | the recursive pairing equals the pairing by position used for a threat row's joined rows |
| Coverage.JoinRowPairs | mapper.py:133 | a threat row is paired with a control of its identifier as often as that control occurs in the controls table |
| Coverage.JoinRowOthers | mapper.py:133 | the joined rows of a threat row all carry that threat row |
| Coverage.LeftJoinMultiplicity | mapper.py:133 | over the whole join, a threat row and a control of its identifier are paired (occurrences of the threat row) × (occurrences of the control) times |
| Coverage.LeftJoinSize | mapper.py:133 | the join has exactly one row per matching control of every threat row, and one for a threat row without match |
| Coverage.LeftJoinAppend | mapper.py:133 | the join keeps the threat table's order: joining `a + b` gives the rows of `a` then those of `b` |
| Coverage.LeftJoinDuplicates | mapper.py:133 | two control rows matching one threat row make the join longer than the threat table |
| Coverage.CoveredCount | mapper.py:134 | the covered rows are at most all rows; none iff no row is covered, all iff every row is |
| Coverage.CoveragePercent | mapper.py:134 | undefined iff the join is empty; otherwise in [0, 100], 0 iff no row has status `Yes`, 100 iff all do |
| Coverage.AnalyzeCoverage | mapper.py:131-135 | the percentage is undefined iff the threat table is empty, and otherwise lies in [0, 100] |
| Coverage.CoverageBounds | mapper.py:131-135 | over a non-empty threat table the percentage is defined, in [0, 100], and 0 when no control has status `Yes` |
| Coverage.PercentBounds | mapper.py:134 | a share of covered rows as a percentage lies in [0, 100] and is 0 or 100 only at none or all |
| Coverage.JoinExample | mapper.py:133 | T1059, T1078, T1059 against controls T1059 and T1078: each threat row is paired with its one control, in order |
| Coverage.CoverageExample | mapper.py:131-135 | T1059, T1078, T1059 against T1059 `Yes` and T1078 `No`: three joined rows and 200/3 percent |
| Cli.SelectMode | mapper.py:288-296 | `--interactive` wins over `--feed`; `--tr` counts only when neither is set; with none of them, usage; empty paths count as absent |
| Cli.ModeIndependence | mapper.py:288-292 | in a URL mode `--tr` is ignored, `--cr` never changes the mode, an empty `--feed` or `--tr` is the same as none |
| Cli.ControlsPath | mapper.py:298 | Python's `or`: the path is one of the two operands, `--cr` whenever it is truthy, and it is empty only when both are |
| Cli.ControlsPathIgnoresMode | mapper.py:288-298 | the controls file does not depend on `--interactive`, `--feed` or `--tr` |
| Cli.ModeUrls | mapper.py:287-288 | the URL list of the input mode: a feed file always gives one, with no empty URL; interactive entry gives an unchanged prefix of the input, and fails only when no line is a sentinel |
| Cli.Plan | mapper.py:288-299 | usage iff no input mode; an end-of-input failure iff interactive entry ran out; the analysis always gets the chosen controls path; with `--tr` the analysis gets that file; never the guarded halt |
| Cli.PlanUsage | mapper.py:294-296 | `main` only prints usage iff no input mode is given |
| Cli.PlanMissingReport | mapper.py:288-299 | as written, `load_data` is reached without a threat report iff a URL mode extracted no record |
| Cli.PlanMissingReportExample | mapper.py:288-299 | a feed file whose one URL fails leads to `load_data(None, …)` |
| Cli.GuardedPlan | mapper.py:288-299 | with the empty-table check, the analysis is only ever handed an existing report |
| Cli.GuardedPlanHalts | mapper.py:288-299 | the guarded pipeline halts with no data iff a URL mode extracted nothing, and otherwise agrees with `main` |

## Left out

- `query_chatgpt` and `setup_openai_api`: the text-generation service is the parameter `ask`, a total function from URL to answer text or a raised exception. Repeated URLs therefore get the same answer in the model; the real service may answer differently each time.
- `test_openai.py`: a connectivity check of the service with no logic of its own.
- `generate_charts`, `generate_additional_charts`, `create_pdf_report`: chart rendering and PDF layout through plotting and PDF libraries.
- `load_config`, `load_data` and the spreadsheet writes and reads: the tables are values. The type conversions of an Excel round trip (empty cells read as NaN, numeric identifiers) are not modelled, nor are pandas' rules for NaN keys in a merge.
- Opening the feed file: the file is given as its lines; a missing or unreadable file, which raises in the source, is not modelled.
- argparse's own errors (unknown flags, a flag without its value) and `config.get` raising on a missing key.
- The float arithmetic of `.mean() * 100`: the percentage is an exact rational, and the NaN of an empty join is `None`.
- pandas' column suffixes for overlapping column names (`Tactic_y`), used only by the charts (mapper.py:168, 185); the controls table's `Tactic` column is left out of `Coverage.Control`, which holds the identifier, the coverage status, the effectiveness and the control type.
- `datetime.now()`, `print`, the warning filters and the banner.
- PyStrings.Lower: lower-cases ASCII letters only; no other character lowers to one of `d`, `o`, `n`, `e`, so the sentinel test is unaffected.
- ThreatReport.DateStamp: requires a year from 1000 to 9999, because `%Y` below 1000 pads differently across platforms.
- Cli.Plan: stops at the call of `load_data`; reading the written spreadsheet back and the coverage analysis that follows are `Coverage.AnalyzeCoverage` applied to the tables.

## Findings

| source | as written | input that shows it | evidently intended | confidence | as-written member | corrected member |
|---|---|---|---|---|---|---|
| mapper.py:288-299 | when a URL mode extracts no record, `generate_threat_report` returns `None` and `main` still calls `load_data(None, …)`, which raises | `--feed urls.txt` where the one URL's service call raises | stop with "no data" before the analysis | medium, not executed | Cli.PlanMissingReportExample | Cli.GuardedPlanHalts |

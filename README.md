# check-consul-health, modelled in Dafny

`check-consul-health.py` is a Nagios plugin. It asks a Consul agent for the
health checks of one node in one datacenter (`GET {addr}/v1/health/node/{NODE}?dc={DC}`).
It keeps the checks that match the optional `--CheckID` and `--ServiceName`
matchers and splits them by status into critical, warning and passing.
It prints a critical section, a warning section and a passing section, each
only when non-empty. It exits with 2 if any check is critical, else 1 if any is
a warning, else 0. It exits with 1 and a one-line message when the node has no
checks or no check matches, and with 3 on any unexpected failure.

The model is pure, as the source is: filtering and partitioning are `filter`
expressions, the exit code is a conditional expression, and the printing loops
only emit lines. Standard output is the `lines` field of a returned `Report`.

| file | module | what it holds |
|---|---|---|
| `text.dfy` | `Text` | `str.join`, `str.split` on one character, `"%d"` formatting, with round trips |
| `health_checks.dfy` | `HealthChecks` | `CheckRecord`, the matchers, filtering, the status partition, the Python 3 filter behaviour |
| `evaluator.dfy` | `Evaluator` | `print_check`, `check_output`, the sections, `process_failing` and its properties |
| `node_url.dfy` | `NodeUrl` | the options, `build_node_url`, and a parser that reads the URL back |
| `plugin.dfy` | `Plugin` | the top level: URL, fetch (a parameter), evaluation, exit code 3 |

Points where the code's behaviour is easy to misread, and what the model does:
- The usage line (`check-consul-health.py:5`) writes `--CheckID | --ServiceName` as if they excluded each other. The parser accepts both (`:99-100`), and the filter then requires both to match. The model takes both as optional and conjunctive.
- A run does not always print a line. When records match but none has the status passing, warning or critical, no section is printed and the code is 0 (`:62-87`). The model keeps this (`Evaluator.UnrecognisedOnlyIsSilent`, `Plugin.FetchedRunPrints`).
- The filter list at `:57-61` is a `map` object. Under Python 2 it is a list and every record is tested against both matchers. Under Python 3 it is a one-shot iterator shared by all records, so matchers get used up. The model takes the Python 2 (conjunctive) behaviour as the intended one. The Python 3 behaviour is modelled too and reported under "Findings".

## Model

| member | source | states |
|---|---|---|
| `HealthChecks.FieldMatches` | check-consul-health.py:57 | an unset matcher accepts every value; a set one accepts exactly its own string |
| `HealthChecks.Matches` | check-consul-health.py:57-61 | a record matches when the filter of every field holds for it; with no matcher given every record matches. What filtering with it keeps is stated by `HealthChecks.FilterChecks` |
| `HealthChecks.FilterChecks` | check-consul-health.py:57-61 | each record occurs in the result as often as in the input if both matchers accept it (an unset matcher accepts anything, a set one only the exact string), otherwise not at all; every kept record matches |
| `HealthChecks.FilterIsSubsequence` | check-consul-health.py:57-61 | filtering keeps the input's relative order: the result is a subsequence of the input |
| `HealthChecks.WithStatus` | check-consul-health.py:62-64 | a status partition holds exactly the records with that Status, with their multiplicity, and nothing else |
| `HealthChecks.WithStatusIsSubsequence` | check-consul-health.py:62-64 | each partition keeps the order of the filtered list |
| `HealthChecks.PartitionByStatus` | check-consul-health.py:62-64 | critical, warning and passing are pairwise disjoint; a filtered record is in one of them exactly when its Status is one of the three known values |
| `HealthChecks.PartitionCount` | check-consul-health.py:62-64 | the three partitions together are exactly as long as the number of recognised records, which is at most the filtered length: nothing is lost or counted twice |
| `HealthChecks.AllOnce` | check-consul-health.py:57-61 | Python 3 `all` over a one-shot filter iterator: true exactly when every remaining filter holds, and then the iterator is used up; when false, the filters before the first failing one hold, that one fails, and exactly the filters after it are left |
| `HealthChecks.FilterChecksPy3` | check-consul-health.py:57-61 | the Python 3 filter only ever keeps too much: its result is a sub-multiset of the input and keeps every occurrence of a matching record; `HealthChecks.Py3FirstMatchKeepsAll` states when it keeps records that do not match |
| `HealthChecks.AllFieldsIsMatches` | check-consul-health.py:57-61 | with both filters still unconsumed, the Python 3 test agrees with the conjunctive match |
| `HealthChecks.Py3ExhaustedKeepsAll` | check-consul-health.py:57-61 | once the filter iterator is used up, every later record is kept |
| `HealthChecks.Py3FirstMatchKeepsAll` | check-consul-health.py:57-61 | under Python 3, if the first record matches, every record is kept whatever the matchers say |
| `HealthChecks.Py3FilterLetsMismatchThrough` | check-consul-health.py:57-61 | a concrete input where the Python 3 filter keeps a record the `--CheckID` matcher rejects |
| `Evaluator.CheckLine` | check-consul-health.py:49-50 | a detail line is `"> "` followed by Node, ServiceName, Name, CheckID and Status joined by `':'`; `Evaluator.CheckLineFields` reads the fields back |
| `Evaluator.JoinedFields` | check-consul-health.py:50 | the text after `"> "` in a detail line is the five fields Node, ServiceName, Name, CheckID, Status joined by `':'` |
| `Evaluator.CheckLineFields` | check-consul-health.py:49-50 | a detail line starts with `"> "`; after it come the five fields joined by `':'`, and splitting at `':'` gives them back when no field contains `':'` |
| `Evaluator.CheckOutput` | check-consul-health.py:54-55 | a summary entry is Name and Output joined by `':'`; when the Name holds no `':'`, cutting at the first `':'` gives Name and Output back |
| `Evaluator.Outputs` | check-consul-health.py:54-55 | one `Name:Output` entry per member, in member order |
| `Evaluator.DetailLines` | check-consul-health.py:76-77 | one detail line per member, the i-th line for the i-th member |
| `Evaluator.FailureSummaryEntries` | check-consul-health.py:75 | the critical/warning summary line splits at the pipe character into exactly the members' `Name:Output` entries, in order, when no Name or Output contains the pipe character |
| `Evaluator.PassingSummaryCount` | check-consul-health.py:83 | the passing summary is `"Passing: "` followed by decimal digits whose value is the number of passing records |
| `Evaluator.Section` | check-consul-health.py:74-85 | an empty partition gives no lines; a non-empty one gives its summary line and then its members' detail lines in order |
| `Evaluator.ExitCode` | check-consul-health.py:87 | 2 exactly when the critical partition is non-empty, 1 exactly when it is empty and the warning one is not, 0 when both are empty; passing records never change it |
| `Evaluator.PartitionLines` | check-consul-health.py:74-85 | the output has one line per member of each partition plus one summary line per non-empty partition, and is empty exactly when all three partitions are; the order of the sections is stated by `Evaluator.PartitionLinesLayout` |
| `Evaluator.Evaluate` | check-consul-health.py:66-87 | no records gives exactly `["There is no matching node!"]` and 1; records but nothing kept gives exactly `["There is no matching check!"]` and 1; the code is 0, 1 or 2, and 0 whenever nothing is printed |
| `Evaluator.ProcessFailing` | check-consul-health.py:53-87 | the code is always 0, 1 or 2; an empty input gives exactly `["There is no matching node!"]` and 1, whatever the matchers; a non-empty input where nothing matches gives exactly `["There is no matching check!"]` and 1; no output at all implies code 0 |
| `Evaluator.MatchedReport` | check-consul-health.py:74-87 | when some record matches, the lines are the sections of the partition of the matching records and the code comes from that partition |
| `Evaluator.StatusPresent` | check-consul-health.py:62-64 | a partition is non-empty exactly when some matching input record has that status |
| `Evaluator.ExitCodePriority` | check-consul-health.py:87 | when some record matches: code 2 iff a matching record is critical; 1 iff none is critical and one is a warning; 0 iff neither |
| `Evaluator.UnrecognisedOnlyIsSilent` | check-consul-health.py:62-87 | when records match but none has a known status, nothing is printed and the code is 0 |
| `Evaluator.PartitionLinesLayout` | check-consul-health.py:74-85 | the output is the critical section, then the warning section, then the passing section, with the lengths that gives |
| `Evaluator.OutputLayout` | check-consul-health.py:74-85 | when some record matches, the output splits into the critical, warning and passing sections in that order, each at the offset its predecessors' sizes give |
| `Evaluator.LineCount` | check-consul-health.py:74-85 | the number of lines is the number of recognised matching records plus one summary line per non-empty section |
| `Evaluator.FirstLine` | check-consul-health.py:74-85 | the first line summarises the most severe non-empty section: critical, else warning, else passing |
| `Evaluator.SectionListsMember` | check-consul-health.py:76-85 | a section contains the detail line of each of its members |
| `Evaluator.EveryRecognisedMatchReported` | check-consul-health.py:62-85 | every matching record with a known status has its detail line in the output |
| `Evaluator.LonePassing` | check-consul-health.py:82-85 | a single passing record gives an empty critical and warning partition and the lines `Passing: 1` and its detail line |
| `Evaluator.ProcessFailingPy3` | check-consul-health.py:53-87 | under Python 3 the code is still 0, 1 or 2 and an empty input still gives `["There is no matching node!"]`; but once the first record matches, the code is decided by the statuses of all records, matching or not |
| `Evaluator.Py3ExitCodeDiffers` | check-consul-health.py:57-87 | on a concrete input, the Python 3 behaviour exits 2 where the conjunctive filter prints the passing section and exits 0 |
| `NodeUrl.BuildNodeUrl` | check-consul-health.py:34-37 | the URL starts with the registry address and the node-health path, ends with `?dc=` and the datacenter, and is as long as its pieces; `NodeUrl.NodeUrlRoundTrip` states that node and datacenter can be read back |
| `NodeUrl.NodeUrlRoundTrip` | check-consul-health.py:34-37 | when the node name has no `'?'`, the node and datacenter can be read back from the built URL |
| `NodeUrl.ParsedNodeHasNoQuery` | check-consul-health.py:35 | a node read back from a URL contains no `'?'` |
| `NodeUrl.ParsedPiecesSpellUrl` | check-consul-health.py:35 | a URL the parser accepts is the address, the node-health path, the node, `?dc=` and the datacenter, concatenated |
| `NodeUrl.ParsedUrlRebuilds` | check-consul-health.py:35 | every URL the parser accepts is exactly the URL built from the node and datacenter it returns |
| `NodeUrl.NodeUrlAmbiguous` | check-consul-health.py:35 | nothing is escaped: two different node/datacenter pairs can give the same URL |
| `Plugin.RunCheck` | check-consul-health.py:104-115 | the code is 0 to 3; 3 exactly when fetching or decoding failed, and then nothing is printed; otherwise the run is `process_failing` on the decoded records and the given matchers |
| `Plugin.FetchedRunPrints` | check-consul-health.py:66-87 | once the checks are fetched, the output is empty exactly when some record matches and no matching record has a known status |
| `Text.FirstIndex` | check-consul-health.py:75 | the position of the first occurrence of a character, or the length when it is absent |
| `Text.Split` | check-consul-health.py:75 | splitting gives at least one piece and no piece contains the separator |
| `Text.Join` | check-consul-health.py:75 | a joined line is exactly as long as its parts plus one separator between each neighbouring pair; `Text.SplitJoin` reads the parts back |
| `Text.SplitJoin` | check-consul-health.py:75 | splitting a line joined with a one-character separator gives the parts back when no part contains it |
| `Text.JoinSplit` | check-consul-health.py:75 | joining the pieces of a split line gives the line back |
| `Text.NatToDecimal` | check-consul-health.py:83 | `%d` of a count is a non-empty run of decimal digits without a leading zero; it has one digit exactly when the count is below 10 |
| `Text.DecimalRoundTrip` | check-consul-health.py:83 | reading the formatted count back gives the count |

## Findings

| source | as written | input that shows it | evidently intended | confidence | as-written member | corrected member |
|---|---|---|---|---|---|---|
| check-consul-health.py:57-61 | `filters` is the result of `map`. Under Python 3 that is a one-shot iterator, and every record's `all(...)` consumes it. Once one record passes both matchers, later records are not filtered at all. | `--CheckID=c1` on a node whose checks are `c1` (passing) then `c2` (critical): `c2` is kept and the plugin exits 2 | every record is tested against both matchers, as under Python 2; the run prints `Passing: 1` and exits 0 | high under Python 3, none under Python 2 (the `urllib` fallback at :23-26 targets both); not executed | `Evaluator.Py3ExitCodeDiffers` | `HealthChecks.FilterChecks` |

## Left out

- `prepare_args` (check-consul-health.py:90-101) is not modelled: it is argparse wiring. The model starts from its result, the `Options` datatype, so the default `--addr` of `http://localhost:8500` is not part of the model. The `type=bool` on `--verbose` makes any non-empty string true; this is not modelled.
- `get_json_from_url` (check-consul-health.py:40-46) is not modelled: it is the HTTP request and `json.loads`. It is the `fetch` parameter of `Plugin.RunCheck`, which returns already-typed records, or `None` when the request or the decoding fails.
- Records with a missing or non-string field are not modelled: a `CheckRecord` always has all six fields, as strings. In the source such a record raises only where the field is read: `CheckID` or `ServiceName` at check-consul-health.py:57 only when that matcher is set, `Status` at :62-64 only for kept records, `Output` at :55 only for critical and warning members, and the five shown fields at :50 only for recognised members. `%s` at :50 accepts a value of any type; `+` at :55 raises on one that is not a string.
- `Plugin.RunCheck`: its promise that code 3 comes with no output covers only failures of the request or the decoding. A raise inside `process_failing` after some sections were printed (a critical record followed by a warning record without `Output`, say) leaves the critical section on standard output and then exits 3; this partial output is not modelled.
- `dump` and the verbose echo of URL, response and status code (check-consul-health.py:29-31, 36, 43-44) are not modelled: they are diagnostic printing. `Options.verbose` is carried but unused.
- The traceback printed to standard error at check-consul-health.py:114 is not modelled. For a failed request or decoding, only the exit code 3 and the empty standard output are.
- Strings are sequences of characters. Python 2 byte strings versus unicode, and the newline `print` appends, are not modelled.

/** `process_failing`: from the registry's records and the two matchers to the
    lines the plugin prints and the Nagios exit code it returns. */
module Evaluator {
  import opened HealthChecks
  import Text

  const NoMatchingNode: string := "There is no matching node!"
  const NoMatchingCheck: string := "There is no matching check!"
  const PassingPrefix: string := "Passing: "

  /** Exit codes of a Nagios plugin. */
  const OK: int := 0
  const WARNING: int := 1
  const CRITICAL: int := 2
  const UNKNOWN: int := 3

  /** What the plugin writes to standard output, one string per line, and
      the code it exits with. */
  datatype Report = Report(lines: seq<string>, code: int)

  /** `print_check`: the detail line of one record, `"> "` and then the
      record's five shown fields joined by `':'`. */
  function CheckLine(c: CheckRecord): (line: string)
    ensures |line| >= 2 && line[..2] == "> "
    ensures line[2..] == Text.Join(":", LineFields(c))
  {
    JoinedFields(c);
    var fields := c.Node + ":" + c.ServiceName + ":" + c.Name + ":" + c.CheckID + ":" + c.Status;
    assert ("> " + fields)[2..] == fields;
    "> " + fields
  }

  /** The five fields a detail line shows, in the order it shows them. */
  function LineFields(c: CheckRecord): seq<string>
  {
    [c.Node, c.ServiceName, c.Name, c.CheckID, c.Status]
  }

  /** Joining the five fields with `':'` spells out a detail line after its
      `"> "` prefix. */
  lemma JoinedFields(c: CheckRecord)
    ensures Text.Join(":", LineFields(c)) == c.Node + ":" + c.ServiceName + ":" + c.Name + ":" + c.CheckID + ":" + c.Status
  {
    var f4 := [c.Status];
    var f3 := [c.CheckID] + f4;
    var f2 := [c.Name] + f3;
    var f1 := [c.ServiceName] + f2;
    var fields := [c.Node] + f1;
    assert fields == LineFields(c);
    Text.JoinCons(":", c.CheckID, f4);
    Text.JoinCons(":", c.Name, f3);
    Text.JoinCons(":", c.ServiceName, f2);
    Text.JoinCons(":", c.Node, f1);
  }

  /** A detail line is `"> "` followed by the record's five fields joined by
      `':'`; when no field contains `':'`, splitting it recovers them. */
  lemma CheckLineFields(c: CheckRecord)
    ensures var line := CheckLine(c);
      |line| >= 2 && line[..2] == "> " && line[2..] == Text.Join(":", LineFields(c))
    ensures (forall i :: 0 <= i < 5 ==> ':' !in LineFields(c)[i]) ==>
      Text.Split(':', CheckLine(c)[2..]) == LineFields(c)
  {
    JoinedFields(c);
    var fields := LineFields(c);
    var line := CheckLine(c);
    assert line == "> " + (c.Node + ":" + c.ServiceName + ":" + c.Name + ":" + c.CheckID + ":" + c.Status);
    if forall i :: 0 <= i < 5 ==> ':' !in fields[i] {
      Text.SplitJoin(':', fields);
    }
  }

  /** `check_output`: one entry of a critical or warning summary line, the
      Name and the Output joined by `':'`. When the Name holds no `':'`, the
      first `':'` of the entry separates the two again. */
  function CheckOutput(c: CheckRecord): (entry: string)
    ensures entry == Text.Join(":", [c.Name, c.Output])
    ensures ':' !in c.Name ==> var k := Text.FirstIndex(':', entry);
      k == |c.Name| && entry[..k] == c.Name && entry[k + 1..] == c.Output
  {
    assert [c.Name, c.Output][1..] == [c.Output];
    assert ':' !in c.Name ==> Text.FirstIndex(':', c.Name + ":" + c.Output) == |c.Name| by {
      if ':' !in c.Name {
        Text.FirstIndexAfterPrefix(':', c.Name, c.Output);
      }
    }
    c.Name + ":" + c.Output
  }

  /** `map(check_output, members)`. */
  function Outputs(members: seq<CheckRecord>): (entries: seq<string>)
    ensures |entries| == |members|
    ensures forall i :: 0 <= i < |members| ==> entries[i] == CheckOutput(members[i])
  {
    if members == [] then [] else [CheckOutput(members[0])] + Outputs(members[1..])
  }

  /** One `print_check` line per member, in order. */
  function DetailLines(members: seq<CheckRecord>): (lines: seq<string>)
    ensures |lines| == |members|
    ensures forall i :: 0 <= i < |members| ==> lines[i] == CheckLine(members[i])
  {
    if members == [] then [] else [CheckLine(members[0])] + DetailLines(members[1..])
  }

  /** The first line of the critical and of the warning section. */
  function FailureSummary(members: seq<CheckRecord>): string
  {
    Text.Join("|", Outputs(members))
  }

  /** A summary line names every member, in order: when no Name or Output
      contains `'|'`, splitting it at `'|'` gives back the `Name:Output` entries. */
  lemma FailureSummaryEntries(members: seq<CheckRecord>)
    requires members != []
    requires forall i :: 0 <= i < |members| ==> '|' !in members[i].Name && '|' !in members[i].Output
    ensures |Text.Split('|', FailureSummary(members))| == |members|
    ensures forall i :: 0 <= i < |members| ==>
      Text.Split('|', FailureSummary(members))[i] == members[i].Name + ":" + members[i].Output
  {
    var entries := Outputs(members);
    forall i | 0 <= i < |entries| ensures '|' !in entries[i] {
      assert entries[i] == members[i].Name + ":" + members[i].Output;
    }
    Text.SplitJoin('|', entries);
  }

  /** The first line of the passing section. */
  function PassingSummary(members: seq<CheckRecord>): string
  {
    PassingPrefix + Text.NatToDecimal(|members|)
  }

  /** The passing summary is `"Passing: "` and then the decimal number of
      passing records. */
  lemma PassingSummaryCount(members: seq<CheckRecord>)
    ensures var line := PassingSummary(members);
      && |line| > |PassingPrefix|
      && line[..|PassingPrefix|] == PassingPrefix
      && Text.AllDigits(line[|PassingPrefix|..])
      && Text.DecimalValue(line[|PassingPrefix|..]) == |members|
  {
    var line := PassingSummary(members);
    assert line[|PassingPrefix|..] == Text.NatToDecimal(|members|);
    Text.DecimalRoundTrip(|members|);
  }

  /** Number of lines a section takes: none when it has no member, else a
      summary line plus one line per member. */
  function SectionLength(members: seq<CheckRecord>): nat
  {
    if members == [] then 0 else 1 + |members|
  }

  /** A section: nothing when empty, else `header` then one detail line per member. */
  function Section(header: string, members: seq<CheckRecord>): (lines: seq<string>)
    ensures |lines| == SectionLength(members)
    ensures members != [] ==> lines[0] == header
    ensures forall i :: 0 <= i < |members| ==> lines[1 + i] == CheckLine(members[i])
  {
    if members == [] then [] else [header] + DetailLines(members)
  }

  /** The Nagios code of a partition: critical when any record is critical,
      else warning when any is a warning, else OK; the passing records never
      change it. */
  function ExitCode(p: Partition): (code: int)
    ensures code == CRITICAL <==> p.critical != []
    ensures code == WARNING <==> p.critical == [] && p.warning != []
    ensures code == OK <==> p.critical == [] && p.warning == []
  {
    if p.critical != [] then CRITICAL else if p.warning != [] then WARNING else OK
  }

  /** The three sections, in the fixed order critical, warning, passing;
      nothing at all when the three partitions are empty. */
  function PartitionLines(p: Partition): (lines: seq<string>)
    ensures |lines| == SectionLength(p.critical) + SectionLength(p.warning) + SectionLength(p.passing)
    ensures lines == [] <==> p.critical == [] && p.warning == [] && p.passing == []
  {
    Section(FailureSummary(p.critical), p.critical)
      + Section(FailureSummary(p.warning), p.warning)
      + Section(PassingSummary(p.passing), p.passing)
  }

  /** The report once `filtered` has been computed from `checks`: the two
      one-line answers with code 1 for no records and no kept records, else
      the sections of the partition of `filtered`, and code 0 whenever
      nothing is printed. */
  function Evaluate(checks: seq<CheckRecord>, filtered: seq<CheckRecord>): (r: Report)
    ensures OK <= r.code <= CRITICAL
    ensures checks == [] ==> r == Report([NoMatchingNode], WARNING)
    ensures checks != [] && filtered == [] ==> r == Report([NoMatchingCheck], WARNING)
    ensures r.lines == [] ==> r.code == OK
  {
    if checks == [] then Report([NoMatchingNode], WARNING)
    else if filtered == [] then Report([NoMatchingCheck], WARNING)
    else
      var p := PartitionByStatus(filtered);
      Report(PartitionLines(p), ExitCode(p))
  }

  /** `process_failing(checks)` with the matchers passed explicitly. */
  function ProcessFailing(checks: seq<CheckRecord>, filters: Filters): (r: Report)
    ensures OK <= r.code <= CRITICAL
    ensures checks == [] ==> r == Report([NoMatchingNode], WARNING)
    ensures checks != [] && (forall c :: c in checks ==> !Matches(filters, c)) ==>
      r == Report([NoMatchingCheck], WARNING)
    ensures r.lines == [] ==> r.code == OK
  {
    var filtered := FilterChecks(filters, checks);
    assert filtered != [] ==> multiset(filtered)[filtered[0]] > 0;
    Evaluate(checks, filtered)
  }

  /** Some record passes the matchers. */
  predicate AnyMatch(checks: seq<CheckRecord>, filters: Filters)
  {
    exists c :: c in checks && Matches(filters, c)
  }

  /** Some record passes the matchers and has the given status. */
  predicate AnyMatching(checks: seq<CheckRecord>, filters: Filters, status: string)
  {
    exists c :: c in checks && Matches(filters, c) && c.Status == status
  }

  /** When some record matches, the report is built from the partition of
      the matching records. */
  lemma MatchedReport(checks: seq<CheckRecord>, filters: Filters)
    requires AnyMatch(checks, filters)
    ensures var p := PartitionByStatus(FilterChecks(filters, checks));
      ProcessFailing(checks, filters) == Report(PartitionLines(p), ExitCode(p))
  {
    var c :| c in checks && Matches(filters, c);
    assert multiset(FilterChecks(filters, checks))[c] > 0;
  }

  /** A status partition is non-empty exactly when some matching record has
      that status. */
  lemma StatusPresent(checks: seq<CheckRecord>, filters: Filters, status: string)
    ensures AnyMatching(checks, filters, status) <==> WithStatus(status, FilterChecks(filters, checks)) != []
  {
    var filtered := FilterChecks(filters, checks);
    var members := WithStatus(status, filtered);
    if AnyMatching(checks, filters, status) {
      var x :| x in checks && Matches(filters, x) && x.Status == status;
      assert multiset(filtered)[x] > 0;
      assert multiset(members)[x] > 0;
    }
    if members != [] {
      var x := members[0];
      assert multiset(members)[x] > 0;
      assert multiset(filtered)[x] > 0;
      assert multiset(checks)[x] > 0;
    }
  }

  /** When some record passes the matchers, the code is 2 exactly when one of
      them is critical, 1 exactly when none is critical and one is a warning,
      and 0 otherwise. */
  lemma ExitCodePriority(checks: seq<CheckRecord>, filters: Filters)
    requires AnyMatch(checks, filters)
    ensures var code := ProcessFailing(checks, filters).code;
      && (code == CRITICAL <==> AnyMatching(checks, filters, Critical))
      && (code == WARNING <==> !AnyMatching(checks, filters, Critical) && AnyMatching(checks, filters, Warning))
      && (code == OK <==> !AnyMatching(checks, filters, Critical) && !AnyMatching(checks, filters, Warning))
  {
    MatchedReport(checks, filters);
    StatusPresent(checks, filters, Critical);
    StatusPresent(checks, filters, Warning);
  }

  /** Some record matches, and no matching record has a recognised status. */
  predicate SilentlyUnrecognised(checks: seq<CheckRecord>, filters: Filters)
  {
    && AnyMatch(checks, filters)
    && forall c :: c in checks && Matches(filters, c) ==> !Recognised(c.Status)
  }

  /** Matching records whose statuses are all unrecognised print nothing and
      give 0. */
  lemma UnrecognisedOnlyIsSilent(checks: seq<CheckRecord>, filters: Filters)
    requires SilentlyUnrecognised(checks, filters)
    ensures ProcessFailing(checks, filters) == Report([], OK)
  {
    MatchedReport(checks, filters);
    StatusPresent(checks, filters, Critical);
    StatusPresent(checks, filters, Warning);
    StatusPresent(checks, filters, Passing);
  }

  /** The lines of a partition are its critical section, then its warning
      section, then its passing section. */
  lemma PartitionLinesLayout(p: Partition)
    ensures var lines := PartitionLines(p);
      var w := SectionLength(p.critical);
      var s := w + SectionLength(p.warning);
      && |lines| == s + SectionLength(p.passing)
      && lines[..w] == Section(FailureSummary(p.critical), p.critical)
      && lines[w..s] == Section(FailureSummary(p.warning), p.warning)
      && lines[s..] == Section(PassingSummary(p.passing), p.passing)
  {
    var cs := Section(FailureSummary(p.critical), p.critical);
    var ws := Section(FailureSummary(p.warning), p.warning);
    var ps := Section(PassingSummary(p.passing), p.passing);
    var front := cs + ws;
    var lines := PartitionLines(p);
    assert lines == front + ps;
    assert lines[..|front|] == front && lines[|front|..] == ps;
    assert front[..|cs|] == cs && front[|cs|..] == ws;
    assert lines[..|cs|] == front[..|cs|];
    assert lines[|cs|..|front|] == front[|cs|..];
  }

  /** The layout of the output when some record passes the matchers: the
      critical section, then the warning section, then the passing one; a
      section is present only when non-empty, opens with its summary line and
      lists its members' detail lines in input order (see `Section`). */
  lemma OutputLayout(checks: seq<CheckRecord>, filters: Filters)
    requires AnyMatch(checks, filters)
    ensures var lines := ProcessFailing(checks, filters).lines;
      var p := PartitionByStatus(FilterChecks(filters, checks));
      var w := SectionLength(p.critical);
      var s := w + SectionLength(p.warning);
      && |lines| == s + SectionLength(p.passing)
      && lines[..w] == Section(FailureSummary(p.critical), p.critical)
      && lines[w..s] == Section(FailureSummary(p.warning), p.warning)
      && lines[s..] == Section(PassingSummary(p.passing), p.passing)
  {
    var p := PartitionByStatus(FilterChecks(filters, checks));
    assert ProcessFailing(checks, filters).lines == PartitionLines(p) by {
      MatchedReport(checks, filters);
    }
    PartitionLinesLayout(p);
  }

  /** The number of lines is the number of recognised matching records plus
      one summary line per non-empty section. */
  lemma LineCount(checks: seq<CheckRecord>, filters: Filters)
    requires AnyMatch(checks, filters)
    ensures var filtered := FilterChecks(filters, checks);
      var p := PartitionByStatus(filtered);
      |ProcessFailing(checks, filters).lines| ==
        RecognisedCount(filtered)
          + (if p.critical != [] then 1 else 0)
          + (if p.warning != [] then 1 else 0)
          + (if p.passing != [] then 1 else 0)
  {
    MatchedReport(checks, filters);
    PartitionLinesLayout(PartitionByStatus(FilterChecks(filters, checks)));
    PartitionCount(FilterChecks(filters, checks));
  }

  /** The first line summarises the most severe non-empty section. */
  lemma FirstLine(checks: seq<CheckRecord>, filters: Filters)
    requires AnyMatch(checks, filters)
    ensures var r := ProcessFailing(checks, filters);
      var p := PartitionByStatus(FilterChecks(filters, checks));
      && (p.critical != [] ==> r.lines[0] == FailureSummary(p.critical))
      && (p.critical == [] && p.warning != [] ==> r.lines[0] == FailureSummary(p.warning))
      && (p.critical == [] && p.warning == [] && p.passing != [] ==>
            r.lines[0] == PassingSummary(p.passing))
  {
    OutputLayout(checks, filters);
    var lines := ProcessFailing(checks, filters).lines;
    var p := PartitionByStatus(FilterChecks(filters, checks));
    var w := SectionLength(p.critical);
    var s := w + SectionLength(p.warning);
    if p.critical != [] {
      assert lines[0] == lines[..w][0];
    } else if p.warning != [] {
      assert lines[0] == lines[w..s][0];
    } else if p.passing != [] {
      assert lines[0] == lines[s..][0];
    }
  }

  /** A section lists the detail line of each of its members. */
  lemma SectionListsMember(header: string, members: seq<CheckRecord>, c: CheckRecord)
    requires c in members
    ensures CheckLine(c) in Section(header, members)
  {
    var i :| 0 <= i < |members| && members[i] == c;
    assert Section(header, members)[1 + i] == CheckLine(c);
  }

  /** Every matching record with a recognised status has its detail line in
      the output. */
  lemma EveryRecognisedMatchReported(checks: seq<CheckRecord>, filters: Filters, c: CheckRecord)
    requires c in checks && Matches(filters, c) && Recognised(c.Status)
    ensures CheckLine(c) in ProcessFailing(checks, filters).lines
  {
    var filtered := FilterChecks(filters, checks);
    assert multiset(filtered)[c] > 0;
    var p := PartitionByStatus(filtered);
    assert AnyMatch(checks, filters);
    OutputLayout(checks, filters);
    var lines := ProcessFailing(checks, filters).lines;
    var w := SectionLength(p.critical);
    var s := w + SectionLength(p.warning);
    assert lines == lines[..w] + lines[w..s] + lines[s..];
    if c in p.critical {
      SectionListsMember(FailureSummary(p.critical), p.critical, c);
    } else if c in p.warning {
      SectionListsMember(FailureSummary(p.warning), p.warning, c);
    } else {
      SectionListsMember(PassingSummary(p.passing), p.passing, c);
    }
  }

  /** `process_failing` as it runs under Python 3, where the matchers are a
      one-shot iterator shared by all records. Once the first record matches,
      the code is decided by every record, matching or not. */
  function ProcessFailingPy3(checks: seq<CheckRecord>, filters: Filters): (r: Report)
    ensures OK <= r.code <= CRITICAL
    ensures checks == [] ==> r == Report([NoMatchingNode], WARNING)
    ensures checks != [] && Matches(filters, checks[0]) ==> r.code == ExitCode(PartitionByStatus(checks))
  {
    var kept := FilterChecksPy3(filters, FilterFields, checks);
    assert checks != [] && Matches(filters, checks[0]) ==> kept == checks by {
      if checks != [] && Matches(filters, checks[0]) {
        Py3FirstMatchKeepsAll(filters, checks);
      }
    }
    Evaluate(checks, kept)
  }

  /** The partition of a lone passing record. */
  lemma LonePassing(web: CheckRecord)
    requires web.Status == Passing
    ensures PartitionByStatus([web]) == Partition([], [], [web])
    ensures PartitionLines(PartitionByStatus([web])) == [PassingSummary([web]), CheckLine(web)]
  {
    assert [web][1..] == [];
    assert DetailLines([web]) == [CheckLine(web)];
  }

  /** Under Python 3, `--CheckID=c1` on a node with a passing `c1` and a
      critical `c2` exits 2 because of `c2`; the intended result is 0. */
  lemma Py3ExitCodeDiffers()
    ensures var web := CheckRecord("n1", "web", "http", "c1", Passing, "ok");
      var db := CheckRecord("n1", "db", "pg", "c2", Critical, "down");
      var filters := Filters(Some("c1"), None);
      && ProcessFailingPy3([web, db], filters).code == CRITICAL
      && ProcessFailing([web, db], filters) == Report([PassingSummary([web]), CheckLine(web)], OK)
  {
    var web := CheckRecord("n1", "web", "http", "c1", Passing, "ok");
    var db := CheckRecord("n1", "db", "pg", "c2", Critical, "down");
    var filters := Filters(Some("c1"), None);
    Py3FilterLetsMismatchThrough();
    var asWritten := PartitionByStatus([web, db]);
    assert multiset(asWritten.critical)[db] > 0;
    assert ProcessFailingPy3([web, db], filters) == Report(PartitionLines(asWritten), ExitCode(asWritten));
    assert AnyMatch([web, db], filters) by {
      assert web in [web, db] && Matches(filters, web);
    }
    MatchedReport([web, db], filters);
    LonePassing(web);
  }
}

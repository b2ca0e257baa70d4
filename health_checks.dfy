/** The health-check records returned by the registry's node-health endpoint,
    the optional `--CheckID` / `--ServiceName` matchers, and the filtering and
    status partition that `process_failing` performs on them. */
module HealthChecks {

  datatype Option<+T> = None | Some(value: T)

  /** One element of the registry's JSON array, with the fields the plugin reads. */
  datatype CheckRecord = CheckRecord(
    Node: string,
    ServiceName: string,
    Name: string,
    CheckID: string,
    Status: string,
    Output: string)

  /** The two optional matchers; `None` is an option that was not given. */
  datatype Filters = Filters(checkId: Option<string>, serviceName: Option<string>)

  const Critical: string := "critical"
  const Warning: string := "warning"
  const Passing: string := "passing"

  /** An unset matcher accepts every value; a set one only the exact string. */
  predicate FieldMatches(matcher: Option<string>, value: string)
    ensures matcher.None? ==> FieldMatches(matcher, value)
    ensures matcher.Some? ==> (FieldMatches(matcher, value) <==> value == matcher.value)
  {
    matcher.None? || matcher.value == value
  }

  /** The record fields a matcher can be given for, in the order the filter
      list names them: `CheckID`, then `ServiceName`. */
  datatype Field = CheckIDField | ServiceNameField

  const FilterFields: seq<Field> := [CheckIDField, ServiceNameField]

  /** The filter built for one field: its matcher accepts the record's value. */
  predicate FieldHolds(filters: Filters, field: Field, c: CheckRecord)
  {
    match field
    case CheckIDField => FieldMatches(filters.checkId, c.CheckID)
    case ServiceNameField => FieldMatches(filters.serviceName, c.ServiceName)
  }

  /** A record survives filtering when it satisfies both matchers: every
      filter field holds for it, and with no matcher given every record does. */
  predicate Matches(filters: Filters, c: CheckRecord)
    ensures filters.checkId.None? && filters.serviceName.None? ==> Matches(filters, c)
    ensures Matches(filters, c) <==> forall f :: FieldHolds(filters, f, c)
  {
    FieldHolds(filters, CheckIDField, c) && FieldHolds(filters, ServiceNameField, c)
  }

  /** The records of `checks` that satisfy both matchers, in input order. */
  function FilterChecks(filters: Filters, checks: seq<CheckRecord>): (kept: seq<CheckRecord>)
    ensures forall c :: multiset(kept)[c] == if Matches(filters, c) then multiset(checks)[c] else 0
    ensures forall i :: 0 <= i < |kept| ==> Matches(filters, kept[i])
  {
    if checks == [] then []
    else
      assert checks == [checks[0]] + checks[1..];
      (if Matches(filters, checks[0]) then [checks[0]] else []) + FilterChecks(filters, checks[1..])
  }

  /** The records of `checks` whose Status is exactly `status`, in input order. */
  function WithStatus(status: string, checks: seq<CheckRecord>): (members: seq<CheckRecord>)
    ensures forall c :: multiset(members)[c] == if c.Status == status then multiset(checks)[c] else 0
    ensures forall i :: 0 <= i < |members| ==> members[i].Status == status
  {
    if checks == [] then []
    else
      assert checks == [checks[0]] + checks[1..];
      (if checks[0].Status == status then [checks[0]] else []) + WithStatus(status, checks[1..])
  }

  /** `a` can be obtained from `b` by deleting elements: it keeps `b`'s order. */
  predicate IsSubsequence<T(==)>(a: seq<T>, b: seq<T>)
    decreases |b|
  {
    if a == [] then true
    else if b == [] then false
    else if a[0] == b[0] then IsSubsequence(a[1..], b[1..])
    else IsSubsequence(a, b[1..])
  }

  /** Filtering keeps the relative order of the input. */
  lemma {:induction false} FilterIsSubsequence(filters: Filters, checks: seq<CheckRecord>)
    ensures IsSubsequence(FilterChecks(filters, checks), checks)
  {
    if checks != [] {
      FilterIsSubsequence(filters, checks[1..]);
      var kept := FilterChecks(filters, checks);
      if !Matches(filters, checks[0]) && kept != [] {
        assert Matches(filters, kept[0]);
        assert kept[0] != checks[0];
        assert kept == FilterChecks(filters, checks[1..]);
      }
    }
  }

  /** Each status partition keeps the relative order of the filtered list. */
  lemma {:induction false} WithStatusIsSubsequence(status: string, checks: seq<CheckRecord>)
    ensures IsSubsequence(WithStatus(status, checks), checks)
  {
    if checks != [] {
      WithStatusIsSubsequence(status, checks[1..]);
      var members := WithStatus(status, checks);
      if checks[0].Status != status && members != [] {
        assert members[0].Status == status;
        assert members[0] != checks[0];
        assert members == WithStatus(status, checks[1..]);
      }
    }
  }

  /** The three partitions of the filtered list, each in input order. */
  datatype Partition = Partition(
    critical: seq<CheckRecord>,
    warning: seq<CheckRecord>,
    passing: seq<CheckRecord>)

  predicate Recognised(status: string)
  {
    status == Critical || status == Warning || status == Passing
  }

  /** Splits the filtered records by Status; other statuses fall in no part. */
  function PartitionByStatus(filtered: seq<CheckRecord>): (p: Partition)
    ensures forall c :: c in p.critical ==> c !in p.warning && c !in p.passing
    ensures forall c :: c in p.warning ==> c !in p.passing
    ensures forall c :: c in filtered && Recognised(c.Status) <==>
      c in p.critical || c in p.warning || c in p.passing
  {
    Partition(WithStatus(Critical, filtered), WithStatus(Warning, filtered), WithStatus(Passing, filtered))
  }

  /** The number of records whose Status is one of the three known ones. */
  function RecognisedCount(checks: seq<CheckRecord>): nat
  {
    if checks == [] then 0
    else (if Recognised(checks[0].Status) then 1 else 0) + RecognisedCount(checks[1..])
  }

  /** The partitions together hold exactly the recognised records: none is
      lost and none is counted twice. */
  lemma {:induction false} PartitionCount(filtered: seq<CheckRecord>)
    ensures var p := PartitionByStatus(filtered);
      |p.critical| + |p.warning| + |p.passing| == RecognisedCount(filtered) <= |filtered|
  {
    if filtered != [] {
      PartitionCount(filtered[1..]);
    }
  }

  /** `all(f(x) for f in it)` where `it` is a one-shot iterator of filters, as
      `map` returns under Python 3: `all` stops at the first filter that fails,
      and the filters it has consumed are gone for later records. Returns the
      verdict and what is left of the iterator. */
  function AllOnce(filters: Filters, it: seq<Field>, c: CheckRecord): (r: (bool, seq<Field>))
    ensures |r.1| <= |it| && r.1 == it[|it| - |r.1|..]
    ensures r.0 ==> r.1 == []
    ensures r.0 <==> forall i :: 0 <= i < |it| ==> FieldHolds(filters, it[i], c)
    ensures !r.0 ==> |r.1| < |it|
    ensures !r.0 ==> !FieldHolds(filters, it[|it| - |r.1| - 1], c)
    ensures !r.0 ==> forall j :: 0 <= j < |it| - |r.1| - 1 ==> FieldHolds(filters, it[j], c)
  {
    if it == [] then (true, [])
    else if !FieldHolds(filters, it[0], c) then (false, it[1..])
    else AllOnce(filters, it[1..], c)
  }

  /** Filtering as `check-consul-health.py` runs under Python 3: the filter
      iterator `it` is shared by all records. It only ever keeps too much: the
      result is a sub-multiset of the input, and a record that matches is
      kept every time it occurs. */
  function FilterChecksPy3(filters: Filters, it: seq<Field>, checks: seq<CheckRecord>): (kept: seq<CheckRecord>)
    ensures multiset(kept) <= multiset(checks)
    ensures forall c :: Matches(filters, c) ==> multiset(kept)[c] == multiset(checks)[c]
    decreases |checks|
  {
    if checks == [] then []
    else
      assert checks == [checks[0]] + checks[1..];
      var (ok, left) := AllOnce(filters, it, checks[0]);
      (if ok then [checks[0]] else []) + FilterChecksPy3(filters, left, checks[1..])
  }

  /** With both filter fields still available, a record passes them all
      exactly when it matches. */
  lemma AllFieldsIsMatches(filters: Filters, c: CheckRecord)
    ensures AllOnce(filters, FilterFields, c).0 <==> Matches(filters, c)
  {
    assert FilterFields[0] == CheckIDField && FilterFields[1] == ServiceNameField;
  }

  /** Once the iterator is used up, every remaining record is kept. */
  lemma {:induction false} Py3ExhaustedKeepsAll(filters: Filters, checks: seq<CheckRecord>)
    ensures FilterChecksPy3(filters, [], checks) == checks
  {
    if checks != [] {
      Py3ExhaustedKeepsAll(filters, checks[1..]);
    }
  }

  /** Under Python 3, as soon as the first record matches, no later record is
      filtered at all. */
  lemma Py3FirstMatchKeepsAll(filters: Filters, checks: seq<CheckRecord>)
    requires checks != [] && Matches(filters, checks[0])
    ensures FilterChecksPy3(filters, FilterFields, checks) == checks
  {
    AllFieldsIsMatches(filters, checks[0]);
    Py3ExhaustedKeepsAll(filters, checks[1..]);
    assert checks == [checks[0]] + checks[1..];
  }

  /** A concrete input on which the Python 3 filter keeps a record that the
      `--CheckID` matcher rejects. */
  lemma Py3FilterLetsMismatchThrough()
    ensures var web := CheckRecord("n1", "web", "http", "c1", Passing, "ok");
      var db := CheckRecord("n1", "db", "pg", "c2", Critical, "down");
      var filters := Filters(Some("c1"), None);
      && FilterChecksPy3(filters, FilterFields, [web, db]) == [web, db]
      && FilterChecks(filters, [web, db]) == [web]
      && !Matches(filters, db)
  {
    var web := CheckRecord("n1", "web", "http", "c1", Passing, "ok");
    var db := CheckRecord("n1", "db", "pg", "c2", Critical, "down");
    var filters := Filters(Some("c1"), None);
    assert Matches(filters, web) && !Matches(filters, db);
    Py3FirstMatchKeepsAll(filters, [web, db]);
    assert FilterChecks(filters, [db]) == [] by {
      assert [db][1..] == [];
    }
    assert FilterChecks(filters, [web, db]) == [web] + FilterChecks(filters, [db]) by {
      assert [web, db][1..] == [db];
    }
  }
}

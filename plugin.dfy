/** The plugin's top level: build the URL, fetch and decode the node's
    checks, evaluate them, and turn any unexpected failure into exit code 3. */
module Plugin {
  import opened HealthChecks
  import opened Evaluator
  import opened NodeUrl

  /** One run of the plugin. `fetch` stands for the HTTP request and the JSON
      decoding of its body: `None` is a failure of the request or of the
      decoding (connection, HTTP, malformed JSON), which the top-level handler
      reports with code 3 before anything is printed. A failure inside
      `process_failing` itself cannot arise from typed records and is not
      covered here. */
  function RunCheck(opts: Options, fetch: string -> Option<seq<CheckRecord>>): (r: Report)
    ensures OK <= r.code <= UNKNOWN
    ensures r.code == UNKNOWN <==> fetch(BuildNodeUrl(opts)).None?
    ensures r.code == UNKNOWN ==> r.lines == []
    ensures r.code != UNKNOWN ==> r == ProcessFailing(fetch(BuildNodeUrl(opts)).value, opts.filters)
  {
    match fetch(BuildNodeUrl(opts))
    case None => Report([], UNKNOWN)
    case Some(checks) => ProcessFailing(checks, opts.filters)
  }

  /** A run that fetched its checks prints at least one line, unless some
      record matches and every matching record has an unrecognised status. */
  lemma FetchedRunPrints(opts: Options, fetch: string -> Option<seq<CheckRecord>>)
    requires fetch(BuildNodeUrl(opts)).Some?
    ensures var checks := fetch(BuildNodeUrl(opts)).value;
      RunCheck(opts, fetch).lines == [] <==> SilentlyUnrecognised(checks, opts.filters)
  {
    var checks := fetch(BuildNodeUrl(opts)).value;
    var filters := opts.filters;
    var r := ProcessFailing(checks, filters);
    assert RunCheck(opts, fetch) == r;
    if SilentlyUnrecognised(checks, filters) {
      UnrecognisedOnlyIsSilent(checks, filters);
    } else if AnyMatch(checks, filters) {
      var c :| c in checks && Matches(filters, c) && Recognised(c.Status);
      EveryRecognisedMatchReported(checks, filters, c);
    } else {
      assert forall c :: c in checks ==> !Matches(filters, c);
      assert r.lines != [];
    }
  }
}

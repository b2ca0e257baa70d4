/** The command-line options and `build_node_url`, which places them into
    the registry's node-health query URL. */
module NodeUrl {
  import opened HealthChecks
  import Text

  const NodeHealthPath: string := "/v1/health/node/"
  const DcQuery: string := "?dc="

  /** The parsed command line: positional NODE and DC, `--addr`, the two
      matchers and `--verbose`. */
  datatype Options = Options(node: string, dc: string, addr: string, filters: Filters, verbose: bool)

  /** `build_node_url`: plain interpolation, nothing is escaped. The URL is
      the node-health endpoint of the registry at `addr`, and it ends by
      selecting the datacenter. */
  function BuildNodeUrl(opts: Options): (url: string)
    ensures |url| == |opts.addr| + |NodeHealthPath| + |opts.node| + |DcQuery| + |opts.dc|
    ensures url[..|opts.addr + NodeHealthPath|] == opts.addr + NodeHealthPath
    ensures url[|url| - |DcQuery + opts.dc|..] == DcQuery + opts.dc
  {
    opts.addr + NodeHealthPath + opts.node + DcQuery + opts.dc
  }

  /** A built URL is the node-health prefix followed by the node's query. */
  lemma BuildNodeUrlPieces(opts: Options)
    ensures BuildNodeUrl(opts) == (opts.addr + NodeHealthPath) + (opts.node + DcQuery + opts.dc)
  {
  }

  /** Reads node and datacenter back from a URL built on registry address
      `addr`: the node runs up to the first `'?'`, which must open `?dc=`. */
  function ParseNodeUrl(addr: string, url: string): Option<(string, string)>
  {
    var prefix := addr + NodeHealthPath;
    if |url| < |prefix| || url[..|prefix|] != prefix then None
    else
      var rest := url[|prefix|..];
      var k := Text.FirstIndex('?', rest);
      if |rest| - k < |DcQuery| || rest[k..k + |DcQuery|] != DcQuery then None
      else Some((rest[..k], rest[k + |DcQuery|..]))
  }

  /** A URL holds the node and datacenter it was built from, as long as the
      node name contains no `'?'`. */
  lemma NodeUrlRoundTrip(opts: Options)
    requires '?' !in opts.node
    ensures ParseNodeUrl(opts.addr, BuildNodeUrl(opts)) == Some((opts.node, opts.dc))
  {
    var prefix := opts.addr + NodeHealthPath;
    var url := BuildNodeUrl(opts);
    BuildNodeUrlPieces(opts);
    assert url[..|prefix|] == prefix;
    var rest := url[|prefix|..];
    assert rest == opts.node + ['?'] + ("dc=" + opts.dc);
    Text.FirstIndexAfterPrefix('?', opts.node, "dc=" + opts.dc);
    var k := |opts.node|;
    assert rest[k..k + |DcQuery|] == DcQuery;
    assert rest[..k] == opts.node;
    assert rest[k + |DcQuery|..] == opts.dc;
  }

  /** The node the parser returns holds no `'?'`. */
  lemma ParsedNodeHasNoQuery(addr: string, url: string)
    requires ParseNodeUrl(addr, url).Some?
    ensures '?' !in ParseNodeUrl(addr, url).value.0
  {
    var rest := url[|addr + NodeHealthPath|..];
    var k := Text.FirstIndex('?', rest);
    var node := rest[..k];
    forall i | 0 <= i < |node| ensures node[i] != '?' {
      assert node[i] == rest[i];
    }
  }

  /** The parser cuts the URL into the pieces it returns. */
  lemma ParsedPiecesSpellUrl(addr: string, url: string)
    requires ParseNodeUrl(addr, url).Some?
    ensures var parsed := ParseNodeUrl(addr, url).value;
      url == (addr + NodeHealthPath) + (parsed.0 + DcQuery + parsed.1)
  {
    var prefix := addr + NodeHealthPath;
    var rest := url[|prefix|..];
    var k := Text.FirstIndex('?', rest);
    var node, dc := rest[..k], rest[k + |DcQuery|..];
    assert ParseNodeUrl(addr, url).value == (node, dc);
    assert rest[k..k + |DcQuery|] == DcQuery;
    assert rest == node + DcQuery + dc by {
      assert rest == rest[..k] + rest[k..k + |DcQuery|] + rest[k + |DcQuery|..];
    }
    assert url == prefix + rest by {
      assert url == url[..|prefix|] + rest;
    }
  }

  /** Every URL the parser accepts is the one built from what it returns. */
  lemma ParsedUrlRebuilds(addr: string, url: string, filters: Filters, verbose: bool)
    requires ParseNodeUrl(addr, url).Some?
    ensures var parsed := ParseNodeUrl(addr, url).value;
      && '?' !in parsed.0
      && BuildNodeUrl(Options(parsed.0, parsed.1, addr, filters, verbose)) == url
  {
    var parsed := ParseNodeUrl(addr, url).value;
    ParsedNodeHasNoQuery(addr, url);
    ParsedPiecesSpellUrl(addr, url);
    BuildNodeUrlPieces(Options(parsed.0, parsed.1, addr, filters, verbose));
  }

  /** Because nothing is escaped, a node name holding `?dc=` produces the same
      URL as a different node in a different datacenter. */
  lemma NodeUrlAmbiguous(addr: string, filters: Filters)
    ensures var a := Options("web?dc=east", "prod", addr, filters, false);
      var b := Options("web", "east?dc=prod", addr, filters, false);
      a.node != b.node && BuildNodeUrl(a) == BuildNodeUrl(b)
  {
    var a := Options("web?dc=east", "prod", addr, filters, false);
    var b := Options("web", "east?dc=prod", addr, filters, false);
    assert |a.node| != |b.node|;
    assert BuildNodeUrl(a) == addr + NodeHealthPath + "web?dc=east?dc=prod";
    assert BuildNodeUrl(b) == addr + NodeHealthPath + "web?dc=east?dc=prod";
  }
}

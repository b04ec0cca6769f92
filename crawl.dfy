/**
 * modules/crawl.py: choosing the crawler's target list, turning host lines
 * into URLs, and summarising the crawler's URL list into parameters,
 * endpoints, JavaScript files and API endpoints.
 */
module Crawl {
  import opened Common
  import opened Text
  import opened Order

  // ---------------------------------------------------------------------
  // Target preparation
  // ---------------------------------------------------------------------

  /** The line written for a target: unchanged with a scheme, else behind `https://`. */
  function WithScheme(url: string): (r: string)
    ensures HasScheme(r) && EndsWith(r, url)
    ensures HasScheme(url) ==> r == url
  {
    if HasScheme(url) then url else "https://" + url
  }

  /** What one input line contributes to the prepared file. */
  function PreparedLine(line: string): seq<string>
  {
    var url := Strip(line);
    if IsHostLine(url) then [WithScheme(url)] else []
  }

  /** The lines `prepare_urls` writes for `lines`, in input order. */
  function Prepared(lines: seq<string>): seq<string>
  {
    FlatMap(lines, PreparedLine)
  }

  /**
   * `prepare_urls`: `outputOk` says whether the output file can be opened.
   * The input is opened first, so a missing input writes nothing; a read
   * that raises leaves the lines written so far and returns no file.
   */
  method PrepareUrls(input: FileState, outputOk: bool) returns (written: seq<string>, ok: bool)
    ensures ok <==> input.Readable? && outputOk
    ensures written == if input.Exists() && outputOk then Prepared(input.LinesSeen()) else []
  {
    written := [];
    if !input.Exists() || !outputOk {
      return written, false;
    }
    var lines := input.LinesSeen();
    var j := 0;
    while j < |lines|
      invariant 0 <= j <= |lines|
      invariant written == Prepared(lines[..j])
    {
      var url := Strip(lines[j]);
      if url != [] && url[0] != '#' && '.' in url {
        if !(StartsWith(url, "http://") || StartsWith(url, "https://")) {
          written := written + ["https://" + url];
        } else {
          written := written + [url];
        }
      }
      FlatMapStep(lines, j, PreparedLine);
      j := j + 1;
    }
    assert lines[..j] == lines;
    ok := input.Readable?;
  }

  /** Every prepared line is a target with an http(s) scheme. */
  lemma {:induction false} PreparedShape(lines: seq<string>)
    ensures |Prepared(lines)| <= |lines|
    ensures forall x :: x in Prepared(lines) ==> HasScheme(x) && IsHostLine(x) && Stripped(x)
  {
    if lines != [] {
      var init := lines[..|lines| - 1];
      PreparedShape(init);
      PreparedLineShape(lines[|lines| - 1]);
      assert Prepared(lines) == Prepared(init) + PreparedLine(lines[|lines| - 1]);
    }
  }

  lemma PreparedLineShape(line: string)
    ensures |PreparedLine(line)| <= 1
    ensures forall x :: x in PreparedLine(line) ==> HasScheme(x) && IsHostLine(x) && Stripped(x)
  {
    var url := Strip(line);
    if IsHostLine(url) && !HasScheme(url) {
      PrefixedHostLine("https://", url);
    }
  }

  /** Preparing an already prepared list gives it back unchanged. */
  lemma {:induction false} PreparedIdempotent(lines: seq<string>)
    ensures Prepared(Prepared(lines)) == Prepared(lines)
  {
    if lines != [] {
      var init := lines[..|lines| - 1];
      PreparedIdempotent(init);
      PreparedShape(lines);
      var p := Prepared(init);
      var tail := PreparedLine(lines[|lines| - 1]);
      assert Prepared(lines) == p + tail;
      FlatMapConcat(p, tail, PreparedLine);
      if tail != [] {
        assert tail == [tail[0]];
        assert tail[0] in Prepared(lines);
        StripStripped(tail[0]);
        FlatMapSingle(tail[0], PreparedLine);
      }
    }
  }

  /** Which file the crawler is pointed at. */
  datatype TargetFile =
    | HttpxResults
    | UrlsForCrawl(urls: seq<string>)
    | TempCrawlTarget(urls: seq<string>)

  /**
   * `get_target_file`: httpx results when they exist, else the prepared
   * subdomain list, else the bare domain over https then http, written to
   * `temp_crawl_target.txt`. `tempOk` says whether that file can be opened
   * for writing; its `open` is outside any `try`, so a failure escapes.
   */
  method GetTargetFile(domain: string, httpxExists: bool, subdomains: FileState, outputOk: bool, tempOk: bool)
    returns (target: Raising<Option<TargetFile>>)
    ensures target.OpenFailed? <==> !httpxExists && !subdomains.Exists() && !tempOk
    ensures httpxExists ==> target == Returned(Some(HttpxResults))
    ensures !httpxExists && subdomains.Exists() ==>
      target.Returned? &&
      (target.value.Some? <==> subdomains.Readable? && outputOk) &&
      (target.value.Some? ==> target.value.value == UrlsForCrawl(Prepared(subdomains.lines)))
    ensures !httpxExists && !subdomains.Exists() && tempOk ==>
      target == Returned(Some(TempCrawlTarget(["https://" + domain, "http://" + domain])))
  {
    if httpxExists {
      return Returned(Some(HttpxResults));
    }
    if subdomains.Exists() {
      var written, ok := PrepareUrls(subdomains, outputOk);
      if ok {
        return Returned(Some(UrlsForCrawl(written)));
      }
      return Returned(None);
    }
    if !tempOk {
      return OpenFailed;
    }
    return Returned(Some(TempCrawlTarget(["https://" + domain, "http://" + domain])));
  }

  // ---------------------------------------------------------------------
  // Result summary
  // ---------------------------------------------------------------------

  /** `set(line.strip() for line in f if line.strip())`. */
  function Urls(lines: seq<string>): (urls: set<string>)
    ensures forall u :: u in urls ==> u != [] && Stripped(u)
  {
    set l | l in lines && Strip(l) != [] :: Strip(l)
  }

  /** `url.split('?')[1]`: the text between the first and the second `?`. */
  function Query(url: string): (q: string)
    requires '?' in url
    ensures '?' !in q
  {
    SplitSecond(url, '?');
    Split(url, '?')[1]
  }

  /** `param.split('=')[0]` for every `&`-piece that has an `=`. */
  ghost function PieceParams(pieces: seq<string>): set<string>
  {
    set p | p in pieces && '=' in p :: Split(p, '=')[0]
  }

  /** The parameter names one URL contributes. */
  ghost function UrlParams(url: string): set<string>
  {
    if '?' in url then PieceParams(Split(Query(url), '&')) else {}
  }

  ghost function ParamsOf(urls: set<string>): set<string>
  {
    set u, p | u in urls && p in UrlParams(u) :: p
  }

  /** `url.split('?')[0]`. */
  function Endpoint(url: string): (e: string)
    ensures '?' !in e && StartsWith(url, e)
  {
    SplitFirst(url, '?');
    Split(url, '?')[0]
  }

  ghost function EndpointsOf(urls: set<string>): set<string>
  {
    set u | u in urls :: Endpoint(u)
  }

  predicate IsJs(url: string)
  {
    EndsWith(url, ".js")
  }

  predicate IsApi(url: string)
  {
    Contains(url, "/api/") || EndsWith(url, ".json") || EndsWith(url, ".xml")
  }

  ghost function JsOf(urls: set<string>): set<string>
  {
    set u | u in urls && IsJs(u)
  }

  ghost function ApiOf(urls: set<string>): set<string>
  {
    set u | u in urls && IsApi(u)
  }

  /** The figures and lists written to `katana_summary.txt`. */
  datatype CrawlSummary = CrawlSummary(
    totalUrls: nat,
    uniqueEndpoints: nat,
    parameters: seq<string>,
    jsFiles: seq<string>,
    apiEndpoints: seq<string>)

  /** The summary `parse_results` writes for the URL set `urls`. */
  ghost predicate Summarises(s: CrawlSummary, urls: set<string>)
  {
    && s.totalUrls == |urls|
    && s.uniqueEndpoints == |EndpointsOf(urls)|
    && StrictlySorted(s.parameters)
    && (forall p :: p in s.parameters <==> p in ParamsOf(urls))
    && (forall u :: u in s.jsFiles <==> u in JsOf(urls))
    && |s.jsFiles| == |JsOf(urls)|
    && (forall u :: u in s.apiEndpoints <==> u in ApiOf(urls))
    && |s.apiEndpoints| == |ApiOf(urls)|
  }

  lemma ParamsStep(done: set<string>, u: string)
    ensures ParamsOf(done + {u}) == ParamsOf(done) + UrlParams(u)
  {
  }

  lemma PieceParamsStep(pieces: seq<string>, k: int)
    requires 0 <= k < |pieces|
    ensures PieceParams(pieces[..k + 1]) ==
      PieceParams(pieces[..k]) + (if '=' in pieces[k] then {Split(pieces[k], '=')[0]} else {})
  {
    assert pieces[..k + 1] == pieces[..k] + [pieces[k]];
  }

  lemma JsApiStep(done: set<string>, u: string)
    requires u !in done
    ensures JsOf(done + {u}) == JsOf(done) + (if IsJs(u) then {u} else {})
    ensures ApiOf(done + {u}) == ApiOf(done) + (if IsApi(u) then {u} else {})
    ensures IsJs(u) ==> u !in JsOf(done)
    ensures IsApi(u) ==> u !in ApiOf(done)
  {
  }

  lemma EndpointsStep(done: set<string>, u: string)
    ensures EndpointsOf(done + {u}) == EndpointsOf(done) + {Endpoint(u)}
  {
  }

  /** Adds one URL's parameter names, piece by piece. */
  method AddParams(parameters: set<string>, url: string) returns (r: set<string>)
    ensures r == parameters + UrlParams(url)
  {
    r := parameters;
    if '?' in url {
      SplitSecond(url, '?');
      var query := Split(url, '?')[1];
      var params := Split(query, '&');
      var k := 0;
      while k < |params|
        invariant 0 <= k <= |params|
        invariant r == parameters + PieceParams(params[..k])
      {
        if '=' in params[k] {
          r := r + {Split(params[k], '=')[0]};
        }
        PieceParamsStep(params, k);
        k := k + 1;
      }
      assert params[..k] == params;
    }
  }

  /** What the loop of `parse_results` has gathered after visiting the URLs in `done`. */
  ghost predicate Gathered(parameters: set<string>, endpoints: set<string>,
                           jsFiles: seq<string>, apiEndpoints: seq<string>, done: set<string>)
  {
    && parameters == ParamsOf(done)
    && endpoints == EndpointsOf(done)
    && (forall u :: u in jsFiles <==> u in JsOf(done))
    && |jsFiles| == |JsOf(done)|
    && (forall u :: u in apiEndpoints <==> u in ApiOf(done))
    && |apiEndpoints| == |ApiOf(done)|
  }

  lemma NothingGathered()
    ensures Gathered({}, {}, [], [], {})
  {
    assert ParamsOf({}) == {};
  }

  /** One pass of the loop of `parse_results`: the URL `url` is visited. */
  method VisitUrl(parameters: set<string>, endpoints: set<string>,
                  jsFiles: seq<string>, apiEndpoints: seq<string>, url: string, ghost done: set<string>)
    returns (parameters': set<string>, endpoints': set<string>, jsFiles': seq<string>, apiEndpoints': seq<string>)
    requires url !in done
    requires Gathered(parameters, endpoints, jsFiles, apiEndpoints, done)
    ensures Gathered(parameters', endpoints', jsFiles', apiEndpoints', done + {url})
  {
    ParamsStep(done, url);
    JsApiStep(done, url);
    EndpointsStep(done, url);
    parameters' := AddParams(parameters, url);
    jsFiles' := jsFiles;
    if EndsWith(url, ".js") {
      jsFiles' := jsFiles + [url];
    }
    apiEndpoints' := apiEndpoints;
    if Contains(url, "/api/") || EndsWith(url, ".json") || EndsWith(url, ".xml") {
      apiEndpoints' := apiEndpoints + [url];
    }
    endpoints' := endpoints + {Split(url, '?')[0]};
  }

  /**
   * `parse_results`: nothing when `katana.txt` is missing, when reading it
   * raises or when the summary cannot be written (`summaryOk`); otherwise
   * the summary of the set of stripped non-blank lines. The set is walked
   * in an arbitrary order, as Python's set iteration is.
   */
  method ParseResults(results: FileState, summaryOk: bool) returns (summary: Option<CrawlSummary>)
    ensures summary.Some? <==> results.Readable? && summaryOk
    ensures summary.Some? ==> Summarises(summary.value, Urls(results.lines))
  {
    if !results.Readable? {
      return None;
    }
    var urls := Urls(results.lines);
    var parameters, endpoints, jsFiles, apiEndpoints := GatherAll(urls);
    if !summaryOk {
      return None;
    }
    var sortedParams := SortSet(parameters);
    summary := Some(CrawlSummary(|urls|, |endpoints|, sortedParams, jsFiles, apiEndpoints));
  }

  /** The loop of `parse_results` over the set of URLs. */
  method GatherAll(urls: set<string>)
    returns (parameters: set<string>, endpoints: set<string>, jsFiles: seq<string>, apiEndpoints: seq<string>)
    ensures Gathered(parameters, endpoints, jsFiles, apiEndpoints, urls)
  {
    parameters := {};
    jsFiles := [];
    apiEndpoints := [];
    endpoints := {};
    var rest := urls;
    ghost var done: set<string> := {};
    NothingGathered();
    while rest != {}
      invariant rest !! done && rest + done == urls
      invariant Gathered(parameters, endpoints, jsFiles, apiEndpoints, done)
      decreases |rest|
    {
      var url :| url in rest;
      parameters, endpoints, jsFiles, apiEndpoints := VisitUrl(parameters, endpoints, jsFiles, apiEndpoints, url, done);
      rest := rest - {url};
      done := done + {url};
    }
    assert done == urls;
  }

  /** A URL contributes a parameter name iff some `&`-piece of its query has an `=` before which that name stands. */
  lemma UrlParamsMember(url: string, x: string)
    ensures x in UrlParams(url) <==>
      '?' in url && exists p :: p in Split(Query(url), '&') && '=' in p && x == Before(p, '=')
  {
    if '?' in url {
      var pieces := Split(Query(url), '&');
      if x in UrlParams(url) {
        var p :| p in pieces && '=' in p && x == Split(p, '=')[0];
        SplitFirst(p, '=');
      }
      if exists p :: p in pieces && '=' in p && x == Before(p, '=') {
        var p :| p in pieces && '=' in p && x == Before(p, '=');
        SplitFirst(p, '=');
      }
    }
  }

  /** Only the text between the first and second `?` is read as the query. */
  lemma QueryBetween(url: string)
    requires '?' in url
    ensures Query(url) == Before(After(url, '?'), '?')
    ensures url == Before(url, '?') + "?" + After(url, '?')
  {
    SplitSecond(url, '?');
  }

  /** There are never more unique endpoints than URLs. */
  lemma {:induction false} EndpointsAtMost(urls: set<string>)
    ensures |EndpointsOf(urls)| <= |urls|
    decreases |urls|
  {
    if urls != {} {
      var u :| u in urls;
      var rest := urls - {u};
      EndpointsAtMost(rest);
      EndpointsStep(rest, u);
      assert rest + {u} == urls;
    }
  }

  /** The URL count never exceeds the number of lines read. */
  lemma {:induction false} UrlsAtMost(lines: seq<string>)
    ensures |Urls(lines)| <= |lines|
  {
    if lines != [] {
      var init := lines[..|lines| - 1];
      var last := lines[|lines| - 1];
      UrlsAtMost(init);
      assert lines == init + [last];
      assert Urls(lines) <= Urls(init) + {Strip(last)};
      SubsetCard(Urls(lines), Urls(init) + {Strip(last)});
    }
  }
}

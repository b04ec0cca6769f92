/**
 * modules/httprobe.py: turning subdomains into http and https URLs for the
 * prober, the prober's success rule, and the summary of its result lines
 * (the live hosts and the distribution of bracketed status codes).
 */
module Httprobe {
  import opened Common
  import opened Text
  import opened Order
  import opened Counter

  // ---------------------------------------------------------------------
  // Input preparation
  // ---------------------------------------------------------------------

  /** The valid hosts among `lines`, stripped, in file order. */
  function ValidHosts(lines: seq<string>): seq<string>
  {
    if lines == [] then []
    else
      var h := Strip(lines[|lines| - 1]);
      ValidHosts(lines[..|lines| - 1]) + (if IsHostLine(h) then [h] else [])
  }

  /** The lines `prepare_urls` writes: for each valid host its https form, then its http form. */
  function Prepared(lines: seq<string>): seq<string>
  {
    if lines == [] then []
    else
      var h := Strip(lines[|lines| - 1]);
      Prepared(lines[..|lines| - 1]) + (if IsHostLine(h) then ["https://" + h, "http://" + h] else [])
  }

  /**
   * `prepare_urls`: the input is opened before the output (`outputOk`), so a
   * missing input writes nothing; a read that raises keeps what was written
   * and returns no file.
   */
  method PrepareUrls(input: FileState, outputOk: bool) returns (written: seq<string>, ok: bool)
    ensures ok <==> input.Readable? && outputOk
    ensures written == if input.Exists() && outputOk then Prepared(input.LinesSeen()) else []
  {
    written := [];
    if !input.Exists() || !outputOk {
      return written, false;
    }
    var lines := input.LinesSeen();
    var j := 0;
    while j < |lines|
      invariant 0 <= j <= |lines|
      invariant written == Prepared(lines[..j])
    {
      var subdomain := Strip(lines[j]);
      if subdomain != [] && subdomain[0] != '#' && '.' in subdomain {
        written := written + ["https://" + subdomain];
        written := written + ["http://" + subdomain];
      }
      assert lines[..j + 1][..j] == lines[..j];
      j := j + 1;
    }
    assert lines[..j] == lines;
    ok := input.Readable?;
  }

  /** Exactly two lines per valid host, https first, then http, in file order; no scheme check. */
  lemma {:induction false} PreparedPairs(lines: seq<string>)
    ensures |Prepared(lines)| == 2 * |ValidHosts(lines)|
    ensures forall i :: 0 <= i < |ValidHosts(lines)| ==>
      Prepared(lines)[2 * i] == "https://" + ValidHosts(lines)[i] &&
      Prepared(lines)[2 * i + 1] == "http://" + ValidHosts(lines)[i]
  {
    if lines != [] {
      PreparedPairs(lines[..|lines| - 1]);
    }
  }

  /** Which file the prober reads. */
  datatype InputFile =
    | PreparedSubdomains(urls: seq<string>)
    | TempDomain(urls: seq<string>)

  /**
   * `get_input_file`: the prepared subdomain list when it exists, else the
   * domain over https then http, written to `temp_domain.txt`. `tempOk`
   * says whether that file can be opened for writing; its `open` is outside
   * any `try`, so a failure escapes.
   */
  method GetInputFile(domain: string, subdomains: FileState, outputOk: bool, tempOk: bool)
    returns (input: Raising<Option<InputFile>>)
    ensures input.OpenFailed? <==> !subdomains.Exists() && !tempOk
    ensures subdomains.Exists() ==>
      input.Returned? &&
      (input.value.Some? <==> subdomains.Readable? && outputOk) &&
      (input.value.Some? ==> input.value.value == PreparedSubdomains(Prepared(subdomains.lines)))
    ensures !subdomains.Exists() && tempOk ==> input == Returned(Some(TempDomain(["https://" + domain, "http://" + domain])))
  {
    if subdomains.Exists() {
      var written, ok := PrepareUrls(subdomains, outputOk);
      if ok {
        return Returned(Some(PreparedSubdomains(written)));
      }
      return Returned(None);
    }
    if !tempOk {
      return OpenFailed;
    }
    return Returned(Some(TempDomain(["https://" + domain, "http://" + domain])));
  }

  /**
   * `run_httpx`: after the run, success means the results file exists and
   * can be read through; the exit code is never looked at. A timeout or a
   * failure to start is a failure.
   */
  function RunHttpx(outcome: ProcessOutcome, results: FileState): (ok: bool)
    ensures ok ==> outcome.Exited? && results.Exists()
  {
    match outcome
    case Exited(_, _, _) => results.Readable?
    case TimedOut => false
    case Raised => false
  }

  /** The exit code of the prober has no bearing on success. */
  lemma RunHttpxIgnoresExitCode(c1: int, c2: int, o1: string, o2: string, e1: string, e2: string, results: FileState)
    ensures RunHttpx(Exited(c1, o1, e1), results) == RunHttpx(Exited(c2, o2, e2), results)
    ensures RunHttpx(Exited(c1, o1, e1), results) <==> results.Readable?
  {
  }

  // ---------------------------------------------------------------------
  // Result summary
  // ---------------------------------------------------------------------

  /** `[line.strip() for line in f if line.strip()]`. */
  function NonBlank(lines: seq<string>): (r: seq<string>)
    ensures |r| <= |lines|
    ensures forall i :: 0 <= i < |r| ==> r[i] != [] && Stripped(r[i])
  {
    if lines == [] then []
    else
      var s := Strip(lines[|lines| - 1]);
      NonBlank(lines[..|lines| - 1]) + (if s != [] then [s] else [])
  }

  /** `line.split()[0]` for a stripped, non-blank line: the text before the first whitespace. */
  function FirstToken(line: string): (t: string)
    ensures StartsWith(line, t)
    ensures forall i :: 0 <= i < |t| ==> !IsSpace(t[i])
    ensures |t| < |line| ==> IsSpace(line[|t|])
    ensures line != [] && !IsSpace(line[0]) ==> t != []
  {
    if line == [] || IsSpace(line[0]) then [] else [line[0]] + FirstToken(line[1..])
  }

  /** `line[line.find('[')+1:line.find(']')]` when the line has both brackets. */
  function StatusKey(line: string): (key: Option<string>)
    ensures key.Some? <==> '[' in line && ']' in line
  {
    if '[' in line && ']' in line then
      Some(Slice(line, Find(line, '[') + 1, Find(line, ']')))
    else None
  }

  /** The live hosts: the first token of every result line, in order. */
  function Hosts(results: seq<string>): (hosts: seq<string>)
    ensures |hosts| == |results|
  {
    if results == [] then [] else Hosts(results[..|results| - 1]) + [FirstToken(results[|results| - 1])]
  }

  /** The status-code dict after the loop has seen `results`, in first-seen order. */
  function Counts(results: seq<string>): Dict
  {
    if results == [] then []
    else
      var d := Counts(results[..|results| - 1]);
      match StatusKey(results[|results| - 1])
      case Some(k) => Increment(d, k)
      case None => d
  }

  /** The number of result lines carrying status `k`. */
  function CountOf(results: seq<string>, k: string): nat
  {
    if results == [] then 0
    else CountOf(results[..|results| - 1], k) + (if StatusKey(results[|results| - 1]) == Some(k) then 1 else 0)
  }

  /** The number of result lines carrying both brackets. */
  function Bracketed(results: seq<string>): (n: nat)
    ensures n <= |results|
  {
    if results == [] then 0
    else Bracketed(results[..|results| - 1]) + (if StatusKey(results[|results| - 1]).Some? then 1 else 0)
  }

  /** What `httpx_summary.txt` lists. */
  datatype HttpxSummary = HttpxSummary(liveHosts: seq<string>, statusCodes: Dict)

  /**
   * `parse_results`: nothing when the results file is missing, unreadable
   * or the summary cannot be written; otherwise the live hosts in file
   * order and the status distribution sorted by status.
   */
  method ParseResults(file: FileState, summaryOk: bool) returns (summary: Option<HttpxSummary>)
    ensures summary.Some? <==> file.Readable? && summaryOk
    ensures summary.Some? ==>
      var results := NonBlank(file.lines);
      summary.value.liveHosts == Hosts(results) &&
      summary.value.statusCodes == SortByKey(Counts(results))
  {
    if !file.Readable? {
      return None;
    }
    var results := NonBlank(file.lines);
    var statusCodes: Dict := [];
    var liveHosts: seq<string> := [];
    var i := 0;
    while i < |results|
      invariant 0 <= i <= |results|
      invariant liveHosts == Hosts(results[..i])
      invariant statusCodes == Counts(results[..i])
    {
      var line := results[i];
      var url := FirstToken(line);
      liveHosts := liveHosts + [url];
      if '[' in line && ']' in line {
        var status := Slice(line, Find(line, '[') + 1, Find(line, ']'));
        statusCodes := Increment(statusCodes, status);
      }
      assert results[..i + 1][..i] == results[..i];
      i := i + 1;
    }
    assert results[..i] == results;
    if !summaryOk {
      return None;
    }
    summary := Some(HttpxSummary(liveHosts, SortByKey(statusCodes)));
  }

  /** Every live host is a non-empty token without whitespace. */
  lemma {:induction false} HostsAreTokens(results: seq<string>)
    requires forall i :: 0 <= i < |results| ==> results[i] != [] && Stripped(results[i])
    ensures forall i :: 0 <= i < |results| ==> Hosts(results)[i] != [] && StartsWith(results[i], Hosts(results)[i])
  {
    if results != [] {
      HostsAreTokens(results[..|results| - 1]);
    }
  }

  /** Each status count is the number of lines with that bracketed status; keys stay distinct. */
  lemma {:induction false} CountsCorrect(results: seq<string>)
    ensures DistinctKeys(Counts(results))
    ensures forall k :: Get(Counts(results), k) == CountOf(results, k)
    ensures Sum(Counts(results)) == Bracketed(results)
  {
    if results != [] {
      var init := results[..|results| - 1];
      CountsCorrect(init);
      match StatusKey(results[|results| - 1])
      case Some(k) =>
        IncrementDistinct(Counts(init), k);
        IncrementSum(Counts(init), k);
        forall j ensures Get(Counts(results), j) == CountOf(results, j) {
          IncrementGet(Counts(init), k, j);
        }
      case None =>
    }
  }

  /**
   * The written distribution is sorted by status, and its counts add up to
   * the number of bracketed lines, which never exceeds the number of live hosts.
   */
  lemma StatusSummary(results: seq<string>)
    ensures StrictlySorted(Keys(SortByKey(Counts(results))))
    ensures Sum(SortByKey(Counts(results))) == Bracketed(results) <= |Hosts(results)|
    ensures forall e :: e in SortByKey(Counts(results)) ==> e.count == CountOf(results, e.key)
  {
    CountsCorrect(results);
    SortByKeyCorrect(Counts(results));
    forall e | e in SortByKey(Counts(results)) ensures e.count == CountOf(results, e.key) {
      assert e in multiset(SortByKey(Counts(results)));
      GetMember(Counts(results), e);
    }
  }
}

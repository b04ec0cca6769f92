/**
 * modules/vulnscan.py: turning host lines into URLs for the scanner,
 * choosing the scanner's target list, and summarising the scanner's JSON
 * lines: severity defaulting, per-severity counts, a stable ordering by
 * severity rank and the lines shown for each finding.
 */
module Vulnscan {
  import opened Common
  import opened Text
  import opened Counter
  import opened Stable

  // ---------------------------------------------------------------------
  // Target preparation
  // ---------------------------------------------------------------------

  /** A stripped line worth scanning: non-empty and not a comment (no dot needed). */
  predicate IsTarget(url: string)
  {
    url != [] && url[0] != '#'
  }

  /** The lines `prepare_urls` writes: each target once, behind `https://` unless it has an http(s) scheme. */
  function Prepared(lines: seq<string>): seq<string>
  {
    if lines == [] then []
    else
      var url := Strip(lines[|lines| - 1]);
      Prepared(lines[..|lines| - 1]) +
        (if !IsTarget(url) then [] else if HasScheme(url) then [url] else ["https://" + url])
  }

  /** `prepare_urls`, with `outputOk` saying whether the output file can be opened. */
  method PrepareUrls(input: FileState, outputOk: bool) returns (written: seq<string>, ok: bool)
    ensures ok <==> input.Readable? && outputOk
    ensures written == if input.Exists() && outputOk then Prepared(input.LinesSeen()) else []
  {
    written := [];
    if !input.Exists() || !outputOk {
      return written, false;
    }
    var lines := input.LinesSeen();
    var j := 0;
    while j < |lines|
      invariant 0 <= j <= |lines|
      invariant written == Prepared(lines[..j])
    {
      var url := Strip(lines[j]);
      if url != [] && url[0] != '#' {
        if !(StartsWith(url, "http://") || StartsWith(url, "https://")) {
          written := written + ["https://" + url];
        } else {
          written := written + [url];
        }
      }
      assert lines[..j + 1][..j] == lines[..j];
      j := j + 1;
    }
    assert lines[..j] == lines;
    ok := input.Readable?;
  }

  /** Every prepared line carries an http(s) scheme, and there is one per non-blank, non-comment line. */
  lemma {:induction false} PreparedShape(lines: seq<string>)
    ensures forall x :: x in Prepared(lines) ==> HasScheme(x)
    ensures |Prepared(lines)| == CountWhere(lines, l => IsTarget(Strip(l)))
  {
    if lines != [] {
      var n := |lines| - 1;
      PreparedShape(lines[..n]);
      CountWhereStep(lines, l => IsTarget(Strip(l)));
      var url := Strip(lines[n]);
      assert StartsWith("https://" + url, "https://") by { assert ("https://" + url)[..8] == "https://"; }
    }
  }

  /**
   * What the scanner is pointed at: httpx results that already existed, or
   * the results of a fresh probe of the `prepared` URL list it was given.
   */
  datatype ScanTarget =
    | ExistingHttpxResults
    | ProbedFrom(prepared: seq<string>)

  /**
   * `check_httpx_results` with `run_httpx`: existing httpx results are used
   * as they are; otherwise the subdomain list is prepared and probed, and
   * the probe counts only if it exits with code 0 and leaves a readable
   * results file. Without either file there is no target.
   */
  method CheckHttpxResults(httpxExists: bool, subdomains: FileState, outputOk: bool,
                           probe: ProcessOutcome, probeOutput: FileState)
    returns (target: Option<ScanTarget>)
    ensures httpxExists ==> target == Some(ExistingHttpxResults)
    ensures !httpxExists ==>
      (target.Some? <==> subdomains.Readable? && outputOk && probe.Succeeded() && probeOutput.Readable?)
    ensures !httpxExists && target.Some? ==> target.value == ProbedFrom(Prepared(subdomains.lines))
  {
    if httpxExists {
      return Some(ExistingHttpxResults);
    }
    if !subdomains.Exists() {
      return None;
    }
    var prepared, ok := PrepareUrls(subdomains, outputOk);
    if !ok {
      return None;
    }
    if !probe.Succeeded() || !probeOutput.Readable? {
      return None;
    }
    return Some(ProbedFrom(prepared));
  }

  // ---------------------------------------------------------------------
  // Result summary
  // ---------------------------------------------------------------------

  /** The `info` object of a finding, as far as the summary reads it. */
  datatype Info = Info(severity: Option<string>, name: Option<string>, description: Option<string>)

  /** One decoded JSON line; a missing `info` key reads as `{}`. */
  datatype Finding = Finding(info: Option<Info>, templateId: Option<string>, host: Option<string>,
                             matchedAt: Option<string>)

  /** A line of `nuclei.json` as the decoder sees it. */
  datatype JsonLine = Blank | Decoded(finding: Finding) | Malformed

  /** `vuln.get('info', {}).get('severity', 'info').lower()`. */
  function Severity(f: Finding): (s: string)
    ensures (f.info.None? || f.info.value.severity.None?) ==> s == "info"
  {
    match f.info
    case None => "info"
    case Some(i) => Lower(i.severity.GetOr("info"))
  }

  /** The counter before the first line: the five standard severities at 0. */
  const InitialCounts: Dict :=
    [Entry("critical", 0), Entry("high", 0), Entry("medium", 0), Entry("low", 0), Entry("info", 0)]

  const StandardSeverities: seq<string> := ["critical", "high", "medium", "low", "info"]

  /** The decoded findings, in file order. */
  function Findings(lines: seq<JsonLine>): seq<Finding>
  {
    if lines == [] then []
    else
      Findings(lines[..|lines| - 1]) +
        (if lines[|lines| - 1].Decoded? then [lines[|lines| - 1].finding] else [])
  }

  predicate NoMalformed(lines: seq<JsonLine>)
  {
    forall i :: 0 <= i < |lines| ==> !lines[i].Malformed?
  }

  /** The severity counter after `findings`. */
  function Tally(findings: seq<Finding>): Dict
  {
    if findings == [] then InitialCounts
    else Increment(Tally(findings[..|findings| - 1]), Severity(findings[|findings| - 1]))
  }

  /** The number of findings whose severity is `s`. */
  function CountSeverity(findings: seq<Finding>, s: string): nat
  {
    if findings == [] then 0
    else CountSeverity(findings[..|findings| - 1], s) + (if Severity(findings[|findings| - 1]) == s then 1 else 0)
  }

  /** The position of `s` in `order`, or `|order|` when it is not there. */
  function IndexOr(s: string, order: seq<string>): (r: nat)
    ensures r <= |order|
    ensures r < |order| <==> s in order
    ensures r < |order| ==> order[r] == s && s !in order[..r]
  {
    if order == [] then 0
    else if order[0] == s then 0
    else
      var r := IndexOr(s, order[1..]) + 1;
      assert order[..r] == [order[0]] + order[1..][..r - 1];
      r
  }

  /**
   * `severity_order.get(severity, 5)`: the table maps the five standard
   * severities, in order, to 0..4.
   */
  function Rank(f: Finding): (r: nat)
    ensures r <= 5
  {
    IndexOr(Severity(f), StandardSeverities)
  }

  /** Each standard severity has its place in the table; every other severity ranks last. */
  lemma RankTable(f: Finding)
    ensures Rank(f) < 5 ==> StandardSeverities[Rank(f)] == Severity(f)
    ensures Rank(f) == 5 <==> Severity(f) !in StandardSeverities
  {
  }

  lemma FindingsStep(lines: seq<JsonLine>, i: int)
    requires 0 <= i < |lines| && NoMalformed(lines[..i]) && !lines[i].Malformed?
    ensures NoMalformed(lines[..i + 1])
    ensures Findings(lines[..i + 1]) ==
      Findings(lines[..i]) + (if lines[i].Decoded? then [lines[i].finding] else [])
  {
    assert lines[..i + 1][..i] == lines[..i];
  }

  lemma TallyStep(findings: seq<Finding>, f: Finding)
    ensures Tally(findings + [f]) == Increment(Tally(findings), Severity(f))
  {
    assert (findings + [f])[..|findings|] == findings;
  }

  /** What `summary.txt` reports. */
  datatype VulnSummary = VulnSummary(total: nat, counts: Dict, findings: seq<Finding>)

  /**
   * `parse_results`: nothing when `nuclei.json` is missing (`None`), when any
   * line fails to decode, or when the summary cannot be written; otherwise
   * the number of findings, the severity counter and the findings in
   * severity order.
   */
  method ParseResults(json: Option<seq<JsonLine>>, summaryOk: bool) returns (summary: Option<VulnSummary>)
    ensures summary.Some? <==> json.Some? && NoMalformed(json.value) && summaryOk
    ensures summary.Some? ==>
      var found := Findings(json.value);
      summary.value == VulnSummary(|found|, Tally(found), SortBy(Rank, found))
  {
    if json.None? {
      return None;
    }
    var lines := json.value;
    var vulnerabilities: seq<Finding> := [];
    var severityCounts := InitialCounts;
    var i := 0;
    while i < |lines|
      invariant 0 <= i <= |lines|
      invariant NoMalformed(lines[..i])
      invariant vulnerabilities == Findings(lines[..i])
      invariant severityCounts == Tally(vulnerabilities)
    {
      if lines[i].Malformed? {
        assert !NoMalformed(lines) by { assert lines[i].Malformed?; }
        return None;
      }
      FindingsStep(lines, i);
      if lines[i].Decoded? {
        var vuln := lines[i].finding;
        TallyStep(vulnerabilities, vuln);
        vulnerabilities := vulnerabilities + [vuln];
        severityCounts := Increment(severityCounts, Severity(vuln));
      }
      i := i + 1;
    }
    assert lines[..i] == lines;
    if !summaryOk {
      return None;
    }
    var sorted := SortBy(Rank, vulnerabilities);
    summary := Some(VulnSummary(|vulnerabilities|, severityCounts, sorted));
  }

  /** Without malformed lines, there is one finding per non-blank line. */
  lemma {:induction false} FindingsCount(lines: seq<JsonLine>)
    requires NoMalformed(lines)
    ensures |Findings(lines)| == CountWhere(lines, (l: JsonLine) => !l.Blank?)
  {
    if lines != [] {
      FindingsCount(lines[..|lines| - 1]);
      CountWhereStep(lines, (l: JsonLine) => !l.Blank?);
    }
  }

  lemma InitialCountsFacts()
    ensures DistinctKeys(InitialCounts) && Keys(InitialCounts) == StandardSeverities
    ensures forall s :: Get(InitialCounts, s) == 0
  {
    assert Keys(InitialCounts) == ["critical"] + Keys(InitialCounts[1..]);
    assert Keys(InitialCounts[1..]) == ["high"] + Keys(InitialCounts[2..]);
    assert Keys(InitialCounts[2..]) == ["medium"] + Keys(InitialCounts[3..]);
    assert Keys(InitialCounts[3..]) == ["low"] + Keys(InitialCounts[4..]);
    assert Keys(InitialCounts[4..]) == ["info"] + Keys(InitialCounts[5..]);
    forall s ensures Get(InitialCounts, s) == 0 { GetZero(InitialCounts, s); }
  }

  /**
   * Every severity's count is the number of findings with that severity; the
   * five standard keys come first whatever was seen, any other severity gets
   * a key of its own, and the counts add up to the number of findings.
   */
  lemma TallyCorrect(findings: seq<Finding>)
    ensures DistinctKeys(Tally(findings))
    ensures forall s :: Get(Tally(findings), s) == CountSeverity(findings, s)
    ensures |Keys(Tally(findings))| >= 5 && Keys(Tally(findings))[..5] == StandardSeverities
    ensures forall f :: f in findings ==> Severity(f) in Keys(Tally(findings))
    ensures Sum(Tally(findings)) == |findings|
  {
    TallyCounts(findings);
    TallyKeys(findings);
  }

  lemma {:induction false} TallyCounts(findings: seq<Finding>)
    ensures forall s :: Get(Tally(findings), s) == CountSeverity(findings, s)
    ensures Sum(Tally(findings)) == |findings|
  {
    if findings == [] {
      InitialCountsFacts();
      assert Sum(InitialCounts) == 0;
    } else {
      var init := findings[..|findings| - 1];
      var last := findings[|findings| - 1];
      var d := Tally(init);
      TallyCounts(init);
      IncrementSum(d, Severity(last));
      forall s ensures Get(Tally(findings), s) == CountSeverity(findings, s) {
        IncrementGet(d, Severity(last), s);
      }
    }
  }

  lemma {:induction false} TallyKeys(findings: seq<Finding>)
    ensures DistinctKeys(Tally(findings))
    ensures |Keys(Tally(findings))| >= 5 && Keys(Tally(findings))[..5] == StandardSeverities
    ensures forall f :: f in findings ==> Severity(f) in Keys(Tally(findings))
  {
    if findings == [] {
      InitialCountsFacts();
    } else {
      var init := findings[..|findings| - 1];
      var last := findings[|findings| - 1];
      var d := Tally(init);
      TallyKeys(init);
      IncrementDistinct(d, Severity(last));
      IncrementKeys(d, Severity(last));
      forall f | f in findings ensures Severity(f) in Keys(Tally(findings)) {
        if f != last {
          var j :| 0 <= j < |findings| && findings[j] == f;
          assert init[j] == f;
        }
      }
    }
  }

  /** `info.get('severity', 'UNKNOWN').upper()`. */
  function SeverityTag(info: Info): (tag: string)
    ensures info.severity.None? ==> tag == "UNKNOWN"
  {
    match info.severity
    case Some(sev) => Upper(sev)
    case None => UpperOfUpper("UNKNOWN"); Upper("UNKNOWN")
  }

  /** The lines written for one finding under "DETAILED FINDINGS". */
  function FindingLines(f: Finding): (lines: seq<string>)
    ensures |lines| == 4 + (if f.matchedAt.Some? then 1 else 0) +
      (if f.info.Some? && f.info.value.description.Some? then 1 else 0)
    ensures lines[0] == "[" + SeverityTag(InfoOf(f)) + "] " + InfoOf(f).name.GetOr("Unknown")
    ensures (f.info.None? || f.info.value.severity.None?) ==> lines[0] == "[" + "UNKNOWN" + "] " + InfoOf(f).name.GetOr("Unknown")
    ensures lines[1] == "  Template: " + f.templateId.GetOr("unknown")
    ensures lines[2] == "  Target: " + f.host.GetOr("unknown")
    ensures f.matchedAt.Some? ==> lines[3] == "  Matched: " + f.matchedAt.value
    ensures InfoOf(f).description.Some? ==> lines[|lines| - 2] == "  Description: " + InfoOf(f).description.value
    ensures lines[|lines| - 1] == ""
  {
    var info := InfoOf(f);
    Block("[" + SeverityTag(info) + "] " + info.name.GetOr("Unknown"),
          "  Template: " + f.templateId.GetOr("unknown"),
          "  Target: " + f.host.GetOr("unknown"),
          if f.matchedAt.Some? then Some("  Matched: " + f.matchedAt.value) else None,
          if info.description.Some? then Some("  Description: " + info.description.value) else None)
  }

  /**
   * A block of lines: heading, template, target, the optional matched and
   * description lines, and a closing blank line.
   */
  function Block(heading: string, template: string, target: string,
                 matched: Option<string>, described: Option<string>): (lines: seq<string>)
    ensures |lines| == 4 + (if matched.Some? then 1 else 0) + (if described.Some? then 1 else 0)
    ensures lines[0] == heading && lines[1] == template && lines[2] == target
    ensures matched.Some? ==> lines[3] == matched.value
    ensures described.Some? ==> lines[|lines| - 2] == described.value
    ensures lines[|lines| - 1] == ""
    ensures heading != [] && template != [] && target != [] &&
            (matched.Some? ==> matched.value != []) && (described.Some? ==> described.value != []) ==>
            forall i :: 0 <= i < |lines| - 1 ==> lines[i] != ""
    ensures '\n' !in heading && '\n' !in template && '\n' !in target &&
            NoBreak(matched) && NoBreak(described) ==>
            forall l :: l in lines ==> '\n' !in l
  {
    [heading, template, target] +
    (if matched.Some? then [matched.value] else []) +
    (if described.Some? then [described.value] else []) + [""]
  }

  /** The "DETAILED FINDINGS" section: each finding's lines, in order. */
  function DetailLines(findings: seq<Finding>): seq<string>
  {
    FlatMap(findings, FindingLines)
  }

  /** The number of blank lines in `lines`. */
  function Blanks(lines: seq<string>): nat
    decreases |lines|
  {
    if lines == [] then 0 else Blanks(lines[..|lines| - 1]) + (if lines[|lines| - 1] == "" then 1 else 0)
  }

  lemma {:induction false} BlanksNone(lines: seq<string>)
    requires forall i :: 0 <= i < |lines| ==> lines[i] != ""
    ensures Blanks(lines) == 0
    decreases |lines|
  {
    if lines != [] {
      BlanksNone(lines[..|lines| - 1]);
    }
  }

  lemma {:induction false} BlanksConcat(a: seq<string>, b: seq<string>)
    ensures Blanks(a + b) == Blanks(a) + Blanks(b)
    decreases |b|
  {
    if b == [] {
      assert a + b == a;
    } else {
      var b0 := b[..|b| - 1];
      BlanksConcat(a, b0);
      assert (a + b)[..|a + b| - 1] == a + b0;
    }
  }

  /** A field that is missing or holds no line break. */
  predicate NoBreak(o: Option<string>)
  {
    o.None? || '\n' !in o.value
  }

  /**
   * No field the block writes holds a line break, so each element of the
   * block is exactly one line of the file.
   */
  predicate OneLineFields(f: Finding)
  {
    var info := InfoOf(f);
    NoBreak(info.severity) && NoBreak(info.name) && NoBreak(info.description) &&
    NoBreak(f.templateId) && NoBreak(f.host) && NoBreak(f.matchedAt)
  }

  /** With one-line fields, no element of a finding's block holds a line break. */
  lemma FindingLinesOneLine(f: Finding)
    requires OneLineFields(f)
    ensures forall l :: l in FindingLines(f) ==> '\n' !in l
  {
    var info := InfoOf(f);
    var tag := SeverityTag(info);
    if info.severity.Some? {
      UpperNoBreak(info.severity.value);
    }
    CaptionsOneLine();
    CaptionNoBreak("[" + tag, "] ");
    CaptionNoBreak("[" + tag + "] ", info.name.GetOr("Unknown"));
    CaptionNoBreak("  Template: ", f.templateId.GetOr("unknown"));
    CaptionNoBreak("  Target: ", f.host.GetOr("unknown"));
    if f.matchedAt.Some? {
      CaptionNoBreak("  Matched: ", f.matchedAt.value);
    }
    if info.description.Some? {
      CaptionNoBreak("  Description: ", info.description.value);
    }
  }

  /** The fixed captions of a block hold no line break. */
  lemma CaptionsOneLine()
    ensures '\n' !in "[" && '\n' !in "] " && '\n' !in "  Template: " && '\n' !in "  Target: "
    ensures '\n' !in "  Matched: " && '\n' !in "  Description: " && '\n' !in "UNKNOWN" && '\n' !in "Unknown" && '\n' !in "unknown"
  {
  }

  lemma CaptionNoBreak(caption: string, value: string)
    requires '\n' !in caption && '\n' !in value
    ensures '\n' !in caption + value
  {
  }

  /** A finding's block holds exactly one blank line, its last. */
  /** Every line of a finding's block before the closing one is non-empty. */
  lemma FindingLinesNonBlank(f: Finding)
    ensures forall i :: 0 <= i < |FindingLines(f)| - 1 ==> FindingLines(f)[i] != ""
  {
    assert |"  Template: "| > 0 && |"  Target: "| > 0 && |"  Matched: "| > 0 && |"  Description: "| > 0;
  }

  lemma FindingOneBlank(f: Finding)
    ensures Blanks(FindingLines(f)) == 1
  {
    var lines := FindingLines(f);
    var body := lines[..|lines| - 1];
    FindingLinesNonBlank(f);
    BlanksNone(body);
    assert lines == body + [""];
    BlanksConcat(body, [""]);
    assert [""][..0] == [];
  }

  /**
   * When no field holds a line break, every element of the section is one
   * line of the file and the section has one blank line per finding, so
   * it splits back into the findings' blocks at its blank lines.
   */
  lemma {:induction false} DetailBlocks(findings: seq<Finding>)
    requires forall f :: f in findings ==> OneLineFields(f)
    ensures forall l :: l in DetailLines(findings) ==> '\n' !in l
    ensures Blanks(DetailLines(findings)) == |findings|
    decreases |findings|
  {
    if findings != [] {
      var init := findings[..|findings| - 1];
      var last := findings[|findings| - 1];
      assert forall f :: f in init ==> f in findings;
      DetailBlocks(init);
      assert DetailLines(findings) == DetailLines(init) + FindingLines(last);
      BlanksConcat(DetailLines(init), FindingLines(last));
      FindingOneBlank(last);
      FindingLinesOneLine(last);
    }
  }

  /** `vuln.get('info', {})`. */
  function InfoOf(f: Finding): Info
  {
    if f.info.Some? then f.info.value else Info(None, None, None)
  }

  /** A finding without a severity is counted as info yet shown as UNKNOWN. */
  lemma MissingSeverityCountedAsInfo(f: Finding)
    requires f.info.None? || f.info.value.severity.None?
    ensures Severity(f) == "info" && Rank(f) == 4
    ensures StartsWith(FindingLines(f)[0], "[" + "UNKNOWN" + "] ")
  {
    StartsWithConcat("[" + "UNKNOWN" + "] ", InfoOf(f).name.GetOr("Unknown"));
    InfoRank();
  }

  lemma InfoRank()
    ensures IndexOr("info", StandardSeverities) == 4
  {
    assert StandardSeverities[4] == "info";
    assert "info" !in StandardSeverities[..4];
  }
}

/**
 * modules/report.py: what the HTML report shows in each section. Files are
 * read with a line bound and a truncation marker, every line is stripped
 * and HTML-escaped, the port and vulnerability sections fall back from the
 * summary file to the raw log, empty sections get a fixed placeholder, and
 * screenshots are listed with a thumbnail when one was generated.
 */
module Report {
  import opened Common
  import opened Text
  import opened Order

  // ---------------------------------------------------------------------
  // html.escape
  // ---------------------------------------------------------------------

  /** The characters `html.escape(s, quote=True)` rewrites, besides `&`. */
  predicate IsSpecial(c: char)
  {
    c == '<' || c == '>' || c == '"' || c == '\''
  }

  function EscapeChar(c: char): string
  {
    if c == '&' then "&amp;"
    else if c == '<' then "&lt;"
    else if c == '>' then "&gt;"
    else if c == '"' then "&quot;"
    else if c == '\'' then "&#x27;"
    else [c]
  }

  /** `html.escape(s)`: the result holds none of `<`, `>`, `"`, `'` and is empty only for empty input. */
  function Escape(s: string): (r: string)
    ensures forall i :: 0 <= i < |r| ==> !IsSpecial(r[i])
    ensures r == [] <==> s == []
    ensures |r| >= |s|
  {
    if s == [] then [] else EscapeChar(s[0]) + Escape(s[1..])
  }

  /** The character an entity at the start of `s` stands for, and the entity's length. */
  function Entity(s: string): (r: Option<(char, nat)>)
    ensures r.Some? ==> 0 < r.value.1 <= |s|
  {
    if StartsWith(s, "&amp;") then Some(('&', 5))
    else if StartsWith(s, "&lt;") then Some(('<', 4))
    else if StartsWith(s, "&gt;") then Some(('>', 4))
    else if StartsWith(s, "&quot;") then Some(('"', 6))
    else if StartsWith(s, "&#x27;") then Some(('\'', 6))
    else None
  }

  /** The inverse of `Escape`: decodes the five entities it produces, left to right. */
  function Unescape(s: string): string
    decreases |s|
  {
    if s == [] then []
    else if s[0] == '&' && Entity(s).Some? then [Entity(s).value.0] + Unescape(s[Entity(s).value.1..])
    else [s[0]] + Unescape(s[1..])
  }

  lemma UnescapeCons(c: char, rest: string)
    ensures Unescape(EscapeChar(c) + rest) == [c] + Unescape(rest)
  {
    var e := EscapeChar(c) + rest;
    if c == '&' {
      assert e[..5] == "&amp;" && e[5..] == rest;
    } else if c == '<' {
      assert e[1] == 'l' && e[..4] == "&lt;";
      assert Entity(e) == Some(('<', 4)) && e[4..] == rest;
    } else if c == '>' {
      assert e[1] == 'g' && e[..4] == "&gt;";
      assert Entity(e) == Some(('>', 4)) && e[4..] == rest;
    } else if c == '"' {
      assert e[1] == 'q' && e[..6] == "&quot;";
      assert Entity(e) == Some(('"', 6)) && e[6..] == rest;
    } else if c == '\'' {
      assert e[1] == '#' && e[..6] == "&#x27;";
      assert Entity(e) == Some(('\'', 6)) && e[6..] == rest;
    } else {
      assert e[0] == c && e[1..] == rest;
    }
  }

  /** Escaping loses nothing: unescaping gives the original text back. */
  lemma {:induction false} EscapeRoundTrip(s: string)
    ensures Unescape(Escape(s)) == s
  {
    if s != [] {
      EscapeRoundTrip(s[1..]);
      UnescapeCons(s[0], Escape(s[1..]));
      assert s == [s[0]] + s[1..];
    }
  }

  /** Different texts stay different once escaped. */
  lemma EscapeInjective(s: string, t: string)
    requires Escape(s) == Escape(t)
    ensures s == t
  {
    EscapeRoundTrip(s);
    EscapeRoundTrip(t);
  }

  // ---------------------------------------------------------------------
  // Bounded reading
  // ---------------------------------------------------------------------

  /** `[html.escape(line.strip()) for line in lines]`. */
  function EscapeLines(lines: seq<string>): (r: seq<string>)
    ensures |r| == |lines|
  {
    if lines == [] then []
    else EscapeLines(lines[..|lines| - 1]) + [Escape(Strip(lines[|lines| - 1]))]
  }

  lemma {:induction false} EscapeLinesAt(lines: seq<string>)
    ensures forall i :: 0 <= i < |lines| ==> EscapeLines(lines)[i] == Escape(Strip(lines[i]))
  {
    if lines != [] {
      EscapeLinesAt(lines[..|lines| - 1]);
    }
  }

  /**
   * The list the reading loop returns: the first `maxLines` lines escaped,
   * then `marker` when a further line was read; a read that raises before
   * that point, or a missing file, gives the empty list.
   */
  function Bounded(file: FileState, maxLines: nat, marker: string): seq<string>
  {
    var seen := file.LinesSeen();
    if |seen| > maxLines then EscapeLines(seen[..maxLines]) + [marker]
    else if file.Readable? then EscapeLines(seen)
    else []
  }

  /**
   * The loop shared by `read_lines` and `read_file_chunked`: it stops at the
   * line with index `maxLines`, appending the marker in its place, so a
   * failure after that line is never reached; an exception discards what
   * was collected.
   */
  method ReadBounded(file: FileState, maxLines: nat, marker: string) returns (lines: seq<string>)
    ensures lines == Bounded(file, maxLines, marker)
  {
    if !file.Exists() {
      return [];
    }
    var seen := file.LinesSeen();
    lines := [];
    var i := 0;
    while i < |seen|
      invariant 0 <= i <= |seen| && i <= maxLines
      invariant lines == EscapeLines(seen[..i])
    {
      if i >= maxLines {
        lines := lines + [marker];
        return;
      }
      lines := lines + [Escape(Strip(seen[i]))];
      assert seen[..i + 1][..i] == seen[..i];
      i := i + 1;
    }
    assert seen[..i] == seen;
    if file.FailsAfter? {
      lines := [];
    }
  }

  /** `read_lines(path)`: at most 500 lines, then `... [Truncated]`. */
  method ReadLines(file: FileState) returns (lines: seq<string>)
    ensures lines == Bounded(file, 500, "... [Truncated]")
  {
    lines := ReadBounded(file, 500, "... [Truncated]");
  }

  /** What `read_file_chunked(path)` returns: at most 1000 lines joined by newlines. */
  function Chunked(file: FileState): string
  {
    Join(Bounded(file, 1000, "... [Truncated for report]"), "\n")
  }

  /** `read_file_chunked(path)`. */
  method ReadFileChunked(file: FileState) returns (text: string)
    ensures text == Chunked(file)
  {
    var lines := ReadBounded(file, 1000, "... [Truncated for report]");
    text := Join(lines, "\n");
  }

  /**
   * The shape of every bounded read: at most `maxLines + 1` entries; a
   * longer file gives exactly `maxLines` escaped lines and the marker; a
   * readable file within the bound is given in full and in order, blank
   * lines included; a missing file, or one whose reading fails within the
   * bound, gives nothing.
   */
  lemma BoundedShape(file: FileState, maxLines: nat, marker: string)
    ensures var r := Bounded(file, maxLines, marker);
      var seen := file.LinesSeen();
      |r| <= maxLines + 1 &&
      (|seen| > maxLines ==>
        |r| == maxLines + 1 && r[maxLines] == marker &&
        forall i :: 0 <= i < maxLines ==> r[i] == Escape(Strip(seen[i]))) &&
      (|seen| <= maxLines && file.Readable? ==>
        |r| == |seen| && forall i :: 0 <= i < |seen| ==> r[i] == Escape(Strip(seen[i]))) &&
      (|seen| <= maxLines && !file.Readable? ==> r == [])
  {
    var seen := file.LinesSeen();
    if |seen| > maxLines {
      EscapeLinesAt(seen[..maxLines]);
    } else {
      EscapeLinesAt(seen);
    }
  }

  /** Every entry other than the marker position holds no raw `<`, `>`, `"` or `'`. */
  lemma BoundedEscaped(file: FileState, maxLines: nat, marker: string)
    ensures var r := Bounded(file, maxLines, marker);
      forall i :: 0 <= i < |r| && i < maxLines ==> forall k :: 0 <= k < |r[i]| ==> !IsSpecial(r[i][k])
  {
    BoundedShape(file, maxLines, marker);
  }

  lemma JoinEmpty(parts: seq<string>, sep: string)
    requires sep != []
    ensures Join(parts, sep) == [] <==> parts == [] || parts == [[]]
  {
    if |parts| > 1 {
      assert |Join(parts, sep)| >= |sep|;
    }
  }

  /**
   * `read_file_chunked` gives empty text, and so lets the fallback file be
   * read, exactly when the file is missing or fails within the bound, or is
   * readable and empty, or is readable with one line that is blank.
   */
  lemma ChunkedEmpty(file: FileState)
    ensures Chunked(file) == [] <==>
      (|file.LinesSeen()| <= 1000 && !file.Readable?) ||
      (file.Readable? && file.lines == []) ||
      (file.Readable? && |file.lines| == 1 && Strip(file.lines[0]) == [])
  {
    var r := Bounded(file, 1000, "... [Truncated for report]");
    JoinEmpty(r, "\n");
    BoundedShape(file, 1000, "... [Truncated for report]");
  }

  /** `a or b` on two strings. */
  function OrElse(text: string, fallback: string): (r: string)
    ensures text != [] ==> r == text
    ensures text == [] ==> r == fallback
  {
    if text != [] then text else fallback
  }

  /**
   * `parse_ports` and `parse_vulnerabilities`: the summary file's text, or
   * when that is empty the raw log's.
   */
  method ParseWithFallback(summary: FileState, log: FileState) returns (text: string)
    ensures text == OrElse(Chunked(summary), Chunked(log))
  {
    text := ReadFileChunked(summary);
    if text == [] {
      text := ReadFileChunked(log);
    }
  }

  /** The raw log is consulted only when the summary gives nothing. */
  lemma FallbackOnlyWhenEmpty(summary: FileState, log: FileState)
    ensures summary.Readable? && |summary.lines| >= 2 ==> OrElse(Chunked(summary), Chunked(log)) == Chunked(summary)
    ensures !summary.Exists() ==> OrElse(Chunked(summary), Chunked(log)) == Chunked(log)
  {
    ChunkedEmpty(summary);
  }

  // ---------------------------------------------------------------------
  // Screenshots
  // ---------------------------------------------------------------------

  /** An existing screenshot directory: the names it lists and the names in its `thumbs` sub-directory. */
  datatype ShotDir = ShotDir(files: set<string>, thumbs: set<string>)

  datatype Screenshot = Screenshot(path: string, thumb: string, filename: string)

  /** The entry for image `name` of directory `dir`: the thumbnail when it exists, else the image itself. */
  function ShotOf(dir: string, thumbs: set<string>, name: string): (s: Screenshot)
    ensures s.path == dir + "/" + name && s.filename == Escape(name)
    ensures s.thumb == (if "thumb_" + name in thumbs then dir + "/thumbs/thumb_" + name else s.path)
  {
    var path := dir + "/" + name;
    Screenshot(path, if "thumb_" + name in thumbs then dir + "/thumbs/thumb_" + name else path, Escape(name))
  }

  /** The `.png` and `.jpg` names of `names`, in order. */
  function Images(names: seq<string>): (r: seq<string>)
    ensures forall f :: f in r <==> f in names && IsImage(f)
    ensures |r| <= |names|
  {
    if names == [] then []
    else
      var f := names[|names| - 1];
      Images(names[..|names| - 1]) + (if IsImage(f) then [f] else [])
  }

  /** Keeping only the images of a sorted listing keeps it sorted. */
  lemma {:induction false} ImagesSorted(names: seq<string>)
    requires StrictlySorted(names)
    ensures StrictlySorted(Images(names))
  {
    if names != [] {
      var init := names[..|names| - 1];
      var f := names[|names| - 1];
      assert StrictlySorted(init);
      ImagesSorted(init);
      var r := Images(names);
      forall i, j | 0 <= i < j < |r| ensures Less(r[i], r[j]) {
        if j == |r| - 1 && IsImage(f) {
          assert r[i] in Images(init);
          var k :| 0 <= k < |init| && init[k] == r[i];
        }
      }
    }
  }

  /** The entries collected for one directory, given its listing in order. */
  function ShotsIn(dir: string, thumbs: set<string>, names: seq<string>): (r: seq<Screenshot>)
    ensures |r| == |Images(names)|
  {
    if names == [] then []
    else
      var f := names[|names| - 1];
      ShotsIn(dir, thumbs, names[..|names| - 1]) + (if IsImage(f) then [ShotOf(dir, thumbs, f)] else [])
  }

  lemma ShotsInStep(acc: seq<Screenshot>, dir: string, thumbs: set<string>, names: seq<string>, j: nat)
    requires j < |names|
    ensures acc + ShotsIn(dir, thumbs, names[..j + 1]) ==
      acc + ShotsIn(dir, thumbs, names[..j]) + (if IsImage(names[j]) then [ShotOf(dir, thumbs, names[j])] else [])
  {
    assert names[..j + 1][..j] == names[..j];
  }

  lemma {:induction false} ShotsInAt(dir: string, thumbs: set<string>, names: seq<string>)
    ensures forall i :: 0 <= i < |ShotsIn(dir, thumbs, names)| ==>
      ShotsIn(dir, thumbs, names)[i] == ShotOf(dir, thumbs, Images(names)[i])
  {
    if names != [] {
      ShotsInAt(dir, thumbs, names[..|names| - 1]);
    }
  }

  /** The entries of one directory when it exists, over its listing sorted by name. */
  ghost function ShotsOf(dir: string, d: Option<ShotDir>): seq<Screenshot>
  {
    match d
    case None => []
    case Some(sd) => ShotsIn(dir, sd.thumbs, SortedOf(sd.files))
  }

  /** The body of the listing loop: an entry for `file` when it is a `.png` or `.jpg`. */
  method AddShot(shots: seq<Screenshot>, dir: string, thumbs: set<string>, file: string) returns (r: seq<Screenshot>)
    ensures r == shots + (if IsImage(file) then [ShotOf(dir, thumbs, file)] else [])
  {
    r := shots;
    if EndsWith(file, ".png") || EndsWith(file, ".jpg") {
      var path := dir + "/" + file;
      var thumbPath := dir + "/thumbs/thumb_" + file;
      r := r + [Screenshot(path, if "thumb_" + file in thumbs then thumbPath else path, Escape(file))];
    }
  }

  /** Collects the entries of one existing directory, appending to `shots`. */
  method ScanDir(shots: seq<Screenshot>, dir: string, d: ShotDir) returns (r: seq<Screenshot>)
    ensures r == shots + ShotsOf(dir, Some(d))
  {
    var names := SortSet(d.files);
    r := ScanNames(shots, dir, d.thumbs, names);
  }

  /** The listing loop over `names`, appending to `shots`. */
  method ScanNames(shots: seq<Screenshot>, dir: string, thumbs: set<string>, names: seq<string>) returns (r: seq<Screenshot>)
    ensures r == shots + ShotsIn(dir, thumbs, names)
  {
    r := shots;
    var j := 0;
    while j < |names|
      invariant 0 <= j <= |names|
      invariant r == shots + ShotsIn(dir, thumbs, names[..j])
    {
      r := AddShot(r, dir, thumbs, names[j]);
      ShotsInStep(shots, dir, thumbs, names, j);
      j := j + 1;
    }
    assert names[..j] == names;
  }

  /**
   * `get_screenshots`: `aquatone/screenshots` first, then `aquatone`, each
   * only when it exists.
   */
  method GetScreenshots(outputDir: string, screenshotsDir: Option<ShotDir>, aquatoneDir: Option<ShotDir>)
    returns (shots: seq<Screenshot>)
    ensures shots == ShotsOf(outputDir + "/aquatone/screenshots", screenshotsDir) +
                     ShotsOf(outputDir + "/aquatone", aquatoneDir)
  {
    var dirs := [(outputDir + "/aquatone/screenshots", screenshotsDir), (outputDir + "/aquatone", aquatoneDir)];
    shots := [];
    var k := 0;
    while k < |dirs|
      invariant 0 <= k <= |dirs|
      invariant k == 0 ==> shots == []
      invariant k == 1 ==> shots == ShotsOf(dirs[0].0, dirs[0].1)
      invariant k == 2 ==> shots == ShotsOf(dirs[0].0, dirs[0].1) + ShotsOf(dirs[1].0, dirs[1].1)
    {
      var (dir, d) := dirs[k];
      if d.Some? {
        shots := ScanDir(shots, dir, d.value);
      }
      k := k + 1;
    }
  }

  /**
   * What a directory contributes: one entry per `.png`/`.jpg` name it
   * lists and nothing else, in strictly increasing name order, each with
   * its escaped name and its thumbnail when `thumbs/thumb_<name>` exists.
   */
  lemma ShotsOfDir(dir: string, d: ShotDir)
    ensures var names := Images(SortedOf(d.files));
      var r := ShotsOf(dir, Some(d));
      StrictlySorted(names) &&
      (forall f :: f in names <==> f in d.files && IsImage(f)) &&
      |r| == |names| &&
      forall i :: 0 <= i < |r| ==> r[i] == ShotOf(dir, d.thumbs, names[i])
  {
    ImagesSorted(SortedOf(d.files));
    ShotsInAt(dir, d.thumbs, SortedOf(d.files));
  }

  // ---------------------------------------------------------------------
  // Section contents of generate_html
  // ---------------------------------------------------------------------

  /** The files the report reads, and the two screenshot directories when they exist. */
  datatype ReportInputs = ReportInputs(
    subdomains: FileState,     // all_subdomains.txt
    records: FileState,        // dns/records.txt
    zoneAttempt: FileState,    // dns/zone_attempt.txt
    misconfig: FileState,      // dns/misconfig.txt
    portSummary: FileState,    // ports/port_summary.txt
    nmap: FileState,           // ports/nmap.txt
    nucleiSummary: FileState,  // nuclei/summary.txt
    nucleiLog: FileState,      // nuclei/nuclei.log
    katana: FileState,         // katana.txt
    screenshotsDir: Option<ShotDir>,
    aquatoneDir: Option<ShotDir>)

  /** The values `generate_html` fills into the report. */
  datatype ReportSections = ReportSections(
    subdomainCount: nat,
    subdomains: string,
    records: string,
    zoneTransfer: string,
    misconfig: string,
    ports: string,
    vulns: string,
    screenshots: seq<Screenshot>,
    crawled: seq<string>)

  /** The section contents `generate_html` computes before it renders the template. */
  method CollectSections(outputDir: string, inputs: ReportInputs) returns (s: ReportSections)
    ensures s.subdomainCount == |Bounded(inputs.subdomains, 500, "... [Truncated]")|
    ensures s.subdomains == OrElse(Join(Bounded(inputs.subdomains, 500, "... [Truncated]"), "\n"), "No subdomains found")
    ensures s.records == OrElse(Chunked(inputs.records), "No DNS records available")
    ensures s.zoneTransfer == OrElse(Chunked(inputs.zoneAttempt), "No zone transfer data")
    ensures s.misconfig == OrElse(Chunked(inputs.misconfig), "No misconfiguration data")
    ensures s.ports == OrElse(OrElse(Chunked(inputs.portSummary), Chunked(inputs.nmap)), "No port scan data available")
    ensures s.vulns == OrElse(OrElse(Chunked(inputs.nucleiSummary), Chunked(inputs.nucleiLog)), "No vulnerability data available")
    ensures s.screenshots == ShotsOf(outputDir + "/aquatone/screenshots", inputs.screenshotsDir) +
                             ShotsOf(outputDir + "/aquatone", inputs.aquatoneDir)
    ensures s.crawled == Bounded(inputs.katana, 500, "... [Truncated]")
  {
    var subdomains := ReadLines(inputs.subdomains);
    var records := ReadFileChunked(inputs.records);
    var zone := ReadFileChunked(inputs.zoneAttempt);
    var misconfig := ReadFileChunked(inputs.misconfig);
    var ports := ParseWithFallback(inputs.portSummary, inputs.nmap);
    var vulns := ParseWithFallback(inputs.nucleiSummary, inputs.nucleiLog);
    var shots := GetScreenshots(outputDir, inputs.screenshotsDir, inputs.aquatoneDir);
    var crawled := ReadLines(inputs.katana);
    s := ReportSections(
      |subdomains|,
      OrElse(Join(subdomains, "\n"), "No subdomains found"),
      OrElse(records, "No DNS records available"),
      OrElse(zone, "No zone transfer data"),
      OrElse(misconfig, "No misconfiguration data"),
      OrElse(ports, "No port scan data available"),
      OrElse(vulns, "No vulnerability data available"),
      shots,
      crawled);
  }

  /**
   * No section is ever blank: a missing input shows its placeholder, and
   * the subdomain and crawl lists never exceed 501 entries.
   */
  lemma SectionsNeverBlank(outputDir: string, inputs: ReportInputs, s: ReportSections)
    requires s.subdomains == OrElse(Join(Bounded(inputs.subdomains, 500, "... [Truncated]"), "\n"), "No subdomains found")
    requires s.records == OrElse(Chunked(inputs.records), "No DNS records available")
    requires s.zoneTransfer == OrElse(Chunked(inputs.zoneAttempt), "No zone transfer data")
    requires s.misconfig == OrElse(Chunked(inputs.misconfig), "No misconfiguration data")
    requires s.ports == OrElse(OrElse(Chunked(inputs.portSummary), Chunked(inputs.nmap)), "No port scan data available")
    requires s.vulns == OrElse(OrElse(Chunked(inputs.nucleiSummary), Chunked(inputs.nucleiLog)), "No vulnerability data available")
    requires s.subdomainCount == |Bounded(inputs.subdomains, 500, "... [Truncated]")|
    requires s.crawled == Bounded(inputs.katana, 500, "... [Truncated]")
    ensures s.subdomains != [] && s.records != [] && s.zoneTransfer != [] && s.misconfig != []
    ensures s.ports != [] && s.vulns != []
    ensures !inputs.subdomains.Exists() ==> s.subdomains == "No subdomains found" && s.subdomainCount == 0
    ensures !inputs.records.Exists() ==> s.records == "No DNS records available"
    ensures !inputs.zoneAttempt.Exists() ==> s.zoneTransfer == "No zone transfer data"
    ensures !inputs.misconfig.Exists() ==> s.misconfig == "No misconfiguration data"
    ensures !inputs.portSummary.Exists() && !inputs.nmap.Exists() ==> s.ports == "No port scan data available"
    ensures !inputs.nucleiSummary.Exists() && !inputs.nucleiLog.Exists() ==> s.vulns == "No vulnerability data available"
    ensures s.subdomainCount <= 501 && |s.crawled| <= 501
  {
    BoundedShape(inputs.subdomains, 500, "... [Truncated]");
    BoundedShape(inputs.katana, 500, "... [Truncated]");
  }
}

# T-Slytherins recon suite — a Dafny model of its text processing

T-Slytherins runs a set of external reconnaissance tools against one target
domain and gathers what they leave on disk into summaries and an HTML report.
The tools are subdomain enumerators, an HTTP prober, a crawler, a port
scanner, a vulnerability scanner, a screenshotter and DNS queries. This
project models the logic around those tools and proves properties of it.
That logic covers:

- the merge of the enumerators' subdomain files;
- how each module prepares its target list and reads the tool's output
  (crawler URLs, prober lines, nmap's host/port tree, the scanner's JSON lines);
- how the DNS module shapes its queries and reaches its verdicts;
- the bounded, escaped reading behind the report sections;
- the shell wrapper and the terminal fallback used to launch a module;
- the launcher's status table and its small report;
- the console spinner.

Files, tool runs, DNS answers, terminal spawns and parsed XML/JSON are plain
inputs. A file is a `Common.FileState`: absent, readable with its lines, or
failing after some lines. Each source file has one Dafny module of the same
name:

- `Subdomains`, `Crawl`, `Httprobe`, `Vulnscan`, `Portscan`, `Report`,
  `Screenshots`, `Dnsscan`, `Utils` and `Progress` model the files under
  `modules/`;
- `Orchestrator` models `recon_slytherins.py`;
- `Common`, `Text`, `Order`, `Counter` and `Stable` hold what several
  modules share:
  - Python's string operations over `seq<char>`;
  - code-point string order and `sorted` of a set;
  - an insertion-ordered counting dict;
  - a stable `list.sort(key=…)`.

Code that updates variables step by step is written as methods with loops.
Each method is proved against a specification function, and the properties
the source promises are lemmas about those functions. The launcher's global
tables are the fields of `Orchestrator.Runner`, and the spinner's fields are
those of `Progress.Spinner`.

## Model

| member | source | states |
|---|---|---|
| Subdomains.RunCommand | modules/subdomains.py:12-34 | the captured stdout exactly when the process exited with code 0; `""` on a non-zero exit, a timeout or an exception |
| Subdomains.DeduplicateSubdomains | modules/subdomains.py:36-61 | when the output can be written: the lines are strictly increasing (sorted, no duplicates), hold exactly the entries collected from the files, and the result is their number; otherwise nothing is written and the result is 0 |
| Subdomains.ReadFile | modules/subdomains.py:43-47 | reading one file adds exactly its stripped, lower-cased lines that are non-empty and do not start with `#` |
| Subdomains.EntriesStep | modules/subdomains.py:40-49 | each file adds the qualifying lines it was read up to; a missing file adds nothing and a read that raises keeps what came before it |
| Subdomains.LineEntriesStep | modules/subdomains.py:44-47 | one line adds its normalised form exactly when that form qualifies |
| Subdomains.EntriesWellFormed | modules/subdomains.py:45-47 | every collected entry is stripped, lower-case, non-empty and does not start with `#` |
| Subdomains.EntriesComplete | modules/subdomains.py:40-47 | every qualifying line of every file read is collected |
| Subdomains.EntriesSubset | modules/subdomains.py:40-47 | files that all occur in a second list, missing ones aside, collect nothing that list does not |
| Subdomains.MergeIdempotent | modules/subdomains.py:36-55 | merging the merged output on its own gives it back unchanged |
| Subdomains.MergeOrderIndependent | modules/subdomains.py:36-55 | two orderings of the same input files give the same output |
| Subdomains.MergeSkipsMissing | modules/subdomains.py:40-49 | a missing file changes nothing, wherever it stands in the list |
| Crawl.WithScheme | modules/crawl.py:46-49 | the written line always has an http(s) scheme and ends with the input; a line that already has one is written unchanged |
| Crawl.PrepareUrls | modules/crawl.py:37-54 | writes `Prepared` of the lines read, in input order; a missing input or an output that cannot be opened writes nothing; a file is returned exactly when the input reads through and the output opens |
| Crawl.PreparedShape | modules/crawl.py:43-49 | at most one line per input line, each stripped, with a scheme, non-empty, not a comment and containing `.` |
| Crawl.PreparedLineShape | modules/crawl.py:44-49 | one input line gives at most one such line |
| Crawl.PreparedIdempotent | modules/crawl.py:43-49 | preparing an already prepared list gives it back unchanged |
| Crawl.GetTargetFile | modules/crawl.py:18-35 | httpx results when they exist; else the prepared subdomain list (none when preparing fails); else the bare domain over https then http in `temp_crawl_target.txt`, and the call raises exactly when that file is needed and cannot be opened |
| Crawl.Urls | modules/crawl.py:109-110 | the URL set holds only non-empty stripped lines |
| Crawl.UrlsAtMost | modules/crawl.py:110-138 | "Total URLs" never exceeds the number of lines read |
| Crawl.Query | modules/crawl.py:118-119 | the query holds no `?` |
| Crawl.QueryBetween | modules/crawl.py:118-119 | only the text between the first and the second `?` is read as the query |
| Crawl.UrlParamsMember | modules/crawl.py:118-123 | a name is a parameter of a URL iff some `&`-piece of its query contains `=` and the name is the text before the first `=`; pieces without `=` add nothing |
| Crawl.Endpoint | modules/crawl.py:131-132 | the endpoint is a prefix of the URL with no `?` in it, the text before the first `?` |
| Crawl.EndpointsAtMost | modules/crawl.py:131-139 | the unique-endpoint count never exceeds the URL count |
| Crawl.ParamsStep | modules/crawl.py:117-123 | visiting one more URL adds exactly its parameter names |
| Crawl.PieceParamsStep | modules/crawl.py:121-123 | one `&`-piece adds its name exactly when it holds `=` |
| Crawl.JsApiStep | modules/crawl.py:125-129 | visiting a new URL adds it to the JS list iff it ends with `.js`, to the API list iff it contains `/api/` or ends with `.json` or `.xml`, never twice |
| Crawl.EndpointsStep | modules/crawl.py:131-132 | visiting one more URL adds its endpoint |
| Crawl.AddParams | modules/crawl.py:119-123 | the parameter set grows by exactly the URL's parameter names |
| Crawl.NothingGathered | modules/crawl.py:112-115 | the empty sets and lists are what visiting no URL gathers |
| Crawl.VisitUrl | modules/crawl.py:117-132 | one pass of the loop keeps "everything gathered so far summarises the URLs visited" |
| Crawl.GatherAll | modules/crawl.py:117-132 | after the loop the sets and lists summarise the whole URL set, in whatever order it was walked |
| Crawl.ParseResults | modules/crawl.py:97-170 | no summary when `katana.txt` is missing or unreadable or the summary cannot be written; otherwise the URL total, the unique endpoints, the parameter names strictly sorted, and exactly the JS files and API endpoints, each once |
| Httprobe.PrepareUrls | modules/httprobe.py:33-48 | writes `Prepared` of the lines read; a missing input or an output that cannot be opened writes nothing; a file is returned exactly when the input reads through and the output opens |
| Httprobe.PreparedPairs | modules/httprobe.py:39-43 | exactly two lines per valid host (non-empty, not `#`, containing `.`), the https form then the http form, in file order, with no check for an existing scheme |
| Httprobe.GetInputFile | modules/httprobe.py:18-31 | the prepared subdomain list when that file exists (none when preparing fails), else the domain over https then http in `temp_domain.txt`; the call raises exactly when that file is needed and cannot be opened |
| Httprobe.RunHttpx | modules/httprobe.py:71-93 | success only when the run finished and the results file exists; a timeout or a failure to start is a failure |
| Httprobe.RunHttpxIgnoresExitCode | modules/httprobe.py:79-87 | after a finished run, success is exactly "the results file exists and reads through", whatever the exit code |
| Httprobe.NonBlank | modules/httprobe.py:107-108 | the result lines are non-empty and stripped, no more than the lines read |
| Httprobe.FirstToken | modules/httprobe.py:114-116 | the host is the prefix of the line up to its first whitespace, itself free of whitespace, and non-empty for a stripped non-blank line |
| Httprobe.StatusKey | modules/httprobe.py:118-119 | a line has a status key exactly when it contains both `[` and `]` |
| Httprobe.Hosts | modules/httprobe.py:113-117 | one live host per result line |
| Httprobe.Bracketed | modules/httprobe.py:118-120 | the lines with a status never outnumber the result lines |
| Httprobe.HostsAreTokens | modules/httprobe.py:113-117 | each live host is a non-empty prefix of its own line, in file order |
| Httprobe.CountsCorrect | modules/httprobe.py:110-120 | each status count is the number of result lines with that bracketed status, the keys are distinct, and the counts add up to the number of bracketed lines |
| Httprobe.StatusSummary | modules/httprobe.py:113-132 | the written distribution is in strictly increasing key order, each count is that status's line count, and the counts sum to at most the number of live hosts |
| Httprobe.ParseResults | modules/httprobe.py:95-144 | no summary when the results file is missing or unreadable or the summary cannot be written; otherwise the live hosts of the non-blank lines in order and the status counts sorted by key |
| Vulnscan.PrepareUrls | modules/vulnscan.py:68-84 | writes `Prepared` of the lines read; a missing input or an output that cannot be opened writes nothing; a file is returned exactly when the input reads through and the output opens |
| Vulnscan.PreparedShape | modules/vulnscan.py:74-80 | one line per non-empty, non-`#` line (no `.` filter), each with an http(s) scheme |
| Vulnscan.CheckHttpxResults | modules/vulnscan.py:21-66 | existing httpx results are used as they are; otherwise the prepared subdomain list is probed and counts only when the probe exits with 0 and leaves a readable results file; without either file there is no target |
| Vulnscan.Severity | modules/vulnscan.py:159 | a missing `info` or `severity` counts as `info` |
| Vulnscan.IndexOr | modules/vulnscan.py:174-175 | the position of a severity in the order table, or past its end exactly when it is not there |
| Vulnscan.Rank | modules/vulnscan.py:174-175 | the sort key lies in 0..5 |
| Vulnscan.RankTable | modules/vulnscan.py:174-175 | ranks 0..4 are critical, high, medium, low, info in that order; every other severity ranks 5 |
| Vulnscan.InfoRank | modules/vulnscan.py:174 | `info` ranks 4 |
| Vulnscan.FindingsStep | modules/vulnscan.py:155-158 | a decoded line adds its finding, a blank line adds nothing |
| Vulnscan.TallyStep | modules/vulnscan.py:159-160 | each finding increments the counter of its severity |
| Vulnscan.FindingsCount | modules/vulnscan.py:155-166 | without malformed lines there is one finding per non-blank line |
| Vulnscan.InitialCountsFacts | modules/vulnscan.py:152 | the counter starts with the five standard severities, in order, at 0 |
| Vulnscan.TallyCorrect | modules/vulnscan.py:152-171 | every severity's count is the number of findings with it; the five standard keys come first, any other severity gets its own key, and the counts add up to the total issues |
| Vulnscan.TallyCounts | modules/vulnscan.py:159-160 | the counts part of `TallyCorrect` |
| Vulnscan.TallyKeys | modules/vulnscan.py:152-160 | the keys part of `TallyCorrect` |
| Vulnscan.ParseResults | modules/vulnscan.py:139-199 | no summary when `nuclei.json` is missing, when any line fails to decode, or when the summary cannot be written; otherwise the number of findings, the severity counter and the findings sorted by rank |
| Vulnscan.SeverityTag | modules/vulnscan.py:181 | a finding without a severity is shown as `UNKNOWN` |
| Vulnscan.FindingLines | modules/vulnscan.py:179-191 | the `[SEVERITY] name` heading, then the Template and Target lines with their defaults, then "Matched" exactly when `matched-at` is present and "Description" with its text exactly when `info.description` is, then a blank line, which is the block's only blank line |
| Vulnscan.FindingLinesNonBlank | modules/vulnscan.py:179-190 | every line of a finding's block before the closing blank one is non-empty, since each starts with its caption |
| Vulnscan.FindingLinesOneLine | modules/vulnscan.py:179-191 | when no field the block writes (severity, name, description, template id, host, matched-at) holds a line break, no element of the block holds one, so each element is exactly one line of the file |
| Vulnscan.DetailBlocks | modules/vulnscan.py:177-191 | when no finding has a field holding a line break, every element of the detailed findings section is one line of the file and the section holds exactly one blank line per finding, so it splits back into the findings' blocks |
| Vulnscan.MissingSeverityCountedAsInfo | modules/vulnscan.py:159-181 | a finding without a severity is counted and ranked as `info` but its heading starts with `[UNKNOWN]` |
| Stable.SortByCorrect | modules/vulnscan.py:175 | `list.sort(key=...)` keeps every finding, orders them by rank and keeps file order within a rank |
| Stable.InsertByMultiset | modules/vulnscan.py:175 | inserting adds the element and nothing else |
| Stable.InsertBySorted | modules/vulnscan.py:175 | inserting into a rank-ordered list keeps it rank-ordered |
| Stable.InsertByBound | modules/vulnscan.py:175 | inserting keeps every rank above a common lower bound |
| Stable.InsertByWithKey | modules/vulnscan.py:175 | inserting puts the element after every element of its rank |
| Stable.InsertAfterHead | modules/vulnscan.py:175 | the step of `InsertByWithKey` past the head |
| Stable.WithKeyCons | modules/vulnscan.py:175 | the elements of one rank of a list with a head |
| Stable.WithKeyNone | modules/vulnscan.py:175 | a list of higher ranks holds none of a lower one |
| Order.LessIrreflexive | modules/subdomains.py:54 | Python's string `<` is irreflexive |
| Order.LessTransitive | modules/subdomains.py:54 | and transitive |
| Order.LessTotal | modules/subdomains.py:54 | and total on different strings |
| Order.LessAsymmetric | modules/subdomains.py:54 | and asymmetric |
| Order.SortedDistinct | modules/subdomains.py:54 | a strictly increasing list has no duplicates |
| Order.Insert | modules/subdomains.py:54 | inserting a new element keeps the list strictly increasing and adds exactly that element |
| Order.SortSet | modules/subdomains.py:54 | `sorted(set)`: strictly increasing, exactly the set's elements, one each |
| Order.SortedOf | modules/report.py:92 | the sorted listing of a set as a value, strictly increasing with the set's elements |
| Order.SortedTail | modules/subdomains.py:54 | dropping the head of a strictly increasing list keeps it strictly increasing |
| Order.SortedUnique | modules/subdomains.py:54 | two strictly increasing lists with the same elements are equal |
| Order.SameElementsEmpty | modules/subdomains.py:54 | lists with the same elements are empty together |
| Counter.Keys | modules/httprobe.py:131 | one key per entry |
| Counter.KeysAt | modules/httprobe.py:131 | the i-th key is the i-th entry's key |
| Counter.GetZero | modules/vulnscan.py:152 | a counter whose entries are all 0 reads 0 for every key |
| Counter.IncrementGet | modules/httprobe.py:120 | `d[k] = d.get(k, 0) + 1` adds one to `k` and leaves every other count alone |
| Counter.IncrementSum | modules/httprobe.py:120 | each increment adds one to the total |
| Counter.IncrementKeys | modules/vulnscan.py:160 | existing keys keep their place and a new key goes last, as in a Python dict |
| Counter.IncrementDistinct | modules/httprobe.py:120 | keys stay distinct |
| Counter.KeysNotIn | modules/httprobe.py:120 | a key held by no entry is not among the keys |
| Counter.GetMember | modules/httprobe.py:131-132 | with distinct keys, an entry's count is what `get` returns for its key |
| Counter.SortedCons | modules/httprobe.py:131 | a smaller key before a strictly increasing list keeps it strictly increasing |
| Counter.InsertEntryContents | modules/httprobe.py:131 | inserting adds the entry and nothing else |
| Counter.InsertEntrySorted | modules/httprobe.py:131 | inserting a new key keeps the keys strictly increasing |
| Counter.SortByKeyCorrect | modules/httprobe.py:131 | `sorted(d.items())` keeps every entry and orders the keys strictly |
| Portscan.ScanPorts | modules/portscan.py:32-74 | success exactly when nmap exits with 0 and `nmap.txt` is written; the saved text starts with the captured stdout and is exactly it when stderr is empty; nothing is saved after a timeout or a failure to start |
| Portscan.InfoOf | modules/portscan.py:108-122 | the entry keeps the port id and protocol; when a `service` element is present its `name`, `product` and `version` attributes are taken, with `unknown`, empty and empty for a missing attribute; without one the service is `unknown` and product and version are empty |
| Portscan.AddressText | modules/portscan.py:96-97 | the `addr` value, `unknown` when the host has no address element |
| Portscan.VersionColumn | modules/portscan.py:131 | product and version joined by a space, then stripped |
| Portscan.Row | modules/portscan.py:130-132 | a row exists exactly when the port id and protocol are present (formatting a missing one to a width raises), and starts with the port id padded to 8 |
| Portscan.CollectOpenPorts | modules/portscan.py:102-123 | collects `OpenPorts` of the port list |
| Portscan.OpenPortsExactly | modules/portscan.py:105-123 | the number of entries is the number of open ports, and each entry comes from an open port |
| Portscan.OpenPortsConcat | modules/portscan.py:105-123 | open ports of two halves of a port list are listed half after half, in document order |
| Portscan.WriteRows | modules/portscan.py:130-132 | writes `Rows` of the entries, stopping at the first row that raises |
| Portscan.RowsStop | modules/portscan.py:130-132 | once a row raises, later rows change nothing |
| Portscan.RowsCount | modules/portscan.py:130-132 | never more rows than entries, and one row per entry when none raises |
| Portscan.WriteHost | modules/portscan.py:95-138 | writes `HostBlock` of the host |
| Portscan.HostBlockShape | modules/portscan.py:99-137 | a host's block names its address, then nothing more without a `ports` element, "No open ports found" when none is open, or "Open Ports: N" with N the number of open entries and one row per entry |
| Portscan.HostBlocksStep | modules/portscan.py:95 | one more host appends its block |
| Portscan.HostBlocksStop | modules/portscan.py:95-145 | once a host raises, later hosts change nothing |
| Portscan.WriteHosts | modules/portscan.py:95-138 | writes `HostBlocks` of the hosts in document order, stopping where a row raises |
| Portscan.ParseNmapXml | modules/portscan.py:76-145 | nothing when `nmap.xml` is missing or malformed or the summary cannot be opened; otherwise the header and each host's block in document order |
| Report.Escape | modules/report.py:28-44 | the escaped text holds no raw `<`, `>`, `"` or `'`, is empty only for empty input and is never shorter |
| Report.UnescapeCons | modules/report.py:28-44 | the entity written for one character decodes back to that character |
| Report.EscapeRoundTrip | modules/report.py:28-44 | escaping loses nothing: decoding the five entities gives the original text back |
| Report.EscapeInjective | modules/report.py:28-44 | two different texts never escape to the same text |
| Report.EscapeLines | modules/report.py:28-44 | one output line per input line |
| Report.EscapeLinesAt | modules/report.py:28-44 | entry i is the stripped and escaped line i |
| Report.ReadBounded | modules/report.py:18-48 | the shared reading loop returns `Bounded` of the file |
| Report.ReadLines | modules/report.py:34-48 | `read_lines` with its bound of 500 and its marker |
| Report.ReadFileChunked | modules/report.py:18-32 | `read_file_chunked`: the bounded lines (1000, its own marker) joined by newlines |
| Report.BoundedShape | modules/report.py:20-48 | at most bound+1 entries; a longer file gives exactly the bound's escaped lines then the marker; a readable file within the bound is given whole and in order; a missing file or a read that fails within the bound gives nothing |
| Report.BoundedEscaped | modules/report.py:28-44 | no entry before the marker holds a raw special character |
| Report.JoinEmpty | modules/report.py:29 | a newline join is empty exactly for no parts or one empty part |
| Report.ChunkedEmpty | modules/report.py:18-32 | the chunked text is empty, so the fallback is read, exactly when the file is missing, fails within the bound, is empty, or holds one blank line |
| Report.OrElse | modules/report.py:185-190 | Python's `a or b` on strings: the text when non-empty, else the fallback |
| Report.ParseWithFallback | modules/report.py:67-79 | `parse_ports`/`parse_vulnerabilities`: the summary's text, or the raw log's when that is empty |
| Report.FallbackOnlyWhenEmpty | modules/report.py:67-79 | a summary with two or more readable lines is always used; a missing summary always defers to the log |
| Report.ShotOf | modules/report.py:94-98 | path is dir/name, the thumbnail is `thumbs/thumb_<name>` when it exists and the image otherwise, the filename is escaped |
| Report.Images | modules/report.py:93 | exactly the `.png`/`.jpg` names, in order |
| Report.ImagesSorted | modules/report.py:92-93 | filtering a sorted listing keeps it sorted |
| Report.ShotsIn | modules/report.py:92-98 | one entry per image name |
| Report.ShotsInStep | modules/report.py:92-98 | one more listed name appends at most its own entry |
| Report.ShotsInAt | modules/report.py:92-98 | entry i is the entry of image name i |
| Report.AddShot | modules/report.py:93-98 | the loop body appends an entry exactly for an image name |
| Report.ScanNames | modules/report.py:92-98 | the listing loop appends `ShotsIn` of the names |
| Report.ScanDir | modules/report.py:91-98 | one existing directory contributes its entries over its sorted listing |
| Report.GetScreenshots | modules/report.py:81-99 | `aquatone/screenshots` first, then `aquatone`, each only when it exists |
| Report.ShotsOfDir | modules/report.py:90-98 | a directory contributes one entry per image it lists and nothing else, in strictly increasing name order, each with its thumbnail when present |
| Report.CollectSections | modules/report.py:106-191 | every section value `generate_html` fills in: counts, bounded lists, chunked texts, fallbacks and placeholders |
| Report.SectionsNeverBlank | modules/report.py:184-189 | none of the six text sections (subdomains, records, zone transfer, misconfiguration, ports, vulnerabilities) is blank, each shows its placeholder when its inputs are missing, and the subdomain and crawl lists hold at most 501 entries |
| Screenshots.Expand | modules/screenshots.py:55-60 | a non-host line gives nothing, a URL with a scheme is kept, a bare host gives its https and then its http form |
| Screenshots.PrepareUrls | modules/screenshots.py:47-65 | success exactly when the input is readable and the output can be written; what is written is the prepared list of the lines read, even when reading fails part-way |
| Screenshots.PreparedShape | modules/screenshots.py:53-60 | every written target has a scheme, contains a dot, is non-empty, does not start with `#` and is stripped |
| Screenshots.PreparedLineShape | modules/screenshots.py:54-60 | one line gives at most two targets, each well formed |
| Screenshots.PrefixKeepsHost | modules/screenshots.py:57-58 | prefixing a scheme keeps a line a well-formed host line |
| Screenshots.PreparedTarget | modules/screenshots.py:59-60 | a prepared target passes through preparation unchanged |
| Screenshots.PreparedIdempotent | modules/screenshots.py:47-60 | preparing an already prepared list changes nothing |
| Screenshots.GetTargetFile | modules/screenshots.py:32-45 | the prober's results when they exist; else the prepared subdomain list, present exactly when it could be prepared; else nothing |
| Screenshots.ThumbName | modules/screenshots.py:100 | the thumbnail name is `thumb_` followed by the screenshot's name |
| Screenshots.ThumbNameInjective | modules/screenshots.py:100 | different screenshots get different thumbnail names |
| Screenshots.SavedFailedPartition | modules/screenshots.py:94-105 | every image either gets a thumbnail or counts as a failure, never both |
| Screenshots.TallyOfSpec | modules/screenshots.py:91-107 | over a listing without repeats the counters are the numbers of successes and failures, which together are all the images, and the created files are the thumbnail names of exactly the successes |
| Screenshots.TalliedNothing | modules/screenshots.py:91-92 | before the loop both counters are 0 and nothing is created |
| Screenshots.TallyFileSpec | modules/screenshots.py:95-105 | one more file keeps the counters and created files equal to those of the files seen |
| Screenshots.TallyCounts | modules/screenshots.py:102-105 | one more file keeps the counters equal to the successes and failures so far |
| Screenshots.TallyCreated | modules/screenshots.py:101 | one more file keeps the created files equal to the successes' thumbnail names |
| Screenshots.ThumbnailOne | modules/screenshots.py:95-105 | the loop body for one file moves the tally on by that file |
| Screenshots.GenerateThumbnails | modules/screenshots.py:86-108 | the counters and the thumbnails directory after the loop are those of the listing's tally |
| Screenshots.PngThumbs | modules/screenshots.py:114 | exactly the `.png` names of the listing |
| Screenshots.ItemFor | modules/screenshots.py:142-149 | an entry shows `thumbs/<thumb>` and opens `screenshots/<caption>` |
| Screenshots.CreateGallery | modules/screenshots.py:110-161 | a page exists exactly when some `.png` thumbnail exists and the page can be written, with one entry per such thumbnail in listing order |
| Screenshots.OriginalRecovered | modules/screenshots.py:143 | a thumbnail links back to its screenshot exactly when the screenshot's name does not contain `thumb_` |
| Screenshots.OriginalDropsInner | modules/screenshots.py:143 | a `thumb_` inside a screenshot's name, after any part without a `t`, is removed from its link too |
| Text.ReplaceKeepsHead | modules/screenshots.py:143 | a leading part holding no first character of the pattern passes through `replace` unchanged, and the rest is replaced on its own |
| Screenshots.GalleryCoversPng | modules/screenshots.py:114-143 | thumbnails of `.png` screenshots appear and link back to them; thumbnails of `.jpg` screenshots never appear |
| Dnsscan.QueryShape | modules/dnsscan.py:26-41 | an answered query gives its answers as text; every failure (NXDOMAIN, no answer, timeout, other DNS error) gives exactly one line starting with `[!]` |
| Dnsscan.QueryDefaultsToDomain | modules/dnsscan.py:28-29 | omitting the target queries the domain itself |
| Dnsscan.Indented | modules/dnsscan.py:60-61 | one indented line per result |
| Dnsscan.SweepOrder | modules/dnsscan.py:48-63 | the sweep writes one section per record type, `A` first and `PTR` last |
| Dnsscan.WriteSection | modules/dnsscan.py:58-63 | a section is its heading, a rule, each result indented and a blank line |
| Dnsscan.WriteResults | modules/dnsscan.py:60-61 | the results are written indented, in order |
| Dnsscan.WriteSections | modules/dnsscan.py:54-63 | the record loop appends the sections of the record types in order |
| Dnsscan.ScanRecords | modules/dnsscan.py:43-65 | the call raises exactly when `dns/records.txt` cannot be opened; otherwise the file is the heading, the rule and the sections for A, AAAA, CNAME, MX, NS, TXT, SOA, PTR |
| Dnsscan.RStripDots | modules/dnsscan.py:86 | a prefix of the name, not ending in a dot, with only dots removed |
| Dnsscan.NodeLines | modules/dnsscan.py:94-95 | one line per zone node |
| Dnsscan.Attempted | modules/dnsscan.py:81-86 | never more servers than entries |
| Dnsscan.AnyTransferExactly | modules/dnsscan.py:79-92 | a transfer succeeded exactly when some entry that is not a `[!]` line names a server that hands over its zone |
| Dnsscan.TryServer | modules/dnsscan.py:82-102 | an error entry is written as it is and not tried; another entry is tried without its trailing dots and writes the zone, or the failure |
| Dnsscan.AttemptServers | modules/dnsscan.py:79-102 | the loop writes each entry's lines in order, tries exactly the non-error entries, and succeeds exactly when one of them transfers |
| Dnsscan.ZoneTransferTest | modules/dnsscan.py:67-108 | the call raises, trying no server, exactly when `dns/zone_attempt.txt` cannot be opened; otherwise the file is the heading, each entry's lines, and "No zone transfer possible" exactly when no server transferred |
| Dnsscan.ZoneStep | modules/dnsscan.py:81-102 | one more entry appends its own lines, at most its own server, and can only turn success on |
| Dnsscan.AttemptedExactly | modules/dnsscan.py:81-86 | a server is tried exactly when some non-error entry names it, and never with a trailing dot |
| Dnsscan.NoServersNoTransfer | modules/dnsscan.py:73-105 | a failed `NS` query tries no server and reports no transfer |
| Dnsscan.Probe | modules/dnsscan.py:130-136 | the collected addresses are exactly those the probe names resolve to |
| Dnsscan.WildcardCheck | modules/dnsscan.py:125-143 | a wildcard is reported exactly when a random name resolves, listing every such address once |
| Dnsscan.Matching | modules/dnsscan.py:155-179 | exactly the records whose lower-cased text contains the keyword |
| Dnsscan.MatchingStep | modules/dnsscan.py:155-158 | one more record appends itself exactly when it matches |
| Dnsscan.MatchingEmpty | modules/dnsscan.py:160-182 | nothing matches exactly when no record contains the keyword |
| Dnsscan.Prefixed | modules/dnsscan.py:157-178 | each matching record behind the found prefix |
| Dnsscan.KeywordCheck | modules/dnsscan.py:153-182 | found exactly when some record contains the keyword case-insensitively; each match is written, else the missing line |
| Dnsscan.SpfCheck | modules/dnsscan.py:152-164 | SPF is found exactly when some `TXT` line of the domain mentions `spf` |
| Dnsscan.DmarcCheck | modules/dnsscan.py:173-185 | DMARC is decided over every line returned for `_dmarc.<domain>`, error lines included |
| Dnsscan.DmarcPublished | modules/dnsscan.py:173-179 | the intended verdict: found only when `_dmarc.<domain>` answered, and then as the source decides |
| Dnsscan.DmarcNxDomainFalsePositive | modules/dnsscan.py:173-179 | a domain with no `_dmarc` name is reported as having DMARC, while the intended verdict says it has none |
| Dnsscan.LowerKeepsInfix | modules/dnsscan.py:177 | a lower-case word inside a text is still found after lower-casing |
| Dnsscan.MisconfigLines | modules/dnsscan.py:116-182 | the layout of `dns/misconfig.txt`: the wildcard verdict at line 5, the SPF lines from line 9, the DMARC lines last |
| Dnsscan.CheckMisconfigurations | modules/dnsscan.py:110-187 | the call raises, reaching no verdict, exactly when `dns/misconfig.txt` cannot be opened; otherwise the three verdicts as above and the file's lines; on a wildcard the line is the warning followed by the distinct addresses the probes resolved to, joined with ", " in the order first seen, and otherwise it is the all-clear |
| Utils.ReadSafe | modules/utils.py:23 | a word made only of characters `shlex.quote` leaves bare is read back as it is |
| Utils.ReadQuoted | modules/utils.py:23 | the single-quoted form `shlex.quote` writes, with each `'` written as `'"'"'`, is read back as the original text |
| Utils.ShellQuoteReadsBack | modules/utils.py:23-25 | whatever characters it holds, a quoted argument is read back by the shell as exactly that argument, one word |
| Utils.QuoteAll | modules/utils.py:23 | one quoted word per argument |
| Utils.QuotedCommandWords | modules/utils.py:23 | the quoted module command is split by the shell into exactly its arguments, in order |
| Utils.WrapperCommandWords | modules/utils.py:23-25 | the wrapper starts with the module command, split into exactly its arguments, then the redirection into `tee -a` |
| Utils.WrapperLogWord | modules/utils.py:24 | right after `tee -a` the shell reads the log path as one word, followed by the done-file line |
| Utils.WrapperDoneWord | modules/utils.py:25 | the wrapper ends by writing to the done file, whose quoted path reads back as that path |
| Utils.WindowTitle | modules/utils.py:28-29 | a non-empty title is used as it is, otherwise `T-SLYTHERINS` |
| Utils.CandidatesRunWrapper | modules/utils.py:27-32 | four terminals are tried, each ending in `bash -c <wrapper>`, the first two with the window title |
| Utils.FirstTerminalSpec | modules/utils.py:34-39 | the first terminal that starts is returned; a non-`FileNotFoundError` failure escapes; nothing is started exactly when every terminal is missing |
| Utils.LaunchModuleInTerminal | modules/utils.py:12-54 | the done file is gone afterwards; the result is the first terminal that answers, or the background fallback when every one is missing |
| Utils.BackgroundRunsCommand | modules/utils.py:41-54 | the fallback starts the module command itself, only when the log opens; an empty command raises |
| Utils.WaitForDone | modules/utils.py:56-65 | the polling loop ends as `WaitOutcome` of the polls says |
| Utils.WaitOutcomeSpec | modules/utils.py:60-65 | the wait succeeds exactly when the done file appears before the timeout is seen to expire, fails exactly when it expires first, and never fails without a timeout |
| Utils.MissingTools | modules/utils.py:67-73 | never more missing tools than tools |
| Utils.MissingToolsSpec | modules/utils.py:69-73 | a tool is listed exactly when it is one of the tools and is not installed |
| Utils.CheckRequiredTools | modules/utils.py:67-73 | the loop returns the missing tools in the order given |
| Orchestrator.BaseCommand | recon_slytherins.py:24-33 | every table entry is a non-empty command whose program is the module's own name, except `snake`, which runs the virtual environment's Python |
| Orchestrator.ModuleCommandSpec | recon_slytherins.py:161-165 | the command is its table entry followed, exactly for amass, subfinder, assetfinder, httpx and katana, by the target as its single last argument |
| Orchestrator.LogFileInjective | recon_slytherins.py:35 | different modules never share a log file |
| Orchestrator.LastDot | recon_slytherins.py:109-113 | the position of the last dot, with no dot after it, or -1 when there is none |
| Orchestrator.Stem | recon_slytherins.py:109-113 | `Path.stem` is never longer than the file name |
| Orchestrator.StemOfLog | recon_slytherins.py:107-113 | the stem of a module's log file is the module's name |
| Orchestrator.TerminalLogPathSplit | recon_slytherins.py:72-79 | as written, a log path whose directory holds a blank is cut there: the shell redirects into the part before the blank |
| Orchestrator.QuotedTerminalScriptReadsBack | recon_slytherins.py:72-79 | with `shlex.quote`, bash reads the log path back as one word and the command as exactly its arguments; this covers the script bash runs, not the `--command` string around it |
| Orchestrator.CompletedCount | recon_slytherins.py:93 | never more completed modules than modules |
| Orchestrator.StatusAfterSpec | recon_slytherins.py:161-173 | after the launch loop a module is Completed exactly when its terminal started, and every other entry keeps its status |
| Orchestrator.LaunchedSpec | recon_slytherins.py:161-168 | every recorded process belongs to a launched module, carries its pid and runs its terminal command, and every started module is recorded |
| Orchestrator.LaunchStep | recon_slytherins.py:161-168 | launching one more module changes only its own status and appends at most its own process |
| Orchestrator.Runner.constructor | recon_slytherins.py:40-41 | every module starts Pending and no process is recorded |
| Orchestrator.Runner.StartModule | recon_slytherins.py:80-82 | the spawned terminal is recorded and its module marked Running |
| Orchestrator.Runner.FinishModule | recon_slytherins.py:83-84 | the module is marked Completed once its terminal exits |
| Orchestrator.Runner.OpenTerminal | recon_slytherins.py:69-84 | a terminal that starts is recorded with its command line and its module ends Completed; when `Popen` raises, nothing changes |
| Orchestrator.Runner.LaunchAll | recon_slytherins.py:153-173 | the input is stripped into the target and every module is launched in table order: the final table and process list are those of `StatusAfter` and `Launched` |
| Orchestrator.Runner.SignalHandler | recon_slytherins.py:137-145 | `terminate` is attempted on every recorded process in order (an exception from it is swallowed), and the exit status is 0 |
| Orchestrator.LaunchFromStart | recon_slytherins.py:161-173 | from the initial table a module ends Completed exactly when its terminal started and stays Pending otherwise |
| Orchestrator.ShowProgress | recon_slytherins.py:89-96 | the bar always equals the last completed count it took; every earlier sample had fewer Completed modules than there are modules, and it stops before the samples run out only at a Completed count of at least the number of modules |
| Orchestrator.AllCompleted | recon_slytherins.py:89-96 | for a status table keyed by exactly the eight modules, a Completed count of at least eight means every module is Completed, so the monitor's stopping test is reached only when all modules are done |
| Orchestrator.TakeScreenshots | recon_slytherins.py:106-115 | a placeholder screenshot and a thumbnail per log file, in table order |
| Orchestrator.ScreenshotsFeedReport | recon_slytherins.py:113-129 | the thumbnail written for a module is the file the report looks for, and two files are written per module |
| Orchestrator.ScreenshotsLength | recon_slytherins.py:106-115 | two files per log file |
| Orchestrator.ModulesPlain | recon_slytherins.py:24-33 | no module name is empty or holds a dot |
| Orchestrator.SnippetSpec | recon_slytherins.py:126 | the excerpt is the log's first 500 characters, or all of it, followed by `...` |
| Orchestrator.ItemsFail | recon_slytherins.py:124-126 | the report fails exactly when some module's log cannot be read |
| Orchestrator.ItemsStep | recon_slytherins.py:124-130 | one more module appends exactly its own item, with its image when the thumbnail exists |
| Orchestrator.GenerateHtmlReport | recon_slytherins.py:121-132 | nothing is written exactly when some log cannot be read or `report.html` cannot be written; otherwise the head, one item per module in table order, and the tail |
| Progress.Truncate | modules/progress.py:78-80 | never longer than 50 characters; a status within the limit is kept, a longer one keeps its first 47 characters and ends in `...` |
| Progress.TruncateIdempotent | modules/progress.py:78-80 | truncating an already truncated status changes nothing |
| Progress.DoneCount | modules/progress.py:63 | never more finished modules than modules |
| Progress.PctSpec | modules/progress.py:57-64 | the percentage lies in 0..100, is 0 with no modules or none finished, and with some modules is 100 exactly when none is still running |
| Progress.PercentBounds | modules/progress.py:64 | the share in percent of d out of t lies in 0..100 and is 100 exactly when d equals t |
| Progress.ActiveSpec | modules/progress.py:70 | a name is listed as active exactly when it is in the table and marked running |
| Progress.Active | modules/progress.py:70 | never more active names than names |
| Progress.SpinLineStatus | modules/progress.py:76-81 | the line shows the head, the truncated status and four blanks; the status is never longer than the limit and is the whole list when that fits |
| Progress.Spinner.constructor | modules/progress.py:13-19 | the counter is 0, the spinner is stopped and the table is empty |
| Progress.Spinner.Start | modules/progress.py:24-31 | the spinner runs afterwards, and nothing else changes |
| Progress.Spinner.Stop | modules/progress.py:33-50 | the spinner is stopped afterwards; the line is cleared only when it was running |
| Progress.Spinner.SetModuleRunning | modules/progress.py:52-55 | only the named entry changes; a new name is placed after the existing ones, as a dict keeps insertion order |
| Progress.Spinner.ProgressPct | modules/progress.py:57-64 | the percentage of the current table, with the bounds and endpoints of `PctSpec` |
| Progress.Spinner.Tick | modules/progress.py:68-83 | one pass of the loop writes the line for the current frame, percentage and active modules, and moves the frame counter on by one |
| Progress.FrameCycle | modules/progress.py:72 | ten passes bring the animation back to the same frame |
| Text.Strip | modules/subdomains.py:45 | `str.strip()`: no whitespace at either end, never longer |
| Text.StripStripped | modules/subdomains.py:45 | stripping an already stripped text changes nothing |
| Text.Lower | modules/subdomains.py:45 | `str.lower()` keeps the length |
| Text.LowerOfLower | modules/subdomains.py:45 | lower-casing lower-case text changes nothing |
| Text.Split | modules/crawl.py:118-123 | `str.split(c)` gives at least one piece and no piece holds `c` |
| Text.SplitFirst | modules/crawl.py:123 | the first piece is the text before the first `c` |
| Text.SplitSecond | modules/crawl.py:119 | when `c` occurs, the second piece is the text between the first and second `c` |
| Text.JoinSplit | modules/crawl.py:118-123 | joining the pieces with `c` gives the text back |
| Text.ReplaceAbsent | modules/screenshots.py:143 | replacing a pattern that does not occur changes nothing |
| Text.ReplaceDeletes | modules/screenshots.py:143 | deleting a pattern never lengthens the text, and shortens it by at least the pattern when it occurs |
| Text.PadRight | modules/portscan.py:132 | `{:<w}` starts with the value and is exactly the wider of the value and `w` |
| Text.PadLeft | modules/progress.py:81 | `{:>w}` ends with the value and is exactly the wider of the value and `w` |
| Common.Enumerate | modules/crawl.py:117 | iterating over a set yields each element exactly once, in an order nothing fixes |

## Left out

- Vulnscan.DetailBlocks: a severity, name, description, template id, host or matched-at value holding a line break makes one written element span several lines of the file, so the split of the section back into blocks is proved only for findings whose fields hold no line break (`Vulnscan.OneLineFields`).
- Process execution is not modelled. This covers `subprocess.run`/`Popen`, `which`, the tools' flags, `run_aquatone`, `check_tools` and the other tool-running methods. Only the success rules of `run_command`, `run_httpx` and `scan_ports`, and the launcher's fallback order, are modelled. Tool outcomes are inputs: `ProcessOutcome`, spawn results, whether a file exists.
- The virtual-environment and pip bootstrap at import time, the banner, the `input` prompt (the raw input is a parameter), `mkdir`/`os.makedirs`, every module's `main` (argument checks, exit codes) and all console printing are left out.
- `modules/snake.py` is not part of this model; it only writes an animation script and opens a terminal.
- Concurrency is left out: the launcher threads, the `tqdm` loop, the spinner's thread and lock, and every `sleep`. `Orchestrator.Runner.LaunchAll` launches the modules one after another, each finishing before the next starts. The source starts them all at once. The final status table and the set of recorded processes are the same either way, but the order in which concurrent threads append to `processes` is not captured. `Orchestrator.ShowProgress` reads a finite list of table samples in place of a one-second poll.
- DNS resolution, `socket.gethostbyname` and zone transfers are oracle functions passed in as parameters.
- ElementTree and `json` parsing are replaced by already-parsed trees and records. Each record carries a "malformed" marker.
- PIL image work (opening, thumbnailing, saving, placeholder images) is left out. Whether saving one thumbnail succeeds is an input, and only the names and counts are kept.
- `datetime.now()` in the report header is left out.
- The HTML template of `generate_html` (modules/report.py:115-192) and the writing of `report.html` are left out. As written, the template is passed to `str.format` while its CSS holds literal `{ … }` blocks, so the call raises before anything is written. Only the section contents are modelled: counts, escaping, truncation, fallbacks, placeholders and screenshot entries.
- Set iteration order is left out. Properties of the crawl sets, the wildcard addresses and the thumbnail listing are stated independently of that order, and `Common.Enumerate` fixes no order.
- `Text.Strip`, `Text.Lower`, `Text.Upper`, `Httprobe.FirstToken`: only ASCII whitespace (blank, tab, line feed, vertical tab, form feed, carriage return and the separators 0x1C to 0x1F) and ASCII letters are handled. Python's `strip()` and `split()` also treat Unicode whitespace such as U+0085 and U+00A0 as whitespace, and `lower()`/`upper()` also fold non-ASCII letters.
- `Report.Escape` covers the five characters `html.escape` rewrites (`&`, `<`, `>`, `"`, `'`) and no other part of HTML character-reference syntax.
- `Utils.ReadWord` reads only the fragment of the POSIX shell word grammar (sections 2.2.2 and 2.2.3 of the POSIX Shell Command Language) that `shlex.quote` output and plain words use. Other input reads as None.
- `Progress.Pct`: Python computes `int((completed / total) * 100)` in floating point, which can come out one lower than the exact value (29 of 100 gives 28). The model uses integer division. `Progress.PctSpec` and `Progress.Spinner.ProgressPct` therefore claim only what both share: the 0..100 range, 0 with no modules, and 100 exactly when no module is running.
- `Utils.WaitForDone` takes a finite trace of polls, each holding whether the done file existed and the elapsed seconds as a `real`, in place of `time.time()` and `time.sleep`. A trace that ends undecided reports `StillPolling`. `wait_for_done` returns as soon as the done file exists; it never reads the file's content, and neither does the model.
- `Utils.LaunchModuleInTerminal` returns a pid in place of the `Popen` object.
- `Progress.Spinner.Tick`: the clearing of the line after the loop ends and `cleanup` at exit are not modelled separately; `Stop` writes the same clear line.

## Findings

| source | as written | input that shows it | evidently intended | confidence | as-written member | corrected member |
|---|---|---|---|---|---|---|
| modules/dnsscan.py:173-179 | DMARC counts as found when any returned line mentions `dmarc`. The NXDOMAIN error line `[!] Domain _dmarc.<domain> does not exist` is one of those lines. | a domain with no `_dmarc` record, so the TXT query for `_dmarc.example.com` raises NXDOMAIN | DMARC is found only when the `_dmarc` name answers with a record that mentions DMARC | not executed | Dnsscan.DmarcNxDomainFalsePositive | Dnsscan.DmarcPublished |
| recon_slytherins.py:78 | the log path is placed after `&>` without quoting | an install directory with a blank, such as `/opt/My Tools`: the shell redirects into `/opt/My`, and the rest of the path becomes an argument of the module's command | the log path is quoted (as `modules/utils.py:24` does with `shlex.quote`), so the shell reads it as one word; the quoted script must then also be passed to `bash -c` as its own quoted word rather than inside a second pair of single quotes, since a path holding `'` would otherwise end that outer quoting | not executed | Orchestrator.TerminalLogPathSplit | Orchestrator.QuotedTerminalScriptReadsBack |

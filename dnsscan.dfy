/**
 * modules/dnsscan.py: the DNS record sweep, the zone-transfer attempt
 * against each name server, and the wildcard, SPF and DMARC checks. The
 * resolver, the zone transfer and the host lookup are oracles: functions
 * from the name asked about to what the network answered.
 */
module Dnsscan {
  import opened Common
  import opened Text

  // ---------------------------------------------------------------------
  // Queries
  // ---------------------------------------------------------------------

  /** What `resolver.resolve(target, type)` does: answers, or one of the exceptions it raises. */
  datatype Resolution =
    | Answers(rdata: seq<string>)
    | NxDomain
    | NoAnswer
    | Timeout
    | DnsError(message: string)

  /** The resolver, as an oracle over (name, record type). */
  type Resolver = (string, string) -> Resolution

  predicate IsError(line: string)
  {
    StartsWith(line, "[!]")
  }

  /**
   * `query_record(record_type, target)`: the answers as text, or a single
   * `[!]` line naming what went wrong. The target defaults to the domain.
   */
  function QueryRecord(domain: string, resolve: Resolver, recordType: string, target: Option<string>): seq<string>
  {
    var t := if target.Some? then target.value else domain;
    match resolve(t, recordType)
    case Answers(rdata) => rdata
    case NxDomain => ["[!] Domain " + t + " does not exist"]
    case NoAnswer => ["[!] No " + recordType + " records found"]
    case Timeout => ["[!] Query timeout for " + recordType]
    case DnsError(e) => ["[!] DNS error querying " + recordType + ": " + e]
  }

  /** A query that answers gives the answers; every failed query gives exactly one line, starting with `[!]`. */
  lemma QueryShape(domain: string, resolve: Resolver, recordType: string, target: Option<string>)
    ensures var res := resolve(if target.Some? then target.value else domain, recordType);
      var r := QueryRecord(domain, resolve, recordType, target);
      (res.Answers? ==> r == res.rdata) &&
      (!res.Answers? ==> |r| == 1 && IsError(r[0]))
  {
    var t := if target.Some? then target.value else domain;
    match resolve(t, recordType)
    case Answers(_) =>
    case NxDomain => StartsWithConcat("[!]", " Domain " + t + " does not exist");
    case NoAnswer => StartsWithConcat("[!]", " No " + recordType + " records found");
    case Timeout => StartsWithConcat("[!]", " Query timeout for " + recordType);
    case DnsError(e) => StartsWithConcat("[!]", " DNS error querying " + recordType + ": " + e);
  }

  /** Omitting the target asks about the domain itself. */
  lemma QueryDefaultsToDomain(domain: string, resolve: Resolver, recordType: string)
    ensures QueryRecord(domain, resolve, recordType, None) == QueryRecord(domain, resolve, recordType, Some(domain))
  {
  }

  // ---------------------------------------------------------------------
  // Record sweep
  // ---------------------------------------------------------------------

  /** `"=" * 60` and `"-" * 40`, the rules under the file and section headings. */
  const Heavy: string := "============================================================"
  const Light: string := "----------------------------------------"

  const RecordTypes: seq<string> := ["A", "AAAA", "CNAME", "MX", "NS", "TXT", "SOA", "PTR"]

  /** The block written for one record type: a heading, a rule, each result indented, a blank line. */
  function Section(recordType: string, results: seq<string>): seq<string>
  {
    [recordType + " Records:", Light] + Indented(results) + [[]]
  }

  function Indented(results: seq<string>): (r: seq<string>)
    ensures |r| == |results|
  {
    if results == [] then [] else Indented(results[..|results| - 1]) + ["  " + results[|results| - 1]]
  }

  /** `query_record(t)` for every record type `t`, about the domain. */
  function QueryFor(domain: string, resolve: Resolver): string -> seq<string>
  {
    t => QueryRecord(domain, resolve, t, None)
  }

  /** The section for one record type, with what `query` answers for it. */
  function SectionOf(query: string -> seq<string>): string -> seq<string>
  {
    t => Section(t, query(t))
  }

  /** The sections for `types`, queried and written in that order. */
  function Sections(domain: string, resolve: Resolver, types: seq<string>): seq<string>
  {
    FlatMap(types, SectionOf(QueryFor(domain, resolve)))
  }

  /** The sweep writes one section per record type, A first and PTR last, each with every result. */
  lemma SweepOrder(domain: string, resolve: Resolver)
    ensures Sections(domain, resolve, RecordTypes) ==
      Section("A", QueryRecord(domain, resolve, "A", None)) +
      Sections(domain, resolve, RecordTypes[1..7]) +
      Section("PTR", QueryRecord(domain, resolve, "PTR", None))
  {
    var f := SectionOf(QueryFor(domain, resolve));
    assert RecordTypes == ["A"] + RecordTypes[1..7] + ["PTR"];
    FlatMapConcat(["A"] + RecordTypes[1..7], ["PTR"], f);
    FlatMapConcat(["A"], RecordTypes[1..7], f);
    FlatMapSingle("A", f);
    FlatMapSingle("PTR", f);
  }

  /** The heading, the rule, the indented results and the blank line of one record type. */
  method WriteSection(lines: seq<string>, recordType: string, results: seq<string>) returns (lines': seq<string>)
    ensures lines' == lines + Section(recordType, results)
  {
    lines' := lines + [recordType + " Records:", Light];
    lines' := WriteResults(lines', results);
    lines' := lines' + [[]];
  }

  /** The lines one section adds: each result indented, in order. */
  method WriteResults(lines: seq<string>, results: seq<string>) returns (lines': seq<string>)
    ensures lines' == lines + Indented(results)
  {
    lines' := lines;
    var i := 0;
    while i < |results|
      invariant 0 <= i <= |results|
      invariant lines' == lines + Indented(results[..i])
    {
      lines' := lines' + ["  " + results[i]];
      assert results[..i + 1][..i] == results[..i];
      i := i + 1;
    }
    assert results[..i] == results;
  }

  /**
   * `scan_records`: the lines of `dns/records.txt`. `writable` says whether
   * the file can be opened for writing; when it cannot, the exception
   * escapes before any record is queried.
   */
  method ScanRecords(domain: string, resolve: Resolver, writable: bool) returns (lines: Raising<seq<string>>)
    ensures lines.OpenFailed? <==> !writable
    ensures writable ==> lines.value == ["DNS RECORDS FOR: " + domain, Heavy, []] + Sections(domain, resolve, RecordTypes)
  {
    if !writable {
      return OpenFailed;
    }
    var written := ["DNS RECORDS FOR: " + domain, Heavy, []];
    written := WriteSections(QueryFor(domain, resolve), written, RecordTypes);
    lines := Returned(written);
  }

  /** The record loop of `scan_records` over `recordTypes`, appending to `lines`. */
  method WriteSections(query: string -> seq<string>, lines: seq<string>, recordTypes: seq<string>)
    returns (lines': seq<string>)
    ensures lines' == lines + FlatMap(recordTypes, SectionOf(query))
  {
    lines' := lines;
    var k := 0;
    while k < |recordTypes|
      invariant 0 <= k <= |recordTypes|
      invariant lines' == lines + FlatMap(recordTypes[..k], SectionOf(query))
    {
      var recordType := recordTypes[k];
      var results := query(recordType);
      lines' := WriteSection(lines', recordType, results);
      FlatMapStep(recordTypes, k, SectionOf(query));
      k := k + 1;
    }
    assert recordTypes[..k] == recordTypes;
  }

  // ---------------------------------------------------------------------
  // Zone transfer
  // ---------------------------------------------------------------------

  /** What `dns.zone.from_xfr(dns.query.xfr(ns, domain))` does: a zone's (name, text) entries, or an exception. */
  datatype Transfer =
    | Zone(nodes: seq<(string, string)>)
    | FormError
    | TransferFailed(message: string)

  /** `s.rstrip('.')`. */
  function RStripDots(s: string): (r: string)
    ensures StartsWith(s, r)
    ensures r == [] || r[|r| - 1] != '.'
    ensures forall i :: |r| <= i < |s| ==> s[i] == '.'
  {
    if s != [] && s[|s| - 1] == '.' then RStripDots(s[..|s| - 1]) else s
  }

  /** The lines written for one name-server entry. */
  function ServerLines(domain: string, transfer: (string, string) -> Transfer, entry: string): seq<string>
  {
    if IsError(entry) then [entry]
    else
      var ns := RStripDots(entry);
      match transfer(ns, domain)
      case Zone(nodes) => ["[!] Zone transfer successful from " + ns + "!"] + NodeLines(nodes) + [[]]
      case FormError => ["[!] Zone transfer failed (FormError) from " + ns]
      case TransferFailed(e) => ["[!] Zone transfer failed from " + ns + ": " + e]
  }

  function NodeLines(nodes: seq<(string, string)>): (r: seq<string>)
    ensures |r| == |nodes|
  {
    if nodes == [] then [] else NodeLines(nodes[..|nodes| - 1]) + ["  " + nodes[|nodes| - 1].0 + ": " + nodes[|nodes| - 1].1]
  }

  function ZoneLines(domain: string, transfer: (string, string) -> Transfer, entries: seq<string>): seq<string>
  {
    if entries == [] then []
    else ZoneLines(domain, transfer, entries[..|entries| - 1]) + ServerLines(domain, transfer, entries[|entries| - 1])
  }

  /** The servers a transfer is attempted from: every entry that is not a `[!]` line, trailing dots removed. */
  function Attempted(entries: seq<string>): (r: seq<string>)
    ensures |r| <= |entries|
  {
    if entries == [] then []
    else
      var e := entries[|entries| - 1];
      Attempted(entries[..|entries| - 1]) + (if IsError(e) then [] else [RStripDots(e)])
  }

  /** Some attempted server hands over its zone. */
  predicate AnyTransfer(domain: string, transfer: (string, string) -> Transfer, entries: seq<string>)
  {
    if entries == [] then false
    else
      var e := entries[|entries| - 1];
      AnyTransfer(domain, transfer, entries[..|entries| - 1]) || (!IsError(e) && transfer(RStripDots(e), domain).Zone?)
  }

  /** A transfer succeeded exactly when some entry that is not a `[!]` line names a server that hands over its zone. */
  lemma {:induction false} AnyTransferExactly(domain: string, transfer: (string, string) -> Transfer, entries: seq<string>)
    ensures AnyTransfer(domain, transfer, entries) <==>
      exists i :: 0 <= i < |entries| && !IsError(entries[i]) && transfer(RStripDots(entries[i]), domain).Zone?
  {
    if entries != [] {
      var init := entries[..|entries| - 1];
      AnyTransferExactly(domain, transfer, init);
      if AnyTransfer(domain, transfer, init) {
        var i :| 0 <= i < |init| && !IsError(init[i]) && transfer(RStripDots(init[i]), domain).Zone?;
        assert entries[i] == init[i];
      }
      if exists i :: 0 <= i < |entries| && !IsError(entries[i]) && transfer(RStripDots(entries[i]), domain).Zone? {
        var i :| 0 <= i < |entries| && !IsError(entries[i]) && transfer(RStripDots(entries[i]), domain).Zone?;
        if i < |init| {
          assert init[i] == entries[i];
        }
      }
    }
  }

  /** The loop body of `zone_transfer_test` for one name-server entry. */
  method TryServer(domain: string, transfer: (string, string) -> Transfer, entry: string)
    returns (lines: seq<string>, attempted: seq<string>, transferred: bool)
    ensures lines == ServerLines(domain, transfer, entry)
    ensures attempted == if IsError(entry) then [] else [RStripDots(entry)]
    ensures transferred <==> !IsError(entry) && transfer(RStripDots(entry), domain).Zone?
  {
    if StartsWith(entry, "[!]") {
      return [entry], [], false;
    }
    var ns := RStripDots(entry);
    attempted := [ns];
    transferred := false;
    match transfer(ns, domain) {
      case Zone(nodes) =>
        transferred := true;
        lines := ["[!] Zone transfer successful from " + ns + "!"] + NodeLines(nodes) + [[]];
      case FormError =>
        lines := ["[!] Zone transfer failed (FormError) from " + ns];
      case TransferFailed(e) =>
        lines := ["[!] Zone transfer failed from " + ns + ": " + e];
    }
  }

  /** The loop of `zone_transfer_test` over the entries the `NS` query returned. */
  method AttemptServers(domain: string, transfer: (string, string) -> Transfer, nsRecords: seq<string>)
    returns (lines: seq<string>, tried: seq<string>, success: bool)
    ensures lines == ZoneLines(domain, transfer, nsRecords)
    ensures tried == Attempted(nsRecords)
    ensures success <==> AnyTransfer(domain, transfer, nsRecords)
  {
    lines, tried, success := [], [], false;
    var i := 0;
    while i < |nsRecords|
      invariant 0 <= i <= |nsRecords|
      invariant lines == ZoneLines(domain, transfer, nsRecords[..i])
      invariant tried == Attempted(nsRecords[..i])
      invariant success <==> AnyTransfer(domain, transfer, nsRecords[..i])
    {
      var out, attempted, transferred := TryServer(domain, transfer, nsRecords[i]);
      lines := lines + out;
      tried := tried + attempted;
      success := success || transferred;
      ZoneStep(domain, transfer, nsRecords, i);
      i := i + 1;
    }
    assert nsRecords[..i] == nsRecords;
  }

  /**
   * `zone_transfer_test`: the lines of `dns/zone_attempt.txt` and the
   * servers tried, in the order the `NS` query returned them. `writable`
   * says whether the file can be opened for writing; when it cannot, the
   * exception escapes before any server is tried.
   */
  method ZoneTransferTest(domain: string, resolve: Resolver, transfer: (string, string) -> Transfer, writable: bool)
    returns (lines: Raising<seq<string>>, tried: seq<string>, success: bool)
    ensures lines.OpenFailed? <==> !writable
    ensures !writable ==> tried == [] && !success
    ensures writable ==>
      var entries := QueryRecord(domain, resolve, "NS", None);
      tried == Attempted(entries) &&
      (success <==> AnyTransfer(domain, transfer, entries)) &&
      lines.value == ["ZONE TRANSFER ATTEMPT FOR: " + domain, Heavy, []] +
                     ZoneLines(domain, transfer, entries) +
                     (if success then [] else ["[\U{2713}] No zone transfer possible"])
  {
    var nsRecords := QueryRecord(domain, resolve, "NS", None);
    if !writable {
      return OpenFailed, [], false;
    }
    var body;
    body, tried, success := AttemptServers(domain, transfer, nsRecords);
    var written := ["ZONE TRANSFER ATTEMPT FOR: " + domain, Heavy, []] + body;
    if !success {
      written := written + ["[\U{2713}] No zone transfer possible"];
    }
    lines := Returned(written);
  }

  lemma ZoneStep(domain: string, transfer: (string, string) -> Transfer, entries: seq<string>, i: nat)
    requires i < |entries|
    ensures ZoneLines(domain, transfer, entries[..i + 1]) ==
      ZoneLines(domain, transfer, entries[..i]) + ServerLines(domain, transfer, entries[i])
    ensures Attempted(entries[..i + 1]) ==
      Attempted(entries[..i]) + (if IsError(entries[i]) then [] else [RStripDots(entries[i])])
    ensures AnyTransfer(domain, transfer, entries[..i + 1]) <==>
      AnyTransfer(domain, transfer, entries[..i]) ||
      (!IsError(entries[i]) && transfer(RStripDots(entries[i]), domain).Zone?)
  {
    assert entries[..i + 1][..i] == entries[..i];
  }

  /**
   * `[!]` entries are never attempted and every other entry is, without its
   * trailing dots; a failed `NS` query attempts nothing and reports that no
   * transfer is possible.
   */
  lemma {:induction false} AttemptedExactly(entries: seq<string>)
    ensures forall s :: s in Attempted(entries) <==> exists e :: e in entries && !IsError(e) && s == RStripDots(e)
    ensures forall s :: s in Attempted(entries) ==> s == [] || s[|s| - 1] != '.'
  {
    if entries != [] {
      var init := entries[..|entries| - 1];
      AttemptedExactly(init);
      var e := entries[|entries| - 1];
      forall s | s in Attempted(entries)
        ensures exists x :: x in entries && !IsError(x) && s == RStripDots(x)
      {
        if s in Attempted(init) {
          var x :| x in init && !IsError(x) && s == RStripDots(x);
          assert x in entries;
        } else {
          assert e in entries;
        }
      }
      forall s | exists x :: x in entries && !IsError(x) && s == RStripDots(x)
        ensures s in Attempted(entries)
      {
        var x :| x in entries && !IsError(x) && s == RStripDots(x);
        if x != e {
          assert x in init by {
            var k :| 0 <= k < |entries| && entries[k] == x;
            assert k < |entries| - 1;
            assert init[k] == x;
          }
        }
      }
    }
  }

  lemma NoServersNoTransfer(domain: string, resolve: Resolver, transfer: (string, string) -> Transfer)
    requires !resolve(domain, "NS").Answers?
    ensures Attempted(QueryRecord(domain, resolve, "NS", None)) == []
    ensures !AnyTransfer(domain, transfer, QueryRecord(domain, resolve, "NS", None))
  {
    var entries := QueryRecord(domain, resolve, "NS", None);
    QueryShape(domain, resolve, "NS", None);
    assert entries == [entries[0]];
    assert entries[..0] == [];
  }

  // ---------------------------------------------------------------------
  // Misconfiguration checks
  // ---------------------------------------------------------------------

  /** The two names that exist only under a wildcard record. */
  function WildcardProbes(domain: string): seq<string>
  {
    ["wildcardtest123456789." + domain, "nonexistent987654321." + domain]
  }

  /** At least one probe name resolved. */
  predicate AnyResolves(domain: string, lookup: string -> Option<string>)
  {
    lookup(WildcardProbes(domain)[0]).Some? || lookup(WildcardProbes(domain)[1]).Some?
  }

  /**
   * The wildcard part of `check_misconfigurations`. `lookup(name)` is
   * `socket.gethostbyname(name)`, `None` where it raises `gaierror`. The
   * collected addresses are a set; `listed` is the order the set yields
   * them in, which the source does not fix.
   */
  method WildcardCheck(domain: string, lookup: string -> Option<string>)
    returns (ips: set<string>, listed: seq<string>, line: string)
    ensures forall ip :: ip in ips <==> exists p :: p in WildcardProbes(domain) && lookup(p) == Some(ip)
    ensures ips != {} <==> AnyResolves(domain, lookup)
    ensures |listed| == |ips| && forall ip :: ip in listed <==> ip in ips
    ensures forall i, j :: 0 <= i < j < |listed| ==> listed[i] != listed[j]
    ensures line == if ips != {} then "[!] Wildcard DNS detected: " + Join(listed, ", ")
                    else "[\U{2713}] No wildcard DNS detected"
  {
    var probes := WildcardProbes(domain);
    ips := Probe(probes, lookup);
    if lookup(probes[0]).Some? {
      assert lookup(probes[0]).value in ips;
    }
    if lookup(probes[1]).Some? {
      assert lookup(probes[1]).value in ips;
    }
    listed := Enumerate(ips);
    if ips != {} {
      line := "[!] Wildcard DNS detected: " + Join(listed, ", ");
    } else {
      line := "[\U{2713}] No wildcard DNS detected";
    }
  }

  /** The addresses the names in `probes` resolve to, as a set. */
  method Probe(probes: seq<string>, lookup: string -> Option<string>) returns (ips: set<string>)
    ensures forall ip :: ip in ips <==> exists j :: 0 <= j < |probes| && lookup(probes[j]) == Some(ip)
  {
    ips := {};
    var k := 0;
    while k < |probes|
      invariant 0 <= k <= |probes|
      invariant forall ip :: ip in ips <==> exists j :: 0 <= j < k && lookup(probes[j]) == Some(ip)
    {
      var result := lookup(probes[k]);
      if result.Some? {
        ips := ips + {result.value};
      }
      k := k + 1;
    }
  }

  /** The records whose lower-cased text contains `keyword`, in order. */
  function Matching(records: seq<string>, keyword: string): (r: seq<string>)
    ensures forall x :: x in r <==> x in records && Contains(Lower(x), keyword)
  {
    if records == [] then []
    else
      var x := records[|records| - 1];
      Matching(records[..|records| - 1], keyword) + (if Contains(Lower(x), keyword) then [x] else [])
  }

  lemma MatchingStep(records: seq<string>, i: int, keyword: string, prefix: string)
    requires 0 <= i < |records|
    ensures var x := records[i];
      && Matching(records[..i + 1], keyword) ==
         Matching(records[..i], keyword) + (if Contains(Lower(x), keyword) then [x] else [])
      && Prefixed(prefix, Matching(records[..i + 1], keyword)) ==
         Prefixed(prefix, Matching(records[..i], keyword)) + (if Contains(Lower(x), keyword) then [prefix + x] else [])
  {
    assert records[..i + 1][..i] == records[..i];
    var m := Matching(records[..i], keyword);
    assert (m + [records[i]])[..|m|] == m;
  }

  /** No record matches exactly when no record contains the keyword. */
  lemma MatchingEmpty(records: seq<string>, keyword: string)
    ensures Matching(records, keyword) == [] <==> !exists i :: 0 <= i < |records| && Contains(Lower(records[i]), keyword)
  {
    if Matching(records, keyword) != [] {
      assert Matching(records, keyword)[0] in records;
    } else {
      forall k | 0 <= k < |records| ensures !Contains(Lower(records[k]), keyword) {
        assert records[k] !in Matching(records, keyword);
      }
    }
  }

  function Prefixed(prefix: string, records: seq<string>): (r: seq<string>)
    ensures |r| == |records|
    ensures forall i :: 0 <= i < |r| ==> r[i] == prefix + records[i]
  {
    if records == [] then [] else Prefixed(prefix, records[..|records| - 1]) + [prefix + records[|records| - 1]]
  }

  /** The lines a keyword check writes: each matching record behind `foundPrefix`, else `missingLine`. */
  function KeywordLines(records: seq<string>, keyword: string, foundPrefix: string, missingLine: string): seq<string>
  {
    var m := Matching(records, keyword);
    Prefixed(foundPrefix, m) + (if m == [] then [missingLine] else [])
  }

  /**
   * The loop shared by the SPF and DMARC checks: each record containing
   * `keyword` case-insensitively is written behind `foundPrefix`, and
   * `missingLine` is written when there was none.
   */
  method KeywordCheck(records: seq<string>, keyword: string, foundPrefix: string, missingLine: string)
    returns (lines: seq<string>, found: bool)
    ensures found <==> exists i :: 0 <= i < |records| && Contains(Lower(records[i]), keyword)
    ensures found <==> Matching(records, keyword) != []
    ensures lines == KeywordLines(records, keyword, foundPrefix, missingLine)
  {
    lines := [];
    found := false;
    var i := 0;
    while i < |records|
      invariant 0 <= i <= |records|
      invariant lines == Prefixed(foundPrefix, Matching(records[..i], keyword))
      invariant found <==> Matching(records[..i], keyword) != []
    {
      var record := records[i];
      MatchingStep(records, i, keyword, foundPrefix);
      if Contains(Lower(record), keyword) {
        lines := lines + [foundPrefix + record];
        found := true;
      }
      i := i + 1;
    }
    assert records[..i] == records;
    MatchingEmpty(records, keyword);
    if !found {
      lines := lines + [missingLine];
    }
  }

  function SpfLines(domain: string, resolve: Resolver): seq<string>
  {
    KeywordLines(QueryRecord(domain, resolve, "TXT", None), "spf",
      "[\U{2713}] SPF record found: ", "[!] No SPF record found (email security risk)")
  }

  function DmarcLines(domain: string, resolve: Resolver): seq<string>
  {
    KeywordLines(QueryRecord(domain, resolve, "TXT", Some("_dmarc." + domain)), "dmarc",
      "[\U{2713}] DMARC record found: ", "[!] No DMARC record found")
  }

  /** The SPF part: over the `TXT` answers for the domain. */
  method SpfCheck(domain: string, resolve: Resolver) returns (lines: seq<string>, found: bool)
    ensures var txt := QueryRecord(domain, resolve, "TXT", None);
      (found <==> exists i :: 0 <= i < |txt| && Contains(Lower(txt[i]), "spf")) &&
      (found <==> Matching(txt, "spf") != []) &&
      lines == SpfLines(domain, resolve)
  {
    var txtRecords := QueryRecord(domain, resolve, "TXT", None);
    lines, found := KeywordCheck(txtRecords, "spf", "[\U{2713}] SPF record found: ", "[!] No SPF record found (email security risk)");
  }

  /** DMARC as the source decides it: over every line `query_record` returns for `_dmarc.<domain>`. */
  function DmarcFound(domain: string, resolve: Resolver): bool
  {
    var records := QueryRecord(domain, resolve, "TXT", Some("_dmarc." + domain));
    exists i :: 0 <= i < |records| && Contains(Lower(records[i]), "dmarc")
  }

  /** The DMARC part: over the lines returned for `_dmarc.<domain>`, error lines included. */
  method DmarcCheck(domain: string, resolve: Resolver) returns (lines: seq<string>, found: bool)
    ensures found == DmarcFound(domain, resolve)
    ensures lines == DmarcLines(domain, resolve)
  {
    var dmarcRecords := QueryRecord(domain, resolve, "TXT", Some("_dmarc." + domain));
    lines, found := KeywordCheck(dmarcRecords, "dmarc", "[\U{2713}] DMARC record found: ", "[!] No DMARC record found");
  }

  /**
   * The DMARC verdict the check evidently intends: found only when the
   * `_dmarc` name actually answered with a record that mentions DMARC.
   */
  function DmarcPublished(domain: string, resolve: Resolver): (found: bool)
    ensures found ==> resolve("_dmarc." + domain, "TXT").Answers?
    ensures resolve("_dmarc." + domain, "TXT").Answers? ==> found == DmarcFound(domain, resolve)
  {
    match resolve("_dmarc." + domain, "TXT")
    case Answers(rdata) => exists i :: 0 <= i < |rdata| && Contains(Lower(rdata[i]), "dmarc")
    case _ => false
  }

  /**
   * As written, a domain with no `_dmarc` name at all is reported as having
   * DMARC: the NXDOMAIN message names `_dmarc.<domain>`, which contains
   * `dmarc`. The intended verdict says it has none.
   */
  lemma DmarcNxDomainFalsePositive(domain: string, resolve: Resolver)
    requires resolve("_dmarc." + domain, "TXT") == NxDomain
    ensures DmarcFound(domain, resolve)
    ensures !DmarcPublished(domain, resolve)
  {
    var t := "_dmarc." + domain;
    var line := "[!] Domain " + t + " does not exist";
    assert QueryRecord(domain, resolve, "TXT", Some(t)) == [line];
    assert line == "[!] Domain _" + "dmarc" + ("." + domain + " does not exist");
    LowerKeepsInfix("[!] Domain _", "dmarc", "." + domain + " does not exist");
    assert Contains(Lower(QueryRecord(domain, resolve, "TXT", Some(t))[0]), "dmarc");
  }

  /** Lower-casing a text keeps a lower-case infix in place. */
  lemma LowerKeepsInfix(a: string, sub: string, b: string)
    requires IsLower(sub)
    ensures Contains(Lower(a + sub + b), sub)
  {
    var s := a + sub + b;
    assert Lower(s)[|a|..|a| + |sub|] == sub by {
      forall k | 0 <= k < |sub| ensures Lower(s)[|a| + k] == sub[k] {
        LowerAt(s, |a| + k);
        assert s[|a| + k] == sub[k];
      }
    }
    assert OccursAt(Lower(s), sub, |a|);
  }

  /** The layout of `dns/misconfig.txt` around its three checks. */
  function MisconfigLines(domain: string, wildcardLine: string, spf: seq<string>, dmarc: seq<string>): (r: seq<string>)
    ensures |r| == 12 + |spf| + |dmarc|
    ensures r[5] == wildcardLine
    ensures r[9..9 + |spf|] == spf && r[12 + |spf|..] == dmarc
  {
    ["DNS MISCONFIGURATION CHECK FOR: " + domain, Heavy, [],
     "Wildcard DNS Check:", Light, wildcardLine, [],
     "SPF Record Check:", Light] + spf + [[], "DMARC Check:", Light] + dmarc
  }

  /**
   * `check_misconfigurations`: the lines of `dns/misconfig.txt`, with the
   * wildcard verdict line as `wildcardLine`. `writable` says whether the
   * file can be opened for writing; when it cannot, the exception escapes
   * before any check runs, and no verdict is reached.
   */
  method CheckMisconfigurations(domain: string, resolve: Resolver, lookup: string -> Option<string>, writable: bool)
    returns (lines: Raising<seq<string>>, wildcardLine: string, listed: seq<string>,
             wildcard: bool, spfFound: bool, dmarcFound: bool)
    ensures lines.OpenFailed? <==> !writable
    ensures !writable ==> wildcardLine == [] && listed == [] && !wildcard && !spfFound && !dmarcFound
    ensures writable ==> (wildcard <==> AnyResolves(domain, lookup))
    ensures forall ip :: ip in listed <==> writable && exists p :: p in WildcardProbes(domain) && lookup(p) == Some(ip)
    ensures forall i, j :: 0 <= i < j < |listed| ==> listed[i] != listed[j]
    ensures wildcard ==> wildcardLine == "[!] Wildcard DNS detected: " + Join(listed, ", ")
    ensures writable ==> (spfFound <==> Matching(QueryRecord(domain, resolve, "TXT", None), "spf") != [])
    ensures writable ==> dmarcFound == DmarcFound(domain, resolve)
    ensures writable ==> lines.value == MisconfigLines(domain, wildcardLine, SpfLines(domain, resolve), DmarcLines(domain, resolve))
    ensures wildcard ==> StartsWith(wildcardLine, "[!] Wildcard DNS detected: ")
    ensures writable && !wildcard ==> wildcardLine == "[\U{2713}] No wildcard DNS detected"
  {
    if !writable {
      return OpenFailed, [], [], false, false, false;
    }
    var ips;
    ips, listed, wildcardLine := WildcardCheck(domain, lookup);
    wildcard := ips != {};
    if wildcard {
      StartsWithConcat("[!] Wildcard DNS detected: ", Join(listed, ", "));
    }
    var spfLines;
    spfLines, spfFound := SpfCheck(domain, resolve);
    var dmarcLines;
    dmarcLines, dmarcFound := DmarcCheck(domain, resolve);
    lines := Returned(MisconfigLines(domain, wildcardLine, spfLines, dmarcLines));
  }
}

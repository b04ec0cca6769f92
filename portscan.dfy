/**
 * modules/portscan.py: the scanner run's success rule and its text output,
 * and the summary drawn from the scanner's XML report: per host its
 * address and its open ports, with defaults for missing service data.
 * The XML document is given already parsed, as a tree of hosts and ports.
 */
module Portscan {
  import opened Common
  import opened Text

  // ---------------------------------------------------------------------
  // The scan
  // ---------------------------------------------------------------------

  /** What `scan_ports` reports and what it leaves in `nmap.txt`. */
  datatype ScanResult = ScanResult(ok: bool, nmapTxt: Option<string>)

  /**
   * `scan_ports`: the captured stdout, then the stderr under an "Errors:"
   * heading when there is any, is saved (`writeOk` says whether `nmap.txt`
   * can be written); success is exit code 0 with the text saved.
   */
  function ScanPorts(outcome: ProcessOutcome, writeOk: bool): (r: ScanResult)
    ensures r.ok <==> outcome.Succeeded() && writeOk
    ensures r.nmapTxt.Some? <==> outcome.Exited? && writeOk
    ensures r.nmapTxt.Some? ==> StartsWith(r.nmapTxt.value, outcome.stdout)
    ensures r.nmapTxt.Some? && outcome.stderr == "" ==> r.nmapTxt.value == outcome.stdout
  {
    match outcome
    case Exited(code, stdout, stderr) =>
      if !writeOk then ScanResult(false, None)
      else
        var text := stdout + (if stderr != "" then "\n\nErrors:\n" + stderr else "");
        assert text[..|stdout|] == stdout;
        ScanResult(code == 0, Some(text))
    case TimedOut => ScanResult(false, None)
    case Raised => ScanResult(false, None)
  }

  // ---------------------------------------------------------------------
  // The parsed report
  // ---------------------------------------------------------------------

  /** A `service` element's attributes. */
  datatype Service = Service(name: Option<string>, product: Option<string>, version: Option<string>)

  /**
   * A `port` element: its `portid` and `protocol` attributes, the `state`
   * attribute of its `state` child (None when the child or the attribute is
   * missing) and its `service` child.
   */
  datatype Port = Port(portid: Option<string>, protocol: Option<string>, state: Option<string>,
                       service: Option<Service>)

  /** A host's `address` element: missing, or present with or without `addr`. */
  datatype Address = NoAddress | Address(addr: Option<string>)

  /** A `host` element: its address and its `ports` child (None when missing). */
  datatype Host = Host(address: Address, ports: Option<seq<Port>>)

  /** `nmap.xml`: missing, not well-formed, or parsed into its hosts. */
  datatype NmapXml = XmlMissing | XmlMalformed | XmlParsed(hosts: seq<Host>)

  /** One entry of `open_ports`. */
  datatype PortInfo = PortInfo(port: Option<string>, protocol: Option<string>, service: string,
                               product: string, version: string)

  predicate IsOpen(p: Port)
  {
    p.state == Some("open")
  }

  /** The entry for an open port; without a service child, "unknown" and empty strings. */
  function InfoOf(p: Port): (info: PortInfo)
    ensures info.port == p.portid && info.protocol == p.protocol
    ensures p.service.None? ==> info.service == "unknown" && info.product == "" && info.version == ""
    ensures p.service.Some? && p.service.value.name.None? ==> info.service == "unknown"
    ensures p.service.Some? ==>
      info.service == p.service.value.name.GetOr("unknown") &&
      info.product == p.service.value.product.GetOr("") &&
      info.version == p.service.value.version.GetOr("")
  {
    match p.service
    case None => PortInfo(p.portid, p.protocol, "unknown", "", "")
    case Some(s) => PortInfo(p.portid, p.protocol, s.name.GetOr("unknown"), s.product.GetOr(""), s.version.GetOr(""))
  }

  /** `open_ports` for a host's port list: the open ones, in document order. */
  function OpenPorts(ports: seq<Port>): seq<PortInfo>
  {
    if ports == [] then []
    else OpenPorts(ports[..|ports| - 1]) + (if IsOpen(ports[|ports| - 1]) then [InfoOf(ports[|ports| - 1])] else [])
  }

  /** The text after "Host: ": the `addr` value, "None" when the attribute is missing, "unknown" without the element. */
  function AddressText(a: Address): (t: string)
    ensures a.NoAddress? ==> t == "unknown"
    ensures a.Address? && a.addr.Some? ==> t == a.addr.value
  {
    match a
    case NoAddress => "unknown"
    case Address(addr) => addr.GetOr("None")
  }

  /** The version column: product and version joined by a space, then stripped. */
  function VersionColumn(info: PortInfo): (v: string)
    ensures Stripped(v) && |v| <= |info.product| + 1 + |info.version|
  {
    Strip(info.product + " " + info.version)
  }

  /**
   * One table row; None when the port or protocol attribute is missing,
   * because formatting a missing attribute to a width raises.
   */
  function Row(info: PortInfo): (row: Option<string>)
    ensures row.Some? <==> info.port.Some? && info.protocol.Some?
    ensures row.Some? ==> StartsWith(row.value, PadRight(info.port.value, 8))
  {
    if info.port.None? || info.protocol.None? then None
    else
      var head := PadRight(info.port.value, 8);
      var r := head + " " + PadRight(info.protocol.value, 10) + " " + PadRight(info.service, 15) + " " + VersionColumn(info);
      assert r[..|head|] == head;
      Some(r)
  }

  function Ruler(c: char): string
  {
    Repeat(c, 60)
  }

  const TableHeader: string :=
    PadRight("PORT", 8) + " " + PadRight("PROTOCOL", 10) + " " + PadRight("SERVICE", 15) + " " + "VERSION"

  /** Lines written so far, and whether writing stopped on an exception. */
  datatype Block = Block(lines: seq<string>, raised: bool)

  /** The rows for `infos`, stopping at the first one that cannot be formatted. */
  function Rows(infos: seq<PortInfo>): Block
  {
    if infos == [] then Block([], false)
    else
      var b := Rows(infos[..|infos| - 1]);
      if b.raised then b
      else match Row(infos[|infos| - 1])
        case Some(r) => Block(b.lines + [r], false)
        case None => Block(b.lines, true)
  }

  /** The lines written for one host. */
  function HostBlock(h: Host): Block
  {
    var head := ["Host: " + AddressText(h.address), Ruler('-')];
    match h.ports
    case None => Block(head, false)
    case Some(ps) =>
      var open := OpenPorts(ps);
      if open == [] then Block(head + ["No open ports found", ""], false)
      else
        var rows := Rows(open);
        var pre := head + ["Open Ports: " + NatToString(|open|), "", TableHeader, Ruler('-')];
        if rows.raised then Block(pre + rows.lines, true) else Block(pre + rows.lines + [""], false)
  }

  /** The lines written for `hosts`, stopping where an exception is raised. */
  function HostBlocks(hosts: seq<Host>): Block
  {
    if hosts == [] then Block([], false)
    else
      var b := HostBlocks(hosts[..|hosts| - 1]);
      if b.raised then b
      else
        var hb := HostBlock(hosts[|hosts| - 1]);
        Block(b.lines + hb.lines, hb.raised)
  }

  function SummaryHeader(domain: string): seq<string>
  {
    ["PORT SCAN SUMMARY FOR: " + domain, Ruler('='), ""]
  }

  /** Collects the open ports of one port list. */
  method CollectOpenPorts(ports: seq<Port>) returns (openPorts: seq<PortInfo>)
    ensures openPorts == OpenPorts(ports)
  {
    openPorts := [];
    var j := 0;
    while j < |ports|
      invariant 0 <= j <= |ports|
      invariant openPorts == OpenPorts(ports[..j])
    {
      var port := ports[j];
      if port.state.Some? && port.state.value == "open" {
        var serviceName := "unknown";
        var serviceProduct := "";
        var serviceVersion := "";
        if port.service.Some? {
          serviceName := port.service.value.name.GetOr("unknown");
          serviceProduct := port.service.value.product.GetOr("");
          serviceVersion := port.service.value.version.GetOr("");
        }
        openPorts := openPorts + [PortInfo(port.portid, port.protocol, serviceName, serviceProduct, serviceVersion)];
      }
      assert ports[..j + 1][..j] == ports[..j];
      j := j + 1;
    }
    assert ports[..j] == ports;
  }

  /** Writes the rows for `infos` one by one, stopping at the first that raises. */
  method WriteRows(infos: seq<PortInfo>) returns (block: Block)
    ensures block == Rows(infos)
  {
    var lines: seq<string> := [];
    var k := 0;
    while k < |infos|
      invariant 0 <= k <= |infos|
      invariant Rows(infos[..k]) == Block(lines, false)
    {
      assert infos[..k + 1][..k] == infos[..k];
      var p := infos[k];
      if p.port.None? || p.protocol.None? {
        RowsStop(infos, k + 1);
        return Block(lines, true);
      }
      var versionStr := Strip(p.product + " " + p.version);
      lines := lines + [PadRight(p.port.value, 8) + " " + PadRight(p.protocol.value, 10) + " " +
                        PadRight(p.service, 15) + " " + versionStr];
      k := k + 1;
    }
    assert infos[..k] == infos;
    block := Block(lines, false);
  }

  /** Once a row raises, later rows change nothing. */
  lemma {:induction false} RowsStop(infos: seq<PortInfo>, k: nat)
    requires 0 < k <= |infos| && Rows(infos[..k]).raised
    ensures Rows(infos) == Rows(infos[..k])
    decreases |infos| - k
  {
    if k < |infos| {
      assert infos[..|infos| - 1][..k] == infos[..k];
      RowsStop(infos[..|infos| - 1], k);
    } else {
      assert infos[..k] == infos;
    }
  }

  /** Once a host raises, later hosts change nothing. */
  lemma {:induction false} HostBlocksStop(hosts: seq<Host>, k: nat)
    requires 0 < k <= |hosts| && HostBlocks(hosts[..k]).raised
    ensures HostBlocks(hosts) == HostBlocks(hosts[..k])
    decreases |hosts| - k
  {
    if k < |hosts| {
      assert hosts[..|hosts| - 1][..k] == hosts[..k];
      HostBlocksStop(hosts[..|hosts| - 1], k);
    } else {
      assert hosts[..k] == hosts;
    }
  }

  /** Writes the lines for one host. */
  method WriteHost(h: Host) returns (block: Block)
    ensures block == HostBlock(h)
  {
    var addr := AddressText(h.address);
    var lines := ["Host: " + addr, Ruler('-')];
    if h.ports.None? {
      return Block(lines, false);
    }
    var openPorts := CollectOpenPorts(h.ports.value);
    if openPorts != [] {
      lines := lines + ["Open Ports: " + NatToString(|openPorts|), "", TableHeader, Ruler('-')];
      var rows := WriteRows(openPorts);
      if rows.raised {
        return Block(lines + rows.lines, true);
      }
      lines := lines + rows.lines + [""];
    } else {
      lines := lines + ["No open ports found", ""];
    }
    block := Block(lines, false);
  }

  /**
   * `parse_nmap_xml`: nothing is written when `nmap.xml` is missing or does
   * not parse, or when `port_summary.txt` cannot be opened (`summaryOk`);
   * otherwise the header and each host's block, in document order, up to
   * the point where formatting a row raises.
   */
  method ParseNmapXml(domain: string, xml: NmapXml, summaryOk: bool) returns (written: Option<seq<string>>)
    ensures written.Some? <==> xml.XmlParsed? && summaryOk
    ensures written.Some? ==> written.value == SummaryHeader(domain) + HostBlocks(xml.hosts).lines
  {
    if !xml.XmlParsed? || !summaryOk {
      return None;
    }
    var header := SummaryHeader(domain);
    var body := WriteHosts(xml.hosts);
    written := Some(header + body.lines);
  }

  /** Writes the blocks for `hosts` in order, stopping at the first host that raises. */
  method WriteHosts(hosts: seq<Host>) returns (block: Block)
    ensures block == HostBlocks(hosts)
  {
    var body: seq<string> := [];
    var i := 0;
    while i < |hosts|
      invariant 0 <= i <= |hosts|
      invariant HostBlocks(hosts[..i]) == Block(body, false)
    {
      var hb := WriteHost(hosts[i]);
      HostBlocksStep(hosts, i, body, hb);
      body := body + hb.lines;
      if hb.raised {
        HostBlocksStop(hosts, i + 1);
        return Block(body, true);
      }
      i := i + 1;
    }
    assert hosts[..i] == hosts;
    block := Block(body, false);
  }

  lemma HostBlocksStep(hosts: seq<Host>, i: nat, body: seq<string>, hb: Block)
    requires i < |hosts| && HostBlocks(hosts[..i]) == Block(body, false) && hb == HostBlock(hosts[i])
    ensures HostBlocks(hosts[..i + 1]) == Block(body + hb.lines, hb.raised)
  {
    assert hosts[..i + 1][..i] == hosts[..i];
  }

  // ---------------------------------------------------------------------
  // Properties of the summary
  // ---------------------------------------------------------------------

  /** A port is listed iff its state is open; the entries keep document order and come from those ports. */
  lemma {:induction false} OpenPortsExactly(ports: seq<Port>)
    ensures |OpenPorts(ports)| == CountWhere(ports, IsOpen)
    ensures forall i :: 0 <= i < |OpenPorts(ports)| ==>
      exists j :: 0 <= j < |ports| && IsOpen(ports[j]) && OpenPorts(ports)[i] == InfoOf(ports[j])
  {
    if ports != [] {
      var n := |ports| - 1;
      OpenPortsExactly(ports[..n]);
      CountWhereStep(ports, IsOpen);
      var o := OpenPorts(ports);
      forall i | 0 <= i < |o|
        ensures exists j :: 0 <= j < |ports| && IsOpen(ports[j]) && o[i] == InfoOf(ports[j])
      {
        if i < |OpenPorts(ports[..n])| {
          var j :| 0 <= j < n && IsOpen(ports[..n][j]) && OpenPorts(ports[..n])[i] == InfoOf(ports[..n][j]);
          assert ports[j] == ports[..n][j];
        } else {
          assert IsOpen(ports[n]) && o[i] == InfoOf(ports[n]);
        }
      }
    }
  }

  /** Open ports found in two halves of a port list are listed half after half. */
  lemma {:induction false} OpenPortsConcat(a: seq<Port>, b: seq<Port>)
    ensures OpenPorts(a + b) == OpenPorts(a) + OpenPorts(b)
    decreases |b|
  {
    if b == [] {
      assert a + b == a;
    } else {
      var b0 := b[..|b| - 1];
      OpenPortsConcat(a, b0);
      assert (a + b)[..|a + b| - 1] == a + b0;
      assert (a + b)[|a + b| - 1] == b[|b| - 1];
    }
  }

  /**
   * A host's block names its address, then either nothing more (no ports
   * element), "No open ports found" (none open), or "Open Ports: N" with N
   * the number of open ports, and one row per open port when none raises.
   */
  lemma HostBlockShape(h: Host)
    ensures HostBlock(h).lines[0] == "Host: " + AddressText(h.address)
    ensures h.ports.None? ==> |HostBlock(h).lines| == 2 && !HostBlock(h).raised
    ensures h.ports.Some? && OpenPorts(h.ports.value) == [] ==>
      HostBlock(h).lines[2] == "No open ports found" && !HostBlock(h).raised
    ensures h.ports.Some? && OpenPorts(h.ports.value) != [] ==>
      HostBlock(h).lines[2] == "Open Ports: " + NatToString(|OpenPorts(h.ports.value)|)
    ensures h.ports.Some? && !HostBlock(h).raised && OpenPorts(h.ports.value) != [] ==>
      |HostBlock(h).lines| == 7 + |OpenPorts(h.ports.value)|
  {
    if h.ports.Some? && OpenPorts(h.ports.value) != [] {
      RowsCount(OpenPorts(h.ports.value));
    }
  }

  /** Without an exception there is one row per entry. */
  lemma {:induction false} RowsCount(infos: seq<PortInfo>)
    ensures !Rows(infos).raised ==> |Rows(infos).lines| == |infos|
    ensures |Rows(infos).lines| <= |infos|
  {
    if infos != [] {
      RowsCount(infos[..|infos| - 1]);
    }
  }
}

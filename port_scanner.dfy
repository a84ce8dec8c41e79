/**
 * The port scanner helpers (`portscanner-project/port_scanner.py`): the
 * dotted-quad validity check, the scan of a port range, and the verbose
 * report.
 *
 * Name resolution (`gethostbyname`, `gethostbyaddr`), `inet_aton` and
 * `check_port` are operating-system and network calls; here they are
 * parameters: their answers for this call. The `ports_and_services` table
 * is a map parameter. Digits and whitespace are ASCII.
 */
module PortScanner {
  import opened Wrappers
  import opened Text

  // ---------------------------------------------------------------------
  // is_invalid_ip
  // ---------------------------------------------------------------------

  /** The verdict of the part-by-part scan from the first part on: `Some(false)` at the first
      part that is not all digits, `Some(true)` at the first all-digit part above 255,
      `None` when every part is a number from 0 to 255. */
  function PartsVerdict(parts: seq<string>): Option<bool>
    decreases |parts|
  {
    if |parts| == 0 then None
    else if !IsDigits(parts[0]) then Some(false)
    else if DecimalValue(parts[0]) > 255 then Some(true)
    else PartsVerdict(parts[1..])
  }

  /** A part is a number `inet_aton` could take as one byte. */
  predicate ByteLike(part: string) {
    IsDigits(part) && DecimalValue(part) <= 255
  }

  /** Python's `any(c.isdigit() for c in ip) and '.' in ip`, the fallback when `inet_aton` raises. */
  predicate DigitAndDot(ip: string) {
    (exists k :: 0 <= k < |ip| && IsDigit(ip[k])) && '.' in ip
  }

  /** `is_invalid_ip(ip)`, given whether `inet_aton(ip)` accepts the string. */
  /** `is_invalid_ip(ip)`, given whether `inet_aton(ip)` accepts the string. A name that does
      not split into exactly four dot-separated parts is never flagged, so host names are
      left to name resolution; four parts that are all numbers from 0 to 255 are flagged
      exactly when `inet_aton` rejects them (a leading zero can make it read a part as
      octal). */
  function InvalidIp(ip: string, atonAccepts: bool): (invalid: bool)
    ensures |Split(ip, '.')| != 4 ==> !invalid
    ensures |Split(ip, '.')| == 4 && (forall k :: 0 <= k < 4 ==> ByteLike(Split(ip, '.')[k])) ==>
      invalid == !atonAccepts
  {
    var parts := Split(ip, '.');
    if |parts| != 4 then false
    else
      FourBytesDigitAndDot(ip);
      match PartsVerdict(parts)
      case Some(v) => v
      case None => if atonAccepts then false else DigitAndDot(ip)
  }

  /** `is_invalid_ip`: the early-return loop over the dot-separated parts. */
  method IsInvalidIp(ip: string, atonAccepts: bool) returns (invalid: bool)
    ensures invalid == InvalidIp(ip, atonAccepts)
  {
    var parts := Split(ip, '.');
    if |parts| != 4 {
      return false;
    }
    var i := 0;
    while i < |parts|
      invariant 0 <= i <= |parts|
      invariant PartsVerdict(parts) == PartsVerdict(parts[i..])
    {
      assert parts[i..][1..] == parts[i + 1..];
      var part := parts[i];
      if !IsDigits(part) {
        return false;
      }
      var num := DecimalValue(part);
      if num > 255 {
        return true;
      }
      i := i + 1;
    }
    if atonAccepts {
      return false;
    }
    invalid := DigitAndDot(ip);
  }

  /** The verdict is decided by the first part that is not a byte: `false` if it is not all
      digits, `true` if it is a number above 255; with no such part, nothing is decided. */
  lemma {:induction false} PartsVerdictFirstDecider(parts: seq<string>)
    ensures PartsVerdict(parts).None? <==> forall k :: 0 <= k < |parts| ==> ByteLike(parts[k])
    ensures forall i :: 0 <= i < |parts| && !ByteLike(parts[i]) && (forall k :: 0 <= k < i ==> ByteLike(parts[k])) ==>
      PartsVerdict(parts) == Some(IsDigits(parts[i]))
    decreases |parts|
  {
    if |parts| > 0 {
      PartsVerdictFirstDecider(parts[1..]);
      forall i | 0 <= i < |parts| && !ByteLike(parts[i]) && (forall k :: 0 <= k < i ==> ByteLike(parts[k]))
        ensures PartsVerdict(parts) == Some(IsDigits(parts[i]))
      {
        if i > 0 {
          assert ByteLike(parts[0]);
          assert parts[1..][i - 1] == parts[i];
          assert forall k :: 0 <= k < i - 1 ==> ByteLike(parts[1..][k]) by {
            forall k | 0 <= k < i - 1 ensures ByteLike(parts[1..][k]) {
              assert parts[1..][k] == parts[k + 1];
            }
          }
        }
      }
      if forall k :: 0 <= k < |parts| ==> ByteLike(parts[k]) {
        assert ByteLike(parts[0]);
        forall k | 0 <= k < |parts| - 1 ensures ByteLike(parts[1..][k]) {
          assert parts[1..][k] == parts[k + 1];
        }
      } else if ByteLike(parts[0]) {
        var k :| 0 <= k < |parts| && !ByteLike(parts[k]);
        assert parts[1..][k - 1] == parts[k];
      }
    }
  }

  /** Four parts that are all numbers from 0 to 255 leave the part loop undecided, and the
      text holds a digit and a dot. */
  lemma FourBytesDigitAndDot(ip: string)
    ensures |Split(ip, '.')| == 4 && (forall k :: 0 <= k < 4 ==> ByteLike(Split(ip, '.')[k])) ==>
      PartsVerdict(Split(ip, '.')).None? && DigitAndDot(ip)
  {
    var parts := Split(ip, '.');
    if |parts| == 4 && forall k :: 0 <= k < 4 ==> ByteLike(parts[k]) {
      PartsVerdictFirstDecider(parts);
      JoinSplit(ip, '.');
      var p0 := parts[0];
      assert IsDigit(p0[0]);
      assert Join(parts, '.') == p0 + ['.'] + Join(parts[1..], '.');
      assert ip[0] == p0[0] && ip[|p0|] == '.';
    }
  }

  // ---------------------------------------------------------------------
  // get_open_ports
  // ---------------------------------------------------------------------

  /** The ports `p` with `lo <= p < hi` that `checkPort` reports open, ascending: at most
      one entry per port of the range, each of them in the range and open. */
  function OpenBetween(lo: int, hi: int, checkPort: int -> bool): (r: seq<int>)
    ensures |r| <= if hi <= lo then 0 else hi - lo
    decreases hi - lo
  {
    if hi <= lo then []
    else OpenBetween(lo, hi - 1, checkPort) + (if checkPort(hi - 1) then [hi - 1] else [])
  }

  /** The scan reports each open port of the range once, in ascending order, and nothing else. */
  lemma {:induction false} OpenBetweenExactly(lo: int, hi: int, checkPort: int -> bool)
    ensures var r := OpenBetween(lo, hi, checkPort);
      && (forall i, j :: 0 <= i < j < |r| ==> r[i] < r[j])
      && (forall p :: p in r <==> lo <= p < hi && checkPort(p))
    decreases hi - lo
  {
    if hi > lo {
      OpenBetweenExactly(lo, hi - 1, checkPort);
      var r0 := OpenBetween(lo, hi - 1, checkPort);
      assert forall p :: p in r0 ==> p < hi - 1;
      if checkPort(hi - 1) {
        var r := r0 + [hi - 1];
        forall i, j | 0 <= i < j < |r| ensures r[i] < r[j] {
          if j == |r| - 1 {
            assert r[i] == r0[i] && r0[i] in r0;
          } else {
            assert r[i] == r0[i] && r[j] == r0[j];
          }
        }
      } else {
        assert OpenBetween(lo, hi, checkPort) == r0;
      }
    }
  }

  /** What `get_open_ports` returns: an error or report text, or the list of open ports. */
  datatype PortReport = Message(text: string) | Ports(ports: seq<int>)

  const InvalidIpAddress: string := "Error: Invalid IP address"
  const InvalidHostname: string := "Error: Invalid hostname"

  /** `get_open_ports(target, (startPort, endPort), verbose)`. `atonAccepts` is what
      `inet_aton(target)` does, `resolved` what `gethostbyname(target)` gives (`None` when
      it raises), `reverse` the name `gethostbyaddr` gives (`None` when it raises
      `socket.herror`). */
  method GetOpenPorts(target: string, startPort: int, endPort: int, verbose: bool,
                      atonAccepts: bool, resolved: Option<string>, reverse: Option<string>,
                      checkPort: int -> bool, services: map<int, string>)
    returns (report: PortReport)
    ensures InvalidIp(target, atonAccepts) ==> report == Message(InvalidIpAddress)
    ensures !InvalidIp(target, atonAccepts) && resolved.None? ==> report == Message(InvalidHostname)
    ensures !InvalidIp(target, atonAccepts) && resolved.Some? && !verbose ==>
      report == Ports(OpenBetween(startPort, endPort + 1, checkPort))
    ensures !InvalidIp(target, atonAccepts) && resolved.Some? && verbose ==>
      var hostname := if reverse.Some? then reverse.value else resolved.value;
      report == Message(VerboseOutput(hostname, resolved.value, OpenBetween(startPort, endPort + 1, checkPort), services))
  {
    var invalid := IsInvalidIp(target, atonAccepts);
    if invalid {
      return Message(InvalidIpAddress);
    }
    if resolved.None? {
      return Message(InvalidHostname);
    }
    var ipAddress := resolved.value;
    var hostname := if reverse.Some? then reverse.value else ipAddress;
    var openPorts: seq<int> := [];
    var port := startPort;
    while port < endPort + 1
      invariant startPort <= port && (port <= endPort + 1 || port == startPort)
      invariant openPorts == OpenBetween(startPort, port, checkPort)
      decreases endPort + 1 - port
    {
      if checkPort(port) {
        openPorts := openPorts + [port];
      }
      port := port + 1;
    }
    if verbose {
      var text := FormatVerboseOutput(hostname, ipAddress, openPorts, services);
      return Message(text);
    }
    return Ports(openPorts);
  }

  /** With an empty or reversed range no port is checked and the list is empty. */
  lemma EmptyRange(startPort: int, endPort: int, checkPort: int -> bool)
    requires startPort > endPort
    ensures OpenBetween(startPort, endPort + 1, checkPort) == []
  {
  }

  // ---------------------------------------------------------------------
  // format_verbose_output
  // ---------------------------------------------------------------------

  /** The first line: the address alone when the name is the address, otherwise both. It
      starts with `Open ports for ` and ends with its only newline when neither name holds
      one. */
  function Header(hostname: string, ip: string): (h: string)
    ensures |h| > 15 && h[..15] == "Open ports for " && h[|h| - 1] == '\n'
    ensures '\n' !in hostname && '\n' !in ip ==> '\n' !in h[..|h| - 1]
  {
    if hostname == ip then "Open ports for " + ip + "\n"
    else "Open ports for " + hostname + " (" + ip + ")\n"
  }

  const ColumnNames: string := "PORT     SERVICE"
  const ColumnTitles: string := ColumnNames + "\n"

  /** `ports_and_services.get(port, "unknown")`. */
  function Service(services: map<int, string>, port: int): string {
    if port in services then services[port] else "unknown"
  }

  /** `f"{port:<8} {service}\n"` without the newline: the port number padded to 8 columns,
      one space, then the service name from the table or `unknown`. */
  function PortLine(port: int, services: map<int, string>): (line: string)
    ensures |line| >= 9 && |line| > |IntToString(port)|
    ensures line[..|IntToString(port)|] == IntToString(port)
    ensures forall k :: |IntToString(port)| <= k < 8 ==> line[k] == ' '
    ensures var c := LJust(IntToString(port), 8);
      && |line| == |c| + 1 + |Service(services, port)|
      && line[|c|] == ' '
      && line[|c| + 1..] == (if port in services then services[port] else "unknown")
  {
    var column := LJust(IntToString(port), 8);
    var line := column + " " + Service(services, port);
    assert line[..|column|] == column;
    assert line[|column| + 1..] == Service(services, port);
    line
  }

  /** The text `format_verbose_output` has accumulated after the lines of `ports`: header,
      column titles, then one line per port in the order given, each ended by a newline. */
  function Unstripped(hostname: string, ip: string, ports: seq<int>, services: map<int, string>): (u: string)
    ensures |u| >= |Header(hostname, ip)| + |ColumnTitles| + 10 * |ports|
    ensures u[|u| - 1] == '\n'
    decreases |ports|
  {
    if |ports| == 0 then Header(hostname, ip) + ColumnTitles
    else
      var before := Unstripped(hostname, ip, ports[..|ports| - 1], services);
      before + (PortLine(ports[|ports| - 1], services) + "\n")
  }

  /** The accumulated text always starts with the header and the column titles. */
  lemma {:induction false} UnstrippedStartsWithTitles(hostname: string, ip: string, ports: seq<int>, services: map<int, string>)
    ensures Header(hostname, ip) + ColumnTitles <= Unstripped(hostname, ip, ports, services)
    decreases |ports|
  {
    if |ports| > 0 {
      var before := Unstripped(hostname, ip, ports[..|ports| - 1], services);
      UnstrippedStartsWithTitles(hostname, ip, ports[..|ports| - 1], services);
      var u := before + (PortLine(ports[|ports| - 1], services) + "\n");
      assert u[..|before|] == before;
    }
  }

  /** `format_verbose_output`'s result: the accumulated text with trailing whitespace removed.
      The header and the column titles always survive, and the text never ends in
      whitespace. */
  function VerboseOutput(hostname: string, ip: string, ports: seq<int>, services: map<int, string>): (v: string)
    ensures Header(hostname, ip) + ColumnNames <= v
  {
    var u := Unstripped(hostname, ip, ports, services);
    UnstrippedStartsWithTitles(hostname, ip, ports, services);
    assert ColumnNames[|ColumnNames| - 1] == 'E';
    RStripKeepsLine(u, Header(hostname, ip), ColumnNames);
    RStrip(u)
  }

  /** `rstrip` of a text that starts with a line ending in a non-blank character keeps that
      line and leaves a non-blank character last. */
  lemma RStripKeepsLine(u: string, a: string, b: string)
    requires |b| > 0 && !IsSpace(b[|b| - 1]) && a + (b + "\n") <= u
    ensures a + b <= RStrip(u)
  {
    var kept := a + b;
    assert a + (b + "\n") == kept + "\n";
    assert u[|kept| - 1] == kept[|kept| - 1] == b[|b| - 1];
    assert (kept + "\n")[..|kept|] == kept;
  }

  /** `format_verbose_output`: accumulate header, column titles and one line per port, then
      strip the trailing newline. */
  method FormatVerboseOutput(hostname: string, ip: string, ports: seq<int>, services: map<int, string>)
    returns (output: string)
    ensures output == VerboseOutput(hostname, ip, ports, services)
  {
    output := Header(hostname, ip);
    output := output + ColumnTitles;
    assert ports[..0] == [];
    var i := 0;
    while i < |ports|
      invariant 0 <= i <= |ports|
      invariant output == Unstripped(hostname, ip, ports[..i], services)
    {
      var service := Service(services, ports[i]);
      var line := LJust(IntToString(ports[i]), 8) + " " + service + "\n";
      PortLineText(ports[i], services);
      UnstrippedStep(hostname, ip, ports, services, i);
      output := output + line;
      i := i + 1;
    }
    assert ports[..|ports|] == ports;
    output := RStrip(output);
  }

  /** The f-string of one port, newline included, is its `PortLine` and a newline. */
  lemma PortLineText(port: int, services: map<int, string>)
    ensures LJust(IntToString(port), 8) + " " + Service(services, port) + "\n" == PortLine(port, services) + "\n"
  {
  }

  /** One more port adds its line and a newline to the accumulated text. */
  lemma UnstrippedStep(hostname: string, ip: string, ports: seq<int>, services: map<int, string>, i: nat)
    requires i < |ports|
    ensures Unstripped(hostname, ip, ports[..i + 1], services)
      == Unstripped(hostname, ip, ports[..i], services) + (PortLine(ports[i], services) + "\n")
  {
    assert ports[..i + 1][..i] == ports[..i];
  }

  /** Stripping a string that ends in a newline after a non-blank character removes exactly
      that newline. */
  lemma RStripOneNewline(a: string, b: string)
    requires |b| > 0 && !IsSpace(b[|b| - 1])
    ensures RStrip(a + (b + "\n")) == a + b
  {
    var s := a + b;
    assert s[|s| - 1] == b[|b| - 1];
    assert a + (b + "\n") == s + "\n";
    assert (s + "\n")[..|s|] == s;
  }

  /** The report's last line: with no ports it ends with the column titles; otherwise it ends
      with the last port's line, when that line does not end in whitespace. */
  lemma VerboseOutputEnding(hostname: string, ip: string, ports: seq<int>, services: map<int, string>)
    requires |ports| > 0 ==> !IsSpace(PortLine(ports[|ports| - 1], services)[|PortLine(ports[|ports| - 1], services)| - 1])
    ensures |ports| == 0 ==> VerboseOutput(hostname, ip, ports, services) == Header(hostname, ip) + ColumnNames
    ensures |ports| > 0 ==>
      VerboseOutput(hostname, ip, ports, services)
      == Unstripped(hostname, ip, ports[..|ports| - 1], services) + PortLine(ports[|ports| - 1], services)
  {
    if |ports| == 0 {
      NoPortsEnding(hostname, ip, ports, services);
    } else {
      LastPortEnding(hostname, ip, ports, services);
    }
  }

  /** With no ports, stripping leaves the header and the column titles. */
  lemma NoPortsEnding(hostname: string, ip: string, ports: seq<int>, services: map<int, string>)
    requires |ports| == 0
    ensures RStrip(Unstripped(hostname, ip, ports, services)) == Header(hostname, ip) + ColumnNames
  {
    assert ColumnTitles == ColumnNames + "\n";
    RStripOneNewline(Header(hostname, ip), ColumnNames);
  }

  /** Stripping removes just the newline after the last port line. */
  lemma LastPortEnding(hostname: string, ip: string, ports: seq<int>, services: map<int, string>)
    requires |ports| > 0
    requires !IsSpace(PortLine(ports[|ports| - 1], services)[|PortLine(ports[|ports| - 1], services)| - 1])
    ensures RStrip(Unstripped(hostname, ip, ports, services))
      == Unstripped(hostname, ip, ports[..|ports| - 1], services) + PortLine(ports[|ports| - 1], services)
  {
    var n := |ports| - 1;
    RStripOneNewline(Unstripped(hostname, ip, ports[..n], services), PortLine(ports[n], services));
  }
}

/** `scan_port`, with the socket abstracted away: what the connection
    attempt and the probe-and-read exchange returned is given, and the
    outcome is the report line of an open port or `None`. */
module Probe {
  import opened Wrappers
  import opened Text
  import opened Services

  /** What the connection attempt gave: `connect_ex`'s error code, or an
      exception raised while creating or connecting the socket (caught by
      the outer `except`). */
  datatype ConnectResult = ConnectCode(code: int) | ConnectRaised

  /** What `sendall(b"\r\n")` followed by `recv(1024).decode(...)` gave on an
      open connection: the decoded text, or an exception from either call. */
  datatype ExchangeResult = Received(text: string) | ExchangeFailed

  /** Everything the network contributes to one probe. */
  datatype Observation = Observation(connect: ConnectResult, exchange: ExchangeResult)

  const NoBanner := "Could not grab banner"

  /** The largest port `connect_ex` accepts; for a larger one it raises
      `OverflowError`, which the outer `except` turns into `None`. */
  const MaxPort := 65535

  /** The banner of an open port: the received text stripped of surrounding
      whitespace, or the fixed sentinel when sending or receiving raised. */
  function Banner(x: ExchangeResult): (banner: string)
    ensures x.ExchangeFailed? ==> banner == NoBanner
    ensures x.Received? ==> banner == Strip(x.text)
  {
    match x
    case Received(text) => Strip(text)
    case ExchangeFailed => NoBanner
  }

  /** The f-string "[+] {host}:{port} OPEN | Service: {service} | Banner: {banner}". */
  function ReportLine(host: string, port: nat, service: string, banner: string): (line: string)
    ensures |line| > 4 && line[..4] == "[+] "
  {
    "[+] " + host + ":" + Decimal(port) + " OPEN | Service: " + service + " | Banner: " + banner
  }

  /** The line reported for an open port, its label looked up in the table.
      It is never empty, so `if res:` keeps it. */
  function OpenLine(host: string, port: nat, banner: string): (line: string)
    ensures line != []
  {
    ReportLine(host, port, ServiceName(port), banner)
  }

  /** The outcome of `scan_port(host, port)`: a line exactly when the port
      is one `connect_ex` accepts and the connection attempt returned code 0;
      every other code and every exception gives `None`. */
  function ScanPort(host: string, port: nat, obs: Observation): (outcome: Option<string>)
    ensures outcome.Some? <==> port <= MaxPort && obs.connect == ConnectCode(0)
    ensures outcome.Some? ==> outcome.value == OpenLine(host, port, Banner(obs.exchange))
  {
    if port > MaxPort then None
    else
      match obs.connect
      case ConnectCode(code) =>
        if code == 0 then Some(OpenLine(host, port, Banner(obs.exchange))) else None
      case ConnectRaised => None
  }

  /** A run of digits followed by a non-digit can be told apart from any
      other such run. */
  lemma {:induction false} DigitsThenRest(d1: string, t1: string, d2: string, t2: string)
    requires AllDigits(d1) && AllDigits(d2)
    requires t1 != [] && !IsDigit(t1[0]) && t2 != [] && !IsDigit(t2[0])
    requires d1 + t1 == d2 + t2
    ensures d1 == d2 && t1 == t2
  {
    var line := d1 + t1;
    var k := if |d1| <= |d2| then |d1| else |d2|;
    assert !IsDigit(line[k]);
    assert k == |d1| && k == |d2|;
    assert d1 == line[..|d1|] == d2;
    assert t1 == line[|d1|..] == t2;
  }

  /** The line read as: what comes before the port, the port, what follows. */
  lemma ReportLineParts(host: string, port: nat, service: string, banner: string)
    ensures ReportLine(host, port, service, banner) ==
      ("[+] " + host + ":") + (Decimal(port) + (" OPEN | Service: " + service + " | Banner: " + banner))
  {
  }

  lemma CommonPrefix(prefix: string, a: string, b: string)
    requires prefix + a == prefix + b
    ensures a == b
  {
    assert a == (prefix + a)[|prefix|..];
    assert b == (prefix + b)[|prefix|..];
  }

  /** The report line names its port: two lines for the same host and
      different ports always differ. */
  lemma ReportLineNamesPort(host: string, p1: nat, s1: string, b1: string,
                            p2: nat, s2: string, b2: string)
    requires ReportLine(host, p1, s1, b1) == ReportLine(host, p2, s2, b2)
    ensures p1 == p2
  {
    var t1 := " OPEN | Service: " + s1 + " | Banner: " + b1;
    var t2 := " OPEN | Service: " + s2 + " | Banner: " + b2;
    ReportLineParts(host, p1, s1, b1);
    ReportLineParts(host, p2, s2, b2);
    CommonPrefix("[+] " + host + ":", Decimal(p1) + t1, Decimal(p2) + t2);
    assert t1[0] == ' ' && t2[0] == ' ';
    DigitsThenRest(Decimal(p1), t1, Decimal(p2), t2);
    DecimalInjective(p1, p2);
  }

  /** An open-port line gives back both its port and its banner. */
  lemma OpenLineInjective(host: string, p1: nat, b1: string, p2: nat, b2: string)
    requires OpenLine(host, p1, b1) == OpenLine(host, p2, b2)
    ensures p1 == p2 && b1 == b2
  {
    ReportLineNamesPort(host, p1, ServiceName(p1), b1, p2, ServiceName(p2), b2);
    var head := "[+] " + host + ":" + Decimal(p1) + " OPEN | Service: " + ServiceName(p1) + " | Banner: ";
    assert OpenLine(host, p1, b1) == head + b1;
    assert OpenLine(host, p2, b2) == head + b2;
    CommonPrefix(head, b1, b2);
  }

  /** A port that accepts but whose exchange fails is still reported open,
      with the sentinel banner and, off the table, the label "Unknown". */
  lemma SilentListenerExample(host: string)
    ensures ScanPort(host, 9000, Observation(ConnectCode(0), ExchangeFailed)) ==
      Some("[+] " + host + ":" + "9000" + " OPEN | Service: " + "Unknown" + " | Banner: " + "Could not grab banner")
  {
    assert Decimal(9000) == "9000" by {
      assert Decimal(9) == "9";
      assert Decimal(90) == "90";
      assert Decimal(900) == "900";
    }
    assert 9000 !in CommonPorts;
  }
}

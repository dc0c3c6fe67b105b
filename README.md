# Dafny model of the scanner's deterministic core

This project models the deterministic parts of `scanner.py`, a multithreaded TCP port scanner, and proves properties of them:

- the port-specification parser `parse_ports`;
- the `COMMON_PORTS` service table and its `"Unknown"` default;
- the outcome rule of `scan_port`, with the socket replaced by what it returned, and the report line built by its f-string;
- the loop in `scan_host` that keeps the outcomes that are not `None`.

Modules:

- `Wrappers`: `Option` (a value or Python's `None`) and `Result` (a value or the exception raised).
- `Text`: the Python string built-ins the code relies on. `Split` is `str.split` with one separator character. `ParseNumeral` is `int` on ASCII digits. `Decimal` is `str` of a non-negative integer. `Strip` is `str.strip()`, with Python's `str.isspace` character set.
- `PortSpec`: `parse_ports`. The method `ParsePorts` has the same loop over the comma-separated pieces as the Python code and grows a set of ports. It is proved against the functions `ParseSpec` (the pieces, or the first error) and `PortsOf` (the union of what the pieces contribute). `SortedPorts` stands for `sorted(list(ports))`.
- `Services`: the port-to-name table and `ServiceName`, which is `COMMON_PORTS.get(port, "Unknown")`.
- `Probe`: `scan_port`'s outcome, computed by `ScanPort` from an `Observation`. An observation holds the result of the connection attempt and the result of the send-and-receive exchange. `ReportLine` is the f-string.
- `Scan`: `scan_host`. The method `ScanHost` loops over the outcomes in the order the probes finish and appends each truthy one (`if res:`). The finishing order is an input: any rearrangement of the submitted outcomes.

At its edges the code behaves as follows, and the model does the same:

- `parse_ports` makes no range check against 1..65535, so port 0 and ports above 65535 are parsed and kept (`NoBoundsCheck`). A port above 65535 is then never reported: `connect_ex` raises `OverflowError` for it, and the outer `except` turns that into `None` (`ScanPort`).
- `recv` returning no bytes gives the empty banner `""`, not `"Could not grab banner"`. Only an exception from `sendall` or `recv` gives that sentinel (`Banner`).
- A negative number cannot be written. Any piece containing `-` is read as a range, so `"-5"` splits into `""` and `"5"`, and `int("")` raises.

## Model

| member | source | states |
|---|---|---|
| PortSpec.ParsePorts | scanner.py:55-64 | parse_ports: it succeeds exactly when every piece of the spec parses, and otherwise fails with the first piece's error; on success the list is strictly ascending (so duplicate-free) and holds exactly the ports the pieces contribute |
| PortSpec.ParseInt | scanner.py:61-63 | `int(text)` succeeds exactly on a numeral, and fails on any other text (the empty text included) with an error naming that text |
| PortSpec.ParsePiece | scanner.py:59-63 | definition; no contract of its own. A piece with '-' is split and both halves read, start first; any other piece is read as one port. Its outcomes are stated by ParsePieceOutcomes, ParsedRangeShape and RangeShapeParses |
| PortSpec.ParseSingleMeaning | scanner.py:62-63 | a piece parses as the single port n exactly when `int` reads it as n |
| PortSpec.ParsePieceOutcomes | scanner.py:59-63 | a piece is a single port exactly when it is a numeral; it raises on unpacking exactly when it holds two or more '-'; a range piece holds exactly one '-' |
| PortSpec.ParsedRangeShape | scanner.py:59-61 | a piece parsed as the range a-b is a numeral for a, one '-', and a numeral for b |
| PortSpec.RangeShapeParses | scanner.py:59-61 | any numeral, '-', numeral text parses as that range, with start and end in that order |
| PortSpec.ParsePiecesPointwise | scanner.py:58-63 | the pieces parse as a whole exactly when each one parses, and the result holds one parsed piece per text piece, in order |
| PortSpec.ParsePieces | scanner.py:58-63 | definition; no contract of its own. The pieces are read in order and the first error ends the loop; stated by ParsePiecesPointwise and FirstFailureWins |
| PortSpec.ParseSpec | scanner.py:58-63 | definition; no contract of its own: the comma-separated pieces of the spec, read as ParsePieces reads them |
| PortSpec.FirstFailureWins | scanner.py:58-63 | after good pieces, the first bad piece's error is the error of the whole spec, as the loop raises there |
| PortSpec.SpanSize | scanner.py:61 | `range(a, b + 1)` holds b - a + 1 ports when a <= b and none when a > b |
| PortSpec.Span | scanner.py:61 | a range piece contributes exactly the ports a..b inclusive |
| PortSpec.Contribution | scanner.py:59-63 | a single piece adds exactly its port; a range piece adds exactly the ports from its start to its end, both included |
| PortSpec.PortsOf | scanner.py:57-63 | definition; no contract of its own. It is the set the loop builds, each piece's contribution added to it; stated by PortsOfMembership and PortsOfSamePieces |
| PortSpec.PortsOfMembership | scanner.py:57-63 | a port is in the set exactly when some piece contributes it: every single port is there, each range adds all its ports, and no other port is there |
| PortSpec.PortsOfSamePieces | scanner.py:57-63 | reordering or repeating pieces does not change the port set |
| PortSpec.SpecReorder | scanner.py:58-63 | rearranging or repeating the comma-separated pieces of a spec that parses gives a spec that parses to the same ports |
| PortSpec.SortedPorts | scanner.py:64 | sorted(list(ports)) is strictly ascending, has the set's elements, and has the set's size |
| PortSpec.AscendingUnique | scanner.py:64 | two strictly ascending lists with the same elements are equal, so the set determines the returned list |
| PortSpec.RenderAll | scanner.py:58 | the pieces written back as text, one per piece, none holding a comma, so a comma join of them splits back into the same texts |
| PortSpec.ParsePieceOfRender | scanner.py:59-63 | reading a piece written back as text gives that piece again |
| PortSpec.ParseSpecOfRender | scanner.py:58-63 | reading a whole spec written back as text gives its pieces again |
| PortSpec.EmptySpecFails | scanner.py:58-63 | the empty spec raises: its one piece is "" and int("") fails |
| PortSpec.ReversedRangeIsEmpty | scanner.py:59-61 | a reversed range such as 10-5 parses without error and contributes no port |
| PortSpec.NoBoundsCheck | scanner.py:62-63 | any non-negative number written in decimal is accepted as a port, with no range check (the digit limit of recent Python versions is listed under Left out) |
| PortSpec.MixedSpecPieces | scanner.py:58-63 | "22,80,1000-1002,80" reads as four pieces: 22, 80, the range 1000-1002, and 80 again |
| PortSpec.MixedSpecExample | scanner.py:57-64 | the only ascending list of that spec's ports is [22, 80, 1000, 1001, 1002] |
| PortSpec.MixedSpecParsePorts | scanner.py:55-64 | `parse_ports("22,80,1000-1002,80")` returns [22, 80, 1000, 1001, 1002] |
| Text.Split | scanner.py:58-60 | `str.split` with one separator character always gives at least one piece, the empty text giving one empty piece |
| Text.SplitCount | scanner.py:58-60 | str.split gives one piece more than there are separators, which is what makes the unpacking fail on two or more '-' |
| Text.JoinOfSplit | scanner.py:58 | the split pieces, put back together with the separator, give back the text |
| Text.SplitOfJoin | scanner.py:58 | separator-free pieces joined by the separator split back into the same pieces |
| Text.SplitPiecesPlain | scanner.py:58 | no split piece holds the separator |
| Text.Decimal | scanner.py:38 | `str(port)` is a numeral, without a leading zero unless it is "0" |
| Text.DecimalRoundTrip | scanner.py:38 | int(str(n)) == n for the port numbers written into the report line |
| Text.NumeralRoundTrip | scanner.py:61-63 | str(int(s)) == s for a numeral without leading zeros |
| Text.Strip | scanner.py:31 | str.strip() returns text that neither starts nor ends in whitespace |
| Text.StripRemovesOnlySpace | scanner.py:31 | what strip removes is only a whitespace prefix and a whitespace suffix; the rest of the text is kept as it is |
| Services.CommonPortsKeys | scanner.py:6-20 | the table has exactly the thirteen ports 21, 22, 23, 25, 53, 80, 110, 143, 443, 3306, 3389, 5900 and 8080 |
| Services.ServiceName | scanner.py:6-20 | a port in the table gets its table name; every other port gets "Unknown", and no table name is "Unknown" |
| Probe.Banner | scanner.py:29-33 | the banner is the received text stripped of surrounding whitespace, or "Could not grab banner" when sending or receiving raised |
| Probe.ReportLine | scanner.py:38 | the f-string line always starts with "[+] " and is never empty |
| Probe.OpenLine | scanner.py:37-38 | the line of an open port, with the port's service label, is never empty, so `if res:` keeps it |
| Probe.ScanPort | scanner.py:22-42 | scan_port returns a line exactly when the port is at most 65535 and the connection attempt returned code 0, and that line is the open-port line for the port's label and banner; a larger port (OverflowError in connect_ex), any other code, or any exception gives None |
| Probe.ReportLineNamesPort | scanner.py:38 | the report line names its port: for one host, lines for different ports always differ |
| Probe.OpenLineInjective | scanner.py:37-38 | an open-port line determines both its port and its banner |
| Probe.SilentListenerExample | scanner.py:27-38 | a listener on 9000 that accepts but whose exchange fails is reported as "[+] host:9000 OPEN \| Service: Unknown \| Banner: Could not grab banner" |
| Scan.ScanHost | scanner.py:44-53 | scan_host's results are the truthy outcomes in the order they finish; as a multiset they are one report line per open port and nothing else, and there are never more of them than ports |
| Scan.Truthy | scanner.py:51 | definition; no contract of its own: `if res:` holds exactly for a non-empty string |
| Scan.Kept | scanner.py:49-52 | the results are never more than the outcomes, and none of them is empty; their counts are stated by KeptCounts |
| Scan.Submitted | scanner.py:48 | one outcome per submitted port: a line exactly for each open port, that port's report line, and None for every other |
| Scan.KeptCounts | scanner.py:51-52 | each non-empty line is kept as often as it arrives, and the empty line never is |
| Scan.KeptOrderIrrelevant | scanner.py:49-52 | the order in which probes finish does not change which lines are kept, or how often |
| Scan.KeptSubmitted | scanner.py:48-52 | taken in submission order, the kept lines are exactly the open ports' report lines, one each |
| Scan.OpenPorts | scanner.py:27-28 | a port is open exactly when it was submitted, is at most 65535 and its connection attempt returned code 0 |
| Scan.ReportsDistinct | scanner.py:48-52 | scanning distinct ports never reports the same line twice |
| Scan.ParsedPortsReportOnce | scanner.py:64 | the ascending ports returned by parse_ports therefore each give at most one report line |
| Scan.NoPortsNoResults | scanner.py:46-53 | an empty port list gives an empty result |

## Left out

- Socket operations (`socket`, `settimeout`, `connect_ex`, `sendall`, `recv`, `close`; scanner.py:25-39) are network I/O. Their results enter the model as an `Observation`, and the timeout and the closing of the socket are not modelled.
- Scan.ScanHost: `network` maps each port to one observation, so two probes of the same port in one call (a port listed twice in `ports`) see the same network. The program probes each occurrence independently, and the two could differ. No proved property depends on this.
- The thread pool and `as_completed` (scanner.py:47-50) are concurrency. `ScanHost` takes the finishing order as an input, constrained to contain each submitted outcome once. The pool size `threads` has no effect on the model.
- `recv(1024).decode(errors="ignore")` (scanner.py:31): the decoded text is an opaque input string. The 1024-byte limit and the UTF-8 decoder are not modelled.
- PortSpec.ParseInt: accepts only non-empty runs of ASCII digits. Python's `int` also accepts surrounding whitespace, a leading `+`, digit-separating underscores and non-ASCII decimal digits, so specs such as `"22, 80"` that the program accepts are errors in the model.
- PortSpec.ParseInt: accepts numerals of any length. Python 3.11 and later (and the security releases of 3.7 to 3.10) raise `ValueError` on a numeral of more than 4300 digits, a limit that depends on the interpreter's version and settings; so NoBoundsCheck's "any non-negative number" holds only up to that length in such interpreters.
- ParsePieceOutcomes: the error for a bad numeral records only the text `int` was given, not Python's exception message.
- The `__main__` block (scanner.py:66-81) is left out: argument parsing, `print`, and the final `sorted(results)` over the display strings.

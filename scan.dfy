/** `scan_host`: one `scan_port` per submitted port, the outcomes taken in
    the order the probes finish, and every outcome that is a non-empty line
    appended to the results. The worker pool is not modelled; the order in
    which probes finish is an input, any rearrangement of the submitted
    outcomes. */
module Scan {
  import opened Wrappers
  import opened Probe
  import PortSpec

  /** `if res:`, a value kept only when it is a non-empty string. */
  predicate Truthy(outcome: Option<string>) {
    outcome.Some? && outcome.value != []
  }

  predicate Distinct<T(==)>(s: seq<T>) {
    forall i, j :: 0 <= i < j < |s| ==> s[i] != s[j]
  }

  /** The results list built from the outcomes, in the order they arrive. */
  function Kept(outcomes: seq<Option<string>>): (results: seq<string>)
    ensures |results| <= |outcomes|
    ensures forall k :: 0 <= k < |results| ==> results[k] != []
  {
    if outcomes == [] then []
    else
      var last := outcomes[|outcomes| - 1];
      Kept(outcomes[..|outcomes| - 1]) + (if Truthy(last) then [last.value] else [])
  }

  /** Whether a probe of `port` finds it open: a port `connect_ex` accepts,
      whose connection attempt returned code 0. */
  predicate IsOpen(port: nat, network: nat -> Observation) {
    port <= MaxPort && network(port).connect == ConnectCode(0)
  }

  /** The outcome of each submitted port, in submission order: a line for
      each open port, the report line of that port, and `None` for the rest. */
  function Submitted(host: string, ports: seq<nat>, network: nat -> Observation): (outcomes: seq<Option<string>>)
    ensures |outcomes| == |ports|
    ensures forall i :: 0 <= i < |ports| ==> (outcomes[i].Some? <==> IsOpen(ports[i], network))
    ensures forall i :: 0 <= i < |ports| && outcomes[i].Some? ==>
      outcomes[i].value == OpenLine(host, ports[i], Banner(network(ports[i]).exchange))
  {
    seq(|ports|, i requires 0 <= i < |ports| => ScanPort(host, ports[i], network(ports[i])))
  }

  /** The submitted ports found open, in order. */
  function OpenPorts(ports: seq<nat>, network: nat -> Observation): (open: seq<nat>)
    ensures |open| <= |ports|
    ensures forall p :: p in open <==> p in ports && p <= MaxPort && network(p).connect == ConnectCode(0)
  {
    if ports == [] then []
    else
      var last := ports[|ports| - 1];
      OpenPorts(ports[..|ports| - 1], network) + (if IsOpen(last, network) then [last] else [])
  }

  /** The report line of each of the given ports; none of them is empty. */
  function Reports(host: string, open: seq<nat>, network: nat -> Observation): (lines: seq<string>)
    ensures |lines| == |open|
    ensures forall k :: 0 <= k < |lines| ==> lines[k] != []
  {
    seq(|open|, k requires 0 <= k < |open| => OpenLine(host, open[k], Banner(network(open[k]).exchange)))
  }

  /** A line is kept as often as it arrives, and the empty line never is. */
  lemma {:induction false} KeptCounts(outcomes: seq<Option<string>>, line: string)
    ensures multiset(Kept(outcomes))[line] == if line == [] then 0 else multiset(outcomes)[Some(line)]
  {
    if outcomes != [] {
      var n := |outcomes| - 1;
      var init, last := outcomes[..n], outcomes[n];
      KeptCounts(init, line);
      assert outcomes == init + [last];
    }
  }

  /** The order in which probes finish does not change which lines are kept,
      nor how often. */
  lemma KeptOrderIrrelevant(o1: seq<Option<string>>, o2: seq<Option<string>>)
    requires multiset(o1) == multiset(o2)
    ensures multiset(Kept(o1)) == multiset(Kept(o2))
  {
    forall line
      ensures multiset(Kept(o1))[line] == multiset(Kept(o2))[line]
    {
      KeptCounts(o1, line);
      KeptCounts(o2, line);
    }
  }

  lemma KeptSnoc(outcomes: seq<Option<string>>, x: Option<string>)
    ensures Kept(outcomes + [x]) == Kept(outcomes) + (if Truthy(x) then [x.value] else [])
  {
    assert (outcomes + [x])[..|outcomes|] == outcomes;
  }

  lemma SubmittedSnoc(host: string, ports: seq<nat>, p: nat, network: nat -> Observation)
    ensures Submitted(host, ports + [p], network) ==
      Submitted(host, ports, network) + [ScanPort(host, p, network(p))]
  {
  }

  lemma ReportsSnoc(host: string, open: seq<nat>, p: nat, network: nat -> Observation)
    ensures Reports(host, open + [p], network) ==
      Reports(host, open, network) + [OpenLine(host, p, Banner(network(p).exchange))]
  {
  }

  /** Taken in submission order, the kept lines are exactly the report lines
      of the open ports: one per open port, none for any other. */
  lemma {:induction false} KeptSubmitted(host: string, ports: seq<nat>, network: nat -> Observation)
    ensures Kept(Submitted(host, ports, network)) == Reports(host, OpenPorts(ports, network), network)
  {
    if ports != [] {
      var n := |ports| - 1;
      var init, last := ports[..n], ports[n];
      assert ports == init + [last];
      KeptSubmitted(host, init, network);
      var outcome := ScanPort(host, last, network(last));
      SubmittedSnoc(host, init, last, network);
      KeptSnoc(Submitted(host, init, network), outcome);
      var open := OpenPorts(init, network);
      assert OpenPorts(ports, network) ==
        open + (if IsOpen(last, network) then [last] else []);
      if IsOpen(last, network) {
        ReportsSnoc(host, open, last, network);
      } else {
        assert open + [] == open;
      }
    }
  }

  /** Distinct ports are probed apart: their report lines differ too. */
  lemma {:induction false} OpenPortsDistinct(ports: seq<nat>, network: nat -> Observation)
    requires Distinct(ports)
    ensures Distinct(OpenPorts(ports, network))
  {
    if ports != [] {
      var n := |ports| - 1;
      var init := ports[..n];
      OpenPortsDistinct(init, network);
      assert ports[n] !in init;
    }
  }

  /** Scanning distinct ports never reports the same line twice. */
  lemma ReportsDistinct(host: string, ports: seq<nat>, network: nat -> Observation)
    requires Distinct(ports)
    ensures Distinct(Kept(Submitted(host, ports, network)))
  {
    KeptSubmitted(host, ports, network);
    OpenPortsDistinct(ports, network);
    var open := OpenPorts(ports, network);
    var lines := Reports(host, open, network);
    forall i, j | 0 <= i < j < |lines|
      ensures lines[i] != lines[j]
    {
      if lines[i] == lines[j] {
        OpenLineInjective(host, open[i], Banner(network(open[i]).exchange),
                          open[j], Banner(network(open[j]).exchange));
      }
    }
  }

  /** The ports `parse_ports` hands to `scan_host` are ascending, so no
      report line is ever printed twice. */
  lemma ParsedPortsReportOnce(host: string, ports: seq<nat>, network: nat -> Observation)
    requires PortSpec.StrictlyAscending(ports)
    ensures Distinct(Kept(Submitted(host, ports, network)))
  {
    ReportsDistinct(host, ports, network);
  }

  /** `scan_host(host, ports)`: `arrived` is the order in which the probes
      finished, as `as_completed` yields them, each submitted outcome once.
      The results are the kept lines in that order: as a multiset, one
      report line per open port and nothing else. */
  method ScanHost(host: string, ports: seq<nat>, network: nat -> Observation,
                  arrived: seq<Option<string>>) returns (results: seq<string>)
    requires multiset(arrived) == multiset(Submitted(host, ports, network))
    ensures results == Kept(arrived)
    ensures multiset(results) == multiset(Reports(host, OpenPorts(ports, network), network))
    ensures |results| == |OpenPorts(ports, network)| <= |ports|
  {
    results := [];
    var i := 0;
    while i < |arrived|
      invariant 0 <= i <= |arrived|
      invariant results == Kept(arrived[..i])
    {
      var res := arrived[i];
      assert arrived[..i + 1][..i] == arrived[..i];
      if res.Some? && res.value != "" {
        results := results + [res.value];
      }
      i := i + 1;
    }
    assert arrived[..i] == arrived;
    KeptOrderIrrelevant(arrived, Submitted(host, ports, network));
    KeptSubmitted(host, ports, network);
    assert |multiset(results)| == |results|;
  }

  /** With no ports to scan there is nothing to report. */
  lemma NoPortsNoResults(host: string, network: nat -> Observation, arrived: seq<Option<string>>)
    requires multiset(arrived) == multiset(Submitted(host, [], network))
    ensures Kept(arrived) == []
  {
    assert arrived == [];
  }
}

/** `COMMON_PORTS` and the `COMMON_PORTS.get(port, "Unknown")` lookup. */
module Services {

  /** The well-known services the scanner names. */
  const CommonPorts: map<nat, string> := map[
    21 := "FTP",
    22 := "SSH",
    23 := "Telnet",
    25 := "SMTP",
    53 := "DNS",
    80 := "HTTP",
    110 := "POP3",
    143 := "IMAP",
    443 := "HTTPS",
    3306 := "MySQL",
    3389 := "RDP",
    5900 := "VNC",
    8080 := "HTTP-Proxy"
  ]

  const UnknownService := "Unknown"

  /** The label of a port: its entry in the table, "Unknown" for every other
      port. No table entry reads "Unknown", so that label says exactly that
      the port is not in the table. */
  function ServiceName(port: nat): (name: string)
    ensures port in CommonPorts ==> name == CommonPorts[port]
    ensures name == UnknownService <==> port !in CommonPorts
  {
    if port in CommonPorts then CommonPorts[port] else UnknownService
  }

  /** The table has exactly these thirteen ports. */
  lemma CommonPortsKeys()
    ensures CommonPorts.Keys == {21, 22, 23, 25, 53, 80, 110, 143, 443, 3306, 3389, 5900, 8080}
  {
  }
}

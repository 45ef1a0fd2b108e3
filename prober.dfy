/** `port_scan`: one TCP connect to (target, port) and what is printed about it.
    The connect itself is foreign I/O; its outcome is an input here. */
module Prober {

  /** Linux's errno for "connection refused", the one code read as CLOSED. */
  const ECONNREFUSED: int := 111

  /** The largest port `connect_ex` accepts. */
  const MAX_PORT: int := 65535

  /** `connect_ex` raises OverflowError for a port outside 0..65535. That is not a
      socket error, so `port_scan` does not catch it and it leaves `port_scan`. */
  predicate ScanRaises(port: int) {
    port < 0 || port > MAX_PORT
  }

  /** The three-way reading of the integer `connect_ex` returns. */
  datatype Status = Open | Closed | Filtered(code: int)

  /** What the `try` block of `port_scan` ends with: `connect_ex` returned a code,
      or one of the two exceptions the function catches was raised. */
  datatype ConnectResult =
    | Returned(code: int)
    | Unresolvable             // socket.gaierror
    | SocketError(message: string)  // any other socket.error

  /** The lines `port_scan` prints. */
  datatype Line =
    | OpenLine(port: int)
    | LikelyService(name: string)
    | UnknownService
    | ClosedLine(port: int)
    | FilteredLine(port: int, code: int)
    | HostUnresolvedLine
    | ScanErrorLine(port: int, message: string)

  /** Code 0 means the connection was accepted, ECONNREFUSED that it was refused,
      and every other code is reported as filtered, carrying the code. */
  function Classify(code: int): (s: Status)
    ensures s == Open <==> code == 0
    ensures s == Closed <==> code == ECONNREFUSED
    ensures s.Filtered? <==> code != 0 && code != ECONNREFUSED
    ensures s.Filtered? ==> s.code == code
  {
    if code == 0 then Open
    else if code == ECONNREFUSED then Closed
    else Filtered(code)
  }

  /** The code a status stands for: the inverse of Classify. */
  function StatusCode(s: Status): int
  {
    match s
    case Open => 0
    case Closed => ECONNREFUSED
    case Filtered(code) => code
  }

  /** A status Classify can produce: a filtered status never carries 0 or ECONNREFUSED. */
  predicate ValidStatus(s: Status) {
    s.Filtered? ==> s.code != 0 && s.code != ECONNREFUSED
  }

  /** Classification loses nothing: the code can be recovered from the status, and
      every valid status is the classification of exactly one code. */
  lemma ClassifyInverse(code: int, s: Status)
    ensures StatusCode(Classify(code)) == code && ValidStatus(Classify(code))
    ensures ValidStatus(s) ==> Classify(StatusCode(s)) == s
  {
  }

  /** Whether a connect code leads to any output: an OPEN port always, a CLOSED or
      FILTERED one only in verbose mode. */
  function Reported(code: int, verbose: bool): (b: bool)
    ensures Classify(code) == Open ==> b
    ensures Classify(code) != Open ==> (b <==> verbose)
  {
    code == 0 || verbose
  }

  /** The line that announces a status. */
  function StatusLine(port: int, s: Status): Line
  {
    match s
    case Open => OpenLine(port)
    case Closed => ClosedLine(port)
    case Filtered(code) => FilteredLine(port, code)
  }

  /** The lines `port_scan` prints for one port; `services` stands for the local
      service database that `getservbyport` consults. */
  function PortScan(port: int, result: ConnectResult, verbose: bool, services: map<int, string>): (lines: seq<Line>)
    ensures result.Returned? ==>
      |lines| == (if Reported(result.code, verbose) then 1 else 0) + (if result.code == 0 && verbose then 1 else 0)
    ensures result.Returned? ==> (lines != [] <==> Reported(result.code, verbose))
    ensures result.Returned? && lines != [] ==> lines[0] == StatusLine(port, Classify(result.code))
    ensures |lines| == 2 <==> result == Returned(0) && verbose
    ensures |lines| == 2 ==> lines[1] == if port in services then LikelyService(services[port]) else UnknownService
    ensures result.Unresolvable? ==> lines == [HostUnresolvedLine]
    ensures result.SocketError? ==> lines == if verbose then [ScanErrorLine(port, result.message)] else []
  {
    match result
    case Returned(code) =>
      if code == 0 then
        [OpenLine(port)] + if verbose then [if port in services then LikelyService(services[port]) else UnknownService] else []
      else if code == ECONNREFUSED then
        if verbose then [ClosedLine(port)] else []
      else
        if verbose then [FilteredLine(port, code)] else []
    case Unresolvable => [HostUnresolvedLine]
    case SocketError(message) => if verbose then [ScanErrorLine(port, message)] else []
  }
}

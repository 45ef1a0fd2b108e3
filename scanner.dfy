/** The main block of the scanner: resolve the target, read the `-p` argument into
    a set of ports, queue them in ascending order, and run the scan over the whole
    span from the smallest to the largest port. */
module Scanner {
  import opened Text
  import opened PortSpec
  import opened Dispatch
  import opened Prober

  /** How a run ends. Both errors exit with status 1; a run whose `q.join()` never
      returns hangs. */
  datatype Outcome =
    | UnresolvableHost
    | NoValidPorts
    | Hangs
    | Finished(minPort: int, maxPort: int, scanned: seq<int>)

  /** The order in which the ports of a parsed set are handed to `port_scan`: the
      sorted set queued by the main block, then every port of
      `range(min_port, max_port + 1)` queued by `run_scanner`. */
  function DispatchOrder(ports: set<int>): (order: seq<int>)
    requires ports != {}
    ensures |order| == |ports| + SetMax(ports) - SetMin(ports) + 1
  {
    SortedList(ports) + Interval(SetMin(ports), SetMax(ports))
  }

  /** Each of the two passes is in strictly ascending order: the first covers the
      set, the second every port from the smallest to the largest. */
  lemma DispatchPasses(ports: set<int>)
    requires ports != {}
    ensures var order := DispatchOrder(ports);
      && StrictlyAscending(order[..|ports|]) && StrictlyAscending(order[|ports|..])
      && (forall p :: p in order[..|ports|] <==> p in ports)
      && (forall p :: p in order[|ports|..] <==> SetMin(ports) <= p <= SetMax(ports))
  {
    var order, sorted, range := DispatchOrder(ports), SortedList(ports), Interval(SetMin(ports), SetMax(ports));
    assert order[..|ports|] == sorted && order[|ports|..] == range;
    forall p
      ensures p in range <==> SetMin(ports) <= p <= SetMax(ports)
    {
      IntervalMembership(SetMin(ports), SetMax(ports), p);
    }
  }

  /** Every port of the set is one `connect_ex` accepts. */
  predicate Scannable(ports: set<int>) {
    forall p :: p in ports ==> !ScanRaises(p)
  }

  /** Every port handed to `port_scan` lies between the smallest and the largest
      port of the set, and every port of the set is handed to it. */
  lemma DispatchBounds(ports: set<int>)
    requires ports != {}
    ensures forall x :: x in DispatchOrder(ports) ==> SetMin(ports) <= x <= SetMax(ports)
    ensures forall p :: p in ports ==> p in DispatchOrder(ports)
  {
    var sorted, range := SortedList(ports), Interval(SetMin(ports), SetMax(ports));
    assert DispatchOrder(ports) == sorted + range;
    forall x | x in range
      ensures SetMin(ports) <= x <= SetMax(ports)
    {
      IntervalMembership(SetMin(ports), SetMax(ports), x);
    }
  }

  /** The workers get through the whole queue, with no scan raising, exactly when
      every port of the set is one `connect_ex` accepts. */
  lemma DispatchStops(ports: set<int>)
    requires ports != {}
    ensures StopIndex(Enqueued(DispatchOrder(ports))) == |DispatchOrder(ports)| <==> Scannable(ports)
  {
    var order := DispatchOrder(ports);
    StopIndexOfPorts(order);
    DispatchBounds(ports);
    if Scannable(ports) {
      assert !ScanRaises(SetMin(ports)) && !ScanRaises(SetMax(ports));
      forall i | 0 <= i < |order|
        ensures !ScanRaises(order[i])
      {
        assert order[i] in order;
      }
    } else {
      var p :| p in ports && ScanRaises(p);
      assert p in order;
    }
  }

  /** A port of the parsed set is scanned twice, a port in a gap between the
      smallest and the largest once, and any other port never. */
  lemma DispatchCounts(ports: set<int>, p: int)
    requires ports != {}
    ensures multiset(DispatchOrder(ports))[p]
            == if p in ports then 2 else if SetMin(ports) <= p <= SetMax(ports) then 1 else 0
  {
    SortedListCount(ports, p);
    IntervalCount(SetMin(ports), SetMax(ports), p);
  }

  /** Every port from the smallest to the largest is scanned. */
  lemma DispatchCovers(ports: set<int>, p: int)
    requires ports != {}
    requires SetMin(ports) <= p <= SetMax(ports)
    ensures p in DispatchOrder(ports)
  {
    IntervalMembership(SetMin(ports), SetMax(ports), p);
  }

  /** The sorted set queued by the main block followed by the range queued by
      `run_scanner` is the dispatch order, as queue items. */
  lemma QueueIsOrder(ports: set<int>)
    requires ports != {}
    ensures Enqueued(SortedList(ports)) + Enqueued(Interval(SetMin(ports), SetMax(ports)))
            == Enqueued(DispatchOrder(ports))
  {
    EnqueuedAppend(SortedList(ports), Interval(SetMin(ports), SetMax(ports)));
  }

  /** The workers get through the whole queue a run starts from (the sorted set,
      then the range from the smallest to the largest port) exactly when every
      port is scannable. */
  lemma QueueDrains(ports: set<int>)
    requires ports != {}
    ensures var all := Enqueued(SortedList(ports)) + Enqueued(Interval(SetMin(ports), SetMax(ports)));
      StopIndex(all) == |all| <==> Scannable(ports)
  {
    QueueIsOrder(ports);
    DispatchStops(ports);
  }

  /** The ports taken off the whole queue a run starts from are the dispatch order. */
  lemma QueuePorts(ports: set<int>)
    requires ports != {}
    ensures Ports(Enqueued(SortedList(ports)) + Enqueued(Interval(SetMin(ports), SetMax(ports))))
            == DispatchOrder(ports)
  {
    QueueIsOrder(ports);
    PortsOfEnqueued(DispatchOrder(ports));
  }

  /** The end of the main block and `run_scanner`, for a non-empty set of ports:
      the sorted ports go on a fresh queue, then the scan runs over the span from
      the smallest to the largest of them. A port `connect_ex` refuses kills its
      worker before `task_done`, and then `q.join()` never returns. */
  method ScanPorts(ports: set<int>, threads: int) returns (outcome: Outcome)
    requires ports != {}
    ensures outcome == if threads > 0 && Scannable(ports)
      then Finished(SetMin(ports), SetMax(ports), DispatchOrder(ports)) else Hangs
  {
    var minPort, maxPort := SetMin(ports), SetMax(ports);
    var sortedPorts := SortedList(ports);
    var session := new ScanSession();
    session.PutPorts(sortedPorts);
    NoSentinelEnqueued(sortedPorts);
    ghost var all := Enqueued(sortedPorts) + Enqueued(Interval(minPort, maxPort));
    assert session.queue == Enqueued(sortedPorts) && session.scanned == [];
    assert all[..|all|] == all;
    QueueDrains(ports);
    QueuePorts(ports);
    var joined, _ := session.RunScanner(minPort, maxPort, threads);
    if threads > 0 && Scannable(ports) {
      assert session.scanned == [] + DispatchOrder(ports) == DispatchOrder(ports);
    } else if threads <= 0 {
      assert |sortedPorts| == |ports| > 0;
    }
    outcome := if joined then Finished(minPort, maxPort, session.scanned) else Hangs;
  }

  /** The main block. `hostResolves` stands for the outcome of `gethostbyname`;
      the connects themselves do not affect which ports are dispatched. */
  method Execute(hostResolves: bool, portsArg: string, threads: int)
    returns (outcome: Outcome, warnings: seq<Warning>)
    ensures !hostResolves ==> outcome == UnresolvableHost && warnings == []
    ensures hostResolves ==> warnings == WarningsOf(Split(portsArg, ','))
    ensures hostResolves && PortsOf(Split(portsArg, ',')) == {} ==> outcome == NoValidPorts
    ensures hostResolves && PortsOf(Split(portsArg, ',')) != {} ==>
      var ports := PortsOf(Split(portsArg, ','));
      outcome == if threads > 0 && Scannable(ports)
        then Finished(SetMin(ports), SetMax(ports), DispatchOrder(ports)) else Hangs
  {
    if !hostResolves {
      return UnresolvableHost, [];
    }
    var ports;
    ports, warnings := CollectPorts(Split(portsArg, ','));
    if ports == {} {
      return NoValidPorts, warnings;
    }
    outcome := ScanPorts(ports, threads);
  }
}

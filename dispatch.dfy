/** The shared work queue of the scanner and the worker loop that drains it,
    run one step after another instead of on concurrent threads. */
module Dispatch {
  import opened Wrappers
  import opened PortSpec
  import opened Prober

  /** What `q.get()` gives: the item at the head of the queue, or nothing because
      the queue is empty and a real thread would wait there. */
  datatype Fetched = Item(item: Option<int>) | WouldBlock

  /** How a worker's loop ends: it read the `None` sentinel, it waits on an empty
      queue, `port_scan` raised (a port `connect_ex` refuses) and the thread died
      before `task_done`, or `task_done` raised ValueError (more calls than queued
      items). */
  datatype WorkerExit = Stopped | Blocked | Died | Crashed

  /** Ports as queue items. */
  function Enqueued(ports: seq<int>): (items: seq<Option<int>>)
    ensures |items| == |ports|
    ensures forall i :: 0 <= i < |items| ==> items[i] == Some(ports[i])
  {
    if ports == [] then [] else [Some(ports[0])] + Enqueued(ports[1..])
  }

  lemma NoSentinelEnqueued(ports: seq<int>)
    ensures None !in Enqueued(ports)
  {
  }

  /** The real ports among the items, in queue order; sentinels are dropped. */
  function Ports(items: seq<Option<int>>): seq<int>
  {
    if items == [] then [] else Ports(items[..|items| - 1]) + LastPorts(items)
  }

  /** The port carried by the last item, if it is not a sentinel. */
  function LastPorts(items: seq<Option<int>>): seq<int>
    requires items != []
  {
    match items[|items| - 1]
    case Some(p) => [p]
    case None => []
  }

  /** The ports of one stretch of the queue followed by another. */
  lemma {:induction false} PortsAppend(a: seq<Option<int>>, b: seq<Option<int>>)
    ensures Ports(a + b) == Ports(a) + Ports(b)
    decreases |b|
  {
    if b == [] {
      assert a + b == a;
    } else {
      var ab, init := a + b, b[..|b| - 1];
      var tail := LastPorts(b);
      assert ab[..|ab| - 1] == a + init && ab[|ab| - 1] == b[|b| - 1];
      calc {
        Ports(ab);
        Ports(a + init) + tail;
        { PortsAppend(a, init); }
        Ports(a) + Ports(init) + tail;
        Ports(a) + (Ports(init) + tail);
      }
    }
  }

  /** Taking one more real port off the front of the queue extends the ports taken so far. */
  lemma PortsStep(done: seq<int>, items: seq<Option<int>>, n: nat)
    requires n < |items| && items[n].Some?
    ensures done + Ports(items[..n]) + [items[n].value] == done + Ports(items[..n + 1])
  {
    assert items[..n + 1][..n] == items[..n];
    assert Ports(items[..n + 1]) == Ports(items[..n]) + [items[n].value];
  }

  /** Enqueuing ports and reading the ports back gives the same list. */
  lemma {:induction false} PortsOfEnqueued(ports: seq<int>)
    ensures Ports(Enqueued(ports)) == ports
  {
    if ports != [] {
      PortsOfEnqueued(ports[1..]);
      PortsAppend([Some(ports[0])], Enqueued(ports[1..]));
      assert [Some(ports[0])][..0] == [];
      assert [ports[0]] + ports[1..] == ports;
    }
  }

  /** Whether a worker's loop ends at this item: the `None` sentinel, or a port
      whose `port_scan` raises out of the worker. */
  predicate EndsWorker(item: Option<int>) {
    item.None? || ScanRaises(item.value)
  }

  /** The position of the first item that ends a worker, or the length of the
      queue when there is none. */
  function StopIndex(items: seq<Option<int>>): (k: nat)
    ensures k <= |items|
    ensures forall i :: 0 <= i < k ==> !EndsWorker(items[i])
    ensures k < |items| ==> EndsWorker(items[k])
  {
    if items == [] || EndsWorker(items[0]) then 0 else 1 + StopIndex(items[1..])
  }

  /** n sentinels in a row. */
  function Sentinels(n: nat): (items: seq<Option<int>>)
    ensures |items| == n && forall i :: 0 <= i < n ==> items[i] == None
  {
    seq(n, _ => None)
  }

  /** Queuing two lists of ports one after the other queues their concatenation. */
  lemma EnqueuedAppend(a: seq<int>, b: seq<int>)
    ensures Enqueued(a) + Enqueued(b) == Enqueued(a + b)
  {
    var l, r := Enqueued(a) + Enqueued(b), Enqueued(a + b);
    assert |l| == |r|;
    forall i | 0 <= i < |l|
      ensures l[i] == r[i]
    {
      if i < |a| {
        assert l[i] == Enqueued(a)[i];
      } else {
        assert l[i] == Enqueued(b)[i - |a|];
      }
    }
  }

  /** A queue holding only ports is drained to its end exactly when no port's scan
      raises. */
  lemma StopIndexOfPorts(ports: seq<int>)
    ensures StopIndex(Enqueued(ports)) == |ports|
            <==> forall i :: 0 <= i < |ports| ==> !ScanRaises(ports[i])
  {
    var items := Enqueued(ports);
    if forall i :: 0 <= i < |ports| ==> !ScanRaises(ports[i]) {
      assert forall i :: 0 <= i < |items| ==> !EndsWorker(items[i]);
    } else {
      var i :| 0 <= i < |ports| && ScanRaises(ports[i]);
      assert EndsWorker(items[i]);
    }
  }

  /** The queue shared by the main thread and the workers (`queue.Queue`: a FIFO
      list and its count of unfinished tasks), together with the ports `port_scan`
      has returned from, in the order they were taken off the queue. */
  class ScanSession {
    var queue: seq<Option<int>>
    var unfinished: nat
    var scanned: seq<int>

    constructor ()
      ensures queue == [] && unfinished == 0 && scanned == []
    {
      queue, unfinished, scanned := [], 0, [];
    }

    /** `q.put(item)`: appends at the tail; every item, the sentinel included,
        counts as one unfinished task. */
    method Put(item: Option<int>)
      modifies this
      ensures queue == old(queue) + [item]
      ensures unfinished == old(unfinished) + 1
      ensures scanned == old(scanned)
    {
      queue := queue + [item];
      unfinished := unfinished + 1;
    }

    /** `q.get()`: removes and returns the head of the queue. */
    method Get() returns (r: Fetched)
      modifies this
      ensures old(queue) == [] ==> r == WouldBlock && queue == []
      ensures old(queue) != [] ==> r == Item(old(queue)[0]) && queue == old(queue)[1..]
      ensures unfinished == old(unfinished) && scanned == old(scanned)
    {
      if queue == [] {
        r := WouldBlock;
      } else {
        r := Item(queue[0]);
        queue := queue[1..];
      }
    }

    /** `q.task_done()`: one unfinished task fewer; raises ValueError, changing
        nothing, when no task is unfinished. */
    method TaskDone() returns (ok: bool)
      modifies this
      ensures ok == (old(unfinished) > 0)
      ensures unfinished == if ok then old(unfinished) - 1 else old(unfinished)
      ensures queue == old(queue) && scanned == old(scanned)
    {
      ok := unfinished > 0;
      if ok {
        unfinished := unfinished - 1;
      }
    }

    /** `worker`: take items in FIFO order, scan each real port and mark it done,
        until the first sentinel, which is consumed without `task_done`. A port
        whose scan raises ends the thread there, without `task_done` either. With
        k ports ahead of the item that ends the worker (or of the end of the
        queue), the worker scans exactly those k, in order, and lowers the
        unfinished count by k, unless the count runs out first and `task_done`
        raises. */
    method DrainWorker() returns (exit: WorkerExit)
      modifies this
      ensures var k := StopIndex(old(queue));
        k <= old(unfinished) ==>
          && scanned == old(scanned) + Ports(old(queue)[..k])
          && unfinished == old(unfinished) - k
          && (k < |old(queue)| ==>
                && exit == (if old(queue)[k].None? then Stopped else Died)
                && queue == old(queue)[k + 1..])
          && (k == |old(queue)| ==> exit == Blocked && queue == [])
      ensures var k := StopIndex(old(queue));
        k > old(unfinished) ==>
          && exit == Crashed
          && scanned == old(scanned) + Ports(old(queue)[..old(unfinished) + 1])
          && unfinished == 0
          && queue == old(queue)[old(unfinished) + 1..]
    {
      ghost var q0, u0, s0 := queue, unfinished, scanned;
      ghost var k := StopIndex(q0);
      ghost var n := 0;
      while true
        invariant n <= k && n <= u0
        invariant queue == q0[n..]
        invariant unfinished == u0 - n
        invariant scanned == s0 + Ports(q0[..n])
        decreases |queue|
      {
        var fetched := Get();
        match fetched {
          case WouldBlock =>
            assert n == k == |q0| && q0[..n] == q0;
            return Blocked;
          case Item(None) =>
            assert q0[n] == None && n == k && queue == q0[k + 1..];
            return Stopped;
          case Item(Some(port)) =>
            if ScanRaises(port) {
              assert q0[n] == Some(port) && n == k && queue == q0[k + 1..];
              return Died;
            }
            assert q0[n] == Some(port) && n < k && queue == q0[n + 1..];
            scanned := scanned + [port];
            PortsStep(s0, q0, n);
            var ok := TaskDone();
            n := n + 1;
            if !ok {
              assert n == u0 + 1 <= k;
              return Crashed;
            }
        }
      }
    }

    /** `for p in ports: q.put(p)`. */
    method PutPorts(ports: seq<int>)
      modifies this
      ensures queue == old(queue) + Enqueued(ports)
      ensures unfinished == old(unfinished) + |ports|
      ensures scanned == old(scanned)
    {
      for i := 0 to |ports|
        invariant queue == old(queue) + Enqueued(ports[..i])
        invariant unfinished == old(unfinished) + i
        invariant scanned == old(scanned)
      {
        assert Enqueued(ports[..i + 1]) == Enqueued(ports[..i]) + [Some(ports[i])];
        Put(Some(ports[i]));
      }
      assert ports[..|ports|] == ports;
    }

    /** `for _ in range(n): q.put(None)`. */
    method PutSentinels(n: nat)
      modifies this
      ensures queue == old(queue) + Sentinels(n)
      ensures unfinished == old(unfinished) + n
      ensures scanned == old(scanned)
    {
      for i := 0 to n
        invariant queue == old(queue) + Sentinels(i)
        invariant unfinished == old(unfinished) + i
        invariant scanned == old(scanned)
      {
        assert Sentinels(i + 1) == Sentinels(i) + [None];
        Put(None);
      }
    }

    /** n workers, all waiting on a queue that holds n sentinels: each takes one
        sentinel and stops, without `task_done` and without scanning. */
    method StopWorkers(n: nat) returns (stopped: nat)
      requires queue == Sentinels(n)
      modifies this
      ensures stopped == n
      ensures queue == [] && unfinished == old(unfinished) && scanned == old(scanned)
    {
      stopped := 0;
      for i := 0 to n
        invariant queue == Sentinels(n - i)
        invariant unfinished == old(unfinished) && scanned == old(scanned)
        invariant stopped == i
      {
        assert queue[0] == None && queue[..0] == [] && queue[1..] == Sentinels(n - i - 1);
        var exit := DrainWorker();
        if exit == Stopped {
          stopped := stopped + 1;
        }
      }
    }

    /** `run_scanner`, once the main block has queued the sorted ports: queue every
        port from startPort to endPort, let the workers drain the queue, wait in
        `q.join()` until the unfinished count is zero, then queue one sentinel per
        worker and let each worker take one and exit. A port whose scan raises
        leaves its task unfinished for good, so `q.join()` never returns. With no
        worker at all (a thread count of zero or less) nothing drains the queue. */
    method RunScanner(startPort: int, endPort: int, threads: int) returns (joined: bool, stopped: nat)
      requires None !in queue && unfinished >= |queue|
      modifies this
      ensures threads > 0 ==>
        var all := old(queue) + Enqueued(Interval(startPort, endPort));
        var k := StopIndex(all);
        && scanned == old(scanned) + Ports(all[..k])
        && (k < |all| ==>
              && !joined && stopped == 0
              && queue == all[k + 1..]
              && unfinished == old(unfinished) + |Interval(startPort, endPort)| - k)
        && (k == |all| ==>
              && queue == []
              && joined == (old(unfinished) == |old(queue)|)
              && (joined ==> unfinished == threads && stopped == threads)
              && (!joined ==> unfinished == old(unfinished) - |old(queue)| && stopped == 0))
      ensures threads <= 0 ==>
        && scanned == old(scanned)
        && queue == old(queue) + Enqueued(Interval(startPort, endPort))
        && unfinished == old(unfinished) + |Interval(startPort, endPort)|
        && joined == (unfinished == 0)
        && stopped == 0
    {
      var range := Interval(startPort, endPort);
      PutPorts(range);
      stopped := 0;
      if threads > 0 {
        ghost var all := queue;
        NoSentinelEnqueued(range);
        assert all[..|all|] == all;
        var exit := DrainWorker();
      }
      joined := unfinished == 0;
      if joined {
        var workers := if threads > 0 then threads else 0;
        PutSentinels(workers);
        stopped := StopWorkers(workers);
      }
    }
  }
}

# A model of a basic multithreaded TCP port scanner

The scanner (`port_scanner.py`) takes a target host and a `-p` list such as
`1-100,443,8000-8080`, reads the list into a set of ports, and puts the sorted
ports on a shared work queue. It then calls `run_scanner`, which starts worker
threads and also queues every port from the smallest to the largest of the set.
Each worker takes ports off the queue and makes one TCP connect per port. The
worker prints OPEN for code 0, and prints CLOSED for 111 and FILTERED for
anything else in verbose mode only. When the queue has drained, one `None`
sentinel per worker tells the workers to stop.

The Dafny project models four parts of the scanner:

- `Text` models the string built-ins the parser relies on: `str.split` on one
  character, `int()` on a token without '-', and `str()` of a non-negative int.
- `PortSpec` models the port-list parser and the sorted list handed to the queue:
  - how a token is read;
  - the loop that builds the set and prints warnings;
  - `min`, `max` and `sorted` of the set.
- `Prober` models `port_scan`. It covers how a connect code is classified and
  which lines are printed. The connect result and the service database are inputs.
- `Dispatch` and `Scanner` model the queue and the main block:
  - `ScanSession` is a class whose fields are the queue, its count of
    unfinished tasks, and the ports `port_scan` has returned from so far.
  - `DrainWorker` is the `worker` loop.
  - `RunScanner` is `run_scanner`.
  - `ScanPorts` and `Execute` are the main block.

  The threads run one after another. While the queue drains, one worker takes
  every item and the others wait.

The model follows the code where a reader might expect otherwise:

- Ports are not checked against 1..65535. A port above 65535 reaches
  `connect_ex`, which raises OverflowError. `port_scan` does not catch that
  exception, so it kills the worker before `task_done`, and `q.join()` never
  returns: the run hangs.
- Each port of the parsed set is handed to `port_scan` twice. The first time
  comes from the sorted list the main block queues. The second comes from the
  range `min..max` that `run_scanner` queues. The comment at
  port_scanner.py:156 says min and max are passed "for display purposes", but
  `run_scanner` does queue that range.
- A port in a gap of the set is scanned once.

## Model

| member | source | states |
|---|---|---|
| Text.Split | port_scanner.py:124 | `str.split` on one character yields at least one piece; SplitCount, SplitJoin and SplitUnique below characterise it |
| Text.SplitCount | port_scanner.py:124 | `split` on a separator yields one piece more than the separator occurs |
| Text.SplitJoin | port_scanner.py:124 | no piece of `split` holds the separator, and joining the pieces with it restores the string |
| Text.SplitUnique | port_scanner.py:130 | separator-free pieces joined by the separator split back into exactly those pieces |
| Text.NatToString | port_scanner.py:139 | the scanner calls no `str()`: this is the reference inverse of the `int()` at line 139, a non-empty string of decimal digits with no leading zero unless n is 0, read back as n by ParseNatToString and ParsePadded |
| Text.ParsePadded | port_scanner.py:130-139 | `int()` reads `str(n)` back as n with any whitespace around it and an optional leading '+' |
| Text.ParseNatToString | port_scanner.py:139 | `int(str(n)) == n` for every non-negative n |
| Text.BlankNotNumber | port_scanner.py:139-142 | an empty or all-whitespace token is not a number (ValueError) |
| Text.SeparatorNotSkipped | port_scanner.py:139-142 | the separators 0x1C to 0x1F are not whitespace to `int()`: every token that starts with one, such as `"\x1c80"`, raises ValueError |
| PortSpec.ParseToken | port_scanner.py:128-142 | a token is a single port or a bad single port exactly when it holds no '-'; a range token read as valid has start <= end, one read as invalid has start > end |
| PortSpec.Interval | port_scanner.py:134 | `range(start, end + 1)` has end - start + 1 elements, the i-th being start + i, and none when start > end |
| PortSpec.IntervalBounds | port_scanner.py:134 | `range(start, end + 1)` holds exactly the integers from start to end |
| PortSpec.IntervalMembership | port_scanner.py:134 | p is in `range(start, end + 1)` iff start <= p <= end |
| PortSpec.IntervalCount | port_scanner.py:77-78 | each port between the bounds occurs exactly once in the range, others never |
| PortSpec.TokenPorts | port_scanner.py:134-140 | a token adds ports only when read as a single port or a range in order: the single port itself (`add`), or exactly the ports from start to end (`update`) |
| PortSpec.TokenWarning | port_scanner.py:131-142 | a token is warned about iff it is read as neither a single port nor a range in order, and the warning names the token; it is "Invalid range" iff start > end (132), "Invalid range format" iff the token has a '-' but not two ints (136), "Invalid single port format" iff it has no '-' and `int()` fails (142) |
| PortSpec.CollectPorts | port_scanner.py:125-142 | the loop's set and warnings are those of the per-token reading, token by token |
| PortSpec.WarnedIffNoPorts | port_scanner.py:127-142 | a token prints a warning iff it adds no port |
| PortSpec.PortsOfMembership | port_scanner.py:125-142 | a port is in the set iff some token contributes it: the set is the union of the tokens' contributions |
| PortSpec.PortsOfWitness | port_scanner.py:125-142 | every port of the set comes from some token |
| PortSpec.ContributionInPortsOf | port_scanner.py:125-142 | every port a token contributes is in the set |
| PortSpec.PortsOfSnoc | port_scanner.py:134-140 | reading one more token adds that token's contribution to the set |
| PortSpec.PortsOfAppend | port_scanner.py:127-136 | the set of a list of tokens is the union of the sets of its two parts, so a skipped token (`continue`) leaves later tokens read |
| PortSpec.WarningsBound | port_scanner.py:127-142 | at most one warning per token |
| PortSpec.NoPortsIffAllWarned | port_scanner.py:144-146 | the set is empty iff every token was skipped with a warning |
| PortSpec.SinglePortToken | port_scanner.py:138-140 | `str(n)` with whitespace `int()` skips around it is read as the single port n, with no bounds check |
| PortSpec.RangeToken | port_scanner.py:128-134 | `"a-b"` is read as the range a..b when a <= b and as an invalid range otherwise |
| PortSpec.ManyDashesMalformed | port_scanner.py:130-136 | a token with two or more '-' is an invalid range format |
| PortSpec.EdgeDashMalformed | port_scanner.py:130-136 | a token starting or ending with '-' (as `-5`) is an invalid range format |
| PortSpec.HasLeast | port_scanner.py:148 | a non-empty set of ports has a least element |
| PortSpec.HasGreatest | port_scanner.py:149 | a non-empty set of ports has a greatest element |
| PortSpec.SetMin | port_scanner.py:148 | `min` is in the set and at most every element |
| PortSpec.SetMax | port_scanner.py:149 | `max` is in the set and at least every element |
| PortSpec.SortedList | port_scanner.py:152 | `sorted(list(s))` has the set's elements, each once, strictly ascending |
| PortSpec.SortedListCount | port_scanner.py:152-154 | every port of the set occurs exactly once in the sorted list, others never |
| Prober.Classify | port_scanner.py:25-38 | code 0 iff OPEN, 111 iff CLOSED, any other code iff FILTERED carrying that code |
| Prober.ClassifyInverse | port_scanner.py:25-38 | the code is recovered from its status, and every valid status is the classification of exactly one code |
| Prober.Reported | port_scanner.py:25-38 | an open port is always reported; a closed or filtered one iff verbose |
| Prober.PortScan | port_scanner.py:20-46 | output lines: for a returned code, exactly one status line if reported plus one service line for an open port in verbose mode, and nothing else; status line iff reported; service line only for an open port in verbose mode, from the service database or "Unknown"; an unresolvable host prints its error; other socket errors print only in verbose mode |
| Dispatch.Enqueued | port_scanner.py:77-78 | queuing ports gives one real item per port, in order |
| Dispatch.NoSentinelEnqueued | port_scanner.py:153-154 | queued ports hold no `None` sentinel |
| Dispatch.PortsAppend | port_scanner.py:53-58 | the ports in two stretches of the queue are those of the first followed by those of the second |
| Dispatch.PortsOfEnqueued | port_scanner.py:54-57 | the ports read off the queued items are exactly the ports queued, in order |
| Dispatch.StopIndex | port_scanner.py:54-57 | the position of the first item that ends a worker (the `None` sentinel, or a port whose scan raises): every item before it is a port that scans normally |
| Dispatch.Sentinels | port_scanner.py:84-85 | NUM_THREADS sentinels are that many `None` items |
| Dispatch.EnqueuedAppend | port_scanner.py:77-78 | queuing two lists of ports one after the other queues their concatenation |
| Dispatch.StopIndexOfPorts | port_scanner.py:23-58 | a queue of ports is drained to its end iff no port's `port_scan` raises (every port is in 0..65535) |
| Dispatch.ScanSession.constructor | port_scanner.py:13 | a new queue is empty, with no unfinished task and nothing scanned |
| Dispatch.ScanSession.Put | port_scanner.py:78 | `put` appends at the tail and adds one unfinished task, for a sentinel too |
| Dispatch.ScanSession.Get | port_scanner.py:54 | `get` removes the head of the queue (FIFO); an empty queue would block |
| Dispatch.ScanSession.TaskDone | port_scanner.py:58 | `task_done` lowers the unfinished count, or raises when it is already zero |
| Dispatch.ScanSession.DrainWorker | port_scanner.py:49-58 | the worker scans the ports before the first sentinel or out-of-range port in queue order and marks each done; it consumes the sentinel without `task_done`; an out-of-range port kills it without `task_done`; it ends waiting when the queue runs out, or stops when `task_done` raises |
| Dispatch.ScanSession.PutPorts | port_scanner.py:77-78 | every port of the range is queued in order, each one unfinished task |
| Dispatch.ScanSession.PutSentinels | port_scanner.py:84-85 | one sentinel per thread is queued, each counted as unfinished |
| Dispatch.ScanSession.StopWorkers | port_scanner.py:84-87 | each of n workers takes one sentinel and stops; nothing is scanned and the count is unchanged |
| Dispatch.ScanSession.RunScanner | port_scanner.py:61-87 | with workers: the queue and then the range are scanned in queue order up to the first port whose scan raises; such a port leaves its task unfinished and `join` never returns; otherwise `join` returns iff the unfinished count matched the queue, and then all workers stop, leaving one unfinished task per sentinel; with no workers nothing is scanned and `join` waits forever |
| Scanner.DispatchOrder | port_scanner.py:152-156 | the ports in the order they are queued: the sorted set (153-154), then min..max (77-78); its length is the set's size plus max - min + 1 |
| Scanner.DispatchPasses | port_scanner.py:152-156 | each of the two passes is strictly ascending; the first holds exactly the set, the second exactly the ports from min to max |
| Scanner.DispatchBounds | port_scanner.py:148-156 | every dispatched port lies between min and max, and every port of the set is dispatched |
| Scanner.DispatchStops | port_scanner.py:23-58 | the dispatched ports are drained without a scan raising iff every port of the set is in 0..65535 |
| Scanner.QueueIsOrder | port_scanner.py:77-78 | the sorted set queued by the main block followed by the range queued by `run_scanner` is the dispatch order |
| Scanner.QueueDrains | port_scanner.py:77-81 | the workers get through the whole queue iff every port of the set is in 0..65535 |
| Scanner.QueuePorts | port_scanner.py:54-57 | the ports taken off the whole queue are the dispatch order |
| Scanner.DispatchCounts | port_scanner.py:152-156 | a port of the set is handed to `port_scan` twice, a gap port between min and max once, any other port never |
| Scanner.DispatchCovers | port_scanner.py:77-78 | every port from min to max is scanned |
| Scanner.ScanPorts | port_scanner.py:148-156 | a non-empty set of ports all in 0..65535, with at least one thread, finishes with min, max and the dispatch order (sorted set, then min..max); with a port above 65535, or with no thread, the run hangs |
| Scanner.Execute | port_scanner.py:115-156 | an unresolvable host ends with exit 1 before parsing; otherwise the warnings are those of the tokens of `-p`; an empty set ends with exit 1 and nothing scanned; otherwise the run is `ScanPorts` on the parsed set: it finishes iff a thread runs and every parsed port is at most 65535, and hangs otherwise |

## Left out

- Sockets are not modelled. `connect_ex`, `close`, `getservbyport` and `gethostbyname` are foreign I/O, so their outcomes become inputs: a `ConnectResult`, a service map and the `hostResolves` flag.
- Threads are not modelled: no thread start, no daemon flag, no `t.join(timeout=…)`. The workers run one after another.
- Scanner.ScanPorts: the socket timeout `-T` is not modelled, and the model assumes a value `settimeout` accepts: not NaN, non-negative, and below about 9.2e9 seconds (the timeout is first converted to a signed 64-bit count of nanoseconds). With `-T` NaN or negative down to about -9.2e9, `settimeout` raises ValueError. With `-T inf`, or any value beyond about ±9.2e9, it raises OverflowError. Neither is a `socket.error`, so every worker dies on its first port before `task_done` and `q.join()` never returns: the run hangs where the model may say `Finished`.
- Scanner.Execute: it takes the same timeout assumption as `ScanPorts`, so with such a `-T` it may say `Finished` where the program hangs.
- Dispatch.ScanSession.RunScanner: the scan order is the queue order one worker sees. With several threads the `port_scan` calls interleave, and only the multiset of scanned ports is fixed.
- Dispatch.ScanSession.DrainWorker: it models the OverflowError that `connect_ex` raises for a port outside 0..65535. It does not model the UnboundLocalError in `finally` when `socket.socket()` itself fails; that error would also kill the worker before `task_done`.
- Dispatch.ScanSession.RunScanner: once a worker dies on an out-of-range port, the model stops scanning. The other threads would go on taking the rest of the queue. `q.join()` never returns either way, so the outcome is the same, but `scanned` then lacks those later ports.
- Timing and progress output are left out: `time.time()`, the start and finish messages, and the printing itself. The printed lines are values.
- Command-line parsing is not modelled: `argparse` and its defaults, such as `-p 1-1024`, `-t 100`, `-T 1` and `-v` off. The options become parameters.
- Exiting the process is not modelled. `exit(1)` is an `Outcome`.
- Text.ParseInt: it does not accept Unicode decimal digits or underscores between digits, which `int()` also accepts. The model reads such tokens as malformed.
- Text.ParseInt: it accepts digit strings of any length. Since Python 3.11, `int()` raises ValueError on more than 4300 digits (`sys.get_int_max_str_digits()`).
- Text.ParseNatToString: it holds for every n, but since Python 3.11 `str(n)` raises ValueError when n has more than 4300 digits.

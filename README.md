# Watcher: a model of the CPU/memory sampling loop

Watcher is a small Python monitor. At start-up it tests whether the log file
exists, then opens it for appending (creating it if absent). It writes the CSV
header only when the file did not exist or has size 0. After that it loops
forever. Each tick it asks the metrics
provider (`get_system_stats`) for CPU and memory usage and appends one row
`[timestamp, cpu, mem]` when both values are present. It sleeps between ticks.

This project models that discipline in Dafny (`watcher.dfy`, module `Watcher`):

- The log file is a `LogFile` object with two fields. `present` says whether the file exists; `rows` holds the rows written so far. A row is `Header` or `Data(stamp, cpu, mem)`.
- Its methods follow the source. `StartUp` makes the header decision and opens the file. `WriteLogEntry` appends one row, and a failed write is swallowed. `Tick` is one loop iteration. `LogTicks` is the loop. `Watch` is `main`.
- The value of a store is `Store(present, rows)`. The pure functions `Logged`, `Run` and `Runs` give the rows one run of ticks adds, the effect of one process lifetime, and the effect of a series of restarts. The methods are proved against them.
- The infinite loop becomes a bounded sequence of ticks: the ticks that happen before the stop signal.
- Everything from outside the program is an input:
  - per tick, the outcome of the two OS queries (`None` where the query raised), the formatted timestamp, and whether the row write succeeded;
  - per start-up, whether opening the file and writing the header succeeded.
- The file-existence and size tests become the `present` field and `rows == []`. An empty row sequence stands for a file of size 0.

## Model

| member | source | states |
|---|---|---|
| `Watcher.GetSystemStats` | watcher.py:12-32 | The provider never fails. It returns both values exactly when both OS queries succeed, and `(None, None)` otherwise, never a half-filled pair. |
| `Watcher.TickRowsSpec` | watcher.py:44-48 | A tick adds exactly its own row `[stamp, cpu, mem]` when both values are present and the write succeeds. Otherwise it adds nothing. |
| `Watcher.MissingValueAddsNothing` | watcher.py:72-76 | A tick where cpu or memory is `None` adds no row, whatever the write would have done. |
| `Watcher.Logged` | watcher.py:69-80 | A run adds at most one row per tick, and every row it adds is a data row, never a header. |
| `Watcher.LoggedAppend` | watcher.py:69-80 | The rows of two consecutive stretches of ticks are the rows of the first followed by those of the second. |
| `Watcher.RowOfTickAt` | watcher.py:69-76 | The row of logging tick `i` sits in the log right after the rows of the ticks before `i`. |
| `Watcher.RowsInTickOrder` | watcher.py:69-80 | For two logging ticks `i < j`, tick `i`'s row comes strictly before tick `j`'s. Rows come out in tick order. |
| `Watcher.LoggedCount` | watcher.py:69-76 | The number of rows a run adds equals the number of ticks whose two values are present and whose write succeeds. |
| `Watcher.LoggedCountNoWriteFailure` | watcher.py:70-73 | When no write fails, a run adds one row per tick whose provider result holds both values. |
| `Watcher.Run` | watcher.py:57-80 | A run keeps the old rows as a prefix. It leaves the file present exactly when it was present or the open succeeded. It never leaves rows in an absent file. |
| `Watcher.HeaderAddedIff` | watcher.py:58-67 | A header row is appended if and only if the open and the header write succeed and the file was absent or empty. |
| `Watcher.RestartAppendsOnlyData` | watcher.py:61-65 | Restarting on a non-empty log keeps every existing row unchanged. It appends only the run's data rows after them. |
| `Watcher.RunKeepsHeaderFirstOnly` | watcher.py:58-80 | A run keeps the log's shape: when non-empty, one header at index 0 and data rows after it. |
| `Watcher.RunsExtend` | watcher.py:61 | Over any series of restarts, the earlier contents stay a prefix of the log. |
| `Watcher.RunsKeepHeaderFirstOnly` | watcher.py:58-67 | Over any series of restarts, a log of that shape keeps it and a present-or-empty file stays so. |
| `Watcher.HeaderOnceAcrossRestarts` | watcher.py:58-67 | Start from an absent or empty file, with at least one session whose open and header write succeed. After any series of restarts, the header then appears exactly once, at index 0. |
| `Watcher.ThreeTickScenario` | watcher.py:65-76 | On a new file, ticks (12.3, 45.6), a failed query and (10.0, 50.0) leave the header and exactly those two data rows, in that order. |
| `Watcher.LogFile.StartUp` | watcher.py:57-67 | The header is written iff the open and the header write succeed and the file was absent or empty. A failed open changes nothing. A failed header write stops the process and leaves the (now existing) file's rows as they were. |
| `Watcher.LogFile.WriteLogEntry` | watcher.py:34-48 | It runs only on an open (existing) file and keeps the file valid. A successful write appends exactly `Data(stamp, cpu, mem)` at the end. A failed write leaves the file unchanged. The error goes no further. |
| `Watcher.LogFile.Tick` | watcher.py:70-76 | On an open file, one iteration appends exactly the rows `TickRows` gives: one data row or nothing. Nothing else changes. |
| `Watcher.LogFile.LogTicks` | watcher.py:69-80 | The loop runs on an open file and keeps it valid. After the loop the file holds its old rows followed by `Logged(ticks)`. A failed write does not end the loop. |
| `Watcher.LogFile.Watch` | watcher.py:50-87 | `main` takes the file from store `s` to `Run(s, env, ticks)`. It reports whether it wrote the header. |
| `Watcher.Restart` | watcher.py:58-67 | Two processes run one after the other on an empty file, and the first writes its header. The file then starts with a single header and holds only data rows after it. |

## Left out

- The OS queries `psutil.cpu_percent` and `psutil.virtual_memory` (watcher.py:24-28) are foreign calls. Each becomes an `Option<real>` input, where `None` means the query raised. CPU and memory values are opaque reals. Any [0, 100] range would come from psutil, not from this code, so none is stated.
- `datetime.now().strftime` (watcher.py:43, 76) is a wall clock plus formatting. Each tick's timestamp is an opaque string input. Nothing is stated about timestamps increasing, because that depends on the clock.
- `time.sleep` and the 5-second interval (watcher.py:8, 80) are real time and have no counterpart here. Interval drift is out of scope.
- `print` output (operational messages) is left out. So are the failure of a `print` itself and what follows from it: a failing `print` at watcher.py:46 after a successful `writerow` would be reported as a write error although the row was written.
- CSV quoting, line endings and UTF-8 encoding are not modelled. Neither are a partially written row and the writer's buffering. A write is either complete or leaves the file unchanged. The source never flushes explicitly, so durability per row is not modelled either.
- `os.path.isfile` and `os.path.getsize` (watcher.py:58, 65) become the `present` field and the test `rows == []`. The file being changed by another process between the two tests, or between runs, is not modelled.
- `KeyboardInterrupt`, the top-level `except`/`finally` and the exit banner (watcher.py:82-87) are signal-driven. A run is the finite sequence of ticks before the stop. An interrupt in the middle of a tick is not modelled. Exceptions at start-up (a failed open or header write) are modelled as ending the process with the file's rows as they were; a failed header write leaves the file created and empty if it was absent.

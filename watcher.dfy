/**
 A model of the sampling loop of the Watcher system monitor (watcher.py).

 The CSV log file is an abstract store: whether the file exists, and the
 sequence of rows written to it so far. A row is either the header row or one
 data row (timestamp, cpu, memory). Everything the source obtains from the
 operating system, the clock or the file system is an input: per tick, the
 outcome of the two OS queries, the formatted timestamp and whether the row
 write succeeded; per start-up, whether opening the file and writing the
 header succeeded.
 */
module Watcher {

  datatype Option<+T> = None | Some(value: T)

  /** A timestamp as formatted by the source ('%Y-%m-%d %H:%M:%S'), kept opaque. */
  type Stamp = string

  /** One row of the CSV log: the column header, or one logged sample. */
  datatype Row = Header | Data(stamp: Stamp, cpu: real, mem: real)

  /** What the two OS queries of one tick yield: None where the query raised. */
  datatype Probe = Probe(cpu: Option<real>, mem: Option<real>)

  /** The pair that get_system_stats returns; either component may be None. */
  datatype Stats = Stats(cpu: Option<real>, mem: Option<real>) {
    /** The check the loop makes before logging: neither value is None. */
    predicate Complete() { cpu.Some? && mem.Some? }
  }

  /** Per-tick inputs: the OS queries, the clock reading and the fate of the row write. */
  datatype Tick = Tick(probe: Probe, stamp: Stamp, writeOk: bool)

  /** Per-start-up inputs: whether opening the file and writing the header succeed. */
  datatype StartEnv = StartEnv(openOk: bool, headerOk: bool)

  /** One process lifetime: its start-up inputs and the ticks it performs before it is stopped. */
  datatype Session = Session(env: StartEnv, ticks: seq<Tick>)

  /** The log file as a value: whether it exists, and its rows. */
  datatype Store = Store(present: bool, rows: seq<Row>)

  /** A file that does not exist holds no rows. */
  predicate ValidStore(s: Store) { s.present || s.rows == [] }

  /** The start-up test: the header is due when the file is absent or has size 0. */
  predicate HeaderNeeded(s: Store) { !s.present || |s.rows| == 0 }

  /** The log's shape: when it is non-empty, its first row is the header and every other row is data. */
  predicate HeaderFirstOnly(rows: seq<Row>)
  {
    rows != [] ==> rows[0] == Header && forall i :: 0 < i < |rows| ==> rows[i].Data?
  }

  // ---------------------------------------------------------------------------
  // The metrics provider
  // ---------------------------------------------------------------------------

  /** get_system_stats: it never raises; if either OS query raises, it returns (None, None). */
  function GetSystemStats(p: Probe): (s: Stats)
    ensures s.Complete() || s == Stats(None, None)
    ensures s.Complete() <==> p.cpu.Some? && p.mem.Some?
    ensures s.Complete() ==> s.cpu == p.cpu && s.mem == p.mem
  {
    match p.cpu
    case None => Stats(None, None)
    case Some(c) =>
      match p.mem
      case None => Stats(None, None)
      case Some(m) => Stats(Some(c), Some(m))
  }

  // ---------------------------------------------------------------------------
  // The rows one tick, one run and a series of runs add to the log
  // ---------------------------------------------------------------------------

  /** The rows one call to write_log_entry adds: one data row, or none when the write raises. */
  function EntryRows(stamp: Stamp, cpu: real, mem: real, writeOk: bool): seq<Row>
  {
    if writeOk then [Data(stamp, cpu, mem)] else []
  }

  /** The rows one iteration of the loop adds. */
  function TickRows(t: Tick): seq<Row>
  {
    var s := GetSystemStats(t.probe);
    if s.Complete() then EntryRows(t.stamp, s.cpu.value, s.mem.value, t.writeOk) else []
  }

  /** A tick leaves a row exactly when both queries succeed and the write does too. */
  predicate Logs(t: Tick) { t.probe.cpu.Some? && t.probe.mem.Some? && t.writeOk }

  /** The row a logging tick writes. */
  function RowOf(t: Tick): (r: Row)
    requires Logs(t)
    ensures r.Data? && r.stamp == t.stamp
  {
    Data(t.stamp, t.probe.cpu.value, t.probe.mem.value)
  }

  /** The rows a sequence of ticks adds, in tick order. */
  function Logged(ts: seq<Tick>): (r: seq<Row>)
    ensures |r| <= |ts|
    ensures forall k :: 0 <= k < |r| ==> r[k].Data?
  {
    if ts == [] then [] else Logged(ts[..|ts| - 1]) + TickRows(ts[|ts| - 1])
  }

  /** One execution of main against the store s. */
  function Run(s: Store, e: StartEnv, ts: seq<Tick>): (r: Store)
    ensures s.rows <= r.rows
    ensures r.present == (s.present || e.openOk)
    ensures ValidStore(s) ==> ValidStore(r)
  {
    if !e.openOk then s
    else if HeaderNeeded(s) then
      if e.headerOk then Store(true, s.rows + [Header] + Logged(ts)) else Store(true, s.rows)
    else Store(true, s.rows + Logged(ts))
  }

  /** The store after a series of restarts of the monitor, one session after another. */
  function Runs(s: Store, sessions: seq<Session>): Store
    decreases |sessions|
  {
    if sessions == [] then s
    else Runs(Run(s, sessions[0].env, sessions[0].ticks), sessions[1..])
  }

  /** A header row was appended somewhere after the first |s.rows| rows. */
  predicate HeaderAdded(s: Store, r: Store)
  {
    exists i :: |s.rows| <= i < |r.rows| && r.rows[i] == Header
  }

  // ---------------------------------------------------------------------------
  // One tick
  // ---------------------------------------------------------------------------

  /** A tick adds exactly its own row when it logs, and nothing otherwise. */
  lemma TickRowsSpec(t: Tick)
    ensures Logs(t) ==> TickRows(t) == [RowOf(t)]
    ensures !Logs(t) ==> TickRows(t) == []
  {
  }

  /** A tick where a value is missing adds no row, whatever the write would have done. */
  lemma MissingValueAddsNothing(t: Tick)
    requires GetSystemStats(t.probe).cpu.None? || GetSystemStats(t.probe).mem.None?
    ensures TickRows(t) == []
  {
  }

  // ---------------------------------------------------------------------------
  // A run of ticks: order and count
  // ---------------------------------------------------------------------------

  /** The rows of consecutive stretches of ticks are the concatenation of their rows. */
  lemma {:induction false} LoggedAppend(a: seq<Tick>, b: seq<Tick>)
    ensures Logged(a + b) == Logged(a) + Logged(b)
    decreases |b|
  {
    if b == [] {
      assert a + b == a;
    } else {
      var b' := b[..|b| - 1];
      var x := b[|b| - 1];
      assert (a + b)[..|a + b| - 1] == a + b';
      assert (a + b)[|a + b| - 1] == x;
      LoggedAppend(a, b');
      assert b[..|b| - 1] == b';
    }
  }

  /** The row of a logging tick i sits right after the rows of the ticks before it. */
  lemma RowOfTickAt(ts: seq<Tick>, i: nat)
    requires i < |ts| && Logs(ts[i])
    ensures |Logged(ts[..i])| < |Logged(ts)|
    ensures Logged(ts)[|Logged(ts[..i])|] == RowOf(ts[i])
  {
    assert ts == ts[..i] + ts[i..];
    LoggedAppend(ts[..i], ts[i..]);
    assert ts[i..] == [ts[i]] + ts[i + 1..];
    LoggedAppend([ts[i]], ts[i + 1..]);
    assert [ts[i]][..0] == [];
    TickRowsSpec(ts[i]);
  }

  /** Logging ticks keep their order: the row of an earlier tick comes before that of a later one. */
  lemma RowsInTickOrder(ts: seq<Tick>, i: nat, j: nat)
    requires i < j < |ts| && Logs(ts[i]) && Logs(ts[j])
    ensures |Logged(ts[..i])| < |Logged(ts[..j])| < |Logged(ts)|
    ensures Logged(ts)[|Logged(ts[..i])|] == RowOf(ts[i])
    ensures Logged(ts)[|Logged(ts[..j])|] == RowOf(ts[j])
  {
    RowOfTickAt(ts, i);
    RowOfTickAt(ts, j);
    var p := ts[..j];
    assert p[..i] == ts[..i];
    RowOfTickAt(p, i);
  }

  /** The indices of the ticks that log. */
  function LoggingTicks(ts: seq<Tick>): set<nat>
  {
    set i: nat | i < |ts| && Logs(ts[i])
  }

  /** The number of rows a run adds is the number of ticks that log. */
  lemma {:induction false} LoggedCount(ts: seq<Tick>)
    ensures |Logged(ts)| == |LoggingTicks(ts)|
    decreases |ts|
  {
    if ts != [] {
      var n := |ts| - 1;
      var p := ts[..n];
      LoggedCount(p);
      TickRowsSpec(ts[n]);
      assert forall i: nat :: i < n ==> p[i] == ts[i];
      assert n !in LoggingTicks(p);
      if Logs(ts[n]) {
        assert LoggingTicks(ts) == LoggingTicks(p) + {n};
      } else {
        assert LoggingTicks(ts) == LoggingTicks(p);
      }
    }
  }

  /** When no write fails, a run adds one row per tick whose provider returned both values. */
  lemma LoggedCountNoWriteFailure(ts: seq<Tick>)
    requires forall i :: 0 <= i < |ts| ==> ts[i].writeOk
    ensures |Logged(ts)| == |set i: nat | i < |ts| && GetSystemStats(ts[i].probe).Complete()|
  {
    LoggedCount(ts);
    assert LoggingTicks(ts) == set i: nat | i < |ts| && GetSystemStats(ts[i].probe).Complete();
  }

  // ---------------------------------------------------------------------------
  // Start-up and restarts
  // ---------------------------------------------------------------------------

  /** The header is appended if and only if the file opens, the header write succeeds,
      and the file was absent or empty. */
  lemma HeaderAddedIff(s: Store, e: StartEnv, ts: seq<Tick>)
    ensures HeaderAdded(s, Run(s, e, ts)) <==> e.openOk && e.headerOk && HeaderNeeded(s)
  {
    var r := Run(s, e, ts);
    if e.openOk && e.headerOk && HeaderNeeded(s) {
      assert r.rows[|s.rows|] == Header;
    } else {
      assert forall i :: |s.rows| <= i < |r.rows| ==> r.rows[i].Data?;
    }
  }

  /** Restarting on a non-empty log adds only data rows after the rows already there. */
  lemma RestartAppendsOnlyData(s: Store, e: StartEnv, ts: seq<Tick>)
    requires ValidStore(s) && s.rows != []
    ensures Run(s, e, ts).rows == s.rows + (if e.openOk then Logged(ts) else [])
    ensures forall i :: |s.rows| <= i < |Run(s, e, ts).rows| ==> Run(s, e, ts).rows[i].Data?
  {
  }

  /** A run keeps the log's shape: one header, at index 0, followed by data rows only. */
  lemma RunKeepsHeaderFirstOnly(s: Store, e: StartEnv, ts: seq<Tick>)
    requires ValidStore(s) && HeaderFirstOnly(s.rows)
    ensures HeaderFirstOnly(Run(s, e, ts).rows)
  {
  }

  /** Restarts never rewrite what is already in the log. */
  lemma {:induction false} RunsExtend(s: Store, sessions: seq<Session>)
    ensures s.rows <= Runs(s, sessions).rows
    decreases |sessions|
  {
    if sessions != [] {
      var s' := Run(s, sessions[0].env, sessions[0].ticks);
      RunsExtend(s', sessions[1..]);
    }
  }

  /** Over any series of restarts, a log that keeps its shape keeps it. */
  lemma {:induction false} RunsKeepHeaderFirstOnly(s: Store, sessions: seq<Session>)
    requires ValidStore(s) && HeaderFirstOnly(s.rows)
    ensures ValidStore(Runs(s, sessions)) && HeaderFirstOnly(Runs(s, sessions).rows)
    decreases |sessions|
  {
    if sessions != [] {
      RunKeepsHeaderFirstOnly(s, sessions[0].env, sessions[0].ticks);
      RunsKeepHeaderFirstOnly(Run(s, sessions[0].env, sessions[0].ticks), sessions[1..]);
    }
  }

  /** Header once: starting from an absent or empty file, after any series of restarts
      the log is empty or holds exactly one header, at index 0; and it is non-empty
      as soon as one session opened the file and wrote its header. */
  lemma {:induction false} HeaderOnceAcrossRestarts(s: Store, sessions: seq<Session>, k: nat)
    requires ValidStore(s) && s.rows == []
    requires k < |sessions| && sessions[k].env.openOk && sessions[k].env.headerOk
    ensures Runs(s, sessions).rows != []
    ensures Runs(s, sessions).rows[0] == Header
    ensures forall i :: 0 < i < |Runs(s, sessions).rows| ==> Runs(s, sessions).rows[i].Data?
    decreases |sessions|
  {
    RunsKeepHeaderFirstOnly(s, sessions);
    var s' := Run(s, sessions[0].env, sessions[0].ticks);
    if k == 0 {
      assert s'.rows != [];
      RunsExtend(s', sessions[1..]);
    } else if s'.rows == [] {
      HeaderOnceAcrossRestarts(s', sessions[1..], k - 1);
    } else {
      RunsExtend(s', sessions[1..]);
    }
  }

  /** The three-tick scenario: on an empty file, samples (12.3, 45.6), a failed query and
      (10.0, 50.0) leave the header and exactly two data rows. */
  lemma ThreeTickScenario(s1: Stamp, s2: Stamp, s3: Stamp)
    ensures Run(Store(false, []), StartEnv(true, true),
                [Tick(Probe(Some(12.3), Some(45.6)), s1, true),
                 Tick(Probe(None, None), s2, true),
                 Tick(Probe(Some(10.0), Some(50.0)), s3, true)]).rows
            == [Header, Data(s1, 12.3, 45.6), Data(s3, 10.0, 50.0)]
  {
    var ts := [Tick(Probe(Some(12.3), Some(45.6)), s1, true),
               Tick(Probe(None, None), s2, true),
               Tick(Probe(Some(10.0), Some(50.0)), s3, true)];
    assert ts[..2][..1] == ts[..1];
    assert ts[..1][..0] == [];
    assert Logged(ts[..1]) == [Data(s1, 12.3, 45.6)];
    assert Logged(ts[..2]) == [Data(s1, 12.3, 45.6)];
    assert ts[..3] == ts;
    assert Logged(ts) == [Data(s1, 12.3, 45.6), Data(s3, 10.0, 50.0)];
  }

  // ---------------------------------------------------------------------------
  // The log file and the writer that appends to it
  // ---------------------------------------------------------------------------

  /** The CSV file on disk, as the process's writer changes it. */
  class LogFile {
    var present: bool
    var rows: seq<Row>

    predicate Valid() reads this { ValidStore(Value()) }

    function Value(): Store reads this { Store(present, rows) }

    /** The file as the process finds it. */
    constructor (present: bool, rows: seq<Row>)
      requires ValidStore(Store(present, rows))
      ensures Valid() && Value() == Store(present, rows)
    {
      this.present := present;
      this.rows := rows;
    }

    /** Start-up: test whether the file exists, open it for appending (which creates it)
        and write the header when the file was absent or empty. On a failed open or
        a failed header write the process stops. */
    method StartUp(env: StartEnv) returns (proceed: bool, headerWritten: bool)
      requires Valid()
      modifies this
      ensures Valid()
      ensures headerWritten == (env.openOk && env.headerOk && HeaderNeeded(old(Value())))
      ensures proceed == (env.openOk && (env.headerOk || !HeaderNeeded(old(Value()))))
      ensures present == (old(present) || env.openOk)
      ensures rows == old(rows) + (if headerWritten then [Header] else [])
    {
      var fileExists := present;
      proceed, headerWritten := false, false;
      if !env.openOk {
        return;
      }
      present := true;
      if !fileExists || |rows| == 0 {
        if !env.headerOk {
          return;
        }
        rows := rows + [Header];
        headerWritten := true;
      }
      proceed := true;
    }

    /** write_log_entry: append one data row through the writer of the open file;
        a failed write is reported and swallowed. */
    method WriteLogEntry(stamp: Stamp, cpu: real, mem: real, writeOk: bool) returns (logged: bool)
      requires Valid() && present
      modifies this
      ensures Valid()
      ensures logged == writeOk
      ensures present == old(present)
      ensures rows == old(rows) + (if writeOk then [Data(stamp, cpu, mem)] else [])
    {
      logged := writeOk;
      if writeOk {
        rows := rows + [Data(stamp, cpu, mem)];
      }
    }

    /** One iteration of the loop: query the provider, log the sample when both values are present. */
    method Tick(t: Tick)
      requires Valid() && present
      modifies this
      ensures Valid()
      ensures present == old(present)
      ensures rows == old(rows) + TickRows(t)
    {
      var stats := GetSystemStats(t.probe);
      if stats.cpu.Some? && stats.mem.Some? {
        var _ := WriteLogEntry(t.stamp, stats.cpu.value, stats.mem.value, t.writeOk);
      }
    }

    /** The loop, bounded by the ticks that happen before the stop signal. */
    method LogTicks(ticks: seq<Tick>)
      requires Valid() && present
      modifies this
      ensures Valid()
      ensures present == old(present)
      ensures rows == old(rows) + Logged(ticks)
    {
      var i := 0;
      while i < |ticks|
        invariant 0 <= i <= |ticks|
        invariant Valid() && present == old(present)
        invariant rows == old(rows) + Logged(ticks[..i])
      {
        Tick(ticks[i]);
        assert ticks[..i + 1][..i] == ticks[..i];
        i := i + 1;
      }
      assert ticks[..|ticks|] == ticks;
    }

    /** main: start up, then run the loop until stopped. */
    method Watch(env: StartEnv, ticks: seq<Tick>) returns (headerWritten: bool)
      requires Valid()
      modifies this
      ensures Valid()
      ensures headerWritten == (env.openOk && env.headerOk && HeaderNeeded(old(Value())))
      ensures Value() == Run(old(Value()), env, ticks)
    {
      var proceed;
      proceed, headerWritten := StartUp(env);
      if proceed {
        LogTicks(ticks);
      }
    }
  }

  /** Two restarts of the monitor on one file leave a single header at its head. */
  method Restart(f: LogFile, first: Session, second: Session)
    requires f.Valid() && f.rows == []
    requires first.env.openOk && first.env.headerOk
    modifies f
    ensures f.Valid() && f.rows != [] && f.rows[0] == Header
    ensures forall i :: 0 < i < |f.rows| ==> f.rows[i].Data?
  {
    ghost var s := f.Value();
    var _ := f.Watch(first.env, first.ticks);
    ghost var s1 := f.Value();
    var _ := f.Watch(second.env, second.ticks);
    assert [first, second][1..] == [second];
    assert Runs(s1, [second]) == Runs(f.Value(), []);
    assert f.Value() == Runs(s, [first, second]);
    HeaderOnceAcrossRestarts(s, [first, second], 0);
  }
}

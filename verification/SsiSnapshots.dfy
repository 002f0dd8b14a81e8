/** What a read sees under SSI, over whole runs: a version not after the start of the reader, and when that
    stays the newest one. Commit timestamps are drawn before the rows are written (system/txn.cpp:567-575),
    so a version can still arrive below a start that is already past. */
module SsiSnapshots {
  import opened SerialHistory
  import opened Ssi
  import opened SsiRuns

  /** `y` has drawn a timestamp between the version a read got and its start, and has not installed the row. */
  ghost predicate Racing(s: System, k: Key, ver: nat, start: nat, y: Tx) {
    && y in s.trans && s.trans[y].phase.Installing? && WriteLog(y, k) in s.writeLog
    && InstallLog(y, k, s.trans[y].phase.ts) !in s.installLog && ver < s.trans[y].phase.ts <= start
  }

  ghost predicate Raced(s: System, k: Key, ver: nat, start: nat) {
    exists y :: Racing(s, k, ver, start, y)
  }

  ghost predicate NothingBetween(s: System, k: Key, ver: nat, start: nat) {
    forall e :: e in s.installLog && e.key == k ==> !(ver < e.ts <= start)
  }

  /** Nothing lies in between and nothing can arrive there. */
  ghost predicate Settled(s: System, k: Key, ver: nat, start: nat) {
    start <= s.clock && NothingBetween(s, k, ver, start) && forall y :: !Racing(s, k, ver, start, y)
  }

  /** In every reachable state a read gets a version not after its start with nothing installed in between. */
  lemma ReadIsNewest(run: seq<System>, s': System, x: Tx, k: Key)
    requires IsRun(run) && ReadRow(run[|run| - 1], s', x, k)
    ensures var s := run[|run| - 1];
            var ver := VersionAt(s.rows[k].his, s.trans[x].start);
            && ver <= s.trans[x].start <= s.clock && ReadLog(x, k, ver) in s'.readLog
            && (ver == 0 || exists u :: u in s.rows[k].his && u.ts == ver)
            && NothingBetween(s', k, ver, s.trans[x].start)
  {
    hide Step, Init, Tracked, LocksOk, MarkWriters;
    RunKeeps(run);
    var s := run[|run| - 1];
    assert HistoryOk(k, s.rows[k].his, s.installLog, s.floor);
    assert TranOk(s.clock, s.floor, s.trans[x]);
    var his, start := s.rows[k].his, s.trans[x].start;
    VersionAtExactly(his, start);
    forall e | e in s.installLog && e.key == k && e.ts <= start
      ensures e.ts <= VersionAt(his, start)
    {
      assert InstallLog(e.tx, k, e.ts) in s.installLog;
      if Version(e.ts, e.tx) in his {
        VersionAtLeast(his, start, Version(e.ts, e.tx));
      } else {
        var v :| v in his && e.ts <= v.ts < s.floor;
        VersionAtLeast(his, start, v);
      }
    }
  }

  lemma ReadsStayBelowStart(s: System, s': System, x: Tx, k: Key)
    requires ReadRow(s, s', x, k)
    ensures s'.clock == s.clock && s'.trans == s.trans && s'.installLog == s.installLog && s'.writeLog == s.writeLog
  {
  }

  // ----- once settled, settled for good -----------------------------------------------------

  lemma InstallKeepsSettled(s: System, s': System, x: Tx, j: Key, k: Key, ver: nat, start: nat)
    requires Settled(s, k, ver, start) && InstallRow(s, s', x, j)
    ensures Settled(s', k, ver, start)
  {
    assert !Racing(s, k, ver, start, x);
    forall y
      ensures !Racing(s', k, ver, start, y)
    {
      assert !Racing(s, k, ver, start, y);
    }
  }

  lemma ChooseKeepsSettled(s: System, s': System, x: Tx, k: Key, ver: nat, start: nat)
    requires Settled(s, k, ver, start) && ChooseTs(s, s', x)
    ensures Settled(s', k, ver, start)
  {
    forall y
      ensures !Racing(s', k, ver, start, y)
    {
      assert !Racing(s, k, ver, start, y);
    }
  }

  lemma PrewriteKeepsSettled(s: System, s': System, x: Tx, j: Key, k: Key, ver: nat, start: nat)
    requires Settled(s, k, ver, start) && PrewriteRow(s, s', x, j)
    ensures Settled(s', k, ver, start)
  {
    hide Prewrite;
    forall y
      ensures !Racing(s', k, ver, start, y)
    {
      assert !Racing(s, k, ver, start, y);
    }
  }

  /** Steps that draw no timestamp, log no write and install nothing. */
  lemma OtherKeepsSettled(s: System, s': System, k: Key, ver: nat, start: nat)
    requires Settled(s, k, ver, start) && s.clock <= s'.clock
    requires s'.writeLog == s.writeLog && s'.installLog == s.installLog
    requires forall y :: y in s'.trans && s'.trans[y].phase.Installing? ==> y in s.trans && s.trans[y] == s'.trans[y]
    ensures Settled(s', k, ver, start)
  {
    forall y
      ensures !Racing(s', k, ver, start, y)
    {
      assert !Racing(s, k, ver, start, y);
    }
  }

  lemma RowStepIsQuiet(s: System, s': System, x: Tx, k: Key, th: nat)
    requires ReadRow(s, s', x, k) || CancelRow(s, s', x, k) || RecycleRow(s, s', k, th)
    ensures s.clock <= s'.clock && s'.writeLog == s.writeLog && s'.installLog == s.installLog && s'.trans == s.trans
  {
    hide Read, Recycle;
  }

  lemma TranStepIsQuiet(s: System, s': System, x: Tx)
    requires || Begin(s, s', x) || InitEntry(s, s', x) || Validate(s, s', x) || PublishTs(s, s', x)
             || PublishState(s, s', x) || AbortTxn(s, s', x) || ClearTxn(s, s', x)
    ensures s.clock <= s'.clock && s'.writeLog == s.writeLog && s'.installLog == s.installLog
    ensures forall y :: y in s'.trans && s'.trans[y].phase.Installing? ==> y in s.trans && s.trans[y] == s'.trans[y]
  {
    hide Clear;
  }

  lemma OtherStepIsQuiet(s: System, s': System)
    requires Step(s, s')
    requires forall x, k :: !InstallRow(s, s', x, k) && !PrewriteRow(s, s', x, k)
    requires forall x :: !ChooseTs(s, s', x)
    ensures s.clock <= s'.clock && s'.writeLog == s.writeLog && s'.installLog == s.installLog
    ensures forall y :: y in s'.trans && s'.trans[y].phase.Installing? ==> y in s.trans && s.trans[y] == s'.trans[y]
  {
    hide InstallRow, PrewriteRow, ChooseTs, ReadRow, CancelRow, RecycleRow, Begin, InitEntry, Validate, PublishTs;
    hide PublishState, AbortTxn, ClearTxn;
    if x, k :| ReadRow(s, s', x, k) || CancelRow(s, s', x, k) {
      RowStepIsQuiet(s, s', x, k, 0);
    } else if k, th :| RecycleRow(s, s', k, th) {
      RowStepIsQuiet(s, s', 0, k, th);
    } else {
      var x :| || Begin(s, s', x) || InitEntry(s, s', x) || Validate(s, s', x) || PublishTs(s, s', x)
               || PublishState(s, s', x) || AbortTxn(s, s', x) || ClearTxn(s, s', x);
      TranStepIsQuiet(s, s', x);
    }
  }

  lemma StepKeepsSettled(s: System, s': System, k: Key, ver: nat, start: nat)
    requires Step(s, s') && Settled(s, k, ver, start)
    ensures Settled(s', k, ver, start)
  {
    hide Step, Settled, InstallRow, PrewriteRow, ChooseTs;
    if x, j :| InstallRow(s, s', x, j) {
      InstallKeepsSettled(s, s', x, j, k, ver, start);
    } else if x, j :| PrewriteRow(s, s', x, j) {
      PrewriteKeepsSettled(s, s', x, j, k, ver, start);
    } else if x :| ChooseTs(s, s', x) {
      ChooseKeepsSettled(s, s', x, k, ver, start);
    } else {
      OtherStepIsQuiet(s, s');
      OtherKeepsSettled(s, s', k, ver, start);
    }
  }

  lemma {:induction false} RunKeepsSettled(run: seq<System>, i: nat, j: nat, k: Key, ver: nat, start: nat)
    requires IsRun(run) && i <= j < |run| && Settled(run[i], k, ver, start)
    ensures Settled(run[j], k, ver, start)
    decreases j
  {
    hide Step, Settled, Init;
    if i < j {
      RunKeepsSettled(run, i, j - 1, k, ver, start);
      StepKeepsSettled(run[j - 1], run[j], k, ver, start);
    }
  }

  // ----- the exact condition ----------------------------------------------------------------

  /** The installation that was racing. */
  lemma RacerArrives(run: seq<System>, k: Key, ver: nat, start: nat, y: Tx) returns (rest: seq<System>)
    requires IsRun(run) && k in run[|run| - 1].rows && Racing(run[|run| - 1], k, ver, start, y)
    ensures IsRun(rest) && run <= rest && !NothingBetween(rest[|rest| - 1], k, ver, start)
  {
    hide Step, Init;
    var s := run[|run| - 1];
    var ts := s.trans[y].phase.ts;
    var s' := s.(rows := s.rows[k := Install(s.rows[k], y, ts)], installLog := s.installLog + {InstallLog(y, k, ts)});
    InstallIsStep(s, s', y, k);
    assert InstallLog(y, k, ts) in s'.installLog;
    rest := run + [s'];
  }

  lemma InstallIsStep(s: System, s': System, x: Tx, k: Key)
    requires InstallRow(s, s', x, k)
    ensures Step(s, s')
  {
    assert OtherStep(s, s');
  }

  /** In every run that ends with a read: in all continuations the version it got stays the newest one not
      after its start, exactly if nobody had drawn a timestamp in between without having installed the row. */
  lemma SnapshotHoldsExactly(run: seq<System>, x: Tx, k: Key)
    requires IsRun(run) && |run| >= 2 && ReadRow(run[|run| - 2], run[|run| - 1], x, k)
    ensures var start := run[|run| - 2].trans[x].start;
            var ver := VersionAt(run[|run| - 2].rows[k].his, start);
            !Raced(run[|run| - 1], k, ver, start) <==>
            forall rest: seq<System> :: IsRun(rest) && run <= rest ==> NothingBetween(rest[|rest| - 1], k, ver, start)
  {
    hide Step, Init, Racing, NothingBetween;
    var n := |run| - 1;
    var start := run[n - 1].trans[x].start;
    var ver := VersionAt(run[n - 1].rows[k].his, start);
    assert run[..n][n - 1] == run[n - 1];
    ReadIsNewest(run[..n], run[n], x, k);
    ReadsStayBelowStart(run[n - 1], run[n], x, k);
    hide ReadRow;
    if !Raced(run[n], k, ver, start) {
      assert Settled(run[n], k, ver, start);
      forall rest: seq<System> | IsRun(rest) && run <= rest
        ensures NothingBetween(rest[|rest| - 1], k, ver, start)
      {
        assert rest[n] == run[n];
        RunKeepsSettled(rest, n, |rest| - 1, k, ver, start);
      }
    } else {
      var y :| Racing(run[n], k, ver, start, y);
      var rest := RacerArrives(run, k, ver, start, y);
    }
  }

  // ----- a read that is overtaken -----------------------------------------------------------

  /** Transaction 1 prewrites row 0, validates and draws timestamp 2; 2 starts at 3 and reads the row. */
  const EMPTY := Row([], [], [], [])
  const LOCKED := Row([], [1], [], [1])

  function State(clock: nat, row: Row, ts: map<Tx, Tran>, rs: set<ReadLog>, ws: set<WriteLog>): System {
    System(4, clock, 0, map[0 := row], map[], ts, rs, ws, {})
  }

  const S0 := State(0, EMPTY, map[], {}, {})
  const S1 := State(1, EMPTY, map[1 := Tran(1, Active)], {}, {})
  const S2 := State(1, LOCKED, map[1 := Tran(1, Active)], {}, {WriteLog(1, 0)})
  const S3 := State(1, LOCKED, map[1 := Tran(1, Validated)], {}, {WriteLog(1, 0)})
  const S4 := State(2, LOCKED, map[1 := Tran(1, Installing(2))], {}, {WriteLog(1, 0)})
  const S5 := State(3, LOCKED, map[1 := Tran(1, Installing(2)), 2 := Tran(3, Active)], {}, {WriteLog(1, 0)})
  const S6 := State(3, LOCKED.(readLocks := [2]), map[1 := Tran(1, Installing(2)), 2 := Tran(3, Active)],
                    {ReadLog(2, 0, 0)}, {WriteLog(1, 0)})

  lemma StepOf(s: System, s': System)
    requires OtherStep(s, s')
    ensures Step(s, s')
  {
  }

  lemma FirstSteps()
    ensures Init(S0) && Step(S0, S1) && Step(S1, S2)
  {
    hide Step;
    assert S1.trans == S0.trans[1 := Tran(1, Active)];
    assert Begin(S0, S1, 1);
    StepOf(S0, S1);
    PrewriteOk(EMPTY, map[], 1, 1, 4);
    assert [1] + [] == [1];
    assert Prewrite(EMPTY, map[], 1, 1, 4) == (RcOk, LOCKED, map[]);
    assert S2.rows == S1.rows[0 := LOCKED];
    assert S2.writeLog == S1.writeLog + {WriteLog(1, 0)};
    assert PrewriteRow(S1, S2, 1, 0);
    StepOf(S1, S2);
  }

  lemma NextSteps()
    ensures Step(S2, S3) && Step(S3, S4) && Step(S4, S5)
  {
    hide Step;
    assert S3.trans == S2.trans[1 := Tran(1, Validated)];
    assert Validate(S2, S3, 1);
    StepOf(S2, S3);
    assert S4.trans == S3.trans[1 := Tran(1, Installing(2))];
    assert ChooseTs(S3, S4, 1);
    StepOf(S3, S4);
    assert S5.trans == S4.trans[2 := Tran(3, Active)];
    assert Begin(S4, S5, 2);
    StepOf(S4, S5);
  }

  lemma LastStep()
    ensures Step(S5, S6) && ReadRow(S5, S6, 2, 0)
  {
    hide Step;
    ReadOk(LOCKED, map[], 2, 3);
    assert [2] + [] == [2];
    assert Read(LOCKED, map[], 2, 3) == (LOCKED.(readLocks := [2]), map[], 0);
    assert S6.rows == S5.rows[0 := LOCKED.(readLocks := [2])];
    assert S6.readLog == S5.readLog + {ReadLog(2, 0, 0)};
    assert ReadRow(S5, S6, 2, 0);
    StepOf(S5, S6);
  }

  /** There is a run that ends with a read by a transaction started at 3, which gets the base row, and goes on
      with a version of timestamp 2 arriving in the row. */
  lemma SnapshotCanBreak() returns (run: seq<System>, rest: seq<System>)
    ensures IsRun(run) && |run| >= 2 && ReadRow(run[|run| - 2], run[|run| - 1], 2, 0)
    ensures run[|run| - 2].trans[2].start == 3 && ReadLog(2, 0, 0) in run[|run| - 1].readLog
    ensures IsRun(rest) && run <= rest && !NothingBetween(rest[|rest| - 1], 0, 0, 3)
  {
    hide Step, Init, ReadRow, NothingBetween;
    FirstSteps();
    NextSteps();
    LastStep();
    run := [S0, S1, S2, S3, S4, S5, S6];
    assert Racing(S6, 0, 0, 3, 1);
    rest := RacerArrives(run, 0, 0, 3, 1);
  }
}

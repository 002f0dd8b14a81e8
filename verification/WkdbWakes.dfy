/** Why ordering readers before writers needs a condition in WOOKONG: a transaction that has been moved
    below a validating writer waits at another row, is woken with its upper bound set back
    (concurrency_control/row_wkdb.cpp:282-323), and commits after the writer whose write it has not seen.
    Row 0 is prewritten by transaction 3 and then by 1; row 1 is read by 1 and written by 2. */
module WkdbWakes {
  import opened SerialHistory
  import opened Maat
  import opened Dta
  import opened DtaRuns
  import opened DtaSteps

  function State(t: Table, rows: map<Key, Row>, buffers: map<Key, seq<Tx>>, begun: map<Tx, Origin>,
                 commits: map<Tx, Ts>): System
  {
    System(WkdbVariant, 4, t, rows, buffers, begun, commits, {}, {})
  }

  /** An interval without an upper end. */
  function From(lower: Ts, st: Maat.State): Interval {
    Interval(lower, UINT64_MAX, st)
  }

  const ONE: map<Tx, Origin> := map[3 := Origin(20, 0)]
  const TWO: map<Tx, Origin> := map[3 := Origin(20, 0), 1 := Origin(5, 0)]
  const THREE: map<Tx, Origin> := map[3 := Origin(20, 0), 1 := Origin(5, 0), 2 := Origin(10, 0)]

  /** Transaction 3 prewrites row 0, validates and commits at 20, but has not left the row yet. */
  const S0 := State(map[],
                    map[0 := Row(0, 0, []), 1 := Row(0, 0, [])],
                    map[0 := [], 1 := []], map[], map[])
  const S1 := State(map[3 := From(20, Running)],
                    map[0 := Row(0, 0, []), 1 := Row(0, 0, [])],
                    map[0 := [], 1 := []], ONE, map[])
  const S2 := State(map[3 := From(20, Running)],
                    map[0 := Row(0, 0, [3]), 1 := Row(0, 0, [])],
                    map[0 := [], 1 := []], ONE, map[])
  const S3 := State(map[3 := From(20, Validated)],
                    map[0 := Row(0, 3, [3]), 1 := Row(0, 0, [])],
                    map[0 := [], 1 := []], ONE, map[])
  const S4 := State(map[3 := From(20, Committed)],
                    map[0 := Row(0, 3, [3]), 1 := Row(0, 0, [])],
                    map[0 := [], 1 := []], ONE, map[3 := 20])

  /** Transaction 1 reads row 1 and waits to prewrite row 0. */
  const S5 := State(map[3 := From(20, Committed), 1 := From(5, Running)],
                    map[0 := Row(0, 3, [3]), 1 := Row(0, 0, [])],
                    map[0 := [], 1 := []], TWO, map[3 := 20])
  const S6 := State(map[3 := From(20, Committed), 1 := From(5, Running)],
                    map[0 := Row(0, 3, [3]), 1 := Row(0, 0, [1])],
                    map[0 := [], 1 := []], TWO, map[3 := 20])
  const S7 := State(map[3 := From(20, Committed), 1 := From(5, Running)],
                    map[0 := Row(0, 3, [1, 3]), 1 := Row(0, 0, [1])],
                    map[0 := [1], 1 := []], TWO, map[3 := 20])

  /** Transaction 2 writes row 1 and validates, which trims 1 to end at 10; it commits at 10. */
  const S8 := State(map[3 := From(20, Committed), 1 := From(5, Running), 2 := From(10, Running)],
                    map[0 := Row(0, 3, [1, 3]), 1 := Row(0, 0, [1])],
                    map[0 := [1], 1 := []], THREE, map[3 := 20])
  const S9 := State(map[3 := From(20, Committed), 1 := From(5, Running), 2 := From(10, Running)],
                    map[0 := Row(0, 3, [1, 3]), 1 := Row(0, 0, [1, 2])],
                    map[0 := [1], 1 := []], THREE, map[3 := 20])
  const S10 := State(map[3 := From(20, Committed), 1 := Interval(5, 10, Running), 2 := From(10, Validated)],
                    map[0 := Row(0, 3, [1, 3]), 1 := Row(0, 2, [1, 2])],
                    map[0 := [1], 1 := []], THREE, map[3 := 20])
  const S11 := State(map[3 := From(20, Committed), 1 := Interval(5, 10, Running), 2 := From(10, Committed)],
                    map[0 := Row(0, 3, [1, 3]), 1 := Row(0, 2, [1, 2])],
                    map[0 := [1], 1 := []], THREE, map[3 := 20, 2 := 10])

  /** Transaction 3 leaves row 0 and wakes 1, which validates above the last read of row 0 and commits. */
  const S12 := State(map[3 := From(20, Committed), 1 := From(5, Running), 2 := From(10, Committed)],
                    map[0 := Row(20, 1, [1]), 1 := Row(0, 2, [1, 2])],
                    map[0 := [], 1 := []], THREE, map[3 := 20, 2 := 10]).(writeLog := {Write(3, 0, 20)})
  const S13 := State(map[3 := From(20, Committed), 1 := From(21, Validated), 2 := From(10, Committed)],
                    map[0 := Row(20, 1, [1]), 1 := Row(0, 2, [1, 2])],
                    map[0 := [], 1 := []], THREE, map[3 := 20, 2 := 10]).(writeLog := {Write(3, 0, 20)})
  const S14 := State(map[3 := From(20, Committed), 1 := From(21, Committed), 2 := From(10, Committed)],
                    map[0 := Row(20, 1, [1]), 1 := Row(0, 2, [1, 2])],
                    map[0 := [], 1 := []], THREE, map[3 := 20, 2 := 10, 1 := 21]).(writeLog := {Write(3, 0, 20)})

  lemma Start()
    ensures Init(S0)
  {
  }

  lemma Step1()
    ensures Step(S0, S1)
  {
    hide Waits;
    assert S1.table == S0.table[3 := Interval(20, UINT64_MAX, Running)];
    assert S1.begun == S0.begun[3 := Origin(20, 0)];
    assert Begin(S0, S1, 3, 20);
  }

  lemma Step2()
    ensures Step(S1, S2)
  {
    hide Waits;
    assert Insert([], 3) == [3];
    assert S2.rows == S1.rows[0 := S2.rows[0]];
    NotWaiting(S1, 3);
    assert AccessRow(S1, S2, 3, 0);
  }

  lemma Step3()
    ensures Step(S2, S3)
  {
    hide Step, Waits, ReadersLoop, ValidateRows;
    var s, s' := S2, S3;
    OnlyReader(s.table, 3, 20, UINT64_MAX);
    var scan := Scan(20, s.table, false);
    assert s'.table == Dta.Store(scan.table, 3, scan.lower, UINT64_MAX, Validated);
    assert s'.rows == s.rows[0 := s.rows[0].(writeTrans := 3)];
    NotWaiting(s, 3);
    ValidateOne(s, s', 3, 0, scan);
  }

  lemma Step4()
    ensures Step(S3, S4)
  {
    hide Waits;
    assert S4.table == S3.table[3 := S4.table[3]];
    assert S4.commits == S3.commits[3 := S4.commits[3]];
    assert ChooseTs(S3, S4, 3);
  }

  lemma Step5()
    ensures Step(S4, S5)
  {
    hide Waits;
    assert S5.table == S4.table[1 := Interval(5, UINT64_MAX, Running)];
    assert S5.begun == S4.begun[1 := Origin(5, 0)];
    assert Begin(S4, S5, 1, 5);
  }

  lemma Step6()
    ensures Step(S5, S6)
  {
    hide Waits;
    assert Insert([], 1) == [1];
    assert S6.rows == S5.rows[1 := S6.rows[1]];
    NotWaiting(S5, 1);
    assert AccessRow(S5, S6, 1, 1);
  }

  lemma Step7()
    ensures Step(S6, S7)
  {
    hide Waits;
    assert Insert([3], 1) == [1, 3];
    assert [1] + [] == [1];
    assert S7.rows == S6.rows[0 := S7.rows[0]];
    assert S7.buffers == S6.buffers[0 := [1]];
    NotWaiting(S6, 1);
    assert BufferRow(S6, S7, 1, 0);
  }

  lemma Step8()
    ensures Step(S7, S8)
  {
    hide Waits;
    assert S8.table == S7.table[2 := Interval(10, UINT64_MAX, Running)];
    assert S8.begun == S7.begun[2 := Origin(10, 0)];
    assert Begin(S7, S8, 2, 10);
  }

  lemma Step9()
    ensures Step(S8, S9)
  {
    hide Waits;
    assert [1][1..] == [] && Insert([], 2) == [2];
    assert Insert([1], 2) == [1, 2];
    assert S9.rows == S8.rows[1 := S9.rows[1]];
    NotWaiting(S8, 2);
    assert AccessRow(S8, S9, 2, 1);
  }

  lemma Step10()
    ensures Step(S9, S10)
    ensures ValidateTxn(S9, S10, 2, [1])
    ensures ValidateRows(WkdbVariant, S9.table, 2, 0, RowsAt(S9, [1])).0 == RcOk
  {
    hide Step, Waits, ReadersLoop, ValidateRows;
    var s, s' := S9, S10;
    OtherReader(s.table, 2, 1, 10, UINT64_MAX);
    var scan := Scan(10, s.table[1 := Interval(5, 10, Running)], false);
    assert s'.table == Dta.Store(scan.table, 2, scan.lower, UINT64_MAX, Validated);
    assert s'.rows == s.rows[1 := s.rows[1].(writeTrans := 2)];
    NotWaiting(s, 2);
    ValidateOne(s, s', 2, 1, scan);
  }

  lemma Step11()
    ensures Step(S10, S11)
  {
    hide Waits;
    assert S11.table == S10.table[2 := S11.table[2]];
    assert S11.commits == S10.commits[2 := S11.commits[2]];
    assert ChooseTs(S10, S11, 2);
  }

  /** Transaction 3 has left row 0 and not woken anybody yet. */
  const LEFT := S11.(rows := S11.rows[0 := Row(20, 0, [1])], writeLog := {Write(3, 0, 20)})

  lemma ThreeLeaves()
    ensures LeaveRow(S11, LEFT, 3, 0, 0)
  {
    assert S11.writeLog + {Write(3, 0, 20)} == {Write(3, 0, 20)};
  }

  lemma OneWakes()
    ensures Wake(LEFT, S12, 3, 0, 1)
  {
    assert S12.table == SetUpper(LEFT.table, 1, UINT64_MAX);
    assert S12.rows == LEFT.rows[0 := Row(20, 1, [1])];
    var one: seq<Tx> := [1];
    assert one[..0] + one[1..] == [];
    assert S12.buffers == LEFT.buffers[0 := []];
    assert LEFT.buffers[0] == [1];
  }

  lemma Step12()
    ensures Step(S11, S12)
  {
    hide Step, LeaveRow, Wake;
    ThreeLeaves();
    OneWakes();
    assert LeaveAndWake(S11, S12, 3, 0, 0, 1);
    WakeIsStep(S11, S12, 3, 0, 0, 1);
  }

  lemma Step13()
    ensures Step(S12, S13)
  {
    hide Step, Waits, ReadersLoop, ValidateRows;
    var s, s' := S12, S13;
    OnlyReader(s.table, 1, 21, UINT64_MAX);
    var scan := Scan(21, s.table, false);
    assert s'.table == Dta.Store(scan.table, 1, scan.lower, UINT64_MAX, Validated);
    assert s'.rows == s.rows[0 := s.rows[0].(writeTrans := 1)];
    NotWaiting(s, 1);
    ValidateOne(s, s', 1, 0, scan);
  }

  lemma Step14()
    ensures Step(S13, S14)
  {
    hide Waits;
    assert S14.table == S13.table[1 := S14.table[1]];
    assert S14.commits == S13.commits[1 := S14.commits[1]];
    assert ChooseTs(S13, S14, 1);
  }

  lemma WholeRun() returns (run: seq<System>)
    ensures IsRun(run) && |run| == 15 && run[9] == S9 && run[10] == S10 && run[14] == S14
  {
    hide Step, Init, State;
    run := [S0, S1, S2, S3, S4, S5, S6, S7, S8, S9, S10, S11, S12, S13, S14];
    Start();
    Step1();
    Step2();
    Step3();
    Step4();
    Step5();
    Step6();
    Step7();
    Step8();
    Step9();
    Step10();
    Step11();
    Step12();
    Step13();
    Step14();
  }

  /** There is a run of WOOKONG in which transaction 2 validates over the read of transaction 1, and 1,
      woken in between, commits after 2. */
  lemma WokenReaderCommitsLater() returns (run: seq<System>)
    ensures IsRun(run) && ReaderAt(run, 9, 2, [1], 0, 1)
    ensures var s := run[|run| - 1]; 1 in s.commits && 2 in s.commits && s.commits[2] < s.commits[1]
  {
    hide IsRun, Step, ValidateTxn, ValidateRows;
    run := WholeRun();
    Step10();
  }
}

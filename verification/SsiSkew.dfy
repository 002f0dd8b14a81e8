/** What follows from `InOutTable::init(thd_id, key)` (concurrency_control/ssi.cpp:94-107) having no
    caller: two transactions each read what the other writes, both are pivots, and both validate. */
module SsiSkew {
  import opened SerialHistory
  import opened Ssi
  import opened SsiRuns

  function State(clock: nat, row0: Row, row1: Row, ts: map<Tx, Tran>, rs: set<ReadLog>, ws: set<WriteLog>): System {
    System(4, clock, 0, map[0 := row0, 1 := row1], map[], ts, rs, ws, {})
  }

  const EMPTY := Row([], [], [], [])

  /** Row 0 is read by transaction 1 and written by 2, row 1 the other way round. */
  const READ0 := EMPTY.(readLocks := [1])
  const READ1 := EMPTY.(readLocks := [2])
  const BOTH0 := Row([1], [2], [], [2])
  const BOTH1 := Row([2], [1], [], [1])

  const R1 := ReadLog(1, 0, 0)
  const R2 := ReadLog(2, 1, 0)
  const W1 := WriteLog(1, 1)
  const W2 := WriteLog(2, 0)

  const RUNNING: map<Tx, Tran> := map[1 := Tran(1, Active), 2 := Tran(2, Active)]

  const S0 := State(0, EMPTY, EMPTY, map[], {}, {})
  const S1 := State(1, EMPTY, EMPTY, map[1 := Tran(1, Active)], {}, {})
  const S2 := State(2, EMPTY, EMPTY, RUNNING, {}, {})
  const S3 := State(2, READ0, EMPTY, RUNNING, {R1}, {})
  const S4 := State(2, READ0, READ1, RUNNING, {R1, R2}, {})
  const S5 := State(2, READ0, BOTH1, RUNNING, {R1, R2}, {W1})
  const S6 := State(2, BOTH0, BOTH1, RUNNING, {R1, R2}, {W1, W2})
  const S7 := S6.(trans := map[1 := Tran(1, Validated), 2 := Tran(2, Active)])
  const S8 := S6.(trans := map[1 := Tran(1, Validated), 2 := Tran(2, Validated)])

  lemma Start()
    ensures Init(S0)
  {
  }

  lemma Step1()
    ensures OtherStep(S0, S1)
  {
    assert S1.trans == S0.trans[1 := Tran(1, Active)];
    assert Begin(S0, S1, 1);
  }

  lemma Step2()
    ensures OtherStep(S1, S2)
  {
    assert S2.trans == S1.trans[2 := Tran(2, Active)];
    assert Begin(S1, S2, 2);
  }

  /** The first read of a row without writers. */
  lemma ReadUnseen(x: Tx, start: nat)
    ensures Read(EMPTY, map[], x, start) == (EMPTY.(readLocks := [x]), map[], 0)
  {
    assert [x] + [] == [x];
  }

  lemma Step3()
    ensures OtherStep(S2, S3)
  {
    ReadUnseen(1, 1);
    assert S3.rows == S2.rows[0 := READ0];
    assert S3.readLog == S2.readLog + {R1};
    assert ReadRow(S2, S3, 1, 0);
  }

  lemma Step4()
    ensures OtherStep(S3, S4)
  {
    ReadUnseen(2, 2);
    assert S4.rows == S3.rows[1 := READ1];
    assert S4.readLog == S3.readLog + {R2};
    assert ReadRow(S3, S4, 2, 1);
  }

  /** With one reader on the row and no entries, a prewrite is admitted and marks nothing. */
  lemma PrewriteUnseen(y: Tx, x: Tx)
    ensures Prewrite(EMPTY.(readLocks := [y]), map[], x, x, 4) == (RcOk, Row([y], [x], [], [x]), map[])
  {
    PrewriteOk(EMPTY.(readLocks := [y]), map[], x, x, 4);
    assert [x] + [] == [x];
  }

  lemma Step5()
    ensures OtherStep(S4, S5)
  {
    PrewriteUnseen(2, 1);
    assert S5.rows == S4.rows[1 := BOTH1];
    assert S5.writeLog == S4.writeLog + {W1};
    assert PrewriteRow(S4, S5, 1, 1);
  }

  lemma Step6()
    ensures OtherStep(S5, S6)
  {
    PrewriteUnseen(1, 2);
    assert S6.rows == S5.rows[0 := BOTH0];
    assert S6.writeLog == S5.writeLog + {W2};
    assert PrewriteRow(S5, S6, 2, 0);
  }

  lemma Step7()
    ensures OtherStep(S6, S7) && Validate(S6, S7, 1)
  {
    assert S7.trans == S6.trans[1 := Tran(1, Validated)];
    assert Validate(S6, S7, 1);
  }

  lemma Step8()
    ensures OtherStep(S7, S8) && Validate(S7, S8, 2)
  {
    assert S8.trans == S7.trans[2 := Tran(2, Validated)];
    assert Validate(S7, S8, 2);
  }

  /** There is a run of the code's steps in which two transactions validate one after the other although
      each is a pivot when it does: each has read a version older than the other's write. */
  lemma PivotWithoutEntryValidates() returns (run: seq<System>)
    ensures IsRun(run) && |run| == 9 && forall i :: 0 < i < |run| ==> OtherStep(run[i - 1], run[i])
    ensures Validate(run[6], run[7], 1) && Pivot(run[6], 1, R2, W1, R1, W2) && At(run[7], 1, Validated)
    ensures Validate(run[7], run[8], 2) && Pivot(run[7], 2, R1, W2, R2, W1) && At(run[8], 2, Validated)
  {
    hide OtherStep, Init, Validate;
    run := [S0, S1, S2, S3, S4, S5, S6, S7, S8];
    Start();
    Step1();
    Step2();
    Step3();
    Step4();
    Step5();
    Step6();
    Step7();
    Step8();
    TableStaysEmpty(run);
  }
}

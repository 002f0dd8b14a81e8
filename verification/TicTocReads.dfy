/** When the commit step may be applied to a row that was only read. `Row_tictoc::commit` does not look
    at the access type (concurrency_control/row_tictoc.cpp:186-204), and a finishing transaction returns
    its reads through it too (storage/row.cpp:674-680). Two runs show the two kinds of harm, and a look
    at the lease of the row tells exactly when there is none. */
module TicTocReads {
  import opened SerialHistory
  import opened TicToc
  import opened TicTocRuns

  const INIT: Store := map[0 := 10]

  const FREE := Cell(Row(0, 0, Free, {}, 10), [Version(0, 0, 10, Initial)])
  const HELD := FREE.(row := FREE.row.(owner := HeldBy(2)))
  const WRITTEN := Cell(Row(1, 1, HeldBy(2), {}, 7), [Version(0, 0, 10, Initial), Version(1, 1, 7, By(1))])

  /** Transaction 1 reads the initial version; transaction 2 replaces it. */
  const READ := Acc(false, 0, 0, 0, 10, 0)
  const WRITE := Acc(true, 0, 0, 0, 10, 7)

  const E1 := Entry(1, 0, map[0 := READ])
  const E2 := Entry(2, 1, map[0 := WRITE])

  function Reader(p: Phase): Tran {
    Tran(p, 0, map[0 := READ])
  }

  function Writer2(p: Phase): Tran {
    Tran(p, 0, map[0 := WRITE])
  }

  function State(c: Cell, ts: map<Tx, Tran>, order: seq<Entry>): System {
    System(4, map[0 := c], ts, order)
  }

  const DONE := Reader(Committing(0, {}))

  /** The reader commits at timestamp 0 ... */
  const S0 := State(FREE, map[], [])
  const S1 := State(FREE, map[1 := Tran(Running, 0, map[])], [])
  const S2 := State(FREE, map[1 := Reader(Running)], [])
  const S3 := State(FREE, map[1 := Reader(Validating(0, {}))], [])
  const S4 := State(FREE, map[1 := Reader(Validating(0, {0}))], [])
  const S5 := State(FREE, map[1 := DONE], [E1])

  /** ... then the writer commits at timestamp 1 and installs its version. */
  const S6 := State(FREE, map[1 := DONE, 2 := Tran(Running, 0, map[])], [E1])
  const S7 := State(HELD, map[1 := DONE, 2 := Writer2(Running)], [E1])
  const S8 := State(HELD, map[1 := DONE, 2 := Writer2(Validating(1, {}))], [E1])
  const S9 := State(HELD, map[1 := DONE, 2 := Writer2(Committing(1, {}))], [E1, E2])
  const S10 := State(WRITTEN, map[1 := DONE, 2 := Writer2(Committing(1, {0}))], [E1, E2])

  lemma StepOf(s: System, s': System, t: Tx)
    requires StepBy(s, s', t)
    ensures Step(s, s')
  {
  }

  lemma Start()
    ensures Init(INIT, S0)
  {
  }

  lemma Step1()
    ensures Step(S0, S1)
  {
    hide Step;
    assert Begin(S0, S1, 1, 0);
    StepOf(S0, S1, 1);
  }

  lemma Step2()
    ensures Step(S1, S2)
  {
    hide Step;
    assert S2.trans == S1.trans[1 := Reader(Running)];
    assert ReadRow(S1, S2, 1, 0);
    StepOf(S1, S2, 1);
  }

  lemma Step3()
    ensures Step(S2, S3)
  {
    hide Step;
    assert Bounds(map[0 := READ]) + {0} == {0};
    assert S3.trans == S2.trans[1 := S3.trans[1]];
    assert StartValidation(S2, S3, 1, 0);
    StepOf(S2, S3, 1);
  }

  lemma Step4()
    ensures Step(S3, S4)
  {
    hide Step;
    assert {} + {0} == {0};
    assert S4.trans == S3.trans[1 := S4.trans[1]];
    assert CheckRow(S3, S4, 1, 0);
    StepOf(S3, S4, 1);
  }

  lemma Step5()
    ensures Step(S4, S5)
  {
    hide Step;
    assert S5.trans == S4.trans[1 := S5.trans[1]];
    assert Commit(S4, S5, 1);
    StepOf(S4, S5, 1);
  }

  lemma Step6()
    ensures Step(S5, S6)
  {
    hide Step;
    assert S6.trans == S5.trans[2 := S6.trans[2]];
    assert Begin(S5, S6, 2, 0);
    StepOf(S5, S6, 2);
  }

  lemma Step7()
    ensures Step(S6, S7)
  {
    hide Step;
    assert S7.cells == S6.cells[0 := HELD];
    assert S7.trans == S6.trans[2 := S7.trans[2]];
    assert WriteRow(S6, S7, 2, 0, 7);
    StepOf(S6, S7, 2);
  }

  lemma Step8()
    ensures Step(S7, S8)
  {
    hide Step;
    assert BoundOf(map[0 := WRITE][0]) in Bounds(map[0 := WRITE]);
    assert Bounds(map[0 := WRITE]) + {0} == {0, 1};
    assert S8.trans == S7.trans[2 := S8.trans[2]];
    assert StartValidation(S7, S8, 2, 1);
    StepOf(S7, S8, 2);
  }

  lemma Step9()
    ensures Step(S8, S9)
  {
    hide Step;
    assert S9.trans == S8.trans[2 := S9.trans[2]];
    assert [E1] + [E2] == [E1, E2];
    assert Commit(S8, S9, 2);
    StepOf(S8, S9, 2);
  }

  lemma Step10()
    ensures Step(S9, S10)
  {
    hide Step;
    assert {} + {0} == {0};
    assert FREE.versions + [Version(1, 1, 7, By(1))] == WRITTEN.versions;
    assert S10.cells == S9.cells[0 := WRITTEN];
    assert S10.trans == S9.trans[2 := S10.trans[2]];
    assert InstallRow(S9, S10, 2, 0);
    StepOf(S9, S10, 2);
  }

  lemma WholeRun() returns (run: seq<System>)
    ensures IsRun(INIT, run) && run[|run| - 1] == S10
  {
    hide Step, Init, State;
    run := [S0, S1, S2, S3, S4, S5, S6, S7, S8, S9, S10];
    Start();
    Step1();
    Step2();
    Step3();
    Step4();
    Step5();
    Step6();
    Step7();
    Step8();
    Step9();
    Step10();
  }

  /** There is a run after which the commit step, applied to a row that a committed transaction only
      read, undoes an update: the row no longer holds what serial execution leaves in it. */
  lemma CommitOnReadLosesUpdate() returns (run: seq<System>)
    ensures IsRun(INIT, run)
    ensures var s := run[|run| - 1];
            && |s.order| > 0 && 0 in s.cells && Quiet(s, 0)
            && var e := s.order[0];
               var final := Replay(INIT, History(s.order));
               && 0 in e.accs && !e.accs[0].write && 0 in final
               && final[0] == s.cells[0].row.value
               && final[0] != Install(s.cells[0].row, e.ts, e.accs[0].val).value
  {
    hide IsRun, History, Replay;
    run := WholeRun();
    RowsAreSerial(INIT, run, 0);
  }

  // ----- a lease cut short ------------------------------------------------------------------

  /** From S5 on: transaction 3, begun at timestamp 5, reads the same version, renews its lease to 5
      and commits at 5. */
  const RENEWED := Cell(Row(0, 5, Free, {}, 10), [Version(0, 5, 10, Initial)])
  const E3 := Entry(3, 5, map[0 := READ.(rts := 5)])

  function Late(p: Phase): Tran {
    Tran(p, 5, map[0 := READ])
  }

  const COVERED := Tran(Committing(1, {}), 5, map[0 := READ.(rts := 5)])

  const R1 := State(FREE, map[1 := DONE, 3 := Tran(Running, 5, map[])], [E1])
  const R2 := State(FREE, map[1 := DONE, 3 := Late(Running)], [E1])
  const R3 := State(FREE, map[1 := DONE, 3 := Late(Validating(5, {}))], [E1])
  const R4 := State(RENEWED, map[1 := DONE, 3 := COVERED.(phase := Validating(5, {0}))], [E1])
  const R5 := State(RENEWED, map[1 := DONE, 3 := COVERED], [E1, E3])

  lemma LateStep1()
    ensures Step(S5, R1)
  {
    hide Step;
    assert R1.trans == S5.trans[3 := R1.trans[3]];
    assert Begin(S5, R1, 3, 5);
    StepOf(S5, R1, 3);
  }

  lemma LateStep2()
    ensures Step(R1, R2)
  {
    hide Step;
    assert R2.trans == R1.trans[3 := R2.trans[3]];
    assert ReadRow(R1, R2, 3, 0);
    StepOf(R1, R2, 3);
  }

  lemma LateStep3()
    ensures Step(R2, R3)
  {
    hide Step;
    assert BoundOf(map[0 := READ][0]) in Bounds(map[0 := READ]);
    assert Bounds(map[0 := READ]) + {5} == {0, 5};
    assert R3.trans == R2.trans[3 := R3.trans[3]];
    assert StartValidation(R2, R3, 3, 5);
    StepOf(R2, R3, 3);
  }

  lemma LateStep4()
    ensures Step(R3, R4)
  {
    hide Step;
    assert {} + {0} == {0};
    assert TryRenew(FREE.row, 0, 5) == (true, RENEWED.row);
    assert Renewed(FREE, RENEWED.row) == RENEWED;
    assert R4.cells == R3.cells[0 := RENEWED];
    assert R3.trans[3].accs[0 := READ.(rts := 5)] == R4.trans[3].accs;
    assert R4.trans == R3.trans[3 := R4.trans[3]];
    assert CheckRow(R3, R4, 3, 0);
    StepOf(R3, R4, 3);
  }

  lemma LateStep5()
    ensures Step(R4, R5)
  {
    hide Step;
    assert R5.trans == R4.trans[3 := R5.trans[3]];
    assert [E1] + [E3] == [E1, E3];
    assert Commit(R4, R5, 3);
    StepOf(R4, R5, 3);
  }

  lemma LateRun() returns (run: seq<System>)
    ensures IsRun(INIT, run) && run[|run| - 1] == R5
  {
    hide Step, Init, State;
    run := [S0, S1, S2, S3, S4, S5, R1, R2, R3, R4, R5];
    Start();
    Step1();
    Step2();
    Step3();
    Step4();
    Step5();
    LateStep1();
    LateStep2();
    LateStep3();
    LateStep4();
    LateStep5();
  }

  /** In every run: the commit step on a row that was only read keeps the invariant, and sets neither the
      value nor a timestamp back, exactly if the lease of the row ends at or below the commit timestamp.
      Otherwise a newer version has been installed since, or somebody's lease goes further. */
  lemma CommitOnReadIsSafeExactly(init: Store, run: seq<System>, pos: nat, k: Key)
    requires IsRun(init, run) && pos < |run[|run| - 1].order|
    requires k in run[|run| - 1].order[pos].accs && !run[|run| - 1].order[pos].accs[k].write
    ensures var s := run[|run| - 1];
            var e := s.order[pos];
            && k in s.cells
            && var row := s.cells[k].row;
               var s' := Returned(s, pos, k);
               && (row.rts <= e.ts <==> Inv(init, s'))
               && (row.rts <= e.ts <==> s'.cells[k].row.value == row.value && NotSetBack(row, s'.cells[k].row))
  {
    hide Inv, Step, Init, CellOk;
    RunKeeps(init, run);
    var s := run[|run| - 1];
    CommittedAt(init, s, pos, k);
    var t := s.order[pos].tx;
    ReturnReadKeepsCell(init, s.order, k, s.cells[k], pos, k in s.trans[t].phase.installed);
    var s' := Returned(s, pos, k);
    if s.cells[k].row.rts <= s.order[pos].ts {
      PlacedAt(init, s, t);
      ReturnReadKeeps(init, s, s', t, k);
    }
    if Inv(init, s') {
      InvParts(init, s');
      CellsAt(init, s'.cells, s'.order, k);
    }
  }

  // ----- what a cut lease costs, from any state ---------------------------------------------

  /** A write placed below a committed reader of the row, above all other writers of the row. */
  lemma OvertakenReadIsNotSerial(init: Store, order: seq<Entry>, w: Entry, p: nat, k: Key)
    requires p < |order| && k in order[p].accs && w.ts < order[p].ts
    requires k in w.accs && w.accs[k].write && w.accs[k].put != order[p].accs[k].val
    requires forall q :: 0 <= q < |order| && Writes(order, q, k) ==> order[q].ts < w.ts
    ensures !IsSerial(init, History(order + [w]))
  {
    var all := order + [w];
    var ps, h := SerialOrder(all, |all|), History(all);
    SerialOrderOk(all, |all|);
    assert p in ps && |order| in ps;
    var j :| 0 <= j < |ps| && ps[j] == p;
    var i :| 0 <= i < |ps| && ps[i] == |order|;
    assert Earlier(all, |order|, p);
    assert i < j;
    forall x | i < x < j
      ensures k !in h[x].wrote
    {
      assert Earlier(all, ps[i], ps[x]);
      assert ps[x] != |order|;
      assert !Writes(order, ps[x], k);
    }
    ReplayLastWriter(init, h[..j], k, i);
    assert h[j].seen[k] == order[p].accs[k].val;
  }

  /** A transaction that begins, locks the row, validates and commits. */
  lemma WriterRun(s: System, w: Tx, k: Key, v: Val) returns (after: seq<System>)
    requires w !in s.trans && k in s.cells && s.cells[k].versions != [] && s.cells[k].row.owner.Free?
    ensures |after| == 5 && after[0] == s && forall i :: 0 < i < 5 ==> Step(after[i - 1], after[i])
    ensures after[4].order == s.order + [Entry(w, s.cells[k].row.rts + 1, map[k := Access(s.cells[k], true, v)])]
  {
    hide Step;
    var a, ts := Access(s.cells[k], true, v), s.cells[k].row.rts + 1;
    var s1 := s.(trans := s.trans[w := Tran(Running, 0, map[])]);
    assert Begin(s, s1, w, 0);
    StepOf(s, s1, w);
    var s2 := s1.(cells := s.cells[k := s.cells[k].(row := s.cells[k].row.(owner := HeldBy(w)))],
                  trans := s1.trans[w := Tran(Running, 0, map[k := a])]);
    assert map[][k := a] == map[k := a];
    assert WriteRow(s1, s2, w, k, v);
    StepOf(s1, s2, w);
    var s3 := s2.(trans := s2.trans[w := Tran(Validating(ts, {}), 0, map[k := a])]);
    assert BoundOf(map[k := a][k]) in Bounds(map[k := a]);
    assert Bounds(map[k := a]) + {0} == {0, ts};
    assert StartValidation(s2, s3, w, ts);
    StepOf(s2, s3, w);
    var s4 := s3.(trans := s3.trans[w := Tran(Committing(|s.order|, {}), 0, map[k := a])],
                  order := s.order + [Entry(w, ts, map[k := a])]);
    assert Commit(s3, s4, w);
    StepOf(s3, s4, w);
    after := [s, s1, s2, s3, s4];
  }

  /** The committed writers of a free row have all installed, below its current version. */
  lemma WritersAreBelow(init: Store, s: System, k: Key, ts: nat)
    requires Inv(init, s) && k in s.cells && s.cells[k].row.owner.Free? && s.cells[k].row.wts <= ts
    ensures forall q :: 0 <= q < |s.order| && Writes(s.order, q, k) ==> s.order[q].ts <= ts
  {
    hide Inv;
    forall q | 0 <= q < |s.order| && Writes(s.order, q, k)
      ensures s.order[q].ts <= ts
    {
      CommittedAt(init, s, q, k);
      var c := s.cells[k];
      WriterInterval(init, s.order, k, c, |c.versions| - 1, q, true);
    }
  }

  /** From every reachable state: if a committed read of a free row, at timestamp ts, is returned although
      another committed transaction has read the row above ts + 1, then a writer may commit next in the
      middle, and commit timestamp order is no serial order. */
  lemma CutLeaseBreaksOrder(init: Store, run: seq<System>, pos: nat, p: nat, k: Key) returns (after: seq<System>)
    requires IsRun(init, run) && pos < |run[|run| - 1].order| && p < |run[|run| - 1].order|
    requires var s := run[|run| - 1];
             && k in s.order[pos].accs && !s.order[pos].accs[k].write && k in s.order[p].accs
             && k in s.cells && s.cells[k].row.owner.Free?
             && s.cells[k].row.wts <= s.order[pos].ts && s.order[pos].ts + 1 < s.order[p].ts
    ensures after != [] && after[0] == Returned(run[|run| - 1], pos, k)
    ensures forall i :: 0 < i < |after| ==> Step(after[i - 1], after[i])
    ensures !IsSerial(init, History(after[|after| - 1].order))
  {
    hide Inv, Step, Init, History, IsSerial;
    RunKeeps(init, run);
    var s := run[|run| - 1];
    CommittedAt(init, s, pos, k);
    var s0 := Returned(s, pos, k);
    var w := Beyond(s0.trans.Keys);
    after := WriterRun(s0, w, k, s.order[p].accs[k].val + 1);
    WritersAreBelow(init, s, k, s.order[pos].ts);
    OvertakenReadIsNotSerial(init, s.order, after[4].order[|s.order|], p, k);
  }

  /** One such run: returning the read leaves value and write timestamp of the row alone and still cuts
      short the lease on which transaction 3 relies. */
  lemma CommitOnReadCutsLease() returns (run: seq<System>, after: seq<System>)
    ensures IsRun(INIT, run) && after != []
    ensures forall i :: 0 < i < |after| ==> Step(after[i - 1], after[i])
    ensures var s := run[|run| - 1];
            && |s.order| > 0 && 0 in s.cells && 0 in s.order[0].accs && !s.order[0].accs[0].write
            && after[0] == Returned(s, 0, 0)
            && after[0].cells[0].row.value == s.cells[0].row.value
            && after[0].cells[0].row.wts == s.cells[0].row.wts == s.order[0].accs[0].wts
            && after[0].cells[0].row.rts < s.cells[0].row.rts
    ensures !IsSerial(INIT, History(after[|after| - 1].order))
  {
    hide IsRun, Step, IsSerial, History;
    run := LateRun();
    after := CutLeaseBreaksOrder(INIT, run, 0, 1, 0);
  }
}

/** Why Silo's commit tids have to be fresh. A transaction that stays on one node takes its commit
    tid from a counter that starts at 0 with the transaction (system/txn.cpp:365, 1533-1538), so
    every such transaction commits with tid 1. Here are three of them on one row. */
module SiloTids {
  import opened SerialHistory
  import opened SiloRuns

  /** A step that may commit with any tid, as the code does. */
  ghost predicate StepAnyTid(s: System, s': System) {
    Step(s, s') || exists x, tid :: Commit(s, s', x, tid)
  }

  ghost predicate Steps(run: seq<System>) {
    forall i :: 0 < i < |run| ==> StepAnyTid(run[i - 1], run[i])
  }

  lemma Join(a: seq<System>, b: seq<System>)
    requires a != [] && Steps(a) && Steps([a[|a| - 1]] + b)
    ensures Steps(a + b)
  {
    hide StepAnyTid;
    var r, c := a + b, [a[|a| - 1]] + b;
    forall i | 0 < i < |r|
      ensures StepAnyTid(r[i - 1], r[i])
    {
      if i >= |a| {
        assert r[i] == c[i - |a| + 1] && r[i - 1] == c[i - |a|];
      }
    }
  }

  /** The row, transactions 1 to 3, and the order so far. */
  function State(c: Cell, ts: map<Tx, Tran>, order: seq<Slot>): System {
    System(map[0 := c], ts, order)
  }

  const IDLE := Tran(Running, map[], map[], {}, {}, 0, 0)

  /** A transaction that copied `c` from the row and wants to write `v`. */
  function Ready(c: Copy, v: Val): Tran {
    IDLE.(copies := map[0 := c], wrote := map[0 := v])
  }

  /** The transaction at each later stage of its commit, at place `n` of the order. */
  function Locked(c: Copy, v: Val): Tran {
    Ready(c, v).(phase := Locking, locked := {0})
  }

  function Placed(c: Copy, v: Val, n: nat): Tran {
    Locked(c, v).(phase := Validating, stamp := n)
  }

  function Committed(c: Copy, v: Val, n: nat): Tran {
    Placed(c, v, n).(phase := Installing, tid := 1)
  }

  /** Committing one transaction that has read and written the row takes six steps. */
  function CommitRun(c: Cell, ts: map<Tx, Tran>, order: seq<Slot>, x: Tx, copy: Copy, v: Val): seq<System> {
    var n := |order|;
    [State(c, ts[x := Ready(copy, v).(phase := Locking)], order),
     State(c.(holder := HeldBy(x)), ts[x := Locked(copy, v)], order),
     State(c.(holder := HeldBy(x)), ts[x := Placed(copy, v, n)], order + [Open(x, map[0 := v])]),
     State(c.(holder := HeldBy(x)), ts[x := Committed(copy, v, n)], order + [Done(x, map[0 := copy], map[0 := v])]),
     State(Cell(v, 1, At(n), Free), ts[x := Committed(copy, v, n).(locked := {})],
           order + [Done(x, map[0 := copy], map[0 := v])])]
  }

  lemma CommitRunSteps(c: Cell, ts: map<Tx, Tran>, order: seq<Slot>, x: Tx, copy: Copy, v: Val)
    requires x in ts && ts[x] == Ready(copy, v) && c.holder == Free && c.tid == copy.tid
    ensures Steps([State(c, ts, order)] + CommitRun(c, ts, order, x, copy, v))
  {
    var r := [State(c, ts, order)] + CommitRun(c, ts, order, x, copy, v);
    assert StartLocking(r[0], r[1], x);
    assert LockRow(r[1], r[2], x, 0) by {
      assert r[2].cells == r[1].cells[0 := r[1].cells[0].(holder := HeldBy(x))];
      assert {} + {0} == {0};
      assert r[2].trans == r[1].trans[x := r[1].trans[x].(locked := {} + {0})];
    }
    assert LockPoint(r[2], r[3], x) by {
      assert r[3].trans == r[2].trans[x := r[2].trans[x].(phase := Validating, stamp := |order|)];
    }
    assert Commit(r[3], r[4], x, 1) by {
      assert r[4].trans == r[3].trans[x := r[3].trans[x].(phase := Installing, tid := 1)];
    }
    assert InstallRow(r[4], r[5], x, 0) by {
      assert r[5].cells == r[4].cells[0 := Cell(v, 1, At(|order|), Free)];
      assert r[5].trans == r[4].trans[x := r[4].trans[x].(locked := r[4].trans[x].locked - {0})];
    }
  }

  /** Beginning, reading the row and changing the copy takes three steps. */
  function PrepareRun(c: Cell, ts: map<Tx, Tran>, order: seq<Slot>, x: Tx, v: Val): seq<System> {
    var copy := Copy(c.val, c.tid, c.writer);
    [State(c, ts[x := IDLE], order),
     State(c, ts[x := IDLE.(copies := map[0 := copy])], order),
     State(c, ts[x := Ready(copy, v)], order)]
  }

  lemma PrepareRunSteps(c: Cell, ts: map<Tx, Tran>, order: seq<Slot>, x: Tx, v: Val)
    requires x !in ts && c.holder == Free
    ensures Steps([State(c, ts, order)] + PrepareRun(c, ts, order, x, v))
  {
    var r := [State(c, ts, order)] + PrepareRun(c, ts, order, x, v);
    assert Begin(r[0], r[1], x);
    assert ReadRow(r[1], r[2], x, 0) by {
      assert r[2].trans == r[1].trans[x := r[1].trans[x].(copies := r[2].trans[x].copies)];
    }
    assert WriteCopy(r[2], r[3], x, 0, v) by {
      assert r[3].trans == r[2].trans[x := r[2].trans[x].(wrote := r[3].trans[x].wrote)];
    }
  }

  /** The row at the start, after transaction 1, after 2 and after 3. */
  const C0 := Cell(10, 0, Initial, Free)
  const C1 := Cell(11, 1, At(0), Free)
  const C2 := Cell(12, 1, At(1), Free)

  /** Transaction 1 copies the initial version, 2 and 3 both copy the version of 1. */
  const P0 := Copy(10, 0, Initial)
  const P1 := Copy(11, 1, At(0))

  const D1 := Done(1, map[0 := P0], map[0 := 11])
  const D2 := Done(2, map[0 := P1], map[0 := 12])
  const D3 := Done(3, map[0 := P1], map[0 := 13])

  const T1: map<Tx, Tran> := map[1 := Ready(P0, 11)]
  const T1': map<Tx, Tran> := T1[1 := Committed(P0, 11, 0).(locked := {})]
  const T2: map<Tx, Tran> := T1'[2 := Ready(P1, 12)]
  const T3: map<Tx, Tran> := T2[3 := Ready(P1, 13)]
  const T3': map<Tx, Tran> := T3[2 := Committed(P1, 12, 1).(locked := {})]
  const T3'': map<Tx, Tran> := T3'[3 := Committed(P1, 13, 2).(locked := {})]

  lemma Extend(run: seq<System>, last: System, more: seq<System>, last': System) returns (run': seq<System>)
    requires run != [] && run[|run| - 1] == last && Steps(run) && Steps([last] + more)
    requires more != [] && more[|more| - 1] == last'
    ensures run' != [] && run'[0] == run[0] && run'[|run'| - 1] == last' && Steps(run')
  {
    hide Steps;
    Join(run, more);
    run' := run + more;
  }

  /** Transaction 1 commits, then 2 and 3 copy its version. */
  lemma PrepareAll() returns (run: seq<System>)
    ensures run != [] && run[0] == State(C0, map[], []) && Steps(run) && run[|run| - 1] == State(C1, T3, [D1])
  {
    run := [State(C0, map[], [])];
    assert Steps(run);
    hide Steps;
    PrepareRunSteps(C0, map[], [], 1, 11);
    assert map[][1 := Ready(P0, 11)] == T1;
    run := Extend(run, State(C0, map[], []), PrepareRun(C0, map[], [], 1, 11), State(C0, T1, []));
    CommitRunSteps(C0, T1, [], 1, P0, 11);
    run := Extend(run, State(C0, T1, []), CommitRun(C0, T1, [], 1, P0, 11), State(C1, T1', [D1]));
    PrepareRunSteps(C1, T1', [D1], 2, 12);
    run := Extend(run, State(C1, T1', [D1]), PrepareRun(C1, T1', [D1], 2, 12), State(C1, T2, [D1]));
    PrepareRunSteps(C1, T2, [D1], 3, 13);
    run := Extend(run, State(C1, T2, [D1]), PrepareRun(C1, T2, [D1], 3, 13), State(C1, T3, [D1]));
  }

  /** Then 2 and 3 both commit. */
  lemma LostUpdateRun() returns (run: seq<System>)
    ensures run != [] && run[0] == State(C0, map[], []) && Steps(run)
    ensures run[|run| - 1] == State(Cell(13, 1, At(2), Free), T3'', [D1, D2, D3])
  {
    hide Steps;
    run := PrepareAll();
    CommitRunSteps(C1, T3, [D1], 2, P1, 12);
    run := Extend(run, State(C1, T3, [D1]), CommitRun(C1, T3, [D1], 2, P1, 12), State(C2, T3', [D1, D2]));
    CommitRunSteps(C2, T3', [D1, D2], 3, P1, 13);
    run := Extend(run, State(C2, T3', [D1, D2]), CommitRun(C2, T3', [D1, D2], 3, P1, 13),
                  State(Cell(13, 1, At(2), Free), T3'', [D1, D2, D3]));
  }

  /** `h` is a rearrangement of the pairwise different transactions `c`. */
  ghost predicate Arranges(h: seq<Txn>, c: seq<Txn>) {
    |h| == |c| && forall i :: 0 <= i < |c| ==> c[i] in h
  }

  /** With the tids the code assigns there is a run in which three transactions commit although
      no serial order of them shows each what it saw: the second update is lost. */
  lemma ReusedTidLosesUpdate() returns (init: Store, run: seq<System>)
    ensures run != [] && Init(init, run[0]) && Steps(run)
    ensures var s := run[|run| - 1];
            && (forall x :: x in s.trans ==> s.trans[x].phase == Installing && s.trans[x].tid == 1)
            && (forall h :: Arranges(h, History(s.order)) ==> !IsSerial(init, h))
  {
    hide Steps, IsSerial, Arranges, History;
    init := map[0 := 10];
    run := LostUpdateRun();
    var c := LostUpdateHistory();
    forall h | Arranges(h, c)
      ensures !IsSerial(init, h)
    {
      NoOrderIsSerial(init, c, h);
    }
  }

  lemma LostUpdateHistory() returns (c: seq<Txn>)
    ensures c == History([D1, D2, D3])
    ensures c == [Txn(map[0 := 10], map[0 := 11]), Txn(map[0 := 11], map[0 := 12]), Txn(map[0 := 11], map[0 := 13])]
  {
    c := History([D1, D2, D3]);
    assert c[0] == Txn(map[0 := 10], map[0 := 11]);
    assert c[1] == Txn(map[0 := 11], map[0 := 12]);
    assert c[2] == Txn(map[0 := 11], map[0 := 13]);
  }

  lemma NoOrderIsSerial(init: Store, c: seq<Txn>, h: seq<Txn>)
    requires init == map[0 := 10]
    requires c == [Txn(map[0 := 10], map[0 := 11]), Txn(map[0 := 11], map[0 := 12]), Txn(map[0 := 11], map[0 := 13])]
    requires Arranges(h, c)
    ensures !IsSerial(init, h)
  {
    var i0, i1, i2 :| 0 <= i0 < 3 && 0 <= i1 < 3 && 0 <= i2 < 3 && h[i0] == c[0] && h[i1] == c[1] && h[i2] == c[2];
    if i0 == 0 {
      assert h[..2] == [h[0], h[1]];
      assert Replay(init, h[..2])[0] == h[1].wrote[0];
      assert 0 in h[2].seen;
    } else {
      assert Replay(init, h[..0])[0] == 10;
      assert 0 in h[0].seen;
    }
  }
}

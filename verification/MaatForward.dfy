/** Why forward validation needs a condition. `Row_maat::commit` moves the intervals of pending transactions
    without looking at their state (concurrency_control/row_maat.cpp:195-316), so it can move the interval
    of one that has committed away from its commit timestamp. Here is a run in which somebody then orders
    itself against the wrong interval, and the exact condition on the bound that validation gives. */
module MaatForward {
  import opened SerialHistory
  import opened Maat
  import opened MaatRuns

  function State(t: Table, rows: map<Key, Row>, deps: map<Tx, Deps>, commits: map<Tx, Ts>): System {
    System(t, rows, deps, commits)
  }

  const NEW := Row(0, 0, [], [])

  /** What a transaction learned from the rows: nothing, a last write, a pending writer of a row it read,
      a pending writer or a pending reader of a row it writes. */
  const NONE := Deps([], [], [], 0, 0)
  const AFTER1 := NONE.(lastWrite := 1)
  const AFTER2 := NONE.(lastWrite := 2)
  const BELOW3 := NONE.(writes := [3])
  const ABOVE4 := NONE.(writesY := [4])
  const OVER5 := NONE.(readers := [5])

  /** Transactions 1 and 2 write row 0 one after the other and commit at 1 and 2. */
  const S0 := State(map[],
                    map[0 := NEW, 1 := NEW, 2 := NEW, 3 := NEW],
                    map[], map[])
  const S5 := State(map[1 := Interval(1, UINT64_MAX, Committed)],
                    map[0 := Row(0, 1, [], []), 1 := NEW, 2 := NEW, 3 := NEW],
                    map[1 := NONE], map[1 := 1])
  const S10 := State(map[1 := Interval(1, UINT64_MAX, Committed), 2 := Interval(2, UINT64_MAX, Committed)],
                    map[0 := Row(0, 2, [], []), 1 := NEW, 2 := NEW, 3 := NEW],
                    map[1 := NONE, 2 := AFTER1], map[1 := 1, 2 := 2])

  /** Transaction 3 writes rows 0 and 1 and validates above 2. */
  const S11 := State(map[1 := Interval(1, UINT64_MAX, Committed), 2 := Interval(2, UINT64_MAX, Committed),
                        3 := Interval(0, UINT64_MAX, Running)],
                    map[0 := Row(0, 2, [], []), 1 := NEW, 2 := NEW, 3 := NEW],
                    map[1 := NONE, 2 := AFTER1, 3 := NONE], map[1 := 1, 2 := 2])
  const S12 := State(map[1 := Interval(1, UINT64_MAX, Committed), 2 := Interval(2, UINT64_MAX, Committed),
                        3 := Interval(0, UINT64_MAX, Running)],
                    map[0 := Row(0, 2, [], [3]), 1 := NEW, 2 := NEW, 3 := NEW],
                    map[1 := NONE, 2 := AFTER1, 3 := AFTER2], map[1 := 1, 2 := 2])
  const S13 := State(map[1 := Interval(1, UINT64_MAX, Committed), 2 := Interval(2, UINT64_MAX, Committed),
                        3 := Interval(0, UINT64_MAX, Running)],
                    map[0 := Row(0, 2, [], [3]), 1 := Row(0, 0, [], [3]), 2 := NEW, 3 := NEW],
                    map[1 := NONE, 2 := AFTER1, 3 := AFTER2], map[1 := 1, 2 := 2])
  const S14 := State(map[1 := Interval(1, UINT64_MAX, Committed), 2 := Interval(2, UINT64_MAX, Committed),
                        3 := Interval(3, UINT64_MAX, Validated)],
                    map[0 := Row(0, 2, [], [3]), 1 := Row(0, 0, [], [3]), 2 := NEW, 3 := NEW],
                    map[1 := NONE, 2 := AFTER1, 3 := AFTER2], map[1 := 1, 2 := 2])

  /** Transaction 4 reads row 1, so it will stay below 3, and prewrites row 2; 5 reads row 3 and prewrites
      row 2 after it. */
  const S15 := State(map[1 := Interval(1, UINT64_MAX, Committed), 2 := Interval(2, UINT64_MAX, Committed),
                        3 := Interval(3, UINT64_MAX, Validated), 4 := Interval(0, UINT64_MAX, Running)],
                    map[0 := Row(0, 2, [], [3]), 1 := Row(0, 0, [], [3]), 2 := NEW, 3 := NEW],
                    map[1 := NONE, 2 := AFTER1, 3 := AFTER2, 4 := NONE], map[1 := 1, 2 := 2])
  const S16 := State(map[1 := Interval(1, UINT64_MAX, Committed), 2 := Interval(2, UINT64_MAX, Committed),
                        3 := Interval(3, UINT64_MAX, Validated), 4 := Interval(0, UINT64_MAX, Running)],
                    map[0 := Row(0, 2, [], [3]), 1 := Row(0, 0, [4], [3]), 2 := NEW, 3 := NEW],
                    map[1 := NONE, 2 := AFTER1, 3 := AFTER2, 4 := BELOW3], map[1 := 1, 2 := 2])
  const S17 := State(map[1 := Interval(1, UINT64_MAX, Committed), 2 := Interval(2, UINT64_MAX, Committed),
                        3 := Interval(3, UINT64_MAX, Validated), 4 := Interval(0, UINT64_MAX, Running)],
                    map[0 := Row(0, 2, [], [3]), 1 := Row(0, 0, [4], [3]), 2 := Row(0, 0, [], [4]), 3 := NEW],
                    map[1 := NONE, 2 := AFTER1, 3 := AFTER2, 4 := BELOW3], map[1 := 1, 2 := 2])
  const S18 := State(map[1 := Interval(1, UINT64_MAX, Committed), 2 := Interval(2, UINT64_MAX, Committed),
                        3 := Interval(3, UINT64_MAX, Validated), 4 := Interval(0, UINT64_MAX, Running),
                        5 := Interval(0, UINT64_MAX, Running)],
                    map[0 := Row(0, 2, [], [3]), 1 := Row(0, 0, [4], [3]), 2 := Row(0, 0, [], [4]), 3 := NEW],
                    map[1 := NONE, 2 := AFTER1, 3 := AFTER2, 4 := BELOW3, 5 := NONE], map[1 := 1, 2 := 2])
  const S19 := State(map[1 := Interval(1, UINT64_MAX, Committed), 2 := Interval(2, UINT64_MAX, Committed),
                        3 := Interval(3, UINT64_MAX, Validated), 4 := Interval(0, UINT64_MAX, Running),
                        5 := Interval(0, UINT64_MAX, Running)],
                    map[0 := Row(0, 2, [], [3]), 1 := Row(0, 0, [4], [3]), 2 := Row(0, 0, [], [4]),
                        3 := Row(0, 0, [5], [])],
                    map[1 := NONE, 2 := AFTER1, 3 := AFTER2, 4 := BELOW3, 5 := NONE], map[1 := 1, 2 := 2])
  const S20 := State(map[1 := Interval(1, UINT64_MAX, Committed), 2 := Interval(2, UINT64_MAX, Committed),
                        3 := Interval(3, UINT64_MAX, Validated), 4 := Interval(0, UINT64_MAX, Running),
                        5 := Interval(0, UINT64_MAX, Running)],
                    map[0 := Row(0, 2, [], [3]), 1 := Row(0, 0, [4], [3]), 2 := Row(0, 0, [], [4, 5]),
                        3 := Row(0, 0, [5], [])],
                    map[1 := NONE, 2 := AFTER1, 3 := AFTER2, 4 := BELOW3, 5 := ABOVE4], map[1 := 1, 2 := 2])

  /** 4 validates with [1, 2], 5 above it with lower bound 3; 5 commits at 3 and 4 at 1. */
  const S21 := State(map[1 := Interval(1, UINT64_MAX, Committed), 2 := Interval(2, UINT64_MAX, Committed),
                        3 := Interval(3, UINT64_MAX, Validated), 4 := Interval(1, 2, Validated),
                        5 := Interval(0, UINT64_MAX, Running)],
                    map[0 := Row(0, 2, [], [3]), 1 := Row(0, 0, [4], [3]), 2 := Row(0, 0, [], [4, 5]),
                        3 := Row(0, 0, [5], [])],
                    map[1 := NONE, 2 := AFTER1, 3 := AFTER2, 4 := BELOW3, 5 := ABOVE4], map[1 := 1, 2 := 2])
  const S22 := State(map[1 := Interval(1, UINT64_MAX, Committed), 2 := Interval(2, UINT64_MAX, Committed),
                        3 := Interval(3, UINT64_MAX, Validated), 4 := Interval(1, 2, Validated),
                        5 := Interval(3, UINT64_MAX, Validated)],
                    map[0 := Row(0, 2, [], [3]), 1 := Row(0, 0, [4], [3]), 2 := Row(0, 0, [], [4, 5]),
                        3 := Row(0, 0, [5], [])],
                    map[1 := NONE, 2 := AFTER1, 3 := AFTER2, 4 := BELOW3, 5 := ABOVE4], map[1 := 1, 2 := 2])
  const S23 := State(map[1 := Interval(1, UINT64_MAX, Committed), 2 := Interval(2, UINT64_MAX, Committed),
                        3 := Interval(3, UINT64_MAX, Validated), 4 := Interval(1, 2, Validated),
                        5 := Interval(3, UINT64_MAX, Committed)],
                    map[0 := Row(0, 2, [], [3]), 1 := Row(0, 0, [4], [3]), 2 := Row(0, 0, [], [4, 5]),
                        3 := Row(0, 0, [5], [])],
                    map[1 := NONE, 2 := AFTER1, 3 := AFTER2, 4 := BELOW3, 5 := ABOVE4], map[1 := 1, 2 := 2, 5 := 3])
  const S24 := State(map[1 := Interval(1, UINT64_MAX, Committed), 2 := Interval(2, UINT64_MAX, Committed),
                        3 := Interval(3, UINT64_MAX, Validated), 4 := Interval(1, 2, Committed),
                        5 := Interval(3, UINT64_MAX, Committed)],
                    map[0 := Row(0, 2, [], [3]), 1 := Row(0, 0, [4], [3]), 2 := Row(0, 0, [], [4, 5]),
                        3 := Row(0, 0, [5], [])],
                    map[1 := NONE, 2 := AFTER1, 3 := AFTER2, 4 := BELOW3, 5 := ABOVE4], map[1 := 1, 2 := 2, 5 := 3, 4
                        := 1])

  /** 4 commits row 2: 5 is not among the writers 4 knew, and its interval is cut although it has committed. */
  const S25 := State(map[1 := Interval(1, UINT64_MAX, Committed), 2 := Interval(2, UINT64_MAX, Committed),
                        3 := Interval(3, UINT64_MAX, Validated), 4 := Interval(1, 2, Committed),
                        5 := Interval(3, 0, Committed)],
                    map[0 := Row(0, 2, [], [3]), 1 := Row(0, 0, [4], [3]), 2 := Row(0, 1, [], [5]),
                        3 := Row(0, 0, [5], [])],
                    map[1 := NONE, 2 := AFTER1, 3 := AFTER2, 4 := BELOW3, 5 := ABOVE4], map[1 := 1, 2 := 2, 5 := 3, 4
                        := 1])

  /** 6 writes row 3, which 5 has read, and finds no reason to go above 5. */
  const S26 := State(map[1 := Interval(1, UINT64_MAX, Committed), 2 := Interval(2, UINT64_MAX, Committed),
                        3 := Interval(3, UINT64_MAX, Validated), 4 := Interval(1, 2, Committed),
                        5 := Interval(3, 0, Committed), 6 := Interval(0, UINT64_MAX, Running)],
                    map[0 := Row(0, 2, [], [3]), 1 := Row(0, 0, [4], [3]), 2 := Row(0, 1, [], [5]),
                        3 := Row(0, 0, [5], [])],
                    map[1 := NONE, 2 := AFTER1, 3 := AFTER2, 4 := BELOW3, 5 := ABOVE4, 6 := NONE], map[1 := 1, 2 := 2,
                        5 := 3, 4 := 1])
  const S27 := State(map[1 := Interval(1, UINT64_MAX, Committed), 2 := Interval(2, UINT64_MAX, Committed),
                        3 := Interval(3, UINT64_MAX, Validated), 4 := Interval(1, 2, Committed),
                        5 := Interval(3, 0, Committed), 6 := Interval(0, UINT64_MAX, Running)],
                    map[0 := Row(0, 2, [], [3]), 1 := Row(0, 0, [4], [3]), 2 := Row(0, 1, [], [5]),
                        3 := Row(0, 0, [5], [6])],
                    map[1 := NONE, 2 := AFTER1, 3 := AFTER2, 4 := BELOW3, 5 := ABOVE4, 6 := OVER5], map[1 := 1, 2 := 2
                        , 5 := 3, 4 := 1])
  const S28 := State(map[1 := Interval(1, UINT64_MAX, Committed), 2 := Interval(2, UINT64_MAX, Committed),
                        3 := Interval(3, UINT64_MAX, Validated), 4 := Interval(1, 2, Committed),
                        5 := Interval(3, 0, Committed), 6 := Interval(1, UINT64_MAX, Validated)],
                    map[0 := Row(0, 2, [], [3]), 1 := Row(0, 0, [4], [3]), 2 := Row(0, 1, [], [5]),
                        3 := Row(0, 0, [5], [6])],
                    map[1 := NONE, 2 := AFTER1, 3 := AFTER2, 4 := BELOW3, 5 := ABOVE4, 6 := OVER5], map[1 := 1, 2 := 2
                        , 5 := 3, 4 := 1])
  const S29 := State(map[1 := Interval(1, UINT64_MAX, Committed), 2 := Interval(2, UINT64_MAX, Committed),
                        3 := Interval(3, UINT64_MAX, Validated), 4 := Interval(1, 2, Committed),
                        5 := Interval(3, 0, Committed), 6 := Interval(1, UINT64_MAX, Committed)],
                    map[0 := Row(0, 2, [], [3]), 1 := Row(0, 0, [4], [3]), 2 := Row(0, 1, [], [5]),
                        3 := Row(0, 0, [5], [6])],
                    map[1 := NONE, 2 := AFTER1, 3 := AFTER2, 4 := BELOW3, 5 := ABOVE4, 6 := OVER5], map[1 := 1, 2 := 2
                        , 5 := 3, 4 := 1, 6 := 1])

  // ----- validation in the cases at hand ----------------------------------------------------

  lemma AllOfOne(x: Tx)
    ensures InsertAll([], [x]) == [x]
  {
    assert [x][..0] == [];
    assert InsertAll([], []) == [];
  }

  /** With no dependencies the lower bound goes just above the last write. */
  lemma ValidateAlone(t: Table, x: Tx, lastWrite: Ts)
    requires x in t && t[x] == Interval(0, UINT64_MAX, Running) && lastWrite < 10
    ensures Validate(t, x, NONE.(lastWrite := lastWrite)) ==
            (RcOk, t[x := Interval(lastWrite + 1, UINT64_MAX, Validated)])
  {
    var d := NONE.(lastWrite := lastWrite);
    assert MakePlan(t, x, d) == Plan(lastWrite + 1, UINT64_MAX, [], []);
    assert Adjust(t, x, MakePlan(t, x, d)) == t[x := Interval(lastWrite + 1, UINT64_MAX, Validated)];
  }

  lemma ValidateBelow(t: Table)
    requires 3 in t && t[3] == Interval(3, UINT64_MAX, Validated)
    requires 4 in t && t[4] == Interval(0, UINT64_MAX, Running)
    ensures Validate(t, 4, BELOW3) == (RcOk, t[4 := Interval(1, 2, Validated)])
  {
    var ws: seq<Tx> := [3];
    assert ws[..0] == [];
    assert ScanWrites(t, [], UINT64_MAX) == (UINT64_MAX, []);
    assert ScanWrites(t, ws, UINT64_MAX) == (2, []);
    assert MakePlan(t, 4, BELOW3) == Plan(1, 2, [], []);
    assert Adjust(t, 4, MakePlan(t, 4, BELOW3)) == t[4 := Interval(1, 2, Validated)];
  }

  lemma ValidateAbove(t: Table)
    requires 4 in t && t[4] == Interval(1, 2, Validated)
    requires 5 in t && t[5] == Interval(0, UINT64_MAX, Running)
    ensures Validate(t, 5, ABOVE4) == (RcOk, t[5 := Interval(3, UINT64_MAX, Validated)])
  {
    var ys: seq<Tx> := [4];
    assert ys[..0] == [];
    assert ScanWritesY(t, [], 1, []) == (1, []);
    assert ScanWritesY(t, ys, 1, []) == (3, []);
    assert MakePlan(t, 5, ABOVE4) == Plan(3, UINT64_MAX, [], []);
    assert Adjust(t, 5, MakePlan(t, 5, ABOVE4)) == t[5 := Interval(3, UINT64_MAX, Validated)];
  }

  lemma ValidateOver(t: Table)
    requires 5 in t && t[5] == Interval(3, 0, Committed)
    requires 6 in t && t[6] == Interval(0, UINT64_MAX, Running)
    ensures Validate(t, 6, OVER5) == (RcOk, t[6 := Interval(1, UINT64_MAX, Validated)])
  {
    var rs: seq<Tx> := [5];
    assert rs[..0] == [];
    assert ScanReaders(t, [], 1) == (1, []);
    assert ScanReaders(t, rs, 1) == (1, []);
    assert MakePlan(t, 6, OVER5) == Plan(1, UINT64_MAX, [], []);
    assert Adjust(t, 6, MakePlan(t, 6, OVER5)) == t[6 := Interval(1, UINT64_MAX, Validated)];
  }

  lemma CutOne(t: Table)
    requires 5 in t && t[5] == Interval(3, UINT64_MAX, Committed)
    ensures ForwardDown(t, [5], [], 1) == t[5 := Interval(3, 0, Committed)]
  {
    assert [5][..0] == [];
    assert ForwardDown(t, [], [], 1) == t;
  }

  // ----- the run ----------------------------------------------------------------------------

  lemma BeginIsStep(s: System, s': System, x: Tx)
    requires Begin(s, s', x)
    ensures Step(s, s')
  {
  }

  lemma AccessIsStep(s: System, s': System, x: Tx, k: Key)
    requires AccessRow(s, s', x, k)
    ensures Step(s, s')
  {
  }

  lemma ValidateIsStep(s: System, s': System, x: Tx)
    requires ValidateTxn(s, s', x)
    ensures Step(s, s')
  {
  }

  lemma ChooseIsStep(s: System, s': System, x: Tx)
    requires ChooseTs(s, s', x)
    ensures Step(s, s')
  {
  }

  lemma CommitIsStep(s: System, s': System, x: Tx, k: Key)
    requires CommitRow(s, s', x, k)
    ensures Step(s, s')
  {
  }

  /** One of the ways to access or to commit a row. */
  lemma Access(s: System, s': System, x: Tx, k: Key, a: (Row, Deps))
    requires x in s.table && x in s.deps && s.table[x].state == Running && k in s.rows
    requires x !in s.rows[k].readers && x !in s.rows[k].writers
    requires a == Read(s.rows[k], x, s.deps[x]) || a == Prewrite(s.rows[k], x, s.deps[x])
    requires s' == s.(rows := s.rows[k := a.0], deps := s.deps[x := a.1])
    ensures Step(s, s')
  {
    hide Step;
    assert a in [Read(s.rows[k], x, s.deps[x]), Prewrite(s.rows[k], x, s.deps[x]),
                 ReadAndPrewrite(s.rows[k], x, s.deps[x])];
    AccessIsStep(s, s', x, k);
  }

  lemma CommitOne(s: System, s': System, x: Tx, k: Key, a: (Row, Table))
    requires x in s.table && x in s.deps && x in s.commits && k in s.rows
    requires a == CommitWrite(s.rows[k], s.table, x, s.commits[x], s.deps[x])
    requires s' == s.(rows := s.rows[k := a.0], table := a.1)
    ensures Step(s, s')
  {
    hide Step, CommitWrite;
    assert a in [CommitRead(s.rows[k], s.table, x, s.commits[x], s.deps[x]), a,
                 CommitBoth(s.rows[k], s.table, x, s.commits[x], s.deps[x])];
    CommitIsStep(s, s', x, k);
  }

  lemma Start()
    ensures Init(S0)
  {
  }

  lemma PrewriteAlone(s: System, s': System, x: Tx, k: Key, w: Ts)
    requires k in s.rows && s.rows[k] == Row(0, w, [], []) && x in s.deps && s.deps[x] == NONE
    requires x in s.table && s.table[x].state == Running
    requires s' == s.(rows := s.rows[k := Row(0, w, [], [x])], deps := s.deps[x := NONE.(lastWrite := w)])
    ensures Step(s, s')
  {
    hide Step;
    assert Insert([], x) == [x];
    Access(s, s', x, k, (Row(0, w, [], [x]), NONE.(lastWrite := w)));
  }

  lemma InstallAlone(s: System, s': System, x: Tx, k: Key, w: Ts)
    requires k in s.rows && s.rows[k] == Row(0, w, [], [x]) && x in s.deps && x in s.table && x in s.commits
    requires s.commits[x] > w && s' == s.(rows := s.rows[k := Row(0, s.commits[x], [], [])])
    ensures Step(s, s')
  {
    hide Step;
    assert Erase([x], x) == [];
    CommitOne(s, s', x, k, (Row(0, s.commits[x], [], []), s.table));
  }

  /** One transaction begins, prewrites a row nobody is using, validates, commits and installs. */
  lemma WriteAlone(s: System, x: Tx, k: Key) returns (run: seq<System>)
    requires x !in s.deps && x !in s.commits && k in s.rows
    requires s.rows[k] == Row(0, s.rows[k].lastWrite, [], []) && s.rows[k].lastWrite < 10
    ensures |run| == 6 && run[0] == s && forall i :: 0 < i < 6 ==> Step(run[i - 1], run[i])
    ensures var w := s.rows[k].lastWrite;
            run[5] == System(s.table[x := Interval(w + 1, UINT64_MAX, Committed)], s.rows[k := Row(0, w + 1, [], [])],
                             s.deps[x := NONE.(lastWrite := w)], s.commits[x := w + 1])
  {
    hide Step, Validate;
    var w := s.rows[k].lastWrite;
    var s1 := s.(table := s.table[x := Interval(0, UINT64_MAX, Running)], deps := s.deps[x := NONE]);
    BeginIsStep(s, s1, x);
    var s2 := s1.(rows := s.rows[k := Row(0, w, [], [x])], deps := s.deps[x := NONE.(lastWrite := w)]);
    assert s2.deps == s1.deps[x := NONE.(lastWrite := w)];
    PrewriteAlone(s1, s2, x, k, w);
    ValidateAlone(s2.table, x, w);
    var s3 := s2.(table := s.table[x := Interval(w + 1, UINT64_MAX, Validated)]);
    assert s3.table == s2.table[x := Interval(w + 1, UINT64_MAX, Validated)];
    ValidateIsStep(s2, s3, x);
    var s4 := s3.(table := s.table[x := Interval(w + 1, UINT64_MAX, Committed)], commits := s.commits[x := w + 1]);
    assert s4.table == s3.table[x := Interval(w + 1, UINT64_MAX, Committed)];
    ChooseIsStep(s3, s4, x);
    var s5 := s4.(rows := s.rows[k := Row(0, w + 1, [], [])]);
    assert s5.rows == s4.rows[k := Row(0, w + 1, [], [])];
    InstallAlone(s4, s5, x, k, w);
    run := [s, s1, s2, s3, s4, s5];
  }

  lemma Step11()
    ensures Step(S10, S11)
  {
    hide Step;
    var s, s' := S10, S11;
    assert s'.table == s.table[3 := Interval(0, UINT64_MAX, Running)];
    assert s'.deps == s.deps[3 := NONE];
    BeginIsStep(s, s', 3);
  }

  lemma Step12()
    ensures Step(S11, S12)
  {
    hide Step;
    var s, s' := S11, S12;
    assert Insert([], 3) == [3];
    var a := Prewrite(s.rows[0], 3, s.deps[3]);
    assert a == (Row(0, 2, [], [3]), AFTER2);
    assert s'.rows == s.rows[0 := a.0];
    assert s'.deps == s.deps[3 := a.1];
    Access(s, s', 3, 0, a);
  }

  lemma Step13()
    ensures Step(S12, S13)
  {
    hide Step;
    var s, s' := S12, S13;
    assert Insert([], 3) == [3];
    var a := Prewrite(s.rows[1], 3, s.deps[3]);
    assert a == (Row(0, 0, [], [3]), AFTER2);
    assert s'.rows == s.rows[1 := a.0];
    assert s'.deps == s.deps[3 := a.1];
    Access(s, s', 3, 1, a);
  }

  lemma Step14()
    ensures Step(S13, S14)
  {
    hide Step;
    var s, s' := S13, S14;
    ValidateAlone(s.table, 3, 2);
    assert s'.table == s.table[3 := s'.table[3]];
    ValidateIsStep(s, s', 3);
  }

  lemma Step15()
    ensures Step(S14, S15)
  {
    hide Step;
    var s, s' := S14, S15;
    assert s'.table == s.table[4 := Interval(0, UINT64_MAX, Running)];
    assert s'.deps == s.deps[4 := NONE];
    BeginIsStep(s, s', 4);
  }

  lemma Step16()
    ensures Step(S15, S16)
  {
    hide Step;
    var s, s' := S15, S16;
    assert Insert([], 4) == [4];
    AllOfOne(3);
    var a := Read(s.rows[1], 4, s.deps[4]);
    assert a == (Row(0, 0, [4], [3]), BELOW3);
    assert s'.rows == s.rows[1 := a.0];
    assert s'.deps == s.deps[4 := a.1];
    Access(s, s', 4, 1, a);
  }

  lemma Step17()
    ensures Step(S16, S17)
  {
    hide Step;
    var s, s' := S16, S17;
    assert Insert([], 4) == [4];
    var a := Prewrite(s.rows[2], 4, s.deps[4]);
    assert a == (Row(0, 0, [], [4]), BELOW3);
    assert s'.rows == s.rows[2 := a.0];
    assert s'.deps == s.deps[4 := a.1];
    Access(s, s', 4, 2, a);
  }

  lemma Step18()
    ensures Step(S17, S18)
  {
    hide Step;
    var s, s' := S17, S18;
    assert s'.table == s.table[5 := Interval(0, UINT64_MAX, Running)];
    assert s'.deps == s.deps[5 := NONE];
    BeginIsStep(s, s', 5);
  }

  lemma Step19()
    ensures Step(S18, S19)
  {
    hide Step;
    var s, s' := S18, S19;
    assert Insert([], 5) == [5];
    var a := Read(s.rows[3], 5, s.deps[5]);
    assert a == (Row(0, 0, [5], []), NONE);
    assert s'.rows == s.rows[3 := a.0];
    assert s'.deps == s.deps[5 := a.1];
    Access(s, s', 5, 3, a);
  }

  lemma Step20()
    ensures Step(S19, S20)
  {
    hide Step;
    var s, s' := S19, S20;
    assert [4][1..] == [] && Insert([], 5) == [5];
    assert Insert([4], 5) == [4, 5];
    AllOfOne(4);
    var a := Prewrite(s.rows[2], 5, s.deps[5]);
    assert a == (Row(0, 0, [], [4, 5]), ABOVE4);
    assert s'.rows == s.rows[2 := a.0];
    assert s'.deps == s.deps[5 := a.1];
    Access(s, s', 5, 2, a);
  }

  lemma Step21()
    ensures Step(S20, S21)
  {
    hide Step;
    var s, s' := S20, S21;
    ValidateBelow(s.table);
    assert s'.table == s.table[4 := s'.table[4]];
    ValidateIsStep(s, s', 4);
  }

  lemma Step22()
    ensures Step(S21, S22)
  {
    hide Step;
    var s, s' := S21, S22;
    ValidateAbove(s.table);
    assert s'.table == s.table[5 := s'.table[5]];
    ValidateIsStep(s, s', 5);
  }

  lemma Step23()
    ensures Step(S22, S23)
  {
    hide Step;
    var s, s' := S22, S23;
    assert s'.table == s.table[5 := s'.table[5]];
    assert s'.commits == s.commits[5 := s'.commits[5]];
    ChooseIsStep(s, s', 5);
  }

  lemma Step24()
    ensures Step(S23, S24)
  {
    hide Step;
    var s, s' := S23, S24;
    assert s'.table == s.table[4 := s'.table[4]];
    assert s'.commits == s.commits[4 := s'.commits[4]];
    ChooseIsStep(s, s', 4);
  }

  lemma Step25()
    ensures Step(S24, S25)
  {
    hide Step;
    var s, s' := S24, S25;
    assert [4, 5][1..] == [5] && [5][1..] == [];
    assert Erase([], 4) == [] && Erase([5], 4) == [5];
    assert Erase([4, 5], 4) == [5];
    CutOne(s.table);
    var a := CommitWrite(s.rows[2], s.table, 4, s.commits[4], s.deps[4]);
    assert s'.rows == s.rows[2 := a.0];
    assert s'.table == a.1;
    CommitOne(s, s', 4, 2, a);
  }

  lemma Step26()
    ensures Step(S25, S26)
  {
    hide Step;
    var s, s' := S25, S26;
    assert s'.table == s.table[6 := Interval(0, UINT64_MAX, Running)];
    assert s'.deps == s.deps[6 := NONE];
    BeginIsStep(s, s', 6);
  }

  lemma Step27()
    ensures Step(S26, S27)
  {
    hide Step;
    var s, s' := S26, S27;
    assert Insert([], 6) == [6];
    AllOfOne(5);
    var a := Prewrite(s.rows[3], 6, s.deps[6]);
    assert a == (Row(0, 0, [5], [6]), OVER5);
    assert s'.rows == s.rows[3 := a.0];
    assert s'.deps == s.deps[6 := a.1];
    Access(s, s', 6, 3, a);
  }

  lemma Step28()
    ensures Step(S27, S28)
    ensures ValidateTxn(S27, S28, 6) && Validate(S27.table, 6, S27.deps[6]).0 == RcOk
  {
    hide Step;
    var s, s' := S27, S28;
    ValidateOver(s.table);
    assert s'.table == s.table[6 := s'.table[6]];
    ValidateIsStep(s, s', 6);
  }

  lemma Step29()
    ensures Step(S28, S29)
  {
    hide Step;
    var s, s' := S28, S29;
    assert s'.table == s.table[6 := s'.table[6]];
    assert s'.commits == s.commits[6 := s'.commits[6]];
    ChooseIsStep(s, s', 6);
  }

  lemma First() returns (run: seq<System>)
    ensures |run| == 6 && run[0] == S0 && run[5] == S5 && forall i :: 0 < i < 6 ==> Step(run[i - 1], run[i])
  {
    hide Step;
    run := WriteAlone(S0, 1, 0);
    assert run[5].table == S5.table && run[5].rows == S5.rows && run[5].deps == S5.deps;
    assert run[5].commits == S5.commits;
  }

  lemma Second() returns (run: seq<System>)
    ensures |run| == 6 && run[0] == S5 && run[5] == S10 && forall i :: 0 < i < 6 ==> Step(run[i - 1], run[i])
  {
    hide Step;
    run := WriteAlone(S5, 2, 0);
    assert run[5].table == S10.table && run[5].rows == S10.rows && run[5].deps == S10.deps;
    assert run[5].commits == S10.commits;
  }

  lemma WholeRun() returns (run: seq<System>)
    ensures IsRun(run) && |run| == 30 && run[27] == S27 && run[28] == S28 && run[29] == S29
  {
    hide Step, Init, State;
    Start();
    var one := First();
    var two := Second();
    run := [S10, S11, S12, S13, S14, S15, S16, S17, S18, S19, S20, S21, S22, S23, S24, S25, S26, S27, S28,
            S29];
    run := one[..5] + two[..5] + run;
    Step11();
    Step12();
    Step13();
    Step14();
    Step15();
    Step16();
    Step17();
    Step18();
    Step19();
    Step20();
    Step21();
    Step22();
    Step23();
    Step24();
    Step25();
    Step26();
    Step27();
    Step28();
    Step29();
  }

  /** There is a run in which 6 validates over the read of 5, which has committed and is still in the table,
      and yet 6 commits below 5: the commit of a row by 4 has moved the interval of 5. */
  lemma ForwardCanMisorder() returns (run: seq<System>)
    ensures IsRun(run) && |run| > 28 && ValidatedAt(run, 27, 6)
    ensures 5 in run[27].deps[6].readers && 5 in run[27].table && run[27].table[5].state == Committed
    ensures var s := run[|run| - 1]; 5 in s.commits && 6 in s.commits && s.commits[6] < s.commits[5]
  {
    hide IsRun, Step, ValidateTxn, Validate;
    run := WholeRun();
    Step28();
  }

  // ----- the exact condition ----------------------------------------------------------------

  /** In every run that ends with the successful validation of `x`, for every `y` that has committed: however
      the run goes on, `x` commits after `y` if it commits, exactly if the lower bound that validation gave
      `x` is above the commit timestamp of `y`. */
  lemma CommitsLaterExactly(run: seq<System>, x: Tx, y: Tx)
    requires IsRun(run) && 2 <= |run| <= UINT64_MAX - 3 && ValidatedAt(run, |run| - 2, x)
    requires x in run[|run| - 1].table && y in run[|run| - 1].commits
    ensures run[|run| - 1].commits[y] < run[|run| - 1].table[x].lower <==>
            forall rest: seq<System> :: IsRun(rest) && run <= rest && x in rest[|rest| - 1].commits ==>
              y in rest[|rest| - 1].commits && rest[|rest| - 1].commits[y] < rest[|rest| - 1].commits[x]
  {
    hide Step, Init, Validate, Inv, Later;
    var s := run[|run| - 1];
    if s.commits[y] < s.table[x].lower {
      forall rest: seq<System> | IsRun(rest) && run <= rest && x in rest[|rest| - 1].commits
        ensures y in rest[|rest| - 1].commits && rest[|rest| - 1].commits[y] < rest[|rest| - 1].commits[x]
      {
        CommitsAtLeast(run, x, y, rest);
      }
    } else {
      var rest := CommitNow(run, x);
    }
  }

  lemma NotYetCommitted(run: seq<System>, x: Tx)
    requires IsRun(run) && 2 <= |run| && ValidatedAt(run, |run| - 2, x)
    ensures x in run[|run| - 1].table && x in run[|run| - 1].deps && x !in run[|run| - 1].commits
    ensures var i := run[|run| - 1].table[x]; i.lower < i.upper && i.state == Validated
  {
    hide Step, Init, Validate, TableSmall, RowsSmall;
    var n := |run| - 2;
    RunKeeps(run, n);
    ValidateNoWrap(n, run[n].table, x, run[n].deps[x]);
    ValidateNarrows(run[n].table, x, run[n].deps[x]);
  }

  lemma CommitsAtLeast(run: seq<System>, x: Tx, y: Tx, rest: seq<System>)
    requires IsRun(run) && 2 <= |run| && ValidatedAt(run, |run| - 2, x) && x in run[|run| - 1].table
    requires y in run[|run| - 1].commits
    requires IsRun(rest) && run <= rest && x in rest[|rest| - 1].commits
    ensures y in rest[|rest| - 1].commits && rest[|rest| - 1].commits[y] == run[|run| - 1].commits[y]
    ensures run[|run| - 1].table[x].lower <= rest[|rest| - 1].commits[x]
  {
    hide Step, Init, Validate, TableSmall, RowsSmall, DepsOk, CommitsOk;
    NotYetCommitted(run, x);
    RunKeeps(run, |run| - 1);
    RunIsLater(rest, |run| - 1, |rest| - 1);
    var s, last := run[|run| - 1], rest[|rest| - 1];
    assert s == rest[|run| - 1];
    assert LaterOf(s, last, x) && LaterOf(s, last, y);
  }

  /** A validated transaction may commit at once, at its lower bound. */
  lemma CommitNow(run: seq<System>, x: Tx) returns (rest: seq<System>)
    requires IsRun(run) && 2 <= |run| <= UINT64_MAX - 3 && ValidatedAt(run, |run| - 2, x)
    ensures IsRun(rest) && run <= rest && x in run[|run| - 1].table && x in rest[|rest| - 1].commits
    ensures x !in run[|run| - 1].commits
    ensures rest[|rest| - 1].commits == run[|run| - 1].commits[x := run[|run| - 1].table[x].lower]
  {
    hide Step, Init, ValidatedAt;
    NotYetCommitted(run, x);
    var s := run[|run| - 1];
    var s' := s.(table := FindBound(s.table, x).1, commits := s.commits[x := s.table[x].lower]);
    ChooseIsStep(s, s', x);
    rest := run + [s'];
  }
}

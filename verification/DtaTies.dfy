/** Why a writer of DTA can tie with a writer whose write it saw. Nobody learns write timestamps: the copy in
    the row is commented out (concurrency_control/row_dta.cpp:203-205), so the greatest write timestamp that
    validation compares with (concurrency_control/dta.cpp:95-96) stays 0. */
module DtaTies {
  import opened SerialHistory
  import opened Maat
  import opened Dta
  import opened DtaRuns
  import opened DtaSteps

  /** What one transaction leaves behind that writes row `k` while nobody else is there. */
  function Alone(s: System, x: Tx, start: Ts, k: Key, c: Ts): System {
    s.(table := s.table[x := Interval(c, UINT64_MAX, Committed)], rows := s.rows[k := Row(c, 0, [])],
       begun := s.begun[x := Origin(start, 0)], commits := s.commits[x := c],
       writeLog := s.writeLog + {Write(x, k, c)})
  }

  ghost predicate Free(s: System, k: Key) {
    k in s.rows && s.rows[k] == Row(s.rows[k].lastRead, 0, []) && forall j :: j in s.buffers ==> s.buffers[j] == []
  }

  lemma EnterAlone(s: System, s1: System, s2: System, x: Tx, start: Ts, k: Key)
    requires x !in s.begun && Free(s, k)
    requires s1 == s.(table := s.table[x := Interval(start, UINT64_MAX, Running)],
                      begun := s.begun[x := Origin(start, 0)])
    requires s2 == s1.(rows := s.rows[k := Row(s.rows[k].lastRead, 0, [x])])
    ensures Step(s, s1) && Step(s1, s2)
  {
    hide Step, Waits;
    BeginIsStep(s, s1, x, start);
    assert Insert([], x) == [x];
    NotWaiting(s1, x);
    AccessIsStep(s1, s2, x, k);
  }

  lemma LeaveAlone(s3: System, s4: System, s5: System, x: Tx, k: Key, c: Ts)
    requires x in s3.table && s3.table[x] == Interval(c, UINT64_MAX, Validated) && x !in s3.commits && c < UINT64_MAX
    requires s4 == s3.(table := s3.table[x := Interval(c, UINT64_MAX, Committed)], commits := s3.commits[x := c])
    requires k in s3.rows && s3.rows[k] == Row(s3.rows[k].lastRead, x, [x]) && s3.rows[k].lastRead < c
    requires s5 == s4.(rows := s4.rows[k := Row(c, 0, [])], writeLog := s4.writeLog + {Write(x, k, c)})
    ensures Step(s3, s4) && Step(s4, s5)
  {
    hide Step;
    ChooseIsStep(s3, s4, x);
    LeaveIsStep(s4, s5, x, k, 0);
  }

  /** It begins, accesses the row, validates, commits and leaves. */
  lemma WriteAlone(s: System, x: Tx, start: Ts, k: Key, c: Ts) returns (run: seq<System>)
    requires x !in s.begun && x !in s.commits && x != 0 && 0 < start && Free(s, k)
    requires s.rows[k].lastRead < 100 && start < 100 && c == Above(start, s.rows[k].lastRead)
    ensures |run| == 6 && run[0] == s && run[5] == Alone(s, x, start, k, c)
    ensures forall i :: 0 < i < 6 ==> Step(run[i - 1], run[i])
  {
    hide Step;
    var lr := s.rows[k].lastRead;
    var s1 := s.(table := s.table[x := Interval(start, UINT64_MAX, Running)], begun := s.begun[x := Origin(start, 0)]);
    var s2 := s1.(rows := s.rows[k := Row(lr, 0, [x])]);
    EnterAlone(s, s1, s2, x, start, k);
    var s3 := s2.(table := s.table[x := Interval(c, UINT64_MAX, Validated)], rows := s.rows[k := Row(lr, x, [x])]);
    ValidateAlone(s2, s3, x, k, c);
    var s4 := s3.(table := s.table[x := Interval(c, UINT64_MAX, Committed)], commits := s.commits[x := c]);
    assert s4.table == s3.table[x := Interval(c, UINT64_MAX, Committed)];
    var s5 := s4.(rows := s.rows[k := Row(c, 0, [])], writeLog := s.writeLog + {Write(x, k, c)});
    assert s5.rows == s4.rows[k := Row(c, 0, [])];
    LeaveAlone(s3, s4, s5, x, k, c);
    run := [s, s1, s2, s3, s4, s5];
  }

  lemma ValidateAlone(s: System, s': System, x: Tx, k: Key, c: Ts)
    requires x in s.begun && s.begun[x].greatest == 0 && x in s.table
    requires s.table[x] == Interval(s.table[x].lower, UINT64_MAX, Running) && 0 < s.table[x].lower < 100
    requires k in s.rows && s.rows[k] == Row(s.rows[k].lastRead, 0, [x]) && s.rows[k].lastRead < 100
    requires c == Above(s.table[x].lower, s.rows[k].lastRead)
    requires forall j :: j in s.buffers ==> s.buffers[j] == []
    requires s'.table == s.table[x := Interval(c, UINT64_MAX, Validated)]
    requires s'.rows == s.rows[k := s.rows[k].(writeTrans := x)]
    requires s' == s.(table := s'.table, rows := s'.rows)
    ensures Step(s, s')
  {
    hide Step, Waits, ReadersLoop, ValidateRows;
    OnlyReader(s.table, x, c, UINT64_MAX);
    NotWaiting(s, x);
    assert s'.table == Dta.Store(s.table, x, c, UINT64_MAX, Validated);
    ValidateOne(s, s', x, k, Scan(c, s.table, false));
  }

  /** Transaction 1 commits at 10 on row 0, so 2, although it started at 3, commits there at 11. */
  const S0 := System(DtaVariant, 4, map[], map[0 := Row(0, 0, []), 1 := Row(0, 0, [])], map[0 := [], 1 := []],
                     map[], map[], {}, {})
  const S5 := Alone(S0, 1, 10, 0, 10)
  const S10 := Alone(S5, 2, 3, 0, 11)

  /** Transaction 3 starts at 11, reads what 2 wrote, writes row 1 and commits at 11 too. */
  const S11 := S10.(table := S10.table[3 := Interval(11, UINT64_MAX, Running)], begun := S10.begun[3 := Origin(11, 0)])
  const S12 := S11.(rows := S11.rows[0 := Row(11, 0, [3])], sawLog := {Saw(3, Write(2, 0, 11))})
  const S13 := S12.(rows := S12.rows[1 := Row(0, 0, [3])])
  const S14 := S13.(table := S13.table[3 := Interval(11, UINT64_MAX, Validated)],
                    rows := S13.rows[1 := Row(0, 3, [3])])
  const S15 := S14.(table := S14.table[3 := Interval(11, UINT64_MAX, Committed)], commits := S14.commits[3 := 11])

  lemma Start()
    ensures Init(S0)
  {
  }

  lemma Step11()
    ensures Step(S10, S11)
  {
    hide Step;
    BeginIsStep(S10, S11, 3, 11);
  }

  lemma Step12()
    ensures Step(S11, S12)
  {
    hide Step;
    assert Insert([], 3) == [3];
    assert S11.writeLog == {Write(1, 0, 10), Write(2, 0, 11)};
    assert Newest(S11.writeLog, 0, 11, Write(2, 0, 11));
    assert S11.sawLog + {Saw(3, Write(2, 0, 11))} == {Saw(3, Write(2, 0, 11))};
    AccessIsStep(S11, S12, 3, 0);
  }

  lemma Step13()
    ensures Step(S12, S13)
  {
    hide Step, Waits;
    assert Insert([], 3) == [3];
    NotWaiting(S12, 3);
    AccessIsStep(S12, S13, 3, 1);
  }

  lemma Step14()
    ensures Step(S13, S14)
  {
    hide Step;
    ValidateAlone(S13, S14, 3, 1, 11);
  }

  lemma Step15()
    ensures Step(S14, S15)
  {
    hide Step;
    ChooseIsStep(S14, S15, 3);
  }

  /** There is a run of DTA in which a writer commits at the same timestamp as the writer whose write it saw. */
  lemma WritersCanTie() returns (run: seq<System>)
    ensures IsRun(run)
    ensures var s := run[|run| - 1];
            && Saw(3, Write(2, 0, 11)) in s.sawLog && 2 in s.commits && 3 in s.commits
            && s.commits[2] == s.commits[3]
  {
    hide Step, Init, Alone;
    Start();
    var one := First();
    var two := Second();
    Step11();
    Step12();
    Step13();
    Step14();
    Step15();
    run := one[..5] + two[..5] + [S10, S11, S12, S13, S14, S15];
    LastCommits();
  }

  lemma LastCommits()
    ensures 2 in S15.commits && 3 in S15.commits && S15.commits[2] == S15.commits[3] == 11
  {
  }

  lemma First() returns (run: seq<System>)
    ensures |run| == 6 && run[0] == S0 && run[5] == S5 && forall i :: 0 < i < 6 ==> Step(run[i - 1], run[i])
  {
    hide Step;
    run := WriteAlone(S0, 1, 10, 0, 10);
  }

  lemma Second() returns (run: seq<System>)
    ensures |run| == 6 && run[0] == S5 && run[5] == S10 && forall i :: 0 < i < 6 ==> Step(run[i - 1], run[i])
  {
    hide Step;
    run := WriteAlone(S5, 2, 3, 0, 11);
  }
}

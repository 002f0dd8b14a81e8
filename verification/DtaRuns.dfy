/** Runs of DTA and of WOOKONG (concurrency_control/dta.cpp, row_dta.cpp, wkdb.cpp, row_wkdb.cpp). In
    WOOKONG a prewrite waits while another writer is registered on the row, and is woken with its upper
    bound set back to the maximum when that writer leaves. */
module DtaRuns {
  import opened SerialHistory
  import opened Maat
  import opened Dta

  /** The timestamp a transaction started with, and the greatest write timestamp it has learned. */
  datatype Origin = Origin(start: Ts, greatest: Ts)

  /** `tx` committed its write of row `key`. */
  datatype Write = Write(tx: Tx, key: Key, ts: Ts)

  /** `tx` read what a committed write left in a row. */
  datatype Saw = Saw(tx: Tx, write: Write)

  /** `buffers` has the prewrites waiting at each row, latest first; `begun` every transaction that ever had
      an interval, `commits` all commit timestamps. */
  datatype System = System(variant: Variant, maxPreq: nat, table: Table, rows: map<Key, Row>,
                           buffers: map<Key, seq<Tx>>, begun: map<Tx, Origin>, commits: map<Tx, Ts>,
                           writeLog: set<Write>, sawLog: set<Saw>)

  ghost predicate Begin(s: System, s': System, x: Tx, start: Ts) {
    && x !in s.begun
    && s' == s.(table := s.table[x := Interval(start, UINT64_MAX, Running)], begun := s.begun[x := Origin(start, 0)])
  }

  /** The prewrite of `x` is still waiting at a row. */
  ghost predicate Waits(s: System, x: Tx) {
    exists k :: k in s.buffers && x in s.buffers[k]
  }

  function Registered(s: System, x: Tx, k: Key): System
    requires k in s.rows
  {
    s.(rows := s.rows[k := s.rows[k].(readers := Insert(s.rows[k].readers, x))])
  }

  ghost predicate AccessRow(s: System, s': System, x: Tx, k: Key) {
    x in s.table && k in s.rows && !Waits(s, x) && s' == Registered(s, x, k)
  }

  /** What a read at `start` finds: the newest committed write not after it. */
  ghost predicate Newest(log: set<Write>, k: Key, start: Ts, w: Write) {
    w in log && w.key == k && w.ts <= start && forall v :: v in log && v.key == k && v.ts <= start ==> v.ts <= w.ts
  }

  /** DTA: a read also gets a version, if there is one. No line copies the row's write timestamp. */
  ghost predicate ReadRow(s: System, s': System, x: Tx, k: Key) {
    && s.variant.DtaVariant? && x in s.table && x in s.begun && k in s.rows
    && s' == Registered(s, x, k).(sawLog := s'.sawLog)
    && ((exists w :: Newest(s.writeLog, k, s.begun[x].start, w) && s'.sawLog == s.sawLog + {Saw(x, w)})
        || ((forall w :: !Newest(s.writeLog, k, s.begun[x].start, w)) && s'.sawLog == s.sawLog))
  }

  /** WOOKONG: the prewrite of a row on which another writer is registered waits. */
  ghost predicate BufferRow(s: System, s': System, x: Tx, k: Key) {
    && s.variant.WkdbVariant? && x in s.table && k in s.rows && k in s.buffers && !Waits(s, x)
    && s.rows[k].writeTrans !in {0, x} && |s.buffers[k]| < s.maxPreq
    && s' == Registered(s, x, k).(buffers := s.buffers[k := [x] + s.buffers[k]])
  }

  /** WOOKONG: the prewrite of a warehouse row that does not wait registers its writer at once. */
  ghost predicate ClaimRow(s: System, s': System, x: Tx, k: Key) {
    && s.variant.WkdbVariant? && x in s.table && k in s.rows && k in s.buffers && !Waits(s, x)
    && (s.rows[k].writeTrans in {0, x} || |s.buffers[k]| >= s.maxPreq)
    && var m := Registered(s, x, k);
       s' == m.(rows := m.rows[k := m.rows[k].(writeTrans := x)])
  }

  ghost predicate ValidateTxn(s: System, s': System, x: Tx, ks: seq<Key>) {
    && x in s.table && x in s.begun && s.table[x].state == Running && !Waits(s, x)
    && (forall i :: 0 <= i < |ks| ==> ks[i] in s.rows)
    && (forall i, j :: 0 <= i < j < |ks| ==> ks[i] != ks[j])
    && var (rc, t, rows) := ValidateRows(s.variant, s.table, x, s.begun[x].greatest, RowsAt(s, ks));
       && s' == s.(table := t, rows := s'.rows) && s'.rows.Keys == s.rows.Keys
       && (forall i :: 0 <= i < |ks| ==> s'.rows[ks[i]] == rows[i])
       && (forall k :: k in s.rows && k !in ks ==> s'.rows[k] == s.rows[k])
  }

  ghost function RowsAt(s: System, ks: seq<Key>): (ws: seq<Row>)
    requires forall i :: 0 <= i < |ks| ==> ks[i] in s.rows
    ensures |ws| == |ks| && forall i :: 0 <= i < |ks| ==> ws[i] == s.rows[ks[i]]
  {
    seq(|ks|, i requires 0 <= i < |ks| => s.rows[ks[i]])
  }

  ghost predicate ChooseTs(s: System, s': System, x: Tx) {
    && x in s.table && s.table[x].state == Validated && x !in s.commits
    && var (rc, t, ts) := FindBound(s.table, x);
       s' == s.(table := t, commits := if rc == RcOk then s.commits[x := ts] else s.commits)
  }

  /** Row commit or abort: the reader leaves, a registered writer may be forgotten, a commit may write. */
  ghost predicate LeaveRow(s: System, s': System, x: Tx, k: Key, w: Tx) {
    && k in s.rows
    && var r := s.rows[k];
       var ts := if x in s.commits && r.lastRead < s.commits[x] then s.commits[x] else r.lastRead;
       && (w == r.writeTrans || w == 0)
       && s'.rows.Keys == s.rows.Keys && s' == s.(rows := s.rows[k := s'.rows[k]], writeLog := s'.writeLog)
       && (s'.writeLog == s.writeLog || (x in s.commits && s'.writeLog == s.writeLog + {Write(x, k, s.commits[x])}))
       && s'.rows[k] == Row(ts, w, s'.rows[k].readers)
       && forall y :: y in s'.rows[k].readers <==> y in r.readers && y != x
  }

  /** WOOKONG's `debuffer_req`: behind the requests of `x` itself, the first one waiting is woken,
      registered as writer, and has its upper bound set to the maximum. */
  ghost predicate Wake(s: System, s': System, x: Tx, k: Key, y: Tx) {
    && s.variant.WkdbVariant? && k in s.rows && k in s.buffers && y != x
    && exists n :: 0 <= n < |s.buffers[k]| && s.buffers[k][n] == y && (forall i :: 0 <= i < n ==> s.buffers[k][i] == x)
         && s' == s.(table := SetUpper(s.table, y, UINT64_MAX),
                     rows := s.rows[k := s.rows[k].(writeTrans := y)],
                     buffers := s.buffers[k := s.buffers[k][..n] + s.buffers[k][n + 1..]])
  }

  /** The writer `x` leaves row `k` and wakes `y`, in one latched section. */
  ghost predicate LeaveAndWake(s: System, s': System, x: Tx, k: Key, w: Tx, y: Tx) {
    exists m :: LeaveRow(s, m, x, k, w) && Wake(m, s', x, k, y)
  }

  ghost predicate Leave(s: System, s': System, x: Tx) {
    || s' == s.(table := s.table - {x})
    || (x !in s.commits && s' == s.(table := SetState(s.table, x, Aborted)))
  }

  ghost predicate Woken(s: System, s': System, y: Tx) {
    exists x, k, w :: LeaveAndWake(s, s', x, k, w, y)
  }

  ghost predicate Step(s: System, s': System) {
    || (exists x, lower :: Begin(s, s', x, lower))
    || (exists x, k :: AccessRow(s, s', x, k) || ReadRow(s, s', x, k))
    || (exists x, k :: BufferRow(s, s', x, k) || ClaimRow(s, s', x, k))
    || (exists x, ks :: ValidateTxn(s, s', x, ks))
    || (exists x :: ChooseTs(s, s', x))
    || (exists x, k, w :: LeaveRow(s, s', x, k, w))
    || (exists y :: Woken(s, s', y))
    || (exists x :: Leave(s, s', x))
  }

  ghost predicate Init(s: System) {
    && s.table == map[] && s.begun == map[] && s.commits == map[] && s.writeLog == {} && s.sawLog == {}
    && s.buffers.Keys == s.rows.Keys
    && forall k :: k in s.rows ==> s.rows[k] == Row(0, 0, []) && s.buffers[k] == []
  }

  ghost predicate IsRun(run: seq<System>) {
    && run != [] && Init(run[0])
    && forall i :: 0 < i < |run| ==> Step(run[i - 1], run[i])
  }

  /** Nobody goes below its start, nobody has learned a write timestamp, and a committed transaction's
      interval contains its commit timestamp. */
  ghost predicate TxOk(s: System, x: Tx) {
    && x in s.begun && s.begun[x].greatest == 0
    && (x in s.table ==> s.begun[x].start <= s.table[x].lower)
    && (x in s.commits ==> s.begun[x].start <= s.commits[x] < UINT64_MAX)
    && (x in s.commits && x in s.table ==>
          s.table[x].state == Committed && s.table[x].lower == s.commits[x] < s.table[x].upper)
  }

  /** Versions carry the commit timestamps of their writers; a read saw one not after its start. */
  ghost predicate LogsOk(s: System) {
    && (forall w :: w in s.writeLog ==> w.tx in s.commits && w.ts == s.commits[w.tx])
    && (forall r :: r in s.sawLog ==> r.tx in s.begun && r.write in s.writeLog && r.write.ts <= s.begun[r.tx].start)
  }

  ghost predicate Inv(s: System) {
    && s.table.Keys <= s.begun.Keys && s.commits.Keys <= s.begun.Keys
    && (forall x :: x in s.begun ==> TxOk(s, x))
    && (forall k :: k in s.rows ==> s.rows[k].lastRead < UINT64_MAX)
    && LogsOk(s)
  }

  /** What stays true of a known transaction: its commit timestamp, and its lower bound as a bound. */
  ghost predicate LaterOf(s: System, s': System, x: Tx) {
    && x in s.begun && x in s'.begun && s'.begun[x] == s.begun[x]
    && (x in s.commits ==> x in s'.commits && s'.commits[x] == s.commits[x])
    && (x in s'.table ==> x in s.table && s.table[x].lower <= s'.table[x].lower)
    && (x !in s.commits && x in s'.commits ==> x in s.table && s.table[x].lower <= s'.commits[x])
  }

  ghost predicate Later(s: System, s': System) {
    s'.variant == s.variant && forall x :: x in s.begun ==> LaterOf(s, s', x)
  }

  /** Its upper bound as a bound. */
  ghost predicate Capped(s: System, s': System, x: Tx) {
    && (x in s'.table ==> x in s.table && s'.table[x].upper <= s.table[x].upper)
    && (x !in s.commits && x in s'.commits ==> x in s.table && s'.commits[x] < s.table[x].upper)
  }

  ghost predicate AllCapped(s: System, s': System) {
    forall x :: x in s.begun ==> Capped(s, s', x)
  }

  /** A step is looked at one transaction at a time. */
  ghost predicate OneKept(s: System, s': System, z: Tx) {
    TxOk(s', z) && LaterOf(s, s', z) && Capped(s, s', z)
  }

  lemma AllKept(s: System, s': System)
    requires Inv(s) && s'.variant == s.variant && s'.writeLog == s.writeLog && s'.sawLog == s.sawLog
    requires s'.table.Keys <= s'.begun.Keys && s'.commits.Keys <= s'.begun.Keys
    requires forall z :: z in s.begun ==> OneKept(s, s', z)
    requires forall z :: z in s'.begun && z !in s.begun ==> TxOk(s', z)
    requires forall k :: k in s'.rows ==> s'.rows[k].lastRead < UINT64_MAX
    ensures Inv(s') && Later(s, s') && AllCapped(s, s')
  {
    hide TxOk, Capped;
    assert forall z :: z in s.begun ==> OneKept(s, s', z);
  }

  lemma ValidateTxnKeepsOne(s: System, s': System, x: Tx, ks: seq<Key>, z: Tx)
    requires Inv(s) && ValidateTxn(s, s', x, ks) && z in s.begun
    ensures s'.table.Keys == s.table.Keys && OneKept(s, s', z)
  {
    hide ValidateRows, Waits, LogsOk;
    assert TxOk(s, x) && TxOk(s, z);
    ValidateTrims(s.variant, s.table, x, s.begun[x].greatest, RowsAt(s, ks));
  }

  lemma ValidateTxnKeepsRows(s: System, s': System, x: Tx, ks: seq<Key>)
    requires Inv(s) && ValidateTxn(s, s', x, ks)
    ensures forall k :: k in s'.rows ==> s'.rows[k].lastRead < UINT64_MAX
  {
    hide ValidateRows, Waits, LogsOk;
    assert TxOk(s, x);
    ValidateTrims(s.variant, s.table, x, s.begun[x].greatest, RowsAt(s, ks));
  }

  lemma ValidateTxnKeeps(s: System, s': System, x: Tx, ks: seq<Key>)
    requires Inv(s) && ValidateTxn(s, s', x, ks)
    ensures Inv(s') && Later(s, s') && AllCapped(s, s')
  {
    hide ValidateRows, Waits, LogsOk, TxOk, OneKept;
    ValidateTxnKeepsRows(s, s', x, ks);
    forall z | z in s.begun
      ensures s'.table.Keys == s.table.Keys && OneKept(s, s', z)
    {
      ValidateTxnKeepsOne(s, s', x, ks, z);
    }
    assert x in s.begun;
    AllKept(s, s');
  }

  lemma BeginKeeps(s: System, s': System, x: Tx, start: Ts)
    requires Inv(s) && Begin(s, s', x, start)
    ensures Inv(s') && Later(s, s') && AllCapped(s, s')
  {
    hide LogsOk;
    forall z | z in s.begun
      ensures OneKept(s, s', z)
    {
      assert TxOk(s, z);
    }
    hide TxOk, OneKept;
    AllKept(s, s');
  }

  lemma ChooseTsKeepsOne(s: System, s': System, x: Tx, z: Tx)
    requires TxOk(s, x) && TxOk(s, z) && ChooseTs(s, s', x)
    ensures OneKept(s, s', z)
  {
  }

  lemma ChooseTsKeeps(s: System, s': System, x: Tx)
    requires Inv(s) && ChooseTs(s, s', x)
    ensures Inv(s') && Later(s, s') && AllCapped(s, s')
  {
    hide LogsOk, TxOk, OneKept;
    forall z | z in s.begun
      ensures OneKept(s, s', z)
    {
      ChooseTsKeepsOne(s, s', x, z);
    }
    AllKept(s, s');
  }

  lemma LeaveKeepsOne(s: System, s': System, x: Tx, z: Tx)
    requires TxOk(s, z) && Leave(s, s', x)
    ensures OneKept(s, s', z)
  {
  }

  lemma LeaveKeeps(s: System, s': System, x: Tx)
    requires Inv(s) && Leave(s, s', x)
    ensures Inv(s') && Later(s, s') && AllCapped(s, s')
  {
    hide LogsOk, TxOk, OneKept;
    forall z | z in s.begun
      ensures OneKept(s, s', z)
    {
      LeaveKeepsOne(s, s', x, z);
    }
    AllKept(s, s');
  }

  /** Steps that touch rows, buffers and logs only. */
  lemma RowStepKeeps(s: System, s': System)
    requires Inv(s) && s' == s.(rows := s'.rows, buffers := s'.buffers, writeLog := s'.writeLog, sawLog := s'.sawLog)
    requires LogsOk(s') && forall k :: k in s'.rows ==> s'.rows[k].lastRead < UINT64_MAX
    ensures Inv(s') && Later(s, s') && AllCapped(s, s')
  {
    hide LogsOk;
    forall z | z in s.begun
      ensures OneKept(s, s', z)
    {
      assert TxOk(s, z);
    }
  }

  lemma LeaveRowKeeps(s: System, s': System, x: Tx, k: Key, w: Tx)
    requires Inv(s) && LeaveRow(s, s', x, k, w)
    ensures Inv(s') && Later(s, s') && AllCapped(s, s')
  {
    RowStepKeeps(s, s');
  }

  lemma WakeKeepsOne(s: System, s': System, x: Tx, k: Key, y: Tx, z: Tx)
    requires TxOk(s, z) && Wake(s, s', x, k, y)
    ensures TxOk(s', z) && LaterOf(s, s', z) && (z != y ==> Capped(s, s', z))
    ensures z == y && y in s'.table ==> s'.table[y].upper == UINT64_MAX
  {
  }

  /** Waking widens the interval of the one transaction it wakes. */
  lemma WakeKeeps(s: System, s': System, x: Tx, k: Key, y: Tx)
    requires Inv(s) && Wake(s, s', x, k, y)
    ensures Inv(s') && Later(s, s') && (y in s'.table ==> s'.table[y].upper == UINT64_MAX)
    ensures forall z :: z in s.begun && z != y ==> Capped(s, s', z)
  {
    hide TxOk, LaterOf, Capped;
    forall z | z in s.begun
      ensures TxOk(s', z) && LaterOf(s, s', z) && (z != y ==> Capped(s, s', z))
      ensures z == y && y in s'.table ==> s'.table[y].upper == UINT64_MAX
    {
      WakeKeepsOne(s, s', x, k, y, z);
    }
  }

  lemma LeaveAndWakeKeeps(s: System, s': System, x: Tx, k: Key, w: Tx, y: Tx)
    requires Inv(s) && LeaveAndWake(s, s', x, k, w, y)
    ensures Inv(s') && Later(s, s') && (y in s'.table ==> s'.table[y].upper == UINT64_MAX)
    ensures forall z :: z in s.begun && z != y ==> Capped(s, s', z)
  {
    hide LeaveRow, Wake, Later, Inv;
    var m :| LeaveRow(s, m, x, k, w) && Wake(m, s', x, k, y);
    LeaveRowKeeps(s, m, x, k, w);
    WakeKeeps(m, s', x, k, y);
    LaterTransitive(s, m, s');
    assert s.begun.Keys <= m.begun.Keys by { LaterStarted(s, m); }
    forall z | z in s.begun && z != y
      ensures Capped(s, s', z)
    {
      CappedTransitive(s, m, s', z);
    }
  }

  lemma LaterStarted(s: System, s': System)
    requires Later(s, s')
    ensures s.begun.Keys <= s'.begun.Keys
  {
    assert forall x :: x in s.begun ==> LaterOf(s, s', x);
  }

  lemma StepKeeps(s: System, s': System)
    requires Inv(s) && Step(s, s')
    ensures Inv(s') && Later(s, s')
    ensures forall x :: x in s.begun && !Woken(s, s', x) ==> Capped(s, s', x)
  {
    hide ValidateTxn, Insert, Later, Begin, ChooseTs, Leave, Waits, LeaveAndWake, LeaveRow, Capped, Inv;
    if x, ks :| ValidateTxn(s, s', x, ks) {
      ValidateTxnKeeps(s, s', x, ks);
    } else if x, lower :| Begin(s, s', x, lower) {
      BeginKeeps(s, s', x, lower);
    } else if x :| ChooseTs(s, s', x) {
      ChooseTsKeeps(s, s', x);
    } else if x :| Leave(s, s', x) {
      LeaveKeeps(s, s', x);
    } else if y :| Woken(s, s', y) {
      var x, k, w :| LeaveAndWake(s, s', x, k, w, y);
      LeaveAndWakeKeeps(s, s', x, k, w, y);
    } else if x, k, w :| LeaveRow(s, s', x, k, w) {
      LeaveRowKeeps(s, s', x, k, w);
    } else {
      var x, k :| AccessRow(s, s', x, k) || ReadRow(s, s', x, k) || BufferRow(s, s', x, k) || ClaimRow(s, s', x, k);
      AccessKeeps(s, s', x, k);
    }
  }

  lemma AccessKeeps(s: System, s': System, x: Tx, k: Key)
    requires Inv(s)
    requires AccessRow(s, s', x, k) || ReadRow(s, s', x, k) || BufferRow(s, s', x, k) || ClaimRow(s, s', x, k)
    ensures Inv(s') && Later(s, s') && AllCapped(s, s')
  {
    hide Insert, Waits;
    RowStepKeeps(s, s');
  }

  lemma LaterTransitive(s: System, s': System, s'': System)
    requires Later(s, s') && Later(s', s'')
    ensures Later(s, s'')
  {
    forall x | x in s.begun
      ensures LaterOf(s, s'', x)
    {
      assert LaterOf(s, s', x) && LaterOf(s', s'', x);
    }
  }

  lemma CappedTransitive(s: System, s': System, s'': System, x: Tx)
    requires Capped(s, s', x) && Capped(s', s'', x) && Later(s, s') && x in s.begun
    requires Later(s', s'')
    ensures Capped(s, s'', x)
  {
    assert LaterOf(s, s', x) && LaterOf(s', s'', x);
  }

  lemma LaterReflexive(s: System)
    requires Inv(s)
    ensures Later(s, s) && AllCapped(s, s)
  {
  }

  lemma {:induction false} RunKeeps(run: seq<System>, i: nat, j: nat)
    requires IsRun(run) && i <= j < |run|
    ensures Inv(run[j]) && Later(run[i], run[j])
    decreases j
  {
    if j == 0 {
      LaterReflexive(run[0]);
    } else {
      hide Step, Inv, Later;
      RunKeeps(run, if i < j then i else j - 1, j - 1);
      StepKeeps(run[j - 1], run[j]);
      if i < j {
        LaterTransitive(run[i], run[j - 1], run[j]);
      } else {
        LaterReflexive(run[j]);
      }
    }
  }

  /** Nobody wakes `y` between states `i` and `j`. */
  ghost predicate Sleeps(run: seq<System>, i: nat, j: nat, y: Tx)
    requires i <= j < |run|
  {
    forall m :: i < m <= j ==> !Woken(run[m - 1], run[m], y)
  }

  lemma {:induction false} RunCaps(run: seq<System>, i: nat, j: nat, y: Tx)
    requires IsRun(run) && i <= j < |run| && y in run[i].begun && Sleeps(run, i, j, y)
    ensures Capped(run[i], run[j], y)
    decreases j
  {
    hide Step, Inv, Later, Woken, LaterOf;
    RunKeeps(run, i, j);
    if i == j {
      LaterReflexive(run[i]);
    } else {
      hide Capped;
      RunCaps(run, i, j - 1, y);
      RunKeeps(run, i, j - 1);
      LaterStarted(run[i], run[j - 1]);
      StepKeeps(run[j - 1], run[j]);
      CappedTransitive(run[i], run[j - 1], run[j], y);
    }
  }

  /** DTA has no waiting prewrites, so nobody is ever woken. */
  lemma DtaSleeps(run: seq<System>, i: nat, j: nat, y: Tx)
    requires IsRun(run) && i <= j < |run| && run[i].variant.DtaVariant?
    ensures Sleeps(run, i, j, y)
  {
    hide Step, Inv;
    forall m | i < m <= j
      ensures !Woken(run[m - 1], run[m], y)
    {
      RunKeeps(run, i, m - 1);
      DtaStepSleeps(run[m - 1], run[m], y);
    }
  }

  lemma DtaStepSleeps(s: System, s': System, y: Tx)
    requires s.variant.DtaVariant?
    ensures !Woken(s, s', y)
  {
  }

  /** When `x` validates successfully in step `i`, `y` is another reader of a row that `x` writes. */
  ghost predicate ReaderAt(run: seq<System>, i: nat, x: Tx, ks: seq<Key>, n: nat, y: Tx) {
    && i + 1 < |run| && ValidateTxn(run[i], run[i + 1], x, ks) && n < |ks|
    && ValidateRows(run[i].variant, run[i].table, x, run[i].begun[x].greatest, RowsAt(run[i], ks)).0 == RcOk
    && y in run[i].rows[ks[n]].readers && y != x
    && y in run[i].table && run[i].table[y].state != Aborted && run[i].table[y].lower < run[i].table[y].upper
  }

  /** Over whole runs of DTA and of WOOKONG: when `x` validates successfully, `y` is another reader of a
      row that `x` writes, in the table, not aborted and with a non-empty interval, `y` is not woken
      from then on, and both commit, then `y` commits strictly before `x`. */
  lemma ReaderCommitsEarlier(run: seq<System>, i: nat, x: Tx, ks: seq<Key>, n: nat, y: Tx)
    requires IsRun(run) && ReaderAt(run, i, x, ks, n, y) && Sleeps(run, i + 1, |run| - 1, y)
    requires x in run[|run| - 1].commits && y in run[|run| - 1].commits
    ensures run[|run| - 1].commits[y] < run[|run| - 1].commits[x]
  {
    hide Step, ValidateRows, Sleeps, Waits, Woken, LogsOk;
    var s, s', last := run[i], run[i + 1], |run| - 1;
    RunKeeps(run, i, i);
    RunKeeps(run, i + 1, last);
    RunKeeps(run, i, i + 1);
    ValidateTrims(s.variant, s.table, x, s.begun[x].greatest, RowsAt(s, ks));
    ValidateServesReaders(s.variant, s.table, x, s.begun[x].greatest, RowsAt(s, ks), n);
    assert Served(s'.table, y, s'.table[x].lower);
    assert LaterOf(s', run[last], x) && LaterOf(s', run[last], y);
    RunCaps(run, i + 1, last, y);
  }

  /** DTA over whole runs: no condition on wake-ups. */
  lemma DtaReaderCommitsEarlier(run: seq<System>, i: nat, x: Tx, ks: seq<Key>, n: nat, y: Tx)
    requires IsRun(run) && run[0].variant.DtaVariant? && ReaderAt(run, i, x, ks, n, y)
    requires x in run[|run| - 1].commits && y in run[|run| - 1].commits
    ensures run[|run| - 1].commits[y] < run[|run| - 1].commits[x]
  {
    hide Step, Inv, ReaderAt, Sleeps;
    assert i + 1 < |run| by { ReaderAtIndex(run, i, x, ks, n, y); }
    RunKeeps(run, 0, i + 1);
    DtaSleeps(run, i + 1, |run| - 1, y);
    ReaderCommitsEarlier(run, i, x, ks, n, y);
  }

  lemma ReaderAtIndex(run: seq<System>, i: nat, x: Tx, ks: seq<Key>, n: nat, y: Tx)
    requires ReaderAt(run, i, x, ks, n, y)
    ensures i + 1 < |run|
  {
  }

  /** In every reachable state: a running transaction that stays in the table keeps below a bound it was
      trimmed to, in a step, exactly if the step does not wake it. */
  lemma BoundHoldsExactly(run: seq<System>, s': System, y: Tx, bound: Ts)
    requires IsRun(run) && Step(run[|run| - 1], s') && y in run[|run| - 1].table && y in s'.table
    requires run[|run| - 1].table[y].upper <= bound < UINT64_MAX
    ensures s'.table[y].upper <= bound <==> !Woken(run[|run| - 1], s', y)
  {
    hide Step, Later, LeaveAndWake;
    var s := run[|run| - 1];
    RunKeeps(run, |run| - 1, |run| - 1);
    StepKeeps(s, s');
    if Woken(s, s', y) {
      var x, k, w :| LeaveAndWake(s, s', x, k, w, y);
      LeaveAndWakeKeeps(s, s', x, k, w, y);
    }
  }

  // ----- what a transaction saw -------------------------------------------------------------

  /** In every run nobody has learned a write timestamp: the lines that would copy it are commented out. */
  lemma GreatestIsNeverLearned(run: seq<System>, x: Tx)
    requires IsRun(run) && x in run[|run| - 1].begun
    ensures run[|run| - 1].begun[x].greatest == 0
  {
    hide Step, LogsOk;
    RunKeeps(run, |run| - 1, |run| - 1);
    assert TxOk(run[|run| - 1], x);
  }

  /** In every run of DTA: a committed transaction does not come before a writer whose write it saw, and
      comes strictly after it exactly if the write is below its start or it commits above its start. */
  lemma SawIsNotLater(run: seq<System>, r: Saw)
    requires IsRun(run) && r in run[|run| - 1].sawLog && r.tx in run[|run| - 1].commits
    ensures var s := run[|run| - 1];
            && r.write.tx in s.commits && r.tx in s.begun && s.commits[r.write.tx] == r.write.ts
            && s.commits[r.write.tx] <= s.commits[r.tx]
            && (s.commits[r.write.tx] < s.commits[r.tx] <==>
                  r.write.ts < s.begun[r.tx].start || s.begun[r.tx].start < s.commits[r.tx])
  {
    hide Step;
    RunKeeps(run, |run| - 1, |run| - 1);
    assert TxOk(run[|run| - 1], r.tx);
  }

  ghost predicate RowsLater(s: System, s': System) {
    s.rows.Keys <= s'.rows.Keys && forall k :: k in s.rows ==> s.rows[k].lastRead <= s'.rows[k].lastRead
  }

  lemma ValidateIsRowLater(s: System, s': System, x: Tx, ks: seq<Key>)
    requires Inv(s) && ValidateTxn(s, s', x, ks)
    ensures RowsLater(s, s')
  {
    hide ValidateRows, Waits, LogsOk;
    assert TxOk(s, x);
    ValidateTrims(s.variant, s.table, x, s.begun[x].greatest, RowsAt(s, ks));
  }

  lemma WakeIsRowLater(s: System, s': System, x: Tx, k: Key, w: Tx, y: Tx)
    requires LeaveAndWake(s, s', x, k, w, y)
    ensures RowsLater(s, s')
  {
  }

  lemma OtherIsRowLater(s: System, s': System, x: Tx, k: Key, w: Tx, start: Ts)
    requires || LeaveRow(s, s', x, k, w) || AccessRow(s, s', x, k) || ReadRow(s, s', x, k)
             || BufferRow(s, s', x, k) || ClaimRow(s, s', x, k)
             || Leave(s, s', x) || ChooseTs(s, s', x) || Begin(s, s', x, start)
    ensures RowsLater(s, s')
  {
    hide Waits, Insert, Newest;
  }

  lemma StepIsRowLater(s: System, s': System)
    requires Inv(s) && Step(s, s')
    ensures RowsLater(s, s')
  {
    hide ValidateTxn, Leave, ChooseTs, Begin, LeaveRow, LeaveAndWake, AccessRow, ReadRow, BufferRow, ClaimRow, Inv;
    hide RowsLater;
    if x, ks :| ValidateTxn(s, s', x, ks) {
      ValidateIsRowLater(s, s', x, ks);
    } else if y :| Woken(s, s', y) {
      var x, k, w :| LeaveAndWake(s, s', x, k, w, y);
      WakeIsRowLater(s, s', x, k, w, y);
    } else if x, k, w :| LeaveRow(s, s', x, k, w) {
      OtherIsRowLater(s, s', x, k, w, 0);
    } else if x, start :| Begin(s, s', x, start) {
      OtherIsRowLater(s, s', x, 0, 0, start);
    } else if x :| Leave(s, s', x) || ChooseTs(s, s', x) {
      OtherIsRowLater(s, s', x, 0, 0, 0);
    } else if x, k :| AccessRow(s, s', x, k) || ReadRow(s, s', x, k) {
      OtherIsRowLater(s, s', x, k, 0, 0);
    } else {
      var x, k :| BufferRow(s, s', x, k) || ClaimRow(s, s', x, k);
      OtherIsRowLater(s, s', x, k, 0, 0);
    }
  }

  lemma {:induction false} RunIsRowLater(run: seq<System>, i: nat, j: nat, k: Key)
    requires IsRun(run) && i <= j < |run| && k in run[i].rows
    ensures k in run[j].rows && run[i].rows[k].lastRead <= run[j].rows[k].lastRead
    decreases j
  {
    hide Step, Inv, Init;
    if i < j {
      RunIsRowLater(run, i, j - 1, k);
      RunKeeps(run, j - 1, j - 1);
      StepIsRowLater(run[j - 1], run[j]);
    }
  }

  /** On success the validated lower bound is above what the row has seen. */
  lemma ValidatedAbove(s: System, s': System, x: Tx, ks: seq<Key>, n: nat)
    requires Inv(s) && ValidateTxn(s, s', x, ks) && n < |ks|
    requires ValidateRows(s.variant, s.table, x, s.begun[x].greatest, RowsAt(s, ks)).0 == RcOk
    ensures x in s'.table && x in s'.begun && x !in s'.commits && s.rows[ks[n]].lastRead < s'.table[x].lower
  {
    hide ValidateRows, Waits, LogsOk;
    assert TxOk(s, x);
    ValidateTrims(s.variant, s.table, x, s.begun[x].greatest, RowsAt(s, ks));
    ValidateServesReaders(s.variant, s.table, x, s.begun[x].greatest, RowsAt(s, ks), n);
  }

  /** `y` leaves row `k`, waking somebody or not. */
  ghost predicate Leaves(s: System, s': System, y: Tx, k: Key) {
    (exists w :: LeaveRow(s, s', y, k, w)) || exists w, z :: LeaveAndWake(s, s', y, k, w, z)
  }

  lemma LeavesItsTimestamp(s: System, s': System, y: Tx, k: Key)
    requires Leaves(s, s', y, k) && y in s.commits
    ensures k in s'.rows && s.commits[y] <= s'.rows[k].lastRead
  {
  }

  /** In every run of either algorithm: a transaction that validates a write of a row after `y`, reader or
      writer, has committed and left it, and commits, commits strictly after `y`. */
  lemma WriterAfterCommitted(run: seq<System>, i: nat, j: nat, x: Tx, y: Tx, k: Key, ks: seq<Key>, n: nat)
    requires IsRun(run) && i < j && j + 1 < |run| && n < |ks| && ks[n] == k
    requires y in run[i].commits && Leaves(run[i], run[i + 1], y, k)
    requires ValidateTxn(run[j], run[j + 1], x, ks)
    requires ValidateRows(run[j].variant, run[j].table, x, run[j].begun[x].greatest, RowsAt(run[j], ks)).0 == RcOk
    requires x in run[|run| - 1].commits
    ensures y in run[|run| - 1].commits && run[|run| - 1].commits[y] < run[|run| - 1].commits[x]
  {
    hide Step, ValidateRows, Waits, LogsOk, TxOk;
    var last := |run| - 1;
    RunKeeps(run, i, i);
    RunKeeps(run, i, last);
    assert LaterOf(run[i], run[last], y);
    LeavesItsTimestamp(run[i], run[i + 1], y, k);
    hide Leaves;
    RunIsRowLater(run, i + 1, j, k);
    RunKeeps(run, j, j);
    ValidatedAbove(run[j], run[j + 1], x, ks, n);
    hide ValidateTxn;
    RunKeeps(run, j + 1, last);
    assert LaterOf(run[j + 1], run[last], x);
  }
}

/** What the timestamps of the rows are for, over whole runs of MAAT: a transaction commits after everybody
    whose committed read or write of a row it came after, and forward validation puts those that were
    pending on the right side (concurrency_control/row_maat.cpp). */
module MaatSeen {
  import opened SerialHistory
  import opened Maat
  import opened MaatRuns

  // ----- the steps by what they do to a row -------------------------------------------------

  ghost predicate CommitsRead(s: System, s': System, y: Tx, k: Key) {
    && y in s.table && y in s.deps && y in s.commits && k in s.rows
    && var r, t, ts, d := s.rows[k], s.table, s.commits[y], s.deps[y];
       exists a :: a in [CommitRead(r, t, y, ts, d), CommitBoth(r, t, y, ts, d)] &&
         s' == s.(rows := s.rows[k := a.0], table := a.1)
  }

  ghost predicate CommitsWrite(s: System, s': System, y: Tx, k: Key) {
    && y in s.table && y in s.deps && y in s.commits && k in s.rows
    && var r, t, ts, d := s.rows[k], s.table, s.commits[y], s.deps[y];
       exists a :: a in [CommitWrite(r, t, y, ts, d), CommitBoth(r, t, y, ts, d)] &&
         s' == s.(rows := s.rows[k := a.0], table := a.1)
  }

  ghost predicate Reads(s: System, s': System, x: Tx, k: Key) {
    && AccessRow(s, s', x, k)
    && exists a :: a in [Read(s.rows[k], x, s.deps[x]), ReadAndPrewrite(s.rows[k], x, s.deps[x])] &&
         s' == s.(rows := s.rows[k := a.0], deps := s.deps[x := a.1])
  }

  ghost predicate Prewrites(s: System, s': System, x: Tx, k: Key) {
    && AccessRow(s, s', x, k)
    && exists a :: a in [Prewrite(s.rows[k], x, s.deps[x]), ReadAndPrewrite(s.rows[k], x, s.deps[x])] &&
         s' == s.(rows := s.rows[k := a.0], deps := s.deps[x := a.1])
  }

  // ----- who is pending on a row ------------------------------------------------------------

  /** `x` is done with row `k`: it commits it or gives it up. */
  ghost predicate LeavesRow(s: System, s': System, x: Tx, k: Key) {
    CommitRow(s, s', x, k) || AbortRow(s, s', x, k)
  }

  lemma AccessRegisters(s: System, s': System, x: Tx, k: Key)
    ensures Reads(s, s', x, k) ==> k in s'.rows && x in s'.rows[k].readers
    ensures Prewrites(s, s', x, k) ==> k in s'.rows && x in s'.rows[k].writers
  {
    hide InsertAll;
  }

  /** A row commit takes its transaction off the list it was on, an abort off both. */
  lemma LeavingUnregisters(s: System, s': System, x: Tx, k: Key)
    ensures CommitsRead(s, s', x, k) ==> k in s'.rows && x !in s'.rows[k].readers
    ensures CommitsWrite(s, s', x, k) ==> k in s'.rows && x !in s'.rows[k].writers
    ensures AbortRow(s, s', x, k) ==> k in s'.rows && x !in s'.rows[k].readers && x !in s'.rows[k].writers
  {
    hide ForwardUp, ForwardDown;
  }

  ghost predicate StillPending(r: Row, r': Row, x: Tx) {
    (x in r.readers ==> x in r'.readers) && (x in r.writers ==> x in r'.writers)
  }

  lemma AccessKeepsPending(s: System, s': System, y: Tx, j: Key, x: Tx, k: Key)
    requires AccessRow(s, s', y, j) && k in s.rows
    ensures k in s'.rows && StillPending(s.rows[k], s'.rows[k], x)
  {
    hide InsertAll;
  }

  lemma LeavingKeepsPending(s: System, s': System, y: Tx, j: Key, x: Tx, k: Key)
    requires LeavesRow(s, s', y, j) && k in s.rows && (y != x || j != k)
    ensures k in s'.rows && StillPending(s.rows[k], s'.rows[k], x)
  {
    hide ForwardUp, ForwardDown;
  }

  lemma OtherKeepsRows(s: System, s': System, x: Tx)
    requires || Begin(s, s', x) || ValidateTxn(s, s', x) || ChooseTs(s, s', x) || AbortTxn(s, s', x)
             || ReleaseEntry(s, s', x)
    ensures s'.rows == s.rows
  {
    hide Validate;
  }

  lemma StepKeepsPending(s: System, s': System, x: Tx, k: Key)
    requires Step(s, s') && k in s.rows && !LeavesRow(s, s', x, k)
    ensures k in s'.rows && StillPending(s.rows[k], s'.rows[k], x)
  {
    hide AccessRow, CommitRow, AbortRow, Begin, ValidateTxn, ChooseTs, AbortTxn, ReleaseEntry;
    if y, j :| AccessRow(s, s', y, j) {
      AccessKeepsPending(s, s', y, j, x, k);
    } else if y, j :| CommitRow(s, s', y, j) || AbortRow(s, s', y, j) {
      LeavingKeepsPending(s, s', y, j, x, k);
    } else {
      var y :| || Begin(s, s', y) || ValidateTxn(s, s', y) || ChooseTs(s, s', y) || AbortTxn(s, s', y)
               || ReleaseEntry(s, s', y);
      OtherKeepsRows(s, s', y);
    }
  }

  /** `x` does not leave row `k` between states `i` and `j`. */
  ghost predicate Stays(run: seq<System>, i: nat, j: nat, x: Tx, k: Key)
    requires i <= j < |run|
  {
    forall m :: i < m <= j ==> !LeavesRow(run[m - 1], run[m], x, k)
  }

  lemma {:induction false} RunKeepsPending(run: seq<System>, i: nat, j: nat, x: Tx, k: Key)
    requires IsRun(run) && i <= j < |run| && k in run[i].rows && Stays(run, i, j, x, k)
    ensures k in run[j].rows && StillPending(run[i].rows[k], run[j].rows[k], x)
    decreases j
  {
    hide Step, Init, LeavesRow;
    if i < j {
      RunKeepsPending(run, i, j - 1, x, k);
      StepKeepsPending(run[j - 1], run[j], x, k);
    }
  }

  lemma AccessLearns(s: System, s': System, x: Tx, k: Key)
    ensures Prewrites(s, s', x, k) ==>
              && k in s.rows && x in s'.deps
              && (forall y :: y in s.rows[k].readers ==> y in s'.deps[x].readers)
              && (forall y :: y in s.rows[k].writers ==> y in s'.deps[x].writesY)
    ensures Reads(s, s', x, k) ==>
              k in s.rows && x in s'.deps && forall y :: y in s.rows[k].writers ==> y in s'.deps[x].writes
  {
    hide Insert;
  }

  /** And it learns nothing else: whoever is new in a set was pending on the row in that role, and a timestamp
      that has grown is the row's. */
  lemma AccessLearnsNothingElse(s: System, s': System, x: Tx, k: Key, y: Tx)
    requires AccessRow(s, s', x, k)
    ensures x in s'.deps
    ensures y in s'.deps[x].readers && y !in s.deps[x].readers ==> Prewrites(s, s', x, k) && y in s.rows[k].readers
    ensures y in s'.deps[x].writesY && y !in s.deps[x].writesY ==> Prewrites(s, s', x, k) && y in s.rows[k].writers
    ensures y in s'.deps[x].writes && y !in s.deps[x].writes ==> Reads(s, s', x, k) && y in s.rows[k].writers
    ensures s'.deps[x].lastRead != s.deps[x].lastRead ==>
              Prewrites(s, s', x, k) && s'.deps[x].lastRead == s.rows[k].lastRead
    ensures s'.deps[x].lastWrite != s.deps[x].lastWrite ==> s'.deps[x].lastWrite == s.rows[k].lastWrite
  {
    hide Insert;
  }

  /** In every run: what one transaction has done to a row, and not yet committed or given up, the next one that
      accesses the row learns: a reader is among a later writer's readers, a writer among a later reader's
      writers, and among a later writer's other writers. */
  lemma PendingIsLearned(run: seq<System>, i: nat, j: nat, y: Tx, x: Tx, k: Key)
    requires IsRun(run) && i < j && j + 1 < |run| && Stays(run, i + 1, j, y, k)
    ensures Reads(run[i], run[i + 1], y, k) && Prewrites(run[j], run[j + 1], x, k) ==>
              x in run[j + 1].deps && y in run[j + 1].deps[x].readers
    ensures Prewrites(run[i], run[i + 1], y, k) && Reads(run[j], run[j + 1], x, k) ==>
              x in run[j + 1].deps && y in run[j + 1].deps[x].writes
    ensures Prewrites(run[i], run[i + 1], y, k) && Prewrites(run[j], run[j + 1], x, k) ==>
              x in run[j + 1].deps && y in run[j + 1].deps[x].writesY
  {
    hide Step, Init, Reads, Prewrites, Stays;
    AccessRegisters(run[i], run[i + 1], y, k);
    AccessLearns(run[j], run[j + 1], x, k);
    if k in run[i + 1].rows {
      RunKeepsPending(run, i + 1, j, y, k);
    }
  }

  // ----- timestamps of rows and of dependencies only grow -----------------------------------

  ghost predicate RowLater(r: Row, r': Row) {
    r.lastRead <= r'.lastRead && r.lastWrite <= r'.lastWrite
  }

  ghost predicate DepsLater(d: Deps, d': Deps) {
    d.lastRead <= d'.lastRead && d.lastWrite <= d'.lastWrite
  }

  lemma AccessIsLater(s: System, s': System, y: Tx, j: Key, x: Tx, k: Key)
    requires AccessRow(s, s', y, j)
    ensures k in s.rows ==> k in s'.rows && RowLater(s.rows[k], s'.rows[k])
    ensures x in s.deps ==> x in s'.deps && DepsLater(s.deps[x], s'.deps[x])
  {
    hide Insert, InsertAll;
  }

  lemma LeavingIsLater(s: System, s': System, y: Tx, j: Key, k: Key)
    requires LeavesRow(s, s', y, j)
    ensures k in s.rows ==> k in s'.rows && RowLater(s.rows[k], s'.rows[k])
    ensures s'.deps == s.deps
  {
    hide ForwardUp, ForwardDown, Erase;
  }

  lemma OtherIsLater(s: System, s': System, y: Tx, x: Tx)
    requires || Begin(s, s', y) || ValidateTxn(s, s', y) || ChooseTs(s, s', y) || AbortTxn(s, s', y)
             || ReleaseEntry(s, s', y)
    ensures s'.rows == s.rows && (x in s.deps ==> x in s'.deps && s'.deps[x] == s.deps[x])
  {
    hide Validate;
  }

  lemma StepIsSeenLater(s: System, s': System, x: Tx, k: Key)
    requires Step(s, s')
    ensures k in s.rows ==> k in s'.rows && RowLater(s.rows[k], s'.rows[k])
    ensures x in s.deps ==> x in s'.deps && DepsLater(s.deps[x], s'.deps[x])
  {
    hide AccessRow, CommitRow, AbortRow, Begin, ValidateTxn, ChooseTs, AbortTxn, ReleaseEntry;
    if y, j :| AccessRow(s, s', y, j) {
      AccessIsLater(s, s', y, j, x, k);
    } else if y, j :| CommitRow(s, s', y, j) || AbortRow(s, s', y, j) {
      LeavingIsLater(s, s', y, j, k);
    } else {
      var y :| || Begin(s, s', y) || ValidateTxn(s, s', y) || ChooseTs(s, s', y) || AbortTxn(s, s', y)
               || ReleaseEntry(s, s', y);
      OtherIsLater(s, s', y, x);
    }
  }

  lemma {:induction false} RunIsRowLater(run: seq<System>, i: nat, j: nat, k: Key)
    requires IsRun(run) && i <= j < |run| && k in run[i].rows
    ensures k in run[j].rows && RowLater(run[i].rows[k], run[j].rows[k])
    decreases j
  {
    hide Step, Init;
    if i < j {
      RunIsRowLater(run, i, j - 1, k);
      StepIsSeenLater(run[j - 1], run[j], 0, k);
    }
  }

  lemma {:induction false} RunIsDepsLater(run: seq<System>, i: nat, j: nat, x: Tx)
    requires IsRun(run) && i <= j < |run| && x in run[i].deps
    ensures x in run[j].deps && DepsLater(run[i].deps[x], run[j].deps[x])
    decreases j
  {
    hide Step, Init;
    if i < j {
      RunIsDepsLater(run, i, j - 1, x);
      StepIsSeenLater(run[j - 1], run[j], x, 0);
    }
  }

  // ----- a decided transaction is above everything it has seen ------------------------------

  ghost predicate AboveSeen(d: Deps, ts: Ts) {
    d.lastRead < ts && d.lastWrite < ts
  }

  ghost predicate Seen(s: System) {
    && (forall x :: x in s.table && x in s.deps && Decided(s.table[x].state) ==> AboveSeen(s.deps[x], s.table[x].lower))
    && (forall x :: x in s.commits && x in s.deps ==> AboveSeen(s.deps[x], s.commits[x]))
  }

  lemma AccessKeepsSeen(n: nat, s: System, s': System, x: Tx, k: Key)
    requires Inv(n, s) && Seen(s) && AccessRow(s, s', x, k)
    ensures Seen(s')
  {
    hide Insert, InsertAll, TableSmall, RowsSmall, DepsOk;
  }

  lemma ValidateKeepsSeen(n: nat, s: System, s': System, x: Tx)
    requires Inv(n, s) && Seen(s) && ValidateTxn(s, s', x) && n + 3 <= UINT64_MAX
    ensures Seen(s')
  {
    hide Validate, TableSmall, RowsSmall;
    ValidateNoWrap(n, s.table, x, s.deps[x]);
    ValidateNarrows(s.table, x, s.deps[x]);
  }

  lemma CommitRowKeepsSeen(n: nat, s: System, s': System, x: Tx, k: Key)
    requires Inv(n, s) && Seen(s) && CommitRow(s, s', x, k) && n + 3 <= UINT64_MAX
    ensures Seen(s')
  {
    hide CommitRow, TableSmall;
    CommitRowTable(n, s, s', x, k);
  }

  lemma OtherKeepsSeen(n: nat, s: System, s': System, x: Tx)
    requires Inv(n, s) && Seen(s)
    requires Begin(s, s', x) || ChooseTs(s, s', x) || AbortTxn(s, s', x) || ReleaseEntry(s, s', x)
             || (s'.table == s.table && s'.deps == s.deps && s'.commits == s.commits)
    ensures Seen(s')
  {
    hide TableSmall, RowsSmall, DepsOk, CommitsOk;
  }

  lemma StepKeepsSeen(n: nat, s: System, s': System)
    requires Inv(n, s) && Seen(s) && Step(s, s') && n + 3 <= UINT64_MAX
    ensures Seen(s')
  {
    hide Inv, Seen, Begin, AccessRow, ValidateTxn, ChooseTs, AbortTxn, CommitRow, ReleaseEntry;
    if x, k :| AccessRow(s, s', x, k) {
      AccessKeepsSeen(n, s, s', x, k);
    } else if x :| ValidateTxn(s, s', x) {
      ValidateKeepsSeen(n, s, s', x);
    } else if x, k :| CommitRow(s, s', x, k) {
      CommitRowKeepsSeen(n, s, s', x, k);
    } else if x :| Begin(s, s', x) || ChooseTs(s, s', x) || AbortTxn(s, s', x) || ReleaseEntry(s, s', x) {
      OtherKeepsSeen(n, s, s', x);
    } else {
      OtherKeepsSeen(n, s, s', 0);
    }
  }

  lemma {:induction false} RunKeepsSeen(run: seq<System>, i: nat)
    requires IsRun(run) && i < |run|
    ensures Seen(run[i])
  {
    if i > 0 {
      hide Inv, Step, Init, Seen;
      RunKeepsSeen(run, i - 1);
      RunKeeps(run, i - 1);
      StepKeepsSeen(i - 1, run[i - 1], run[i]);
    }
  }

  lemma CommittedAboveSeen(run: seq<System>, x: Tx)
    requires IsRun(run) && x in run[|run| - 1].commits
    ensures x in run[|run| - 1].deps && AboveSeen(run[|run| - 1].deps[x], run[|run| - 1].commits[x])
  {
    hide Step, Init, TableSmall, RowsSmall, DepsOk, CommitsOk;
    RunKeeps(run, |run| - 1);
    RunKeepsSeen(run, |run| - 1);
  }

  // ----- committed before the access --------------------------------------------------------

  /** What a row commit leaves on the row, and what an access takes from it. */
  lemma RowCommitIsSeen(s: System, s': System, y: Tx, k: Key)
    ensures CommitsRead(s, s', y, k) ==> k in s'.rows && s.commits[y] <= s'.rows[k].lastRead
    ensures CommitsWrite(s, s', y, k) ==> k in s'.rows && s.commits[y] <= s'.rows[k].lastWrite
  {
    hide ForwardUp, ForwardDown, Erase;
  }

  lemma AccessSees(s: System, s': System, x: Tx, k: Key)
    ensures Prewrites(s, s', x, k) ==> x in s'.deps && s.rows[k].lastRead <= s'.deps[x].lastRead
    ensures Prewrites(s, s', x, k) || Reads(s, s', x, k) ==>
              k in s.rows && x in s'.deps && s.rows[k].lastWrite <= s'.deps[x].lastWrite
  {
    hide Insert, InsertAll;
  }

  lemma CommitStays(run: seq<System>, i: nat, y: Tx)
    requires IsRun(run) && i < |run| && y in run[i].commits
    ensures y in run[|run| - 1].commits && run[|run| - 1].commits[y] == run[i].commits[y]
  {
    hide Step, Init, TableSmall, RowsSmall, DepsOk, CommitsOk;
    RunKeeps(run, i);
    RunIsLater(run, i, |run| - 1);
    assert LaterOf(run[i], run[|run| - 1], y);
  }

  lemma AccessIndex(s: System, s': System, x: Tx, k: Key)
    requires Prewrites(s, s', x, k) || Reads(s, s', x, k)
    ensures k in s.rows
  {
  }

  /** In every run: a transaction that prewrites a row after the read of it by `y` has been committed, and
      commits, commits after `y`. */
  lemma WriterAfterCommittedReader(run: seq<System>, i: nat, j: nat, x: Tx, y: Tx, k: Key)
    requires IsRun(run) && i < j && j + 1 < |run|
    requires CommitsRead(run[i], run[i + 1], y, k) && Prewrites(run[j], run[j + 1], x, k)
    requires x in run[|run| - 1].commits
    ensures y in run[|run| - 1].commits && run[|run| - 1].commits[y] < run[|run| - 1].commits[x]
  {
    hide Step, Init, Prewrites, Reads;
    assert y in run[i].commits;
    RowCommitIsSeen(run[i], run[i + 1], y, k);
    hide CommitsRead, CommitsWrite;
    AccessSees(run[j], run[j + 1], x, k);
    AccessIndex(run[j], run[j + 1], x, k);
    RunIsRowLater(run, i + 1, j, k);
    RunIsDepsLater(run, j + 1, |run| - 1, x);
    CommittedAboveSeen(run, x);
    CommitStays(run, i, y);
  }

  /** In every run: a transaction that reads or prewrites a row after the write of it by `y` has been
      committed, and commits, commits after `y`. */
  lemma AfterCommittedWriter(run: seq<System>, i: nat, j: nat, x: Tx, y: Tx, k: Key)
    requires IsRun(run) && i < j && j + 1 < |run|
    requires CommitsWrite(run[i], run[i + 1], y, k)
    requires Reads(run[j], run[j + 1], x, k) || Prewrites(run[j], run[j + 1], x, k)
    requires x in run[|run| - 1].commits
    ensures y in run[|run| - 1].commits && run[|run| - 1].commits[y] < run[|run| - 1].commits[x]
  {
    hide Step, Init, Prewrites, Reads;
    assert y in run[i].commits;
    RowCommitIsSeen(run[i], run[i + 1], y, k);
    hide CommitsRead, CommitsWrite;
    AccessSees(run[j], run[j + 1], x, k);
    AccessIndex(run[j], run[j + 1], x, k);
    RunIsRowLater(run, i + 1, j, k);
    RunIsDepsLater(run, j + 1, |run| - 1, x);
    CommittedAboveSeen(run, x);
    CommitStays(run, i, y);
  }

  // ----- pending at the commit: forward validation ------------------------------------------

  /** `z` has not committed when `y` commits the row, and does so later. */
  ghost predicate CommitsLater(run: seq<System>, i: nat, z: Tx) {
    i + 1 < |run| && z in run[i].deps && z !in run[i].commits && z in run[|run| - 1].commits
  }

  lemma ReadCommitLifts(s: System, s': System, y: Tx, k: Key, z: Tx)
    requires CommitsRead(s, s', y, k) && 0 < s.commits[y] < UINT64_MAX && Lower(s.table, y) > 0
    requires z in s.rows[k].writers && z != y && z !in s.deps[y].writes && z in s.table
    ensures z in s'.table && s.commits[y] < s'.table[z].lower
  {
    var r, t, ts, d := s.rows[k], s.table, s.commits[y], s.deps[y];
    var ws := Erase(r.writers, y);
    ForwardUpOk(t, r.writers, d.writes, ts);
    ForwardUpOk(t, ws, d.writes, ts);
    var t1 := ForwardUp(t, ws, d.writes, ts);
    BothLater(r, t, y, ts, d);
  }

  /** What follows the upward half of a combined commit only narrows. */
  lemma BothLater(r: Row, t: Table, y: Tx, ts: Ts, d: Deps)
    requires 0 < ts < UINT64_MAX && Lower(t, y) > 0
    ensures var ws := Erase(r.writers, y);
            NarrowerOnly(ForwardUp(t, ws, d.writes, ts), CommitBoth(r, t, y, ts, d).1)
  {
    hide NarrowerOnly, ForwardUp, ForwardDown, Erase;
    var rs, ws := Erase(r.readers, y), Erase(r.writers, y);
    var t1 := ForwardUp(t, ws, d.writes, ts);
    ForwardUpNarrows(t, ws, d.writes, ts);
    NarrowerLower(t, t1, y);
    var t2 := ForwardDown(t1, ws, d.writesY, ts);
    ForwardDownNarrows(t1, ws, d.writesY, ts);
    ForwardDownNarrows(t2, rs, d.readers, Lower(t1, y));
    NarrowerTransitive(t1, t2, CommitBoth(r, t, y, ts, d).1);
  }

  /** The bound a row commit puts on a pending writer, and on a pending reader, that `y` did not know. */
  lemma WriteCommitCuts(s: System, s': System, y: Tx, k: Key, z: Tx)
    requires CommitsWrite(s, s', y, k) && 0 < s.commits[y] < UINT64_MAX && Lower(s.table, y) > 0
    requires z != y && z in s.table
    ensures z in s'.table
    ensures z in s.rows[k].writers && z !in s.deps[y].writesY ==> s'.table[z].upper < s.commits[y]
    ensures z in s.rows[k].readers && z !in s.deps[y].readers ==> s'.table[z].upper < s.table[y].lower
  {
    var r, t, ts, d := s.rows[k], s.table, s.commits[y], s.deps[y];
    WriteCutsPending(r, t, y, ts, d, z);
    BothCutsPending(r, t, y, ts, d, z);
    hide CommitWrite, CommitBoth;
  }

  lemma WriteCutsPending(r: Row, t: Table, y: Tx, ts: Ts, d: Deps, z: Tx)
    requires 0 < ts && y in t && t[y].lower > 0 && z != y && z in t
    ensures var t' := CommitWrite(r, t, y, ts, d).1;
            && z in t' && (z in r.writers && z !in d.writesY ==> t'[z].upper < ts)
            && (z in r.readers && z !in d.readers ==> t'[z].upper < t[y].lower)
  {
    hide ForwardDown;
    var ws := Erase(r.writers, y);
    ForwardDownOk(t, ws, d.writesY, ts);
    ForwardDownOk(ForwardDown(t, ws, d.writesY, ts), r.readers, d.readers, Lower(t, y));
  }

  lemma BothCutsPending(r: Row, t: Table, y: Tx, ts: Ts, d: Deps, z: Tx)
    requires 0 < ts < UINT64_MAX && y in t && t[y].lower > 0 && z != y && z in t
    ensures var t' := CommitBoth(r, t, y, ts, d).1;
            && z in t' && (z in r.writers && z !in d.writesY ==> t'[z].upper < ts)
            && (z in r.readers && z !in d.readers ==> t'[z].upper < t[y].lower)
  {
    hide ForwardDown, ForwardUp;
    var ws, rs := Erase(r.writers, y), Erase(r.readers, y);
    var t1 := ForwardUp(t, ws, d.writes, ts);
    ForwardUpOk(t, ws, d.writes, ts);
    ForwardDownOk(t1, ws, d.writesY, ts);
    ForwardDownOk(ForwardDown(t1, ws, d.writesY, ts), rs, d.readers, Lower(t1, y));
  }

  lemma CommittedLowers(run: seq<System>, i: nat, y: Tx)
    requires IsRun(run) && i < |run| && y in run[i].commits && y in run[i].table
    ensures 0 < run[i].commits[y] < UINT64_MAX && 0 < run[i].table[y].lower
  {
    hide Step, Init, RowsSmall, DepsOk;
    RunKeeps(run, i);
    assert EntrySmall(i, run[i].table[y]);
  }

  /** A later commit timestamp comes from the interval after the row commit. */
  lemma LaterCommitWithin(run: seq<System>, i: nat, z: Tx)
    requires IsRun(run) && CommitsLater(run, i, z) && z in run[i].table && Forward(run[i], run[i + 1])
    ensures z in run[i + 1].table ==> Within(run[|run| - 1].commits[z], run[i + 1].table[z])
  {
    hide Step, Init, TableSmall, RowsSmall, DepsOk, CommitsOk, CommitRow;
    RunKeeps(run, i);
    var x, k :| CommitRow(run[i], run[i + 1], x, k);
    CommitRowTable(i, run[i], run[i + 1], x, k);
    RunIsLater(run, i + 1, |run| - 1);
    assert LaterOf(run[i + 1], run[|run| - 1], z);
  }

  lemma RowCommitIsForward(s: System, s': System, y: Tx, k: Key)
    requires CommitsRead(s, s', y, k) || CommitsWrite(s, s', y, k)
    ensures Forward(s, s')
  {
    assert CommitRow(s, s', y, k);
  }

  /** Forward validation over whole runs. When the read of a row by `y` is committed, every pending writer
      of the row that `y` did not know and that commits later, commits after `y`. */
  lemma ForwardOrdersWriters(run: seq<System>, i: nat, y: Tx, k: Key, z: Tx)
    requires IsRun(run) && CommitsLater(run, i, z) && CommitsRead(run[i], run[i + 1], y, k)
    requires z in run[i].rows[k].writers && z != y && z !in run[i].deps[y].writes && z in run[i].table
    ensures run[i].commits[y] < run[|run| - 1].commits[z]
  {
    CommittedLowers(run, i, y);
    ReadCommitLifts(run[i], run[i + 1], y, k, z);
    RowCommitIsForward(run[i], run[i + 1], y, k);
    hide CommitsRead, Forward, IsRun;
    LaterCommitWithin(run, i, z);
  }

  /** When the write of a row by `y` is committed, every pending writer of the row that `y` did not know and
      that commits later, commits before `y`; and every such pending reader commits below the lower bound
      of `y`, which is its commit timestamp unless its interval has been moved since. */
  lemma ForwardOrdersOthers(run: seq<System>, i: nat, y: Tx, k: Key, z: Tx)
    requires IsRun(run) && CommitsLater(run, i, z) && CommitsWrite(run[i], run[i + 1], y, k)
    requires z != y && z in run[i].table
    ensures z in run[i].rows[k].writers && z !in run[i].deps[y].writesY ==>
              run[|run| - 1].commits[z] < run[i].commits[y]
    ensures z in run[i].rows[k].readers && z !in run[i].deps[y].readers ==>
              run[|run| - 1].commits[z] < run[i].table[y].lower
    ensures z in run[i].rows[k].readers && z !in run[i].deps[y].readers && Intact(run[i], y) ==>
              run[|run| - 1].commits[z] < run[i].commits[y]
  {
    CommittedLowers(run, i, y);
    WriteCommitCuts(run[i], run[i + 1], y, k, z);
    RowCommitIsForward(run[i], run[i + 1], y, k);
    hide CommitsWrite, Forward, IsRun;
    LaterCommitWithin(run, i, z);
  }

  /** In every run a validated transaction commits exactly if its interval is not empty by then, at its lower
      bound; and it validates exactly if there is room among the decided transactions it knows of. */
  lemma CommitsExactly(run: seq<System>, s': System, x: Tx)
    requires IsRun(run)
    ensures var s := run[|run| - 1];
            && (ChooseTs(s, s', x) ==>
                  && (x in s'.commits <==> s.table[x].lower < s.table[x].upper)
                  && (x in s'.commits ==> s'.commits[x] == s.table[x].lower))
            && (ValidateTxn(s, s', x) ==>
                  && x in s'.table
                  && (s'.table[x].state == Validated <==>
                        exists b: Ts, c: Ts ::
                          AboveAll(s.table, x, s.deps[x], b) && BelowAll(s.table, x, s.deps[x], c) && b < c))
  {
    hide Step, Init, Validate, TableSmall, RowsSmall, AboveAll, BelowAll;
    var s := run[|run| - 1];
    RunKeeps(run, |run| - 1);
    if ChooseTs(s, s', x) {
      FindBoundExactly(s.table, x);
    }
    if ValidateTxn(s, s', x) {
      ValidateFindsRoomExactly(s.table, x, s.deps[x]);
      ValidateNoWrap(|run| - 1, s.table, x, s.deps[x]);
      ValidateNarrows(s.table, x, s.deps[x]);
    }
  }
}

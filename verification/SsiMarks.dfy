/** Exactly which conflicts are marked under SSI, step by step over whole runs, and that a transaction that
    aborts disappears from everybody's sets. */
module SsiMarks {
  import opened SerialHistory
  import opened Ssi
  import opened SsiRuns

  // ----- whom a reader and a writer meet ----------------------------------------------------

  /** The test on the table is the test on the transactions, as far as they have entries. */
  lemma ConcurrentExactly(s: System, y: Tx, x: Tx)
    requires TransOk(s) && x in s.trans
    ensures Concurrent(s.table, y, s.trans[x].start) <==>
            y in s.table ==> Alive(s.trans, y) && Overlaps(s.trans[y], s.trans[x])
  {
    if y in s.table {
      assert EntryOk(s.trans[y], s.table[y]);
    }
  }

  /** A reader of the row, other than the writer, that has no entry or is alive and concurrent. */
  ghost predicate MetByWriter(s: System, x: Tx, k: Key, y: Tx) {
    && x in s.trans && k in s.rows && y in s.rows[k].readLocks && y != x
    && (y in s.table ==> Alive(s.trans, y) && Overlaps(s.trans[y], s.trans[x]))
  }

  /** Somebody else with a write lock on the row, or the writer of a version newer than the start. */
  ghost predicate MetByReader(s: System, x: Tx, k: Key, w: Tx) {
    && x in s.trans && k in s.rows
    && (|| (w in s.rows[k].writeLocks && w != x)
        || exists v :: v in s.rows[k].his && v.ts > s.trans[x].start && v.tx == w)
  }

  /** Marks change exactly between `x` and those it meets. */
  ghost predicate ReaderMarks(s: System, s': System, x: Tx, k: Key, y: Tx) {
    && (y in s'.table <==> y in s.table)
    && (y in s.table ==>
          && (forall z :: z in s'.table[y].ins <==> z in s.table[y].ins || (z == x && MetByReader(s, x, k, y)))
          && (forall z :: z in s'.table[y].outs <==> z in s.table[y].outs || (y == x && MetByReader(s, x, k, z))))
  }

  ghost predicate WriterMarks(s: System, s': System, x: Tx, k: Key, y: Tx) {
    && (y in s'.table <==> y in s.table)
    && (y in s.table ==>
          && (forall z :: z in s'.table[y].outs <==> z in s.table[y].outs || (z == x && MetByWriter(s, x, k, y)))
          && (forall z :: z in s'.table[y].ins <==> z in s.table[y].ins || (y == x && MetByWriter(s, x, k, z))))
  }

  lemma ReadMarks(s: System, s': System, x: Tx, k: Key, y: Tx)
    requires RowsOk(s) && ReadRow(s, s', x, k)
    ensures ReaderMarks(s, s', x, k, y)
  {
    hide LocksOk, MarkWriters, Others, Newer;
    var r, t, start := s.rows[k], s.table, s.trans[x].start;
    assert HistoryOk(k, r.his, s.installLog, s.floor);
    var ws, ns := Others(r.writeLocks, x), Newer(r.his, start);
    var t1 := MarkWriters(t, x, ws);
    MarkWritersOk(t, x, ws);
    MarkWritersOk(t1, x, ns);
    OthersMembers(r.writeLocks, x);
    forall w
      ensures w in ws || w in ns <==> MetByReader(s, x, k, w)
    {
      NewerExactly(r.his, start, w);
    }
    if y in t {
      MarkWritersExactly(t, x, ws, y);
      MarkWritersExactly(t1, x, ns, y);
    }
  }

  lemma PrewriteMarks(s: System, s': System, x: Tx, k: Key, y: Tx)
    requires TransOk(s) && PrewriteRow(s, s', x, k)
    requires !SomeDangerous(s.table, s.rows[k].readLocks, x, s.trans[x].start)
    ensures WriterMarks(s, s', x, k, y)
  {
    hide MarkReaders, ConcurrentReaders, Concurrent, SomeDangerous;
    var r, t, start := s.rows[k], s.table, s.trans[x].start;
    var rs := ConcurrentReaders(t, r.readLocks, x, start);
    ConcurrentMembers(t, r.readLocks, x, start);
    MarkReadersOk(t, x, rs);
    forall z
      ensures z in rs <==> MetByWriter(s, x, k, z)
    {
      ConcurrentExactly(s, z, x);
    }
    if y in t {
      MarkReadersExactly(t, x, rs, y);
    }
  }

  /** In every run a read marks exactly the holders of write locks on the row and the writers of versions
      newer than its start. */
  lemma ReadMarksExactly(run: seq<System>, s': System, x: Tx, k: Key, y: Tx)
    requires IsRun(run) && ReadRow(run[|run| - 1], s', x, k)
    ensures ReaderMarks(run[|run| - 1], s', x, k, y)
  {
    hide Step, Init, RowsOk, TransOk, LogsOk, Tracked, ReadRow, ReaderMarks;
    RunKeeps(run);
    ReadMarks(run[|run| - 1], s', x, k, y);
  }

  lemma GrantedIsNotDangerous(s: System, s': System, x: Tx, k: Key)
    requires PrewriteRow(s, s', x, k) && WriteLog(x, k) in s'.writeLog
    ensures k in s.rows && x in s.trans && !SomeDangerous(s.table, s.rows[k].readLocks, x, s.trans[x].start)
  {
    hide MarkReaders, ConcurrentReaders;
  }

  /** In every run a granted prewrite marks exactly the readers of the row that are alive and had not
      committed when the writer started. */
  lemma PrewriteMarksExactly(run: seq<System>, s': System, x: Tx, k: Key, y: Tx)
    requires IsRun(run) && PrewriteRow(run[|run| - 1], s', x, k) && WriteLog(x, k) in s'.writeLog
    ensures WriterMarks(run[|run| - 1], s', x, k, y)
  {
    hide Step, Init, RowsOk, TransOk, LogsOk, Tracked, PrewriteRow, WriterMarks;
    RunKeeps(run);
    GrantedIsNotDangerous(run[|run| - 1], s', x, k);
    PrewriteMarks(run[|run| - 1], s', x, k, y);
  }

  // ----- who can be in a set ----------------------------------------------------------------

  /** The transaction has accessed something. */
  ghost predicate Known(s: System, y: Tx) {
    && y in s.trans
    && (|| !s.trans[y].phase.Active?
        || (exists r :: r in s.readLog && r.tx == y)
        || (exists w :: w in s.writeLog && w.tx == y))
  }

  ghost predicate RowKnown(s: System, r: Row) {
    && (forall y :: y in r.readLocks ==> Known(s, y)) && (forall y :: y in r.writeLocks ==> Known(s, y))
    && (forall v :: v in r.his ==> Known(s, v.tx))
  }

  ghost predicate EntryKnown(s: System, c: Conflicts) {
    (forall y :: y in c.ins ==> Known(s, y)) && (forall y :: y in c.outs ==> Known(s, y))
  }

  /** Conflicts between two transactions that have not left are entered on both sides. */
  ghost predicate Mutual(s: System, r: Tx, w: Tx) {
    r in s.table && w in s.table && r in s.trans && w in s.trans && !s.trans[r].phase.Gone? && !s.trans[w].phase.Gone?
    ==> (r in s.table[w].ins <==> w in s.table[r].outs)
  }

  ghost predicate MarksOk(s: System) {
    && (forall k :: k in s.rows ==> RowKnown(s, s.rows[k]))
    && (forall y :: y in s.table ==> EntryKnown(s, s.table[y]))
    && (forall r, w :: Mutual(s, r, w))
  }

  lemma StaysKnown(s: System, s': System, y: Tx)
    requires Known(s, y) && s.readLog <= s'.readLog && s.writeLog <= s'.writeLog && y in s'.trans
    requires s'.trans[y].phase.Active? ==> s.trans[y].phase.Active?
    ensures Known(s', y)
  {
  }

  /** Logs grow and nobody becomes active again. */
  ghost predicate Onward(s: System, s': System) {
    && s.readLog <= s'.readLog && s.writeLog <= s'.writeLog
    && forall y :: y in s.trans ==> y in s'.trans && (s'.trans[y].phase.Active? ==> s.trans[y].phase.Active?)
  }

  lemma RowStaysKnown(s: System, s': System, r: Row)
    requires RowKnown(s, r) && Onward(s, s')
    ensures RowKnown(s', r)
  {
    hide Known;
    forall y | Known(s, y)
      ensures Known(s', y)
    {
      KnownOnward(s, s', y);
    }
  }

  lemma KnownOnward(s: System, s': System, y: Tx)
    requires Known(s, y) && Onward(s, s')
    ensures Known(s', y)
  {
    StaysKnown(s, s', y);
  }

  lemma EntryStaysKnown(s: System, s': System, c: Conflicts)
    requires EntryKnown(s, c) && Onward(s, s')
    ensures EntryKnown(s', c)
  {
    hide Known;
    forall y | Known(s, y)
      ensures Known(s', y)
    {
      KnownOnward(s, s', y);
    }
  }

  // ----- steps that mark --------------------------------------------------------------------

  lemma ReadKeepsMarks(s: System, s': System, x: Tx, k: Key)
    requires RowsOk(s) && MarksOk(s) && ReadRow(s, s', x, k)
    ensures MarksOk(s')
  {
    hide RowsOk, Known, RowKnown, EntryKnown, MetByReader, Mutual;
    assert Onward(s, s');
    ReadRowKnown(s, s', x, k);
    forall j | j in s.rows
      ensures RowKnown(s', s'.rows[j])
    {
      if j != k {
        RowStaysKnown(s, s', s.rows[j]);
      }
    }
    forall y | y in s'.table
      ensures EntryKnown(s', s'.table[y])
    {
      ReadMarks(s, s', x, k, y);
      ReadEntryKnown(s, s', x, k, y);
    }
    forall r, w
      ensures Mutual(s', r, w)
    {
      ReadMarks(s, s', x, k, r);
      ReadMarks(s, s', x, k, w);
      ReadMutual(s, s', x, k, r, w);
    }
  }

  lemma ReadRowKnown(s: System, s': System, x: Tx, k: Key)
    requires ReadRow(s, s', x, k) && RowKnown(s, s.rows[k])
    ensures RowKnown(s', s'.rows[k]) && Known(s', x)
  {
    hide MarkWriters;
    var v := VersionAt(s.rows[k].his, s.trans[x].start);
    assert ReadLog(x, k, v) in s'.readLog;
    RowStaysKnown(s, s', s.rows[k]);
  }

  lemma ReadEntryKnown(s: System, s': System, x: Tx, k: Key, y: Tx)
    requires ReaderMarks(s, s', x, k, y) && y in s.table && EntryKnown(s, s.table[y]) && Onward(s, s')
    requires k in s.rows && RowKnown(s, s.rows[k]) && Known(s', x)
    ensures EntryKnown(s', s'.table[y])
  {
    EntryStaysKnown(s, s', s.table[y]);
    RowStaysKnown(s, s', s.rows[k]);
  }

  lemma ReadMutual(s: System, s': System, x: Tx, k: Key, r: Tx, w: Tx)
    requires Mutual(s, r, w) && ReaderMarks(s, s', x, k, r) && ReaderMarks(s, s', x, k, w) && s'.trans == s.trans
    ensures Mutual(s', r, w)
  {
  }

  lemma WriterKnown(s: System, s': System, x: Tx, k: Key)
    requires PrewriteRow(s, s', x, k) && RowKnown(s, s.rows[k])
    ensures Onward(s, s') && RowKnown(s', s'.rows[k]) && Known(s', x)
    ensures s'.rows == s.rows[k := s'.rows[k]]
    ensures forall y :: y in s'.trans && s'.trans[y].phase.Gone? <==> y in s.trans && s.trans[y].phase.Gone?
  {
    hide MarkReaders, ConcurrentReaders, SomeDangerous;
    PrewriteOk(s.rows[k], s.table, x, s.trans[x].start, s.maxPreq);
    assert WriteLog(x, k) in s'.writeLog || s'.trans[x].phase.Doomed?;
    RowStaysKnown(s, s', s.rows[k]);
  }

  lemma WriteEntryKnown(s: System, s': System, x: Tx, k: Key, y: Tx)
    requires WriterMarks(s, s', x, k, y) && y in s.table && EntryKnown(s, s.table[y]) && Onward(s, s')
    requires k in s.rows && RowKnown(s, s.rows[k]) && Known(s', x)
    ensures EntryKnown(s', s'.table[y])
  {
    EntryStaysKnown(s, s', s.table[y]);
    RowStaysKnown(s, s', s.rows[k]);
  }

  lemma WriteMutual(s: System, s': System, x: Tx, k: Key, r: Tx, w: Tx)
    requires Mutual(s, r, w) && WriterMarks(s, s', x, k, r) && WriterMarks(s, s', x, k, w)
    requires forall y :: y in s'.trans && s'.trans[y].phase.Gone? <==> y in s.trans && s.trans[y].phase.Gone?
    requires forall y :: y in s'.trans <==> y in s.trans
    ensures Mutual(s', r, w)
  {
  }

  lemma DangerousMarksNothing(s: System, s': System, x: Tx, k: Key)
    requires PrewriteRow(s, s', x, k) && SomeDangerous(s.table, s.rows[k].readLocks, x, s.trans[x].start)
    ensures s'.table == s.table
  {
    hide MarkReaders, ConcurrentReaders;
  }

  lemma SameTrans(s: System, s': System, x: Tx, k: Key)
    requires PrewriteRow(s, s', x, k)
    ensures forall y :: y in s'.trans <==> y in s.trans
  {
    hide Prewrite;
  }

  lemma PrewriteKeepsMarks(s: System, s': System, x: Tx, k: Key)
    requires TransOk(s) && MarksOk(s) && PrewriteRow(s, s', x, k)
    ensures MarksOk(s')
  {
    hide TransOk, Known, RowKnown, EntryKnown, MetByWriter, Mutual, PrewriteRow, WriterMarks, Onward;
    assert k in s.rows && x in s.trans by { PrewriteHere(s, s', x, k); }
    WriterKnown(s, s', x, k);
    SameTrans(s, s', x, k);
    forall j | j in s.rows
      ensures RowKnown(s', s'.rows[j])
    {
      if j != k {
        RowStaysKnown(s, s', s.rows[j]);
      }
    }
    if SomeDangerous(s.table, s.rows[k].readLocks, x, s.trans[x].start) {
      DangerousMarksNothing(s, s', x, k);
      SameTableKeeps(s, s');
    } else {
      forall y | y in s'.table
        ensures EntryKnown(s', s'.table[y])
      {
        PrewriteMarks(s, s', x, k, y);
        WriterMarksKeys(s, s', x, k, y);
        WriteEntryKnown(s, s', x, k, y);
      }
      forall r, w
        ensures Mutual(s', r, w)
      {
        PrewriteMarks(s, s', x, k, r);
        PrewriteMarks(s, s', x, k, w);
        WriteMutual(s, s', x, k, r, w);
      }
    }
  }

  lemma PrewriteHere(s: System, s': System, x: Tx, k: Key)
    requires PrewriteRow(s, s', x, k)
    ensures k in s.rows && x in s.trans
  {
  }

  lemma WriterMarksKeys(s: System, s': System, x: Tx, k: Key, y: Tx)
    requires WriterMarks(s, s', x, k, y)
    ensures y in s'.table <==> y in s.table
  {
  }

  /** The table is untouched and nobody leaves or comes. */
  lemma SameTableKeeps(s: System, s': System)
    requires s'.table == s.table && Onward(s, s')
    requires forall y :: y in s.table ==> EntryKnown(s, s.table[y])
    requires forall r, w :: Mutual(s, r, w)
    requires forall y :: y in s.trans && s.trans[y].phase.Gone? ==> y in s'.trans && s'.trans[y].phase.Gone?
    requires s.table.Keys <= s.trans.Keys || forall y :: y in s'.trans ==> y in s.trans
    ensures forall y :: y in s'.table ==> EntryKnown(s', s'.table[y])
    ensures forall r, w :: Mutual(s', r, w)
  {
    forall y | y in s'.table
      ensures EntryKnown(s', s'.table[y])
    {
      EntryStaysKnown(s, s', s.table[y]);
    }
    forall r, w
      ensures Mutual(s', r, w)
    {
      assert Mutual(s, r, w);
    }
  }

  // ----- the other steps --------------------------------------------------------------------

  lemma SameRowsKnown(s: System, s': System)
    requires (forall k :: k in s.rows ==> RowKnown(s, s.rows[k])) && s'.rows == s.rows && Onward(s, s')
    ensures forall k :: k in s'.rows ==> RowKnown(s', s'.rows[k])
  {
    hide Known, RowKnown, Onward;
    forall k | k in s'.rows
      ensures RowKnown(s', s'.rows[k])
    {
      RowStaysKnown(s, s', s.rows[k]);
    }
  }

  lemma BeginKeepsMarks(s: System, s': System, x: Tx)
    requires TransOk(s) && MarksOk(s) && Begin(s, s', x)
    ensures MarksOk(s')
  {
    hide Known, RowKnown, EntryKnown;
    SameRowsKnown(s, s');
    SameTableKeeps(s, s');
  }

  lemma InitEntryKeepsMarks(s: System, s': System, x: Tx)
    requires TransOk(s) && MarksOk(s) && InitEntry(s, s', x)
    ensures MarksOk(s')
  {
    assert !Known(s, x);
    SameRowsKnown(s, s');
    forall y | y in s'.table
      ensures EntryKnown(s', s'.table[y])
    {
      if y != x {
        EntryStaysKnown(s, s', s.table[y]);
      }
    }
    forall r, w
      ensures Mutual(s', r, w)
    {
      assert Mutual(s, r, w);
      if r in s.table {
        assert EntryKnown(s, s.table[r]);
      }
      if w in s.table {
        assert EntryKnown(s, s.table[w]);
      }
    }
  }

  /** Steps that change the state, the commit timestamp or the phase of one transaction. */
  lemma PhaseStepSame(s: System, s': System, x: Tx)
    requires || Validate(s, s', x) || ChooseTs(s, s', x) || PublishTs(s, s', x) || PublishState(s, s', x)
             || AbortTxn(s, s', x)
    ensures Onward(s, s') && s'.rows == s.rows && s'.table.Keys == s.table.Keys && s'.trans.Keys == s.trans.Keys
    ensures forall y :: y in s.table ==> s'.table[y].ins == s.table[y].ins && s'.table[y].outs == s.table[y].outs
    ensures forall y :: y in s.trans ==> (s'.trans[y].phase.Gone? <==> s.trans[y].phase.Gone?)
  {
    hide HasIn, HasOut;
  }

  lemma PhaseStepKeepsMarks(s: System, s': System, x: Tx)
    requires MarksOk(s)
    requires || Validate(s, s', x) || ChooseTs(s, s', x) || PublishTs(s, s', x) || PublishState(s, s', x)
             || AbortTxn(s, s', x)
    ensures MarksOk(s')
  {
    hide Known, RowKnown, Validate, ChooseTs, PublishTs, PublishState, AbortTxn;
    PhaseStepSame(s, s', x);
    SameRowsKnown(s, s');
    forall y | y in s'.table
      ensures EntryKnown(s', s'.table[y])
    {
      EntryStaysKnown(s, s', s.table[y]);
    }
    forall r, w
      ensures Mutual(s', r, w)
    {
      assert Mutual(s, r, w);
    }
  }

  /** A transaction that is cleared disappears from the sets of all others that have not left. */
  lemma ClearForgets(s: System, s': System, x: Tx, y: Tx)
    requires TransOk(s) && (forall r, w :: Mutual(s, r, w)) && ClearTxn(s, s', x) && x in s.table
    requires y in s.table && y in s.trans && y != x && !s.trans[y].phase.Gone?
    ensures y in s'.table && x !in s'.table[y].ins && x !in s'.table[y].outs
  {
    assert Mutual(s, x, y) && Mutual(s, y, x);
  }

  lemma ClearKeepsMarks(s: System, s': System, x: Tx)
    requires TransOk(s) && MarksOk(s) && ClearTxn(s, s', x)
    ensures MarksOk(s')
  {
    hide Known, RowKnown;
    assert Onward(s, s');
    SameRowsKnown(s, s');
    forall y | y in s'.table
      ensures EntryKnown(s', s'.table[y])
    {
      EntryStaysKnown(s, s', s.table[y]);
    }
    forall r, w
      ensures Mutual(s', r, w)
    {
      assert Mutual(s, r, w);
    }
  }

  lemma RowStepKeepsMarks(s: System, s': System, x: Tx, k: Key, th: nat)
    requires RowsOk(s) && MarksOk(s)
    requires InstallRow(s, s', x, k) || CancelRow(s, s', x, k) || RecycleRow(s, s', k, th)
    ensures MarksOk(s')
  {
    hide LocksOk, RowKnown, EntryKnown, Known, Mutual;
    RowStepTable(s, s', x, k, th);
    forall j | j in s'.rows
      ensures RowKnown(s', s'.rows[j])
    {
      if j == k {
        OneRowKnown(s, s', x, k, th);
      } else {
        RowStaysKnown(s, s', s.rows[j]);
      }
    }
    SameTableKeeps(s, s');
  }

  lemma RowStepTable(s: System, s': System, x: Tx, k: Key, th: nat)
    requires InstallRow(s, s', x, k) || CancelRow(s, s', x, k) || RecycleRow(s, s', k, th)
    ensures s'.table == s.table && s'.trans == s.trans && Onward(s, s') && k in s.rows
    ensures s'.rows == s.rows[k := s'.rows[k]]
  {
    hide Recycle;
  }

  lemma OneRowKnown(s: System, s': System, x: Tx, k: Key, th: nat)
    requires RowsOk(s) && k in s.rows && RowKnown(s, s.rows[k])
    requires InstallRow(s, s', x, k) || CancelRow(s, s', x, k) || RecycleRow(s, s', k, th)
    ensures RowKnown(s', s'.rows[k])
  {
    var r := s.rows[k];
    assert HistoryOk(k, r.his, s.installLog, s.floor);
    UnlinkKeeps(r.readLocks, x);
    UnlinkKeeps(r.writeLocks, x);
    RecycleOk(r.his, th);
    if InstallRow(s, s', x, k) {
      InsertVersionOk(r.his, Version(s.trans[x].phase.ts, x));
      assert Known(s', x);
    }
    RowStaysKnown(s, s', r);
  }

  lemma StepKeepsMarks(s: System, s': System)
    requires Inv(s) && MarksOk(s) && Step(s, s')
    ensures MarksOk(s')
  {
    hide TransOk, LogsOk, RowsOk, Tracked, MarksOk;
    hide Begin, InitEntry, ReadRow, PrewriteRow, Validate, ChooseTs, InstallRow, PublishTs, PublishState, AbortTxn;
    hide ClearTxn, CancelRow, RecycleRow;
    if x :| Begin(s, s', x) {
      BeginKeepsMarks(s, s', x);
    } else if x :| InitEntry(s, s', x) {
      InitEntryKeepsMarks(s, s', x);
    } else if x, k :| ReadRow(s, s', x, k) {
      ReadKeepsMarks(s, s', x, k);
    } else if x, k :| PrewriteRow(s, s', x, k) {
      PrewriteKeepsMarks(s, s', x, k);
    } else if x :| ClearTxn(s, s', x) {
      ClearKeepsMarks(s, s', x);
    } else if x, k :| InstallRow(s, s', x, k) || CancelRow(s, s', x, k) {
      RowStepKeepsMarks(s, s', x, k, 0);
    } else if k, th :| RecycleRow(s, s', k, th) {
      RowStepKeepsMarks(s, s', 0, k, th);
    } else {
      var x :| || Validate(s, s', x) || ChooseTs(s, s', x) || PublishTs(s, s', x) || PublishState(s, s', x)
               || AbortTxn(s, s', x);
      PhaseStepKeepsMarks(s, s', x);
    }
  }

  lemma {:induction false} RunKeepsMarks(run: seq<System>)
    requires IsRun(run)
    ensures MarksOk(run[|run| - 1])
  {
    hide Inv, Step, Init, MarksOk;
    if |run| == 1 {
      StartOk(run[0]);
    } else {
      RunKeepsMarks(run[..|run| - 1]);
      RunKeeps(run[..|run| - 1]);
      StepKeepsMarks(run[|run| - 2], run[|run| - 1]);
    }
  }

  lemma StartOk(s: System)
    requires Init(s)
    ensures MarksOk(s)
  {
  }

  /** In every run conflicts between transactions with entries that have not left are entered on both sides,
      and when an aborted one is cleared it disappears from everybody's sets. */
  lemma AbortedIsForgotten(run: seq<System>, s': System, x: Tx, y: Tx)
    requires IsRun(run) && ClearTxn(run[|run| - 1], s', x) && x in run[|run| - 1].table
    requires y in run[|run| - 1].table && y != x && !At(run[|run| - 1], y, Gone)
    ensures y in s'.table && x !in s'.table[y].ins && x !in s'.table[y].outs
  {
    hide Step, Init, RowsOk, LogsOk, Tracked, Mutual, RowKnown, EntryKnown, ClearTxn;
    RunKeeps(run);
    RunKeepsMarks(run);
    ClearForgets(run[|run| - 1], s', x, y);
  }

  // ----- pending prewrites ------------------------------------------------------------------

  ghost predicate Once(ls: seq<Tx>) {
    forall i, j :: 0 <= i < j < |ls| ==> ls[i] != ls[j]
  }

  /** The prewrites pending on a row are granted ones whose version is not installed yet, each once, and
      among them all of transactions that are alive. */
  ghost predicate PendingOk(k: Key, ps: seq<Tx>, ts: map<Tx, Tran>, wlog: set<WriteLog>, inst: set<InstallLog>) {
    && Once(ps)
    && (forall x :: x in ps ==> WriteLog(x, k) in wlog && !Installed(inst, x, k))
    && (forall x :: WriteLog(x, k) in wlog && Alive(ts, x) && !Installed(inst, x, k) ==> x in ps)
  }

  ghost predicate AllPendingOk(s: System) {
    forall k :: k in s.rows ==> PendingOk(k, s.rows[k].preq, s.trans, s.writeLog, s.installLog)
  }

  lemma OnceRest(ls: seq<Tx>)
    requires Once(ls) && ls != []
    ensures Once(ls[1..]) && ls[0] !in ls[1..] && forall y :: y in ls <==> y == ls[0] || y in ls[1..]
  {
    assert ls == [ls[0]] + ls[1..];
  }

  lemma OnceMore(y: Tx, r: seq<Tx>)
    requires Once(r) && y !in r
    ensures Once([y] + r)
  {
  }

  lemma {:induction false} UnlinkExactly(ls: seq<Tx>, x: Tx)
    requires Once(ls)
    ensures Once(Unlink(ls, x)) && forall y :: y in Unlink(ls, x) <==> y in ls && y != x
  {
    if ls != [] {
      OnceRest(ls);
      hide Once;
      if ls[0] != x {
        UnlinkExactly(ls[1..], x);
        OnceMore(ls[0], Unlink(ls[1..], x));
      }
    }
  }

  lemma PrewriteKeepsPending(s: System, s': System, x: Tx, k: Key, j: Key)
    requires LogsOk(s) && AllPendingOk(s) && PrewriteRow(s, s', x, k) && j in s.rows
    ensures PendingOk(j, s'.rows[j].preq, s'.trans, s'.writeLog, s'.installLog)
  {
    hide MarkReaders, ConcurrentReaders, SomeDangerous;
    assert PendingOk(j, s.rows[j].preq, s.trans, s.writeLog, s.installLog);
    assert forall ts: nat :: InstallLog(x, k, ts) !in s.installLog;
  }

  lemma InstallKeepsPending(s: System, s': System, x: Tx, k: Key, j: Key)
    requires AllPendingOk(s) && InstallRow(s, s', x, k) && j in s.rows
    ensures PendingOk(j, s'.rows[j].preq, s'.trans, s'.writeLog, s'.installLog)
  {
    var ts := s.trans[x].phase.ts;
    assert PendingOk(j, s.rows[j].preq, s.trans, s.writeLog, s.installLog);
    UnlinkExactly(s.rows[j].preq, x);
    assert InstallLog(x, k, ts) in s'.installLog;
    forall y
      ensures Installed(s'.installLog, y, j) <==> Installed(s.installLog, y, j) || (y == x && j == k)
    {
      if Installed(s.installLog, y, j) {
        var u: nat :| InstallLog(y, j, u) in s.installLog;
        assert InstallLog(y, j, u) in s'.installLog;
      }
    }
  }

  lemma CancelKeepsPending(s: System, s': System, x: Tx, k: Key, j: Key)
    requires AllPendingOk(s) && CancelRow(s, s', x, k) && j in s.rows
    ensures PendingOk(j, s'.rows[j].preq, s'.trans, s'.writeLog, s'.installLog)
  {
    assert PendingOk(j, s.rows[j].preq, s.trans, s.writeLog, s.installLog);
    UnlinkExactly(s.rows[j].preq, x);
  }

  /** Steps that leave prewrites, their logs and who is alive, or make fewer alive. */
  lemma QuietKeepsPending(s: System, s': System)
    requires AllPendingOk(s) && s'.writeLog == s.writeLog && s'.installLog == s.installLog
    requires s'.rows.Keys == s.rows.Keys && forall k :: k in s.rows ==> s'.rows[k].preq == s.rows[k].preq
    requires forall x, k :: WriteLog(x, k) in s.writeLog && Alive(s'.trans, x) ==> Alive(s.trans, x)
    ensures AllPendingOk(s')
  {
    forall k | k in s'.rows
      ensures PendingOk(k, s'.rows[k].preq, s'.trans, s'.writeLog, s'.installLog)
    {
      assert PendingOk(k, s.rows[k].preq, s.trans, s.writeLog, s.installLog);
    }
  }

  lemma ReadIsQuiet(s: System, s': System, x: Tx, k: Key, th: nat)
    requires ReadRow(s, s', x, k) || RecycleRow(s, s', k, th)
    ensures s'.writeLog == s.writeLog && s'.installLog == s.installLog && s'.trans == s.trans
    ensures s'.rows.Keys == s.rows.Keys && forall j :: j in s.rows ==> s'.rows[j].preq == s.rows[j].preq
  {
    hide MarkWriters, Recycle;
  }

  lemma TranIsQuiet(s: System, s': System, x: Tx)
    requires LogsOk(s)
    requires || Begin(s, s', x) || InitEntry(s, s', x) || Validate(s, s', x) || ChooseTs(s, s', x)
             || PublishTs(s, s', x) || PublishState(s, s', x) || AbortTxn(s, s', x) || ClearTxn(s, s', x)
    ensures s'.writeLog == s.writeLog && s'.installLog == s.installLog && s'.rows == s.rows
    ensures forall y, k :: WriteLog(y, k) in s.writeLog && Alive(s'.trans, y) ==> Alive(s.trans, y)
  {
    hide Clear, HasIn, HasOut;
  }

  lemma StepKeepsPending(s: System, s': System)
    requires Inv(s) && AllPendingOk(s) && Step(s, s')
    ensures AllPendingOk(s')
  {
    hide TransOk, LogsOk, RowsOk, Tracked, PendingOk, Alive;
    hide Begin, InitEntry, ReadRow, PrewriteRow, Validate, ChooseTs, InstallRow, PublishTs, PublishState, AbortTxn;
    hide ClearTxn, CancelRow, RecycleRow;
    if x, k :| PrewriteRow(s, s', x, k) || InstallRow(s, s', x, k) || CancelRow(s, s', x, k) {
      SameKeys(s, s', x, k);
      forall j | j in s'.rows
        ensures PendingOk(j, s'.rows[j].preq, s'.trans, s'.writeLog, s'.installLog)
      {
        if PrewriteRow(s, s', x, k) {
          PrewriteKeepsPending(s, s', x, k, j);
        } else if InstallRow(s, s', x, k) {
          InstallKeepsPending(s, s', x, k, j);
        } else {
          CancelKeepsPending(s, s', x, k, j);
        }
      }
    } else {
      if x, k :| ReadRow(s, s', x, k) {
        ReadIsQuiet(s, s', x, k, 0);
      } else if k, th :| RecycleRow(s, s', k, th) {
        ReadIsQuiet(s, s', 0, k, th);
      } else {
        var x :| || Begin(s, s', x) || InitEntry(s, s', x) || Validate(s, s', x) || ChooseTs(s, s', x)
                 || PublishTs(s, s', x) || PublishState(s, s', x) || AbortTxn(s, s', x) || ClearTxn(s, s', x);
        TranIsQuiet(s, s', x);
      }
      QuietKeepsPending(s, s');
    }
  }

  lemma SameKeys(s: System, s': System, x: Tx, k: Key)
    requires PrewriteRow(s, s', x, k) || InstallRow(s, s', x, k) || CancelRow(s, s', x, k)
    ensures s'.rows.Keys == s.rows.Keys
  {
    hide Prewrite;
  }

  /** In every run the prewrites pending on a row are exactly the granted ones of live transactions not yet
      installed, and perhaps some of aborted transactions that have not cancelled them yet; each once. */
  lemma {:induction false} PendingPrewrites(run: seq<System>)
    requires IsRun(run)
    ensures AllPendingOk(run[|run| - 1])
  {
    hide Inv, Step, AllPendingOk;
    if |run| == 1 {
      NothingPending(run[0]);
    } else {
      hide Init;
      PendingPrewrites(run[..|run| - 1]);
      RunKeeps(run[..|run| - 1]);
      StepKeepsPending(run[|run| - 2], run[|run| - 1]);
    }
  }

  lemma NothingPending(s: System)
    requires Init(s)
    ensures AllPendingOk(s)
  {
  }
}

/** All runs of reads, prewrites, validations, installs, commits, aborts and recycling under SSI: no
    antidependency between concurrent transactions is ever missed, as far as they have entries in the
    table of conflicts. Creating the entry is a step of its own, which a transaction may do without. */
module SsiRuns {
  import opened SerialHistory
  import opened Ssi

  datatype Phase =
    | Active
    | Validated
    | Installing(ts: nat)
    | Published(ts: nat)
    | Done(ts: nat)
    | Doomed
    | Aborting
    | Gone

  datatype Tran = Tran(start: nat, phase: Phase)

  /** `tx` read row `key` and got the version of timestamp `ver`. */
  datatype ReadLog = ReadLog(tx: Tx, key: Key, ver: nat)

  /** `tx` prewrote row `key` successfully. */
  datatype WriteLog = WriteLog(tx: Tx, key: Key)

  /** `tx` installed its version of row `key` with timestamp `ts`. */
  datatype InstallLog = InstallLog(tx: Tx, key: Key, ts: nat)

  /** `floor` is the largest recycling threshold used so far; no transaction that may still read started
      before it. */
  datatype System = System(maxPreq: nat, clock: nat, floor: nat, rows: map<Key, Row>, table: Table,
                           trans: map<Tx, Tran>, readLog: set<ReadLog>, writeLog: set<WriteLog>,
                           installLog: set<InstallLog>)

  // ----- the steps --------------------------------------------------------------------------

  ghost predicate Begin(s: System, s': System, x: Tx) {
    && x !in s.trans
    && s' == s.(clock := s.clock + 1, trans := s.trans[x := Tran(s.clock + 1, Active)])
  }

  /** `InOutTable::init` for a transaction that has not accessed anything yet. */
  ghost predicate InitEntry(s: System, s': System, x: Tx) {
    && At(s, x, Active) && x !in s.table
    && (forall r :: r in s.readLog ==> r.tx != x) && (forall w :: w in s.writeLog ==> w.tx != x)
    && s' == s.(table := s.table[x := Conflicts({}, {}, Running, 0)])
  }

  ghost predicate At(s: System, x: Tx, p: Phase) {
    x in s.trans && s.trans[x].phase == p
  }

  ghost predicate ReadRow(s: System, s': System, x: Tx, k: Key) {
    && At(s, x, Active) && k in s.rows
    && var (r, t, v) := Read(s.rows[k], s.table, x, s.trans[x].start);
       s' == s.(rows := s.rows[k := r], table := t, readLog := s.readLog + {ReadLog(x, k, v)})
  }

  ghost predicate PrewriteRow(s: System, s': System, x: Tx, k: Key) {
    && At(s, x, Active) && k in s.rows && WriteLog(x, k) !in s.writeLog
    && var (rc, r, t) := Prewrite(s.rows[k], s.table, x, s.trans[x].start, s.maxPreq);
       s' == s.(rows := s.rows[k := r], table := t,
                writeLog := if rc == RcOk then s.writeLog + {WriteLog(x, k)} else s.writeLog,
                trans := if rc == RcOk then s.trans else s.trans[x := s.trans[x].(phase := Doomed)])
  }

  /** validate: a transaction with conflicts both in and out is refused. */
  ghost predicate Validate(s: System, s': System, x: Tx) {
    && At(s, x, Active)
    && s' == s.(trans := s.trans[x := s.trans[x].(phase :=
                  if HasIn(s.table, x) && HasOut(s.table, x) then Doomed else Validated)])
  }

  ghost predicate ChooseTs(s: System, s': System, x: Tx) {
    && At(s, x, Validated)
    && s' == s.(clock := s.clock + 1, trans := s.trans[x := s.trans[x].(phase := Installing(s.clock + 1))])
  }

  ghost predicate InstallRow(s: System, s': System, x: Tx, k: Key) {
    && x in s.trans && s.trans[x].phase.Installing? && k in s.rows && WriteLog(x, k) in s.writeLog
    && var ts := s.trans[x].phase.ts;
       && InstallLog(x, k, ts) !in s.installLog
       && s' == s.(rows := s.rows[k := Install(s.rows[k], x, ts)], installLog := s.installLog + {InstallLog(x, k, ts)})
  }

  ghost predicate PublishTs(s: System, s': System, x: Tx) {
    && x in s.trans && s.trans[x].phase.Installing?
    && var ts := s.trans[x].phase.ts;
       && (forall k :: WriteLog(x, k) in s.writeLog ==> InstallLog(x, k, ts) in s.installLog)
       && s' == s.(table := SetCommitTs(s.table, x, ts),
                   trans := s.trans[x := s.trans[x].(phase := Published(ts))])
  }

  ghost predicate PublishState(s: System, s': System, x: Tx) {
    && x in s.trans && s.trans[x].phase.Published?
    && s' == s.(table := SetState(s.table, x, Committed),
                trans := s.trans[x := s.trans[x].(phase := Done(s.trans[x].phase.ts))])
  }

  ghost predicate AbortTxn(s: System, s': System, x: Tx) {
    && (At(s, x, Active) || At(s, x, Validated) || At(s, x, Doomed))
    && s' == s.(table := SetState(s.table, x, Aborted), trans := s.trans[x := s.trans[x].(phase := Aborting)])
  }

  ghost predicate ClearTxn(s: System, s': System, x: Tx) {
    && At(s, x, Aborting)
    && s' == s.(table := Clear(s.table, x), trans := s.trans[x := s.trans[x].(phase := Gone)])
  }

  ghost predicate CancelRow(s: System, s': System, x: Tx, k: Key) {
    && At(s, x, Gone) && k in s.rows
    && s' == s.(rows := s.rows[k := Cancel(s.rows[k], x)])
  }

  /** The threshold is the smallest start of the transactions that may still read. */
  ghost predicate RecycleRow(s: System, s': System, k: Key, th: nat) {
    && k in s.rows && th <= s.clock && (forall x :: At(s, x, Active) ==> th <= s.trans[x].start)
    && s' == s.(rows := s.rows[k := s.rows[k].(his := Recycle(s.rows[k].his, th))],
                floor := if th > s.floor then th else s.floor)
  }

  /** Any step but the creation of an entry. */
  ghost predicate OtherStep(s: System, s': System) {
    || (exists x :: Begin(s, s', x))
    || (exists x, k :: ReadRow(s, s', x, k))
    || (exists x, k :: PrewriteRow(s, s', x, k))
    || (exists x :: Validate(s, s', x))
    || (exists x :: ChooseTs(s, s', x))
    || (exists x, k :: InstallRow(s, s', x, k))
    || (exists x :: PublishTs(s, s', x))
    || (exists x :: PublishState(s, s', x))
    || (exists x :: AbortTxn(s, s', x))
    || (exists x :: ClearTxn(s, s', x))
    || (exists x, k :: CancelRow(s, s', x, k))
    || (exists k, th :: RecycleRow(s, s', k, th))
  }

  ghost predicate Step(s: System, s': System) {
    OtherStep(s, s') || exists x :: InitEntry(s, s', x)
  }

  ghost predicate Init(s: System) {
    && s.floor == 0 && s.table == map[] && s.trans == map[]
    && s.readLog == {} && s.writeLog == {} && s.installLog == {}
    && forall k :: k in s.rows ==> s.rows[k] == Row([], [], [], [])
  }

  ghost predicate IsRun(run: seq<System>) {
    && run != [] && Init(run[0])
    && forall i :: 0 < i < |run| ==> Step(run[i - 1], run[i])
  }

  // ----- the invariant ----------------------------------------------------------------------

  ghost predicate Alive(trans: map<Tx, Tran>, x: Tx) {
    x in trans && !trans[x].phase.Aborting? && !trans[x].phase.Gone?
  }

  ghost predicate HasRead(rlog: set<ReadLog>, x: Tx, k: Key) {
    exists v: nat :: ReadLog(x, k, v) in rlog
  }

  /** Locks stand for what is logged: readers keep theirs, writers until they install. */
  ghost predicate LocksOk(k: Key, r: Row, ts: map<Tx, Tran>, rlog: set<ReadLog>, wlog: set<WriteLog>,
                          inst: set<InstallLog>)
  {
    && (forall x, v :: ReadLog(x, k, v) in rlog && Alive(ts, x) ==> x in r.readLocks)
    && (forall x :: x in r.readLocks ==> HasRead(rlog, x, k))
    && (forall x :: WriteLog(x, k) in wlog && Alive(ts, x) && !Installed(inst, x, k) ==> x in r.writeLocks)
  }

  ghost predicate Installed(inst: set<InstallLog>, x: Tx, k: Key) {
    exists ts: nat :: InstallLog(x, k, ts) in inst
  }

  /** Every installed version is in the history, or older than one there that is below the floor. */
  ghost predicate HistoryOk(k: Key, his: seq<Version>, inst: set<InstallLog>, floor: nat) {
    && Descending(his)
    && forall x, ts: nat :: InstallLog(x, k, ts) in inst ==>
         Version(ts, x) in his || exists v :: v in his && ts <= v.ts < floor
  }

  /** `w` wrote the row over the version that `r` read, and the two are concurrent. */
  ghost predicate Antidependent(s: System, r: ReadLog, w: WriteLog) {
    && r in s.readLog && w in s.writeLog && r.key == w.key && r.tx != w.tx
    && Alive(s.trans, r.tx) && Alive(s.trans, w.tx) && Overlaps(s.trans[r.tx], s.trans[w.tx])
    && forall ts: nat :: InstallLog(w.tx, w.key, ts) in s.installLog ==> ts > r.ver
  }

  /** The reader had not committed when the writer started. */
  ghost predicate Overlaps(r: Tran, w: Tran) {
    !(r.phase.Done? && r.phase.ts <= w.start)
  }

  ghost predicate Tracked(s: System) {
    forall r, w :: Antidependent(s, r, w) ==> Marked(s.table, r.tx, w.tx)
  }

  ghost predicate RowsOk(s: System) {
    forall k :: k in s.rows ==>
      LocksOk(k, s.rows[k], s.trans, s.readLog, s.writeLog, s.installLog) &&
      HistoryOk(k, s.rows[k].his, s.installLog, s.floor)
  }

  ghost predicate TranOk(clock: nat, floor: nat, tr: Tran) {
    tr.start <= clock && (tr.phase.Active? ==> floor <= tr.start)
  }

  /** What an entry says of a transaction is true. */
  ghost predicate EntryOk(tr: Tran, c: Conflicts) {
    && (c.state == Aborted <==> tr.phase.Aborting? || tr.phase.Gone?)
    && (c.state == Committed <==> tr.phase.Done?)
    && (tr.phase.Published? || tr.phase.Done? ==> c.commitTs == tr.phase.ts)
  }

  ghost predicate TransOk(s: System) {
    && s.table.Keys <= s.trans.Keys && s.floor <= s.clock
    && (forall x :: x in s.trans ==> TranOk(s.clock, s.floor, s.trans[x]))
    && (forall x :: x in s.table ==> EntryOk(s.trans[x], s.table[x]))
  }

  ghost predicate LogsOk(s: System) {
    && (forall r :: r in s.readLog ==> r.tx in s.trans && r.key in s.rows && r.ver <= s.trans[r.tx].start)
    && (forall w :: w in s.writeLog ==> w.tx in s.trans && w.key in s.rows)
    && (forall e :: e in s.installLog ==>
          && e.tx in s.trans && e.key in s.rows && WriteLog(e.tx, e.key) in s.writeLog
          && (s.trans[e.tx].phase.Installing? || s.trans[e.tx].phase.Published? || s.trans[e.tx].phase.Done?))
  }

  ghost predicate Inv(s: System) {
    TransOk(s) && LogsOk(s) && RowsOk(s) && Tracked(s)
  }

  // ----- reading ----------------------------------------------------------------------------

  lemma ReadOk(r: Row, t: Table, x: Tx, start: nat)
    ensures var (r', t', v) := Read(r, t, x, start);
            && Grows(t, t') && r' == r.(readLocks := [x] + r.readLocks) && v == VersionAt(r.his, start)
            && (forall w :: w in r.writeLocks && w != x ==> Marked(t', x, w))
            && (forall w :: w in Newer(r.his, start) ==> Marked(t', x, w))
  {
    hide Mark, Grows, Marked;
    var ws, ns := Others(r.writeLocks, x), Newer(r.his, start);
    var t1 := MarkWriters(t, x, ws);
    var t2 := MarkWriters(t1, x, ns);
    OthersMembers(r.writeLocks, x);
    MarkWritersOk(t, x, ws);
    MarkWritersOk(t1, x, ns);
    GrowsTransitive(t, t1, t2);
    forall w | w in r.writeLocks && w != x
      ensures Marked(t2, x, w)
    {
      GrowsKeepsMarked(t1, t2, x, w);
    }
  }

  /** A writer that a new read misses the version of is met on the row: by its lock or in the history. */
  lemma NewReadMeetsWriter(s: System, s': System, x: Tx, k: Key, w: WriteLog)
    requires Inv(s) && ReadRow(s, s', x, k)
    requires Antidependent(s', ReadLog(x, k, VersionAt(s.rows[k].his, s.trans[x].start)), w)
    ensures Marked(s'.table, x, w.tx)
  {
    hide Grows, Marked, Tracked;
    var r, start := s.rows[k], s.trans[x].start;
    ReadOk(r, s.table, x, start);
    assert LocksOk(k, r, s.trans, s.readLog, s.writeLog, s.installLog);
    assert HistoryOk(k, r.his, s.installLog, s.floor);
    if ts: nat :| InstallLog(w.tx, k, ts) in s.installLog {
      if Version(ts, w.tx) in r.his {
        ReaderMeetsNewer(r.his, start, Version(ts, w.tx));
      } else {
        var v :| v in r.his && ts <= v.ts < s.floor;
        VersionAtLeast(r.his, start, v);
      }
    }
  }

  /** The pair was antidependent before, and marks are only added. */
  lemma OldPairsStayMarked(s: System, s': System, r: ReadLog, w: WriteLog)
    requires Tracked(s) && Grows(s.table, s'.table) && s'.installLog == s.installLog
    requires r in s.readLog && w in s.writeLog && Antidependent(s', r, w)
    requires r.tx in s.trans && w.tx in s.trans
    requires forall x :: x in s.trans && Alive(s'.trans, x) ==> s'.trans[x].start == s.trans[x].start
    requires forall x :: x in s.trans && x in s'.trans && s'.trans[x].phase != s.trans[x].phase ==>
               s'.trans[x].phase.Doomed? && s.trans[x].phase.Active?
    ensures Marked(s'.table, r.tx, w.tx)
  {
    assert Antidependent(s, r, w);
    GrowsKeepsMarked(s.table, s'.table, r.tx, w.tx);
  }

  lemma ReadRowTracks(s: System, s': System, x: Tx, k: Key)
    requires Inv(s) && ReadRow(s, s', x, k)
    ensures Tracked(s')
  {
    hide Antidependent, Marked, Read, RowsOk, Grows;
    ReadOk(s.rows[k], s.table, x, s.trans[x].start);
    forall r, w | Antidependent(s', r, w)
      ensures Marked(s'.table, r.tx, w.tx)
    {
      LoggedPair(s', r, w);
      if r in s.readLog {
        OldPairsStayMarked(s, s', r, w);
      } else {
        NewReadMeetsWriter(s, s', x, k, w);
      }
    }
  }

  lemma LoggedPair(s: System, r: ReadLog, w: WriteLog)
    requires Antidependent(s, r, w)
    ensures r in s.readLog && w in s.writeLog && r.tx in s.trans && w.tx in s.trans
  {
  }

  lemma ReadRowKeepsTrans(s: System, s': System, x: Tx, k: Key)
    requires TransOk(s) && LogsOk(s) && RowsOk(s) && ReadRow(s, s', x, k)
    ensures TransOk(s') && LogsOk(s')
  {
    hide Read, LocksOk;
    ReadOk(s.rows[k], s.table, x, s.trans[x].start);
    assert HistoryOk(k, s.rows[k].his, s.installLog, s.floor);
    VersionAtExactly(s.rows[k].his, s.trans[x].start);
  }

  lemma ReadRowKeepsRows(s: System, s': System, x: Tx, k: Key)
    requires RowsOk(s) && ReadRow(s, s', x, k)
    ensures RowsOk(s')
  {
    hide Read;
    ReadOk(s.rows[k], s.table, x, s.trans[x].start);
    assert ReadLog(x, k, VersionAt(s.rows[k].his, s.trans[x].start)) in s'.readLog;
    forall j | j in s.rows
      ensures LocksOk(j, s'.rows[j], s'.trans, s'.readLog, s'.writeLog, s'.installLog)
    {
      assert LocksOk(j, s.rows[j], s.trans, s.readLog, s.writeLog, s.installLog);
    }
  }

  lemma ReadRowKeeps(s: System, s': System, x: Tx, k: Key)
    requires Inv(s) && ReadRow(s, s', x, k)
    ensures Inv(s')
  {
    hide TransOk, LogsOk, RowsOk, Tracked, ReadRow;
    ReadRowKeepsTrans(s, s', x, k);
    ReadRowKeepsRows(s, s', x, k);
    ReadRowTracks(s, s', x, k);
  }

  // ----- prewriting -------------------------------------------------------------------------

  lemma PrewriteOk(r: Row, t: Table, x: Tx, start: nat, maxPreq: nat)
    ensures var (rc, r', t') := Prewrite(r, t, x, start, maxPreq);
            && Grows(t, t') && r'.readLocks == r.readLocks && r'.his == r.his
            && r'.writeLocks == [x] + r.writeLocks
            && (rc == RcOk ==> forall y :: y in r.readLocks && y != x && Concurrent(t, y, start) ==> Marked(t', y, x))
  {
    hide Mark, Marked, Concurrent;
    var rs := ConcurrentReaders(t, r.readLocks, x, start);
    ConcurrentMembers(t, r.readLocks, x, start);
    MarkReadersOk(t, x, rs);
  }

  lemma NewWriteMeetsReader(s: System, s': System, x: Tx, k: Key, r: ReadLog)
    requires Inv(s) && PrewriteRow(s, s', x, k) && WriteLog(x, k) in s'.writeLog
    requires Antidependent(s', r, WriteLog(x, k))
    ensures Marked(s'.table, r.tx, x)
  {
    hide Marked, Tracked, Grows, Prewrite;
    PrewriteOk(s.rows[k], s.table, x, s.trans[x].start, s.maxPreq);
    assert LocksOk(k, s.rows[k], s.trans, s.readLog, s.writeLog, s.installLog);
    assert ReadLog(r.tx, k, r.ver) in s.readLog;
  }

  lemma PrewriteRowTracks(s: System, s': System, x: Tx, k: Key)
    requires Inv(s) && PrewriteRow(s, s', x, k)
    ensures Tracked(s')
  {
    hide Antidependent, Marked, Prewrite, RowsOk, Grows;
    PrewriteOk(s.rows[k], s.table, x, s.trans[x].start, s.maxPreq);
    forall r, w | Antidependent(s', r, w)
      ensures Marked(s'.table, r.tx, w.tx)
    {
      LoggedPair(s', r, w);
      if w in s.writeLog {
        OldPairsStayMarked(s, s', r, w);
      } else {
        NewWriteMeetsReader(s, s', x, k, r);
      }
    }
  }

  lemma PrewriteRowKeepsTrans(s: System, s': System, x: Tx, k: Key)
    requires TransOk(s) && LogsOk(s) && PrewriteRow(s, s', x, k)
    ensures TransOk(s') && LogsOk(s')
  {
    hide Prewrite;
    PrewriteOk(s.rows[k], s.table, x, s.trans[x].start, s.maxPreq);
  }

  lemma PrewriteRowKeepsRows(s: System, s': System, x: Tx, k: Key)
    requires RowsOk(s) && PrewriteRow(s, s', x, k)
    ensures RowsOk(s')
  {
    hide Prewrite;
    PrewriteOk(s.rows[k], s.table, x, s.trans[x].start, s.maxPreq);
    forall j | j in s.rows
      ensures LocksOk(j, s'.rows[j], s'.trans, s'.readLog, s'.writeLog, s'.installLog)
    {
      assert LocksOk(j, s.rows[j], s.trans, s.readLog, s.writeLog, s.installLog);
    }
  }

  lemma PrewriteRowKeeps(s: System, s': System, x: Tx, k: Key)
    requires Inv(s) && PrewriteRow(s, s', x, k)
    ensures Inv(s')
  {
    hide TransOk, LogsOk, RowsOk, Tracked, PrewriteRow;
    PrewriteRowKeepsTrans(s, s', x, k);
    PrewriteRowKeepsRows(s, s', x, k);
    PrewriteRowTracks(s, s', x, k);
  }

  // ----- installing, publishing, aborting, recycling ----------------------------------------

  /** A step after which no new pair is antidependent and no mark is lost. */
  lemma FewerPairsTrack(s: System, s': System)
    requires Tracked(s)
    requires forall r, w :: Antidependent(s', r, w) ==> Antidependent(s, r, w)
    requires forall r, w :: Antidependent(s', r, w) && Marked(s.table, r.tx, w.tx) ==> Marked(s'.table, r.tx, w.tx)
    ensures Tracked(s')
  {
  }

  lemma InstallRowTracks(s: System, s': System, x: Tx, k: Key)
    requires Tracked(s) && InstallRow(s, s', x, k)
    ensures Tracked(s')
  {
    hide Marked;
    FewerPairsTrack(s, s');
  }

  lemma InstallRowKeepsTrans(s: System, s': System, x: Tx, k: Key)
    requires TransOk(s) && LogsOk(s) && InstallRow(s, s', x, k)
    ensures TransOk(s') && LogsOk(s')
  {
  }

  lemma InstallRowKeeps(s: System, s': System, x: Tx, k: Key)
    requires Inv(s) && InstallRow(s, s', x, k)
    ensures Inv(s')
  {
    hide Tracked, TransOk, LogsOk, LocksOk, HistoryOk;
    InstallRowTracks(s, s', x, k);
    InstallRowKeepsTrans(s, s', x, k);
    forall j | j in s.rows
      ensures LocksOk(j, s'.rows[j], s'.trans, s'.readLog, s'.writeLog, s'.installLog)
      ensures HistoryOk(j, s'.rows[j].his, s'.installLog, s'.floor)
    {
      InstallRowKeepsRow(s, s', x, k, j);
    }
  }

  lemma InstallRowKeepsRow(s: System, s': System, x: Tx, k: Key, j: Key)
    requires RowsOk(s) && InstallRow(s, s', x, k) && j in s.rows
    ensures LocksOk(j, s'.rows[j], s'.trans, s'.readLog, s'.writeLog, s'.installLog)
    ensures HistoryOk(j, s'.rows[j].his, s'.installLog, s'.floor)
  {
    var ts := s.trans[x].phase.ts;
    assert LocksOk(j, s.rows[j], s.trans, s.readLog, s.writeLog, s.installLog);
    assert HistoryOk(j, s.rows[j].his, s.installLog, s.floor);
    UnlinkKeeps(s.rows[k].writeLocks, x);
    InsertVersionOk(s.rows[j].his, Version(ts, x));
    assert InstallLog(x, k, ts) in s'.installLog;
  }

  lemma PublishKeepsTrans(s: System, s': System, x: Tx)
    requires TransOk(s) && LogsOk(s) && (PublishTs(s, s', x) || PublishState(s, s', x))
    ensures TransOk(s') && LogsOk(s')
  {
  }

  lemma PublishTracks(s: System, s': System, x: Tx)
    requires Tracked(s) && TransOk(s) && (PublishTs(s, s', x) || PublishState(s, s', x))
    ensures Tracked(s')
  {
    FewerPairsTrack(s, s');
  }

  lemma PublishKeeps(s: System, s': System, x: Tx)
    requires Inv(s) && (PublishTs(s, s', x) || PublishState(s, s', x))
    ensures Inv(s')
  {
    hide LogsOk, RowsOk, Tracked;
    PublishKeepsTrans(s, s', x);
    PublishTracks(s, s', x);
    PublishRowsOk(s, s');
  }

  lemma PublishRowsOk(s: System, s': System)
    requires RowsOk(s) && s'.rows == s.rows && s'.readLog == s.readLog && s'.writeLog == s.writeLog
    requires s'.installLog == s.installLog && s'.floor == s.floor
    requires forall x :: Alive(s'.trans, x) ==> Alive(s.trans, x)
    ensures RowsOk(s')
  {
    forall k | k in s.rows
      ensures LocksOk(k, s'.rows[k], s'.trans, s'.readLog, s'.writeLog, s'.installLog)
    {
      assert LocksOk(k, s.rows[k], s.trans, s.readLog, s.writeLog, s.installLog);
    }
  }

  lemma AbortTxnKeepsTrans(s: System, s': System, x: Tx)
    requires TransOk(s) && LogsOk(s) && (AbortTxn(s, s', x) || ClearTxn(s, s', x))
    ensures TransOk(s') && LogsOk(s')
  {
  }

  /** Only the aborted transaction is taken out of conflict sets. */
  lemma AbortTxnTracks(s: System, s': System, x: Tx)
    requires Tracked(s) && (AbortTxn(s, s', x) || ClearTxn(s, s', x))
    ensures Tracked(s')
  {
    FewerPairsTrack(s, s');
  }

  lemma AbortTxnKeeps(s: System, s': System, x: Tx)
    requires Inv(s) && (AbortTxn(s, s', x) || ClearTxn(s, s', x))
    ensures Inv(s')
  {
    hide TransOk, LogsOk, RowsOk, Tracked;
    AbortTxnKeepsTrans(s, s', x);
    AbortTxnTracks(s, s', x);
    PublishRowsOk(s, s');
  }

  lemma CancelRowKeepsRows(s: System, s': System, x: Tx, k: Key)
    requires RowsOk(s) && TransOk(s) && CancelRow(s, s', x, k)
    ensures RowsOk(s')
  {
    UnlinkKeeps(s.rows[k].writeLocks, x);
    UnlinkKeeps(s.rows[k].readLocks, x);
    forall j | j in s.rows
      ensures LocksOk(j, s'.rows[j], s'.trans, s'.readLog, s'.writeLog, s'.installLog)
    {
      assert LocksOk(j, s.rows[j], s.trans, s.readLog, s.writeLog, s.installLog);
    }
  }

  lemma CancelRowKeeps(s: System, s': System, x: Tx, k: Key)
    requires Inv(s) && CancelRow(s, s', x, k)
    ensures Inv(s')
  {
    hide RowsOk, Tracked;
    CancelRowKeepsRows(s, s', x, k);
    SamePairs(s, s');
  }

  lemma SamePairs(s: System, s': System)
    requires Tracked(s) && s'.table == s.table && s'.readLog == s.readLog && s'.writeLog == s.writeLog
    requires s'.installLog == s.installLog
    requires forall r, w :: Antidependent(s', r, w) ==> Antidependent(s, r, w)
    ensures Tracked(s')
  {
  }

  lemma RecycleRowKeeps(s: System, s': System, k: Key, th: nat)
    requires Inv(s) && RecycleRow(s, s', k, th)
    ensures Inv(s')
  {
    hide Tracked;
    forall j | j in s.rows
      ensures LocksOk(j, s'.rows[j], s'.trans, s'.readLog, s'.writeLog, s'.installLog)
      ensures HistoryOk(j, s'.rows[j].his, s'.installLog, s'.floor)
    {
      assert LocksOk(j, s.rows[j], s.trans, s.readLog, s.writeLog, s.installLog);
      RecycleKeepsHistory(j, s.rows[j].his, s.installLog, s.floor, th, s'.floor);
    }
    SamePairs(s, s');
  }

  lemma RecycleKeepsHistory(k: Key, his: seq<Version>, inst: set<InstallLog>, floor: nat, th: nat, floor': nat)
    requires HistoryOk(k, his, inst, floor) && floor <= floor' && th <= floor'
    ensures HistoryOk(k, his, inst, floor') && HistoryOk(k, Recycle(his, th), inst, floor')
  {
    RecycleOk(his, th);
    var r := Recycle(his, th);
    forall x, ts: nat | InstallLog(x, k, ts) in inst
      ensures Version(ts, x) in r || exists v :: v in r && ts <= v.ts < floor'
    {
      if Version(ts, x) !in r {
        var u :| u in his && ts <= u.ts && (u == Version(ts, x) || u.ts < floor);
        if u !in r {
          var v :| v in r && u.ts <= v.ts < th;
        }
      }
    }
  }

  lemma BeginKeepsTrans(s: System, s': System, x: Tx)
    requires TransOk(s) && LogsOk(s) && (Begin(s, s', x) || InitEntry(s, s', x))
    ensures TransOk(s') && LogsOk(s')
  {
  }

  lemma BeginTracks(s: System, s': System, x: Tx)
    requires Tracked(s) && LogsOk(s) && (Begin(s, s', x) || InitEntry(s, s', x))
    ensures Tracked(s')
  {
    forall r, w | Antidependent(s', r, w)
      ensures Marked(s'.table, r.tx, w.tx)
    {
      assert Antidependent(s, r, w);
    }
  }

  lemma BeginKeeps(s: System, s': System, x: Tx)
    requires Inv(s) && (Begin(s, s', x) || InitEntry(s, s', x))
    ensures Inv(s')
  {
    hide TransOk, LogsOk, RowsOk, Tracked;
    BeginKeepsTrans(s, s', x);
    BeginTracks(s, s', x);
    BeginRowsOk(s, s', x);
  }

  lemma BeginRowsOk(s: System, s': System, x: Tx)
    requires RowsOk(s) && LogsOk(s) && (Begin(s, s', x) || InitEntry(s, s', x))
    ensures RowsOk(s')
  {
    forall k | k in s.rows
      ensures LocksOk(k, s'.rows[k], s'.trans, s'.readLog, s'.writeLog, s'.installLog)
    {
      assert LocksOk(k, s.rows[k], s.trans, s.readLog, s.writeLog, s.installLog);
    }
  }

  lemma PhaseKeepsTrans(s: System, s': System, x: Tx)
    requires TransOk(s) && LogsOk(s) && (Validate(s, s', x) || ChooseTs(s, s', x))
    ensures TransOk(s') && LogsOk(s')
  {
  }

  /** Steps that change nothing but a phase and the clock. */
  lemma PhaseKeeps(s: System, s': System, x: Tx)
    requires Inv(s) && (Validate(s, s', x) || ChooseTs(s, s', x))
    ensures Inv(s')
  {
    hide TransOk, LogsOk, RowsOk, Tracked;
    PhaseKeepsTrans(s, s', x);
    PublishRowsOk(s, s');
    SamePairs(s, s');
  }

  lemma StepKeeps(s: System, s': System)
    requires Inv(s) && Step(s, s')
    ensures Inv(s')
  {
    hide Inv, Begin, InitEntry, ReadRow, PrewriteRow, Validate, ChooseTs, InstallRow, PublishTs, PublishState, AbortTxn,
         ClearTxn, CancelRow, RecycleRow;
    if x :| Begin(s, s', x) || InitEntry(s, s', x) {
      BeginKeeps(s, s', x);
    } else if x, k :| ReadRow(s, s', x, k) {
      ReadRowKeeps(s, s', x, k);
    } else if x, k :| PrewriteRow(s, s', x, k) {
      PrewriteRowKeeps(s, s', x, k);
    } else if x :| Validate(s, s', x) || ChooseTs(s, s', x) {
      PhaseKeeps(s, s', x);
    } else if x, k :| InstallRow(s, s', x, k) {
      InstallRowKeeps(s, s', x, k);
    } else if x :| PublishTs(s, s', x) || PublishState(s, s', x) {
      PublishKeeps(s, s', x);
    } else if x :| AbortTxn(s, s', x) || ClearTxn(s, s', x) {
      AbortTxnKeeps(s, s', x);
    } else if x, k :| CancelRow(s, s', x, k) {
      CancelRowKeeps(s, s', x, k);
    } else {
      var k, th :| RecycleRow(s, s', k, th);
      RecycleRowKeeps(s, s', k, th);
    }
  }

  lemma {:induction false} RunKeeps(run: seq<System>)
    requires IsRun(run)
    ensures Inv(run[|run| - 1])
  {
    hide Inv, Step, Init;
    if |run| == 1 {
      InitOk(run[0]);
    } else {
      RunKeeps(run[..|run| - 1]);
      StepKeeps(run[|run| - 2], run[|run| - 1]);
    }
  }

  lemma InitOk(s: System)
    requires Init(s)
    ensures Inv(s)
  {
  }

  function InsOf(t: Table, x: Tx): set<Tx> {
    if x in t then t[x].ins else {}
  }

  function OutsOf(t: Table, x: Tx): set<Tx> {
    if x in t then t[x].outs else {}
  }

  /** In every run, whenever a transaction read a version of a row older than a concurrent transaction's
      write of it, and neither has aborted: the reader is among the writer's conflicts in exactly if the
      writer has an entry, and the writer among the reader's conflicts out exactly if the reader has one,
      whichever of the read, the prewrite, the install and the commits came first. */
  lemma NoAntidependencyIsMissed(run: seq<System>, r: ReadLog, w: WriteLog)
    requires IsRun(run) && Antidependent(run[|run| - 1], r, w)
    ensures var t := run[|run| - 1].table;
            && (r.tx in InsOf(t, w.tx) <==> w.tx in t)
            && (w.tx in OutsOf(t, r.tx) <==> r.tx in t)
  {
    hide Step, Init, RowsOk, TransOk, LogsOk;
    RunKeeps(run);
    assert Marked(run[|run| - 1].table, r.tx, w.tx);
  }

  /** Under whose write `w` somebody read (`r`), and whose own read `r2` is of a version older than
      somebody's write `w2`. */
  ghost predicate Pivot(s: System, x: Tx, r: ReadLog, w: WriteLog, r2: ReadLog, w2: WriteLog) {
    Antidependent(s, r, w) && w.tx == x && Antidependent(s, r2, w2) && r2.tx == x
  }

  /** So validation refuses a pivot exactly if it has an entry. */
  lemma PivotIsRefused(run: seq<System>, x: Tx, r: ReadLog, w: WriteLog, r2: ReadLog, w2: WriteLog)
    requires IsRun(run) && |run| >= 2 && Validate(run[|run| - 2], run[|run| - 1], x)
    requires Pivot(run[|run| - 2], x, r, w, r2, w2)
    ensures At(run[|run| - 1], x, Doomed) <==> x in run[|run| - 2].table
  {
    hide Step, Init, Antidependent;
    var before := run[..|run| - 1];
    NoAntidependencyIsMissed(before, r, w);
    NoAntidependencyIsMissed(before, r2, w2);
  }

  // ----- refused prewrites ------------------------------------------------------------------

  /** Somebody has read the row, committed after the writer started, and has a conflict in. */
  ghost predicate Endangered(s: System, x: Tx, k: Key) {
    x in s.trans &&
    exists y :: y != x && HasRead(s.readLog, y, k) && y in s.trans && y in s.table && s.table[y].ins != {}
                && s.table[y].state == Committed && s.table[y].commitTs > s.trans[x].start
  }

  /** In every run a prewrite is refused exactly if a concurrent reader of the row has committed with a
      conflict in, or too many prewrites are pending. */
  lemma PrewriteRefusedExactly(run: seq<System>, s': System, x: Tx, k: Key)
    requires IsRun(run) && PrewriteRow(run[|run| - 1], s', x, k)
    ensures var s := run[|run| - 1];
            && (At(s', x, Doomed) <==> Endangered(s, x, k) || |s.rows[k].preq| >= s.maxPreq)
            && (At(s', x, Doomed) <==> WriteLog(x, k) !in s'.writeLog)
            && (WriteLog(x, k) in s'.writeLog ==> s'.rows[k].preq == [x] + s.rows[k].preq)
  {
    hide Step, Init, MarkReaders, ConcurrentReaders, Tracked;
    RunKeeps(run);
    var s := run[|run| - 1];
    DangerExactly(s, x, k);
  }

  /** A reader that committed with an entry is still on the row. */
  lemma DangerExactly(s: System, x: Tx, k: Key)
    requires TransOk(s) && LogsOk(s) && RowsOk(s) && x in s.trans && k in s.rows
    ensures SomeDangerous(s.table, s.rows[k].readLocks, x, s.trans[x].start) <==> Endangered(s, x, k)
  {
    var ls := s.rows[k].readLocks;
    assert LocksOk(k, s.rows[k], s.trans, s.readLog, s.writeLog, s.installLog);
    if SomeDangerous(s.table, ls, x, s.trans[x].start) {
      var i :| 0 <= i < |ls| && ls[i] != x && Dangerous(s.table, ls[i], s.trans[x].start);
      assert ls[i] in ls && HasRead(s.readLog, ls[i], k);
    }
    if y :| y != x && HasRead(s.readLog, y, k) && y in s.trans && y in s.table && s.table[y].ins != {}
            && s.table[y].state == Committed && s.table[y].commitTs > s.trans[x].start {
      assert EntryOk(s.trans[y], s.table[y]);
      var v: nat :| ReadLog(y, k, v) in s.readLog;
      assert Alive(s.trans, y);
      var i :| 0 <= i < |ls| && ls[i] == y;
    }
  }

  // ----- without entries --------------------------------------------------------------------

  /** No line of the source creates an entry: then the table stays empty, ... */
  lemma {:induction false} TableStaysEmpty(run: seq<System>)
    requires run != [] && Init(run[0]) && forall i :: 0 < i < |run| ==> OtherStep(run[i - 1], run[i])
    ensures IsRun(run) && run[|run| - 1].table == map[]
  {
    hide OtherStep;
    if |run| > 1 {
      TableStaysEmpty(run[..|run| - 1]);
      StepKeepsEmpty(run[|run| - 2], run[|run| - 1]);
    }
  }

  lemma StepKeepsEmpty(s: System, s': System)
    requires OtherStep(s, s') && s.table == map[]
    ensures s'.table == map[]
  {
    if x, k :| ReadRow(s, s', x, k) {
      ReadOk(s.rows[k], s.table, x, s.trans[x].start);
    } else if x, k :| PrewriteRow(s, s', x, k) {
      PrewriteOk(s.rows[k], s.table, x, s.trans[x].start, s.maxPreq);
    }
  }

  /** ... and validation refuses nobody. */
  lemma NobodyIsRefused(run: seq<System>, x: Tx)
    requires |run| >= 2 && Init(run[0]) && forall i :: 0 < i < |run| ==> OtherStep(run[i - 1], run[i])
    requires Validate(run[|run| - 2], run[|run| - 1], x)
    ensures At(run[|run| - 1], x, Validated)
  {
    hide OtherStep, Init;
    TableStaysEmpty(run[..|run| - 1]);
  }
}

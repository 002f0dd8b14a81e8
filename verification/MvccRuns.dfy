/** What every run of multi-version timestamp ordering keeps: rows are accessed in any order by
    any number of transactions, old versions and reads are recycled on the way, and still every
    answered read saw what a serial execution in timestamp order would have shown it. */
module MvccRuns {
  import opened SerialHistory
  import opened Mvcc

  /** What transactions were told about one row: the reads answered, the versions committed (the initial
      one carries timestamp 0), the prewrites granted and neither written nor cancelled since, and the
      reads told to wait and not answered since. */
  datatype Log = Log(answered: set<Answer>, committed: set<Version>, granted: set<Ts>, waiting: set<Ts>)

  // ----- the invariant of one row --------------------------------------------------------

  /** The stored versions are the newest committed ones; anything recycled is older than the row. */
  ghost predicate VersionsOk(base: Version, writeHis: seq<Version>, committed: set<Version>, floor: Ts) {
    && StrictlyDescending(writeHis)
    && (forall v :: v in writeHis ==> v in committed && v.ts > base.ts)
    && base in committed
    && (base.ts == 0 || base.ts < floor)
    && (forall v :: v in committed ==> v in writeHis || v == base || v.ts < base.ts)
    && (forall u, v :: u in committed && v in committed && u.ts == v.ts ==> u == v)
  }

  ghost predicate PendingOk(preReq: seq<Ts>, committed: set<Version>, floor: Ts) {
    && Distinct(preReq)
    && (forall p :: p in preReq ==> 0 < p && floor <= p)
    && (forall p, v :: p in preReq && v in committed ==> v.ts != p)
  }

  /** The read saw a committed version, and no version is or may yet be committed in between. */
  ghost predicate AnswerOk(preReq: seq<Ts>, committed: set<Version>, a: Answer) {
    && a.version in committed
    && a.version.ts < a.reader
    && (forall v :: v in committed ==> !(a.version.ts < v.ts < a.reader))
    && (forall p :: p in preReq ==> !(a.version.ts < p < a.reader))
  }

  ghost predicate ReadsOk(preReq: seq<Ts>, readHis: seq<Ts>, log: Log, floor: Ts) {
    && Descending(readHis)
    && (forall a :: a in log.answered ==> AnswerOk(preReq, log.committed, a))
    && (forall a :: a in log.answered ==> a.reader in readHis || a.reader < floor)
    && (forall r :: r in readHis ==> exists a :: a in log.answered && a.reader == r)
  }

  /** Transactions were told what the row knows of them. */
  ghost predicate ToldOk(readReq: seq<Ts>, preReq: seq<Ts>, log: Log) {
    && (forall t :: t in log.granted <==> t in preReq)
    && (forall t :: t in log.waiting <==> t in readReq)
  }

  /** No read waits without a pending prewrite below it that it can be waiting for. */
  ghost predicate WaitersBlocked(readReq: seq<Ts>, preReq: seq<Ts>) {
    forall r :: r in readReq ==> !Unblocked(preReq, r)
  }

  ghost predicate WaitersUncommitted(readReq: seq<Ts>, committed: set<Version>) {
    forall r, v :: r in readReq && v in committed ==> v.ts != r
  }

  ghost predicate RowOk(row: Row, log: Log, floor: Ts) {
    && VersionsOk(row.base, row.writeHis, log.committed, floor)
    && PendingOk(row.preReq, log.committed, floor)
    && ReadsOk(row.preReq, row.readHis, log, floor)
    && WaitersBlocked(row.readReq, row.preReq)
    && WaitersUncommitted(row.readReq, log.committed)
    && ToldOk(row.readReq, row.preReq, log)
  }

  // ----- what callers guarantee ----------------------------------------------------------

  /** A transaction prewrites a row once, writes or cancels it once if that was granted, does not go on
      while it waits for a read, and reads the row only before it has written it. Neither it nor any
      transaction with a prewrite pending is below the recycling threshold. */
  ghost predicate MayAccess(log: Log, req: Request, ts: Ts, minTs: Ts) {
    && 0 < ts && minTs <= ts && ts !in log.waiting
    && (forall p :: p in log.granted ==> minTs <= p)
    && match req
       case Read => forall v :: v in log.committed ==> v.ts != ts
       case Prewrite => ts !in log.granted && forall v :: v in log.committed ==> v.ts != ts
       case Write(_) => ts in log.granted
       case Cancel => ts in log.granted
  }

  function Extend(log: Log, req: Request, ts: Ts, rc: Rc, answers: seq<Answer>): Log {
    Log(log.answered + (set a | a in answers),
        if req.Write? then log.committed + {Version(ts, req.val)} else log.committed,
        if req.Prewrite? && rc == RcOk then log.granted + {ts}
        else if req.Write? || req.Cancel? then log.granted - {ts}
        else log.granted,
        if req.Read? && rc == Wait then log.waiting + {ts}
        else log.waiting - set a | a in answers :: a.reader)
  }

  // ----- lemmas about the lists ----------------------------------------------------------

  lemma {:induction false} ReadyReads(readReq: seq<Ts>, preReq: seq<Ts>)
    ensures forall t :: t in Ready(readReq, preReq) <==> t in readReq && Unblocked(preReq, t)
    ensures forall t :: t in StillBlocked(readReq, preReq) <==> t in readReq && !Unblocked(preReq, t)
  {
    if readReq != [] {
      ReadyReads(readReq[1..], preReq);
    }
  }

  lemma {:induction false} AnswersGiven(row: Row, rs: seq<Ts>)
    ensures forall a :: a in AnswerAll(row, rs) <==>
              a.reader in rs && a.version == Lookup(row.writeHis, row.base, a.reader)
  {
    if rs != [] {
      AnswersGiven(row, rs[1..]);
    }
  }

  lemma {:induction false} InsertAllDescending(h: seq<Ts>, rs: seq<Ts>)
    requires Descending(h)
    ensures Descending(InsertAll(h, rs))
    ensures forall t :: t in InsertAll(h, rs) <==> t in h || t in rs
    decreases rs
  {
    if rs != [] {
      InsertTsDescending(h, rs[0]);
      InsertAllDescending(InsertTs(h, rs[0]), rs[1..]);
    }
  }

  lemma {:induction false} InsertVersionDescending(h: seq<Version>, v: Version)
    requires StrictlyDescending(h)
    requires forall u :: u in h ==> u.ts != v.ts
    ensures StrictlyDescending(InsertVersion(h, v))
  {
    if h != [] && h[0].ts > v.ts {
      InsertVersionDescending(h[1..], v);
      assert forall j :: 0 <= j < |h| ==> InsertVersion(h[1..], v)[j] in InsertVersion(h[1..], v);
    }
  }

  /** On a descending history the lookup finds the newest version that is not above `ts`. */
  lemma {:induction false} LookupIsNewest(h: seq<Version>, base: Version, ts: Ts)
    requires StrictlyDescending(h)
    requires forall v :: v in h ==> v.ts > base.ts
    requires base.ts <= ts
    ensures var u := Lookup(h, base, ts);
            && (u in h || u == base)
            && u.ts <= ts
            && base.ts <= u.ts
            && forall v :: v in h && v.ts <= ts ==> v.ts <= u.ts
  {
    if h != [] && h[0].ts > ts {
      LookupIsNewest(h[1..], base, ts);
    }
  }

  // ----- each kind of access keeps the row's invariant ------------------------------------

  /** The version a permitted read is given meets `AnswerOk` once nothing pending is in the way. */
  lemma FreshAnswerOk(row: Row, log: Log, floor: Ts, r: Ts)
    requires VersionsOk(row.base, row.writeHis, log.committed, floor)
    requires 0 < r && floor <= r
    requires forall v :: v in log.committed ==> v.ts != r
    requires var u := Lookup(row.writeHis, row.base, r);
             forall p :: p in row.preReq ==> !(u.ts < p < r)
    ensures AnswerOk(row.preReq, log.committed, Answer(r, Lookup(row.writeHis, row.base, r)))
  {
    LookupIsNewest(row.writeHis, row.base, r);
  }

  lemma ReadKeepsRow(row: Row, log: Log, floor: Ts, ts: Ts)
    requires RowOk(row, log, floor) && MayAccess(log, Read, ts, floor)
    requires !ReadConflict(row, ts)
    ensures var a := Answer(ts, Lookup(row.writeHis, row.base, ts));
            RowOk(row.(readHis := InsertTs(row.readHis, ts)), log.(answered := log.answered + {a}), floor)
  {
    InsertTsDescending(row.readHis, ts);
    LookupIsNewest(row.writeHis, row.base, ts);
    FreshAnswerOk(row, log, floor, ts);
  }

  lemma BufferKeepsRow(row: Row, log: Log, floor: Ts, ts: Ts)
    requires RowOk(row, log, floor) && MayAccess(log, Read, ts, floor)
    requires ReadConflict(row, ts)
    ensures RowOk(row.(readReq := [ts] + row.readReq), log.(waiting := log.waiting + {ts}), floor)
  {
    hide VersionsOk, AnswerOk;
    assert !Unblocked(row.preReq, ts);
  }

  /** Why an admitted prewrite cannot slip between an answered read and the version it saw. */
  lemma PrewriteKeepsAnswers(row: Row, log: Log, floor: Ts, ts: Ts, a: Answer)
    requires RowOk(row, log, floor) && MayAccess(log, Prewrite, ts, floor)
    requires !PrewriteConflict(row, ts)
    requires a in log.answered
    ensures !(a.version.ts < ts < a.reader)
  {
    if ts < a.reader {
      assert WrittenBetween(row.writeHis, ts, a.reader);
    }
  }

  lemma PrewriteKeepsRow(row: Row, log: Log, floor: Ts, ts: Ts)
    requires RowOk(row, log, floor) && MayAccess(log, Prewrite, ts, floor)
    requires !PrewriteConflict(row, ts)
    ensures RowOk(row.(preReq := [ts] + row.preReq), log.(granted := log.granted + {ts}), floor)
  {
    hide VersionsOk, WaitersUncommitted;
    forall a | a in log.answered
      ensures !(a.version.ts < ts < a.reader)
    {
      PrewriteKeepsAnswers(row, log, floor, ts, a);
    }
    forall r | r in row.readReq
      ensures !Unblocked([ts] + row.preReq, r)
    {
      var p :| p in row.preReq && p < r;
      assert p in [ts] + row.preReq;
    }
  }

  /** All of the invariant except that some waiting reads may have become ready. */
  ghost predicate RowOkButWaiters(row: Row, log: Log, floor: Ts) {
    && VersionsOk(row.base, row.writeHis, log.committed, floor)
    && PendingOk(row.preReq, log.committed, floor)
    && ReadsOk(row.preReq, row.readHis, log, floor)
    && WaitersUncommitted(row.readReq, log.committed)
    && ToldOk(row.readReq, row.preReq, log)
    && (forall r :: r in row.readReq ==> floor <= r && 0 < r)
  }

  lemma WaitersAboveFloor(row: Row, log: Log, floor: Ts)
    requires RowOk(row, log, floor)
    ensures forall r :: r in row.readReq ==> floor <= r && 0 < r
  {
  }

  lemma InstallKeepsVersions(base: Version, writeHis: seq<Version>, committed: set<Version>, floor: Ts, v: Version)
    requires VersionsOk(base, writeHis, committed, floor)
    requires 0 < v.ts && floor <= v.ts
    requires forall u :: u in committed ==> u.ts != v.ts
    ensures VersionsOk(base, InsertVersion(writeHis, v), committed + {v}, floor)
  {
    InsertVersionDescending(writeHis, v);
  }

  /** The new version lies in no gap of an answered read, because the prewrite did not. */
  lemma InstallKeepsReads(row: Row, log: Log, floor: Ts, ts: Ts, val: Val)
    requires ReadsOk(row.preReq, row.readHis, log, floor) && ts in row.preReq
    ensures ReadsOk(Remove(row.preReq, ts), row.readHis, log.(committed := log.committed + {Version(ts, val)}), floor)
  {
    var log' := log.(committed := log.committed + {Version(ts, val)});
    forall a | a in log.answered
      ensures AnswerOk(Remove(row.preReq, ts), log'.committed, a)
    {
      assert AnswerOk(row.preReq, log.committed, a);
    }
  }

  lemma InstallKeepsPending(row: Row, log: Log, floor: Ts, ts: Ts, val: Val)
    requires PendingOk(row.preReq, log.committed, floor) && ToldOk(row.readReq, row.preReq, log) && ts in row.preReq
    ensures PendingOk(Remove(row.preReq, ts), log.committed + {Version(ts, val)}, floor)
    ensures ToldOk(row.readReq, Remove(row.preReq, ts), log.(granted := log.granted - {ts}))
  {
  }

  lemma InstallKeepsRow(row: Row, log: Log, floor: Ts, ts: Ts, val: Val)
    requires RowOk(row, log, floor) && MayAccess(log, Write(val), ts, floor)
    ensures RowOkButWaiters(row.(writeHis := InsertVersion(row.writeHis, Version(ts, val)),
                                 preReq := Remove(row.preReq, ts)),
                            log.(committed := log.committed + {Version(ts, val)}, granted := log.granted - {ts}), floor)
  {
    hide VersionsOk, WaitersBlocked, Unblocked, AnswerOk;
    assert ts in row.preReq;
    InstallKeepsVersions(row.base, row.writeHis, log.committed, floor, Version(ts, val));
    InstallKeepsReads(row, log, floor, ts, val);
    InstallKeepsPending(row, log, floor, ts, val);
    WaitersAboveFloor(row, log, floor);
    hide PendingOk, ToldOk, Remove;
  }

  lemma CancelKeepsRow(row: Row, log: Log, floor: Ts, ts: Ts)
    requires RowOk(row, log, floor) && MayAccess(log, Cancel, ts, floor)
    ensures RowOkButWaiters(row.(preReq := Remove(row.preReq, ts)), log.(granted := log.granted - {ts}), floor)
  {
    WaitersAboveFloor(row, log, floor);
  }

  function Released(log: Log, answers: seq<Answer>): Log {
    log.(answered := log.answered + (set a | a in answers),
         waiting := log.waiting - set a | a in answers :: a.reader)
  }

  lemma ReleaseKeepsReads(row: Row, log: Log, floor: Ts)
    requires RowOkButWaiters(row, log, floor)
    ensures var (row', answers) := ReleaseReads(row); ReadsOk(row.preReq, row'.readHis, Released(log, answers), floor)
  {
    hide AnswerOk, VersionsOk, PendingOk, WaitersUncommitted, Unblocked;
    var ready := Ready(row.readReq, row.preReq);
    var (row', answers) := ReleaseReads(row);
    InsertAllDescending(row.readHis, ready);
    ReadyReads(row.readReq, row.preReq);
    AnswersGiven(row, ready);
    forall a | a in answers
      ensures AnswerOk(row.preReq, log.committed, a)
    {
      ReadyAnswerOk(row, log, floor, a.reader);
    }
    forall r | r in row'.readHis
      ensures exists a :: a in Released(log, answers).answered && a.reader == r
    {
      if r in ready {
        assert Answer(r, Lookup(row.writeHis, row.base, r)) in Released(log, answers).answered;
      } else {
        var a :| a in log.answered && a.reader == r;
        assert a in Released(log, answers).answered;
      }
    }
  }

  lemma ReadyAnswerOk(row: Row, log: Log, floor: Ts, r: Ts)
    requires RowOkButWaiters(row, log, floor) && r in row.readReq && Unblocked(row.preReq, r)
    ensures AnswerOk(row.preReq, log.committed, Answer(r, Lookup(row.writeHis, row.base, r)))
  {
    hide ReadsOk, ToldOk, VersionsOk, PendingOk;
    FreshAnswerOk(row, log, floor, r);
  }

  /** Exactly the reads that are answered stop waiting. */
  lemma ReleaseTells(row: Row, log: Log)
    requires ToldOk(row.readReq, row.preReq, log)
    ensures var (row', answers) := ReleaseReads(row);
            ToldOk(row'.readReq, row.preReq, Released(log, answers)) && WaitersBlocked(row'.readReq, row.preReq)
  {
    hide Unblocked;
    var ready := Ready(row.readReq, row.preReq);
    var (row', answers) := ReleaseReads(row);
    ReadyReads(row.readReq, row.preReq);
    AnswersGiven(row, ready);
    forall r | r in ready
      ensures r in set a | a in answers :: a.reader
    {
      assert Answer(r, Lookup(row.writeHis, row.base, r)) in answers;
    }
  }

  lemma ReleaseKeepsRow(row: Row, log: Log, floor: Ts)
    requires RowOkButWaiters(row, log, floor)
    ensures var (row', answers) := ReleaseReads(row); RowOk(row', Released(log, answers), floor)
  {
    hide ReadsOk, VersionsOk, PendingOk, ToldOk, WaitersBlocked, Unblocked;
    ReleaseKeepsReads(row, log, floor);
    ReleaseTells(row, log);
    ReadyReads(row.readReq, row.preReq);
  }

  // ----- garbage collection --------------------------------------------------------------

  /** Recycling versions and folding the newest discarded one into the row changes no lookup
      at or above that discarded version. */
  lemma {:induction false} RecycleKeepsLookup(h: seq<Version>, base: Version, n: nat, ts: Ts)
    requires n < |h| && StrictlyDescending(h)
    requires h[n].ts <= ts
    ensures Lookup(h[..n], h[n], ts) == Lookup(h, base, ts)
  {
    if n > 0 && h[0].ts > ts {
      RecycleKeepsLookup(h[1..], base, n - 1, ts);
      assert h[..n][1..] == h[1..][..n - 1];
    }
  }

  lemma WriteGarbageCollection(row: Row, t: Ts, ts: Ts)
    requires StrictlyDescending(row.writeHis)
    requires var n := Surviving(row.writeHis, t); n < |row.writeHis| ==> row.writeHis[n].ts <= ts
    ensures var row' := RecycleWrites(row, t);
            Lookup(row'.writeHis, row'.base, ts) == Lookup(row.writeHis, row.base, ts)
  {
    var n := Surviving(row.writeHis, t);
    if n < |row.writeHis| {
      RecycleKeepsLookup(row.writeHis, row.base, n, ts);
    }
  }

  /** Recycling reads and versions changes no prewrite decision at or above the threshold. */
  lemma GarbageCollectionKeepsDecisions(cfg: Config, row: Row, t: Ts, ts: Ts)
    requires StrictlyDescending(row.writeHis) && Descending(row.readHis)
    requires t <= ts
    ensures PrewriteConflict(Collect(cfg, row, t), ts) == PrewriteConflict(row, ts)
  {
    var row' := Collect(cfg, row, t);
    RecycledVersionsAreOld(row, t);
    assert forall lo: Ts, hi: Ts :: t <= lo ==>
        WrittenBetween(row'.writeHis, lo, hi) == WrittenBetween(row.writeHis, lo, hi);
  }

  lemma RecycledVersionsAreOld(row: Row, t: Ts)
    requires StrictlyDescending(row.writeHis)
    ensures var row' := RecycleWrites(row, t);
            && row'.writeHis <= row.writeHis
            && (forall v :: v in row.writeHis && v !in row'.writeHis ==> v.ts < t && v.ts <= row'.base.ts)
            && (row'.writeHis != row.writeHis ==> row'.base in row.writeHis && row'.base.ts < t)
  {
  }

  lemma RecycleKeepsVersions(row: Row, log: Log, floor: Ts)
    requires VersionsOk(row.base, row.writeHis, log.committed, floor)
    ensures var row' := RecycleWrites(row, floor); VersionsOk(row'.base, row'.writeHis, log.committed, floor)
  {
    RecycledVersionsAreOld(row, floor);
  }

  lemma {:induction false} RecycleReadsExactly(h: seq<Ts>, t: Ts)
    requires Descending(h)
    ensures var r := RecycleReads(h, t);
            && r <= h && (|r| < |h| ==> r != [] && r[|r| - 1] < t)
            && forall i :: 0 <= i < |r| - 1 ==> r[i] >= t
    decreases |h|
  {
    if |h| >= 2 && h[|h| - 2] < t {
      RecycleReadsExactly(h[..|h| - 1], t);
    }
  }

  /** What recycling leaves: below the threshold one version and one read at most, everything from the
      threshold on, and in the row the newest version that was discarded; nothing happens while both
      histories are short, and waiting requests are never touched. */
  lemma CollectExactly(cfg: Config, row: Row, t: Ts)
    requires StrictlyDescending(row.writeHis) && Descending(row.readHis)
    ensures var row' := Collect(cfg, row, t);
            var long := |row.writeHis| > cfg.recycleLen || |row.readHis| > cfg.recycleLen;
            && (!long ==> row' == row)
            && row'.writeHis <= row.writeHis && row'.readHis <= row.readHis
            && row'.readReq == row.readReq && row'.preReq == row.preReq
            && (forall i :: |row'.writeHis| <= i < |row.writeHis| ==> row.writeHis[i].ts < t)
            && (forall i :: |row'.readHis| <= i < |row.readHis| ==> row.readHis[i] < t)
            && (long ==> forall i :: 0 <= i < |row'.writeHis| - 1 ==> row'.writeHis[i].ts >= t)
            && (long ==> forall i :: 0 <= i < |row'.readHis| - 1 ==> row'.readHis[i] >= t)
            && row'.base == if row'.writeHis == row.writeHis then row.base else row.writeHis[|row'.writeHis|]
  {
    RecycleReadsExactly(row.readHis, t);
    SurvivingExactly(row.writeHis, t);
  }

  lemma SurvivingExactly(h: seq<Version>, t: Ts)
    requires StrictlyDescending(h)
    ensures var n := Surviving(h, t);
            (forall i :: n <= i < |h| ==> h[i].ts < t) && (forall i :: 0 <= i < n - 1 ==> h[i].ts >= t)
  {
  }

  lemma CollectKeepsRow(cfg: Config, row: Row, log: Log, floor: Ts)
    requires RowOk(row, log, floor)
    ensures RowOk(Collect(cfg, row, floor), log, floor)
  {
    hide VersionsOk, PendingOk, WaitersBlocked, WaitersUncommitted, AnswerOk, ToldOk;
    assert forall x :: x in RecycleReads(row.readHis, floor) ==> x in row.readHis;
    RecycleKeepsVersions(row.(readHis := RecycleReads(row.readHis, floor)), log, floor);
  }

  // ----- one access, whole row -----------------------------------------------------------

  lemma RaiseFloor(row: Row, log: Log, floor: Ts, floor': Ts)
    requires RowOk(row, log, floor) && floor <= floor'
    requires forall p :: p in log.granted ==> floor' <= p
    ensures RowOk(row, log, floor')
  {
  }

  lemma ReadAccess(cfg: Config, row: Row, log: Log, floor: Ts, ts: Ts)
    requires RowOk(row, log, floor) && MayAccess(log, Read, ts, floor)
    ensures var out := Access(cfg, row, Read, ts, floor);
            RowOk(out.row, Extend(log, Read, ts, out.rc, out.answers), floor)
  {
    hide RowOk;
    if !ReadConflict(row, ts) {
      var a := Answer(ts, Lookup(row.writeHis, row.base, ts));
      ReadKeepsRow(row, log, floor, ts);
      assert Extend(log, Read, ts, RcOk, [a]) == log.(answered := log.answered + {a});
      CollectKeepsRow(cfg, row.(readHis := InsertTs(row.readHis, ts)), log.(answered := log.answered + {a}), floor);
    } else if |row.readReq| < cfg.maxReadReq {
      assert Extend(log, Read, ts, Wait, []) == log.(waiting := log.waiting + {ts});
      BufferKeepsRow(row, log, floor, ts);
    } else {
      assert Extend(log, Read, ts, Abort, []) == log;
    }
  }

  lemma PrewriteAccess(cfg: Config, row: Row, log: Log, floor: Ts, ts: Ts)
    requires RowOk(row, log, floor) && MayAccess(log, Prewrite, ts, floor)
    ensures var out := Access(cfg, row, Prewrite, ts, floor);
            RowOk(out.row, Extend(log, Prewrite, ts, out.rc, out.answers), floor)
  {
    hide RowOk;
    assert Extend(log, Prewrite, ts, Abort, []) == log;
    assert Extend(log, Prewrite, ts, RcOk, []) == log.(granted := log.granted + {ts});
    if !PrewriteConflict(row, ts) {
      PrewriteKeepsRow(row, log, floor, ts);
      CollectKeepsRow(cfg, row.(preReq := [ts] + row.preReq), log.(granted := log.granted + {ts}), floor);
    }
  }

  lemma WriteAccess(cfg: Config, row: Row, log: Log, floor: Ts, ts: Ts, val: Val)
    requires RowOk(row, log, floor) && MayAccess(log, Write(val), ts, floor)
    ensures var out := Access(cfg, row, Write(val), ts, floor);
            RowOk(out.row, Extend(log, Write(val), ts, out.rc, out.answers), floor)
  {
    hide RowOk;
    var row1 := row.(writeHis := InsertVersion(row.writeHis, Version(ts, val)), preReq := Remove(row.preReq, ts));
    var log1 := log.(committed := log.committed + {Version(ts, val)}, granted := log.granted - {ts});
    InstallKeepsRow(row, log, floor, ts, val);
    ReleaseKeepsRow(row1, log1, floor);
    var (row2, answers) := ReleaseReads(row1);
    CollectKeepsRow(cfg, row2, Released(log1, answers), floor);
  }

  lemma CancelAccess(cfg: Config, row: Row, log: Log, floor: Ts, ts: Ts)
    requires RowOk(row, log, floor) && MayAccess(log, Cancel, ts, floor)
    ensures var out := Access(cfg, row, Cancel, ts, floor);
            RowOk(out.row, Extend(log, Cancel, ts, out.rc, out.answers), floor)
  {
    hide RowOk;
    var row1 := row.(preReq := Remove(row.preReq, ts));
    var log1 := log.(granted := log.granted - {ts});
    CancelKeepsRow(row, log, floor, ts);
    ReleaseKeepsRow(row1, log1, floor);
    var (row2, answers) := ReleaseReads(row1);
    CollectKeepsRow(cfg, row2, Released(log1, answers), floor);
  }

  /** Every access keeps the invariant of its row. */
  lemma AccessKeepsRow(cfg: Config, row: Row, log: Log, floor: Ts, req: Request, ts: Ts)
    requires RowOk(row, log, floor) && MayAccess(log, req, ts, floor)
    ensures var out := Access(cfg, row, req, ts, floor);
            RowOk(out.row, Extend(log, req, ts, out.rc, out.answers), floor)
  {
    match req
    case Read => ReadAccess(cfg, row, log, floor, ts);
    case Prewrite => PrewriteAccess(cfg, row, log, floor, ts);
    case Write(val) => WriteAccess(cfg, row, log, floor, ts, val);
    case Cancel => CancelAccess(cfg, row, log, floor, ts);
  }

  // ----- what a request is told -----------------------------------------------------------

  /** A pending prewrite below the reader could still make the version that the reader is to see. */
  ghost predicate MustWait(log: Log, ts: Ts) {
    exists p :: p in log.granted && p < ts && forall v :: v in log.committed ==> !(p < v.ts < ts)
  }

  /** A reader above has been given a version below. */
  ghost predicate TooLate(log: Log, ts: Ts) {
    exists a :: a in log.answered && a.version.ts < ts < a.reader
  }

  /** What the row stores of a gap above the threshold is all that was ever committed there. */
  lemma WrittenIsCommitted(row: Row, log: Log, floor: Ts, lo: Ts, hi: Ts)
    requires VersionsOk(row.base, row.writeHis, log.committed, floor) && floor <= lo && 0 < lo
    ensures WrittenBetween(row.writeHis, lo, hi) <==> exists v :: v in log.committed && lo < v.ts < hi
  {
  }

  lemma ReadConflictExactly(row: Row, log: Log, floor: Ts, ts: Ts)
    requires RowOk(row, log, floor)
    ensures ReadConflict(row, ts) <==> MustWait(log, ts)
  {
    hide VersionsOk, ReadsOk, WaitersBlocked, WaitersUncommitted, WrittenBetween;
    forall p | p in row.preReq
      ensures WrittenBetween(row.writeHis, p, ts) <==> exists v :: v in log.committed && p < v.ts < ts
    {
      WrittenIsCommitted(row, log, floor, p, ts);
    }
  }

  lemma PrewriteConflictExactly(row: Row, log: Log, floor: Ts, ts: Ts)
    requires RowOk(row, log, floor) && MayAccess(log, Prewrite, ts, floor)
    ensures PrewriteConflict(row, ts) <==> TooLate(log, ts)
  {
    hide VersionsOk, PendingOk, WaitersBlocked, WaitersUncommitted, WrittenBetween, ToldOk;
    forall r: Ts
      ensures WrittenBetween(row.writeHis, ts, r) <==> exists v :: v in log.committed && ts < v.ts < r
    {
      WrittenIsCommitted(row, log, floor, ts, r);
    }
    if PrewriteConflict(row, ts) {
      var r :| r in row.readHis && ts < r && !WrittenBetween(row.writeHis, ts, r);
      var a :| a in log.answered && a.reader == r;
      assert AnswerOk(row.preReq, log.committed, a);
      assert a.version.ts < ts;
    }
    if a :| a in log.answered && a.version.ts < ts < a.reader {
      assert AnswerOk(row.preReq, log.committed, a);
      assert !WrittenBetween(row.writeHis, ts, a.reader);
    }
  }

  /** The return code of every request means what it says: a read is told RcOk exactly if it is answered at
      once, which is when no pending prewrite could still change what it is to see, and Wait exactly if it
      is buffered; a prewrite is told RcOk exactly if it is pending from now on and, with room in the
      buffer, Abort exactly if a reader above it has been given a version below it; a write or a cancel
      always succeeds and ends the prewrite. */
  ghost predicate Told(cfg: Config, row: Row, log: Log, req: Request, ts: Ts, out: Outcome) {
    match req
    case Read =>
      && (out.rc == RcOk <==> exists a :: a in out.answers && a.reader == ts)
      && (out.rc == RcOk <==> !MustWait(log, ts))
      && (out.rc == Wait <==> ts in out.row.readReq)
      && (out.rc == Abort <==> MustWait(log, ts) && |row.readReq| >= cfg.maxReadReq)
    case Prewrite =>
      && (out.rc == RcOk <==> ts in out.row.preReq)
      && (out.rc == Abort <==> TooLate(log, ts) || |row.preReq| >= cfg.maxPreReq)
      && out.rc != Wait
    case Write(_) => out.rc == RcOk && ts !in out.row.preReq
    case Cancel => out.rc == RcOk && ts !in out.row.preReq
  }

  lemma AnswersMeanWhatTheySay(cfg: Config, row: Row, log: Log, floor: Ts, req: Request, ts: Ts)
    requires RowOk(row, log, floor) && MayAccess(log, req, ts, floor)
    ensures Told(cfg, row, log, req, ts, Access(cfg, row, req, ts, floor))
  {
    hide RowOk, ReadConflict, PrewriteConflict, MustWait, TooLate, MayAccess, ReleaseReads, RecycleWrites;
    match req
    case Read =>
      ReadConflictExactly(row, log, floor, ts);
      CollectKeepsQueues(cfg, row.(readHis := InsertTs(row.readHis, ts)), floor);
      NotYetQueued(row, log, floor, Read, ts);
      assert Answer(ts, Lookup(row.writeHis, row.base, ts)) in [Answer(ts, Lookup(row.writeHis, row.base, ts))];
    case Prewrite =>
      PrewriteConflictExactly(row, log, floor, ts);
      CollectKeepsQueues(cfg, row.(preReq := [ts] + row.preReq), floor);
      NotYetQueued(row, log, floor, Prewrite, ts);
    case Write(val) =>
      WriteEnds(cfg, row, log, floor, val, ts);
    case Cancel =>
      CancelEnds(cfg, row, log, floor, ts);
  }

  lemma CollectKeepsQueues(cfg: Config, row: Row, t: Ts)
    ensures Collect(cfg, row, t).readReq == row.readReq && Collect(cfg, row, t).preReq == row.preReq
  {
  }

  lemma NotYetQueued(row: Row, log: Log, floor: Ts, req: Request, ts: Ts)
    requires RowOk(row, log, floor) && MayAccess(log, req, ts, floor)
    ensures req.Read? ==> ts !in row.readReq
    ensures req.Prewrite? ==> ts !in row.preReq
    ensures Distinct(row.preReq)
  {
  }

  lemma WriteEnds(cfg: Config, row: Row, log: Log, floor: Ts, val: Val, ts: Ts)
    requires RowOk(row, log, floor) && MayAccess(log, Write(val), ts, floor)
    ensures var out := Access(cfg, row, Write(val), ts, floor); out.rc == RcOk && ts !in out.row.preReq
  {
    hide RowOk, MayAccess;
    NotYetQueued(row, log, floor, Write(val), ts);
  }

  lemma CancelEnds(cfg: Config, row: Row, log: Log, floor: Ts, ts: Ts)
    requires RowOk(row, log, floor) && MayAccess(log, Cancel, ts, floor)
    ensures var out := Access(cfg, row, Cancel, ts, floor); out.rc == RcOk && ts !in out.row.preReq
  {
    hide RowOk, MayAccess;
    NotYetQueued(row, log, floor, Cancel, ts);
  }

  // ----- whole runs ----------------------------------------------------------------------

  datatype System = System(rows: map<Key, Row>, logs: map<Key, Log>, floor: Ts)

  ghost predicate Init(init: Store, s: System) {
    && s.rows.Keys == init.Keys && s.logs.Keys == init.Keys && s.floor == 0
    && forall k :: k in init ==>
         && s.rows[k] == Row(Version(0, init[k]), [], [], [], [])
         && s.logs[k] == Log({}, {Version(0, init[k])}, {}, {})
  }

  /** One access under the latch of row `k`; `minTs` is what get_min_ts returns now. */
  ghost predicate Accessed(cfg: Config, s: System, s': System, k: Key, req: Request, ts: Ts, minTs: Ts) {
    && k in s.rows && k in s.logs
    && s.floor <= minTs
    && (forall j, p :: j in s.logs && p in s.logs[j].granted ==> minTs <= p)
    && MayAccess(s.logs[k], req, ts, minTs)
    && var out := Access(cfg, s.rows[k], req, ts, minTs);
       s' == System(s.rows[k := out.row], s.logs[k := Extend(s.logs[k], req, ts, out.rc, out.answers)], minTs)
  }

  ghost predicate Step(cfg: Config, s: System, s': System) {
    exists k, req, ts, minTs :: Accessed(cfg, s, s', k, req, ts, minTs)
  }

  ghost predicate IsRun(cfg: Config, init: Store, run: seq<System>) {
    && run != [] && Init(init, run[0])
    && forall i :: 0 < i < |run| ==> Step(cfg, run[i - 1], run[i])
  }

  ghost predicate SystemOk(init: Store, s: System) {
    && s.rows.Keys == init.Keys && s.logs.Keys == init.Keys
    && forall k :: k in init ==>
         && RowOk(s.rows[k], s.logs[k], s.floor)
         && Version(0, init[k]) in s.logs[k].committed
  }

  lemma AccessedKeepsRow(cfg: Config, init: Store, s: System, s': System, j: Key,
                         k: Key, req: Request, ts: Ts, minTs: Ts)
    requires SystemOk(init, s) && Accessed(cfg, s, s', k, req, ts, minTs)
    requires j in init
    ensures RowOk(s'.rows[j], s'.logs[j], minTs)
    ensures s.logs[j].committed <= s'.logs[j].committed
  {
    hide RowOk, MayAccess, Access;
    RaiseFloor(s.rows[j], s.logs[j], s.floor, minTs);
    if j == k {
      AccessKeepsRow(cfg, s.rows[k], s.logs[k], minTs, req, ts);
      var out := Access(cfg, s.rows[k], req, ts, minTs);
      assert s'.rows[k] == out.row && s'.logs[k] == Extend(s.logs[k], req, ts, out.rc, out.answers);
    } else {
      assert s'.rows[j] == s.rows[j] && s'.logs[j] == s.logs[j];
    }
  }

  lemma StepKeepsSystem(cfg: Config, init: Store, s: System, s': System)
    requires SystemOk(init, s) && Step(cfg, s, s')
    ensures SystemOk(init, s')
  {
    hide RowOk, Access;
    var k, req, ts, minTs :| Accessed(cfg, s, s', k, req, ts, minTs);
    forall j | j in init
      ensures RowOk(s'.rows[j], s'.logs[j], minTs)
      ensures s.logs[j].committed <= s'.logs[j].committed
    {
      AccessedKeepsRow(cfg, init, s, s', j, k, req, ts, minTs);
    }
  }

  lemma {:induction false} RunKeepsSystem(cfg: Config, init: Store, run: seq<System>)
    requires IsRun(cfg, init, run)
    ensures SystemOk(init, run[|run| - 1])
  {
    if |run| > 1 {
      RunKeepsSystem(cfg, init, run[..|run| - 1]);
      StepKeepsSystem(cfg, init, run[|run| - 2], run[|run| - 1]);
    }
  }

  /** What the transaction with timestamp `ts` has committed, over all rows. */
  ghost function CommittedAt(logs: map<Key, Log>, ts: Ts): (w: Store)
    ensures forall k :: k in w <==>
              k in logs && ts > 0 && exists v :: v in logs[k].committed && v.ts == ts
    ensures forall k :: k in w ==> Version(ts, w[k]) in logs[k].committed
  {
    map k | k in logs && ts > 0 && (exists v :: v in logs[k].committed && v.ts == ts) ::
      var v :| v in logs[k].committed && v.ts == ts; v.val
  }

  /** The transactions with timestamps below `n`, one after the other. */
  ghost function SerialBefore(logs: map<Key, Log>, n: Ts): (h: seq<Txn>) {
    seq(n, ts requires 0 <= ts < n => Txn(map[], CommittedAt(logs, ts)))
  }

  lemma SerialBeforeAt(logs: map<Key, Log>, n: Ts, k: Key, i: Ts)
    requires k in logs && i < n
    ensures var h := SerialBefore(logs, n);
            && |h| == n
            && (k in h[i].wrote <==> i > 0 && exists v :: v in logs[k].committed && v.ts == i)
            && (k in h[i].wrote ==> Version(i, h[i].wrote[k]) in logs[k].committed)
  {
    assert SerialBefore(logs, n)[i] == Txn(map[], CommittedAt(logs, i));
  }

  /** Serial execution up to a reader leaves in the row the last version committed below it. */
  lemma SerialValue(init: Store, logs: map<Key, Log>, k: Key, v: Version, n: Ts)
    requires k in init && k in logs
    requires v in logs[k].committed && v.ts < n
    requires Version(0, init[k]) in logs[k].committed
    requires forall u, w :: u in logs[k].committed && w in logs[k].committed && u.ts == w.ts ==> u == w
    requires forall u :: u in logs[k].committed ==> !(v.ts < u.ts < n)
    ensures var final := Replay(init, SerialBefore(logs, n)); k in final && final[k] == v.val
  {
    hide SerialBefore, CommittedAt;
    var h := SerialBefore(logs, n);
    SerialBeforeAt(logs, n, k, 0);
    forall i | 0 <= i < n
      ensures |h| == n && (k in h[i].wrote ==> i <= v.ts && 0 < i)
    {
      SerialBeforeAt(logs, n, k, i);
    }
    if v.ts == 0 {
      ReplayUntouched(init, h, k);
    } else {
      SerialBeforeAt(logs, n, k, v.ts);
      ReplayLastWriter(init, h, k, v.ts);
    }
  }

  lemma AnsweredValue(init: Store, s: System, k: Key, a: Answer)
    requires SystemOk(init, s) && k in init && a in s.logs[k].answered
    ensures var final := Replay(init, SerialBefore(s.logs, a.reader)); k in final && final[k] == a.version.val
  {
    assert AnswerOk(s.rows[k].preReq, s.logs[k].committed, a);
    SerialValue(init, s.logs, k, a.version, a.reader);
  }

  /** In every run, every answered read, whether answered at once or after waiting, returned what
      the transactions with smaller timestamps leave in the row when executed one after the
      other, including those that committed only after the read was answered. */
  lemma ReadsAreSerial(cfg: Config, init: Store, run: seq<System>, k: Key, a: Answer)
    requires IsRun(cfg, init, run) && k in init
    requires k in run[|run| - 1].logs && a in run[|run| - 1].logs[k].answered
    ensures var final := Replay(init, SerialBefore(run[|run| - 1].logs, a.reader));
            k in final && final[k] == a.version.val
  {
    RunKeepsSystem(cfg, init, run);
    AnsweredValue(init, run[|run| - 1], k, a);
  }

  lemma WaitersHaveBlockers(row: Row)
    requires WaitersBlocked(row.readReq, row.preReq)
    ensures forall r :: r in row.readReq ==> exists p :: p in row.preReq && p < r
    ensures row.preReq == [] ==> row.readReq == []
  {
    if row.readReq != [] {
      assert !Unblocked(row.preReq, row.readReq[0]);
    }
  }

  /** In every run no read is left waiting once the prewrites below it are gone, and a row without
      pending prewrites has no waiting read. */
  lemma NoReadIsStranded(cfg: Config, init: Store, run: seq<System>, k: Key)
    requires IsRun(cfg, init, run) && k in init
    ensures var s := run[|run| - 1];
            && k in s.rows
            && (forall r :: r in s.rows[k].readReq ==> exists p :: p in s.rows[k].preReq && p < r)
            && (s.rows[k].preReq == [] ==> s.rows[k].readReq == [])
  {
    RunKeepsSystem(cfg, init, run);
    WaitersHaveBlockers(run[|run| - 1].rows[k]);
  }

  /** In every run, every request is told the truth, by what was ever granted, answered and committed. */
  lemma EveryAnswerIsRight(cfg: Config, init: Store, run: seq<System>, s': System,
                           k: Key, req: Request, ts: Ts, minTs: Ts)
    requires IsRun(cfg, init, run) && Accessed(cfg, run[|run| - 1], s', k, req, ts, minTs)
    ensures var s := run[|run| - 1];
            Told(cfg, s.rows[k], s.logs[k], req, ts, Access(cfg, s.rows[k], req, ts, minTs))
  {
    hide RowOk, Access, Told, MayAccess, Step;
    RunKeepsSystem(cfg, init, run);
    var s := run[|run| - 1];
    RaiseFloor(s.rows[k], s.logs[k], s.floor, minTs);
    AnswersMeanWhatTheySay(cfg, s.rows[k], s.logs[k], minTs, req, ts);
  }

  /** In every run the prewrites granted and not ended are exactly those pending on the row, and the reads
      told to wait and not answered exactly those buffered. */
  lemma GrantedArePending(cfg: Config, init: Store, run: seq<System>, k: Key, t: Ts)
    requires IsRun(cfg, init, run) && k in init
    ensures var s := run[|run| - 1];
            && k in s.rows && k in s.logs
            && (t in s.logs[k].granted <==> t in s.rows[k].preReq)
            && (t in s.logs[k].waiting <==> t in s.rows[k].readReq)
  {
    hide Step, VersionsOk, PendingOk, ReadsOk;
    RunKeepsSystem(cfg, init, run);
    assert RowOk(run[|run| - 1].rows[k], run[|run| - 1].logs[k], run[|run| - 1].floor);
  }
}

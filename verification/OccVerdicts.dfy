/** What a verdict of central validation means, over whole runs: the lists hold exactly the transactions they
    should, and a transaction is refused exactly if one of them has written what it read or writes. */
module OccVerdicts {
  import opened SerialHistory
  import opened Occ

  /** The verdict as a condition on the window (start, finish] of the history and on the active write sets. */
  lemma ValidExactly(his: seq<His>, acts: seq<Act>, start: nat, finish: nat, rset: seq<Key>, wset: seq<Key>)
    requires Descending(his)
    ensures Valid(his, acts, start, finish, rset, wset) <==>
            && (forall h :: h in his && start < h.tn <= finish ==> Disjoint(h.wset, rset))
            && (forall a :: a in acts ==> Disjoint(a.wset, rset) && Disjoint(a.wset, wset))
  {
    hide Disjoint;
    if start <= finish {
      ScanCoversWindow(his, start, finish, rset);
    }
    assert forall i :: 0 <= i < |acts| ==> acts[i] in acts;
  }

  // ----- the lists --------------------------------------------------------------------------

  ghost predicate Once(acts: seq<Act>) {
    forall i, j :: 0 <= i < j < |acts| ==> acts[i].tx != acts[j].tx
  }

  lemma OnceTail(acts: seq<Act>)
    requires Once(acts) && acts != []
    ensures Once(acts[1..]) && forall a :: a in acts[1..] ==> a.tx != acts[0].tx
    ensures forall a :: a in acts <==> a == acts[0] || a in acts[1..]
  {
    assert acts == [acts[0]] + acts[1..];
  }

  lemma OnceCons(h: Act, r: seq<Act>)
    requires Once(r) && forall a :: a in r ==> a.tx != h.tx
    ensures Once([h] + r)
  {
    assert forall i :: 0 <= i < |r| ==> r[i] in r;
  }

  /** Taking the first entry of a transaction out takes exactly its entry out. */
  lemma {:induction false} RemoveActiveExactly(acts: seq<Act>, x: Tx)
    requires Once(acts)
    ensures Once(RemoveActive(acts, x)) && forall a :: a in RemoveActive(acts, x) <==> a in acts && a.tx != x
  {
    hide Once;
    if acts != [] {
      OnceTail(acts);
      if acts[0].tx != x {
        RemoveActiveExactly(acts[1..], x);
        OnceCons(acts[0], RemoveActive(acts[1..], x));
      }
    }
  }

  /** On the active list are transactions after their snapshot that have not committed or aborted. */
  ghost predicate ActsOk(acts: seq<Act>, trans: map<Tx, Tran>) {
    && Once(acts)
    && forall a :: a in acts ==>
         && a.tx in trans && a.wset == trans[a.tx].wset && a.wset != []
         && (trans[a.tx].phase.Testing? || trans[a.tx].phase.Passed? || trans[a.tx].phase.Failed?)
  }

  /** In a history are committed transactions. */
  ghost predicate HisOk(his: seq<His>, trans: map<Tx, Tran>) {
    forall h :: h in his ==>
      h.tx in trans && trans[h.tx].phase.Committed? && h.wset == trans[h.tx].wset && h.wset != []
  }

  /** A snapshot showed transactions that had taken theirs before. */
  ghost predicate ShownOk(p: Phase, x: Tx, trans: map<Tx, Tran>) {
    HasSnapshot(p) ==>
      && HisOk(p.his, trans)
      && forall a :: a in p.acts ==>
           a.tx != x && a.tx in trans && a.wset == trans[a.tx].wset && !trans[a.tx].phase.Running?
  }

  ghost predicate ListsOk(s: System) {
    && ActsOk(s.active, s.trans) && HisOk(s.history, s.trans)
    && forall x :: x in s.trans ==> ShownOk(s.trans[x].phase, x, s.trans)
  }

  /** Read and write sets stay, the committed stay committed, and nobody runs again. */
  ghost predicate TransLater(ts: map<Tx, Tran>, ts': map<Tx, Tran>) {
    forall x :: x in ts ==>
      && x in ts' && ts'[x].rset == ts[x].rset && ts'[x].wset == ts[x].wset
      && (ts[x].phase.Committed? ==> ts'[x] == ts[x]) && (!ts[x].phase.Running? ==> !ts'[x].phase.Running?)
  }

  lemma ShownStays(p: Phase, x: Tx, ts: map<Tx, Tran>, ts': map<Tx, Tran>)
    requires ShownOk(p, x, ts) && TransLater(ts, ts')
    ensures ShownOk(p, x, ts')
  {
  }

  lemma HisStays(his: seq<His>, ts: map<Tx, Tran>, ts': map<Tx, Tran>)
    requires HisOk(his, ts) && TransLater(ts, ts')
    ensures HisOk(his, ts')
  {
  }

  lemma BeginLists(s: System, s': System, x: Tx, rset: seq<Key>, wset: seq<Key>)
    requires ListsOk(s) && Begin(s, s', x, rset, wset)
    ensures ActsOk(s'.active, s'.trans) && HisOk(s'.history, s'.trans) && TransLater(s.trans, s'.trans)
    ensures ShownOk(s'.trans[x].phase, x, s'.trans)
  {
  }

  lemma SnapshotLists(s: System, s': System, x: Tx)
    requires ListsOk(s) && Snapshot(s, s', x)
    ensures ActsOk(s'.active, s'.trans) && HisOk(s'.history, s'.trans) && TransLater(s.trans, s'.trans)
    ensures ShownOk(s'.trans[x].phase, x, s'.trans)
  {
    assert forall a :: a in s.active ==> a.tx != x;
  }

  lemma TestLists(s: System, s': System, x: Tx)
    requires ListsOk(s) && Test(s, s', x)
    ensures ActsOk(s'.active, s'.trans) && HisOk(s'.history, s'.trans) && TransLater(s.trans, s'.trans)
    ensures ShownOk(s'.trans[x].phase, x, s'.trans)
  {
    hide Valid;
    assert ShownOk(s.trans[x].phase, x, s.trans);
  }

  lemma LeaveLists(s: System, s': System, x: Tx)
    requires ListsOk(s) && (LeaveActive(s, s', x) || FinishAbort(s, s', x))
    ensures ActsOk(s'.active, s'.trans) && HisOk(s'.history, s'.trans) && TransLater(s.trans, s'.trans)
    ensures x in s'.trans && ShownOk(s'.trans[x].phase, x, s'.trans)
  {
    RemoveActiveExactly(s.active, x);
  }

  lemma FinishActs(s: System, s': System, x: Tx)
    requires ActsOk(s.active, s.trans) && Finish(s, s', x)
    ensures ActsOk(s'.active, s'.trans)
  {
    RemoveActiveExactly(s.active, x);
    assert forall a :: a in s.active && s.trans[x].wset == [] ==> a.tx != x;
  }

  lemma FinishLists(s: System, s': System, x: Tx)
    requires ListsOk(s) && Finish(s, s', x)
    ensures ActsOk(s'.active, s'.trans) && HisOk(s'.history, s'.trans) && TransLater(s.trans, s'.trans)
    ensures ShownOk(s'.trans[x].phase, x, s'.trans)
  {
    hide ActsOk, RemoveActive;
    FinishActs(s, s', x);
    assert ShownOk(s.trans[x].phase, x, s.trans);
  }

  lemma StepLists(s: System, s': System)
    requires ListsOk(s) && Step(s, s')
    ensures ListsOk(s')
  {
    hide ActsOk, HisOk, ShownOk, TransLater, Begin, Snapshot, Test, LeaveActive, Finish, FinishAbort;
    var x :| StepBy(s, s', x);
    if rset, wset :| Begin(s, s', x, rset, wset) {
      BeginLists(s, s', x, rset, wset);
    } else if Snapshot(s, s', x) {
      SnapshotLists(s, s', x);
    } else if Test(s, s', x) {
      TestLists(s, s', x);
    } else if Finish(s, s', x) {
      FinishLists(s, s', x);
    } else {
      LeaveLists(s, s', x);
    }
    OnlyOneMoves(s, s', x);
    forall y | y in s'.trans
      ensures ShownOk(s'.trans[y].phase, y, s'.trans)
    {
      if y != x {
        ShownStays(s.trans[y].phase, y, s.trans, s'.trans);
      }
    }
  }

  lemma OnlyOneMoves(s: System, s': System, x: Tx)
    requires StepBy(s, s', x)
    ensures forall y :: y in s'.trans && y != x ==> y in s.trans && s'.trans[y] == s.trans[y]
  {
  }

  lemma {:induction false} RunLists(run: seq<System>)
    requires IsRun(run)
    ensures ListsOk(run[|run| - 1])
  {
    if |run| > 1 {
      hide ListsOk, Step;
      RunLists(run[..|run| - 1]);
      StepLists(run[|run| - 2], run[|run| - 1]);
    }
  }

  // ----- verdicts ---------------------------------------------------------------------------

  /** Another transaction, shown to `x` by its snapshot, stands in its way: it committed after `x` started and
      wrote what `x` read, or it was active and writes what `x` read or writes. */
  ghost predicate InTheWay(s: System, x: Tx, y: Tx) {
    && x in s.trans && y in s.trans && y != x && HasSnapshot(s.trans[x].phase)
    && var t, p := s.trans[x], s.trans[x].phase;
       var wset := s.trans[y].wset;
       || (!Disjoint(wset, t.rset) && exists h :: h in p.his && h.tx == y && t.start < h.tn <= p.finish)
       || (!(Disjoint(wset, t.rset) && Disjoint(wset, t.wset)) && exists a :: a in p.acts && a.tx == y)
  }

  ghost predicate Blocked(s: System, x: Tx) {
    exists y :: InTheWay(s, x, y)
  }

  /** In every run a transaction passes its test exactly if nobody is in its way, and is refused exactly if
      somebody is; everybody in a history has committed, and everybody active has taken a snapshot. */
  lemma VerdictExactly(run: seq<System>, s': System, x: Tx)
    requires IsRun(run) && Test(run[|run| - 1], s', x)
    ensures var s := run[|run| - 1];
            && (s'.trans[x].phase.Passed? <==> !Blocked(s, x))
            && (s'.trans[x].phase.Failed? <==> Blocked(s, x))
  {
    hide Step, Valid, Disjoint, ListedOk, OrderOk;
    RunKeeps(run);
    RunLists(run);
    var s := run[|run| - 1];
    var t := s.trans[x];
    var p := t.phase;
    assert TestedOk(t) && ShownOk(p, x, s.trans);
    ValidExactly(p.his, p.acts, t.start, p.finish, t.rset, t.wset);
    if h :| h in p.his && t.start < h.tn <= p.finish && !Disjoint(h.wset, t.rset) {
      assert InTheWay(s, x, h.tx);
    }
    if a :| a in p.acts && !(Disjoint(a.wset, t.rset) && Disjoint(a.wset, t.wset)) {
      assert InTheWay(s, x, a.tx);
    }
  }
}

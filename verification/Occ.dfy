/** Parallel central validation (concurrency_control/occ.cpp): a critical section takes a snapshot of
    the history and of the active transactions, the write sets in it are tested outside of it, and
    further critical sections leave the active list and append to the history. */
module Occ {
  import opened SerialHistory

  type Tx = nat

  /** A finished transaction in the history: its write set and its transaction number. */
  datatype His = His(tx: Tx, wset: seq<Key>, tn: nat)

  /** A transaction in the active list with its write set. */
  datatype Act = Act(tx: Tx, wset: seq<Key>)

  // ----- the scan ---------------------------------------------------------------------------

  predicate Disjoint(a: seq<Key>, b: seq<Key>) {
    forall k :: k in a ==> k !in b
  }

  /** The first loop: skip what is newer than the snapshot. */
  function SkipNewer(his: seq<His>, finish: nat): seq<His> {
    if his != [] && his[0].tn > finish then SkipNewer(his[1..], finish) else his
  }

  /** The second loop: test what finished after the start. */
  function HistoryValid(his: seq<His>, start: nat, rset: seq<Key>): bool {
    if his != [] && his[0].tn > start then
      Disjoint(his[0].wset, rset) && HistoryValid(his[1..], start, rset)
    else true
  }

  function ActiveValid(acts: seq<Act>, rset: seq<Key>, wset: seq<Key>): bool {
    forall i :: 0 <= i < |acts| ==> Disjoint(acts[i].wset, rset) && Disjoint(acts[i].wset, wset)
  }

  function Valid(his: seq<His>, acts: seq<Act>, start: nat, finish: nat, rset: seq<Key>, wset: seq<Key>): bool {
    (finish > start ==> HistoryValid(SkipNewer(his, finish), start, rset)) && ActiveValid(acts, rset, wset)
  }

  ghost predicate Descending(his: seq<His>) {
    forall i, j :: 0 <= i < j < |his| ==> his[i].tn > his[j].tn
  }

  /** On a strictly descending history the two loops test exactly the window (start, finish]. */
  lemma {:induction false} ScanCoversWindow(his: seq<His>, start: nat, finish: nat, rset: seq<Key>)
    requires Descending(his) && start <= finish
    ensures HistoryValid(SkipNewer(his, finish), start, rset) <==>
            forall h :: h in his && start < h.tn <= finish ==> Disjoint(h.wset, rset)
  {
    if his != [] {
      assert his == [his[0]] + his[1..];
      if his[0].tn > finish {
        ScanCoversWindow(his[1..], start, finish, rset);
      } else {
        HistoryValidIsWindow(his, start, rset);
        assert forall h :: h in his ==> h.tn <= finish by {
          assert forall i :: 0 <= i < |his| ==> his[i].tn <= his[0].tn;
        }
      }
    }
  }

  lemma {:induction false} HistoryValidIsWindow(his: seq<His>, start: nat, rset: seq<Key>)
    requires Descending(his)
    ensures HistoryValid(his, start, rset) <==> forall h :: h in his && h.tn > start ==> Disjoint(h.wset, rset)
  {
    if his != [] {
      assert his == [his[0]] + his[1..];
      if his[0].tn > start {
        HistoryValidIsWindow(his[1..], start, rset);
      } else {
        assert forall i :: 0 <= i < |his| ==> his[i].tn <= his[0].tn;
      }
    }
  }

  function RemoveActive(acts: seq<Act>, x: Tx): seq<Act> {
    if acts == [] then [] else if acts[0].tx == x then acts[1..] else [acts[0]] + RemoveActive(acts[1..], x)
  }

  lemma {:induction false} RemoveActiveKeeps(acts: seq<Act>, x: Tx)
    ensures forall a :: a in acts && a.tx != x ==> a in RemoveActive(acts, x)
  {
    if acts != [] {
      RemoveActiveKeeps(acts[1..], x);
      assert acts == [acts[0]] + acts[1..];
    }
  }

  // ----- runs -------------------------------------------------------------------------------

  datatype Phase =
    | Running
    | Testing(finish: nat, acts: seq<Act>, his: seq<His>)
    | Passed(finish: nat, acts: seq<Act>, his: seq<His>)
    | Failed
    | Committed(finish: nat, acts: seq<Act>, his: seq<His>)
    | Aborted

  datatype Tran = Tran(start: nat, rset: seq<Key>, wset: seq<Key>, phase: Phase)

  /** `order` lists the transactions by the moment of their snapshot. */
  datatype System = System(clock: nat, active: seq<Act>, history: seq<His>, trans: map<Tx, Tran>, order: seq<Tx>)

  /** Every timestamp is drawn from one strictly increasing source. */
  ghost predicate Begin(s: System, s': System, x: Tx, rset: seq<Key>, wset: seq<Key>) {
    && x !in s.trans
    && s' == s.(clock := s.clock + 1, trans := s.trans[x := Tran(s.clock + 1, rset, wset, Running)])
  }

  ghost predicate Snapshot(s: System, s': System, x: Tx) {
    && x in s.trans && s.trans[x].phase.Running?
    && var t := s.trans[x];
       s' == s.(clock := s.clock + 1,
                active := if t.wset == [] then s.active else [Act(x, t.wset)] + s.active,
                trans := s.trans[x := t.(phase := Testing(s.clock + 1, s.active, s.history))],
                order := s.order + [x])
  }

  ghost predicate Test(s: System, s': System, x: Tx) {
    && x in s.trans && s.trans[x].phase.Testing?
    && var t := s.trans[x];
       var p := t.phase;
       s' == s.(trans := s.trans[x := t.(phase :=
                  if Valid(p.his, p.acts, t.start, p.finish, t.rset, t.wset) then Passed(p.finish, p.acts, p.his)
                  else Failed)])
  }

  /** A failed transaction leaves the active list. */
  ghost predicate LeaveActive(s: System, s': System, x: Tx) {
    && x in s.trans && s.trans[x].phase.Failed?
    && s' == s.(active := RemoveActive(s.active, x))
  }

  ghost predicate Finish(s: System, s': System, x: Tx) {
    && x in s.trans && s.trans[x].phase.Passed?
    && var t := s.trans[x];
       var p := t.phase;
       var done := s.trans[x := t.(phase := Committed(p.finish, p.acts, p.his))];
       if t.wset == [] then s' == s.(trans := done)
       else s' == s.(clock := s.clock + 1, active := RemoveActive(s.active, x),
                     history := [His(x, t.wset, s.clock + 1)] + s.history, trans := done)
  }

  /** Finishing with an abort, from any phase before the commit. */
  ghost predicate FinishAbort(s: System, s': System, x: Tx) {
    && x in s.trans && !s.trans[x].phase.Committed? && !s.trans[x].phase.Testing?
    && s' == s.(active := RemoveActive(s.active, x), trans := s.trans[x := s.trans[x].(phase := Aborted)])
  }

  ghost predicate StepBy(s: System, s': System, x: Tx) {
    || (exists rset, wset :: Begin(s, s', x, rset, wset))
    || Snapshot(s, s', x) || Test(s, s', x) || LeaveActive(s, s', x) || Finish(s, s', x) || FinishAbort(s, s', x)
  }

  ghost predicate Step(s: System, s': System) {
    exists x :: StepBy(s, s', x)
  }

  ghost predicate IsRun(run: seq<System>) {
    && run != [] && run[0] == System(run[0].clock, [], [], map[], [])
    && forall i :: 0 < i < |run| ==> Step(run[i - 1], run[i])
  }

  // ----- the invariant ----------------------------------------------------------------------

  ghost predicate HistoryOk(clock: nat, his: seq<His>) {
    Descending(his) && forall h :: h in his ==> h.tn <= clock
  }

  ghost predicate Lost(p: Phase) {
    p.Failed? || p.Aborted?
  }

  /** A transaction that took its snapshot, may still commit and writes something is on the active list
      until it commits, and in the history from then on. */
  ghost predicate ListedOk(active: seq<Act>, history: seq<His>, x: Tx, t: Tran) {
    && (t.wset != [] && (t.phase.Testing? || t.phase.Passed?) ==> Act(x, t.wset) in active)
    && (t.wset != [] && t.phase.Committed? ==> exists h :: h in history && h.tx == x && h.wset == t.wset)
  }

  /** A transaction's snapshot shows an earlier one, unless that writes nothing or is lost. */
  ghost predicate Shows(acts: seq<Act>, his: seq<His>, x: Tx, t: Tran) {
    || t.wset == [] || Lost(t.phase) || Act(x, t.wset) in acts
    || exists h :: h in his && h.tx == x && h.wset == t.wset
  }

  ghost predicate HasSnapshot(p: Phase) {
    p.Testing? || p.Passed? || p.Committed?
  }

  ghost predicate TestedOk(t: Tran) {
    && (HasSnapshot(t.phase) ==> HistoryOk(t.phase.finish, t.phase.his) && t.start < t.phase.finish)
    && (t.phase.Passed? || t.phase.Committed? ==>
          Valid(t.phase.his, t.phase.acts, t.start, t.phase.finish, t.rset, t.wset))
  }

  ghost predicate OrderOk(s: System) {
    && (forall i :: 0 <= i < |s.order| ==> s.order[i] in s.trans && !s.trans[s.order[i]].phase.Running?)
    && (forall i, j :: 0 <= i < j < |s.order| && HasSnapshot(s.trans[s.order[j]].phase) ==>
          var p := s.trans[s.order[j]].phase;
          Shows(p.acts, p.his, s.order[i], s.trans[s.order[i]]))
  }

  ghost predicate TransOk(s: System) {
    forall x :: x in s.trans ==>
      TestedOk(s.trans[x]) && ListedOk(s.active, s.history, x, s.trans[x]) && s.trans[x].start <= s.clock
  }

  ghost predicate Inv(s: System) {
    HistoryOk(s.clock, s.history) && TransOk(s) && OrderOk(s)
  }

  lemma BeginKeeps(s: System, s': System, x: Tx, rset: seq<Key>, wset: seq<Key>)
    requires Inv(s) && Begin(s, s', x, rset, wset)
    ensures Inv(s')
  {
  }

  lemma SnapshotKeeps(s: System, s': System, x: Tx)
    requires Inv(s) && Snapshot(s, s', x)
    ensures Inv(s')
  {
  }

  lemma TestKeeps(s: System, s': System, x: Tx)
    requires Inv(s) && Test(s, s', x)
    ensures Inv(s')
  {
  }

  lemma LeaveActiveKeeps(s: System, s': System, x: Tx)
    requires Inv(s) && LeaveActive(s, s', x)
    ensures Inv(s')
  {
    RemoveActiveKeeps(s.active, x);
  }

  /** The new history entry is the newest, and others stay listed as they were. */
  lemma FinishKeepsLists(s: System, s': System, x: Tx)
    requires Inv(s) && Finish(s, s', x)
    ensures HistoryOk(s'.clock, s'.history) && TransOk(s')
  {
    hide OrderOk;
    RemoveActiveKeeps(s.active, x);
    var t := s.trans[x];
    if t.wset != [] {
      var h := His(x, t.wset, s.clock + 1);
      assert h in s'.history;
      forall y | y in s'.trans
        ensures ListedOk(s'.active, s'.history, y, s'.trans[y])
      {
        assert ListedOk(s.active, s.history, y, s.trans[y]);
      }
    }
  }

  lemma FinishKeeps(s: System, s': System, x: Tx)
    requires Inv(s) && Finish(s, s', x)
    ensures Inv(s')
  {
    FinishKeepsLists(s, s', x);
    hide TransOk, HistoryOk;
  }

  lemma FinishAbortKeeps(s: System, s': System, x: Tx)
    requires Inv(s) && FinishAbort(s, s', x)
    ensures Inv(s')
  {
    RemoveActiveKeeps(s.active, x);
  }

  lemma StepKeeps(s: System, s': System)
    requires Inv(s) && Step(s, s')
    ensures Inv(s')
  {
    hide Inv, Begin, Snapshot, Test, LeaveActive, Finish, FinishAbort;
    var x :| StepBy(s, s', x);
    if rset, wset :| Begin(s, s', x, rset, wset) {
      BeginKeeps(s, s', x, rset, wset);
    } else if Snapshot(s, s', x) {
      SnapshotKeeps(s, s', x);
    } else if Test(s, s', x) {
      TestKeeps(s, s', x);
    } else if LeaveActive(s, s', x) {
      LeaveActiveKeeps(s, s', x);
    } else if Finish(s, s', x) {
      FinishKeeps(s, s', x);
    } else {
      FinishAbortKeeps(s, s', x);
    }
  }

  lemma {:induction false} RunKeeps(run: seq<System>)
    requires IsRun(run)
    ensures Inv(run[|run| - 1])
  {
    if |run| > 1 {
      hide Inv, Step;
      RunKeeps(run[..|run| - 1]);
      StepKeeps(run[|run| - 2], run[|run| - 1]);
    }
  }

  /** `e` was in the history that `p` saw. */
  ghost predicate SeenFinished(p: Phase, e: Tx, wset: seq<Key>, tn: nat) {
    HasSnapshot(p) && His(e, wset, tn) in p.his
  }

  /** In every run, of two committed transactions the one that took its snapshot first has written
      nothing that the other read, unless it had finished before the other started; and nothing that
      the other wrote, unless it had finished before the other's snapshot. */
  lemma CommittedDoNotConflict(run: seq<System>, i: nat, j: nat)
    requires IsRun(run) && i < j < |run[|run| - 1].order|
    requires var s := run[|run| - 1];
             && s.order[i] in s.trans && s.order[j] in s.trans
             && s.trans[s.order[i]].phase.Committed? && s.trans[s.order[j]].phase.Committed?
    ensures var s := run[|run| - 1];
            var e, l := s.trans[s.order[i]], s.trans[s.order[j]];
            && (|| Disjoint(e.wset, l.rset)
                || exists tn: nat :: SeenFinished(l.phase, s.order[i], e.wset, tn) && tn <= l.start)
            && (Disjoint(e.wset, l.wset) || exists tn: nat :: SeenFinished(l.phase, s.order[i], e.wset, tn))
  {
    hide Step, ListedOk;
    RunKeeps(run);
    var s := run[|run| - 1];
    var x, y := s.order[i], s.order[j];
    var e, l := s.trans[x], s.trans[y];
    assert TestedOk(l);
    var p := l.phase;
    assert Shows(p.acts, p.his, x, e);
    ScanCoversWindow(p.his, l.start, p.finish, l.rset);
    if e.wset != [] {
      if Act(x, e.wset) in p.acts {
        assert Disjoint(e.wset, l.rset) && Disjoint(e.wset, l.wset);
      } else {
        var h :| h in p.his && h.tx == x && h.wset == e.wset;
        assert h == His(x, e.wset, h.tn);
        assert SeenFinished(p, x, e.wset, h.tn);
      }
    }
  }

  /** In every run the history is strictly descending, as the early exit of the scan needs. */
  lemma HistoryStaysDescending(run: seq<System>)
    requires IsRun(run)
    ensures Descending(run[|run| - 1].history)
  {
    hide Step, TransOk, OrderOk;
    RunKeeps(run);
  }
}

/** The tids with which a Silo transaction may commit. Starting from any reachable state, the commit tid
    is harmless exactly if nobody it can still deceive remembers it: otherwise an overtaken reader can go
    on to lock, validate and commit over the new version. */
module SiloFresh {
  import opened SerialHistory
  import opened SiloRuns

  /** What can follow when `x` commits with `tid` in state `s` and every later commit tid is fresh. */
  ghost predicate Continues(s: System, x: Tx, tid: Tid, rest: seq<System>) {
    rest != [] && Commit(s, rest[0], x, tid) && Path(rest, rest[0], rest[|rest| - 1])
  }

  ghost predicate Path(run: seq<System>, s: System, s': System) {
    && run != [] && run[0] == s && run[|run| - 1] == s'
    && forall i :: 0 < i < |run| ==> Step(run[i - 1], run[i])
  }

  ghost predicate MayCommit(s: System, x: Tx) {
    && x in s.trans && s.trans[x].phase == Validating && s.trans[x].stamp < |s.order|
    && s.trans[x].checked == s.trans[x].copies.Keys - s.trans[x].wrote.Keys
  }

  /** The state after `x` has committed with `tid`. */
  ghost function Committed(s: System, x: Tx, tid: Tid): System
    requires MayCommit(s, x)
  {
    var t := s.trans[x];
    s.(trans := s.trans[x := t.(phase := Installing, tid := tid)],
       order := s.order[t.stamp := Done(x, t.copies, t.wrote)])
  }

  /** `y` has copied a row that `x` is about to replace. */
  ghost predicate Shares(s: System, x: Tx, y: Tx) {
    x in s.trans && y in s.trans && y != x && Undecided(s.trans[y])
    && exists k :: k in s.trans[y].copies && k in s.trans[x].wrote
  }

  /** Apart from the rows of `x` nothing stands in the way of `y`: it has not reached its lock point, its
      other copies are current, its rows are free but for the locks of `x` and its own, and it remembers
      one tid for all the rows of `x`, of which it saw at least one with another value than `x` writes. */
  ghost predicate Overtaken(s: System, x: Tx, y: Tx) {
    && x in s.trans && y in s.trans && y != x && s.trans[y].phase in {Running, Locking}
    && var copies, wrote := s.trans[y].copies, s.trans[x].wrote;
       && (forall k :: k in copies && k !in wrote ==> k in s.cells && s.cells[k].tid == copies[k].tid)
       && (forall k :: k in copies && k in s.cells ==> s.cells[k].holder in {Free, HeldBy(x), HeldBy(y)})
       && (forall j, k :: j in copies && j in wrote && k in copies && k in wrote ==> copies[j].tid == copies[k].tid)
       && exists k :: k in copies && k in wrote && wrote[k] != copies[k].val
  }

  ghost predicate AllOvertaken(s: System, x: Tx) {
    forall y :: Shares(s, x, y) ==> Overtaken(s, x, y)
  }

  // ----- paths ----------------------------------------------------------------------------

  lemma Join(a: seq<System>, b: seq<System>, s: System, s': System, s'': System) returns (run: seq<System>)
    requires Path(a, s, s') && Path(b, s', s'')
    ensures Path(run, s, s'')
  {
    hide Step;
    run := a + b[1..];
    forall i | 0 < i < |run|
      ensures Step(run[i - 1], run[i])
    {
      if i >= |a| {
        assert run[i] == b[i - |a| + 1] && run[i - 1] == b[i - |a|];
      }
    }
  }

  lemma After(step: System, next: System, run: seq<System>, last: System) returns (run': seq<System>)
    requires Step(step, next) && Path(run, next, last)
    ensures Path(run', step, last)
  {
    hide Step;
    assert Path([step, next], step, next);
    run' := Join([step, next], run, step, next, last);
  }

  // ----- the committed transaction installs its rows --------------------------------------

  ghost function Installed(s: System, x: Tx): System
    requires x in s.trans && s.trans[x].locked <= s.trans[x].wrote.Keys
  {
    var t := s.trans[x];
    s.(cells := map k | k in s.cells ::
                  if k in t.locked then Cell(t.wrote[k], t.tid, At(t.stamp), Free) else s.cells[k],
       trans := s.trans[x := t.(locked := {})])
  }

  lemma {:induction false} InstallAll(s: System, x: Tx) returns (run: seq<System>)
    requires x in s.trans && s.trans[x].phase == Installing
    requires s.trans[x].locked <= s.trans[x].wrote.Keys && s.trans[x].locked <= s.cells.Keys
    ensures Path(run, s, Installed(s, x))
    decreases |s.trans[x].locked|
  {
    hide Step;
    var t := s.trans[x];
    if t.locked == {} {
      assert Installed(s, x).cells == s.cells;
      assert Installed(s, x).trans == s.trans;
      run := [s];
    } else {
      var k :| k in t.locked;
      var s' := s.(cells := s.cells[k := Cell(t.wrote[k], t.tid, At(t.stamp), Free)],
                   trans := s.trans[x := t.(locked := t.locked - {k})]);
      assert Step(s, s') by { InstallIsStep(s, s', x, k); }
      run := InstallAll(s', x);
      assert Installed(s', x).cells == Installed(s, x).cells;
      assert Installed(s', x).trans == Installed(s, x).trans;
      run := After(s, s', run, Installed(s, x));
    }
  }

  lemma InstallIsStep(s: System, s': System, x: Tx, k: Key)
    requires InstallRow(s, s', x, k)
    ensures Step(s, s')
  {
  }

  // ----- an undecided transaction runs to its commit --------------------------------------

  ghost function AllLocked(s: System, y: Tx): System
    requires y in s.trans
  {
    var t := s.trans[y];
    s.(cells := map k | k in s.cells :: if k in t.wrote then s.cells[k].(holder := HeldBy(y)) else s.cells[k],
       trans := s.trans[y := t.(locked := t.wrote.Keys)])
  }

  ghost predicate CanLock(s: System, y: Tx) {
    && y in s.trans && s.trans[y].phase == Locking
    && s.trans[y].locked <= s.trans[y].wrote.Keys <= s.trans[y].copies.Keys <= s.cells.Keys
    && forall k :: k in s.trans[y].wrote ==>
         && s.cells[k].tid == s.trans[y].copies[k].tid
         && s.cells[k].holder == if k in s.trans[y].locked then HeldBy(y) else Free
  }

  ghost function Unlocked(t: Tran): set<Key> {
    t.wrote.Keys - t.locked
  }

  lemma {:induction false} LockAll(s: System, y: Tx) returns (run: seq<System>)
    requires y in s.trans && CanLock(s, y)
    ensures Path(run, s, AllLocked(s, y))
    decreases |Unlocked(s.trans[y])|
  {
    hide Step, Unlocked, AllLocked, CanLock;
    if Unlocked(s.trans[y]) == {} {
      LockNone(s, y);
      run := [s];
    } else {
      var s' := LockOne(s, y);
      run := LockAll(s', y);
      run := After(s, s', run, AllLocked(s, y));
    }
  }

  lemma LockNone(s: System, y: Tx)
    requires CanLock(s, y) && Unlocked(s.trans[y]) == {}
    ensures AllLocked(s, y) == s
  {
    NothingLeft(s.trans[y].locked, s.trans[y].wrote.Keys);
    assert AllLocked(s, y).cells == s.cells;
    assert AllLocked(s, y).trans == s.trans;
  }

  lemma LockOne(s: System, y: Tx) returns (s': System)
    requires CanLock(s, y) && Unlocked(s.trans[y]) != {}
    ensures y in s'.trans && Step(s, s') && CanLock(s', y) && AllLocked(s', y) == AllLocked(s, y)
    ensures |Unlocked(s'.trans[y])| < |Unlocked(s.trans[y])|
  {
    hide Step;
    var t := s.trans[y];
    var k :| k in Unlocked(t);
    s' := s.(cells := s.cells[k := s.cells[k].(holder := HeldBy(y))],
             trans := s.trans[y := t.(locked := t.locked + {k})]);
    LockIsStep(s, s', y, k);
    assert Unlocked(s'.trans[y]) == Unlocked(t) - {k};
    assert AllLocked(s', y).cells == AllLocked(s, y).cells;
    assert AllLocked(s', y).trans == AllLocked(s, y).trans;
  }

  lemma NothingLeft(a: set<Key>, b: set<Key>)
    requires a <= b && b - a == {}
    ensures a == b
  {
    assert forall k :: k in b && k !in a ==> k in b - a;
  }

  lemma LockIsStep(s: System, s': System, x: Tx, k: Key)
    requires LockRow(s, s', x, k)
    ensures Step(s, s')
  {
  }

  ghost function AllChecked(s: System, y: Tx): System
    requires y in s.trans
  {
    s.(trans := s.trans[y := s.trans[y].(checked := s.trans[y].copies.Keys - s.trans[y].wrote.Keys)])
  }

  ghost predicate CanCheck(s: System, y: Tx) {
    && y in s.trans && s.trans[y].phase == Validating
    && s.trans[y].checked <= s.trans[y].copies.Keys - s.trans[y].wrote.Keys
    && forall k :: k in s.trans[y].copies && k !in s.trans[y].wrote ==>
         k in s.cells && s.cells[k].holder == Free && s.cells[k].tid == s.trans[y].copies[k].tid
  }

  ghost function Unchecked(t: Tran): set<Key> {
    t.copies.Keys - t.wrote.Keys - t.checked
  }

  lemma {:induction false} CheckAll(s: System, y: Tx) returns (run: seq<System>)
    requires y in s.trans && CanCheck(s, y)
    ensures Path(run, s, AllChecked(s, y))
    decreases |Unchecked(s.trans[y])|
  {
    hide Step, Unchecked, AllChecked, CanCheck;
    if Unchecked(s.trans[y]) == {} {
      CheckNone(s, y);
      run := [s];
    } else {
      var s' := CheckOne(s, y);
      run := CheckAll(s', y);
      run := After(s, s', run, AllChecked(s, y));
    }
  }

  lemma CheckNone(s: System, y: Tx)
    requires CanCheck(s, y) && Unchecked(s.trans[y]) == {}
    ensures AllChecked(s, y) == s
  {
    NothingLeft(s.trans[y].checked, s.trans[y].copies.Keys - s.trans[y].wrote.Keys);
    assert AllChecked(s, y).trans == s.trans;
  }

  lemma CheckOne(s: System, y: Tx) returns (s': System)
    requires CanCheck(s, y) && Unchecked(s.trans[y]) != {}
    ensures y in s'.trans && Step(s, s') && CanCheck(s', y) && AllChecked(s', y) == AllChecked(s, y)
    ensures |Unchecked(s'.trans[y])| < |Unchecked(s.trans[y])|
  {
    hide Step;
    var t := s.trans[y];
    var k :| k in Unchecked(t);
    s' := s.(trans := s.trans[y := t.(checked := t.checked + {k})]);
    CheckIsStep(s, s', y, k);
    assert Unchecked(s'.trans[y]) == Unchecked(t) - {k};
    assert AllChecked(s', y).trans == AllChecked(s, y).trans;
  }

  lemma CheckIsStep(s: System, s': System, x: Tx, k: Key)
    requires CheckRow(s, s', x, k)
    ensures Step(s, s')
  {
  }

  /** There is always a tid that no transaction remembers. */
  lemma FreshTidExists(s: System, y: Tx) returns (tid: Tid)
    requires y in s.trans
    ensures FreshTid(s, y, tid)
  {
    var tids := set x, k | x in s.trans && k in s.trans[x].copies :: s.trans[x].copies[k].tid;
    tid := Beyond(tids);
    assert forall x, k :: x in s.trans && k in s.trans[x].copies ==> s.trans[x].copies[k].tid in tids;
  }

  /** Nothing stands in the way of `y`: every copy carries the tid of its row, and the rows are free or its own. */
  ghost predicate Unhindered(s: System, y: Tx) {
    && y in s.trans && s.trans[y].phase in {Running, Locking}
    && ShapeOk(s.trans[y], s.cells.Keys)
    && forall k :: k in s.trans[y].copies ==>
         && s.cells[k].tid == s.trans[y].copies[k].tid
         && s.cells[k].holder == if k in s.trans[y].locked then HeldBy(y) else Free
  }

  /** `y` locks its write set, starting to lock if it has not yet. */
  lemma ReachLocks(s: System, y: Tx) returns (run: seq<System>, s': System)
    requires Unhindered(s, y)
    ensures s' == s.(trans := s.trans[y := s.trans[y].(phase := Locking)])
    ensures CanLock(s', y) && Path(run, s, AllLocked(s', y))
  {
    hide Step, Path;
    s' := s.(trans := s.trans[y := s.trans[y].(phase := Locking)]);
    run := LockAll(s', y);
    if s.trans[y].phase == Running {
      StartIsStep(s, s', y);
      run := After(s, s', run, AllLocked(s', y));
    } else {
      assert s'.trans == s.trans;
    }
  }

  lemma StartIsStep(s: System, s': System, x: Tx)
    requires StartLocking(s, s', x)
    ensures Step(s, s')
  {
  }

  lemma LockPointIsStep(s: System, s': System, x: Tx)
    requires LockPoint(s, s', x)
    ensures Step(s, s')
  {
  }

  lemma CommitIsStep(s: System, s': System, x: Tx, tid: Tid)
    requires Commit(s, s', x, tid) && FreshTid(s, x, tid)
    ensures Step(s, s')
  {
  }

  /** With its write set locked, `y` reaches its lock point, checks its reads and commits. */
  lemma ReachCommit(s: System, y: Tx) returns (run: seq<System>, s': System)
    requires y in s.trans && s.trans[y].phase == Locking && s.trans[y].checked == {}
    requires s.trans[y].locked == s.trans[y].wrote.Keys
    requires forall k :: k in s.trans[y].copies && k !in s.trans[y].wrote ==>
               k in s.cells && s.cells[k].holder == Free && s.cells[k].tid == s.trans[y].copies[k].tid
    ensures Path(run, s, s') && s'.order == s.order + [Done(y, s.trans[y].copies, s.trans[y].wrote)]
  {
    hide Step, Path, FreshTid;
    var t := s.trans[y];
    var s1 := s.(trans := s.trans[y := t.(phase := Validating, stamp := |s.order|)],
                 order := s.order + [Open(y, t.wrote)]);
    LockPointIsStep(s, s1, y);
    run := CheckAll(s1, y);
    var s2 := AllChecked(s1, y);
    var tid := FreshTidExists(s2, y);
    s' := Committed(s2, y, tid);
    CommitIsStep(s2, s', y, tid);
    var one := Single(s');
    one := After(s2, s', one, s');
    run := Join(run, one, s1, s2, s');
    run := After(s, s1, run, s');
  }

  lemma Single(s: System) returns (run: seq<System>)
    ensures Path(run, s, s)
  {
    run := [s];
  }

  lemma RunToCommit(s: System, y: Tx) returns (run: seq<System>, s': System)
    requires Unhindered(s, y)
    ensures Path(run, s, s') && s'.order == s.order + [Done(y, s.trans[y].copies, s.trans[y].wrote)]
  {
    hide Step, Path;
    var s1;
    run, s1 := ReachLocks(s, y);
    var s2 := AllLocked(s1, y);
    var more;
    more, s' := ReachCommit(s2, y);
    run := Join(run, more, s, s2, s');
  }

  // ----- the exact condition --------------------------------------------------------------

  lemma InstalledUnhindered(init: Store, s: System, x: Tx, tid: Tid, y: Tx, k: Key)
    requires Inv(init, s) && MayCommit(s, x) && Overtaken(s, x, y)
    requires k in s.trans[y].copies && k in s.trans[x].wrote && s.trans[y].copies[k].tid == tid
    ensures var s1 := Committed(s, x, tid);
            && s1.trans[x].locked <= s1.trans[x].wrote.Keys && s1.trans[x].locked <= s1.cells.Keys
            && Unhindered(Installed(s1, x), y)
  {
    hide OrderOk, CellOk, PendingTidsOk;
    assert TranOk(init, s.cells, s.order, x, s.trans[x]);
    assert TranOk(init, s.cells, s.order, y, s.trans[y]);
    var s2 := Installed(Committed(s, x, tid), x);
    assert s2.cells.Keys == s.cells.Keys;
    forall j | j in s.trans[y].copies
      ensures s2.cells[j].tid == s2.trans[y].copies[j].tid
      ensures s2.cells[j].holder == if j in s2.trans[y].locked then HeldBy(y) else Free
    {
      assert j in s.trans[x].wrote <==> j in s.trans[x].locked;
      assert s.cells[j].holder == HeldBy(x) <==> j in s.trans[x].locked;
      assert s.cells[j].holder == HeldBy(y) <==> j in s.trans[y].locked;
    }
  }

  /** Whoever committed a version of a row that `x` holds is placed before `x`. */
  lemma OthersWroteBefore(init: Store, s: System, x: Tx, k: Key, i: nat)
    requires Inv(init, s) && x in s.trans && s.trans[x].phase == Validating && k in s.trans[x].wrote
    requires Wrote(s.order, i, k)
    ensures i < s.trans[x].stamp
  {
    hide OrderOk, PendingTidsOk;
    assert TranOk(init, s.cells, s.order, x, s.trans[x]);
    assert CellOk(init, s.order, k, s.cells[k]);
    assert s.cells[k].holder == HeldBy(x);
  }

  /** Placed after `x`, a transaction that has not seen what `x` wrote makes the log not serial. */
  lemma MissedWriteIsNotSerial(init: Store, s: System, x: Tx, k: Key, d: Slot)
    requires Inv(init, s) && MayCommit(s, x) && k in s.trans[x].wrote
    requires d.Done? && k in d.copies && d.copies[k].val != s.trans[x].wrote[k]
    ensures !IsSerial(init, History(s.order[s.trans[x].stamp := Done(x, s.trans[x].copies, s.trans[x].wrote)] + [d]))
  {
    hide Inv;
    var p, n := s.trans[x].stamp, |s.order|;
    var order := s.order[p := Done(x, s.trans[x].copies, s.trans[x].wrote)] + [d];
    var h := History(order);
    forall i | p < i < n
      ensures k !in h[i].wrote
    {
      if Wrote(s.order, i, k) {
        OthersWroteBefore(init, s, x, k, i);
      }
    }
    ReplayLastWriter(init, h[..n], k, p);
    assert h[n].seen[k] == d.copies[k].val;
  }

  /** From every reachable state: if `x` commits with a tid that an overtaken transaction remembers for
      a row of `x`, then that transaction can go on to commit, and the log is not serial. */
  lemma ReusedTidBreaksOrder(init: Store, run: seq<System>, x: Tx, tid: Tid, y: Tx, k: Key)
    returns (rest: seq<System>)
    requires IsRun(init, run) && MayCommit(run[|run| - 1], x) && Overtaken(run[|run| - 1], x, y)
    requires var s := run[|run| - 1];
             k in s.trans[y].copies && k in s.trans[x].wrote && s.trans[y].copies[k].tid == tid
    ensures Continues(run[|run| - 1], x, tid, rest)
    ensures !IsSerial(init, History(rest[|rest| - 1].order))
  {
    hide Step, Inv, Init, Path, Overtaken, IsSerial, History, Installed, Unhindered;
    RunKeeps(init, run);
    var s := run[|run| - 1];
    var j := DifferentValue(s, x, y);
    var s1 := Committed(s, x, tid);
    InstalledUnhindered(init, s, x, tid, y, k);
    rest := InstallAll(s1, x);
    var s2 := Installed(s1, x);
    InstalledKeeps(s1, x, y);
    var more, s3 := RunToCommit(s2, y);
    rest := Join(rest, more, s1, s2, s3);
    MissedWriteIsNotSerial(init, s, x, j, s3.order[|s.order|]);
    PathEnds(rest, s1, s3);
  }

  lemma PathEnds(run: seq<System>, s: System, s': System)
    requires Path(run, s, s')
    ensures run != [] && run[0] == s && run[|run| - 1] == s'
  {
  }

  lemma InstalledKeeps(s: System, x: Tx, y: Tx)
    requires x in s.trans && s.trans[x].locked <= s.trans[x].wrote.Keys && y in s.trans && y != x
    ensures Installed(s, x).order == s.order && y in Installed(s, x).trans && Installed(s, x).trans[y] == s.trans[y]
  {
  }

  lemma DifferentValue(s: System, x: Tx, y: Tx) returns (k: Key)
    requires Overtaken(s, x, y)
    ensures x in s.trans && y in s.trans && y != x
    ensures k in s.trans[y].copies && k in s.trans[x].wrote && s.trans[x].wrote[k] != s.trans[y].copies[k].val
  {
    k :| k in s.trans[y].copies && k in s.trans[x].wrote && s.trans[x].wrote[k] != s.trans[y].copies[k].val;
  }

  /** In every reachable state where `x` may commit and everybody who shares a row with it has been
      overtaken: whatever happens afterwards, the committed transactions are serial in lock-point order,
      exactly if the commit tid is fresh. */
  lemma SerialExactlyIfFresh(init: Store, run: seq<System>, x: Tx, tid: Tid)
    requires IsRun(init, run) && MayCommit(run[|run| - 1], x)
    requires AllOvertaken(run[|run| - 1], x)
    ensures FreshTid(run[|run| - 1], x, tid) <==>
            forall rest: seq<System> ::
              Continues(run[|run| - 1], x, tid, rest) ==> IsSerial(init, History(rest[|rest| - 1].order))
  {
    hide Step, Inv, Init, Overtaken, IsSerial, History, Path;
    var s := run[|run| - 1];
    if FreshTid(s, x, tid) {
      forall rest: seq<System> | Continues(s, x, tid, rest)
        ensures IsSerial(init, History(rest[|rest| - 1].order))
      {
        FreshIsSerial(init, run, x, tid, rest);
      }
    } else {
      var y, k := Remembers(s, x, tid);
      var rest := ReusedTidBreaksOrder(init, run, x, tid, y, k);
    }
  }

  lemma Remembers(s: System, x: Tx, tid: Tid) returns (y: Tx, k: Key)
    requires x in s.trans && !FreshTid(s, x, tid)
    ensures Shares(s, x, y) && k in s.trans[y].copies && k in s.trans[x].wrote && s.trans[y].copies[k].tid == tid
  {
    y, k :| y in s.trans && y != x && Undecided(s.trans[y]) && k in s.trans[y].copies && k in s.trans[x].wrote
      && s.trans[y].copies[k].tid == tid;
  }

  lemma FreshIsSerial(init: Store, run: seq<System>, x: Tx, tid: Tid, rest: seq<System>)
    requires IsRun(init, run) && FreshTid(run[|run| - 1], x, tid) && Continues(run[|run| - 1], x, tid, rest)
    ensures IsSerial(init, History(rest[|rest| - 1].order))
  {
    hide Step, Init, IsSerial, History, FreshTid;
    var all := run + rest;
    CommitIsStep(run[|run| - 1], rest[0], x, tid);
    forall i | 0 < i < |all|
      ensures Step(all[i - 1], all[i])
    {
      if i >= |run| {
        assert all[i] == rest[i - |run|];
        assert i > |run| ==> all[i - 1] == rest[i - |run| - 1];
      }
    }
    CommittedAreSerial(init, all);
  }
}

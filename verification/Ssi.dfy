/** Antidependency tracking under SSI: rows with read locks, write locks and a version history
    (concurrency_control/row_ssi.cpp), and the table of incoming and outgoing conflicts
    (concurrency_control/ssi.cpp). */
module Ssi {
  import opened SerialHistory

  type Tx = nat

  datatype Rc = RcOk | Abort
  datatype State = Running | Committed | Aborted

  /** Who read under this transaction's writes, whose writes it read under, its state and commit time. */
  datatype Conflicts = Conflicts(ins: set<Tx>, outs: set<Tx>, state: State, commitTs: nat)

  /** The in/out table. An absent entry reads as running and without conflicts in; setting does nothing. */
  type Table = map<Tx, Conflicts>

  function StateOf(t: Table, x: Tx): State {
    if x in t then t[x].state else Running
  }

  function CommitTsOf(t: Table, x: Tx): nat {
    if x in t then t[x].commitTs else 0
  }

  /** A pivot: conflicts in and conflicts out. An absent entry counts as having conflicts out only. */
  predicate HasIn(t: Table, x: Tx) {
    x in t && t[x].ins != {}
  }

  predicate HasOut(t: Table, x: Tx) {
    x in t ==> t[x].outs != {}
  }

  function AddIn(t: Table, x: Tx, y: Tx): Table {
    if x in t then t[x := t[x].(ins := t[x].ins + {y})] else t
  }

  function AddOut(t: Table, x: Tx, y: Tx): Table {
    if x in t then t[x := t[x].(outs := t[x].outs + {y})] else t
  }

  function SetState(t: Table, x: Tx, st: State): Table {
    if x in t then t[x := t[x].(state := st)] else t
  }

  function SetCommitTs(t: Table, x: Tx, ts: nat): Table {
    if x in t then t[x := t[x].(commitTs := ts)] else t
  }

  /** `r` read a version older than the write of `w`. */
  function Mark(t: Table, r: Tx, w: Tx): Table {
    AddOut(AddIn(t, w, r), r, w)
  }

  /** A reader meets several writers. */
  function MarkWriters(t: Table, r: Tx, ws: seq<Tx>): Table {
    if ws == [] then t else Mark(MarkWriters(t, r, ws[..|ws| - 1]), r, ws[|ws| - 1])
  }

  /** A writer meets several readers. */
  function MarkReaders(t: Table, w: Tx, rs: seq<Tx>): Table {
    if rs == [] then t else Mark(MarkReaders(t, w, rs[..|rs| - 1]), rs[|rs| - 1], w)
  }

  /** clear_Conflict: an aborted transaction disappears from the sets of those it conflicted with. */
  function Clear(t: Table, x: Tx): Table {
    if x !in t then t else
      map y | y in t ::
        t[y].(outs := if y in t[x].ins then t[y].outs - {x} else t[y].outs,
              ins := if y in t[x].outs then t[y].ins - {x} else t[y].ins)
  }

  // ----- rows -------------------------------------------------------------------------------

  datatype Version = Version(ts: nat, tx: Tx)

  /** Read locks and write locks, most recent first, the versions, newest first, and pending prewrites. */
  datatype Row = Row(readLocks: seq<Tx>, writeLocks: seq<Tx>, his: seq<Version>, preq: seq<Tx>)

  /** All others on a lock list. */
  function Others(ls: seq<Tx>, x: Tx): seq<Tx> {
    if ls == [] then [] else
      var n := |ls| - 1;
      if ls[n] == x then Others(ls[..n], x) else Others(ls[..n], x) + [ls[n]]
  }

  /** The writers of versions newer than the start of a reader. */
  function Newer(his: seq<Version>, start: nat): seq<Tx> {
    if his != [] && his[0].ts > start then [his[0].tx] + Newer(his[1..], start) else []
  }

  /** The timestamp of the version a reader gets; 0 for the base row. */
  function VersionAt(his: seq<Version>, start: nat): nat {
    if his == [] then 0 else if his[0].ts > start then VersionAt(his[1..], start) else his[0].ts
  }

  function Read(r: Row, t: Table, x: Tx, start: nat): (Row, Table, nat) {
    (r.(readLocks := [x] + r.readLocks),
     MarkWriters(MarkWriters(t, x, Others(r.writeLocks, x)), x, Newer(r.his, start)),
     VersionAt(r.his, start))
  }

  /** A reader that committed after the writer's start and has a conflict in already. */
  predicate Dangerous(t: Table, y: Tx, start: nat) {
    StateOf(t, y) == Committed && CommitTsOf(t, y) > start && HasIn(t, y)
  }

  predicate SomeDangerous(t: Table, rs: seq<Tx>, x: Tx, start: nat) {
    exists i :: 0 <= i < |rs| && rs[i] != x && Dangerous(t, rs[i], start)
  }

  /** Readers that are still concurrent with the writer. */
  predicate Concurrent(t: Table, y: Tx, start: nat) {
    StateOf(t, y) != Aborted && !(StateOf(t, y) == Committed && CommitTsOf(t, y) <= start)
  }

  function ConcurrentReaders(t: Table, rs: seq<Tx>, x: Tx, start: nat): seq<Tx> {
    if rs == [] then [] else
      var n := |rs| - 1;
      var rest := ConcurrentReaders(t, rs[..n], x, start);
      if rs[n] != x && Concurrent(t, rs[n], start) then rest + [rs[n]] else rest
  }

  function Prewrite(r: Row, t: Table, x: Tx, start: nat, maxPreq: nat): (Rc, Row, Table) {
    var r1 := r.(writeLocks := [x] + r.writeLocks);
    if SomeDangerous(t, r.readLocks, x, start) then (Abort, r1, t) else
      var t1 := MarkReaders(t, x, ConcurrentReaders(t, r.readLocks, x, start));
      if |r.preq| < maxPreq then (RcOk, r1.(preq := [x] + r.preq), t1) else (Abort, r1, t1)
  }

  /** Only the first entry of the transaction is unlinked. */
  function Unlink(ls: seq<Tx>, x: Tx): seq<Tx> {
    if ls == [] then [] else if ls[0] == x then ls[1..] else [ls[0]] + Unlink(ls[1..], x)
  }

  function InsertVersion(his: seq<Version>, v: Version): seq<Version> {
    if his == [] || his[0].ts <= v.ts then [v] + his else [his[0]] + InsertVersion(his[1..], v)
  }

  function Install(r: Row, x: Tx, ts: nat): Row {
    Row(r.readLocks, Unlink(r.writeLocks, x), InsertVersion(r.his, Version(ts, x)), Unlink(r.preq, x))
  }

  function Cancel(r: Row, x: Tx): Row {
    Row(Unlink(r.readLocks, x), Unlink(r.writeLocks, x), r.his, Unlink(r.preq, x))
  }

  /** Old versions go, but not the newest one below the threshold. */
  function Recycle(his: seq<Version>, th: nat): seq<Version> {
    if |his| >= 2 && his[|his| - 2].ts < th then Recycle(his[..|his| - 1], th) else his
  }

  // ----- what marking does ------------------------------------------------------------------

  ghost predicate Marked(t: Table, r: Tx, w: Tx) {
    (w in t ==> r in t[w].ins) && (r in t ==> w in t[r].outs)
  }

  /** Conflicts are only added. */
  ghost predicate Grows(t: Table, t': Table) {
    && t'.Keys == t.Keys
    && forall y :: y in t ==>
         && t[y].ins <= t'[y].ins && t[y].outs <= t'[y].outs
         && t'[y].state == t[y].state && t'[y].commitTs == t[y].commitTs
  }

  lemma MarkOk(t: Table, r: Tx, w: Tx)
    ensures Grows(t, Mark(t, r, w)) && Marked(Mark(t, r, w), r, w)
  {
  }

  lemma GrowsTransitive(t: Table, t': Table, t'': Table)
    requires Grows(t, t') && Grows(t', t'')
    ensures Grows(t, t'')
  {
  }

  lemma GrowsKeepsMarked(t: Table, t': Table, r: Tx, w: Tx)
    requires Grows(t, t') && Marked(t, r, w)
    ensures Marked(t', r, w)
  {
  }

  lemma {:induction false} MarkWritersOk(t: Table, r: Tx, ws: seq<Tx>)
    ensures var t' := MarkWriters(t, r, ws); Grows(t, t') && forall w :: w in ws ==> Marked(t', r, w)
  {
    if ws != [] {
      hide Mark, Grows, Marked;
      var n := |ws| - 1;
      var s, t' := MarkWriters(t, r, ws[..n]), MarkWriters(t, r, ws);
      MarkWritersOk(t, r, ws[..n]);
      MarkOk(s, r, ws[n]);
      GrowsTransitive(t, s, t');
      forall w | w in ws
        ensures Marked(t', r, w)
      {
        if w != ws[n] {
          assert w in ws[..n];
          GrowsKeepsMarked(s, t', r, w);
        }
      }
    }
  }

  lemma {:induction false} MarkReadersOk(t: Table, w: Tx, rs: seq<Tx>)
    ensures var t' := MarkReaders(t, w, rs); Grows(t, t') && forall r :: r in rs ==> Marked(t', r, w)
  {
    if rs != [] {
      hide Mark, Grows, Marked;
      var n := |rs| - 1;
      var s, t' := MarkReaders(t, w, rs[..n]), MarkReaders(t, w, rs);
      MarkReadersOk(t, w, rs[..n]);
      MarkOk(s, rs[n], w);
      GrowsTransitive(t, s, t');
      forall r | r in rs
        ensures Marked(t', r, w)
      {
        if r != rs[n] {
          assert r in rs[..n];
          GrowsKeepsMarked(s, t', r, w);
        }
      }
    }
  }

  lemma {:induction false} OthersMembers(ls: seq<Tx>, x: Tx)
    ensures forall y :: y in Others(ls, x) <==> y in ls && y != x
  {
    if ls != [] {
      OthersMembers(ls[..|ls| - 1], x);
    }
  }

  lemma {:induction false} ConcurrentMembers(t: Table, rs: seq<Tx>, x: Tx, start: nat)
    ensures forall y :: y in ConcurrentReaders(t, rs, x, start) <==> y in rs && y != x && Concurrent(t, y, start)
  {
    if rs != [] {
      hide Concurrent;
      ConcurrentMembers(t, rs[..|rs| - 1], x, start);
    }
  }

  lemma {:induction false} UnlinkKeeps(ls: seq<Tx>, x: Tx)
    ensures forall y :: y in ls && y != x ==> y in Unlink(ls, x)
    ensures forall y :: y in Unlink(ls, x) ==> y in ls
  {
    if ls != [] {
      UnlinkKeeps(ls[1..], x);
    }
  }

  // ----- the history ------------------------------------------------------------------------

  ghost predicate Descending(his: seq<Version>) {
    forall i, j :: 0 <= i < j < |his| ==> his[i].ts >= his[j].ts
  }

  /** A reader gets the newest version not after its start, and newer versions are all met. */
  lemma {:induction false} ReaderMeetsNewer(his: seq<Version>, start: nat, v: Version)
    requires Descending(his) && v in his && v.ts > VersionAt(his, start)
    ensures v.tx in Newer(his, start)
  {
    assert forall i :: 0 <= i < |his| ==> his[i].ts <= his[0].ts;
    if his[0].ts > start && v != his[0] {
      assert v in his[1..];
      ReaderMeetsNewer(his[1..], start, v);
    }
  }

  lemma {:induction false} VersionAtLeast(his: seq<Version>, start: nat, v: Version)
    requires Descending(his) && v in his && v.ts <= start
    ensures v.ts <= VersionAt(his, start)
  {
    if his[0].ts > start {
      assert v in his[1..];
      VersionAtLeast(his[1..], start, v);
    } else {
      var i :| 0 <= i < |his| && his[i] == v;
    }
  }

  /** What a reader gets: the timestamp of a version, or 0 for the base row, not after its start, and no
      version of the history lies between the two. */
  lemma {:induction false} VersionAtExactly(his: seq<Version>, start: nat)
    requires Descending(his)
    ensures var v := VersionAt(his, start);
            && v <= start && (v == 0 || exists u :: u in his && u.ts == v)
            && forall u :: u in his ==> !(v < u.ts <= start)
  {
    assert forall i :: 0 <= i < |his| ==> his[i].ts <= his[0].ts;
    if his != [] && his[0].ts > start {
      VersionAtExactly(his[1..], start);
      assert forall u :: u in his ==> u == his[0] || u in his[1..];
      if VersionAt(his, start) != 0 {
        var u :| u in his[1..] && u.ts == VersionAt(his[1..], start);
        assert u in his;
      }
    } else if his != [] {
      assert his[0] in his;
    }
  }

  /** The writers a reader meets are exactly those of versions newer than its start. */
  lemma {:induction false} NewerExactly(his: seq<Version>, start: nat, w: Tx)
    requires Descending(his)
    ensures w in Newer(his, start) <==> exists v :: v in his && v.ts > start && v.tx == w
  {
    if his != [] && his[0].ts > start {
      NewerExactly(his[1..], start, w);
      assert his == [his[0]] + his[1..];
      assert his[0] in his;
      if v :| v in his && v.ts > start && v.tx == w && v != his[0] {
        assert v in his[1..];
      }
    } else if his != [] {
      assert forall i :: 0 <= i < |his| ==> his[i].ts <= his[0].ts;
    }
  }

  lemma {:induction false} InsertVersionOk(his: seq<Version>, v: Version)
    requires Descending(his)
    ensures Descending(InsertVersion(his, v)) && forall u :: u in InsertVersion(his, v) <==> u in his || u == v
  {
    if his != [] && his[0].ts > v.ts {
      InsertVersionOk(his[1..], v);
      var r := InsertVersion(his[1..], v);
      assert forall i :: 0 <= i < |r| ==> r[i] in r;
      assert forall i :: 0 <= i < |his| ==> his[i].ts <= his[0].ts;
    }
  }

  /** What is recycled is older than a version that stays and is below the threshold. */
  lemma {:induction false} RecycleOk(his: seq<Version>, th: nat)
    requires Descending(his)
    ensures Descending(Recycle(his, th)) && Recycle(his, th) <= his
    ensures forall u :: u in his && u !in Recycle(his, th) ==> exists v :: v in Recycle(his, th) && u.ts <= v.ts < th
  {
    var n := |his| - 1;
    if n >= 1 && his[n - 1].ts < th {
      RecycleOk(his[..n], th);
      var r := Recycle(his[..n], th);
      forall u | u in his && u !in r
        ensures exists v :: v in r && u.ts <= v.ts < th
      {
        var w := his[n - 1];
        assert w in his[..n] && his[n].ts <= w.ts;
        if u == his[n] && w !in r {
          var v :| v in r && w.ts <= v.ts < th;
        } else if u != his[n] {
          assert u in his[..n];
        }
      }
    }
  }

  /** Below the threshold one version at most is left, and from the threshold on all are. */
  lemma {:induction false} RecycleExactly(his: seq<Version>, th: nat)
    requires Descending(his)
    ensures var r := Recycle(his, th);
            && r <= his && (forall i :: |r| <= i < |his| ==> his[i].ts < th)
            && (|r| < |his| ==> r != []) && forall i :: 0 <= i < |r| - 1 ==> r[i].ts >= th
  {
    var n := |his| - 1;
    if n >= 1 && his[n - 1].ts < th {
      RecycleExactly(his[..n], th);
    }
  }

  // ----- exactly which marks ----------------------------------------------------------------

  lemma {:induction false} MarkWritersExactly(t: Table, r: Tx, ws: seq<Tx>, y: Tx)
    requires y in t
    ensures var t' := MarkWriters(t, r, ws);
            && t'.Keys == t.Keys
            && t'[y] == t[y].(ins := if y in ws then t[y].ins + {r} else t[y].ins,
                              outs := if y == r then t[y].outs + (set w | w in ws) else t[y].outs)
  {
    if ws != [] {
      var n := |ws| - 1;
      MarkWritersExactly(t, r, ws[..n], y);
      assert ws == ws[..n] + [ws[n]];
      assert (set w | w in ws) == (set w | w in ws[..n]) + {ws[n]};
    }
  }

  lemma {:induction false} MarkReadersExactly(t: Table, w: Tx, rs: seq<Tx>, y: Tx)
    requires y in t
    ensures var t' := MarkReaders(t, w, rs);
            && t'.Keys == t.Keys
            && t'[y] == t[y].(outs := if y in rs then t[y].outs + {w} else t[y].outs,
                              ins := if y == w then t[y].ins + (set r | r in rs) else t[y].ins)
  {
    if rs != [] {
      var n := |rs| - 1;
      MarkReadersExactly(t, w, rs[..n], y);
      assert rs == rs[..n] + [rs[n]];
      assert (set r | r in rs) == (set r | r in rs[..n]) + {rs[n]};
    }
  }
}

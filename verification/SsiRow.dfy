/** The mutable row manager of SSI with its lock stacks and lists (concurrency_control/row_ssi.cpp) over
    the shared conflict table (concurrency_control/ssi.cpp), proved against `Ssi`. */
module SsiRow {
  import opened SerialHistory
  import opened Ssi

  class InOutTable {
    var entries: Table

    constructor ()
      ensures entries == map[]
    {
      entries := map[];
    }

    /** set_inConflict and set_outConflict for one antidependency. */
    method SetConflict(r: Tx, w: Tx)
      modifies this
      ensures entries == Mark(old(entries), r, w)
    {
      entries := AddIn(entries, w, r);
      entries := AddOut(entries, r, w);
    }

    /** clear_Conflict, one neighbour at a time. */
    method ClearConflict(x: Tx)
      modifies this
      ensures entries == Clear(old(entries), x)
    {
      if x !in entries {
        return;
      }
      ghost var t := entries;
      var ins, outs := entries[x].ins, entries[x].outs;
      var rest := ins;
      while rest != {}
        invariant rest <= ins && entries.Keys == t.Keys
        invariant forall y :: y in t ==>
                    entries[y] == if y in ins - rest then t[y].(outs := t[y].outs - {x}) else t[y]
        decreases rest
      {
        var y :| y in rest;
        if y in entries {
          entries := entries[y := entries[y].(outs := entries[y].outs - {x})];
        }
        rest := rest - {y};
      }
      ghost var t1 := entries;
      rest := outs;
      while rest != {}
        invariant rest <= outs && entries.Keys == t.Keys
        invariant forall y :: y in t ==>
                    entries[y] == if y in outs - rest then t1[y].(ins := t1[y].ins - {x}) else t1[y]
        decreases rest
      {
        var y :| y in rest;
        if y in entries {
          entries := entries[y := entries[y].(ins := entries[y].ins - {x})];
        }
        rest := rest - {y};
      }
    }

    /** ssi::validate: refuses a transaction with conflicts in and out. */
    method Validate(x: Tx) returns (rc: Rc)
      ensures rc == Abort <==> HasIn(entries, x) && HasOut(entries, x)
    {
      var ins := if x in entries then entries[x].ins != {} else false;
      var outs := if x in entries then entries[x].outs != {} else true;
      rc := if ins && outs then Abort else RcOk;
    }
  }

  class RowSsi {
    const maxPreq: nat
    var readLocks: seq<Tx>
    var writeLocks: seq<Tx>
    var writeHis: seq<Version>
    var whisLen: nat
    var prereq: seq<Tx>
    var preqLen: nat

    function Contents(): Row
      reads this
    {
      Row(readLocks, writeLocks, writeHis, prereq)
    }

    ghost predicate Valid()
      reads this
    {
      preqLen == |prereq| && whisLen == |writeHis|
    }

    constructor (maxPreq: nat)
      ensures Valid() && this.maxPreq == maxPreq && Contents() == Row([], [], [], [])
    {
      this.maxPreq := maxPreq;
      readLocks, writeLocks, writeHis, whisLen, prereq, preqLen := [], [], [], 0, [], 0;
    }

    /** R_REQ: lock, meet the write locks, pick the version, meet the newer versions. */
    method ReadRequest(table: InOutTable, x: Tx, start: nat) returns (ver: nat)
      requires Valid()
      modifies this, table
      ensures Valid()
      ensures (Contents(), table.entries, ver) == Read(old(Contents()), old(table.entries), x, start)
    {
      readLocks := [x] + readLocks;
      MeetWriters(table, x);
      ver := FindVersion(start);
      MeetNewer(table, x, start);
    }

    method MeetWriters(table: InOutTable, x: Tx)
      modifies table
      ensures table.entries == MarkWriters(old(table.entries), x, Others(writeLocks, x))
    {
      for i := 0 to |writeLocks|
        invariant table.entries == MarkWriters(old(table.entries), x, Others(writeLocks[..i], x))
      {
        OthersTurn(writeLocks, x, i);
        if writeLocks[i] != x {
          MarkWritersTurn(old(table.entries), x, Others(writeLocks[..i], x), writeLocks[i]);
          table.SetConflict(x, writeLocks[i]);
        }
      }
      assert writeLocks[..|writeLocks|] == writeLocks;
    }

    method FindVersion(start: nat) returns (ver: nat)
      ensures ver == VersionAt(writeHis, start)
    {
      var i := 0;
      while i < |writeHis| && writeHis[i].ts > start
        invariant 0 <= i <= |writeHis| && VersionAt(writeHis[i..], start) == VersionAt(writeHis, start)
      {
        i := i + 1;
      }
      ver := if i < |writeHis| then writeHis[i].ts else 0;
    }

    method MeetNewer(table: InOutTable, x: Tx, start: nat)
      modifies table
      ensures table.entries == MarkWriters(old(table.entries), x, Newer(writeHis, start))
    {
      ghost var met: seq<Tx> := [];
      var i := 0;
      while i < |writeHis| && writeHis[i].ts > start
        invariant 0 <= i <= |writeHis|
        invariant met + Newer(writeHis[i..], start) == Newer(writeHis, start)
        invariant table.entries == MarkWriters(old(table.entries), x, met)
      {
        MarkWritersTurn(old(table.entries), x, met, writeHis[i].tx);
        table.SetConflict(x, writeHis[i].tx);
        met := met + [writeHis[i].tx];
        i := i + 1;
      }
      assert met + [] == met;
    }

    /** P_REQ: lock, refuse if a committed concurrent reader has a conflict in, else meet the readers. */
    method PrewriteRequest(table: InOutTable, x: Tx, start: nat) returns (rc: Rc)
      requires Valid()
      modifies this, table
      ensures Valid()
      ensures (rc, Contents(), table.entries) == Prewrite(old(Contents()), old(table.entries), x, start, maxPreq)
    {
      writeLocks := [x] + writeLocks;
      var danger := FindDanger(table, x, start);
      if danger {
        return Abort;
      }
      MeetReaders(table, x, start);
      if preqLen < maxPreq {
        preqLen := preqLen + 1;
        prereq := [x] + prereq;
        rc := RcOk;
      } else {
        rc := Abort;
      }
    }

    method FindDanger(table: InOutTable, x: Tx, start: nat) returns (danger: bool)
      ensures danger == SomeDangerous(table.entries, readLocks, x, start)
    {
      var t := table.entries;
      for i := 0 to |readLocks|
        invariant forall j :: 0 <= j < i ==> readLocks[j] == x || !Dangerous(t, readLocks[j], start)
      {
        if readLocks[i] != x {
          if StateOf(t, readLocks[i]) == Committed && CommitTsOf(t, readLocks[i]) > start {
            if HasIn(t, readLocks[i]) {
              return true;
            }
          }
        }
      }
      danger := false;
    }

    method MeetReaders(table: InOutTable, x: Tx, start: nat)
      modifies table
      ensures table.entries ==
              MarkReaders(old(table.entries), x, ConcurrentReaders(old(table.entries), readLocks, x, start))
    {
      ghost var t := table.entries;
      MarkReadersOk(t, x, []);
      for i := 0 to |readLocks|
        invariant table.entries == MarkReaders(t, x, ConcurrentReaders(t, readLocks[..i], x, start))
      {
        ghost var met := ConcurrentReaders(t, readLocks[..i], x, start);
        ConcurrentTurn(t, readLocks, x, start, i);
        MarkReadersOk(t, x, met);
        if readLocks[i] != x {
          var y := readLocks[i];
          if StateOf(table.entries, y) != Aborted &&
             !(StateOf(table.entries, y) == Committed && CommitTsOf(table.entries, y) <= start) {
            MarkReadersTurn(t, x, met, y);
            table.SetConflict(y, x);
          }
        }
      }
      assert readLocks[..|readLocks|] == readLocks;
    }

    /** Unlinks the first entry of the transaction from a list. */
    static method UnlinkFirst(ls: seq<Tx>, x: Tx) returns (r: seq<Tx>, found: bool)
      ensures r == Unlink(ls, x) && found == (x in ls) && |r| == if found then |ls| - 1 else |ls|
    {
      var i := 0;
      while i < |ls| && ls[i] != x
        invariant 0 <= i <= |ls| && forall j :: 0 <= j < i ==> ls[j] != x
      {
        i := i + 1;
      }
      found := i < |ls|;
      UnlinkAt(ls, x, i);
      r := if found then ls[..i] + ls[i + 1..] else ls;
    }

    /** W_REQ: the write lock becomes a version, at its place in timestamp order. */
    method WriteRequest(x: Tx, ts: nat)
      requires Valid() && x in prereq
      modifies this
      ensures Valid() && Contents() == Install(old(Contents()), x, ts)
    {
      var found;
      writeLocks, found := UnlinkFirst(writeLocks, x);
      var i := 0;
      while i < |writeHis| && ts < writeHis[i].ts
        invariant 0 <= i <= |writeHis| && forall j :: 0 <= j < i ==> ts < writeHis[j].ts
      {
        i := i + 1;
      }
      InsertVersionAt(writeHis, Version(ts, x), i);
      writeHis := writeHis[..i] + [Version(ts, x)] + writeHis[i..];
      whisLen := whisLen + 1;
      prereq, found := UnlinkFirst(prereq, x);
      preqLen := preqLen - 1;
    }

    /** XP_REQ: an aborted writer gives up its locks and its prewrite. */
    method CancelRequest(x: Tx)
      requires Valid() && x in prereq
      modifies this
      ensures Valid() && Contents() == Cancel(old(Contents()), x)
    {
      var found;
      writeLocks, found := UnlinkFirst(writeLocks, x);
      readLocks, found := UnlinkFirst(readLocks, x);
      prereq, found := UnlinkFirst(prereq, x);
      preqLen := preqLen - 1;
    }

    /** clear_history: from the tail, while the next newer version is still below the threshold. */
    method ClearHistory(th: nat)
      requires Valid()
      modifies this
      ensures Valid() && Contents() == old(Contents()).(his := Recycle(old(writeHis), th))
    {
      while |writeHis| >= 2 && writeHis[|writeHis| - 2].ts < th
        invariant Valid() && Recycle(writeHis, th) == Recycle(old(writeHis), th)
        invariant Contents() == old(Contents()).(his := writeHis)
        decreases |writeHis|
      {
        writeHis := writeHis[..|writeHis| - 1];
        whisLen := whisLen - 1;
      }
    }
  }

  // ----- one turn of each loop --------------------------------------------------------------

  lemma OthersTurn(ls: seq<Tx>, x: Tx, i: nat)
    requires i < |ls|
    ensures Others(ls[..i + 1], x) == if ls[i] == x then Others(ls[..i], x) else Others(ls[..i], x) + [ls[i]]
  {
    assert ls[..i + 1][..i] == ls[..i];
  }

  lemma ConcurrentTurn(t: Table, rs: seq<Tx>, x: Tx, start: nat, i: nat)
    requires i < |rs|
    ensures var met := ConcurrentReaders(t, rs[..i], x, start);
            ConcurrentReaders(t, rs[..i + 1], x, start) ==
            if rs[i] != x && Concurrent(t, rs[i], start) then met + [rs[i]] else met
  {
    assert rs[..i + 1][..i] == rs[..i];
  }

  lemma MarkWritersTurn(t: Table, r: Tx, ws: seq<Tx>, w: Tx)
    ensures MarkWriters(t, r, ws + [w]) == Mark(MarkWriters(t, r, ws), r, w)
  {
    assert (ws + [w])[..|ws|] == ws;
  }

  lemma MarkReadersTurn(t: Table, w: Tx, rs: seq<Tx>, r: Tx)
    ensures MarkReaders(t, w, rs + [r]) == Mark(MarkReaders(t, w, rs), r, w)
  {
    assert (rs + [r])[..|rs|] == rs;
  }

  lemma {:induction false} UnlinkAt(ls: seq<Tx>, x: Tx, i: nat)
    requires i <= |ls| && (forall j :: 0 <= j < i ==> ls[j] != x) && (i < |ls| ==> ls[i] == x)
    ensures Unlink(ls, x) == if i < |ls| then ls[..i] + ls[i + 1..] else ls
  {
    if i > 0 {
      UnlinkAt(ls[1..], x, i - 1);
      assert ls[..i] == [ls[0]] + ls[1..][..i - 1];
    }
  }

  lemma {:induction false} InsertVersionAt(his: seq<Version>, v: Version, i: nat)
    requires i <= |his| && (forall j :: 0 <= j < i ==> v.ts < his[j].ts) && (i < |his| ==> his[i].ts <= v.ts)
    ensures InsertVersion(his, v) == his[..i] + [v] + his[i..]
  {
    if i > 0 {
      InsertVersionAt(his[1..], v, i - 1);
      assert his[..i] == [his[0]] + his[1..][..i - 1];
    }
  }
}

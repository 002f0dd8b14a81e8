/** The imperative side of MAAT: validation with its seven loops over the shared time table, bound
    selection, and the row's accesses and commits, proved against `Maat` and `MaatRuns`. */
module MaatTxn {
  import opened SerialHistory
  import opened Maat
  import MaatRuns

  class Transaction {
    const id: Tx
    var uncommittedWrites: seq<Tx>
    var uncommittedReads: seq<Tx>
    var uncommittedWritesY: seq<Tx>
    var greatestWrite: Ts
    var greatestRead: Ts
    var commitTs: Ts

    constructor (id: Tx)
      ensures this.id == id && Contents() == Deps([], [], [], 0, 0)
    {
      this.id := id;
      uncommittedWrites, uncommittedReads, uncommittedWritesY := [], [], [];
      greatestWrite, greatestRead, commitTs := 0, 0, 0;
    }

    function Contents(): Deps
      reads this
    {
      Deps(uncommittedWrites, uncommittedReads, uncommittedWritesY, greatestWrite, greatestRead)
    }
  }

  lemma Prefix(s: seq<Tx>, i: nat)
    requires i < |s|
    ensures s[..i + 1][..i] == s[..i] && s[..i + 1][i] == s[i] && |s[..i + 1]| == i + 1
  {
  }

  class TimeTable {
    var entries: Table

    /** The first three loops of validate: bounds against decided transactions, running ones listed. */
    method Scan(txn: Transaction) returns (p: Plan)
      ensures p == MakePlan(entries, txn.id, txn.Contents())
    {
      var t := entries;
      var lower, upper := Lower(t, txn.id), Upper(t, txn.id);
      var after: seq<Tx>, before: seq<Tx> := [], [];
      if lower <= txn.greatestWrite {
        lower := Plus(txn.greatestWrite, 1);
      }
      var ws := txn.uncommittedWrites;
      for i := 0 to |ws|
        invariant (upper, after) == ScanWrites(t, ws[..i], Upper(t, txn.id))
      {
        Prefix(ws, i);
        var itLower := Lower(t, ws[i]);
        if upper >= itLower {
          var state := StateOf(t, ws[i]);
          if state == Validated || state == Committed {
            upper := if itLower > 0 then itLower - 1 else itLower;
          }
          if state == Running {
            after := Insert(after, ws[i]);
          }
        }
      }
      assert ws[..|ws|] == ws;
      ghost var after1 := after;
      if lower <= txn.greatestRead {
        lower := Plus(txn.greatestRead, 1);
      }
      ghost var lower2 := lower;
      var rs := txn.uncommittedReads;
      for i := 0 to |rs|
        invariant (lower, before) == ScanReaders(t, rs[..i], lower2)
      {
        Prefix(rs, i);
        var itUpper := Upper(t, rs[i]);
        if lower <= itUpper {
          var state := StateOf(t, rs[i]);
          if state == Validated || state == Committed {
            lower := if itUpper < UINT64_MAX then itUpper + 1 else itUpper;
          }
          if state == Running {
            before := Insert(before, rs[i]);
          }
        }
      }
      assert rs[..|rs|] == rs;
      ghost var lower3 := lower;
      var ys := txn.uncommittedWritesY;
      for i := 0 to |ys|
        invariant (lower, after) == ScanWritesY(t, ys[..i], lower3, after1)
      {
        Prefix(ys, i);
        var state := StateOf(t, ys[i]);
        var itUpper := Upper(t, ys[i]);
        if state == Aborted {
          continue;
        }
        if state == Validated || state == Committed {
          if lower <= itUpper {
            lower := if itUpper < UINT64_MAX then itUpper + 1 else itUpper;
          }
        }
        if state == Running {
          after := Insert(after, ys[i]);
        }
      }
      assert ys[..|ys|] == ys;
      p := Plan(lower, upper, before, after);
    }

    /** Finds room above the running readers, then cuts them off below. */
    method SeparateReaders(before: seq<Tx>, low: Ts, upper: Ts) returns (lower: Ts)
      modifies this
      ensures lower == RaiseLower(old(entries), before, low, upper)
      ensures entries == CutReaders(old(entries), before, lower)
    {
      lower := low;
      for i := 0 to |before|
        invariant entries == old(entries)
        invariant lower == RaiseLower(entries, before[..i], low, upper)
      {
        Prefix(before, i);
        var itUpper := Upper(entries, before[i]);
        if itUpper > lower && itUpper < Minus(upper, 1) {
          lower := Plus(itUpper, 1);
        }
      }
      assert before[..|before|] == before;
      for i := 0 to |before|
        invariant entries == CutReaders(old(entries), before[..i], lower)
      {
        Prefix(before, i);
        if Upper(entries, before[i]) >= lower {
          entries := SetUpper(entries, before[i], if lower > 0 then lower - 1 else lower);
        }
      }
    }

    /** Makes room for the running writers, then pushes them above. */
    method SeparateWriters(after: seq<Tx>, lower: Ts, up: Ts) returns (upper: Ts)
      modifies this
      ensures upper == DropUpper(old(entries), after, lower, up)
      ensures entries == PushWriters(old(entries), after, upper)
    {
      upper := up;
      for i := 0 to |after|
        invariant entries == old(entries)
        invariant upper == DropUpper(entries, after[..i], lower, up)
      {
        Prefix(after, i);
        var itLower, itUpper := Lower(entries, after[i]), Upper(entries, after[i]);
        if itUpper != UINT64_MAX && itUpper > Plus(lower, 2) && itUpper < upper {
          upper := Minus(itUpper, 2);
        }
        if itLower < upper && itLower > Plus(lower, 1) {
          upper := Minus(itLower, 1);
        }
      }
      assert after[..|after|] == after;
      for i := 0 to |after|
        invariant entries == PushWriters(old(entries), after[..i], upper)
      {
        Prefix(after, i);
        if Lower(entries, after[i]) <= upper {
          entries := SetLower(entries, after[i], if upper < UINT64_MAX then upper + 1 else upper);
        }
      }
    }

    /** validate: succeeds exactly when its interval ends up non-empty. */
    method Validate(txn: Transaction) returns (rc: Rc)
      modifies this
      ensures (rc, entries) == Maat.Validate(old(entries), txn.id, old(txn.Contents()))
    {
      var p := Scan(txn);
      var lower, upper := p.lower, p.upper;
      if p.lower >= p.upper {
        entries := SetState(entries, txn.id, Aborted);
        rc := Abort;
      } else {
        entries := SetState(entries, txn.id, Validated);
        rc := RcOk;
        lower := SeparateReaders(p.before, p.lower, p.upper);
        upper := SeparateWriters(p.after, lower, p.upper);
      }
      entries := SetUpper(SetLower(entries, txn.id, lower), txn.id, upper);
    }

    method FindBound(txn: Transaction) returns (rc: Rc)
      requires this as object != txn
      modifies this, txn`commitTs
      ensures entries == Maat.FindBound(old(entries), txn.id).1
      ensures rc == Maat.FindBound(old(entries), txn.id).0
      ensures rc == RcOk ==> txn.commitTs == Maat.FindBound(old(entries), txn.id).2
    {
      rc := RcOk;
      var lower, upper := Lower(entries, txn.id), Upper(entries, txn.id);
      if lower >= upper {
        entries := SetState(entries, txn.id, Validated);
        rc := Abort;
      } else {
        entries := SetState(entries, txn.id, Committed);
        txn.commitTs := lower;
      }
    }
  }

  class RowMaat {
    var lastRead: Ts
    var lastWrite: Ts
    var uncommittedReads: seq<Tx>
    var uncommittedWrites: seq<Tx>

    constructor ()
      ensures Contents() == MaatRuns.Row(0, 0, [], [])
    {
      lastRead, lastWrite, uncommittedReads, uncommittedWrites := 0, 0, [], [];
    }

    function Contents(): MaatRuns.Row
      reads this
    {
      MaatRuns.Row(lastRead, lastWrite, uncommittedReads, uncommittedWrites)
    }

    /** Copies one ordered set into another, element by element. */
    static method Copy(into: seq<Tx>, from: seq<Tx>) returns (r: seq<Tx>)
      ensures r == MaatRuns.InsertAll(into, from)
    {
      r := into;
      for i := 0 to |from|
        invariant r == MaatRuns.InsertAll(into, from[..i])
      {
        Prefix(from, i);
        r := Insert(r, from[i]);
      }
      assert from[..|from|] == from;
    }

    method Read(txn: Transaction)
      modifies this, txn
      ensures (Contents(), txn.Contents()) == MaatRuns.Read(old(Contents()), txn.id, old(txn.Contents()))
    {
      txn.uncommittedWrites := Copy(txn.uncommittedWrites, uncommittedWrites);
      if txn.greatestWrite < lastWrite {
        txn.greatestWrite := lastWrite;
      }
      uncommittedReads := Insert(uncommittedReads, txn.id);
    }

    method Prewrite(txn: Transaction)
      modifies this, txn
      ensures (Contents(), txn.Contents()) == MaatRuns.Prewrite(old(Contents()), txn.id, old(txn.Contents()))
    {
      txn.uncommittedReads := Copy(txn.uncommittedReads, uncommittedReads);
      txn.uncommittedWritesY := Copy(txn.uncommittedWritesY, uncommittedWrites);
      if txn.greatestRead < lastRead {
        txn.greatestRead := lastRead;
      }
      if txn.greatestWrite < lastWrite {
        txn.greatestWrite := lastWrite;
      }
      uncommittedWrites := Insert(uncommittedWrites, txn.id);
    }

    method ReadAndPrewrite(txn: Transaction)
      modifies this, txn
      ensures (Contents(), txn.Contents()) == MaatRuns.ReadAndPrewrite(old(Contents()), txn.id, old(txn.Contents()))
    {
      txn.uncommittedWrites := Copy(txn.uncommittedWrites, uncommittedWrites);
      txn.uncommittedWritesY := Copy(txn.uncommittedWritesY, uncommittedWrites);
      txn.uncommittedReads := Copy(txn.uncommittedReads, uncommittedReads);
      if txn.greatestRead < lastRead {
        txn.greatestRead := lastRead;
      }
      if txn.greatestWrite < lastWrite {
        txn.greatestWrite := lastWrite;
      }
      uncommittedReads := Insert(uncommittedReads, txn.id);
      uncommittedWrites := Insert(uncommittedWrites, txn.id);
    }

    /** commit of a read access, with forward validation of the row's pending writers. */
    method CommitRead(table: TimeTable, txn: Transaction)
      modifies this, table
      ensures (Contents(), table.entries) ==
              MaatRuns.CommitRead(old(Contents()), old(table.entries), txn.id, txn.commitTs, txn.Contents())
    {
      var ts := txn.commitTs;
      if ts > lastRead {
        lastRead := ts;
      }
      uncommittedReads := MaatRuns.Erase(uncommittedReads, txn.id);
      PushUp(table, uncommittedWrites, txn.uncommittedWrites, ts);
    }

    /** commit of a write access, with forward validation of pending writers and readers. */
    method CommitWrite(table: TimeTable, txn: Transaction)
      modifies this, table
      ensures (Contents(), table.entries) ==
              MaatRuns.CommitWrite(old(Contents()), old(table.entries), txn.id, txn.commitTs, txn.Contents())
    {
      var ts := txn.commitTs;
      if ts > lastWrite {
        lastWrite := ts;
      }
      uncommittedWrites := MaatRuns.Erase(uncommittedWrites, txn.id);
      var lower := Lower(table.entries, txn.id);
      PushDown(table, uncommittedWrites, txn.uncommittedWritesY, ts);
      PushDown(table, uncommittedReads, txn.uncommittedReads, lower);
    }

    /** commit where every access reads and prewrites, with forward validation in both directions. */
    method CommitBoth(table: TimeTable, txn: Transaction)
      modifies this, table
      ensures (Contents(), table.entries) ==
              MaatRuns.CommitBoth(old(Contents()), old(table.entries), txn.id, txn.commitTs, txn.Contents())
    {
      var ts := txn.commitTs;
      if ts > lastRead {
        lastRead := ts;
      }
      uncommittedReads := MaatRuns.Erase(uncommittedReads, txn.id);
      if ts > lastWrite {
        lastWrite := ts;
      }
      uncommittedWrites := MaatRuns.Erase(uncommittedWrites, txn.id);
      PushUp(table, uncommittedWrites, txn.uncommittedWrites, ts);
      var lower := Lower(table.entries, txn.id);
      PushDown(table, uncommittedWrites, txn.uncommittedWritesY, ts);
      PushDown(table, uncommittedReads, txn.uncommittedReads, lower);
    }

    static method PushUp(table: TimeTable, ws: seq<Tx>, known: seq<Tx>, ts: Ts)
      modifies table
      ensures table.entries == MaatRuns.ForwardUp(old(table.entries), ws, known, ts)
    {
      for i := 0 to |ws|
        invariant table.entries == MaatRuns.ForwardUp(old(table.entries), ws[..i], known, ts)
      {
        Prefix(ws, i);
        if ws[i] !in known && Lower(table.entries, ws[i]) <= ts {
          table.entries := SetLower(table.entries, ws[i], Plus(ts, 1));
        }
      }
      assert ws[..|ws|] == ws;
    }

    static method PushDown(table: TimeTable, xs: seq<Tx>, known: seq<Tx>, ts: Ts)
      modifies table
      ensures table.entries == MaatRuns.ForwardDown(old(table.entries), xs, known, ts)
    {
      for i := 0 to |xs|
        invariant table.entries == MaatRuns.ForwardDown(old(table.entries), xs[..i], known, ts)
      {
        Prefix(xs, i);
        if xs[i] !in known && Upper(table.entries, xs[i]) >= ts {
          table.entries := SetUpper(table.entries, xs[i], Minus(ts, 1));
        }
      }
      assert xs[..|xs|] == xs;
    }
  }
}

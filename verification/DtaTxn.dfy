/** The validation loops of DTA and WOOKONG over mutable rows and the shared time table, with the
    per-row availability flag of WOOKONG, proved against `Dta`. */
module DtaTxn {
  import opened SerialHistory
  import opened Maat
  import Dta

  class RowDta {
    var lastRead: Ts
    var writeTrans: Tx
    var readers: seq<Tx>
    var avail: bool

    constructor ()
      ensures Contents() == Dta.Row(0, 0, []) && avail
    {
      lastRead, writeTrans, readers, avail := 0, 0, [], true;
    }

    function Contents(): Dta.Row
      reads this`lastRead, this`writeTrans, this`readers
    {
      Dta.Row(lastRead, writeTrans, readers)
    }
  }

  /** The rows as values. */
  ghost function Rows(ws: seq<RowDta>): (r: seq<Dta.Row>)
    reads ws
    ensures |r| == |ws| && forall i :: 0 <= i < |ws| ==> r[i] == ws[i].Contents()
  {
    seq(|ws|, i requires 0 <= i < |ws| reads ws => ws[i].Contents())
  }

  class TimeTable {
    const variant: Dta.Variant
    var entries: Table

    constructor (variant: Dta.Variant)
      ensures this.variant == variant && entries == map[]
    {
      this.variant := variant;
      entries := map[];
    }

    /** The loop over the pending readers of one row. */
    method VisitReaders(x: Tx, rs: seq<Tx>, low: Ts, upper: Ts) returns (lower: Ts, exit: bool)
      modifies this
      ensures Dta.Scan(lower, entries, exit) == Dta.ReadersLoop(old(entries), x, rs, low, upper)
    {
      lower, exit := low, false;
      for i := 0 to |rs|
        invariant Dta.Scan(lower, entries, false) == Dta.ReadersLoop(old(entries), x, rs[..i], low, upper)
      {
        Prefix(rs, i);
        if lower >= upper {
          StaysExited(old(entries), x, rs, low, upper, i + 1);
          return lower, true;
        }
        if rs[i] != x {
          var itUpper, itLower := Upper(entries, rs[i]), Lower(entries, rs[i]);
          if itLower < itUpper {
            var state := StateOf(entries, rs[i]);
            if state == Validated || state == Committed {
              if lower < itUpper {
                lower := itUpper;
              }
            } else if state == Running {
              if lower <= itLower {
                lower := itLower + 1;
                itUpper := if lower < itUpper then lower else itUpper;
                entries := SetUpper(entries, rs[i], itUpper);
              } else if lower < itUpper {
                itUpper := lower;
                entries := SetUpper(entries, rs[i], itUpper);
              }
            }
          }
        }
      }
      assert rs[..|rs|] == rs;
    }

    /** One row of the write set. The row is unavailable to others meanwhile, and available again on
        every way out. */
    method VisitRow(x: Tx, r: RowDta, low: Ts, upper: Ts) returns (lower: Ts, end: Dta.End)
      requires r.avail
      modifies this, r
      ensures (Dta.Progress(lower, entries, end), r.Contents()) ==
              Dta.RowStep(Dta.Progress(low, old(entries), Dta.Going), x, old(r.Contents()), upper)
      ensures r.avail
    {
      if variant.WkdbVariant? {
        r.avail := false;
      }
      lower, end := low, Dta.Going;
      if lower <= r.lastRead {
        lower := Plus(r.lastRead, 1);
      }
      if lower >= upper {
        end := Dta.ValidEnd;
      } else if r.writeTrans != 0 && r.writeTrans != x {
        end := Dta.Taken;
      } else {
        if r.writeTrans == 0 {
          r.writeTrans := x;
        }
        var exit;
        lower, exit := VisitReaders(x, r.readers, lower, upper);
        end := if exit then Dta.ValidEnd else Dta.Going;
      }
      if variant.WkdbVariant? {
        r.avail := true;
      }
    }

    /** The loop over the write set. */
    method VisitRows(x: Tx, ws: seq<RowDta>, first: Ts, upper: Ts) returns (lower: Ts, end: Dta.End)
      requires forall i :: 0 <= i < |ws| ==> ws[i].avail
      requires forall i, j :: 0 <= i < j < |ws| ==> ws[i] != ws[j]
      modifies this, ws
      ensures (Dta.Progress(lower, entries, end), Rows(ws)) ==
              Dta.RowsLoop(old(entries), x, old(Rows(ws)), first, upper)
      ensures forall i :: 0 <= i < |ws| ==> ws[i].avail
    {
      hide Dta.RowStep, Dta.RowsLoop;
      lower, end := first, Dta.Going;
      ghost var was, done := Rows(ws), [];
      RowsLoopStart(old(entries), x, was, first, upper);
      var i := 0;
      while i < |ws| && end == Dta.Going
        invariant 0 <= i <= |ws| && |done| == i
        invariant forall j :: 0 <= j < |ws| ==> ws[j].avail
        invariant forall j :: 0 <= j < |ws| ==> ws[j].Contents() == if j < i then done[j] else was[j]
        invariant (Dta.Progress(lower, entries, end), done) ==
                  Dta.RowsLoop(old(entries), x, was[..i], first, upper)
      {
        RowsLoopTurn(old(entries), x, was, first, upper, i);
        lower, end := VisitRow(x, ws[i], lower, upper);
        done := done + [ws[i].Contents()];
        i := i + 1;
      }
      StaysEnded(old(entries), x, was, first, upper, i);
      assert Rows(ws) == done + was[i..];
    }

    /** validate. Whatever the outcome, every row of the write set is available afterwards. */
    method Validate(x: Tx, lastWrite: Ts, ws: seq<RowDta>) returns (rc: Rc)
      requires forall i :: 0 <= i < |ws| ==> ws[i].avail
      requires forall i, j :: 0 <= i < j < |ws| ==> ws[i] != ws[j]
      modifies this, ws
      ensures (rc, entries, Rows(ws)) == Dta.ValidateRows(variant, old(entries), x, lastWrite, old(Rows(ws)))
      ensures forall i :: 0 <= i < |ws| ==> ws[i].avail
    {
      hide Dta.RowsLoop;
      var lower, upper := Lower(entries, x), Upper(entries, x);
      if ws != [] && variant.DtaVariant? && lower <= lastWrite {
        lower := Plus(lastWrite, 1);
      }
      var end;
      lower, end := VisitRows(x, ws, lower, upper);
      if end == Dta.Taken {
        entries := SetState(entries, x, Aborted);
        return Abort;
      }
      rc := if lower >= upper then Abort else RcOk;
      entries := SetState(entries, x, if lower >= upper then Aborted else Validated);
      entries := SetUpper(SetLower(entries, x, lower), x, upper);
    }
  }

  lemma Prefix<T>(s: seq<T>, i: nat)
    requires i < |s|
    ensures s[..i + 1][..i] == s[..i] && s[..i + 1][i] == s[i] && |s[..i + 1]| == i + 1
  {
  }

  /** Once the reader loop has been left, the remaining readers change nothing. */
  lemma {:induction false} StaysExited(t: Table, x: Tx, rs: seq<Tx>, lower: Ts, upper: Ts, i: nat)
    requires i <= |rs| && Dta.ReadersLoop(t, x, rs[..i], lower, upper).exit
    ensures Dta.ReadersLoop(t, x, rs, lower, upper) == Dta.ReadersLoop(t, x, rs[..i], lower, upper)
    decreases |rs| - i
  {
    if i < |rs| {
      Prefix(rs, i);
      StaysExited(t, x, rs, lower, upper, i + 1);
    } else {
      assert rs[..i] == rs;
    }
  }

  lemma RowsLoopStart(t: Table, x: Tx, ws: seq<Dta.Row>, lower: Ts, upper: Ts)
    ensures Dta.RowsLoop(t, x, ws[..0], lower, upper) == (Dta.Progress(lower, t, Dta.Going), [])
  {
  }

  lemma RowsLoopTurn(t: Table, x: Tx, ws: seq<Dta.Row>, lower: Ts, upper: Ts, i: nat)
    requires i < |ws|
    ensures var (p, rows) := Dta.RowsLoop(t, x, ws[..i], lower, upper);
            var (p', r) := Dta.RowStep(p, x, ws[i], upper);
            Dta.RowsLoop(t, x, ws[..i + 1], lower, upper) == (p', rows + [r])
  {
    Prefix(ws, i);
  }

  /** Once the row loop has been left, the remaining rows stay as they are. */
  lemma {:induction false} StaysEnded(t: Table, x: Tx, ws: seq<Dta.Row>, lower: Ts, upper: Ts, i: nat)
    requires i <= |ws| && (i < |ws| ==> Dta.RowsLoop(t, x, ws[..i], lower, upper).0.end != Dta.Going)
    ensures var (p, rows) := Dta.RowsLoop(t, x, ws[..i], lower, upper);
            Dta.RowsLoop(t, x, ws, lower, upper) == (p, rows + ws[i..])
    decreases |ws| - i
  {
    if i < |ws| {
      RowsLoopTurn(t, x, ws, lower, upper, i);
      StaysEnded(t, x, ws, lower, upper, i + 1);
      var (p, rows) := Dta.RowsLoop(t, x, ws[..i], lower, upper);
      assert (rows + [ws[i]]) + ws[i + 1..] == rows + ws[i..];
    } else {
      assert ws[..i] == ws && ws[i..] == [];
      var (p, rows) := Dta.RowsLoop(t, x, ws[..i], lower, upper);
      assert rows + ws[i..] == rows;
    }
  }
}

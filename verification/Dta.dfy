/** DTA and its cousin WOOKONG: a validating writer registers itself on every row it writes and moves
    the readers of these rows below itself (concurrency_control/dta.cpp, concurrency_control/wkdb.cpp).
    Intervals are half open: a transaction commits at its lower bound, below its upper bound. */
module Dta {
  import opened SerialHistory
  import opened Maat

  /** Which of the two algorithms: only DTA raises the lower bound above the last write seen. */
  datatype Variant = DtaVariant | WkdbVariant

  /** A row's last read timestamp, registered writer (0 is none) and pending readers. */
  datatype Row = Row(lastRead: Ts, writeTrans: Tx, readers: seq<Tx>)

  // ----- validate ---------------------------------------------------------------------------

  /** One reader: a decided one pushes the lower bound up, a running one is trimmed to it. */
  function ReaderStep(t: Table, y: Tx, lower: Ts): (Ts, Table) {
    var itLower, itUpper := Lower(t, y), Upper(t, y);
    if itLower >= itUpper then (lower, t)
    else if Decided(StateOf(t, y)) then (if lower < itUpper then itUpper else lower, t)
    else if StateOf(t, y) == Running then
      if lower <= itLower then (itLower + 1, SetUpper(t, y, if itLower + 1 < itUpper then itLower + 1 else itUpper))
      else if lower < itUpper then (lower, SetUpper(t, y, lower))
      else (lower, t)
    else (lower, t)
  }

  /** `exit`: the loop was left because the lower bound had reached the upper bound. */
  datatype Scan = Scan(lower: Ts, table: Table, exit: bool)

  function ReadersLoop(t: Table, x: Tx, rs: seq<Tx>, lower: Ts, upper: Ts): Scan {
    if rs == [] then Scan(lower, t, false) else
      var n := |rs| - 1;
      var s := ReadersLoop(t, x, rs[..n], lower, upper);
      if s.exit then s
      else if s.lower >= upper then s.(exit := true)
      else if rs[n] == x then s
      else var (l, t') := ReaderStep(s.table, rs[n], s.lower); Scan(l, t', false)
  }

  /** Still going, left for the final test, or left because another writer holds a row. */
  datatype End = Going | ValidEnd | Taken

  datatype Progress = Progress(lower: Ts, table: Table, end: End)

  /** One row of the write set. */
  function RowStep(p: Progress, x: Tx, r: Row, upper: Ts): (Progress, Row) {
    if p.end != Going then (p, r) else
      var lower := Above(p.lower, r.lastRead);
      if lower >= upper then (Progress(lower, p.table, ValidEnd), r)
      else if r.writeTrans != 0 && r.writeTrans != x then (Progress(lower, p.table, Taken), r)
      else
        var s := ReadersLoop(p.table, x, r.readers, lower, upper);
        (Progress(s.lower, s.table, if s.exit then ValidEnd else Going),
         if r.writeTrans == 0 then r.(writeTrans := x) else r)
  }

  function RowsLoop(t: Table, x: Tx, ws: seq<Row>, lower: Ts, upper: Ts): (r: (Progress, seq<Row>))
    ensures |r.1| == |ws|
  {
    if ws == [] then (Progress(lower, t, Going), []) else
      var n := |ws| - 1;
      var (p, done) := RowsLoop(t, x, ws[..n], lower, upper);
      var (p', r) := RowStep(p, x, ws[n], upper);
      (p', done + [r])
  }

  function Store(t: Table, x: Tx, lower: Ts, upper: Ts, st: State): Table {
    SetUpper(SetLower(SetState(t, x, st), x, lower), x, upper)
  }

  function FirstLower(v: Variant, t: Table, x: Tx, lastWrite: Ts, ws: seq<Row>): Ts {
    if ws == [] || v.WkdbVariant? then Lower(t, x) else Above(Lower(t, x), lastWrite)
  }

  function ValidateRows(v: Variant, t: Table, x: Tx, lastWrite: Ts, ws: seq<Row>): (r: (Rc, Table, seq<Row>))
    ensures |r.2| == |ws|
  {
    var upper := Upper(t, x);
    var (p, rows) := RowsLoop(t, x, ws, FirstLower(v, t, x, lastWrite, ws), upper);
    if p.end.Taken? then (Abort, SetState(p.table, x, Aborted), rows)
    else if p.lower >= upper then (Abort, Store(p.table, x, p.lower, upper, Aborted), rows)
    else (RcOk, Store(p.table, x, p.lower, upper, Validated), rows)
  }

  // ----- what validation does to others -----------------------------------------------------

  /** Only running intervals change, only at the upper end, and never so that they become empty. */
  ghost predicate Trimmed(t: Table, t': Table) {
    && t'.Keys == t.Keys
    && forall y :: y in t ==> TrimmedEntry(t[y], t'[y])
  }

  ghost predicate TrimmedEntry(i: Interval, i': Interval) {
    && i' == i.(upper := i'.upper) && i'.upper <= i.upper
    && (i.state == Running && i.lower < i.upper ==> i'.lower < i'.upper)
    && (i.state != Running ==> i' == i)
  }

  /** A reader that may still commit does so below the bound. */
  ghost predicate Served(t: Table, y: Tx, lower: Ts) {
    y in t && t[y].state != Aborted && t[y].lower < t[y].upper ==> t[y].upper <= lower
  }

  lemma ReaderStepOk(t: Table, y: Tx, lower: Ts)
    ensures var (l, t') := ReaderStep(t, y, lower);
            && lower <= l && Trimmed(t, t') && Served(t', y, l)
            && forall z :: z in t && z != y ==> t'[z] == t[z]
  {
  }

  function Larger(a: Ts, b: Ts): Ts {
    if a < b then b else a
  }

  /** One reader moves the bound no further than needed: past the end of a decided one, past the beginning
      of a running one, which is then cut at the bound. */
  lemma ReaderStepExactly(t: Table, y: Tx, lower: Ts)
    requires y in t
    ensures var (l, t') := ReaderStep(t, y, lower);
            var i := t[y];
            if i.lower >= i.upper || i.state == Aborted then l == lower && t' == t
            else if i.state == Running then
              l == Larger(lower, i.lower + 1) && t'[y] == i.(upper := if i.upper < l then i.upper else l)
            else l == Larger(lower, i.upper) && t' == t
  {
  }

  lemma TrimmedTransitive(t: Table, t': Table, t'': Table)
    requires Trimmed(t, t') && Trimmed(t', t'')
    ensures Trimmed(t, t'')
  {
  }

  lemma StillServed(t: Table, t': Table, y: Tx, lower: Ts, lower': Ts)
    requires Served(t, y, lower) && Trimmed(t, t') && lower <= lower'
    ensures Served(t', y, lower')
  {
    assert y in t ==> TrimmedEntry(t[y], t'[y]);
  }

  lemma {:induction false} ReadersLoopOk(t: Table, x: Tx, rs: seq<Tx>, lower: Ts, upper: Ts)
    ensures var s := ReadersLoop(t, x, rs, lower, upper);
            && lower <= s.lower && Trimmed(t, s.table) && (x in t ==> s.table[x] == t[x])
            && (s.exit ==> s.lower >= upper)
            && (!s.exit ==> forall y :: y in rs && y != x ==> Served(s.table, y, s.lower))
  {
    if rs != [] {
      hide Trimmed, Served, ReaderStep;
      var n := |rs| - 1;
      ReadersLoopOk(t, x, rs[..n], lower, upper);
      var s, s' := ReadersLoop(t, x, rs[..n], lower, upper), ReadersLoop(t, x, rs, lower, upper);
      if !s.exit && s.lower < upper && rs[n] != x {
        ReaderStepOk(s.table, rs[n], s.lower);
        TrimmedTransitive(t, s.table, s'.table);
        assert x in t ==> x in s.table by { TrimmedKeys(t, s.table); }
        forall y | y in rs && y != x
          ensures Served(s'.table, y, s'.lower)
        {
          if y != rs[n] {
            assert y in rs[..n];
            StillServed(s.table, s'.table, y, s.lower, s'.lower);
          }
        }
      }
    } else {
      TrimmedRefl(t);
    }
  }

  lemma TrimmedKeys(t: Table, t': Table)
    requires Trimmed(t, t')
    ensures t'.Keys == t.Keys
  {
  }

  lemma TrimmedRefl(t: Table)
    ensures Trimmed(t, t)
  {
  }

  /** What a row of the write set looks like once the writer has passed it. */
  ghost predicate Passed(p: Progress, x: Tx, r: Row, r': Row) {
    && r' == r.(writeTrans := x) && (r.writeTrans == 0 || r.writeTrans == x) && r.lastRead < p.lower
    && forall y :: y in r.readers && y != x ==> Served(p.table, y, p.lower)
  }

  lemma RowStepOk(p: Progress, x: Tx, r: Row, upper: Ts)
    requires r.lastRead < UINT64_MAX && (p.end.ValidEnd? ==> p.lower >= upper)
    ensures var (p', r') := RowStep(p, x, r, upper);
            && p.lower <= p'.lower && Trimmed(p.table, p'.table) && (x in p.table ==> p'.table[x] == p.table[x])
            && (p'.end.ValidEnd? ==> p'.lower >= upper)
            && (p'.end.Going? ==> p.end.Going? && Passed(p', x, r, r'))
            && (r' == r || (r.writeTrans == 0 && r' == r.(writeTrans := x)))
  {
    hide Trimmed, Served;
    TrimmedRefl(p.table);
    if p.end.Going? {
      ReadersLoopOk(p.table, x, r.readers, Above(p.lower, r.lastRead), upper);
    }
  }

  lemma StillPassed(p: Progress, p': Progress, x: Tx, r: Row, r': Row)
    requires Passed(p, x, r, r') && p.lower <= p'.lower && Trimmed(p.table, p'.table)
    ensures Passed(p', x, r, r')
  {
    hide Trimmed, Served;
    forall y | y in r.readers && y != x
      ensures Served(p'.table, y, p'.lower)
    {
      StillServed(p.table, p'.table, y, p.lower, p'.lower);
    }
  }

  ghost predicate LastReadsBelowMax(ws: seq<Row>) {
    forall i :: 0 <= i < |ws| ==> ws[i].lastRead < UINT64_MAX
  }

  lemma {:induction false} RowsLoopOk(t: Table, x: Tx, ws: seq<Row>, lower: Ts, upper: Ts)
    requires LastReadsBelowMax(ws)
    ensures var (p, rows) := RowsLoop(t, x, ws, lower, upper);
            && lower <= p.lower && Trimmed(t, p.table) && (x in t ==> x in p.table && p.table[x] == t[x])
            && (p.end.ValidEnd? ==> p.lower >= upper)
            && (p.end.Going? ==> forall i :: 0 <= i < |ws| ==> Passed(p, x, ws[i], rows[i]))
            && forall i :: 0 <= i < |ws| ==>
                 rows[i] == ws[i] || (ws[i].writeTrans == 0 && rows[i] == ws[i].(writeTrans := x))
  {
    hide Trimmed, Served, Passed, RowStep;
    if ws == [] {
      TrimmedRefl(t);
    } else {
      var n := |ws| - 1;
      RowsLoopOk(t, x, ws[..n], lower, upper);
      var (p, done) := RowsLoop(t, x, ws[..n], lower, upper);
      var (p', r) := RowStep(p, x, ws[n], upper);
      RowStepOk(p, x, ws[n], upper);
      TrimmedTransitive(t, p.table, p'.table);
      TrimmedKeys(t, p'.table);
      if p'.end.Going? {
        forall i | 0 <= i < n
          ensures Passed(p', x, ws[i], done[i])
        {
          assert ws[..n][i] == ws[i];
          StillPassed(p, p', x, ws[i], done[i]);
        }
      }
    }
  }

  // ----- the contract of validate -----------------------------------------------------------

  /** Every row keeps its readers, and at most gets this transaction as its registered writer; other
      transactions keep their state and lower bound, only running ones lose room, none all of it. */
  lemma ValidateTrims(v: Variant, t: Table, x: Tx, lastWrite: Ts, ws: seq<Row>)
    requires x in t && lastWrite < UINT64_MAX && LastReadsBelowMax(ws)
    ensures var (rc, t', rows) := ValidateRows(v, t, x, lastWrite, ws);
            && t'.Keys == t.Keys && (forall y :: y in t && y != x ==> TrimmedEntry(t[y], t'[y]))
            && t[x].lower <= t'[x].lower && t'[x].upper == t[x].upper
            && t'[x].state == (if rc == RcOk then Validated else Aborted)
            && (rc == RcOk ==> t'[x].lower < t'[x].upper)
            && forall i :: 0 <= i < |ws| ==>
                 rows[i] == ws[i] || (ws[i].writeTrans == 0 && rows[i] == ws[i].(writeTrans := x))
  {
    hide RowsLoop;
    RowsLoopOk(t, x, ws, FirstLower(v, t, x, lastWrite, ws), Upper(t, x));
  }

  /** On success the transaction is the registered writer of every row it writes, nobody else had
      registered there, its lower bound is above the last read of each of these rows, and every other
      reader of them that has not aborted and may still commit ends at or below its lower bound. */
  lemma ValidateServesReaders(v: Variant, t: Table, x: Tx, lastWrite: Ts, ws: seq<Row>, i: nat)
    requires x in t && lastWrite < UINT64_MAX && LastReadsBelowMax(ws) && i < |ws|
    requires ValidateRows(v, t, x, lastWrite, ws).0 == RcOk
    ensures var (_, t', rows) := ValidateRows(v, t, x, lastWrite, ws);
            && x in t' && rows[i] == ws[i].(writeTrans := x) && (ws[i].writeTrans == 0 || ws[i].writeTrans == x)
            && ws[i].lastRead < t'[x].lower
            && forall y :: y in ws[i].readers && y != x ==> Served(t', y, t'[x].lower)
  {
    hide RowsLoop;
    RowsLoopOk(t, x, ws, FirstLower(v, t, x, lastWrite, ws), Upper(t, x));
    var (p, rows) := RowsLoop(t, x, ws, FirstLower(v, t, x, lastWrite, ws), Upper(t, x));
    assert Passed(p, x, ws[i], rows[i]);
  }

  /** On success DTA's writer is also above the greatest write timestamp it has learned, and nobody is ever
      below where its interval began. */
  lemma ValidateAboveWrites(v: Variant, t: Table, x: Tx, lastWrite: Ts, ws: seq<Row>)
    requires x in t && lastWrite < UINT64_MAX && LastReadsBelowMax(ws)
    requires ValidateRows(v, t, x, lastWrite, ws).0 == RcOk
    ensures var t' := ValidateRows(v, t, x, lastWrite, ws).1;
            x in t' && t[x].lower <= t'[x].lower && (v.DtaVariant? && ws != [] ==> lastWrite < t'[x].lower)
  {
    hide RowsLoop;
    RowsLoopOk(t, x, ws, FirstLower(v, t, x, lastWrite, ws), Upper(t, x));
  }

  // ----- why a bound is where it is ---------------------------------------------------------

  /** A reader that the bound has been moved past, if only just. */
  ghost predicate PushedBy(t: Table, y: Tx, l: Ts) {
    && y in t
    && ((Decided(t[y].state) && l == t[y].upper) || (t[y].state == Running && l == t[y].lower + 1))
  }

  ghost predicate PushedBySome(t: Table, x: Tx, rs: seq<Tx>, l: Ts) {
    exists y :: y in rs && y != x && PushedBy(t, y, l)
  }

  lemma PushedBefore(t: Table, t': Table, y: Tx, l: Ts)
    requires Trimmed(t, t') && PushedBy(t', y, l)
    ensures PushedBy(t, y, l)
  {
    assert TrimmedEntry(t[y], t'[y]);
  }

  lemma {:induction false} ReadersLoopReason(t: Table, x: Tx, rs: seq<Tx>, lower: Ts, upper: Ts)
    ensures var s := ReadersLoop(t, x, rs, lower, upper); s.lower == lower || PushedBySome(t, x, rs, s.lower)
    ensures forall y :: y in t && y !in rs ==>
              y in ReadersLoop(t, x, rs, lower, upper).table && ReadersLoop(t, x, rs, lower, upper).table[y] == t[y]
  {
    if rs != [] {
      hide Trimmed, PushedBy;
      var n := |rs| - 1;
      assert rs == rs[..n] + [rs[n]];
      ReadersLoopReason(t, x, rs[..n], lower, upper);
      ReadersLoopOk(t, x, rs[..n], lower, upper);
      var s := ReadersLoop(t, x, rs[..n], lower, upper);
      var l := ReaderStep(s.table, rs[n], s.lower).0;
      if !s.exit && s.lower < upper && rs[n] != x && l != s.lower {
        StepReason(s.table, rs[n], s.lower);
        PushedBefore(t, s.table, rs[n], l);
      }
      TrimmedKeys(t, s.table);
    }
  }

  lemma StepReason(t: Table, y: Tx, lower: Ts)
    ensures var l := ReaderStep(t, y, lower).0; l == lower || PushedBy(t, y, l)
  {
  }

  /** The bound began there, or is just above the last read of a row, or a reader of a row pushed it there. */
  ghost predicate Reasoned(t: Table, x: Tx, ws: seq<Row>, first: Ts, l: Ts) {
    || l == first
    || exists i :: 0 <= i < |ws| && (l == ws[i].lastRead + 1 || PushedBySome(t, x, ws[i].readers, l))
  }

  lemma RowStepReason(t: Table, p: Progress, x: Tx, r: Row, upper: Ts)
    requires Trimmed(t, p.table) && r.lastRead < UINT64_MAX
    ensures var p' := RowStep(p, x, r, upper).0;
            p'.lower == p.lower || p'.lower == r.lastRead + 1 || PushedBySome(t, x, r.readers, p'.lower)
    ensures RowStep(p, x, r, upper).1 != r ==> p.end.Going? && Above(p.lower, r.lastRead) < upper && r.writeTrans == 0
    ensures RowStep(p, x, r, upper).0.end.Taken? ==> p.end.Taken? || (r.writeTrans != 0 && r.writeTrans != x)
  {
    hide Trimmed, PushedBy, ReadersLoop;
    if p.end.Going? {
      var l := Above(p.lower, r.lastRead);
      ReadersLoopReason(p.table, x, r.readers, l, upper);
      var s := ReadersLoop(p.table, x, r.readers, l, upper);
      if PushedBySome(p.table, x, r.readers, s.lower) {
        var y :| y in r.readers && y != x && PushedBy(p.table, y, s.lower);
        PushedBefore(t, p.table, y, s.lower);
      }
    }
  }

  lemma {:induction false} RowsLoopReason(t: Table, x: Tx, ws: seq<Row>, lower: Ts, upper: Ts)
    requires LastReadsBelowMax(ws)
    ensures var p := RowsLoop(t, x, ws, lower, upper).0;
            && Reasoned(t, x, ws, lower, p.lower)
            && (p.end.Taken? ==> exists i :: 0 <= i < |ws| && ws[i].writeTrans != 0 && ws[i].writeTrans != x)
  {
    if ws != [] {
      hide RowStep, PushedBySome, Above;
      var n := |ws| - 1;
      RowsLoopReason(t, x, ws[..n], lower, upper);
      RowsLoopOk(t, x, ws[..n], lower, upper);
      var p := RowsLoop(t, x, ws[..n], lower, upper).0;
      RowStepReason(t, p, x, ws[n], upper);
      if i :| 0 <= i < n &&
              (p.lower == ws[..n][i].lastRead + 1 || PushedBySome(t, x, ws[..n][i].readers, p.lower)) {
        assert ws[..n][i] == ws[i];
      }
    }
  }

  /** Validation refuses for a reason: another writer is registered on a row, or there is no room, because the
      interval began there, or the write seen (DTA), the last read or a reader of a row left none. And on
      success the lower bound is no higher than one of these reasons asks for. */
  lemma ValidateHasReason(v: Variant, t: Table, x: Tx, lastWrite: Ts, ws: seq<Row>)
    requires x in t && lastWrite < UINT64_MAX && LastReadsBelowMax(ws)
    ensures var (rc, t', _) := ValidateRows(v, t, x, lastWrite, ws);
            var first := if v.DtaVariant? && ws != [] && t[x].lower <= lastWrite then lastWrite + 1 else t[x].lower;
            && (rc == RcOk ==> x in t' && Reasoned(t, x, ws, first, t'[x].lower))
            && (rc == Abort ==>
                  || (exists i :: 0 <= i < |ws| && ws[i].writeTrans != 0 && ws[i].writeTrans != x)
                  || exists l: Ts :: Reasoned(t, x, ws, first, l) && l >= t[x].upper)
  {
    hide RowsLoop, Reasoned;
    var first := FirstLower(v, t, x, lastWrite, ws);
    RowsLoopReason(t, x, ws, first, Upper(t, x));
    RowsLoopOk(t, x, ws, first, Upper(t, x));
  }
}

/** Building blocks for runs of DTA and WOOKONG: single steps, and validation with one row to write. */
module DtaSteps {
  import opened SerialHistory
  import opened Maat
  import opened Dta
  import opened DtaRuns

  /** A write set of one row, and readers lists of up to two. */
  lemma OneRow(t: Table, x: Tx, r: Row, lower: Ts, upper: Ts)
    ensures var (p, r') := RowStep(Progress(lower, t, Going), x, r, upper);
            RowsLoop(t, x, [r], lower, upper) == (p, [r'])
  {
    assert [r][..0] == [];
    assert RowsLoop(t, x, [], lower, upper) == (Progress(lower, t, Going), []);
    var (p, r') := RowStep(Progress(lower, t, Going), x, r, upper);
    assert [] + [r'] == [r'];
  }

  lemma OnlyReader(t: Table, x: Tx, lower: Ts, upper: Ts)
    requires lower < upper
    ensures ReadersLoop(t, x, [x], lower, upper) == Scan(lower, t, false)
  {
    assert [x][..0] == [];
  }

  lemma OtherReader(t: Table, x: Tx, y: Tx, lower: Ts, upper: Ts)
    requires y != x && lower < upper && ReaderStep(t, y, lower).0 < upper
    ensures var (l, t') := ReaderStep(t, y, lower);
            ReadersLoop(t, x, [y, x], lower, upper) == Scan(l, t', false)
  {
    assert [y, x][..1] == [y] && [y][..0] == [];
    var (l, t') := ReaderStep(t, y, lower);
    assert ReadersLoop(t, x, [], lower, upper) == Scan(lower, t, false);
    assert ReadersLoop(t, x, [y], lower, upper) == Scan(l, t', false);
  }

  /** A successful validation with one row in the write set. */
  lemma ValidateOneRow(v: Variant, t: Table, x: Tx, r: Row, scan: Scan)
    requires x in t && t[x].lower > 0 && t[x].upper == UINT64_MAX && r.writeTrans in {0, x}
    requires Above(t[x].lower, r.lastRead) < UINT64_MAX && !scan.exit && scan.lower < UINT64_MAX
    requires ReadersLoop(t, x, r.readers, Above(t[x].lower, r.lastRead), UINT64_MAX) == scan
    ensures ValidateRows(v, t, x, 0, [r]) ==
            (RcOk, Dta.Store(scan.table, x, scan.lower, UINT64_MAX, Validated), [r.(writeTrans := x)])
  {
    hide ReadersLoop, Dta.Store, RowsLoop;
    OneRow(t, x, r, t[x].lower, UINT64_MAX);
  }

  lemma ValidateOne(s: System, s': System, x: Tx, k: Key, scan: Scan)
    requires x in s.begun && s.begun[x].greatest == 0
    requires x in s.table && s.table[x].state == Running && s.table[x].lower > 0 && s.table[x].upper == UINT64_MAX
    requires !Waits(s, x) && k in s.rows && s.rows[k].writeTrans in {0, x}
    requires var lower := Above(s.table[x].lower, s.rows[k].lastRead);
             lower < UINT64_MAX && ReadersLoop(s.table, x, s.rows[k].readers, lower, UINT64_MAX) == scan
    requires !scan.exit && scan.lower < UINT64_MAX
    requires s'.table == Dta.Store(scan.table, x, scan.lower, UINT64_MAX, Validated)
    requires s' == s.(table := s'.table, rows := s.rows[k := s.rows[k].(writeTrans := x)])
    ensures ValidateTxn(s, s', x, [k]) && Step(s, s')
    ensures ValidateRows(s.variant, s.table, x, 0, RowsAt(s, [k])).0 == RcOk
  {
    hide ReadersLoop, Waits, Step, Dta.Store, ValidateRows, Above;
    assert RowsAt(s, [k]) == [s.rows[k]];
    ValidateOneRow(s.variant, s.table, x, s.rows[k], scan);
    ValidateIsStep(s, s', x, k);
  }

  lemma ValidateIsStep(s: System, s': System, x: Tx, k: Key)
    requires ValidateTxn(s, s', x, [k])
    ensures Step(s, s')
  {
  }

  lemma NotWaiting(s: System, x: Tx)
    requires forall k :: k in s.buffers ==> x !in s.buffers[k]
    ensures !Waits(s, x)
  {
  }

  lemma BeginIsStep(s: System, s': System, x: Tx, start: Ts)
    requires Begin(s, s', x, start)
    ensures Step(s, s')
  {
  }

  lemma AccessIsStep(s: System, s': System, x: Tx, k: Key)
    requires AccessRow(s, s', x, k) || ReadRow(s, s', x, k)
    ensures Step(s, s')
  {
  }

  lemma ChooseIsStep(s: System, s': System, x: Tx)
    requires ChooseTs(s, s', x)
    ensures Step(s, s')
  {
  }

  lemma LeaveIsStep(s: System, s': System, x: Tx, k: Key, w: Tx)
    requires LeaveRow(s, s', x, k, w)
    ensures Step(s, s')
  {
  }

  lemma WakeIsStep(s: System, s': System, x: Tx, k: Key, w: Tx, y: Tx)
    requires LeaveAndWake(s, s', x, k, w, y)
    ensures Step(s, s')
  {
    assert Woken(s, s', y);
  }
}

/** MAAT: every transaction owns an interval of possible commit timestamps in a time table; validation
    pushes the intervals of conflicting transactions apart (concurrency_control/maat.cpp). */
module Maat {
  import opened SerialHistory

  type Tx = nat

  datatype Rc = RcOk | Abort
  datatype State = Running | Validated | Committed | Aborted

  datatype Interval = Interval(lower: Ts, upper: Ts, state: State)

  /** The time table. An absent entry reads as [0, UINT64_MAX] and aborted; setting it does nothing. */
  type Table = map<Tx, Interval>

  function Lower(t: Table, x: Tx): Ts {
    if x in t then t[x].lower else 0
  }

  function Upper(t: Table, x: Tx): Ts {
    if x in t then t[x].upper else UINT64_MAX
  }

  function StateOf(t: Table, x: Tx): State {
    if x in t then t[x].state else Aborted
  }

  function SetLower(t: Table, x: Tx, v: Ts): Table {
    if x in t then t[x := t[x].(lower := v)] else t
  }

  function SetUpper(t: Table, x: Tx, v: Ts): Table {
    if x in t then t[x := t[x].(upper := v)] else t
  }

  function SetState(t: Table, x: Tx, st: State): Table {
    if x in t then t[x := t[x].(state := st)] else t
  }

  predicate Decided(st: State) {
    st == Validated || st == Committed
  }

  /** 64-bit addition and subtraction wrap around. */
  function Plus(a: Ts, b: Ts): Ts {
    if a + b <= UINT64_MAX then a + b else a + b - UINT64_MAX - 1
  }

  function Minus(a: Ts, b: Ts): Ts {
    if a >= b then a - b else a - b + UINT64_MAX + 1
  }

  /** What the rows told a transaction: pending writers of rows it read, pending readers and pending
      writers of rows it writes (in iteration order), and the largest write and read timestamps. */
  datatype Deps = Deps(writes: seq<Tx>, readers: seq<Tx>, writesY: seq<Tx>, lastWrite: Ts, lastRead: Ts)

  /** Insertion into an ordered set. */
  function Insert(s: seq<Tx>, x: Tx): (r: seq<Tx>)
    ensures forall y :: y in r <==> y in s || y == x
  {
    if s == [] || x < s[0] then [x] + s
    else if x == s[0] then s
    else
      assert s == [s[0]] + s[1..];
      [s[0]] + Insert(s[1..], x)
  }

  // ----- validate, loop by loop -------------------------------------------------------------

  function Above(lower: Ts, ts: Ts): Ts {
    if lower <= ts then Plus(ts, 1) else lower
  }

  /** Pending writers of rows that were read: stay below the decided ones, remember the running ones. */
  function ScanWrites(t: Table, ws: seq<Tx>, upper: Ts): (Ts, seq<Tx>) {
    if ws == [] then (upper, []) else
      var n := |ws| - 1;
      var (u, after) := ScanWrites(t, ws[..n], upper);
      var x := ws[n];
      if u < Lower(t, x) then (u, after)
      else if Decided(StateOf(t, x)) then (if Lower(t, x) > 0 then Lower(t, x) - 1 else Lower(t, x), after)
      else if StateOf(t, x) == Running then (u, Insert(after, x))
      else (u, after)
  }

  /** Pending readers of rows that are written: stay above the decided ones. */
  function ScanReaders(t: Table, rs: seq<Tx>, lower: Ts): (Ts, seq<Tx>) {
    if rs == [] then (lower, []) else
      var n := |rs| - 1;
      var (l, before) := ScanReaders(t, rs[..n], lower);
      var x := rs[n];
      if l > Upper(t, x) then (l, before)
      else if Decided(StateOf(t, x)) then
        (if Upper(t, x) < UINT64_MAX then Upper(t, x) + 1 else Upper(t, x), before)
      else if StateOf(t, x) == Running then (l, Insert(before, x))
      else (l, before)
  }

  /** Pending writers of rows that are written: stay above the decided ones, below the running ones. */
  function ScanWritesY(t: Table, ys: seq<Tx>, lower: Ts, after: seq<Tx>): (Ts, seq<Tx>) {
    if ys == [] then (lower, after) else
      var n := |ys| - 1;
      var (l, a) := ScanWritesY(t, ys[..n], lower, after);
      var x := ys[n];
      if Decided(StateOf(t, x)) then
        (if l > Upper(t, x) then l else if Upper(t, x) < UINT64_MAX then Upper(t, x) + 1 else Upper(t, x), a)
      else if StateOf(t, x) == Running then (l, Insert(a, x))
      else (l, a)
  }

  /** Move above running readers where that leaves room. */
  function RaiseLower(t: Table, before: seq<Tx>, lower: Ts, upper: Ts): Ts {
    if before == [] then lower else
      var n := |before| - 1;
      var l := RaiseLower(t, before[..n], lower, upper);
      var u := Upper(t, before[n]);
      if u > l && u < Minus(upper, 1) then Plus(u, 1) else l
  }

  /** Cut running readers off below. */
  function CutReaders(t: Table, before: seq<Tx>, lower: Ts): Table {
    if before == [] then t else
      var n := |before| - 1;
      var t' := CutReaders(t, before[..n], lower);
      if Upper(t', before[n]) >= lower then
        SetUpper(t', before[n], if lower > 0 then lower - 1 else lower)
      else t'
  }

  /** Give room to running writers. */
  function DropUpper(t: Table, after: seq<Tx>, lower: Ts, upper: Ts): Ts {
    if after == [] then upper else
      var n := |after| - 1;
      var u := DropUpper(t, after[..n], lower, upper);
      var itLower, itUpper := Lower(t, after[n]), Upper(t, after[n]);
      var u' := if itUpper != UINT64_MAX && itUpper > Plus(lower, 2) && itUpper < u then Minus(itUpper, 2) else u;
      if itLower < u' && itLower > Plus(lower, 1) then Minus(itLower, 1) else u'
  }

  /** Push running writers above. */
  function PushWriters(t: Table, after: seq<Tx>, upper: Ts): Table {
    if after == [] then t else
      var n := |after| - 1;
      var t' := PushWriters(t, after[..n], upper);
      if Lower(t', after[n]) <= upper then
        SetLower(t', after[n], if upper < UINT64_MAX then upper + 1 else upper)
      else t'
  }

  /** What the first three loops find out. */
  datatype Plan = Plan(lower: Ts, upper: Ts, before: seq<Tx>, after: seq<Tx>)

  function MakePlan(t: Table, x: Tx, d: Deps): Plan {
    var lower1 := Above(Lower(t, x), d.lastWrite);
    var (upper, after1) := ScanWrites(t, d.writes, Upper(t, x));
    var lower2 := Above(lower1, d.lastRead);
    var (lower3, before) := ScanReaders(t, d.readers, lower2);
    var (lower, after) := ScanWritesY(t, d.writesY, lower3, after1);
    Plan(lower, upper, before, after)
  }

  /** The table in which the bounds of a successful transaction are looked up and adjusted. */
  function Adjust(t: Table, x: Tx, p: Plan): Table {
    var t1 := SetState(t, x, Validated);
    var lower := RaiseLower(t1, p.before, p.lower, p.upper);
    var t2 := CutReaders(t1, p.before, lower);
    var upper := DropUpper(t2, p.after, lower, p.upper);
    SetUpper(SetLower(PushWriters(t2, p.after, upper), x, lower), x, upper)
  }

  function Validate(t: Table, x: Tx, d: Deps): (Rc, Table) {
    var p := MakePlan(t, x, d);
    if p.lower >= p.upper then (Abort, SetUpper(SetLower(SetState(t, x, Aborted), x, p.lower), x, p.upper))
    else (RcOk, Adjust(t, x, p))
  }

  /** find_bound: an empty interval aborts, otherwise the lower bound is the commit timestamp. */
  function FindBound(t: Table, x: Tx): (Rc, Table, Ts) {
    if Lower(t, x) >= Upper(t, x) then (Abort, SetState(t, x, Validated), 0)
    else (RcOk, SetState(t, x, Committed), Lower(t, x))
  }

  // ----- the scans --------------------------------------------------------------------------

  lemma {:induction false} ScanWritesOk(t: Table, ws: seq<Tx>, upper: Ts)
    ensures var (u, after) := ScanWrites(t, ws, upper);
            && u <= upper
            && (forall y :: y in after ==> y in ws && StateOf(t, y) == Running)
            && (forall y :: y in ws && Decided(StateOf(t, y)) ==> u < Lower(t, y) || u == 0)
            && (forall y :: y in ws && StateOf(t, y) == Running ==> y in after || u < Lower(t, y))
  {
    if ws != [] {
      var n := |ws| - 1;
      ScanWritesOk(t, ws[..n], upper);
      assert ws == ws[..n] + [ws[n]];
    }
  }

  lemma {:induction false} ScanReadersOk(t: Table, rs: seq<Tx>, lower: Ts)
    ensures var (l, before) := ScanReaders(t, rs, lower);
            lower <= l && forall y :: y in before ==> y in rs && StateOf(t, y) == Running
  {
    if rs != [] {
      var n := |rs| - 1;
      ScanReadersOk(t, rs[..n], lower);
    }
  }

  lemma {:induction false} ScanReadersMeets(t: Table, rs: seq<Tx>, lower: Ts, y: Tx)
    requires y in rs
    ensures var (l, before) := ScanReaders(t, rs, lower);
            && (Decided(StateOf(t, y)) ==> Upper(t, y) < l || l == UINT64_MAX)
            && (StateOf(t, y) == Running ==> y in before || Upper(t, y) < l)
  {
    var n := |rs| - 1;
    if y != rs[n] {
      ScanReadersMeets(t, rs[..n], lower, y);
    }
  }

  lemma {:induction false} ScanWritesYOk(t: Table, ys: seq<Tx>, lower: Ts, after: seq<Tx>)
    ensures var (l, a) := ScanWritesY(t, ys, lower, after);
            && lower <= l
            && (forall y :: y in a <==> y in after || (y in ys && StateOf(t, y) == Running))
            && (forall y :: y in ys && Decided(StateOf(t, y)) ==> Upper(t, y) < l || l == UINT64_MAX)
  {
    if ys != [] {
      var n := |ys| - 1;
      ScanWritesYOk(t, ys[..n], lower, after);
      assert ys == ys[..n] + [ys[n]];
    }
  }

  lemma {:induction false} RaiseLowerOk(t: Table, before: seq<Tx>, lower: Ts, upper: Ts)
    requires lower < upper
    ensures lower <= RaiseLower(t, before, lower, upper) < upper
  {
    if before != [] {
      RaiseLowerOk(t, before[..|before| - 1], lower, upper);
    }
  }

  /** As long as adding two to the lower bound does not wrap, room for writers never empties the interval. */
  lemma {:induction false} DropUpperOk(t: Table, after: seq<Tx>, lower: Ts, upper: Ts)
    requires lower < upper && lower + 2 <= UINT64_MAX
    ensures lower < DropUpper(t, after, lower, upper) <= upper
  {
    if after != [] {
      DropUpperOk(t, after[..|after| - 1], lower, upper);
    }
  }

  /** `t'` differs from `t` by narrower intervals only. */
  ghost predicate Narrower(t: Table, t': Table) {
    && t'.Keys == t.Keys
    && forall y :: y in t ==> t[y].lower <= t'[y].lower && t'[y].upper <= t[y].upper
  }

  function Cut(i: Interval, lower: Ts): Interval {
    if i.upper >= lower then i.(upper := if lower > 0 then lower - 1 else lower) else i
  }

  function Lift(i: Interval, upper: Ts): Interval {
    if i.lower <= upper then i.(lower := if upper < UINT64_MAX then upper + 1 else upper) else i
  }

  lemma {:induction false} CutReadersOk(t: Table, before: seq<Tx>, lower: Ts)
    ensures var t' := CutReaders(t, before, lower);
            t'.Keys == t.Keys && forall y :: y in t ==> t'[y] == if y in before then Cut(t[y], lower) else t[y]
  {
    if before != [] {
      var n := |before| - 1;
      CutReadersOk(t, before[..n], lower);
      assert before == before[..n] + [before[n]];
    }
  }

  lemma {:induction false} PushWritersOk(t: Table, after: seq<Tx>, upper: Ts)
    ensures var t' := PushWriters(t, after, upper);
            t'.Keys == t.Keys && forall y :: y in t ==> t'[y] == if y in after then Lift(t[y], upper) else t[y]
  {
    if after != [] {
      var n := |after| - 1;
      PushWritersOk(t, after[..n], upper);
      assert after == after[..n] + [after[n]];
    }
  }

  // ----- the contract of validate -----------------------------------------------------------

  /** What the scans leave open: decided transactions are out of the way, running ones are listed. */
  ghost predicate PlanOk(t: Table, x: Tx, d: Deps, p: Plan) {
    && Lower(t, x) <= p.lower && p.upper <= Upper(t, x) && d.lastWrite < p.lower && d.lastRead < p.lower
    && (forall y :: y in p.before ==> y in d.readers && StateOf(t, y) == Running)
    && (forall y :: y in p.after ==> (y in d.writes || y in d.writesY) && StateOf(t, y) == Running)
    && (forall y :: y in d.readers && Decided(StateOf(t, y)) ==> Upper(t, y) < p.lower || p.lower == UINT64_MAX)
    && (forall y :: y in d.readers && StateOf(t, y) == Running ==> y in p.before || Upper(t, y) < p.lower)
    && (forall y :: y in d.writes && Decided(StateOf(t, y)) ==> p.upper < Lower(t, y) || p.upper == 0)
    && (forall y :: y in d.writes && StateOf(t, y) == Running ==> y in p.after || p.upper < Lower(t, y))
    && (forall y :: y in d.writesY && Decided(StateOf(t, y)) ==> Upper(t, y) < p.lower || p.lower == UINT64_MAX)
    && (forall y :: y in d.writesY && StateOf(t, y) == Running ==> y in p.after)
  }

  lemma MakePlanOk(t: Table, x: Tx, d: Deps)
    requires d.lastWrite < UINT64_MAX && d.lastRead < UINT64_MAX
    ensures PlanOk(t, x, d, MakePlan(t, x, d))
  {
    var lower1 := Above(Lower(t, x), d.lastWrite);
    var (upper, after1) := ScanWrites(t, d.writes, Upper(t, x));
    ScanWritesOk(t, d.writes, Upper(t, x));
    var lower2 := Above(lower1, d.lastRead);
    var (lower3, before) := ScanReaders(t, d.readers, lower2);
    ScanReadersOk(t, d.readers, lower2);
    forall y | y in d.readers
      ensures Decided(StateOf(t, y)) ==> Upper(t, y) < lower3 || lower3 == UINT64_MAX
      ensures StateOf(t, y) == Running ==> y in before || Upper(t, y) < lower3
    {
      ScanReadersMeets(t, d.readers, lower2, y);
    }
    ScanWritesYOk(t, d.writesY, lower3, after1);
  }

  /** The lower bound once room above running readers has been looked for. */
  function FinalLower(t: Table, x: Tx, p: Plan): Ts {
    RaiseLower(SetState(t, x, Validated), p.before, p.lower, p.upper)
  }

  /** What adjusting does to every entry: the transaction's own bounds, cut readers, lifted writers. */
  lemma AdjustOk(t: Table, x: Tx, p: Plan)
    requires x in t && x !in p.before && x !in p.after
    requires p.lower < p.upper && FinalLower(t, x, p) + 2 <= UINT64_MAX
    ensures var t' := Adjust(t, x, p);
            && t'.Keys == t.Keys && t'[x].state == Validated
            && p.lower <= t'[x].lower < t'[x].upper <= p.upper
            && forall y :: y in t && y != x ==>
                 var i := if y in p.before then Cut(t[y], t'[x].lower) else t[y];
                 t'[y] == if y in p.after then Lift(i, t'[x].upper) else i
  {
    var t1 := SetState(t, x, Validated);
    var lower := RaiseLower(t1, p.before, p.lower, p.upper);
    RaiseLowerOk(t1, p.before, p.lower, p.upper);
    var t2 := CutReaders(t1, p.before, lower);
    CutReadersOk(t1, p.before, lower);
    var upper := DropUpper(t2, p.after, lower, p.upper);
    DropUpperOk(t2, p.after, lower, p.upper);
    PushWritersOk(t2, p.after, upper);
  }

  /** A transaction with its own interval and its dependency sets, none of which contains itself. */
  ghost predicate MayValidate(t: Table, x: Tx, d: Deps) {
    && x in t && x !in d.writes && x !in d.readers && x !in d.writesY
    && d.lastWrite < UINT64_MAX && d.lastRead < UINT64_MAX
  }

  /** The one addition in validate that can wrap does not. */
  ghost predicate NoWrap(t: Table, x: Tx, d: Deps) {
    var p := MakePlan(t, x, d);
    p.lower < p.upper ==> FinalLower(t, x, p) + 2 <= UINT64_MAX
  }

  ghost predicate Below(a: Interval, b: Interval) {
    a.upper < b.lower
  }

  /** Below, or pushed as far up as possible, which empties the interval. */
  ghost predicate BelowOrEmpty(a: Interval, b: Interval) {
    Below(a, b) || b.lower == UINT64_MAX
  }

  /** Every entry is kept, narrowed at most; nobody else changes state; an abort touches nobody else. */
  lemma ValidateNarrows(t: Table, x: Tx, d: Deps)
    requires MayValidate(t, x, d) && NoWrap(t, x, d)
    ensures var (rc, t') := Validate(t, x, d);
            && Narrower(t, t')
            && t'[x].state == (if rc == RcOk then Validated else Aborted)
            && (rc == RcOk <==> t'[x].lower < t'[x].upper)
            && d.lastWrite < t'[x].lower && d.lastRead < t'[x].lower
            && forall y :: y in t && y != x ==>
                 t'[y].state == t[y].state && (rc == Abort || t[y].state != Running ==> t'[y] == t[y])
  {
    hide PlanOk, MakePlan;
    var p := MakePlan(t, x, d);
    MakePlanOk(t, x, d);
    PlanBounds(t, x, d, p);
    if p.lower < p.upper {
      AdjustOk(t, x, p);
    }
  }

  lemma PlanBounds(t: Table, x: Tx, d: Deps, p: Plan)
    requires MayValidate(t, x, d) && PlanOk(t, x, d, p)
    ensures x !in p.before && x !in p.after
    ensures t[x].lower <= p.lower && p.upper <= t[x].upper && d.lastWrite < p.lower && d.lastRead < p.lower
    ensures forall y :: y in p.before || y in p.after ==> StateOf(t, y) == Running
  {
  }

  /** After a successful validation the interval is separated from that of every transaction in the
      dependency sets that has not aborted: readers below, pending writers of rows it read above,
      writers of rows it writes below if they were decided and above if they were running. */
  lemma ValidateSeparates(t: Table, x: Tx, d: Deps, y: Tx)
    requires MayValidate(t, x, d) && NoWrap(t, x, d) && Validate(t, x, d).0 == RcOk
    requires y in t && t[y].state != Aborted
    ensures var t' := Validate(t, x, d).1;
            && x in t' && y in t'
            && (y in d.readers ==> Below(t'[y], t'[x]))
            && (y in d.writes ==> BelowOrEmpty(t'[x], t'[y]))
            && (y in d.writesY && Decided(t[y].state) ==> Below(t'[y], t'[x]))
            && (y in d.writesY && t[y].state == Running ==> BelowOrEmpty(t'[x], t'[y]))
  {
    hide MakePlan;
    var p := MakePlan(t, x, d);
    MakePlanOk(t, x, d);
    AdjustOk(t, x, p);
  }

  /** Making room for writers keeps the interval non-empty exactly when the lower bound is at least two
      below the largest timestamp; one below it, the sum wraps around and a writer can empty it. */
  lemma RoomIsSafeExactly(lower: Ts)
    requires lower < UINT64_MAX
    ensures lower + 2 <= UINT64_MAX <==>
            forall t, after, upper: Ts :: lower < upper ==> lower < DropUpper(t, after, lower, upper)
  {
    if lower + 2 <= UINT64_MAX {
      forall t, after, upper: Ts | lower < upper
        ensures lower < DropUpper(t, after, lower, upper)
      {
        DropUpperOk(t, after, lower, upper);
      }
    } else {
      var t: Table := map[0 := Interval(0, 5, Running)];
      assert [0][..0] == [];
      assert DropUpper(t, [0], lower, UINT64_MAX) == 3;
    }
  }

  // ----- exactly how far --------------------------------------------------------------------

  ghost predicate Ascending(s: seq<Tx>) {
    forall i, j :: 0 <= i < j < |s| ==> s[i] < s[j]
  }

  /** Sets are kept in order, each element once, as the loops visit them. */
  lemma {:induction false} InsertAscending(s: seq<Tx>, x: Tx)
    requires Ascending(s)
    ensures Ascending(Insert(s, x))
  {
    if s != [] && x > s[0] {
      InsertAscending(s[1..], x);
      var r := Insert(s[1..], x);
      assert forall i :: 0 <= i < |r| ==> r[i] in r;
    }
  }

  /** Not below where the interval began, above the timestamps seen, and above every decided transaction that
      has to come before. */
  ghost predicate AboveAll(t: Table, x: Tx, d: Deps, b: Ts) {
    && Lower(t, x) <= b && d.lastWrite < b && d.lastRead < b
    && (forall y :: y in d.readers && Decided(StateOf(t, y)) ==> Upper(t, y) < b)
    && (forall y :: y in d.writesY && Decided(StateOf(t, y)) ==> Upper(t, y) < b)
  }

  /** Not above where the interval ended, and below every decided transaction that has to come after. */
  ghost predicate BelowAll(t: Table, x: Tx, d: Deps, b: Ts) {
    b <= Upper(t, x) && forall y :: y in d.writes && Decided(StateOf(t, y)) ==> b < Lower(t, y)
  }

  lemma {:induction false} ScanWritesGreatest(t: Table, ws: seq<Tx>, upper: Ts, b: Ts)
    requires b <= upper && forall y :: y in ws && Decided(StateOf(t, y)) ==> b < Lower(t, y)
    ensures b <= ScanWrites(t, ws, upper).0
  {
    if ws != [] {
      ScanWritesGreatest(t, ws[..|ws| - 1], upper, b);
    }
  }

  lemma {:induction false} ScanReadersLeast(t: Table, rs: seq<Tx>, lower: Ts, b: Ts)
    requires lower <= b && forall y :: y in rs && Decided(StateOf(t, y)) ==> Upper(t, y) < b
    ensures ScanReaders(t, rs, lower).0 <= b
  {
    if rs != [] {
      ScanReadersLeast(t, rs[..|rs| - 1], lower, b);
    }
  }

  lemma {:induction false} ScanWritesYLeast(t: Table, ys: seq<Tx>, lower: Ts, after: seq<Tx>, b: Ts)
    requires lower <= b && forall y :: y in ys && Decided(StateOf(t, y)) ==> Upper(t, y) < b
    ensures ScanWritesY(t, ys, lower, after).0 <= b
  {
    if ys != [] {
      ScanWritesYLeast(t, ys[..|ys| - 1], lower, after, b);
    }
  }

  /** The bounds that validation plans with are the least and the greatest that are possible. */
  lemma PlanIsTightest(t: Table, x: Tx, d: Deps, b: Ts)
    requires d.lastWrite < UINT64_MAX && d.lastRead < UINT64_MAX
    ensures var p := MakePlan(t, x, d);
            && (AboveAll(t, x, d, b) ==> p.lower <= b) && (p.lower < UINT64_MAX ==> AboveAll(t, x, d, p.lower))
            && (BelowAll(t, x, d, b) ==> b <= p.upper) && (p.upper > 0 ==> BelowAll(t, x, d, p.upper))
  {
    MakePlanOk(t, x, d);
    if AboveAll(t, x, d, b) {
      var lower2 := Above(Above(Lower(t, x), d.lastWrite), d.lastRead);
      var after1 := ScanWrites(t, d.writes, Upper(t, x)).1;
      ScanReadersLeast(t, d.readers, lower2, b);
      ScanWritesYLeast(t, d.writesY, ScanReaders(t, d.readers, lower2).0, after1, b);
    }
    if BelowAll(t, x, d, b) {
      ScanWritesGreatest(t, d.writes, Upper(t, x), b);
    }
  }

  /** Validation succeeds exactly if there is room: a lower bound above everything that has to come before,
      and above it an upper bound below everything that has to come after. */
  lemma ValidateFindsRoomExactly(t: Table, x: Tx, d: Deps)
    requires d.lastWrite < UINT64_MAX && d.lastRead < UINT64_MAX
    ensures Validate(t, x, d).0 == RcOk <==>
            exists b: Ts, c: Ts :: AboveAll(t, x, d, b) && BelowAll(t, x, d, c) && b < c
  {
    hide MakePlan, Adjust, AboveAll, BelowAll;
    var p := MakePlan(t, x, d);
    PlanIsTightest(t, x, d, 0);
    if b: Ts, c: Ts :| AboveAll(t, x, d, b) && BelowAll(t, x, d, c) && b < c {
      PlanIsTightest(t, x, d, b);
      PlanIsTightest(t, x, d, c);
    }
  }

  /** Moving above running readers: past every one that leaves room below the upper bound, and no further. */
  lemma {:induction false} RaiseLowerExactly(t: Table, before: seq<Tx>, lower: Ts, upper: Ts)
    requires lower < upper
    ensures var l := RaiseLower(t, before, lower, upper);
            && lower <= l < upper
            && (forall y :: y in before ==> Upper(t, y) <= l || Upper(t, y) + 1 >= upper)
            && (l == lower || exists y :: y in before && lower < Upper(t, y) && l == Upper(t, y) + 1)
  {
    if before != [] {
      var n := |before| - 1;
      assert before == before[..n] + [before[n]];
      RaiseLowerExactly(t, before[..n], lower, upper);
    }
  }

  /** Giving room to running writers: below the beginning of every one that begins far enough above, below the
      end of every one whose end leaves room, and no further. */
  lemma {:induction false} DropUpperExactly(t: Table, after: seq<Tx>, lower: Ts, upper: Ts)
    requires lower < upper && lower + 2 <= UINT64_MAX
    ensures var u := DropUpper(t, after, lower, upper);
            && lower < u <= upper
            && (forall y :: y in after ==> Lower(t, y) <= lower + 1 || u <= Lower(t, y))
            && (forall y :: y in after ==> Upper(t, y) == UINT64_MAX || Upper(t, y) <= lower + 2 || u <= Upper(t, y))
            && (u == upper || exists y :: y in after && DroppedFor(t, y, lower, upper, u))
  {
    if after != [] {
      var n := |after| - 1;
      assert after == after[..n] + [after[n]];
      DropUpperExactly(t, after[..n], lower, upper);
      var u0, u := DropUpper(t, after[..n], lower, upper), DropUpper(t, after, lower, upper);
      if u != u0 {
        assert after[n] in after && DroppedFor(t, after[n], lower, upper, u);
      } else if u != upper {
        var y :| y in after[..n] && DroppedFor(t, y, lower, upper, u0);
        assert y in after;
      }
    }
  }

  ghost predicate DroppedFor(t: Table, y: Tx, lower: Ts, upper: Ts, u: Ts) {
    || (lower + 1 < Lower(t, y) < upper && u == Lower(t, y) - 1)
    || (lower + 2 < Upper(t, y) < upper && u == Upper(t, y) - 2)
  }

  /** find_bound commits exactly if the interval is not empty, at its lower bound. */
  lemma FindBoundExactly(t: Table, x: Tx)
    requires x in t
    ensures var (rc, t', ts) := FindBound(t, x);
            && (rc == RcOk <==> t[x].lower < t[x].upper) && (rc == RcOk ==> ts == t[x].lower)
            && x in t' && t' == t[x := t[x].(state := if rc == RcOk then Committed else Validated)]
  {
  }
}

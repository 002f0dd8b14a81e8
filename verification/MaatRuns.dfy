/** Rows under MAAT (concurrency_control/row_maat.cpp) and all runs of accesses, validations, bound
    selections and row commits with forward validation: the commit timestamps of two committed
    transactions are ordered as the dependency sets demand. */
module MaatRuns {
  import opened SerialHistory
  import opened Maat

  // ----- rows -------------------------------------------------------------------------------

  /** A row's last committed timestamps and the transactions with pending reads and writes. */
  datatype Row = Row(lastRead: Ts, lastWrite: Ts, readers: seq<Tx>, writers: seq<Tx>)

  function InsertAll(s: seq<Tx>, xs: seq<Tx>): (r: seq<Tx>)
    ensures forall y :: y in r <==> y in s || y in xs
  {
    if xs == [] then s else
      var n := |xs| - 1;
      assert xs == xs[..n] + [xs[n]];
      Insert(InsertAll(s, xs[..n]), xs[n])
  }

  function Erase(s: seq<Tx>, x: Tx): (r: seq<Tx>)
    ensures forall y :: y in r <==> y in s && y != x
  {
    if s == [] then [] else
      assert s == [s[0]] + s[1..];
      if s[0] == x then Erase(s[1..], x) else [s[0]] + Erase(s[1..], x)
  }

  function Max(a: Ts, b: Ts): Ts {
    if a < b then b else a
  }

  /** What a reader learns, and the row with its soft lock. */
  function Read(r: Row, x: Tx, d: Deps): (Row, Deps) {
    (r.(readers := Insert(r.readers, x)),
     d.(writes := InsertAll(d.writes, r.writers), lastWrite := Max(d.lastWrite, r.lastWrite)))
  }

  function Prewrite(r: Row, x: Tx, d: Deps): (Row, Deps) {
    (r.(writers := Insert(r.writers, x)),
     d.(readers := InsertAll(d.readers, r.readers), writesY := InsertAll(d.writesY, r.writers),
        lastRead := Max(d.lastRead, r.lastRead), lastWrite := Max(d.lastWrite, r.lastWrite)))
  }

  function ReadAndPrewrite(r: Row, x: Tx, d: Deps): (Row, Deps) {
    (r.(readers := Insert(r.readers, x), writers := Insert(r.writers, x)),
     Deps(InsertAll(d.writes, r.writers), InsertAll(d.readers, r.readers), InsertAll(d.writesY, r.writers),
          Max(d.lastWrite, r.lastWrite), Max(d.lastRead, r.lastRead)))
  }

  // ----- forward validation -----------------------------------------------------------------

  /** Writers the committing reader did not know go above its timestamp. */
  function ForwardUp(t: Table, ws: seq<Tx>, known: seq<Tx>, ts: Ts): Table {
    if ws == [] then t else
      var n := |ws| - 1;
      var t' := ForwardUp(t, ws[..n], known, ts);
      if ws[n] !in known && Lower(t', ws[n]) <= ts then SetLower(t', ws[n], Plus(ts, 1)) else t'
  }

  /** Transactions the committing writer did not know go below a bound. */
  function ForwardDown(t: Table, xs: seq<Tx>, known: seq<Tx>, ts: Ts): Table {
    if xs == [] then t else
      var n := |xs| - 1;
      var t' := ForwardDown(t, xs[..n], known, ts);
      if xs[n] !in known && Upper(t', xs[n]) >= ts then SetUpper(t', xs[n], Minus(ts, 1)) else t'
  }

  /** commit of a read: the row forgets the reader. */
  function CommitRead(r: Row, t: Table, x: Tx, ts: Ts, d: Deps): (Row, Table) {
    (r.(lastRead := Max(r.lastRead, ts), readers := Erase(r.readers, x)), ForwardUp(t, r.writers, d.writes, ts))
  }

  function CommitWrite(r: Row, t: Table, x: Tx, ts: Ts, d: Deps): (Row, Table) {
    var ws := Erase(r.writers, x);
    var t1 := ForwardDown(t, ws, d.writesY, ts);
    (r.(lastWrite := Max(r.lastWrite, ts), writers := ws), ForwardDown(t1, r.readers, d.readers, Lower(t, x)))
  }

  /** commit of a row both read and prewritten (the TPC-C build). */
  function CommitBoth(r: Row, t: Table, x: Tx, ts: Ts, d: Deps): (Row, Table) {
    var rs, ws := Erase(r.readers, x), Erase(r.writers, x);
    var t1 := ForwardUp(t, ws, d.writes, ts);
    var t2 := ForwardDown(t1, ws, d.writesY, ts);
    (Row(Max(r.lastRead, ts), Max(r.lastWrite, ts), rs, ws), ForwardDown(t2, rs, d.readers, Lower(t1, x)))
  }

  lemma {:induction false} ForwardUpOk(t: Table, ws: seq<Tx>, known: seq<Tx>, ts: Ts)
    requires ts < UINT64_MAX
    ensures var t' := ForwardUp(t, ws, known, ts);
            && t'.Keys == t.Keys
            && forall y :: y in t ==> t'[y] == if y in ws && y !in known then Lift(t[y], ts) else t[y]
  {
    if ws != [] {
      var n := |ws| - 1;
      ForwardUpOk(t, ws[..n], known, ts);
      assert ws == ws[..n] + [ws[n]];
    }
  }

  lemma {:induction false} ForwardDownOk(t: Table, xs: seq<Tx>, known: seq<Tx>, ts: Ts)
    requires ts > 0
    ensures var t' := ForwardDown(t, xs, known, ts);
            && t'.Keys == t.Keys
            && forall y :: y in t ==> t'[y] == if y in xs && y !in known then Cut(t[y], ts) else t[y]
  {
    if xs != [] {
      var n := |xs| - 1;
      ForwardDownOk(t, xs[..n], known, ts);
      assert xs == xs[..n] + [xs[n]];
    }
  }

  ghost predicate NarrowerOnly(t: Table, t': Table) {
    Narrower(t, t') && forall y :: y in t ==> t'[y].state == t[y].state
  }

  lemma NarrowerTransitive(t: Table, t': Table, t'': Table)
    requires NarrowerOnly(t, t') && NarrowerOnly(t', t'')
    ensures NarrowerOnly(t, t'')
  {
  }

  lemma ForwardUpNarrows(t: Table, ws: seq<Tx>, known: seq<Tx>, ts: Ts)
    requires ts < UINT64_MAX
    ensures NarrowerOnly(t, ForwardUp(t, ws, known, ts))
  {
    ForwardUpOk(t, ws, known, ts);
  }

  lemma ForwardDownNarrows(t: Table, xs: seq<Tx>, known: seq<Tx>, ts: Ts)
    requires ts > 0
    ensures NarrowerOnly(t, ForwardDown(t, xs, known, ts))
  {
    ForwardDownOk(t, xs, known, ts);
  }

  lemma NarrowerLower(t: Table, t': Table, x: Tx)
    requires NarrowerOnly(t, t')
    ensures Lower(t, x) <= Lower(t', x)
  {
  }

  /** Forward validation only narrows intervals and changes nobody's state. */
  lemma CommitReadNarrows(r: Row, t: Table, x: Tx, ts: Ts, d: Deps)
    requires ts < UINT64_MAX
    ensures NarrowerOnly(t, CommitRead(r, t, x, ts, d).1)
  {
    ForwardUpNarrows(t, r.writers, d.writes, ts);
  }

  lemma CommitWriteNarrows(r: Row, t: Table, x: Tx, ts: Ts, d: Deps)
    requires ts > 0 && Lower(t, x) > 0
    ensures NarrowerOnly(t, CommitWrite(r, t, x, ts, d).1)
  {
    hide NarrowerOnly, ForwardDown, Erase;
    var ws := Erase(r.writers, x);
    var t1 := ForwardDown(t, ws, d.writesY, ts);
    ForwardDownNarrows(t, ws, d.writesY, ts);
    ForwardDownNarrows(t1, r.readers, d.readers, Lower(t, x));
    NarrowerTransitive(t, t1, CommitWrite(r, t, x, ts, d).1);
  }

  lemma CommitBothNarrows(r: Row, t: Table, x: Tx, ts: Ts, d: Deps)
    requires 0 < ts < UINT64_MAX && Lower(t, x) > 0
    ensures NarrowerOnly(t, CommitBoth(r, t, x, ts, d).1)
  {
    hide NarrowerOnly, ForwardUp, ForwardDown, Erase;
    var rs, ws := Erase(r.readers, x), Erase(r.writers, x);
    var t1 := ForwardUp(t, ws, d.writes, ts);
    ForwardUpNarrows(t, ws, d.writes, ts);
    NarrowerLower(t, t1, x);
    var t2 := ForwardDown(t1, ws, d.writesY, ts);
    ForwardDownNarrows(t1, ws, d.writesY, ts);
    ForwardDownNarrows(t2, rs, d.readers, Lower(t1, x));
    NarrowerTransitive(t, t1, t2);
    NarrowerTransitive(t, t2, CommitBoth(r, t, x, ts, d).1);
  }

  // ----- runs -------------------------------------------------------------------------------

  /** `deps` has every transaction that ever started, `commits` the commit timestamps ever assigned. */
  datatype System = System(table: Table, rows: map<Key, Row>, deps: map<Tx, Deps>, commits: map<Tx, Ts>)

  ghost predicate Begin(s: System, s': System, x: Tx) {
    && x !in s.deps
    && s' == s.(table := s.table[x := Interval(0, UINT64_MAX, Running)],
                deps := s.deps[x := Deps([], [], [], 0, 0)])
  }

  /** Reads, writes or both, once per row. */
  ghost predicate AccessRow(s: System, s': System, x: Tx, k: Key) {
    && x in s.table && x in s.deps && s.table[x].state == Running && k in s.rows
    && x !in s.rows[k].readers && x !in s.rows[k].writers
    && exists a :: a in [Read(s.rows[k], x, s.deps[x]), Prewrite(s.rows[k], x, s.deps[x]),
                         ReadAndPrewrite(s.rows[k], x, s.deps[x])] &&
         s' == s.(rows := s.rows[k := a.0], deps := s.deps[x := a.1])
  }

  ghost predicate ValidateTxn(s: System, s': System, x: Tx) {
    && x in s.table && x in s.deps && s.table[x].state == Running
    && s' == s.(table := Validate(s.table, x, s.deps[x]).1)
  }

  ghost predicate ChooseTs(s: System, s': System, x: Tx) {
    && x in s.table && s.table[x].state == Validated && x !in s.commits
    && var (rc, t, ts) := FindBound(s.table, x);
       s' == s.(table := t, commits := if rc == RcOk then s.commits[x := ts] else s.commits)
  }

  ghost predicate AbortTxn(s: System, s': System, x: Tx) {
    && x in s.table && x !in s.commits
    && s' == s.(table := SetState(s.table, x, Aborted))
  }

  ghost predicate CommitRow(s: System, s': System, x: Tx, k: Key) {
    && x in s.table && x in s.deps && x in s.commits && k in s.rows
    && exists a :: a in [CommitRead(s.rows[k], s.table, x, s.commits[x], s.deps[x]),
                         CommitWrite(s.rows[k], s.table, x, s.commits[x], s.deps[x]),
                         CommitBoth(s.rows[k], s.table, x, s.commits[x], s.deps[x])] &&
         s' == s.(rows := s.rows[k := a.0], table := a.1)
  }

  ghost predicate AbortRow(s: System, s': System, x: Tx, k: Key) {
    && x !in s.commits && k in s.rows
    && s' == s.(rows := s.rows[k := s.rows[k].(readers := Erase(s.rows[k].readers, x),
                                               writers := Erase(s.rows[k].writers, x))])
  }

  ghost predicate ReleaseEntry(s: System, s': System, x: Tx) {
    s' == s.(table := s.table - {x})
  }

  ghost predicate Step(s: System, s': System) {
    || (exists x :: Begin(s, s', x))
    || (exists x, k :: AccessRow(s, s', x, k))
    || (exists x :: ValidateTxn(s, s', x))
    || (exists x :: ChooseTs(s, s', x))
    || (exists x :: AbortTxn(s, s', x))
    || (exists x, k :: CommitRow(s, s', x, k))
    || (exists x, k :: AbortRow(s, s', x, k))
    || (exists x :: ReleaseEntry(s, s', x))
  }

  ghost predicate Init(s: System) {
    && s.table == map[] && s.deps == map[] && s.commits == map[]
    && forall k :: k in s.rows ==> s.rows[k] == Row(0, 0, [], [])
  }

  /** A run with fewer steps than there are timestamps. */
  ghost predicate IsRun(run: seq<System>) {
    && 0 < |run| <= UINT64_MAX - 2 && Init(run[0])
    && forall i :: 0 < i < |run| ==> Step(run[i - 1], run[i])
  }

  // ----- bounds stay far from wrapping ------------------------------------------------------

  /** A bound is the largest timestamp or no larger than the number of steps taken. */
  ghost predicate Small(n: nat, v: Ts) {
    v == UINT64_MAX || v <= n
  }

  ghost predicate EntrySmall(n: nat, i: Interval) {
    Small(n, i.lower) && Small(n, i.upper) && (Decided(i.state) ==> 0 < i.lower <= n)
  }

  ghost predicate TableSmall(n: nat, t: Table) {
    forall x :: x in t ==> EntrySmall(n, t[x])
  }

  lemma CutSmall(n: nat, i: Interval, ts: Ts)
    requires EntrySmall(n, i) && ts <= n + 1
    ensures EntrySmall(n, Cut(i, ts))
  {
  }

  lemma LiftSmall(n: nat, i: Interval, ts: Ts)
    requires EntrySmall(n, i) && Small(n, ts) && (i.state == Running || ts < UINT64_MAX)
    ensures EntrySmall(n + 1, Lift(i, ts))
  {
  }

  ghost predicate DepsOk(n: nat, deps: map<Tx, Deps>) {
    forall x :: x in deps ==>
      && deps[x].lastWrite <= n && deps[x].lastRead <= n
      && x !in deps[x].writes && x !in deps[x].readers && x !in deps[x].writesY
  }

  ghost predicate RowsSmall(n: nat, rows: map<Key, Row>) {
    forall k :: k in rows ==> rows[k].lastRead <= n && rows[k].lastWrite <= n
  }

  ghost predicate CommitsOk(n: nat, t: Table, commits: map<Tx, Ts>) {
    forall x :: x in commits ==> 0 < commits[x] <= n && (x in t ==> Decided(t[x].state))
  }

  ghost predicate Inv(n: nat, s: System) {
    && s.table.Keys <= s.deps.Keys && s.commits.Keys <= s.deps.Keys
    && TableSmall(n, s.table) && DepsOk(n, s.deps) && RowsSmall(n, s.rows) && CommitsOk(n, s.table, s.commits)
  }

  lemma {:induction false} ScanWritesSmall(n: nat, t: Table, ws: seq<Tx>, upper: Ts)
    requires TableSmall(n, t) && Small(n, upper)
    ensures Small(n, ScanWrites(t, ws, upper).0)
  {
    if ws != [] {
      ScanWritesSmall(n, t, ws[..|ws| - 1], upper);
    }
  }

  lemma {:induction false} ScanReadersSmall(n: nat, t: Table, rs: seq<Tx>, lower: Ts)
    requires TableSmall(n, t) && Small(n + 1, lower)
    ensures Small(n + 1, ScanReaders(t, rs, lower).0)
  {
    if rs != [] {
      ScanReadersSmall(n, t, rs[..|rs| - 1], lower);
    }
  }

  lemma {:induction false} ScanWritesYSmall(n: nat, t: Table, ys: seq<Tx>, lower: Ts, after: seq<Tx>)
    requires TableSmall(n, t) && Small(n + 1, lower)
    ensures Small(n + 1, ScanWritesY(t, ys, lower, after).0)
  {
    if ys != [] {
      ScanWritesYSmall(n, t, ys[..|ys| - 1], lower, after);
    }
  }

  lemma {:induction false} RaiseLowerSmall(n: nat, t: Table, before: seq<Tx>, lower: Ts, upper: Ts)
    requires (forall x :: x in t ==> Small(n, t[x].upper)) && lower <= n + 1 && lower < upper
    ensures RaiseLower(t, before, lower, upper) <= n + 1
  {
    if before != [] {
      RaiseLowerSmall(n, t, before[..|before| - 1], lower, upper);
    }
  }

  lemma {:induction false} DropUpperSmall(n: nat, t: Table, after: seq<Tx>, lower: Ts, upper: Ts)
    requires (forall x :: x in t ==> Small(n, t[x].lower) && Small(n + 1, t[x].upper)) && Small(n, upper)
    requires lower + 2 <= UINT64_MAX
    ensures Small(n, DropUpper(t, after, lower, upper))
  {
    if after != [] {
      DropUpperSmall(n, t, after[..|after| - 1], lower, upper);
    }
  }

  lemma PlanSmall(n: nat, t: Table, x: Tx, d: Deps)
    requires TableSmall(n, t) && d.lastWrite <= n && d.lastRead <= n && n + 3 <= UINT64_MAX
    ensures var p := MakePlan(t, x, d); Small(n + 1, p.lower) && Small(n, p.upper)
  {
    var lower1 := Above(Lower(t, x), d.lastWrite);
    var (upper, after1) := ScanWrites(t, d.writes, Upper(t, x));
    ScanWritesSmall(n, t, d.writes, Upper(t, x));
    var lower2 := Above(lower1, d.lastRead);
    var (lower3, before) := ScanReaders(t, d.readers, lower2);
    ScanReadersSmall(n, t, d.readers, lower2);
    ScanWritesYSmall(n, t, d.writesY, lower3, after1);
  }

  /** In a reachable state the sum that could wrap around in validate does not. */
  lemma ValidateNoWrap(n: nat, t: Table, x: Tx, d: Deps)
    requires TableSmall(n, t) && d.lastWrite <= n && d.lastRead <= n && n + 3 <= UINT64_MAX && x in t
    ensures NoWrap(t, x, d)
  {
    PlanSmall(n, t, x, d);
    var p := MakePlan(t, x, d);
    if p.lower < p.upper {
      RaiseLowerSmall(n, SetState(t, x, Validated), p.before, p.lower, p.upper);
    }
  }

  lemma AdjustUpperSmall(n: nat, t: Table, x: Tx, p: Plan)
    requires TableSmall(n, t) && x in t && x !in p.before && x !in p.after && n + 3 <= UINT64_MAX
    requires p.lower <= n + 1 && Small(n, p.upper) && 0 < p.lower < p.upper
    requires FinalLower(t, x, p) + 2 <= UINT64_MAX
    ensures x in Adjust(t, x, p) && Adjust(t, x, p)[x].lower <= n + 1 && Small(n, Adjust(t, x, p)[x].upper)
  {
    var t1 := SetState(t, x, Validated);
    var lower := RaiseLower(t1, p.before, p.lower, p.upper);
    RaiseLowerSmall(n, t1, p.before, p.lower, p.upper);
    RaiseLowerOk(t1, p.before, p.lower, p.upper);
    var t2 := CutReaders(t1, p.before, lower);
    CutReadersOk(t1, p.before, lower);
    DropUpperSmall(n, t2, p.after, lower, p.upper);
    AdjustOk(t, x, p);
  }

  lemma AdjustSmall(n: nat, t: Table, x: Tx, p: Plan)
    requires TableSmall(n, t) && x in t && x !in p.before && x !in p.after && n + 3 <= UINT64_MAX
    requires p.lower <= n + 1 && Small(n, p.upper) && 0 < p.lower < p.upper
    requires FinalLower(t, x, p) + 2 <= UINT64_MAX
    requires forall y :: y in p.before || y in p.after ==> StateOf(t, y) == Running
    ensures TableSmall(n + 1, Adjust(t, x, p))
  {
    hide Adjust, Cut, Lift, FinalLower;
    AdjustUpperSmall(n, t, x, p);
    AdjustOk(t, x, p);
    var t' := Adjust(t, x, p);
    forall y | y in t && y != x
      ensures EntrySmall(n + 1, t'[y])
    {
      CutSmall(n, t[y], t'[x].lower);
      var i := if y in p.before then Cut(t[y], t'[x].lower) else t[y];
      if y in p.after {
        assert i.state == Running by { CutKeepsState(t[y], t'[x].lower); }
        LiftSmall(n, i, t'[x].upper);
      }
    }
  }

  lemma CutKeepsState(i: Interval, ts: Ts)
    ensures Cut(i, ts).state == i.state
  {
  }

  lemma ValidateSmall(n: nat, t: Table, x: Tx, d: Deps)
    requires TableSmall(n, t) && MayValidate(t, x, d) && d.lastWrite <= n && d.lastRead <= n
    requires n + 3 <= UINT64_MAX
    ensures TableSmall(n + 1, Validate(t, x, d).1)
  {
    hide MakePlan, PlanOk, Adjust;
    var p := MakePlan(t, x, d);
    PlanSmall(n, t, x, d);
    ValidateNoWrap(n, t, x, d);
    MakePlanOk(t, x, d);
    PlanBounds(t, x, d, p);
    if p.lower < p.upper {
      AdjustSmall(n, t, x, p);
    }
  }

  // ----- the invariant is kept --------------------------------------------------------------

  lemma BeginKeeps(n: nat, s: System, s': System, x: Tx)
    requires Inv(n, s) && Begin(s, s', x)
    ensures Inv(n + 1, s')
  {
  }

  lemma AccessRowKeeps(n: nat, s: System, s': System, x: Tx, k: Key)
    requires Inv(n, s) && AccessRow(s, s', x, k)
    ensures Inv(n + 1, s')
  {
  }

  lemma ValidateTxnKeeps(n: nat, s: System, s': System, x: Tx)
    requires Inv(n, s) && ValidateTxn(s, s', x) && n + 3 <= UINT64_MAX
    ensures Inv(n + 1, s')
  {
    hide Validate, TableSmall;
    var d := s.deps[x];
    ValidateNoWrap(n, s.table, x, d);
    ValidateNarrows(s.table, x, d);
    ValidateSmall(n, s.table, x, d);
  }

  lemma ChooseTsKeeps(n: nat, s: System, s': System, x: Tx)
    requires Inv(n, s) && ChooseTs(s, s', x)
    ensures Inv(n + 1, s')
  {
  }

  lemma AbortTxnKeeps(n: nat, s: System, s': System, x: Tx)
    requires Inv(n, s) && AbortTxn(s, s', x)
    ensures Inv(n + 1, s')
  {
  }

  lemma CommitReadSmall(n: nat, r: Row, t: Table, x: Tx, ts: Ts, d: Deps)
    requires TableSmall(n, t) && ts <= n && n + 3 <= UINT64_MAX
    ensures TableSmall(n + 1, CommitRead(r, t, x, ts, d).1)
  {
    hide Lift;
    ForwardUpOk(t, r.writers, d.writes, ts);
    forall y | y in t
      ensures EntrySmall(n + 1, CommitRead(r, t, x, ts, d).1[y])
    {
      LiftSmall(n, t[y], ts);
    }
  }

  lemma {:induction false} ForwardDownSmall(n: nat, t: Table, xs: seq<Tx>, known: seq<Tx>, ts: Ts)
    requires TableSmall(n, t) && 0 < ts <= n
    ensures TableSmall(n, ForwardDown(t, xs, known, ts))
  {
    hide Cut;
    ForwardDownOk(t, xs, known, ts);
    forall y | y in t
      ensures EntrySmall(n, ForwardDown(t, xs, known, ts)[y])
    {
      CutSmall(n, t[y], ts);
    }
  }

  lemma CommitWriteSmall(n: nat, r: Row, t: Table, x: Tx, ts: Ts, d: Deps)
    requires TableSmall(n, t) && x in t && 0 < ts <= n && Decided(t[x].state)
    ensures TableSmall(n + 1, CommitWrite(r, t, x, ts, d).1)
  {
    var ws := Erase(r.writers, x);
    ForwardDownSmall(n, t, ws, d.writesY, ts);
    ForwardDownSmall(n, ForwardDown(t, ws, d.writesY, ts), r.readers, d.readers, Lower(t, x));
  }

  lemma CommitBothSmall(n: nat, r: Row, t: Table, x: Tx, ts: Ts, d: Deps)
    requires TableSmall(n, t) && x in t && 0 < ts <= n && Decided(t[x].state) && n + 3 <= UINT64_MAX
    ensures TableSmall(n + 1, CommitBoth(r, t, x, ts, d).1)
  {
    var rs, ws := Erase(r.readers, x), Erase(r.writers, x);
    var t1 := ForwardUp(t, ws, d.writes, ts);
    CommitReadSmall(n, r.(writers := ws), t, x, ts, d);
    ForwardUpOk(t, ws, d.writes, ts);
    assert EntrySmall(n + 1, t1[x]);
    ForwardDownSmall(n + 1, t1, ws, d.writesY, ts);
    ForwardDownSmall(n + 1, ForwardDown(t1, ws, d.writesY, ts), rs, d.readers, Lower(t1, x));
  }

  /** Whichever way the row is committed. */
  lemma CommitRowTable(n: nat, s: System, s': System, x: Tx, k: Key)
    requires Inv(n, s) && CommitRow(s, s', x, k) && n + 3 <= UINT64_MAX
    ensures NarrowerOnly(s.table, s'.table) && TableSmall(n + 1, s'.table)
    ensures s' == s.(table := s'.table, rows := s.rows[k := s'.rows[k]])
    ensures s'.rows[k].lastRead <= n && s'.rows[k].lastWrite <= n
  {
    hide NarrowerOnly, ForwardUp, ForwardDown, Erase;
    var r, ts, d := s.rows[k], s.commits[x], s.deps[x];
    CommitReadNarrows(r, s.table, x, ts, d);
    CommitWriteNarrows(r, s.table, x, ts, d);
    CommitBothNarrows(r, s.table, x, ts, d);
    CommitReadSmall(n, r, s.table, x, ts, d);
    CommitWriteSmall(n, r, s.table, x, ts, d);
    CommitBothSmall(n, r, s.table, x, ts, d);
  }

  lemma CommitRowKeeps(n: nat, s: System, s': System, x: Tx, k: Key)
    requires Inv(n, s) && CommitRow(s, s', x, k) && n + 3 <= UINT64_MAX
    ensures Inv(n + 1, s')
  {
    hide TableSmall, CommitRow;
    CommitRowTable(n, s, s', x, k);
  }

  lemma AbortRowKeeps(n: nat, s: System, s': System, x: Tx, k: Key)
    requires Inv(n, s) && AbortRow(s, s', x, k)
    ensures Inv(n + 1, s')
  {
  }

  lemma ReleaseEntryKeeps(n: nat, s: System, s': System, x: Tx)
    requires Inv(n, s) && ReleaseEntry(s, s', x)
    ensures Inv(n + 1, s')
  {
  }

  lemma StepKeeps(n: nat, s: System, s': System)
    requires Inv(n, s) && Step(s, s') && n + 3 <= UINT64_MAX
    ensures Inv(n + 1, s')
  {
    hide Inv, Begin, AccessRow, ValidateTxn, ChooseTs, AbortTxn, CommitRow, AbortRow, ReleaseEntry;
    if x :| Begin(s, s', x) {
      BeginKeeps(n, s, s', x);
    } else if x, k :| AccessRow(s, s', x, k) {
      AccessRowKeeps(n, s, s', x, k);
    } else if x :| ValidateTxn(s, s', x) {
      ValidateTxnKeeps(n, s, s', x);
    } else if x :| ChooseTs(s, s', x) {
      ChooseTsKeeps(n, s, s', x);
    } else if x :| AbortTxn(s, s', x) {
      AbortTxnKeeps(n, s, s', x);
    } else if x, k :| CommitRow(s, s', x, k) {
      CommitRowKeeps(n, s, s', x, k);
    } else if x, k :| AbortRow(s, s', x, k) {
      AbortRowKeeps(n, s, s', x, k);
    } else {
      var x :| ReleaseEntry(s, s', x);
      ReleaseEntryKeeps(n, s, s', x);
    }
  }

  lemma {:induction false} RunKeeps(run: seq<System>, i: nat)
    requires IsRun(run) && i < |run|
    ensures Inv(i, run[i])
  {
    if i > 0 {
      hide Inv, Step, Init;
      RunKeeps(run, i - 1);
      StepKeeps(i - 1, run[i - 1], run[i]);
    }
  }

  // ----- conflicts are tracked --------------------------------------------------------------

  /** Of a pending reader and a pending writer of a row, one has the other in its dependency sets;
      and so of two pending writers. */
  ghost predicate Tracked(r: Row, deps: map<Tx, Deps>) {
    && (forall x :: x in r.readers || x in r.writers ==> x in deps)
    && (forall x, y :: x in r.readers && y in r.writers && x != y ==>
          y in deps[x].writes || x in deps[y].readers)
    && (forall x, y :: x in r.writers && y in r.writers && x != y ==>
          y in deps[x].writesY || x in deps[y].writesY)
  }

  lemma AccessTracks(r: Row, deps: map<Tx, Deps>, x: Tx)
    requires Tracked(r, deps) && x in deps && x !in r.readers && x !in r.writers
    ensures var (r', d) := Read(r, x, deps[x]); Tracked(r', deps[x := d])
    ensures var (r', d) := Prewrite(r, x, deps[x]); Tracked(r', deps[x := d])
    ensures var (r', d) := ReadAndPrewrite(r, x, deps[x]); Tracked(r', deps[x := d])
  {
  }

  lemma MoreDepsTrack(r: Row, deps: map<Tx, Deps>, deps': map<Tx, Deps>)
    requires Tracked(r, deps) && deps.Keys <= deps'.Keys
    requires forall x, y :: x in deps ==>
               && (y in deps[x].writes ==> y in deps'[x].writes) && (y in deps[x].readers ==> y in deps'[x].readers)
               && (y in deps[x].writesY ==> y in deps'[x].writesY)
    ensures Tracked(r, deps')
  {
  }

  lemma FewerPendingTrack(r: Row, r': Row, deps: map<Tx, Deps>)
    requires Tracked(r, deps)
    requires forall x :: (x in r'.readers ==> x in r.readers) && (x in r'.writers ==> x in r.writers)
    ensures Tracked(r', deps)
  {
  }

  lemma AccessRowTracks(s: System, s': System, x: Tx, k: Key, j: Key)
    requires AccessRow(s, s', x, k) && j in s.rows && Tracked(s.rows[j], s.deps)
    ensures j in s'.rows && Tracked(s'.rows[j], s'.deps)
  {
    if j == k {
      hide Tracked, Read, Prewrite, ReadAndPrewrite;
      AccessTracks(s.rows[k], s.deps, x);
    } else {
      hide Tracked;
      MoreDepsTrack(s.rows[j], s.deps, s'.deps);
    }
  }

  lemma RowStepTracks(s: System, s': System, x: Tx, k: Key, j: Key)
    requires (CommitRow(s, s', x, k) || AbortRow(s, s', x, k)) && j in s.rows && Tracked(s.rows[j], s.deps)
    ensures j in s'.rows && Tracked(s'.rows[j], s'.deps)
  {
    hide Tracked, ForwardUp, ForwardDown;
    if j == k {
      FewerPendingTrack(s.rows[k], s'.rows[k], s.deps);
    }
  }

  lemma StepTracks(s: System, s': System, j: Key)
    requires Step(s, s') && j in s.rows && Tracked(s.rows[j], s.deps)
    ensures j in s'.rows && Tracked(s'.rows[j], s'.deps)
  {
    hide Tracked, AccessRow, CommitRow, AbortRow, Validate;
    if x, k :| AccessRow(s, s', x, k) {
      AccessRowTracks(s, s', x, k, j);
    } else if x, k :| CommitRow(s, s', x, k) {
      RowStepTracks(s, s', x, k, j);
    } else if x, k :| AbortRow(s, s', x, k) {
      RowStepTracks(s, s', x, k, j);
    } else {
      MoreDepsTrack(s.rows[j], s.deps, s'.deps);
    }
  }

  /** In every reachable state all conflicts between pending transactions are known to one of them. */
  lemma {:induction false} ConflictsAreTracked(run: seq<System>, i: nat, k: Key)
    requires IsRun(run) && i < |run| && k in run[0].rows
    ensures k in run[i].rows && Tracked(run[i].rows[k], run[i].deps)
  {
    hide Step;
    if i > 0 {
      ConflictsAreTracked(run, i - 1, k);
      StepTracks(run[i - 1], run[i], k);
    }
  }

  // ----- commit timestamps come from the intervals ------------------------------------------

  ghost predicate Within(ts: Ts, i: Interval) {
    i.lower <= ts < i.upper
  }

  /** What stays true of a transaction known in `s` at any later state `s'`: its interval only gets
      narrower, a commit timestamp is kept, and one assigned later lies in the interval it has now. */
  ghost predicate LaterOf(s: System, s': System, x: Tx) {
    && x in s'.deps
    && (x in s.commits ==> x in s'.commits && s'.commits[x] == s.commits[x])
    && (x in s'.table ==>
          x in s.table && s.table[x].lower <= s'.table[x].lower && s'.table[x].upper <= s.table[x].upper)
    && (x !in s.commits && x in s'.commits ==> x in s.table && Within(s'.commits[x], s.table[x]))
  }

  ghost predicate Later(s: System, s': System) {
    forall x :: x in s.deps ==> LaterOf(s, s', x)
  }

  lemma BeginIsLater(n: nat, s: System, s': System, x: Tx)
    requires Inv(n, s) && Begin(s, s', x)
    ensures Later(s, s')
  {
    hide TableSmall, RowsSmall, DepsOk, CommitsOk;
  }

  lemma ValidateTxnIsLater(n: nat, s: System, s': System, x: Tx)
    requires Inv(n, s) && ValidateTxn(s, s', x) && n + 3 <= UINT64_MAX
    ensures Later(s, s')
  {
    hide Validate, TableSmall, RowsSmall;
    ValidateNoWrap(n, s.table, x, s.deps[x]);
    ValidateNarrows(s.table, x, s.deps[x]);
  }

  lemma ChooseTsIsLater(s: System, s': System, x: Tx)
    requires ChooseTs(s, s', x)
    ensures Later(s, s')
  {
  }

  lemma CommitRowIsLater(n: nat, s: System, s': System, x: Tx, k: Key)
    requires Inv(n, s) && CommitRow(s, s', x, k) && n + 3 <= UINT64_MAX
    ensures Later(s, s')
  {
    hide TableSmall, CommitRow;
    CommitRowTable(n, s, s', x, k);
  }

  /** Steps that touch no interval and no commit timestamp. */
  lemma QuietIsLater(s: System, s': System)
    requires s.deps.Keys <= s'.deps.Keys && s'.commits == s.commits
    requires forall x :: x in s'.table ==>
               x in s.table && s'.table[x].lower == s.table[x].lower && s'.table[x].upper == s.table[x].upper
    ensures Later(s, s')
  {
  }

  lemma StepIsLater(n: nat, s: System, s': System)
    requires Inv(n, s) && Step(s, s') && n + 3 <= UINT64_MAX
    ensures Later(s, s')
  {
    hide Inv, Later, Begin, ValidateTxn, ChooseTs, CommitRow;
    if x :| Begin(s, s', x) {
      BeginIsLater(n, s, s', x);
    } else if x :| ValidateTxn(s, s', x) {
      ValidateTxnIsLater(n, s, s', x);
    } else if x :| ChooseTs(s, s', x) {
      ChooseTsIsLater(s, s', x);
    } else if x, k :| CommitRow(s, s', x, k) {
      CommitRowIsLater(n, s, s', x, k);
    } else {
      QuietIsLater(s, s');
    }
  }

  lemma LaterTransitive(s: System, s': System, s'': System)
    requires Later(s, s') && Later(s', s'')
    ensures Later(s, s'')
  {
    forall x | x in s.deps
      ensures LaterOf(s, s'', x)
    {
      assert LaterOf(s, s', x) && LaterOf(s', s'', x);
    }
  }

  lemma LaterReflexive(n: nat, s: System)
    requires Inv(n, s)
    ensures Later(s, s)
  {
    hide TableSmall, RowsSmall, DepsOk, CommitsOk;
  }

  lemma {:induction false} RunIsLater(run: seq<System>, i: nat, j: nat)
    requires IsRun(run) && i <= j < |run|
    ensures Later(run[i], run[j])
    decreases j
  {
    hide Later, Step, Inv, Init;
    if i == j {
      RunKeeps(run, i);
      LaterReflexive(i, run[i]);
    } else {
      RunIsLater(run, i, j - 1);
      RunKeeps(run, j - 1);
      StepIsLater(j - 1, run[j - 1], run[j]);
      LaterTransitive(run[i], run[j - 1], run[j]);
    }
  }

  /** `x` validated successfully in step `i`. */
  ghost predicate ValidatedAt(run: seq<System>, i: nat, x: Tx)
    requires i + 1 < |run|
  {
    ValidateTxn(run[i], run[i + 1], x) && Validate(run[i].table, x, run[i].deps[x]).0 == RcOk
  }

  /** An interval in the table still stands for the timestamp that was chosen from it. */
  ghost predicate Intact(s: System, y: Tx) {
    y in s.commits && y in s.table ==> Within(s.commits[y], s.table[y])
  }

  /** The commit timestamp lies in the interval a transaction has after step `i + 1`. */
  lemma CommitsWithin(run: seq<System>, i: nat, y: Tx)
    requires IsRun(run) && i < |run| && y in run[i].table && y in run[|run| - 1].commits && Intact(run[i], y)
    ensures Within(run[|run| - 1].commits[y], run[i].table[y])
  {
    hide Step, Init, TableSmall, RowsSmall, DepsOk;
    RunKeeps(run, i);
    RunIsLater(run, i, |run| - 1);
    assert LaterOf(run[i], run[|run| - 1], y);
  }

  /** MAAT over whole runs: when `x` validates successfully and `y`, present in the table and not
      aborted, is in one of its dependency sets, and both commit, then their commit timestamps are
      strictly ordered: readers before `x`, pending writers of rows `x` read after it, writers of rows
      `x` writes before it when they were already decided and after it when they were running. For a
      `y` that had committed before, its table interval must still contain its commit timestamp. */
  lemma CommitOrder(run: seq<System>, i: nat, x: Tx, y: Tx)
    requires IsRun(run) && i + 1 < |run| && ValidatedAt(run, i, x)
    requires x in run[|run| - 1].commits && y in run[|run| - 1].commits
    requires y in run[i].table && run[i].table[y].state != Aborted && Intact(run[i], y)
    ensures var d, s := run[i].deps[x], run[|run| - 1];
            && (y in d.readers ==> s.commits[y] < s.commits[x])
            && (y in d.writes ==> s.commits[x] < s.commits[y])
            && (y in d.writesY && Decided(run[i].table[y].state) ==> s.commits[y] < s.commits[x])
            && (y in d.writesY && run[i].table[y].state == Running ==> s.commits[x] < s.commits[y])
  {
    hide Step, Init, Validate, TableSmall, RowsSmall;
    RunKeeps(run, i);
    RunKeeps(run, i + 1);
    var t, d := run[i].table, run[i].deps[x];
    ValidateNoWrap(i, t, x, d);
    ValidateNarrows(t, x, d);
    ValidateSeparates(t, x, d, y);
    CommitsWithin(run, i + 1, x);
    if y != x {
      CommitsWithin(run, i + 1, y);
    }
  }

  ghost predicate Forward(s: System, s': System) {
    exists x, k :: CommitRow(s, s', x, k)
  }

  lemma StepKeepsIntact(n: nat, s: System, s': System, y: Tx)
    requires Inv(n, s) && Step(s, s') && !Forward(s, s') && Intact(s, y) && n + 3 <= UINT64_MAX
    ensures Intact(s', y)
  {
    hide Inv, ValidateTxn, ChooseTs, Begin;
    if x :| ValidateTxn(s, s', x) {
      ValidateTxnKeepsIntact(n, s, s', x, y);
    } else if x :| ChooseTs(s, s', x) {
      ChooseTsKeepsIntact(s, s', x, y);
    } else if x :| Begin(s, s', x) {
      BeginKeepsIntact(n, s, s', x, y);
    }
  }

  lemma BeginKeepsIntact(n: nat, s: System, s': System, x: Tx, y: Tx)
    requires Inv(n, s) && Begin(s, s', x) && Intact(s, y)
    ensures Intact(s', y)
  {
    hide TableSmall, RowsSmall, DepsOk, CommitsOk;
  }

  lemma ValidateTxnKeepsIntact(n: nat, s: System, s': System, x: Tx, y: Tx)
    requires Inv(n, s) && ValidateTxn(s, s', x) && Intact(s, y) && n + 3 <= UINT64_MAX
    ensures Intact(s', y)
  {
    hide Validate, TableSmall, RowsSmall;
    ValidateNoWrap(n, s.table, x, s.deps[x]);
    ValidateNarrows(s.table, x, s.deps[x]);
  }

  lemma ChooseTsKeepsIntact(s: System, s': System, x: Tx, y: Tx)
    requires ChooseTs(s, s', x) && Intact(s, y)
    ensures Intact(s', y)
  {
  }

  /** Without forward validation every interval stands for its commit timestamp. */
  lemma {:induction false} IntactWithoutForward(run: seq<System>, i: nat, y: Tx)
    requires IsRun(run) && i < |run|
    requires forall j :: 0 < j <= i ==> !Forward(run[j - 1], run[j])
    ensures Intact(run[i], y)
  {
    hide Inv, Step, Init, Forward, Intact;
    if i > 0 {
      IntactWithoutForward(run, i - 1, y);
      RunKeeps(run, i - 1);
      StepKeepsIntact(i - 1, run[i - 1], run[i], y);
    } else {
      NothingCommitted(run[0], y);
    }
  }

  lemma NothingCommitted(s: System, y: Tx)
    requires Init(s)
    ensures Intact(s, y)
  {
  }

  /** Over runs of accesses, validations and bound selections the order holds of all committed pairs. */
  lemma CommitOrderWithoutForward(run: seq<System>, i: nat, x: Tx, y: Tx)
    requires IsRun(run) && i + 1 < |run| && ValidatedAt(run, i, x)
    requires forall j :: 0 < j < |run| ==> !Forward(run[j - 1], run[j])
    requires x in run[|run| - 1].commits && y in run[|run| - 1].commits
    requires y in run[i].table && run[i].table[y].state != Aborted
    ensures var d, s := run[i].deps[x], run[|run| - 1];
            && (y in d.readers ==> s.commits[y] < s.commits[x])
            && (y in d.writes ==> s.commits[x] < s.commits[y])
            && (y in d.writesY && Decided(run[i].table[y].state) ==> s.commits[y] < s.commits[x])
            && (y in d.writesY && run[i].table[y].state == Running ==> s.commits[x] < s.commits[y])
  {
    hide Step, Init, Forward, Intact;
    IntactWithoutForward(run, i, y);
    CommitOrder(run, i, x, y);
  }
}

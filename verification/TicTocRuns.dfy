/** All interleavings of TicToc transactions: reads, write locks, validation row by row with lease
    renewal, installation row by row and release (concurrency_control/tictoc.cpp,
    concurrency_control/row_tictoc.cpp). Ghost logs keep every version a row ever had and every
    committed transaction in the order of the decisions. */
module TicTocRuns {
  import opened SerialHistory
  import opened TicToc

  /** Who made a version: nobody, or the committed transaction at a position of the log. */
  datatype Writer = Initial | By(pos: nat)

  /** A version with the lease it has, or had when it was replaced. */
  datatype Version = Version(wts: nat, rts: nat, val: Val, writer: Writer)

  datatype Cell = Cell(row: Row, versions: seq<Version>)

  /** An access: which version it saw, the lease it remembers (orig_wts, orig_rts), the value seen
      and, for a write, the value to install. */
  datatype Acc = Acc(write: bool, ver: nat, wts: nat, rts: nat, val: Val, put: Val)

  datatype Phase =
    | Running
    | Validating(ts: nat, checked: set<Key>)
    | Committing(pos: nat, installed: set<Key>)
    | Aborting

  datatype Tran = Tran(phase: Phase, minTs: nat, accs: map<Key, Acc>)

  /** A committed transaction. */
  datatype Entry = Entry(tx: Tx, ts: nat, accs: map<Key, Acc>)

  datatype System = System(maxWaits: nat, cells: map<Key, Cell>, trans: map<Tx, Tran>, order: seq<Entry>)

  // ----- the steps --------------------------------------------------------------------------

  ghost predicate Begin(s: System, s': System, t: Tx, minTs: nat) {
    t !in s.trans && s' == s.(trans := s.trans[t := Tran(Running, minTs, map[])])
  }

  function Access(c: Cell, write: bool, put: Val): Acc
    requires c.versions != []
  {
    Acc(write, |c.versions| - 1, c.row.wts, c.row.rts, c.row.value, put)
  }

  ghost predicate MayAccess(s: System, t: Tx, k: Key) {
    && t in s.trans && s.trans[t].phase.Running?
    && k in s.cells && s.cells[k].versions != [] && k !in s.trans[t].accs
  }

  ghost predicate ReadRow(s: System, s': System, t: Tx, k: Key) {
    && MayAccess(s, t, k)
    && var tr := s.trans[t];
       s' == s.(trans := s.trans[t := tr.(accs := tr.accs[k := Access(s.cells[k], false, 0)])])
  }

  ghost predicate WriteRow(s: System, s': System, t: Tx, k: Key, v: Val) {
    && MayAccess(s, t, k)
    && var tr := s.trans[t];
       var (rc, row) := Write(s.maxWaits, s.cells[k].row, t);
       s' == s.(cells := s.cells[k := s.cells[k].(row := row)],
                trans := s.trans[t := match rc
                           case RcOk => tr.(accs := tr.accs[k := Access(s.cells[k], true, v)])
                           case Wait => tr
                           case Abort => tr.(phase := Aborting)])
  }

  function BoundOf(a: Acc): nat {
    Bound(a.write, a.wts, a.rts)
  }

  function Bounds(accs: map<Key, Acc>): set<nat> {
    set k | k in accs :: BoundOf(accs[k])
  }

  ghost predicate StartValidation(s: System, s': System, t: Tx, ts: nat) {
    && t in s.trans && s.trans[t].phase.Running? && IsCommitTs(s.trans[t].minTs, Bounds(s.trans[t].accs), ts)
    && s' == s.(trans := s.trans[t := s.trans[t].(phase := Validating(ts, {}))])
  }

  function Renewed(c: Cell, row: Row): Cell
    requires c.versions != []
  {
    var n := |c.versions| - 1;
    Cell(row, c.versions[n := c.versions[n].(rts := row.rts)])
  }

  ghost predicate MayCheck(s: System, t: Tx, k: Key) {
    && t in s.trans && s.trans[t].phase.Validating? && k in s.cells && s.cells[k].versions != []
    && k in s.trans[t].accs && !s.trans[t].accs[k].write && k !in s.trans[t].phase.checked
  }

  ghost predicate CheckRow(s: System, s': System, t: Tx, k: Key) {
    && MayCheck(s, t, k)
    && var tr := s.trans[t];
       var a, ts := tr.accs[k], tr.phase.ts;
       var done := Validating(ts, tr.phase.checked + {k});
       if a.rts >= ts then
         s' == s.(trans := s.trans[t := tr.(phase := done)])
       else
         var (ok, row) := TryRenew(s.cells[k].row, a.wts, ts);
         if ok then
           s' == s.(cells := s.cells[k := Renewed(s.cells[k], row)],
                    trans := s.trans[t := tr.(phase := done, accs := tr.accs[k := a.(rts := row.rts)])])
         else
           s' == s.(trans := s.trans[t := tr.(phase := Aborting)])
  }

  ghost predicate Commit(s: System, s': System, t: Tx) {
    && t in s.trans && s.trans[t].phase.Validating?
    && var tr := s.trans[t];
       && (forall k :: k in tr.accs && !tr.accs[k].write ==> k in tr.phase.checked)
       && s' == s.(trans := s.trans[t := tr.(phase := Committing(|s.order|, {}))],
                   order := s.order + [Entry(t, tr.phase.ts, tr.accs)])
  }

  ghost predicate InstallRow(s: System, s': System, t: Tx, k: Key) {
    && t in s.trans && s.trans[t].phase.Committing? && k in s.cells
    && var tr := s.trans[t];
       && k in tr.accs && tr.accs[k].write && k !in tr.phase.installed && tr.phase.pos < |s.order|
       && var ts, v := s.order[tr.phase.pos].ts, tr.accs[k].put;
          s' == s.(cells := s.cells[k := Cell(Install(s.cells[k].row, ts, v),
                                              s.cells[k].versions + [Version(ts, ts, v, By(tr.phase.pos))])],
                   trans := s.trans[t := tr.(phase := Committing(tr.phase.pos, tr.phase.installed + {k}))])
  }

  ghost predicate MayRelease(tr: Tran) {
    || tr.phase.Aborting?
    || (tr.phase.Committing? && forall k :: k in tr.accs && tr.accs[k].write ==> k in tr.phase.installed)
  }

  ghost predicate ReleaseRow(s: System, s': System, t: Tx, k: Key) {
    && t in s.trans && MayRelease(s.trans[t]) && k in s.cells
    && s' == s.(cells := s.cells[k := s.cells[k].(row := Release(s.cells[k].row, t))])
  }

  /** The commit step on a row that was only read: it stamps the row anew with what was read. Guarded
      by a look at the row: nobody has been promised anything beyond the commit timestamp. */
  ghost predicate ReturnRead(s: System, s': System, t: Tx, k: Key) {
    && t in s.trans && s.trans[t].phase.Committing? && k in s.cells
    && var tr := s.trans[t];
       && k in tr.accs && !tr.accs[k].write && tr.phase.pos < |s.order|
       && s.cells[k].row.rts <= s.order[tr.phase.pos].ts
       && k in s.order[tr.phase.pos].accs && s' == Returned(s, tr.phase.pos, k)
  }

  function Returned(s: System, pos: nat, k: Key): System
    requires pos < |s.order| && k in s.cells && k in s.order[pos].accs
  {
    var c, e := s.cells[k], s.order[pos];
    s.(cells := s.cells[k := c.(row := Install(c.row, e.ts, e.accs[k].val))])
  }

  ghost predicate GiveUp(s: System, s': System, t: Tx) {
    && t in s.trans && (s.trans[t].phase.Running? || s.trans[t].phase.Validating?)
    && s' == s.(trans := s.trans[t := s.trans[t].(phase := Aborting)])
  }

  ghost predicate StepBy(s: System, s': System, t: Tx) {
    || (exists minTs :: Begin(s, s', t, minTs))
    || (exists k :: ReadRow(s, s', t, k))
    || (exists k, v :: WriteRow(s, s', t, k, v))
    || (exists ts :: StartValidation(s, s', t, ts))
    || (exists k :: CheckRow(s, s', t, k))
    || Commit(s, s', t)
    || (exists k :: InstallRow(s, s', t, k))
    || (exists k :: ReturnRead(s, s', t, k))
    || (exists k :: ReleaseRow(s, s', t, k))
    || GiveUp(s, s', t)
  }

  ghost predicate Step(s: System, s': System) {
    exists t :: StepBy(s, s', t)
  }

  ghost predicate Init(init: Store, s: System) {
    && s.trans == map[] && s.order == []
    && s.cells == map k | k in init :: Cell(Row(0, 0, Free, {}, init[k]), [Version(0, 0, init[k], Initial)])
  }

  ghost predicate IsRun(init: Store, run: seq<System>) {
    && run != [] && Init(init, run[0])
    && forall i :: 0 < i < |run| ==> Step(run[i - 1], run[i])
  }

  // ----- the invariant ----------------------------------------------------------------------

  /** The leases of a row's versions are disjoint and strictly increasing. */
  ghost predicate LeasesOk(vs: seq<Version>) {
    && (forall i :: 0 <= i < |vs| ==> vs[i].wts <= vs[i].rts)
    && (forall i, j :: 0 <= i < j < |vs| ==> vs[i].rts < vs[j].wts)
  }

  ghost predicate CurrentOk(c: Cell) {
    && c.versions != []
    && var v := c.versions[|c.versions| - 1];
       v.wts <= c.row.wts <= v.rts == c.row.rts && v.val == c.row.value
  }

  /** Version `i` of row `k` is the write of a committed transaction that had seen version `i - 1`. */
  ghost predicate MadeBy(order: seq<Entry>, k: Key, vs: seq<Version>, i: nat)
    requires i < |vs|
  {
    && vs[i].writer.By? && vs[i].writer.pos < |order|
    && var e := order[vs[i].writer.pos];
       && e.ts == vs[i].wts && k in e.accs && e.accs[k].write
       && e.accs[k].put == vs[i].val && e.accs[k].ver + 1 == i
  }

  ghost predicate WritersOk(init: Store, order: seq<Entry>, k: Key, vs: seq<Version>) {
    && k in init
    && (vs != [] ==> vs[0].writer.Initial? && vs[0].val == init[k])
    && forall i :: 0 < i < |vs| ==> MadeBy(order, k, vs, i)
  }

  /** Everyone waiting has a smaller priority than the owner. */
  ghost predicate WaitersOk(r: Row) {
    && (r.owner.Free? ==> r.waiting == {})
    && (r.owner.HeldBy? ==> forall w :: w in r.waiting ==> w < r.owner.tx)
  }

  ghost predicate CellOk(init: Store, order: seq<Entry>, k: Key, c: Cell) {
    CurrentOk(c) && LeasesOk(c.versions) && WritersOk(init, order, k, c.versions) && WaitersOk(c.row)
  }

  /** The access remembers a version that the row has or had. */
  ghost predicate AccOk(vs: seq<Version>, a: Acc) {
    && a.ver < |vs| && vs[a.ver].val == a.val
    && vs[a.ver].wts <= a.wts <= vs[a.ver].rts && a.rts <= vs[a.ver].rts
  }

  /** A write access holds the lock, and the version it saw is current with its lease frozen. */
  ghost predicate HeldOk(c: Cell, a: Acc, t: Tx) {
    a.write ==> c.row.owner == HeldBy(t) && a.ver + 1 == |c.versions| && a.rts == c.row.rts
  }

  ghost predicate ActiveAccOk(c: Cell, a: Acc, t: Tx) {
    AccOk(c.versions, a) && HeldOk(c, a, t)
  }

  /** Once checked, the lease of the version read covers the commit timestamp. */
  ghost predicate CheckedOk(vs: seq<Version>, a: Acc, ts: nat, checked: bool) {
    BoundOf(a) <= ts && (checked ==> !a.write && a.ver < |vs| && ts <= vs[a.ver].rts)
  }

  ghost predicate TranOk(cells: map<Key, Cell>, t: Tx, tr: Tran) {
    tr.phase.Running? || tr.phase.Validating? ==>
      forall k :: k in tr.accs ==>
        && k in cells && ActiveAccOk(cells[k], tr.accs[k], t)
        && (tr.phase.Validating? ==>
              CheckedOk(cells[k].versions, tr.accs[k], tr.phase.ts, k in tr.phase.checked))
  }

  ghost predicate PlaceOk(order: seq<Entry>, t: Tx, tr: Tran) {
    tr.phase.Committing? ==>
      tr.phase.pos < |order| && order[tr.phase.pos].tx == t && order[tr.phase.pos].accs == tr.accs
  }

  ghost predicate ReadFromEarlier(vs: seq<Version>, a: Acc, pos: nat) {
    a.ver < |vs| && (vs[a.ver].writer.By? ==> vs[a.ver].writer.pos < pos)
  }

  /** A committed read: its lease covers the commit timestamp. A committed write: the lease of the
      version before it ends below the commit timestamp, and its own version comes next. */
  ghost predicate CommittedAccOk(c: Cell, a: Acc, t: Tx, ts: nat, pos: nat, installed: bool) {
    && AccOk(c.versions, a) && ReadFromEarlier(c.versions, a, pos)
    && (!a.write ==> a.wts <= ts <= c.versions[a.ver].rts)
    && (a.write ==> c.versions[a.ver].rts < ts)
    && (a.write && !installed ==> c.row.owner == HeldBy(t) && a.ver + 1 == |c.versions|)
    && (a.write && installed ==> a.ver + 1 < |c.versions| && c.versions[a.ver + 1].writer == By(pos))
  }

  ghost predicate EntryOk(cells: map<Key, Cell>, e: Entry, pos: nat, phase: Phase) {
    && phase.Committing? && phase.pos == pos
    && forall k :: k in e.accs ==>
         k in cells && CommittedAccOk(cells[k], e.accs[k], e.tx, e.ts, pos, k in phase.installed)
  }

  ghost predicate CellsOk(init: Store, cells: map<Key, Cell>, order: seq<Entry>) {
    forall k :: k in cells ==> CellOk(init, order, k, cells[k])
  }

  ghost predicate TransOk(cells: map<Key, Cell>, trans: map<Tx, Tran>, order: seq<Entry>) {
    forall t :: t in trans ==> TranOk(cells, t, trans[t]) && PlaceOk(order, t, trans[t])
  }

  ghost predicate OrderOk(cells: map<Key, Cell>, trans: map<Tx, Tran>, order: seq<Entry>) {
    forall i :: 0 <= i < |order| ==>
      order[i].tx in trans && EntryOk(cells, order[i], i, trans[order[i].tx].phase)
  }

  ghost predicate Inv(init: Store, s: System) {
    && CellsOk(init, s.cells, s.order)
    && TransOk(s.cells, s.trans, s.order)
    && OrderOk(s.cells, s.trans, s.order)
  }

  // ----- what a step of `t` may do to a row -------------------------------------------------

  /** Versions are never lost or changed, except that the lease of the last one may grow; and a
      row locked by somebody else stays as it is. */
  ghost predicate Moves(c: Cell, c': Cell, t: Tx) {
    && |c.versions| <= |c'.versions|
    && (forall i :: 0 <= i < |c.versions| - 1 ==> c'.versions[i] == c.versions[i])
    && (forall i :: 0 <= i < |c.versions| ==>
          c'.versions[i] == c.versions[i].(rts := c'.versions[i].rts) && c.versions[i].rts <= c'.versions[i].rts)
    && (forall x :: c.row.owner == HeldBy(x) && x != t ==>
          c'.row.owner == c.row.owner && c'.row.rts == c.row.rts && c'.versions == c.versions)
  }

  ghost predicate CellsMove(cells: map<Key, Cell>, cells': map<Key, Cell>, t: Tx) {
    && cells'.Keys == cells.Keys
    && forall k :: k in cells ==> Moves(cells[k], cells'[k], t)
  }

  lemma MovesKeepActiveAcc(c: Cell, c': Cell, t: Tx, a: Acc, x: Tx)
    requires Moves(c, c', t) && x != t && ActiveAccOk(c, a, x)
    ensures ActiveAccOk(c', a, x)
  {
  }

  lemma MovesKeepChecked(c: Cell, c': Cell, t: Tx, a: Acc, ts: nat, checked: bool)
    requires Moves(c, c', t) && CheckedOk(c.versions, a, ts, checked)
    ensures CheckedOk(c'.versions, a, ts, checked)
  {
  }

  lemma MovesKeepCommittedAcc(c: Cell, c': Cell, t: Tx, a: Acc, x: Tx, ts: nat, pos: nat, installed: bool)
    requires Moves(c, c', t) && CommittedAccOk(c, a, x, ts, pos, installed)
    requires x != t || !a.write || installed
    ensures CommittedAccOk(c', a, x, ts, pos, installed)
  {
  }

  lemma MovesKeepTran(cells: map<Key, Cell>, cells': map<Key, Cell>, t: Tx, x: Tx, tr: Tran)
    requires CellsMove(cells, cells', t) && x != t && TranOk(cells, x, tr)
    ensures TranOk(cells', x, tr)
  {
    hide Moves, ActiveAccOk, CheckedOk;
    if tr.phase.Running? || tr.phase.Validating? {
      forall k | k in tr.accs
        ensures k in cells' && ActiveAccOk(cells'[k], tr.accs[k], x)
        ensures tr.phase.Validating? ==>
                  CheckedOk(cells'[k].versions, tr.accs[k], tr.phase.ts, k in tr.phase.checked)
      {
        MovesKeepActiveAcc(cells[k], cells'[k], t, tr.accs[k], x);
        if tr.phase.Validating? {
          MovesKeepChecked(cells[k], cells'[k], t, tr.accs[k], tr.phase.ts, k in tr.phase.checked);
        }
      }
    }
  }

  lemma MovesKeepEntry(cells: map<Key, Cell>, cells': map<Key, Cell>, t: Tx, e: Entry, pos: nat, phase: Phase)
    requires CellsMove(cells, cells', t) && EntryOk(cells, e, pos, phase)
    requires e.tx != t || forall k :: k in e.accs && e.accs[k].write ==> k in phase.installed
    ensures EntryOk(cells', e, pos, phase)
  {
    hide Moves, CommittedAccOk;
    forall k | k in e.accs
      ensures k in cells' && CommittedAccOk(cells'[k], e.accs[k], e.tx, e.ts, pos, k in phase.installed)
    {
      MovesKeepCommittedAcc(cells[k], cells'[k], t, e.accs[k], e.tx, e.ts, pos, k in phase.installed);
    }
  }

  lemma CellKeepsOrder(init: Store, order: seq<Entry>, e: Entry, k: Key, c: Cell)
    requires CellOk(init, order, k, c)
    ensures CellOk(init, order + [e], k, c)
  {
    forall i | 0 < i < |c.versions|
      ensures MadeBy(order + [e], k, c.versions, i)
    {
      assert MadeBy(order, k, c.versions, i);
    }
  }

  // ----- each step keeps the invariant ------------------------------------------------------

  ghost predicate Undecided(s: System, t: Tx) {
    t in s.trans ==> !s.trans[t].phase.Committing?
  }

  /** A step of a transaction that has not committed: enough to look at the rows and at itself. */
  lemma UndecidedStepKeeps(init: Store, s: System, s': System, t: Tx)
    requires Inv(init, s) && Undecided(s, t) && CellsMove(s.cells, s'.cells, t) && s'.order == s.order
    requires t in s'.trans && s'.trans == s.trans[t := s'.trans[t]] && !s'.trans[t].phase.Committing?
    requires CellsOk(init, s'.cells, s'.order) && TranOk(s'.cells, t, s'.trans[t])
    ensures Inv(init, s')
  {
    hide CellsOk, CellsMove, TranOk;
    forall x | x in s'.trans
      ensures TranOk(s'.cells, x, s'.trans[x]) && PlaceOk(s'.order, x, s'.trans[x])
    {
      if x != t {
        MovesKeepTran(s.cells, s'.cells, t, x, s.trans[x]);
      }
    }
    forall i | 0 <= i < |s.order|
      ensures s.order[i].tx in s'.trans && EntryOk(s'.cells, s.order[i], i, s'.trans[s.order[i].tx].phase)
    {
      MovesKeepEntry(s.cells, s'.cells, t, s.order[i], i, s.trans[s.order[i].tx].phase);
    }
  }

  lemma SameCells(cells: map<Key, Cell>, t: Tx)
    ensures CellsMove(cells, cells, t)
  {
  }

  lemma OneCellMoves(cells: map<Key, Cell>, k: Key, c: Cell, t: Tx)
    requires k in cells && Moves(cells[k], c, t)
    ensures CellsMove(cells, cells[k := c], t)
  {
  }

  lemma OneCellOk(init: Store, cells: map<Key, Cell>, order: seq<Entry>, k: Key, c: Cell)
    requires k in cells && CellsOk(init, cells, order) && CellOk(init, order, k, c)
    ensures CellsOk(init, cells[k := c], order)
  {
    hide CellOk;
  }

  lemma BeginKeeps(init: Store, s: System, s': System, t: Tx, minTs: nat)
    requires Inv(init, s) && Begin(s, s', t, minTs)
    ensures Inv(init, s')
  {
    hide Inv, CellsMove;
    SameCells(s.cells, t);
    assert CellsOk(init, s.cells, s.order) by { InvParts(init, s); }
    UndecidedStepKeeps(init, s, s', t);
  }

  lemma InvParts(init: Store, s: System)
    requires Inv(init, s)
    ensures CellsOk(init, s.cells, s.order) && TransOk(s.cells, s.trans, s.order)
    ensures OrderOk(s.cells, s.trans, s.order)
  {
  }

  lemma FreshAccOk(init: Store, order: seq<Entry>, k: Key, c: Cell, write: bool, put: Val, t: Tx)
    requires CellOk(init, order, k, c) && (write ==> c.row.owner == HeldBy(t))
    ensures ActiveAccOk(c, Access(c, write, put), t)
  {
  }

  lemma AddAccess(cells: map<Key, Cell>, t: Tx, tr: Tran, k: Key, a: Acc)
    requires TranOk(cells, t, tr) && tr.phase.Running? && k in cells && ActiveAccOk(cells[k], a, t)
    ensures TranOk(cells, t, tr.(accs := tr.accs[k := a]))
  {
    hide ActiveAccOk;
  }

  lemma ReadRowKeeps(init: Store, s: System, s': System, t: Tx, k: Key)
    requires Inv(init, s) && ReadRow(s, s', t, k)
    ensures Inv(init, s')
  {
    hide Inv, CellsMove, TranOk, CellOk;
    InvParts(init, s);
    SameCells(s.cells, t);
    FreshAccOk(init, s.order, k, s.cells[k], false, 0, t);
    AddAccess(s.cells, t, s.trans[t], k, Access(s.cells[k], false, 0));
    UndecidedStepKeeps(init, s, s', t);
  }

  /** Taking a free lock, or queueing for one, keeps the row and everybody's accesses. */
  lemma WriteKeepsCell(init: Store, order: seq<Entry>, k: Key, c: Cell, maxWaits: nat, t: Tx)
    requires CellOk(init, order, k, c)
    ensures var c' := c.(row := Write(maxWaits, c.row, t).1);
            CellOk(init, order, k, c') && Moves(c, c', t)
  {
  }

  /** The answer to a request for the write lock means what it says: RcOk exactly if the row was free or its
      own and is its own from now on; Wait exactly if another, of larger priority, owns it and there is
      room to wait, and the transaction waits from now on; Abort exactly in the other cases, and then
      nothing has changed. Nobody else's place changes. */
  lemma WriteTellsTheTruth(maxWaits: nat, r: Row, t: Tx)
    requires t !in r.waiting
    ensures var (rc, r') := Write(maxWaits, r, t);
            && (rc == RcOk <==> r.owner.Free? || r.owner == HeldBy(t)) && (rc == RcOk <==> r'.owner == HeldBy(t))
            && (rc == Wait <==> r.owner.HeldBy? && t < r.owner.tx && |r.waiting| < maxWaits)
            && (rc == Wait <==> t in r'.waiting)
            && (rc == Abort <==> r.owner.HeldBy? && r.owner.tx != t && !(t < r.owner.tx && |r.waiting| < maxWaits))
            && (rc == Abort ==> r' == r)
            && r' == r.(owner := r'.owner, waiting := r'.waiting) && r'.waiting - {t} == r.waiting
            && (rc != RcOk ==> r'.owner == r.owner)
  {
  }

  /** In every run, a request for a write lock: the transaction goes on with the access exactly if it owns the
      row from now on, and gives up exactly if it may not wait. */
  lemma LockAnswersAreRight(init: Store, run: seq<System>, s': System, t: Tx, k: Key, v: Val)
    requires IsRun(init, run) && WriteRow(run[|run| - 1], s', t, k, v)
    ensures var r := run[|run| - 1].cells[k].row;
            && (k in s'.trans[t].accs <==> s'.cells[k].row.owner == HeldBy(t))
            && (k in s'.trans[t].accs <==> r.owner.Free? || r.owner == HeldBy(t))
            && (s'.trans[t].phase.Aborting? <==>
                  r.owner.HeldBy? && r.owner.tx != t && !(t < r.owner.tx && |r.waiting| < run[|run| - 1].maxWaits))
            && (k !in s'.trans[t].accs && !s'.trans[t].phase.Aborting? ==> t in s'.cells[k].row.waiting)
  {
    hide Step, Init, IsRun;
  }

  lemma WriteKeepsSelf(cells: map<Key, Cell>, maxWaits: nat, t: Tx, tr: Tran, k: Key)
    requires TranOk(cells, t, tr) && tr.phase.Running? && k in cells && k !in tr.accs
    ensures TranOk(cells[k := cells[k].(row := Write(maxWaits, cells[k].row, t).1)], t, tr)
  {
  }

  lemma AbortingOk(cells: map<Key, Cell>, t: Tx, tr: Tran)
    ensures TranOk(cells, t, tr.(phase := Aborting))
  {
  }

  lemma WriteRowKeeps(init: Store, s: System, s': System, t: Tx, k: Key, v: Val)
    requires Inv(init, s) && WriteRow(s, s', t, k, v)
    ensures Inv(init, s')
  {
    hide Inv, CellsMove, TranOk, CellOk, CellsOk, ActiveAccOk, Moves;
    InvParts(init, s);
    assert CellOk(init, s.order, k, s.cells[k]) by { CellsAt(init, s.cells, s.order, k); }
    var c := s.cells[k].(row := Write(s.maxWaits, s.cells[k].row, t).1);
    WriteKeepsCell(init, s.order, k, s.cells[k], s.maxWaits, t);
    OneCellMoves(s.cells, k, c, t);
    OneCellOk(init, s.cells, s.order, k, c);
    WriteKeepsSelf(s.cells, s.maxWaits, t, s.trans[t], k);
    AbortingOk(s'.cells, t, s.trans[t]);
    if Write(s.maxWaits, s.cells[k].row, t).0 == RcOk {
      FreshAccOk(init, s.order, k, c, true, v, t);
      AddAccess(s'.cells, t, s.trans[t], k, Access(c, true, v));
    }
    UndecidedStepKeeps(init, s, s', t);
  }

  lemma CellsAt(init: Store, cells: map<Key, Cell>, order: seq<Entry>, k: Key)
    requires CellsOk(init, cells, order) && k in cells
    ensures CellOk(init, order, k, cells[k])
  {
  }

  lemma StartValidationKeeps(init: Store, s: System, s': System, t: Tx, ts: nat)
    requires Inv(init, s) && StartValidation(s, s', t, ts)
    ensures Inv(init, s')
  {
    hide Inv, CellsMove, ActiveAccOk, CellsOk;
    InvParts(init, s);
    SameCells(s.cells, t);
    assert TranOk(s.cells, t, s.trans[t]);
    assert forall k :: k in s.trans[t].accs ==> BoundOf(s.trans[t].accs[k]) in Bounds(s.trans[t].accs);
    UndecidedStepKeeps(init, s, s', t);
  }

  lemma GiveUpKeeps(init: Store, s: System, s': System, t: Tx)
    requires Inv(init, s) && GiveUp(s, s', t)
    ensures Inv(init, s')
  {
    hide Inv, CellsMove, TranOk, CellsOk;
    InvParts(init, s);
    SameCells(s.cells, t);
    AbortingOk(s.cells, t, s.trans[t]);
    UndecidedStepKeeps(init, s, s', t);
  }

  /** Renewal only lengthens the lease of the current version of an unlocked row. */
  lemma RenewKeepsCell(init: Store, order: seq<Entry>, k: Key, c: Cell, wts: nat, ts: nat, t: Tx)
    requires CellOk(init, order, k, c) && TryRenew(c.row, wts, ts).0
    ensures var c' := Renewed(c, TryRenew(c.row, wts, ts).1);
            CellOk(init, order, k, c') && Moves(c, c', t)
  {
    var c' := Renewed(c, TryRenew(c.row, wts, ts).1);
    forall i | 0 < i < |c'.versions|
      ensures MadeBy(order, k, c'.versions, i)
    {
      assert MadeBy(order, k, c.versions, i);
    }
  }

  /** The version read is still current, so renewing covers the commit timestamp. */
  lemma RenewCovers(init: Store, order: seq<Entry>, k: Key, c: Cell, a: Acc, ts: nat, t: Tx)
    requires CellOk(init, order, k, c) && ActiveAccOk(c, a, t) && !a.write && a.wts <= ts
    requires TryRenew(c.row, a.wts, ts).0
    ensures var row := TryRenew(c.row, a.wts, ts).1;
            var a', c' := a.(rts := row.rts), Renewed(c, row);
            ActiveAccOk(c', a', t) && CheckedOk(c'.versions, a', ts, true)
  {
    assert a.ver == |c.versions| - 1;
  }

  lemma CoveredStays(c: Cell, a: Acc, ts: nat, t: Tx)
    requires ActiveAccOk(c, a, t) && !a.write && a.wts <= ts <= a.rts
    ensures CheckedOk(c.versions, a, ts, true)
  {
  }

  /** Locks this transaction holds are on other rows than the one it renews. */
  lemma RenewKeepsSelf(cells: map<Key, Cell>, t: Tx, tr: Tran, k: Key, c: Cell, a: Acc)
    requires TranOk(cells, t, tr) && tr.phase.Validating? && k in tr.accs && k in cells
    requires ActiveAccOk(c, a, t) && CheckedOk(c.versions, a, tr.phase.ts, true)
    ensures TranOk(cells[k := c], t, tr.(phase := Validating(tr.phase.ts, tr.phase.checked + {k}),
                                         accs := tr.accs[k := a]))
  {
    hide ActiveAccOk, CheckedOk;
  }

  lemma CheckRowKeeps(init: Store, s: System, s': System, t: Tx, k: Key)
    requires Inv(init, s) && CheckRow(s, s', t, k)
    ensures Inv(init, s')
  {
    hide Inv, CellsMove, TranOk, CellOk, CellsOk, ActiveAccOk, CheckedOk, Moves;
    InvParts(init, s);
    var tr, a, c := s.trans[t], s.trans[t].accs[k], s.cells[k];
    CellsAt(init, s.cells, s.order, k);
    TranAt(s.cells, t, tr, k);
    SameCells(s.cells, t);
    AbortingOk(s.cells, t, tr);
    if a.rts >= tr.phase.ts {
      CoveredStays(c, a, tr.phase.ts, t);
      RenewKeepsSelf(s.cells, t, tr, k, c, a);
      assert s.cells[k := c] == s.cells && tr.accs[k := a] == tr.accs;
    } else if TryRenew(c.row, a.wts, tr.phase.ts).0 {
      var row := TryRenew(c.row, a.wts, tr.phase.ts).1;
      RenewKeepsCell(init, s.order, k, c, a.wts, tr.phase.ts, t);
      RenewCovers(init, s.order, k, c, a, tr.phase.ts, t);
      OneCellMoves(s.cells, k, Renewed(c, row), t);
      OneCellOk(init, s.cells, s.order, k, Renewed(c, row));
      RenewKeepsSelf(s.cells, t, tr, k, Renewed(c, row), a.(rts := row.rts));
    }
    UndecidedStepKeeps(init, s, s', t);
  }

  lemma TranAt(cells: map<Key, Cell>, t: Tx, tr: Tran, k: Key)
    requires TranOk(cells, t, tr) && tr.phase.Validating? && k in tr.accs
    ensures k in cells && ActiveAccOk(cells[k], tr.accs[k], t)
    ensures CheckedOk(cells[k].versions, tr.accs[k], tr.phase.ts, k in tr.phase.checked)
    ensures !tr.accs[k].write ==> tr.accs[k].wts <= tr.phase.ts
  {
  }

  /** At the decision every read is covered and every written row is locked at its current version. */
  lemma DecidedAccOk(init: Store, order: seq<Entry>, k: Key, c: Cell, a: Acc, t: Tx, ts: nat, checked: bool)
    requires CellOk(init, order, k, c) && ActiveAccOk(c, a, t) && CheckedOk(c.versions, a, ts, checked)
    requires a.write || checked
    ensures CommittedAccOk(c, a, t, ts, |order|, false)
  {
    if a.ver > 0 {
      assert MadeBy(order, k, c.versions, a.ver);
    }
  }

  lemma DecidedEntryOk(init: Store, s: System, s': System, t: Tx)
    requires Inv(init, s) && Commit(s, s', t)
    ensures EntryOk(s.cells, s'.order[|s.order|], |s.order|, s'.trans[t].phase)
  {
    hide Inv, TranOk, CellOk, CellsOk, ActiveAccOk, CheckedOk, CommittedAccOk;
    InvParts(init, s);
    var tr := s.trans[t];
    forall k | k in tr.accs
      ensures k in s.cells && CommittedAccOk(s.cells[k], tr.accs[k], t, tr.phase.ts, |s.order|, false)
    {
      TranAt(s.cells, t, tr, k);
      CellsAt(init, s.cells, s.order, k);
      DecidedAccOk(init, s.order, k, s.cells[k], tr.accs[k], t, tr.phase.ts, k in tr.phase.checked);
    }
  }

  lemma CommitKeeps(init: Store, s: System, s': System, t: Tx)
    requires Inv(init, s) && Commit(s, s', t)
    ensures Inv(init, s')
  {
    hide TranOk, CellOk, EntryOk;
    forall k | k in s.cells
      ensures CellOk(init, s'.order, k, s.cells[k])
    {
      CellKeepsOrder(init, s.order, s'.order[|s.order|], k, s.cells[k]);
    }
    DecidedTranOk(s.cells, t, s'.trans[t]);
    DecidedEntryOk(init, s, s', t);
    forall i | 0 <= i < |s.order|
      ensures s.order[i].tx in s'.trans && EntryOk(s.cells, s.order[i], i, s'.trans[s.order[i].tx].phase)
    {
      CommittedPhase(s.cells, s.order[i], i, s.trans[s.order[i].tx].phase);
    }
  }

  lemma DecidedTranOk(cells: map<Key, Cell>, t: Tx, tr: Tran)
    requires tr.phase.Committing?
    ensures TranOk(cells, t, tr)
  {
  }

  lemma CommittedPhase(cells: map<Key, Cell>, e: Entry, pos: nat, phase: Phase)
    requires EntryOk(cells, e, pos, phase)
    ensures phase.Committing? && phase.pos == pos
  {
  }

  // ----- installing and releasing -----------------------------------------------------------

  lemma InstallKeepsCell(init: Store, order: seq<Entry>, k: Key, c: Cell, pos: nat)
    requires CellOk(init, order, k, c) && pos < |order| && k in order[pos].accs && order[pos].accs[k].write
    requires CommittedAccOk(c, order[pos].accs[k], order[pos].tx, order[pos].ts, pos, false)
    ensures var e := order[pos];
            var v := Version(e.ts, e.ts, e.accs[k].put, By(pos));
            var c' := Cell(Install(c.row, e.ts, e.accs[k].put), c.versions + [v]);
            && CellOk(init, order, k, c') && Moves(c, c', e.tx)
            && CommittedAccOk(c', e.accs[k], e.tx, e.ts, pos, true)
  {
    var e := order[pos];
    var vs := c.versions + [Version(e.ts, e.ts, e.accs[k].put, By(pos))];
    forall i | 0 < i < |vs|
      ensures MadeBy(order, k, vs, i)
    {
      if i < |c.versions| {
        assert MadeBy(order, k, c.versions, i);
      }
    }
  }

  lemma InstallKeepsEntry(cells: map<Key, Cell>, k: Key, c: Cell, e: Entry, pos: nat, phase: Phase)
    requires EntryOk(cells, e, pos, phase) && k in cells && k in e.accs
    requires CommittedAccOk(c, e.accs[k], e.tx, e.ts, pos, true)
    ensures EntryOk(cells[k := c], e, pos, Committing(pos, phase.installed + {k}))
  {
    hide CommittedAccOk;
  }

  lemma InstallRowKeeps(init: Store, s: System, s': System, t: Tx, k: Key)
    requires Inv(init, s) && InstallRow(s, s', t, k)
    ensures Inv(init, s')
  {
    hide TranOk, CellOk, EntryOk, Moves, CellsMove, CommittedAccOk;
    var pos := s.trans[t].phase.pos;
    assert PlaceOk(s.order, t, s.trans[t]);
    EntryAt(s.cells, s.order[pos], pos, s.trans[t].phase, k);
    InstallKeepsCell(init, s.order, k, s.cells[k], pos);
    OneCellMoves(s.cells, k, s'.cells[k], t);
    InstallKeepsEntry(s.cells, k, s'.cells[k], s.order[pos], pos, s.trans[t].phase);
    DecidedTranOk(s'.cells, t, s'.trans[t]);
    forall x | x in s'.trans
      ensures TranOk(s'.cells, x, s'.trans[x]) && PlaceOk(s'.order, x, s'.trans[x])
    {
      if x != t {
        MovesKeepTran(s.cells, s'.cells, t, x, s.trans[x]);
      }
    }
    forall i | 0 <= i < |s.order|
      ensures s.order[i].tx in s'.trans && EntryOk(s'.cells, s.order[i], i, s'.trans[s.order[i].tx].phase)
    {
      CommittedPhase(s.cells, s.order[i], i, s.trans[s.order[i].tx].phase);
      if i != pos {
        MovesKeepEntry(s.cells, s'.cells, t, s.order[i], i, s.trans[s.order[i].tx].phase);
      }
    }
  }

  lemma EntryAt(cells: map<Key, Cell>, e: Entry, pos: nat, phase: Phase, k: Key)
    requires EntryOk(cells, e, pos, phase) && k in e.accs
    ensures phase.Committing? && phase.pos == pos
    ensures k in cells && CommittedAccOk(cells[k], e.accs[k], e.tx, e.ts, pos, k in phase.installed)
  {
  }

  /** The lock passes to the waiter of largest priority, so the rest still wait for a larger one. */
  lemma ReleaseKeepsCell(init: Store, order: seq<Entry>, k: Key, c: Cell, t: Tx)
    requires CellOk(init, order, k, c)
    ensures var c' := c.(row := Release(c.row, t));
            CellOk(init, order, k, c') && Moves(c, c', t)
  {
  }

  lemma ReleaseRowKeeps(init: Store, s: System, s': System, t: Tx, k: Key)
    requires Inv(init, s) && ReleaseRow(s, s', t, k)
    ensures Inv(init, s')
  {
    hide TranOk, CellOk, EntryOk, Moves, CellsMove;
    var c := s.cells[k].(row := Release(s.cells[k].row, t));
    ReleaseKeepsCell(init, s.order, k, s.cells[k], t);
    OneCellMoves(s.cells, k, c, t);
    DecidedOrAborting(s'.cells, t, s.trans[t]);
    forall x | x in s.trans
      ensures TranOk(s'.cells, x, s.trans[x])
    {
      if x != t {
        MovesKeepTran(s.cells, s'.cells, t, x, s.trans[x]);
      }
    }
    forall i | 0 <= i < |s.order|
      ensures s.order[i].tx in s'.trans && EntryOk(s'.cells, s.order[i], i, s'.trans[s.order[i].tx].phase)
    {
      CommittedPhase(s.cells, s.order[i], i, s.trans[s.order[i].tx].phase);
      assert PlaceOk(s.order, s.order[i].tx, s.trans[s.order[i].tx]);
      MovesKeepEntry(s.cells, s'.cells, t, s.order[i], i, s.trans[s.order[i].tx].phase);
    }
  }

  lemma DecidedOrAborting(cells: map<Key, Cell>, t: Tx, tr: Tran)
    requires MayRelease(tr)
    ensures TranOk(cells, t, tr)
  {
  }

  predicate NotSetBack(r: Row, r': Row) {
    r.wts <= r'.wts && r.rts <= r'.rts
  }

  /** Stamping the row anew with a committed read is harmless exactly if nobody, writer or reader,
      has been promised a timestamp above the commit timestamp. */
  lemma ReturnReadKeepsCell(init: Store, order: seq<Entry>, k: Key, c: Cell, pos: nat, done: bool)
    requires CellOk(init, order, k, c) && pos < |order| && k in order[pos].accs && !order[pos].accs[k].write
    requires CommittedAccOk(c, order[pos].accs[k], order[pos].tx, order[pos].ts, pos, done)
    ensures var e := order[pos];
            var c' := c.(row := Install(c.row, e.ts, e.accs[k].val));
            && (c.row.rts <= e.ts <==> CellOk(init, order, k, c'))
            && (c.row.rts <= e.ts <==> c'.row.value == c.row.value && NotSetBack(c.row, c'.row))
            && (c.row.rts <= e.ts ==> forall t :: Moves(c, c', t))
  {
    assert c.row.rts <= order[pos].ts ==> order[pos].accs[k].ver == |c.versions| - 1;
  }

  lemma ReturnReadKeeps(init: Store, s: System, s': System, t: Tx, k: Key)
    requires Inv(init, s) && ReturnRead(s, s', t, k)
    ensures Inv(init, s')
  {
    hide TranOk, CellOk, EntryOk, Moves, CellsMove, CommittedAccOk;
    var pos := s.trans[t].phase.pos;
    assert PlaceOk(s.order, t, s.trans[t]);
    EntryAt(s.cells, s.order[pos], pos, s.trans[t].phase, k);
    ReturnReadKeepsCell(init, s.order, k, s.cells[k], pos, k in s.trans[t].phase.installed);
    forall x | x in s.trans
      ensures TranOk(s'.cells, x, s.trans[x])
    {
      OneCellMoves(s.cells, k, s'.cells[k], x + 1);
      MovesKeepTran(s.cells, s'.cells, x + 1, x, s.trans[x]);
    }
    forall i | 0 <= i < |s.order|
      ensures s.order[i].tx in s'.trans && EntryOk(s'.cells, s.order[i], i, s'.trans[s.order[i].tx].phase)
    {
      OneCellMoves(s.cells, k, s'.cells[k], s.order[i].tx + 1);
      MovesKeepEntry(s.cells, s'.cells, s.order[i].tx + 1, s.order[i], i, s.trans[s.order[i].tx].phase);
    }
  }

  lemma StepKeeps(init: Store, s: System, s': System)
    requires Inv(init, s) && Step(s, s')
    ensures Inv(init, s')
  {
    hide Inv, Begin, ReadRow, WriteRow, StartValidation, CheckRow, Commit, InstallRow, ReturnRead;
    hide ReleaseRow, GiveUp;
    var t :| StepBy(s, s', t);
    if minTs :| Begin(s, s', t, minTs) {
      BeginKeeps(init, s, s', t, minTs);
    } else if k :| ReadRow(s, s', t, k) {
      ReadRowKeeps(init, s, s', t, k);
    } else if k, v :| WriteRow(s, s', t, k, v) {
      WriteRowKeeps(init, s, s', t, k, v);
    } else if ts :| StartValidation(s, s', t, ts) {
      StartValidationKeeps(init, s, s', t, ts);
    } else if k :| CheckRow(s, s', t, k) {
      CheckRowKeeps(init, s, s', t, k);
    } else if Commit(s, s', t) {
      CommitKeeps(init, s, s', t);
    } else if k :| InstallRow(s, s', t, k) {
      InstallRowKeeps(init, s, s', t, k);
    } else if k :| ReturnRead(s, s', t, k) {
      ReturnReadKeeps(init, s, s', t, k);
    } else if k :| ReleaseRow(s, s', t, k) {
      ReleaseRowKeeps(init, s, s', t, k);
    } else {
      GiveUpKeeps(init, s, s', t);
    }
  }

  lemma InitOk(init: Store, s: System)
    requires Init(init, s)
    ensures Inv(init, s)
  {
  }

  lemma {:induction false} RunKeeps(init: Store, run: seq<System>)
    requires IsRun(init, run)
    ensures Inv(init, run[|run| - 1])
  {
    hide Inv, Init, Step;
    if |run| == 1 {
      InitOk(init, run[0]);
    } else {
      RunKeeps(init, run[..|run| - 1]);
      StepKeeps(init, run[|run| - 2], run[|run| - 1]);
    }
  }

  // ----- what the answers mean --------------------------------------------------------------

  lemma CheckTellsTheTruth(s: System, s': System, t: Tx, k: Key)
    requires CheckRow(s, s', t, k)
    ensures var a, ts, row := s.trans[t].accs[k], s.trans[t].phase.ts, s.cells[k].row;
            && (!s'.trans[t].phase.Aborting? <==> a.rts >= ts || (row.wts == a.wts && row.owner.Free?))
            && (s'.trans[t].phase.Aborting? || a.rts >= ts ==> s'.cells == s.cells)
            && (!s'.trans[t].phase.Aborting? ==> s'.trans[t].phase == Validating(ts, s.trans[t].phase.checked + {k}))
            && (!s'.trans[t].phase.Aborting? && a.rts < ts ==>
                  && s'.cells.Keys == s.cells.Keys
                  && s'.cells[k].row == row.(rts := if row.rts < ts then ts else row.rts)
                  && forall j :: j in s.cells && j != k ==> s'.cells[j] == s.cells[j])
            && k in s'.trans[t].accs && s'.trans[t].accs[k].ver == a.ver
  {
  }

  lemma CheckCovers(init: Store, s: System, s': System, t: Tx, k: Key)
    requires Inv(init, s) && CheckRow(s, s', t, k) && s'.trans[t].phase.Validating? && k in s'.trans[t].phase.checked
    requires k in s'.trans[t].accs
    ensures var a := s'.trans[t].accs[k];
            k in s'.cells && a.ver < |s'.cells[k].versions| && s'.trans[t].phase.ts <= s'.cells[k].versions[a.ver].rts
  {
    hide Inv, CheckRow, CellsOk, OrderOk;
    assert t in s'.trans by { CheckedTran(s, s', t, k); }
    CheckRowKeeps(init, s, s', t, k);
    InvParts(init, s');
    TranAt(s'.cells, t, s'.trans[t], k);
  }

  lemma CheckedTran(s: System, s': System, t: Tx, k: Key)
    requires CheckRow(s, s', t, k)
    ensures t in s.trans && t in s'.trans
  {
  }

  /** In every run a read passes its check exactly if the lease it remembers reaches the commit timestamp, or
      the row is unlocked and still stamped as it was read; then the version it read has a lease that
      reaches the commit timestamp, and otherwise the transaction gives up and no row has changed. */
  lemma ChecksAreRight(init: Store, run: seq<System>, s': System, t: Tx, k: Key)
    requires IsRun(init, run) && CheckRow(run[|run| - 1], s', t, k)
    ensures var s := run[|run| - 1];
            var a, ts, row := s.trans[t].accs[k], s.trans[t].phase.ts, s.cells[k].row;
            && (!s'.trans[t].phase.Aborting? <==> a.rts >= ts || (row.wts == a.wts && row.owner.Free?))
            && (s'.trans[t].phase.Aborting? ==> s'.cells == s.cells)
            && (!s'.trans[t].phase.Aborting? ==>
                  k in s'.cells && a.ver < |s'.cells[k].versions| && ts <= s'.cells[k].versions[a.ver].rts)
  {
    hide Step, Init, Inv;
    RunKeeps(init, run);
    var s := run[|run| - 1];
    CheckTellsTheTruth(s, s', t, k);
    if !s'.trans[t].phase.Aborting? {
      CheckCovers(init, s, s', t, k);
    }
  }

  /** When its owner releases a row the waiter of largest priority owns it, if anybody waits, and nobody else
      leaves the queue; from anybody else a release only ends its own waiting. */
  lemma ReleaseTellsTheTruth(r: Row, t: Tx)
    requires WaitersOk(r)
    ensures var r' := Release(r, t);
            && r' == r.(owner := r'.owner, waiting := r'.waiting)
            && (r.owner != HeldBy(t) ==> r'.owner == r.owner && r'.waiting == r.waiting - {t})
            && (r.owner == HeldBy(t) ==>
                  && (r'.owner.Free? <==> r.waiting == {})
                  && (r'.owner.HeldBy? ==> IsLast(r.waiting, r'.owner.tx) && r'.waiting == r.waiting - {r'.owner.tx}))
  {
  }

  // ----- leases over whole runs -------------------------------------------------------------

  /** In every reachable state the versions of a row have disjoint, strictly increasing leases, and
      each version was installed above the lease its predecessor ever reached. */
  lemma LeasesNeverOverlap(init: Store, run: seq<System>, k: Key, i: nat, j: nat)
    requires IsRun(init, run) && k in run[|run| - 1].cells
    requires i < j < |run[|run| - 1].cells[k].versions|
    ensures var vs := run[|run| - 1].cells[k].versions;
            vs[i].wts <= vs[i].rts < vs[j].wts <= vs[j].rts
  {
    hide Step, Init, TransOk, OrderOk;
    RunKeeps(init, run);
    assert CellOk(init, run[|run| - 1].order, k, run[|run| - 1].cells[k]);
  }

  lemma StepKeepsLog(s: System, s': System)
    requires Step(s, s')
    ensures s.order <= s'.order && s'.cells.Keys == s.cells.Keys
  {
  }

  lemma {:induction false} RunKeepsLog(init: Store, run: seq<System>, i: nat)
    requires IsRun(init, run) && i < |run|
    ensures run[i].order <= run[|run| - 1].order
    decreases |run|
  {
    hide Init, Step;
    if i < |run| - 1 {
      RunKeepsLog(init, run[..|run| - 1], i);
      StepKeepsLog(run[|run| - 2], run[|run| - 1]);
    }
  }

  /** A read committed at timestamp c on the version written at w: w <= c, and no version ever made,
      before or after the commit, has a timestamp in (w, c]. */
  lemma CommittedReadsStayValid(init: Store, run: seq<System>, i: nat, pos: nat, k: Key)
    requires IsRun(init, run) && i < |run| && pos < |run[i].order|
    requires k in run[i].order[pos].accs && !run[i].order[pos].accs[k].write
    ensures var e := run[i].order[pos];
            var s := run[|run| - 1];
            && k in s.cells && e.accs[k].wts <= e.ts
            && forall v :: v in s.cells[k].versions ==> !(e.accs[k].wts < v.wts <= e.ts)
  {
    hide Step, Init, TransOk;
    RunKeeps(init, run);
    RunKeepsLog(init, run, i);
    var s := run[|run| - 1];
    assert EntryOk(s.cells, s.order[pos], pos, s.trans[s.order[pos].tx].phase);
    assert CellOk(init, s.order, k, s.cells[k]);
  }

  // ----- commit timestamp order is a serial order -------------------------------------------

  /** By commit timestamp; decision order breaks ties. */
  predicate Earlier(order: seq<Entry>, p: nat, q: nat)
    requires p < |order| && q < |order|
  {
    order[p].ts < order[q].ts || (order[p].ts == order[q].ts && p < q)
  }

  ghost predicate Places(ps: seq<nat>, n: nat) {
    forall i :: 0 <= i < |ps| ==> ps[i] < n
  }

  ghost function InsertPos(order: seq<Entry>, ps: seq<nat>, p: nat): (r: seq<nat>)
    requires p < |order| && Places(ps, |order|)
    ensures |r| == |ps| + 1
  {
    if ps == [] || Earlier(order, p, ps[0]) then [p] + ps else [ps[0]] + InsertPos(order, ps[1..], p)
  }

  lemma {:induction false} InsertPosMembers(order: seq<Entry>, ps: seq<nat>, p: nat, n: nat)
    requires p < n <= |order| && Places(ps, n)
    ensures forall q :: q in InsertPos(order, ps, p) <==> q in ps || q == p
    ensures Places(InsertPos(order, ps, p), n)
  {
    if ps != [] {
      InsertPosMembers(order, ps[1..], p, n);
    }
  }

  /** The first `n` committed transactions sorted by commit timestamp. */
  ghost function SerialOrder(order: seq<Entry>, n: nat): (ps: seq<nat>)
    requires n <= |order|
    ensures Places(ps, n) && |ps| == n
  {
    if n == 0 then [] else
      InsertPosMembers(order, SerialOrder(order, n - 1), n - 1, n);
      InsertPos(order, SerialOrder(order, n - 1), n - 1)
  }

  ghost predicate Ordered(order: seq<Entry>, ps: seq<nat>) {
    Places(ps, |order|) && forall i, j :: 0 <= i < j < |ps| ==> Earlier(order, ps[i], ps[j])
  }

  lemma {:induction false} InsertPosOrdered(order: seq<Entry>, ps: seq<nat>, p: nat)
    requires p < |order| && Ordered(order, ps) && p !in ps
    ensures Ordered(order, InsertPos(order, ps, p))
  {
    InsertPosMembers(order, ps, p, |order|);
    if ps != [] && !Earlier(order, p, ps[0]) {
      InsertPosOrdered(order, ps[1..], p);
      InsertPosMembers(order, ps[1..], p, |order|);
      var r := InsertPos(order, ps[1..], p);
      forall j | 0 <= j < |r|
        ensures Earlier(order, ps[0], r[j])
      {
        assert r[j] in r;
      }
    }
  }

  /** Sorting loses nobody. */
  lemma {:induction false} SerialOrderOk(order: seq<Entry>, n: nat)
    requires n <= |order|
    ensures Ordered(order, SerialOrder(order, n))
    ensures forall q :: 0 <= q < n ==> q in SerialOrder(order, n)
  {
    if n > 0 {
      SerialOrderOk(order, n - 1);
      var ps := SerialOrder(order, n - 1);
      assert n - 1 !in ps;
      InsertPosMembers(order, ps, n - 1, n);
      InsertPosOrdered(order, ps, n - 1);
    }
  }

  function EntryTxn(e: Entry): Txn {
    Txn(map k | k in e.accs :: e.accs[k].val, map k | k in e.accs && e.accs[k].write :: e.accs[k].put)
  }

  ghost function History(order: seq<Entry>): (h: seq<Txn>)
    ensures |h| == |order|
    ensures forall i :: 0 <= i < |h| ==> h[i] == EntryTxn(order[SerialOrder(order, |order|)[i]])
  {
    var ps := SerialOrder(order, |order|);
    seq(|ps|, i requires 0 <= i < |ps| => EntryTxn(order[ps[i]]))
  }

  ghost predicate Writes(order: seq<Entry>, p: nat, k: Key)
    requires p < |order|
  {
    k in order[p].accs && order[p].accs[k].write
  }

  /** The phase data of a committed transaction. */
  lemma CommittedAt(init: Store, s: System, p: nat, k: Key)
    requires Inv(init, s) && p < |s.order| && k in s.order[p].accs
    ensures var e := s.order[p];
            && e.tx in s.trans && s.trans[e.tx].phase.Committing? && s.trans[e.tx].phase.pos == p
            && k in s.cells && CellOk(init, s.order, k, s.cells[k])
            && CommittedAccOk(s.cells[k], e.accs[k], e.tx, e.ts, p, k in s.trans[e.tx].phase.installed)
  {
    hide TransOk, CellOk, CommittedAccOk;
    assert EntryOk(s.cells, s.order[p], p, s.trans[s.order[p].tx].phase);
  }

  /** A committed write is never inside the lease of a version: it made it, or it is below or above. */
  lemma WriterInterval(init: Store, order: seq<Entry>, k: Key, c: Cell, i: nat, q: nat, installed: bool)
    requires CellOk(init, order, k, c) && i < |c.versions| && q < |order| && Writes(order, q, k)
    requires CommittedAccOk(c, order[q].accs[k], order[q].tx, order[q].ts, q, installed)
    ensures var v := c.versions[i];
            || (i > 0 && order[q].ts < v.wts)
            || (order[q].ts == v.wts && v.writer == By(q))
            || (order[q].ts > v.rts && (i + 1 < |c.versions| ==> order[q].ts >= c.versions[i + 1].wts))
    ensures i + 1 == |c.versions| && installed ==> order[q].ts <= c.versions[i].wts <= c.versions[i].rts
  {
    var a := order[q].accs[k];
    if installed {
      assert MadeBy(order, k, c.versions, a.ver + 1);
    }
  }

  /** Between the version a committed transaction saw and the transaction itself, nobody wrote. */
  lemma NobodyBetween(init: Store, s: System, k: Key, p: nat, q: nat)
    requires Inv(init, s) && p < |s.order| && q < |s.order| && k in s.order[p].accs && Writes(s.order, q, k)
    requires Earlier(s.order, q, p)
    ensures k in s.cells && s.order[p].accs[k].ver < |s.cells[k].versions|
    ensures var i := s.order[p].accs[k].ver;
            var v := s.cells[k].versions[i];
            (i > 0 && s.order[q].ts < v.wts) || v.writer == By(q)
  {
    hide Inv, CellOk;
    CommittedAt(init, s, p, k);
    CommittedAt(init, s, q, k);
    var c, a := s.cells[k], s.order[p].accs[k];
    var done := k in s.trans[s.order[q].tx].phase.installed;
    WriterInterval(init, s.order, k, c, a.ver, q, done);
    if a.write && k in s.trans[s.order[p].tx].phase.installed {
      WriterInterval(init, s.order, k, c, a.ver + 1, q, done);
      NextVersion(init, s.order, k, c, a.ver + 1);
    }
  }

  lemma NextVersion(init: Store, order: seq<Entry>, k: Key, c: Cell, i: nat)
    requires CellOk(init, order, k, c) && 0 < i < |c.versions|
    ensures c.versions[i].writer.By? && c.versions[i].writer.pos < |order|
    ensures order[c.versions[i].writer.pos].ts == c.versions[i].wts <= c.versions[i].rts
    ensures Writes(order, c.versions[i].writer.pos, k)
    ensures order[c.versions[i].writer.pos].accs[k].put == c.versions[i].val
  {
    assert MadeBy(order, k, c.versions, i);
  }

  /** Version `i` of row `k` is what transactions up to a place must see: its maker is before that
      place, and every other writer of the row before that place is before its maker. */
  ghost predicate VisibleAt(order: seq<Entry>, k: Key, v: Version, before: iset<nat>) {
    && (v.writer.By? ==> v.writer.pos < |order| && v.writer.pos in before && Writes(order, v.writer.pos, k))
    && forall q :: q in before && q < |order| && Writes(order, q, k) ==>
         v.writer.By? && v.writer.pos < |order| && (q == v.writer.pos || Earlier(order, q, v.writer.pos))
  }

  lemma SerialContent(init: Store, order: seq<Entry>, k: Key, v: Version, n: nat, before: iset<nat>)
    requires n <= |order| && k in init
    requires forall q :: q in before <==> q in SerialOrder(order, |order|)[..n]
    requires VisibleAt(order, k, v, before)
    requires if v.writer.By? then order[v.writer.pos].accs[k].put == v.val else v.val == init[k]
    ensures var final := Replay(init, History(order)[..n]); k in final && final[k] == v.val
  {
    var ps := SerialOrder(order, |order|);
    var h := History(order)[..n];
    SerialOrderOk(order, |order|);
    forall i | 0 <= i < n && k in h[i].wrote
      ensures ps[i] in before && Writes(order, ps[i], k)
    {
      assert ps[i] in ps[..n];
    }
    if v.writer.Initial? {
      ReplayUntouched(init, h, k);
    } else {
      var j :| 0 <= j < n && ps[..n][j] == v.writer.pos;
      ReplayLastWriter(init, h, k, j);
    }
  }

  lemma SeenIsVisible(init: Store, s: System, k: Key, j: nat)
    requires Inv(init, s) && j < |s.order|
    requires k in s.order[SerialOrder(s.order, |s.order|)[j]].accs
    ensures var ps := SerialOrder(s.order, |s.order|);
            var a := s.order[ps[j]].accs[k];
            && k in s.cells && a.ver < |s.cells[k].versions| && s.cells[k].versions[a.ver].val == a.val
            && VisibleAt(s.order, k, s.cells[k].versions[a.ver], iset q | q in ps[..j])
  {
    hide Inv, CellOk;
    var ps := SerialOrder(s.order, |s.order|);
    var p := ps[j];
    SerialOrderOk(s.order, |s.order|);
    CommittedAt(init, s, p, k);
    var c, a := s.cells[k], s.order[p].accs[k];
    forall q | q in ps[..j] && Writes(s.order, q, k)
      ensures (a.ver > 0 && s.order[q].ts < c.versions[a.ver].wts) || c.versions[a.ver].writer == By(q)
    {
      NobodyBetween(init, s, k, p, q);
    }
    MakerIsBefore(init, s.order, k, c, ps, j, k in s.trans[s.order[p].tx].phase.installed);
    if a.ver > 0 {
      NextVersion(init, s.order, k, c, a.ver);
    }
  }

  lemma MakerIsBefore(init: Store, order: seq<Entry>, k: Key, c: Cell, ps: seq<nat>, j: nat, done: bool)
    requires CellOk(init, order, k, c) && Ordered(order, ps) && j < |ps| && k in order[ps[j]].accs
    requires forall q :: 0 <= q < |order| ==> q in ps
    requires CommittedAccOk(c, order[ps[j]].accs[k], order[ps[j]].tx, order[ps[j]].ts, ps[j], done)
    ensures var a := order[ps[j]].accs[k];
            if a.ver == 0 then c.versions[0].writer.Initial?
            else c.versions[a.ver].writer.By? && c.versions[a.ver].writer.pos in ps[..j]
  {
    var a := order[ps[j]].accs[k];
    if a.ver > 0 {
      NextVersion(init, order, k, c, a.ver);
      var w := c.versions[a.ver].writer.pos;
      assert c.versions[a.ver].wts <= c.versions[a.ver].rts;
      assert Earlier(order, w, ps[j]);
      assert w in ps;
      var i :| 0 <= i < |ps| && ps[i] == w;
      assert i < j;
      assert ps[..j][i] == w;
    }
  }

  /** In every run, however the steps interleave, each committed transaction saw exactly what a serial
      execution of the committed transactions in commit timestamp order would have shown it. */
  lemma CommittedAreSerial(init: Store, run: seq<System>)
    requires IsRun(init, run)
    ensures IsSerial(init, History(run[|run| - 1].order))
  {
    hide Inv, Step, Init;
    RunKeeps(init, run);
    var s := run[|run| - 1];
    var h, ps := History(s.order), SerialOrder(s.order, |s.order|);
    forall j, k | 0 <= j < |h| && k in h[j].seen
      ensures k in Replay(init, h[..j]) && Replay(init, h[..j])[k] == h[j].seen[k]
    {
      SeenIsSerial(init, s, k, j);
    }
  }

  lemma SeenIsSerial(init: Store, s: System, k: Key, j: nat)
    requires Inv(init, s) && j < |s.order|
    requires k in s.order[SerialOrder(s.order, |s.order|)[j]].accs
    ensures var final := Replay(init, History(s.order)[..j]);
            k in final && final[k] == s.order[SerialOrder(s.order, |s.order|)[j]].accs[k].val
  {
    hide Inv, VisibleAt;
    var ps := SerialOrder(s.order, |s.order|);
    SeenIsVisible(init, s, k, j);
    CommittedAt(init, s, ps[j], k);
    var i := s.order[ps[j]].accs[k].ver;
    if i > 0 {
      NextVersion(init, s.order, k, s.cells[k], i);
    }
    SerialContent(init, s.order, k, s.cells[k].versions[i], j, iset q | q in ps[..j]);
  }

  /** No committed transaction still has to install row `k`. */
  ghost predicate Quiet(s: System, k: Key) {
    forall t :: t in s.trans && s.trans[t].phase.Committing? && k in s.trans[t].accs && s.trans[t].accs[k].write ==>
      k in s.trans[t].phase.installed
  }

  lemma CurrentIsVisible(init: Store, s: System, k: Key)
    requires Inv(init, s) && k in s.cells && Quiet(s, k)
    ensures s.cells[k].versions != []
    ensures var vs := s.cells[k].versions;
            VisibleAt(s.order, k, vs[|vs| - 1], iset q | q in SerialOrder(s.order, |s.order|)[..|s.order|])
  {
    hide TransOk, OrderOk;
    var ps, c := SerialOrder(s.order, |s.order|), s.cells[k];
    SerialOrderOk(s.order, |s.order|);
    assert ps[..|s.order|] == ps;
    assert CellOk(init, s.order, k, c);
    var n := |c.versions| - 1;
    if n > 0 {
      NextVersion(init, s.order, k, c, n);
    }
    forall q | 0 <= q < |s.order| && Writes(s.order, q, k)
      ensures (n > 0 && s.order[q].ts < c.versions[n].wts) || c.versions[n].writer == By(q)
    {
      CommittedAt(init, s, q, k);
      PlacedAt(init, s, s.order[q].tx);
      WriterInterval(init, s.order, k, c, n, q, true);
    }
  }

  lemma PlacedAt(init: Store, s: System, t: Tx)
    requires Inv(init, s) && t in s.trans
    ensures PlaceOk(s.order, t, s.trans[t])
  {
  }

  /** In every run, a row that no committed transaction is still about to install holds the value that
      serial execution in commit timestamp order leaves in it. */
  lemma RowsAreSerial(init: Store, run: seq<System>, k: Key)
    requires IsRun(init, run) && k in run[|run| - 1].cells && Quiet(run[|run| - 1], k)
    ensures var s := run[|run| - 1];
            var final := Replay(init, History(s.order)); k in final && final[k] == s.cells[k].row.value
  {
    hide Step, Init, VisibleAt, TransOk, OrderOk, Quiet;
    RunKeeps(init, run);
    var s := run[|run| - 1];
    CurrentIsVisible(init, s, k);
    var c := s.cells[k];
    assert CellOk(init, s.order, k, c);
    var n := |c.versions| - 1;
    if n > 0 {
      NextVersion(init, s.order, k, c, n);
    }
    var ps := SerialOrder(s.order, |s.order|);
    SerialContent(init, s.order, k, c.versions[n], |s.order|, iset q | q in ps[..|s.order|]);
    assert History(s.order)[..|s.order|] == History(s.order);
  }

  // ----- waiting for write locks ------------------------------------------------------------

  ghost predicate WaitsFor(s: System, a: Tx, b: Tx) {
    exists k :: k in s.cells && a in s.cells[k].row.waiting && s.cells[k].row.owner == HeldBy(b)
  }

  ghost predicate Deadlock(s: System, chain: seq<Tx>) {
    && |chain| >= 2 && chain[0] == chain[|chain| - 1]
    && forall i :: 0 < i < |chain| ==> WaitsFor(s, chain[i - 1], chain[i])
  }

  lemma {:induction false} ChainAscends(init: Store, s: System, chain: seq<Tx>)
    requires Inv(init, s) && |chain| >= 2
    requires forall i :: 0 < i < |chain| ==> WaitsFor(s, chain[i - 1], chain[i])
    ensures chain[0] < chain[|chain| - 1]
  {
    var n := |chain| - 1;
    assert WaitsFor(s, chain[n - 1], chain[n]);
    WaitsForLarger(init, s, chain[n - 1], chain[n]);
    if n > 1 {
      hide Inv, WaitsFor;
      ChainAscends(init, s, chain[..n]);
    }
  }

  lemma WaitsForLarger(init: Store, s: System, a: Tx, b: Tx)
    requires Inv(init, s) && WaitsFor(s, a, b)
    ensures a < b
  {
    var k :| k in s.cells && a in s.cells[k].row.waiting && s.cells[k].row.owner == HeldBy(b);
    assert CellOk(init, s.order, k, s.cells[k]);
  }

  /** Write locks never deadlock, even though a lock is handed over to a waiter while others wait. */
  lemma WritersNeverDeadlock(init: Store, run: seq<System>, chain: seq<Tx>)
    requires IsRun(init, run)
    ensures !Deadlock(run[|run| - 1], chain)
  {
    hide Inv, Step, Init, WaitsFor;
    RunKeeps(init, run);
    var s := run[|run| - 1];
    if |chain| >= 2 && forall i :: 0 < i < |chain| ==> WaitsFor(s, chain[i - 1], chain[i]) {
      ChainAscends(init, s, chain);
    }
  }
}

/** Silo (concurrency_control/silo.cpp, concurrency_control/row_silo.cpp, mutex variant) with any
    number of transactions interleaved at the granularity of single row operations: read a row,
    lock a row, check a read, install a row, release a row. */
module SiloRuns {
  import opened SerialHistory

  type Tx = nat
  type Tid = nat

  /** Which version a row or a copy holds: the initial one, or the one written by the transaction
      at a position of the lock-point order. Bookkeeping that no row stores. */
  datatype Writer = Initial | At(pos: nat)

  /** The mutex of a row. */
  datatype Holder = Free | HeldBy(tx: Tx)

  datatype Cell = Cell(val: Val, tid: Tid, writer: Writer, holder: Holder)

  /** What an access remembers of the row it copied. */
  datatype Copy = Copy(val: Val, tid: Tid, writer: Writer)

  datatype Phase = Running | Locking | Validating | Installing | Aborting

  /** A transaction: its copies, its local writes, the rows it has locked, the reads it has
      validated, its place in the lock-point order, and the tid it commits with. */
  datatype Tran = Tran(phase: Phase, copies: map<Key, Copy>, wrote: Store,
                       locked: set<Key>, checked: set<Key>, stamp: nat, tid: Tid)

  /** A place in the order: still open, given up, or taken by a committed transaction. */
  datatype Slot = Open(tx: Tx, wrote: Store) | GivenUp | Done(tx: Tx, copies: map<Key, Copy>, wrote: Store)

  /** `order` lists the transactions by the moment they held all their write locks. */
  datatype System = System(cells: map<Key, Cell>, trans: map<Tx, Tran>, order: seq<Slot>)

  ghost predicate Undecided(t: Tran) {
    t.phase in {Running, Locking, Validating}
  }

  // ----- steps ---------------------------------------------------------------------------

  ghost predicate Begin(s: System, s': System, x: Tx) {
    && x !in s.trans
    && s' == s.(trans := s.trans[x := Tran(Running, map[], map[], {}, {}, 0, 0)])
  }

  /** `Row_silo::access`: copies the row and its tid while nobody holds the mutex. */
  ghost predicate ReadRow(s: System, s': System, x: Tx, k: Key) {
    && x in s.trans && s.trans[x].phase == Running
    && k in s.cells && k !in s.trans[x].copies && s.cells[k].holder == Free
    && var c := s.cells[k];
       s' == s.(trans := s.trans[x := s.trans[x].(copies := s.trans[x].copies[k := Copy(c.val, c.tid, c.writer)])])
  }

  /** The transaction changes its copy of a row it accessed for writing. */
  ghost predicate WriteCopy(s: System, s': System, x: Tx, k: Key, v: Val) {
    && x in s.trans && s.trans[x].phase == Running && k in s.trans[x].copies
    && s' == s.(trans := s.trans[x := s.trans[x].(wrote := s.trans[x].wrote[k := v])])
  }

  ghost predicate StartLocking(s: System, s': System, x: Tx) {
    && x in s.trans && s.trans[x].phase == Running
    && s' == s.(trans := s.trans[x := s.trans[x].(phase := Locking)])
  }

  /** Locks one row of the write set; a changed tid sends the transaction to abort. */
  ghost predicate LockRow(s: System, s': System, x: Tx, k: Key) {
    && x in s.trans && s.trans[x].phase == Locking
    && k in s.trans[x].wrote && k !in s.trans[x].locked
    && k in s.cells && s.cells[k].holder == Free && k in s.trans[x].copies
    && var t := s.trans[x].(locked := s.trans[x].locked + {k});
       s' == s.(cells := s.cells[k := s.cells[k].(holder := HeldBy(x))],
                trans := s.trans[x := if s.cells[k].tid == t.copies[k].tid then t else t.(phase := Aborting)])
  }

  /** All write locks are held: the transaction takes its place in the order. */
  ghost predicate LockPoint(s: System, s': System, x: Tx) {
    && x in s.trans && s.trans[x].phase == Locking && s.trans[x].locked == s.trans[x].wrote.Keys
    && s' == s.(trans := s.trans[x := s.trans[x].(phase := Validating, stamp := |s.order|)],
                order := s.order + [Open(x, s.trans[x].wrote)])
  }

  /** `Row_silo::validate` on a row that was only read. */
  ghost predicate CheckRow(s: System, s': System, x: Tx, k: Key) {
    && x in s.trans && s.trans[x].phase == Validating
    && k in s.trans[x].copies && k !in s.trans[x].wrote && k in s.cells
    && s.cells[k].holder == Free && s.cells[k].tid == s.trans[x].copies[k].tid
    && s' == s.(trans := s.trans[x := s.trans[x].(checked := s.trans[x].checked + {k})])
  }

  /** Validation succeeded; `tid` becomes the commit timestamp. */
  ghost predicate Commit(s: System, s': System, x: Tx, tid: Tid) {
    && x in s.trans && s.trans[x].phase == Validating && s.trans[x].stamp < |s.order|
    && s.trans[x].checked == s.trans[x].copies.Keys - s.trans[x].wrote.Keys
    && var t := s.trans[x];
       s' == s.(trans := s.trans[x := t.(phase := Installing, tid := tid)],
                order := s.order[t.stamp := Done(x, t.copies, t.wrote)])
  }

  /** `finish` on commit: writes one row and its tid, then releases it. */
  ghost predicate InstallRow(s: System, s': System, x: Tx, k: Key) {
    && x in s.trans && s.trans[x].phase == Installing
    && k in s.trans[x].locked && k in s.trans[x].wrote && k in s.cells
    && var t := s.trans[x];
       s' == s.(cells := s.cells[k := Cell(t.wrote[k], t.tid, At(t.stamp), Free)],
                trans := s.trans[x := t.(locked := t.locked - {k})])
  }

  /** Any check that fails, or a mutex that is taken, makes an undecided transaction give up. */
  ghost predicate Abort(s: System, s': System, x: Tx) {
    && x in s.trans && Undecided(s.trans[x])
    && (s.trans[x].phase == Validating ==> s.trans[x].stamp < |s.order|)
    && s' == s.(trans := s.trans[x := s.trans[x].(phase := Aborting)],
                order := if s.trans[x].phase == Validating then s.order[s.trans[x].stamp := GivenUp] else s.order)
  }

  /** `finish` on abort: releases one row. */
  ghost predicate ReleaseRow(s: System, s': System, x: Tx, k: Key) {
    && x in s.trans && s.trans[x].phase == Aborting
    && k in s.trans[x].locked && k in s.cells
    && s' == s.(cells := s.cells[k := s.cells[k].(holder := Free)],
                trans := s.trans[x := s.trans[x].(locked := s.trans[x].locked - {k})])
  }

  /** No transaction still to be validated remembers this tid for a row about to be installed. */
  ghost predicate FreshTid(s: System, x: Tx, tid: Tid) {
    && x in s.trans
    && forall y, k ::
         y in s.trans && y != x && Undecided(s.trans[y]) && k in s.trans[y].copies && k in s.trans[x].wrote ==>
           s.trans[y].copies[k].tid != tid
  }

  ghost predicate Step(s: System, s': System) {
    || (exists x :: Begin(s, s', x) || StartLocking(s, s', x) || LockPoint(s, s', x) || Abort(s, s', x))
    || (exists x, k :: ReadRow(s, s', x, k) || LockRow(s, s', x, k) || CheckRow(s, s', x, k)
                       || InstallRow(s, s', x, k) || ReleaseRow(s, s', x, k))
    || (exists x, k, v :: WriteCopy(s, s', x, k, v))
    || (exists x, tid :: Commit(s, s', x, tid) && FreshTid(s, x, tid))
  }

  ghost predicate Init(init: Store, s: System) {
    && s.cells.Keys == init.Keys && s.trans == map[] && s.order == []
    && forall k :: k in init ==> s.cells[k] == Cell(init[k], 0, Initial, Free)
  }

  ghost predicate IsRun(init: Store, run: seq<System>) {
    && run != [] && Init(init, run[0])
    && forall i :: 0 < i < |run| ==> Step(run[i - 1], run[i])
  }

  // ----- invariant: the order -------------------------------------------------------------

  /** The value is what `w` left in row `k`. */
  ghost predicate Source(init: Store, order: seq<Slot>, k: Key, w: Writer, v: Val) {
    && k in init
    && match w
       case Initial => v == init[k]
       case At(i) => i < |order| && order[i].Done? && k in order[i].wrote && v == order[i].wrote[k]
  }

  ghost predicate Wrote(order: seq<Slot>, i: nat, k: Key) {
    i < |order| && order[i].Done? && k in order[i].wrote
  }

  /** `w` is the last committed writer of `k` below position `n`, and no transaction placed
      below `n` can still commit a write to `k`. */
  ghost predicate LastBefore(order: seq<Slot>, k: Key, n: nat, w: Writer) {
    && (w.At? ==> w.pos < n)
    && (forall i: nat :: i < n && Wrote(order, i, k) ==> w.At? && i <= w.pos)
    && (forall i: nat :: i < n && i < |order| && order[i].Open? ==> k !in order[i].wrote)
  }

  ghost predicate SlotOk(init: Store, order: seq<Slot>, i: nat)
    requires i < |order|
  {
    order[i].Done? ==>
      && order[i].wrote.Keys <= order[i].copies.Keys
      && forall k :: k in order[i].copies ==>
           && Source(init, order, k, order[i].copies[k].writer, order[i].copies[k].val)
           && LastBefore(order, k, i, order[i].copies[k].writer)
  }

  ghost predicate OrderOk(init: Store, order: seq<Slot>) {
    forall i: nat :: i < |order| ==> SlotOk(init, order, i)
  }

  /** Every open or committed place belongs to the transaction that took it. */
  ghost predicate OwnersOk(s: System) {
    forall i: nat :: i < |s.order| && !s.order[i].GivenUp? ==>
      && s.order[i].tx in s.trans && s.trans[s.order[i].tx].stamp == i
      && s.trans[s.order[i].tx].phase == if s.order[i].Open? then Validating else Installing
  }

  // ----- invariant: transactions ---------------------------------------------------------

  ghost predicate ShapeOk(t: Tran, keys: set<Key>) {
    && t.locked <= t.wrote.Keys <= t.copies.Keys <= keys
    && (t.phase == Running ==> t.locked == {})
    && (t.phase == Validating ==> t.locked == t.wrote.Keys)
    && t.checked <= t.copies.Keys - t.wrote.Keys
    && (t.phase in {Running, Locking} ==> t.checked == {})
  }

  ghost predicate PlaceOk(order: seq<Slot>, x: Tx, t: Tran) {
    && (t.phase == Validating ==> t.stamp < |order| && order[t.stamp] == Open(x, t.wrote))
    && (t.phase == Installing ==> t.stamp < |order| && order[t.stamp] == Done(x, t.copies, t.wrote))
  }

  /** A copy is a committed version; once settled, it is the last one below the transaction. */
  ghost predicate CopiesOk(init: Store, order: seq<Slot>, t: Tran) {
    forall k :: k in t.copies ==>
      && Source(init, order, k, t.copies[k].writer, t.copies[k].val)
      && (t.phase == Validating && t.copies[k].writer.At? ==> t.copies[k].writer.pos < t.stamp)
      && (t.phase == Validating && (k in t.checked || k in t.wrote) ==>
            LastBefore(order, k, t.stamp, t.copies[k].writer))
  }

  /** The tid tells an undecided transaction whether its copy is still the current version. */
  ghost predicate TidTells(c: Cell, copy: Copy, locked: bool) {
    && (c.tid == copy.tid ==> c.writer == copy.writer)
    && (locked ==> c.tid == copy.tid)
  }

  ghost predicate TidsTell(cells: map<Key, Cell>, t: Tran) {
    Undecided(t) ==> forall k :: k in t.copies && k in cells ==> TidTells(cells[k], t.copies[k], k in t.locked)
  }

  ghost predicate TranOk(init: Store, cells: map<Key, Cell>, order: seq<Slot>, x: Tx, t: Tran) {
    && ShapeOk(t, cells.Keys)
    && PlaceOk(order, x, t)
    && CopiesOk(init, order, t)
    && TidsTell(cells, t)
  }

  ghost predicate Installs(t: Tran, k: Key) {
    t.phase == Installing && k in t.locked
  }

  /** A tid about to be installed is not remembered by anyone still to be validated. */
  ghost predicate PendingTidsOk(s: System) {
    forall x, y, k ::
      x in s.trans && Undecided(s.trans[x]) && k in s.trans[x].copies && y in s.trans && Installs(s.trans[y], k) ==>
        s.trans[y].tid != s.trans[x].copies[k].tid
  }

  // ----- invariant: rows -----------------------------------------------------------------

  ghost predicate LocksOk(s: System) {
    forall k, x :: k in s.cells ==>
      (s.cells[k].holder == HeldBy(x) <==> x in s.trans && k in s.trans[x].locked)
  }

  /** The row holds its last installed version; the only committed version still missing is its
      lock holder's, which comes later in the order. */
  ghost predicate CellOk(init: Store, order: seq<Slot>, k: Key, c: Cell) {
    && Source(init, order, k, c.writer, c.val)
    && forall i: nat :: Wrote(order, i, k) ==>
         if c.holder == HeldBy(order[i].tx) then c.writer.At? ==> c.writer.pos < i
         else c.writer.At? && i <= c.writer.pos
  }

  ghost predicate Inv(init: Store, s: System) {
    && s.cells.Keys == init.Keys
    && OrderOk(init, s.order)
    && OwnersOk(s)
    && (forall x :: x in s.trans ==> TranOk(init, s.cells, s.order, x, s.trans[x]))
    && PendingTidsOk(s)
    && LocksOk(s)
    && (forall k :: k in s.cells ==> CellOk(init, s.order, k, s.cells[k]))
  }

  // ----- how the order may change ---------------------------------------------------------

  /** Places are appended, and open ones are committed as announced or given up. */
  ghost predicate Moves(order: seq<Slot>, order': seq<Slot>) {
    && |order| <= |order'|
    && forall i: nat :: i < |order| ==>
         || order'[i] == order[i]
         || (order[i].Open? && (order'[i].GivenUp? || (order'[i].Done? && order'[i].wrote == order[i].wrote)))
  }

  /** A settled read stays settled: nobody placed below it could still write its row. */
  lemma MovesKeepLastBefore(order: seq<Slot>, order': seq<Slot>, k: Key, n: nat, w: Writer)
    requires Moves(order, order') && n <= |order| && LastBefore(order, k, n, w)
    ensures LastBefore(order', k, n, w)
  {
    forall i: nat | i < n && Wrote(order', i, k)
      ensures w.At? && i <= w.pos
    {
      assert Wrote(order, i, k);
    }
  }

  lemma MovesKeepSlot(init: Store, order: seq<Slot>, order': seq<Slot>, i: nat)
    requires Moves(order, order') && i < |order| && order'[i] == order[i] && SlotOk(init, order, i)
    ensures SlotOk(init, order', i)
  {
    if order[i].Done? {
      forall k | k in order[i].copies
        ensures LastBefore(order', k, i, order[i].copies[k].writer)
      {
        MovesKeepLastBefore(order, order', k, i, order[i].copies[k].writer);
      }
    }
  }

  lemma MovesKeepCopies(init: Store, order: seq<Slot>, order': seq<Slot>, t: Tran)
    requires Moves(order, order') && CopiesOk(init, order, t)
    requires t.phase == Validating ==> t.stamp <= |order|
    ensures CopiesOk(init, order', t)
  {
    forall k | k in t.copies && t.phase == Validating && (k in t.checked || k in t.wrote)
      ensures LastBefore(order', k, t.stamp, t.copies[k].writer)
    {
      MovesKeepLastBefore(order, order', k, t.stamp, t.copies[k].writer);
    }
  }

  lemma MovesKeepTran(init: Store, cells: map<Key, Cell>, order: seq<Slot>, order': seq<Slot>, x: Tx, t: Tran)
    requires Moves(order, order') && TranOk(init, cells, order, x, t) && PlaceOk(order', x, t)
    ensures TranOk(init, cells, order', x, t)
  {
    hide ShapeOk, TidsTell, CopiesOk;
    MovesKeepCopies(init, order, order', t);
  }

  lemma MovesKeepCell(init: Store, order: seq<Slot>, order': seq<Slot>, k: Key, c: Cell)
    requires Moves(order, order') && CellOk(init, order, k, c)
    requires forall i: nat :: Wrote(order', i, k) ==>
               || Wrote(order, i, k)
               || (c.holder == HeldBy(order'[i].tx) && (c.writer.At? ==> c.writer.pos < i))
    ensures CellOk(init, order', k, c)
  {
    forall i: nat | Wrote(order', i, k)
      ensures if c.holder == HeldBy(order'[i].tx) then c.writer.At? ==> c.writer.pos < i
              else c.writer.At? && i <= c.writer.pos
    {
      if Wrote(order, i, k) {
        assert order'[i] == order[i];
      }
    }
  }

  // ----- what the locks imply -------------------------------------------------------------

  /** When the row is free, or held by a transaction still locking, its version is the last
      committed one and nobody placed in the order can still write it. */
  lemma CurrentIsLast(init: Store, s: System, k: Key, n: nat)
    requires Inv(init, s) && k in s.cells && n <= |s.order|
    requires s.cells[k].holder.HeldBy? ==>
               s.cells[k].holder.tx in s.trans && s.trans[s.cells[k].holder.tx].phase == Locking
    requires s.cells[k].writer.At? ==> s.cells[k].writer.pos < n
    ensures LastBefore(s.order, k, n, s.cells[k].writer)
  {
    hide OrderOk;
    forall i: nat | i < |s.order| && s.order[i].Open?
      ensures k !in s.order[i].wrote
    {
      var y := s.order[i].tx;
      assert TranOk(init, s.cells, s.order, y, s.trans[y]);
    }
    assert CellOk(init, s.order, k, s.cells[k]);
  }

  // ----- transactions, one step at a time ---------------------------------------------------

  lemma ReadRowKeepsTran(init: Store, s: System, s': System, x: Tx, k: Key)
    requires Inv(init, s) && ReadRow(s, s', x, k)
    ensures TranOk(init, s'.cells, s'.order, x, s'.trans[x])
  {
    hide OrderOk, LocksOk, OwnersOk, PendingTidsOk;
    assert TranOk(init, s.cells, s.order, x, s.trans[x]);
    assert CellOk(init, s.order, k, s.cells[k]);
  }

  lemma WriteCopyKeepsTran(init: Store, cells: map<Key, Cell>, order: seq<Slot>, x: Tx, t: Tran, k: Key, v: Val)
    requires TranOk(init, cells, order, x, t) && t.phase == Running && k in t.copies
    ensures TranOk(init, cells, order, x, t.(wrote := t.wrote[k := v]))
  {
  }

  lemma StartLockingKeepsTran(init: Store, cells: map<Key, Cell>, order: seq<Slot>, x: Tx, t: Tran)
    requires TranOk(init, cells, order, x, t) && t.phase == Running
    ensures TranOk(init, cells, order, x, t.(phase := Locking))
  {
  }

  /** Only the tid and the version of a row matter to a transaction, not who holds the row. */
  lemma HolderChangeKeepsTran(init: Store, cells: map<Key, Cell>, k: Key, h: Holder, order: seq<Slot>, x: Tx, t: Tran)
    requires TranOk(init, cells, order, x, t) && k in cells
    ensures TranOk(init, cells[k := cells[k].(holder := h)], order, x, t)
  {
    assert cells[k := cells[k].(holder := h)].Keys == cells.Keys;
  }

  lemma LockRowKeepsTran(init: Store, cells: map<Key, Cell>, order: seq<Slot>, x: Tx, t: Tran, k: Key)
    requires TranOk(init, cells, order, x, t) && t.phase == Locking && k in t.wrote && k in cells && k in t.copies
    ensures var t' := t.(locked := t.locked + {k});
            TranOk(init, cells, order, x, if cells[k].tid == t.copies[k].tid then t' else t'.(phase := Aborting))
  {
  }

  lemma LockPointKeepsSelf(init: Store, s: System, s': System, x: Tx)
    requires Inv(init, s) && LockPoint(s, s', x)
    ensures TranOk(init, s'.cells, s'.order, x, s'.trans[x])
  {
    var t := s.trans[x];
    hide OrderOk, OwnersOk, PendingTidsOk;
    assert TranOk(init, s.cells, s.order, x, t);
    assert Moves(s.order, s'.order);
    MovesKeepCopies(init, s.order, s'.order, t);
    forall k | k in t.wrote
      ensures LastBefore(s'.order, k, |s.order|, t.copies[k].writer)
    {
      assert CellOk(init, s.order, k, s.cells[k]);
      CurrentIsLast(init, s, k, |s.order|);
      MovesKeepLastBefore(s.order, s'.order, k, |s.order|, t.copies[k].writer);
    }
  }

  lemma CheckRowKeepsTran(init: Store, s: System, s': System, x: Tx, k: Key)
    requires Inv(init, s) && CheckRow(s, s', x, k)
    ensures TranOk(init, s'.cells, s'.order, x, s'.trans[x])
  {
    hide OrderOk, LocksOk, OwnersOk, PendingTidsOk, CellOk;
    assert TranOk(init, s.cells, s.order, x, s.trans[x]);
    CurrentIsLast(init, s, k, s.trans[x].stamp);
  }

  lemma CommitKeepsOrder(init: Store, s: System, s': System, x: Tx, tid: Tid)
    requires Inv(init, s) && Commit(s, s', x, tid)
    ensures OrderOk(init, s'.order) && Moves(s.order, s'.order)
  {
    hide LocksOk, OwnersOk, PendingTidsOk, CellOk;
    var t := s.trans[x];
    assert TranOk(init, s.cells, s.order, x, t);
    MovesKeepCopies(init, s.order, s'.order, t);
    forall i: nat | i < |s'.order|
      ensures SlotOk(init, s'.order, i)
    {
      if i != t.stamp {
        MovesKeepSlot(init, s.order, s'.order, i);
      }
    }
  }

  lemma CommitKeepsTran(init: Store, s: System, s': System, x: Tx, tid: Tid, y: Tx)
    requires Inv(init, s) && Commit(s, s', x, tid) && Moves(s.order, s'.order) && y in s.trans
    ensures TranOk(init, s'.cells, s'.order, y, s'.trans[y])
  {
    hide OrderOk, LocksOk, OwnersOk, PendingTidsOk, CellOk, Moves;
    assert TranOk(init, s.cells, s.order, x, s.trans[x]);
    if y == x {
      MovesKeepCopies(init, s.order, s'.order, s.trans[x]);
    } else {
      assert TranOk(init, s.cells, s.order, y, s.trans[y]);
      MovesKeepTran(init, s.cells, s.order, s'.order, y, s.trans[y]);
    }
  }

  lemma CommitKeepsCell(init: Store, s: System, s': System, x: Tx, tid: Tid, k: Key)
    requires Inv(init, s) && Commit(s, s', x, tid) && Moves(s.order, s'.order) && k in s.cells
    ensures CellOk(init, s'.order, k, s'.cells[k])
  {
    hide OrderOk, OwnersOk, PendingTidsOk, Moves;
    var p := s.trans[x].stamp;
    assert TranOk(init, s.cells, s.order, x, s.trans[x]);
    assert CellOk(init, s.order, k, s.cells[k]);
    forall i: nat | Wrote(s'.order, i, k) && !Wrote(s.order, i, k)
      ensures i == p && s.cells[k].holder == HeldBy(x) && (s.cells[k].writer.At? ==> s.cells[k].writer.pos < p)
    {
      assert k in s.trans[x].locked;
    }
    MovesKeepCell(init, s.order, s'.order, k, s.cells[k]);
  }

  lemma InstallRowKeepsTran(init: Store, s: System, s': System, x: Tx, k: Key, y: Tx)
    requires Inv(init, s) && InstallRow(s, s', x, k) && y in s.trans
    ensures TranOk(init, s'.cells, s'.order, y, s'.trans[y])
  {
    hide OrderOk, OwnersOk, CellOk;
    assert TranOk(init, s.cells, s.order, y, s.trans[y]);
    assert s'.cells.Keys == s.cells.Keys;
    assert s.cells[k].holder == HeldBy(x);
    assert Installs(s.trans[x], k);
  }

  lemma InstallRowKeepsCell(init: Store, s: System, s': System, x: Tx, k: Key)
    requires Inv(init, s) && InstallRow(s, s', x, k)
    ensures CellOk(init, s'.order, k, s'.cells[k])
  {
    hide OrderOk, PendingTidsOk;
    assert TranOk(init, s.cells, s.order, x, s.trans[x]);
    assert CellOk(init, s.order, k, s.cells[k]);
    assert s.cells[k].holder == HeldBy(x);
    assert Wrote(s.order, s.trans[x].stamp, k);
  }

  lemma AbortKeepsOrder(init: Store, s: System, s': System, x: Tx)
    requires Inv(init, s) && Abort(s, s', x)
    ensures OrderOk(init, s'.order) && Moves(s.order, s'.order)
  {
    hide LocksOk, OwnersOk, PendingTidsOk, CellOk;
    assert TranOk(init, s.cells, s.order, x, s.trans[x]);
    forall i: nat | i < |s'.order|
      ensures SlotOk(init, s'.order, i)
    {
      if s'.order[i] == s.order[i] {
        MovesKeepSlot(init, s.order, s'.order, i);
      }
    }
  }

  lemma AbortKeepsTran(init: Store, s: System, s': System, x: Tx, y: Tx)
    requires Inv(init, s) && Abort(s, s', x) && Moves(s.order, s'.order) && y in s.trans
    ensures TranOk(init, s'.cells, s'.order, y, s'.trans[y])
  {
    hide OrderOk, LocksOk, OwnersOk, PendingTidsOk, CellOk, Moves;
    assert TranOk(init, s.cells, s.order, x, s.trans[x]);
    assert TranOk(init, s.cells, s.order, y, s.trans[y]);
    if y == x {
      MovesKeepCopies(init, s.order, s'.order, s.trans[x]);
    } else {
      MovesKeepTran(init, s.cells, s.order, s'.order, y, s.trans[y]);
    }
  }

  // ----- each step keeps the invariant ------------------------------------------------------

  lemma BeginKeeps(init: Store, s: System, s': System, x: Tx)
    requires Inv(init, s) && Begin(s, s', x)
    ensures Inv(init, s')
  {
    hide OrderOk, CellOk, TranOk;
    NewTranOk(init, s.cells, s.order, x);
  }

  lemma NewTranOk(init: Store, cells: map<Key, Cell>, order: seq<Slot>, x: Tx)
    ensures TranOk(init, cells, order, x, Tran(Running, map[], map[], {}, {}, 0, 0))
  {
  }

  lemma ReadRowKeeps(init: Store, s: System, s': System, x: Tx, k: Key)
    requires Inv(init, s) && ReadRow(s, s', x, k)
    ensures Inv(init, s')
  {
    hide OrderOk, CellOk, TranOk;
    ReadRowKeepsTran(init, s, s', x, k);
  }

  lemma WriteCopyKeeps(init: Store, s: System, s': System, x: Tx, k: Key, v: Val)
    requires Inv(init, s) && WriteCopy(s, s', x, k, v)
    ensures Inv(init, s')
  {
    hide OrderOk, CellOk, TranOk;
    WriteCopyKeepsTran(init, s.cells, s.order, x, s.trans[x], k, v);
  }

  lemma StartLockingKeeps(init: Store, s: System, s': System, x: Tx)
    requires Inv(init, s) && StartLocking(s, s', x)
    ensures Inv(init, s')
  {
    hide OrderOk, CellOk, TranOk;
    StartLockingKeepsTran(init, s.cells, s.order, x, s.trans[x]);
  }

  /** Taking or releasing a row nobody committed is waiting to install leaves its content in order. */
  lemma HolderChangeKeepsCell(init: Store, s: System, k: Key, h: Holder)
    requires Inv(init, s) && k in s.cells
    requires s.cells[k].holder.HeldBy? ==>
               s.cells[k].holder.tx in s.trans && s.trans[s.cells[k].holder.tx].phase != Installing
    requires h.HeldBy? ==> h.tx in s.trans && s.trans[h.tx].phase != Installing
    ensures CellOk(init, s.order, k, s.cells[k].(holder := h))
  {
    hide OrderOk, TranOk, LocksOk, PendingTidsOk;
    assert CellOk(init, s.order, k, s.cells[k]);
  }

  lemma LockRowKeeps(init: Store, s: System, s': System, x: Tx, k: Key)
    requires Inv(init, s) && LockRow(s, s', x, k)
    ensures Inv(init, s')
  {
    hide OrderOk, CellOk, TranOk, LocksOk, PendingTidsOk, OwnersOk;
    LockRowKeepsLocks(s, s', x, k);
    HolderChangeKeepsCell(init, s, k, HeldBy(x));
    LockRowKeepsTran(init, s.cells, s.order, x, s.trans[x], k);
    forall y | y in s'.trans
      ensures TranOk(init, s'.cells, s'.order, y, s'.trans[y])
    {
      HolderChangeKeepsTran(init, s.cells, k, HeldBy(x), s.order, y, s'.trans[y]);
    }
  }

  lemma LockRowKeepsLocks(s: System, s': System, x: Tx, k: Key)
    requires LocksOk(s) && PendingTidsOk(s) && OwnersOk(s) && LockRow(s, s', x, k)
    ensures LocksOk(s') && PendingTidsOk(s') && OwnersOk(s')
  {
  }

  lemma LockPointKeeps(init: Store, s: System, s': System, x: Tx)
    requires Inv(init, s) && LockPoint(s, s', x)
    ensures Inv(init, s')
  {
    hide CellOk, TranOk, SlotOk, PendingTidsOk, LocksOk;
    assert Moves(s.order, s'.order);
    forall i: nat | i < |s.order|
      ensures SlotOk(init, s'.order, i)
    {
      MovesKeepSlot(init, s.order, s'.order, i);
    }
    OpenSlotOk(init, s'.order, |s.order|);
    forall y | y in s'.trans
      ensures TranOk(init, s'.cells, s'.order, y, s'.trans[y])
    {
      if y != x {
        StillPlaced(init, s.cells, s.order, s'.order, y, s.trans[y]);
        MovesKeepTran(init, s.cells, s.order, s'.order, y, s.trans[y]);
      } else {
        LockPointKeepsSelf(init, s, s', x);
      }
    }
    forall k | k in s'.cells
      ensures CellOk(init, s'.order, k, s'.cells[k])
    {
      MovesKeepCell(init, s.order, s'.order, k, s.cells[k]);
    }
    LockPointKeepsLocks(s, s', x);
  }

  lemma OpenSlotOk(init: Store, order: seq<Slot>, i: nat)
    requires i < |order| && order[i].Open?
    ensures SlotOk(init, order, i)
  {
  }

  lemma StillPlaced(init: Store, cells: map<Key, Cell>, order: seq<Slot>, order': seq<Slot>, x: Tx, t: Tran)
    requires TranOk(init, cells, order, x, t) && order <= order'
    ensures PlaceOk(order', x, t)
  {
  }

  lemma LockPointKeepsLocks(s: System, s': System, x: Tx)
    requires LocksOk(s) && PendingTidsOk(s) && LockPoint(s, s', x)
    ensures LocksOk(s') && PendingTidsOk(s')
  {
  }

  lemma CheckRowKeeps(init: Store, s: System, s': System, x: Tx, k: Key)
    requires Inv(init, s) && CheckRow(s, s', x, k)
    ensures Inv(init, s')
  {
    hide OrderOk, CellOk, TranOk;
    CheckRowKeepsTran(init, s, s', x, k);
  }

  lemma CommitKeeps(init: Store, s: System, s': System, x: Tx, tid: Tid)
    requires Inv(init, s) && Commit(s, s', x, tid) && FreshTid(s, x, tid)
    ensures Inv(init, s')
  {
    hide OrderOk, CellOk, TranOk, LocksOk, PendingTidsOk, OwnersOk;
    CommitKeepsLocks(init, s, s', x, tid);
    CommitKeepsOrder(init, s, s', x, tid);
    forall y | y in s'.trans
      ensures TranOk(init, s'.cells, s'.order, y, s'.trans[y])
    {
      CommitKeepsTran(init, s, s', x, tid, y);
    }
    forall k | k in s'.cells
      ensures CellOk(init, s'.order, k, s'.cells[k])
    {
      CommitKeepsCell(init, s, s', x, tid, k);
    }
  }

  lemma CommitKeepsLocks(init: Store, s: System, s': System, x: Tx, tid: Tid)
    requires Inv(init, s) && Commit(s, s', x, tid) && FreshTid(s, x, tid)
    ensures LocksOk(s') && PendingTidsOk(s') && OwnersOk(s')
  {
    hide OrderOk, CellOk;
    assert TranOk(init, s.cells, s.order, x, s.trans[x]);
  }

  lemma InstallRowKeeps(init: Store, s: System, s': System, x: Tx, k: Key)
    requires Inv(init, s) && InstallRow(s, s', x, k)
    ensures Inv(init, s')
  {
    hide OrderOk, CellOk, TranOk;
    InstallRowKeepsCell(init, s, s', x, k);
    forall y | y in s'.trans
      ensures TranOk(init, s'.cells, s'.order, y, s'.trans[y])
    {
      InstallRowKeepsTran(init, s, s', x, k, y);
    }
  }

  lemma AbortKeepsLocks(init: Store, s: System, s': System, x: Tx)
    requires Inv(init, s) && Abort(s, s', x)
    ensures LocksOk(s') && PendingTidsOk(s') && OwnersOk(s')
  {
    hide OrderOk, CellOk;
    assert TranOk(init, s.cells, s.order, x, s.trans[x]);
  }

  lemma AbortKeeps(init: Store, s: System, s': System, x: Tx)
    requires Inv(init, s) && Abort(s, s', x)
    ensures Inv(init, s')
  {
    hide OrderOk, CellOk, TranOk, LocksOk, PendingTidsOk, OwnersOk;
    AbortKeepsLocks(init, s, s', x);
    AbortKeepsOrder(init, s, s', x);
    forall y | y in s'.trans
      ensures TranOk(init, s'.cells, s'.order, y, s'.trans[y])
    {
      AbortKeepsTran(init, s, s', x, y);
    }
    forall k | k in s'.cells
      ensures CellOk(init, s'.order, k, s'.cells[k])
    {
      MovesKeepCell(init, s.order, s'.order, k, s.cells[k]);
    }
  }

  lemma ReleaseRowKeepsTran(init: Store, cells: map<Key, Cell>, order: seq<Slot>, x: Tx, t: Tran, k: Key)
    requires TranOk(init, cells, order, x, t) && t.phase == Aborting
    ensures TranOk(init, cells, order, x, t.(locked := t.locked - {k}))
  {
  }

  lemma ReleaseRowKeeps(init: Store, s: System, s': System, x: Tx, k: Key)
    requires Inv(init, s) && ReleaseRow(s, s', x, k)
    ensures Inv(init, s')
  {
    hide OrderOk, CellOk, TranOk;
    HolderChangeKeepsCell(init, s, k, Free);
    ReleaseRowKeepsTran(init, s.cells, s.order, x, s.trans[x], k);
    forall y | y in s'.trans
      ensures TranOk(init, s'.cells, s'.order, y, s'.trans[y])
    {
      HolderChangeKeepsTran(init, s.cells, k, Free, s.order, y, s'.trans[y]);
    }
  }

  // ----- whole runs ----------------------------------------------------------------------

  lemma StepKeeps(init: Store, s: System, s': System)
    requires Inv(init, s) && Step(s, s')
    ensures Inv(init, s')
  {
    hide Inv, Begin, StartLocking, LockPoint, Abort, ReadRow, LockRow, CheckRow, InstallRow, ReleaseRow, WriteCopy,
         Commit;
    if x, tid :| Commit(s, s', x, tid) && FreshTid(s, x, tid) {
      CommitKeeps(init, s, s', x, tid);
    } else if x, k, v :| WriteCopy(s, s', x, k, v) {
      WriteCopyKeeps(init, s, s', x, k, v);
    } else if x :| Begin(s, s', x) {
      BeginKeeps(init, s, s', x);
    } else if x :| StartLocking(s, s', x) {
      StartLockingKeeps(init, s, s', x);
    } else if x :| LockPoint(s, s', x) {
      LockPointKeeps(init, s, s', x);
    } else if x :| Abort(s, s', x) {
      AbortKeeps(init, s, s', x);
    } else if x, k :| ReadRow(s, s', x, k) {
      ReadRowKeeps(init, s, s', x, k);
    } else if x, k :| LockRow(s, s', x, k) {
      LockRowKeeps(init, s, s', x, k);
    } else if x, k :| CheckRow(s, s', x, k) {
      CheckRowKeeps(init, s, s', x, k);
    } else if x, k :| InstallRow(s, s', x, k) {
      InstallRowKeeps(init, s, s', x, k);
    } else {
      var x, k :| ReleaseRow(s, s', x, k);
      ReleaseRowKeeps(init, s, s', x, k);
    }
  }

  lemma {:induction false} RunKeeps(init: Store, run: seq<System>)
    requires IsRun(init, run)
    ensures Inv(init, run[|run| - 1])
  {
    hide Step;
    if |run| > 1 {
      RunKeeps(init, run[..|run| - 1]);
      StepKeeps(init, run[|run| - 2], run[|run| - 1]);
    }
  }

  /** The committed transactions in lock-point order; other places count as doing nothing. */
  ghost function History(order: seq<Slot>): (h: seq<Txn>)
    ensures |h| == |order|
    ensures forall i: nat :: i < |h| ==> h[i] == SlotTxn(order[i])
  {
    seq(|order|, i requires 0 <= i < |order| => SlotTxn(order[i]))
  }

  ghost function SlotTxn(p: Slot): Txn {
    if p.Done? then Txn(map k | k in p.copies :: p.copies[k].val, p.wrote) else Txn(map[], map[])
  }

  /** What the last writer below a position left is what serial execution up to it leaves. */
  lemma SerialContent(init: Store, order: seq<Slot>, k: Key, n: nat, w: Writer, v: Val)
    requires n <= |order| && Source(init, order, k, w, v)
    requires w.At? ==> w.pos < n
    requires forall i: nat :: i < n && Wrote(order, i, k) ==> w.At? && i <= w.pos
    requires k in init
    ensures var final := Replay(init, History(order)[..n]); k in final && final[k] == v
  {
    var h := History(order)[..n];
    assert forall i: nat :: i < n ==> (k in h[i].wrote <==> Wrote(order, i, k));
    if w.Initial? {
      ReplayUntouched(init, h, k);
    } else {
      ReplayLastWriter(init, h, k, w.pos);
    }
  }

  /** In every run, however the single-row steps of the transactions interleave, each committed
      transaction saw exactly what a serial execution of the committed transactions, ordered by
      the moment each held all its write locks, would have shown it. */
  lemma CommittedAreSerial(init: Store, run: seq<System>)
    requires IsRun(init, run)
    ensures IsSerial(init, History(run[|run| - 1].order))
  {
    RunKeeps(init, run);
    var order := run[|run| - 1].order;
    var h := History(order);
    forall i, k | 0 <= i < |h| && k in h[i].seen
      ensures k in Replay(init, h[..i]) && Replay(init, h[..i])[k] == h[i].seen[k]
    {
      assert SlotOk(init, order, i);
      SerialContent(init, order, k, i, order[i].copies[k].writer, order[i].copies[k].val);
    }
  }

  lemma QuietRow(init: Store, s: System, k: Key)
    requires Inv(init, s) && k in init
    requires forall x :: x in s.trans ==> !Installs(s.trans[x], k)
    ensures var final := Replay(init, History(s.order)); k in final && final[k] == s.cells[k].val
  {
    hide OrderOk, TranOk, PendingTidsOk;
    assert CellOk(init, s.order, k, s.cells[k]);
    assert History(s.order)[..|s.order|] == History(s.order);
    SerialContent(init, s.order, k, |s.order|, s.cells[k].writer, s.cells[k].val);
  }

  /** In every run, a row that no committed transaction is still about to write holds the value
      that the same serial execution leaves in it. */
  lemma RowsAreSerial(init: Store, run: seq<System>, k: Key)
    requires IsRun(init, run) && k in init
    requires var s := run[|run| - 1]; forall x :: x in s.trans ==> !Installs(s.trans[x], k)
    ensures var s := run[|run| - 1];
            var final := Replay(init, History(s.order));
            k in s.cells && k in final && final[k] == s.cells[k].val
  {
    hide Step, OrderOk, TranOk, CellOk, PendingTidsOk;
    RunKeeps(init, run);
    QuietRow(init, run[|run| - 1], k);
  }
}

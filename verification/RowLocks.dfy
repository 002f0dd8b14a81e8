/** The lock table entry of a row (concurrency_control/row_lock.cpp) in its WAIT_DIE and CALVIN
    modes, and what all rows together keep in every run: no deadlock, no stranded waiter, and
    under CALVIN locks granted in the order they were asked for.
    Timestamps are distinct, so a transaction is named by its timestamp. */
module RowLocks {
  import opened SerialHistory

  datatype Mode = WaitDie | Calvin
  datatype Rc = RcOk | Wait | Abort
  datatype LockType = LockNone | LockSh | LockEx

  datatype Entry = Entry(txn: Ts, kind: LockType)

  /** `kind` is lock_type; owners most recent first, waiters head first. */
  datatype Lock = Lock(kind: LockType, owners: seq<Entry>, waiters: seq<Entry>)

  predicate Conflicts(a: LockType, b: LockType) {
    a != LockNone && b != LockNone && (a == LockEx || b == LockEx)
  }

  // ----- lock_get and lock_release ----------------------------------------------------------

  /** Not compatible with the owners, or somebody waiting must not be overtaken. */
  predicate MustWait(mode: Mode, l: Lock, e: Entry) {
    || Conflicts(l.kind, e.kind)
    || (l.waiters != [] && (mode == Calvin || e.txn < l.waiters[0].txn))
  }

  /** Under WAIT_DIE only a transaction older than all owners may wait. */
  predicate OlderThanOwners(l: Lock, t: Ts) {
    forall o :: o in l.owners ==> t <= o.txn
  }

  /** Before the first waiter that is not younger. */
  function InsertWaiter(ws: seq<Entry>, e: Entry): seq<Entry> {
    if ws == [] || ws[0].txn <= e.txn then [e] + ws else [ws[0]] + InsertWaiter(ws[1..], e)
  }

  function Get(mode: Mode, l: Lock, e: Entry): (Rc, Lock) {
    if !MustWait(mode, l, e) then (RcOk, Lock(e.kind, [e] + l.owners, l.waiters))
    else if mode == Calvin then (Wait, l.(waiters := l.waiters + [e]))
    else if OlderThanOwners(l, e.txn) then (Wait, l.(waiters := InsertWaiter(l.waiters, e)))
    else (Abort, l)
  }

  function RemoveOwner(os: seq<Entry>, t: Ts): (r: seq<Entry>)
    ensures |r| <= |os| && forall o :: o in r ==> o in os
    ensures (exists o :: o in os && o.txn == t) ==> |r| == |os| - 1
  {
    if os == [] then [] else if os[0].txn == t then os[1..] else [os[0]] + RemoveOwner(os[1..], t)
  }

  /** Waiters join the owners, from the head, as long as they are compatible. */
  function Promote(l: Lock): Lock
    decreases |l.waiters|
  {
    if l.waiters != [] && !Conflicts(l.kind, l.waiters[0].kind) then
      Promote(Lock(l.waiters[0].kind, [l.waiters[0]] + l.owners, l.waiters[1..]))
    else l
  }

  /** The lock once the owner's entry is gone and nobody has been promoted yet. */
  function Drop(l: Lock, t: Ts): Lock {
    var os := RemoveOwner(l.owners, t);
    Lock(if os == [] then LockNone else l.kind, os, l.waiters)
  }

  function Release(l: Lock, t: Ts): Lock {
    Promote(Drop(l, t))
  }

  // ----- the invariant of one row -----------------------------------------------------------

  /** lock_type sums up the owners: none, one exclusive owner alone, or shared owners only. */
  ghost predicate SummaryOk(l: Lock) {
    && (l.kind == LockNone <==> l.owners == [])
    && (l.kind == LockEx ==> |l.owners| == 1)
    && forall o :: o in l.owners ==> o.kind == l.kind
  }

  /** The head of the queue is waiting for a reason. */
  ghost predicate HeadBlocked(l: Lock) {
    l.waiters != [] ==> Conflicts(l.kind, l.waiters[0].kind)
  }

  ghost predicate Requests(es: seq<Entry>) {
    forall e :: e in es ==> e.kind != LockNone
  }

  /** Waiters from young to old, all of them older than every owner. */
  ghost predicate OldestLast(l: Lock) {
    && (forall i, j :: 0 <= i < j < |l.waiters| ==> l.waiters[i].txn > l.waiters[j].txn)
    && (forall w, o :: w in l.waiters && o in l.owners ==> w.txn < o.txn)
  }

  ghost predicate LockOk(mode: Mode, l: Lock) {
    && SummaryOk(l) && HeadBlocked(l) && Requests(l.waiters)
    && (mode == WaitDie ==> OldestLast(l))
  }

  /** The transaction has not asked for this row before. */
  ghost predicate NewHere(l: Lock, t: Ts) {
    && (forall o :: o in l.owners ==> o.txn != t)
    && (forall w :: w in l.waiters ==> w.txn != t)
  }

  lemma {:induction false} InsertWaiterMembers(ws: seq<Entry>, e: Entry)
    ensures forall x :: x in InsertWaiter(ws, e) <==> x in ws || x == e
    ensures InsertWaiter(ws, e) != []
    ensures InsertWaiter(ws, e)[0] == if ws == [] || ws[0].txn <= e.txn then e else ws[0]
  {
    if ws != [] {
      InsertWaiterMembers(ws[1..], e);
    }
  }

  lemma {:induction false} InsertWaiterSorted(ws: seq<Entry>, e: Entry)
    requires forall i, j :: 0 <= i < j < |ws| ==> ws[i].txn > ws[j].txn
    requires forall w :: w in ws ==> w.txn != e.txn
    ensures var r := InsertWaiter(ws, e); forall i, j :: 0 <= i < j < |r| ==> r[i].txn > r[j].txn
  {
    if ws != [] && ws[0].txn > e.txn {
      InsertWaiterSorted(ws[1..], e);
      InsertWaiterMembers(ws[1..], e);
      var r := InsertWaiter(ws[1..], e);
      assert forall j :: 0 <= j < |r| ==> r[j] in r;
    }
  }

  lemma GrantKeepsLock(mode: Mode, l: Lock, e: Entry)
    requires LockOk(mode, l) && e.kind != LockNone && NewHere(l, e.txn) && !MustWait(mode, l, e)
    ensures LockOk(mode, Lock(e.kind, [e] + l.owners, l.waiters))
  {
    if mode == WaitDie && l.waiters != [] {
      assert forall i :: 0 <= i < |l.waiters| ==> l.waiters[i].txn <= l.waiters[0].txn;
    }
  }

  lemma QueueKeepsOrder(l: Lock, e: Entry)
    requires OldestLast(l) && NewHere(l, e.txn) && OlderThanOwners(l, e.txn)
    ensures OldestLast(l.(waiters := InsertWaiter(l.waiters, e)))
  {
    InsertWaiterMembers(l.waiters, e);
    InsertWaiterSorted(l.waiters, e);
  }

  /** Asking for a lock keeps the row's invariant, whatever the answer. */
  lemma GetKeepsLock(mode: Mode, l: Lock, e: Entry)
    requires LockOk(mode, l) && e.kind != LockNone && NewHere(l, e.txn)
    ensures LockOk(mode, Get(mode, l, e).1)
  {
    if !MustWait(mode, l, e) {
      GrantKeepsLock(mode, l, e);
    } else if mode == WaitDie && OlderThanOwners(l, e.txn) {
      hide OldestLast;
      QueueKeepsOrder(l, e);
      InsertWaiterMembers(l.waiters, e);
    }
  }

  // ----- what a request is told -------------------------------------------------------------

  /** Two locks on one row that can be held together. */
  predicate Compatible(a: LockType, b: LockType) {
    a == LockSh && b == LockSh
  }

  ghost predicate CompatibleWithOwners(l: Lock, e: Entry) {
    forall o :: o in l.owners ==> Compatible(o.kind, e.kind)
  }

  /** Somebody is waiting whom the request must not overtake: under CALVIN anybody, under WAIT_DIE anybody
      younger. */
  ghost predicate Overtakes(mode: Mode, l: Lock, e: Entry) {
    exists w :: w in l.waiters && (mode == Calvin || e.txn < w.txn)
  }

  ghost predicate OlderOwner(l: Lock, e: Entry) {
    exists o :: o in l.owners && o.txn < e.txn
  }

  lemma MustWaitExactly(mode: Mode, l: Lock, e: Entry)
    requires LockOk(mode, l) && e.kind != LockNone
    ensures MustWait(mode, l, e) <==> !CompatibleWithOwners(l, e) || Overtakes(mode, l, e)
  {
    if l.owners != [] {
      assert l.owners[0] in l.owners;
    }
    if l.waiters != [] {
      assert l.waiters[0] in l.waiters;
    }
    if w :| w in l.waiters && mode == WaitDie && e.txn < w.txn {
      var i :| 0 <= i < |l.waiters| && l.waiters[i] == w;
      assert w.txn <= l.waiters[0].txn;
    }
  }

  /** The answer to a request means what it says: RcOk exactly if the request is an owner from now on, which
      is when it is compatible with every owner and overtakes nobody; Wait exactly if it is in the queue;
      Abort exactly if nothing has changed, which is when under WAIT_DIE it cannot be granted and some
      owner is older. Nobody else's place changes. */
  lemma GetTellsTheTruth(mode: Mode, l: Lock, e: Entry)
    requires LockOk(mode, l) && e.kind != LockNone && NewHere(l, e.txn)
    ensures var (rc, l') := Get(mode, l, e);
            && (rc == RcOk <==> e in l'.owners)
            && (rc == RcOk <==> CompatibleWithOwners(l, e) && !Overtakes(mode, l, e))
            && (rc == Wait <==> e in l'.waiters)
            && (rc == Abort <==> l' == l)
            && (rc == Abort <==>
                  mode == WaitDie && (!CompatibleWithOwners(l, e) || Overtakes(mode, l, e)) && OlderOwner(l, e))
            && (forall x :: x != e ==> (x in l'.owners <==> x in l.owners) && (x in l'.waiters <==> x in l.waiters))
  {
    hide LockOk, MustWait, Overtakes, CompatibleWithOwners;
    MustWaitExactly(mode, l, e);
    InsertWaiterMembers(l.waiters, e);
  }

  /** The promotion loop: what it needs on entry, it establishes together with a blocked head. */
  lemma {:induction false} PromoteKeepsLock(mode: Mode, l: Lock)
    requires SummaryOk(l) && Requests(l.waiters) && (mode == WaitDie ==> OldestLast(l))
    ensures LockOk(mode, Promote(l))
    decreases |l.waiters|
  {
    if l.waiters != [] && !Conflicts(l.kind, l.waiters[0].kind) {
      var w := l.waiters[0];
      var l' := Lock(w.kind, [w] + l.owners, l.waiters[1..]);
      assert w in l.waiters;
      assert forall x :: x in l'.waiters ==> x in l.waiters;
      PromoteKeepsLock(mode, l');
    }
  }

  lemma ReleaseKeepsLock(mode: Mode, l: Lock, t: Ts)
    requires LockOk(mode, l) && exists o :: o in l.owners && o.txn == t
    ensures LockOk(mode, Release(l, t))
  {
    PromoteKeepsLock(mode, Drop(l, t));
  }

  /** Promotion moves a prefix of the queue, in order, and touches nothing else. */
  lemma {:induction false} PromoteTakesPrefix(l: Lock)
    ensures var l' := Promote(l);
            && |l'.waiters| <= |l.waiters|
            && l'.waiters == l.waiters[|l.waiters| - |l'.waiters|..]
            && forall o :: o in l'.owners <==> o in l.owners || o in l.waiters[..|l.waiters| - |l'.waiters|]
    decreases |l.waiters|
  {
    if l.waiters != [] && !Conflicts(l.kind, l.waiters[0].kind) {
      var m := Lock(l.waiters[0].kind, [l.waiters[0]] + l.owners, l.waiters[1..]);
      PromoteTakesPrefix(m);
      var n := |l.waiters| - |Promote(l).waiters|;
      assert l.waiters[..n] == [l.waiters[0]] + m.waiters[..n - 1];
    }
  }

  // ----- all rows ---------------------------------------------------------------------------

  /** A row's lock with the requests it queued or granted and the grants it made, oldest first, and what
      transactions know: the grants they were told of and have not released, and the requests they were
      told to wait for and not woken from. */
  datatype Cell = Cell(lock: Lock, requests: seq<Entry>, grants: seq<Entry>, held: set<Entry>, queued: set<Entry>)

  type System = map<Key, Cell>

  ghost predicate Init(s: System) {
    forall k :: k in s ==> s[k] == Cell(Lock(LockNone, [], []), [], [], {}, {})
  }

  ghost predicate Asked(mode: Mode, s: System, s': System, k: Key, e: Entry) {
    && k in s && e.kind != LockNone && (forall x :: x in s[k].held + s[k].queued ==> x.txn != e.txn)
    && var (rc, l) := Get(mode, s[k].lock, e);
       s' == s[k := Cell(l, if rc == Abort then s[k].requests else s[k].requests + [e],
                         if rc == RcOk then s[k].grants + [e] else s[k].grants,
                         if rc == RcOk then s[k].held + {e} else s[k].held,
                         if rc == Wait then s[k].queued + {e} else s[k].queued)]
  }

  /** Those whom a release lets in are woken. */
  ghost predicate Released(s: System, s': System, k: Key, e: Entry) {
    && k in s && e in s[k].held
    && var l, ws := Release(s[k].lock, e.txn), s[k].lock.waiters;
       |l.waiters| <= |ws| &&
       var woken := ws[..|ws| - |l.waiters|];
       s' == s[k := Cell(l, s[k].requests, s[k].grants + woken, s[k].held - {e} + (set w | w in woken),
                         s[k].queued - set w | w in woken)]
  }

  ghost predicate Step(mode: Mode, s: System, s': System) {
    || (exists k, e :: Asked(mode, s, s', k, e))
    || (exists k, e :: Released(s, s', k, e))
  }

  ghost predicate IsRun(mode: Mode, run: seq<System>) {
    && run != [] && Init(run[0])
    && forall i :: 0 < i < |run| ==> Step(mode, run[i - 1], run[i])
  }

  /** Under CALVIN: what was asked for is what was granted followed by the queue. */
  ghost predicate FirstComeFirstServed(c: Cell) {
    && c.requests == c.grants + c.lock.waiters
    && forall o :: o in c.lock.owners ==> o in c.grants
  }

  /** Nobody is on the row twice. */
  ghost predicate Once(l: Lock) {
    && (forall i, j :: 0 <= i < j < |l.owners| ==> l.owners[i].txn != l.owners[j].txn)
    && (forall i, j :: 0 <= i < j < |l.waiters| ==> l.waiters[i].txn != l.waiters[j].txn)
    && (forall o, w :: o in l.owners && w in l.waiters ==> o.txn != w.txn)
  }

  /** What transactions were told is how the row stands. */
  ghost predicate ToldOk(c: Cell) {
    (forall e :: e in c.held <==> e in c.lock.owners) && (forall e :: e in c.queued <==> e in c.lock.waiters)
  }

  ghost predicate CellOk(mode: Mode, c: Cell) {
    LockOk(mode, c.lock) && Once(c.lock) && ToldOk(c) && (mode == Calvin ==> FirstComeFirstServed(c))
  }

  ghost predicate SystemOk(mode: Mode, s: System) {
    forall k :: k in s ==> CellOk(mode, s[k])
  }

  lemma {:induction false} InsertWaiterOnce(ws: seq<Entry>, e: Entry)
    requires forall i, j :: 0 <= i < j < |ws| ==> ws[i].txn != ws[j].txn
    requires forall w :: w in ws ==> w.txn != e.txn
    ensures var r := InsertWaiter(ws, e); forall i, j :: 0 <= i < j < |r| ==> r[i].txn != r[j].txn
  {
    if ws != [] && ws[0].txn > e.txn {
      InsertWaiterOnce(ws[1..], e);
      InsertWaiterMembers(ws[1..], e);
      var r := InsertWaiter(ws[1..], e);
      assert forall j :: 0 <= j < |r| ==> r[j] in r;
    }
  }

  lemma GetOnce(mode: Mode, l: Lock, e: Entry)
    requires Once(l) && NewHere(l, e.txn)
    ensures Once(Get(mode, l, e).1)
  {
    hide MustWait, OlderThanOwners;
    InsertWaiterOnce(l.waiters, e);
    InsertWaiterMembers(l.waiters, e);
  }

  lemma AskedKeepsCell(mode: Mode, s: System, s': System, k: Key, e: Entry)
    requires k in s && CellOk(mode, s[k]) && Asked(mode, s, s', k, e)
    ensures k in s' && CellOk(mode, s'[k])
  {
    hide LockOk, Once;
    assert NewHere(s[k].lock, e.txn);
    GetKeepsLock(mode, s[k].lock, e);
    GetOnce(mode, s[k].lock, e);
    GetTellsTheTruth(mode, s[k].lock, e);
  }

  lemma {:induction false} RemoveOwnerExactly(os: seq<Entry>, e: Entry)
    requires e in os && forall i, j :: 0 <= i < j < |os| ==> os[i].txn != os[j].txn
    ensures var r := RemoveOwner(os, e.txn);
            && (forall o :: o in r <==> o in os && o != e)
            && (forall i, j :: 0 <= i < j < |r| ==> r[i].txn != r[j].txn)
  {
    if os[0].txn != e.txn {
      assert e in os[1..];
      RemoveOwnerExactly(os[1..], e);
      var r := RemoveOwner(os[1..], e.txn);
      assert forall j :: 0 <= j < |r| ==> r[j] in r;
    } else {
      assert forall o :: o in os[1..] ==> o in os && o.txn != os[0].txn;
    }
  }

  lemma {:induction false} PromoteOnce(l: Lock)
    requires Once(l)
    ensures Once(Promote(l))
    decreases |l.waiters|
  {
    if l.waiters != [] && !Conflicts(l.kind, l.waiters[0].kind) {
      assert l.waiters[0] in l.waiters;
      assert forall w :: w in l.waiters[1..] ==> w in l.waiters && w.txn != l.waiters[0].txn;
      PromoteOnce(Lock(l.waiters[0].kind, [l.waiters[0]] + l.owners, l.waiters[1..]));
    }
  }

  /** A release takes exactly the entry that is given up from the owners and lets a prefix of the queue in. */
  lemma ReleaseTellsTheTruth(mode: Mode, l: Lock, e: Entry)
    requires LockOk(mode, l) && Once(l) && e in l.owners
    ensures var l' := Release(l, e.txn);
            && Once(l') && |l'.waiters| <= |l.waiters|
            && var n := |l.waiters| - |l'.waiters|;
               && l'.waiters == l.waiters[n..]
               && forall o :: o in l'.owners <==> (o in l.owners && o != e) || o in l.waiters[..n]
  {
    hide LockOk, Promote;
    RemoveOwnerExactly(l.owners, e);
    PromoteOnce(Drop(l, e.txn));
    PromoteTakesPrefix(Drop(l, e.txn));
  }

  lemma ReleasedKeepsCell(mode: Mode, s: System, s': System, k: Key, e: Entry)
    requires k in s && CellOk(mode, s[k]) && Released(s, s', k, e)
    ensures k in s' && CellOk(mode, s'[k])
  {
    hide LockOk, Once, Release;
    var l := s[k].lock;
    ReleaseKeepsLock(mode, l, e.txn);
    ReleaseTellsTheTruth(mode, l, e);
    var ws, n := l.waiters, |l.waiters| - |s'[k].lock.waiters|;
    assert ws == ws[..n] + ws[n..];
    SuffixIsRest(l, n);
  }

  lemma SuffixIsRest(l: Lock, n: nat)
    requires Once(l) && n <= |l.waiters|
    ensures forall w :: w in l.waiters[n..] <==> w in l.waiters && w !in l.waiters[..n]
  {
    assert l.waiters == l.waiters[..n] + l.waiters[n..];
  }

  lemma StepKeepsSystem(mode: Mode, s: System, s': System)
    requires SystemOk(mode, s) && Step(mode, s, s')
    ensures SystemOk(mode, s')
  {
    hide CellOk;
    if k, e :| Asked(mode, s, s', k, e) {
      AskedKeepsCell(mode, s, s', k, e);
    } else {
      var k, e :| Released(s, s', k, e);
      ReleasedKeepsCell(mode, s, s', k, e);
    }
  }

  /** Every reachable state: each row's lock type sums up its owners, the head of a queue is
      blocked by them, WAIT_DIE queues run from young to old with everyone older than the owners,
      and CALVIN rows grant first come first served. */
  lemma {:induction false} RunKeepsSystem(mode: Mode, run: seq<System>)
    requires IsRun(mode, run)
    ensures SystemOk(mode, run[|run| - 1])
  {
    if |run| > 1 {
      hide Step, SystemOk;
      RunKeepsSystem(mode, run[..|run| - 1]);
      StepKeepsSystem(mode, run[|run| - 2], run[|run| - 1]);
    }
  }

  /** In every run the grants that transactions were told of and have not released are exactly the owners of
      the row, and any two of them are compatible; those told to wait are exactly the queue. */
  lemma HeldAreCompatible(mode: Mode, run: seq<System>, k: Key)
    requires IsRun(mode, run) && k in run[|run| - 1]
    ensures var c := run[|run| - 1][k];
            && (forall e :: e in c.held <==> e in c.lock.owners)
            && (forall e :: e in c.queued <==> e in c.lock.waiters)
            && (forall e, f :: e in c.held && f in c.held && e != f ==> Compatible(e.kind, f.kind))
  {
    hide Step, OldestLast, FirstComeFirstServed;
    RunKeepsSystem(mode, run);
    assert CellOk(mode, run[|run| - 1][k]);
  }

  /** In every run every request is told the truth, by what the transactions were told before. */
  lemma EveryAnswerIsRight(mode: Mode, run: seq<System>, s': System, k: Key, e: Entry)
    requires IsRun(mode, run) && Asked(mode, run[|run| - 1], s', k, e)
    ensures var c := run[|run| - 1][k];
            var rc := Get(mode, c.lock, e).0;
            var clash := exists x :: x in c.held && !Compatible(x.kind, e.kind);
            var ahead := exists w :: w in c.queued && (mode == Calvin || e.txn < w.txn);
            && (rc == RcOk <==> !clash && !ahead)
            && (rc == Abort <==>
                  mode == WaitDie && (clash || ahead) && exists x :: x in c.held && x.txn < e.txn)
            && (rc == RcOk <==> e in s'[k].lock.owners) && (rc == Wait <==> e in s'[k].lock.waiters)
  {
    hide Step, LockOk, FirstComeFirstServed, Get;
    RunKeepsSystem(mode, run);
    var c := run[|run| - 1][k];
    assert CellOk(mode, c);
    assert NewHere(c.lock, e.txn);
    GetTellsTheTruth(mode, c.lock, e);
  }

  // ----- no deadlock ------------------------------------------------------------------------

  /** In some row `a` waits, and `b` owns the lock or waits ahead of `a`. */
  ghost predicate WaitsFor(s: System, a: Ts, b: Ts) {
    exists k, i :: k in s && 0 <= i < |s[k].lock.waiters| && s[k].lock.waiters[i].txn == a && Ahead(s[k].lock, i, b)
  }

  ghost predicate Ahead(l: Lock, i: nat, b: Ts)
    requires i <= |l.waiters|
  {
    (exists o :: o in l.owners && o.txn == b) || (exists w :: w in l.waiters[..i] && w.txn == b)
  }

  /** A closed chain of transactions each waiting for the next. */
  ghost predicate Deadlock(s: System, chain: seq<Ts>) {
    && |chain| >= 2 && chain[0] == chain[|chain| - 1]
    && forall i :: 0 < i < |chain| ==> WaitsFor(s, chain[i - 1], chain[i])
  }

  lemma WaitDieWaitsForYounger(s: System, a: Ts, b: Ts)
    requires SystemOk(WaitDie, s) && WaitsFor(s, a, b)
    ensures a < b
  {
    hide Once, ToldOk;
    var k, i :| k in s && 0 <= i < |s[k].lock.waiters| && s[k].lock.waiters[i].txn == a && Ahead(s[k].lock, i, b);
    assert CellOk(WaitDie, s[k]);
    assert s[k].lock.waiters[i] in s[k].lock.waiters;
  }

  lemma {:induction false} ChainAscends(chain: seq<Ts>)
    requires |chain| >= 2
    requires forall i :: 0 < i < |chain| ==> chain[i - 1] < chain[i]
    ensures chain[0] < chain[|chain| - 1]
  {
    if |chain| > 2 {
      ChainAscends(chain[..|chain| - 1]);
    }
  }

  /** WAIT_DIE never deadlocks: over all rows of every reachable state, transactions only wait
      for younger ones, so no chain of waiting closes. */
  lemma WaitDieNeverDeadlocks(run: seq<System>, chain: seq<Ts>)
    requires IsRun(WaitDie, run)
    ensures !Deadlock(run[|run| - 1], chain)
  {
    hide SystemOk, WaitsFor, Step;
    RunKeepsSystem(WaitDie, run);
    var s := run[|run| - 1];
    if |chain| >= 2 && forall i :: 0 < i < |chain| ==> WaitsFor(s, chain[i - 1], chain[i]) {
      forall i | 0 < i < |chain|
        ensures chain[i - 1] < chain[i]
      {
        WaitDieWaitsForYounger(s, chain[i - 1], chain[i]);
      }
      ChainAscends(chain);
    }
  }

  ghost predicate Waits(s: System, t: Ts) {
    exists k, i :: k in s && 0 <= i < |s[k].lock.waiters| && s[k].lock.waiters[i].txn == t
  }

  ghost predicate Owns(s: System, t: Ts) {
    exists k, o :: k in s && o in s[k].lock.owners && o.txn == t
  }

  /** Somebody who waits, waits for an owner. */
  lemma WaiterHasOwner(mode: Mode, s: System, a: Ts) returns (b: Ts)
    requires SystemOk(mode, s) && Waits(s, a)
    ensures WaitsFor(s, a, b) && Owns(s, b)
  {
    hide Once, ToldOk, FirstComeFirstServed;
    var k, i :| k in s && 0 <= i < |s[k].lock.waiters| && s[k].lock.waiters[i].txn == a;
    assert CellOk(mode, s[k]);
    var o := s[k].lock.owners[0];
    b := o.txn;
    assert o in s[k].lock.owners && Ahead(s[k].lock, i, b);
  }

  lemma {:induction false} WaitDieOwnerRuns(s: System, a: Ts) returns (b: Ts)
    requires SystemOk(WaitDie, s) && Waits(s, a)
    ensures Owns(s, b) && !Waits(s, b)
    decreases UINT64_MAX - a
  {
    hide SystemOk, WaitsFor, Waits, Owns;
    b := WaiterHasOwner(WaitDie, s, a);
    WaitDieWaitsForYounger(s, a, b);
    if Waits(s, b) {
      b := WaitDieOwnerRuns(s, b);
    }
  }

  /** WAIT_DIE always leaves somebody to run: when anyone waits, some owner waits nowhere. */
  lemma WaitDieProgress(run: seq<System>, a: Ts)
    requires IsRun(WaitDie, run) && Waits(run[|run| - 1], a)
    ensures var s := run[|run| - 1]; exists b :: Owns(s, b) && !Waits(s, b)
  {
    hide SystemOk, Waits, Owns, Step;
    RunKeepsSystem(WaitDie, run);
    var b := WaitDieOwnerRuns(run[|run| - 1], a);
  }

  /** Every row received its requests in the same order of transactions. */
  ghost predicate CommonOrder(s: System) {
    forall k, i, j :: k in s && 0 <= i < j < |s[k].requests| ==> s[k].requests[i].txn < s[k].requests[j].txn
  }

  lemma CalvinWaitsForEarlier(s: System, a: Ts, b: Ts)
    requires SystemOk(Calvin, s) && CommonOrder(s) && WaitsFor(s, a, b)
    ensures b < a
  {
    hide Once, ToldOk, LockOk;
    var k, i :| k in s && 0 <= i < |s[k].lock.waiters| && s[k].lock.waiters[i].txn == a && Ahead(s[k].lock, i, b);
    var c := s[k];
    assert CellOk(Calvin, c);
    var at := |c.grants| + i;
    assert c.requests[at] == c.lock.waiters[i];
    if o :| o in c.lock.owners && o.txn == b {
      var j :| 0 <= j < |c.grants| && c.grants[j] == o;
      assert c.requests[j] == o;
    } else {
      var j :| 0 <= j < i && c.lock.waiters[j].txn == b;
      assert c.requests[|c.grants| + j].txn == b;
    }
  }

  lemma {:induction false} ChainDescends(chain: seq<Ts>)
    requires |chain| >= 2
    requires forall i :: 0 < i < |chain| ==> chain[i] < chain[i - 1]
    ensures chain[|chain| - 1] < chain[0]
  {
    if |chain| > 2 {
      ChainDescends(chain[..|chain| - 1]);
    }
  }

  /** CALVIN: when all rows receive requests in one common order of the transactions, nobody waits
      for a later transaction, and no chain of waiting closes. */
  lemma CalvinNeverDeadlocks(run: seq<System>, chain: seq<Ts>)
    requires IsRun(Calvin, run) && CommonOrder(run[|run| - 1])
    ensures !Deadlock(run[|run| - 1], chain)
  {
    hide SystemOk, WaitsFor, Step, CommonOrder;
    RunKeepsSystem(Calvin, run);
    var s := run[|run| - 1];
    if |chain| >= 2 && forall i :: 0 < i < |chain| ==> WaitsFor(s, chain[i - 1], chain[i]) {
      forall i | 0 < i < |chain|
        ensures chain[i] < chain[i - 1]
      {
        CalvinWaitsForEarlier(s, chain[i - 1], chain[i]);
      }
      ChainDescends(chain);
    }
  }

  lemma {:induction false} CalvinOwnerRuns(s: System, a: Ts) returns (b: Ts)
    requires SystemOk(Calvin, s) && CommonOrder(s) && Waits(s, a)
    ensures Owns(s, b) && !Waits(s, b)
    decreases a
  {
    hide SystemOk, WaitsFor, Waits, Owns, CommonOrder;
    b := WaiterHasOwner(Calvin, s, a);
    CalvinWaitsForEarlier(s, a, b);
    if Waits(s, b) {
      b := CalvinOwnerRuns(s, b);
    }
  }

  lemma CalvinProgress(run: seq<System>, a: Ts)
    requires IsRun(Calvin, run) && CommonOrder(run[|run| - 1]) && Waits(run[|run| - 1], a)
    ensures var s := run[|run| - 1]; exists b :: Owns(s, b) && !Waits(s, b)
  {
    hide SystemOk, Waits, Owns, Step, CommonOrder;
    RunKeepsSystem(Calvin, run);
    var b := CalvinOwnerRuns(run[|run| - 1], a);
  }
}

/** One row under TicToc (concurrency_control/row_tictoc.cpp) with OCC_WAW_LOCK and WAIT_DIE: the
    lease [wts, rts] of its current version, the write lock and the transactions waiting for it.
    Priorities are distinct, so a transaction is named by its priority. */
module TicToc {
  import opened SerialHistory

  type Tx = nat

  datatype Rc = RcOk | Wait | Abort
  datatype Owner = Free | HeldBy(tx: Tx)

  datatype Row = Row(wts: nat, rts: nat, owner: Owner, waiting: set<Tx>, value: Val)

  /** Take the write lock, queue for it, or give up. */
  function Write(maxWaits: nat, r: Row, t: Tx): (Rc, Row) {
    if r.owner.Free? then (RcOk, r.(owner := HeldBy(t)))
    else if r.owner.tx == t then (RcOk, r)
    else if |r.waiting| < maxWaits && t < r.owner.tx then (Wait, r.(waiting := r.waiting + {t}))
    else (Abort, r)
  }

  /** Extend the lease of the version written at `wts` up to `ts`. */
  function TryRenew(r: Row, wts: nat, ts: nat): (bool, Row) {
    if wts != r.wts || r.owner.HeldBy? then (false, r)
    else (true, r.(rts := if ts > r.rts then ts else r.rts))
  }

  function Install(r: Row, ts: nat, v: Val): Row {
    r.(wts := ts, rts := ts, value := v)
  }

  ghost predicate IsLast(s: set<Tx>, m: Tx) {
    m in s && forall x :: x in s ==> x <= m
  }

  lemma {:induction false} LastExists(s: set<Tx>)
    requires s != {}
    ensures exists m :: IsLast(s, m)
  {
    var x :| x in s;
    if s == {x} {
      assert IsLast(s, x);
    } else {
      LastExists(s - {x});
      var m :| IsLast(s - {x}, m);
      assert s == (s - {x}) + {x};
      assert IsLast(s, if x > m then x else m);
    }
  }

  /** The waiter with the largest priority. */
  ghost function Last(s: set<Tx>): (m: Tx)
    requires s != {}
    ensures IsLast(s, m)
  {
    LastExists(s);
    var m :| IsLast(s, m);
    m
  }

  /** The lock goes to the last waiter without being unlocked in between. */
  ghost function Release(r: Row, t: Tx): Row {
    if r.owner != HeldBy(t) then r.(waiting := r.waiting - {t})
    else if r.waiting == {} then r.(owner := Free)
    else r.(owner := HeldBy(Last(r.waiting)), waiting := r.waiting - {Last(r.waiting)})
  }

  /** What an access with the lease [wts, rts] asks of the commit timestamp. */
  function Bound(write: bool, wts: nat, rts: nat): nat {
    if write then rts + 1 else wts
  }

  /** The commit timestamp: the largest of the running minimum and the bounds of all accesses. */
  ghost predicate IsCommitTs(minTs: nat, bounds: set<nat>, ts: nat) {
    IsLast(bounds + {minTs}, ts)
  }
}

/** The mutable row manager of TicToc and the validation of one transaction over its accesses
    (concurrency_control/row_tictoc.cpp, concurrency_control/tictoc.cpp), proved against `TicToc`. */
module TicTocTxn {
  import opened SerialHistory
  import opened TicToc

  class RowTicToc {
    const maxNumWaits: nat
    var wts: nat
    var rts: nat
    var tsLock: bool
    var lockOwner: Owner
    var waitingSet: set<Tx>
    var value: Val

    function Contents(): Row
      reads this
    {
      Row(wts, rts, lockOwner, waitingSet, value)
    }

    /** The lock flag and the owner agree, and everyone waiting has a smaller priority. */
    ghost predicate Valid()
      reads this`tsLock, this`lockOwner, this`waitingSet
    {
      && (tsLock <==> lockOwner.HeldBy?)
      && |waitingSet| <= maxNumWaits
      && (lockOwner.Free? ==> waitingSet == {})
      && (lockOwner.HeldBy? ==> forall w :: w in waitingSet ==> w < lockOwner.tx)
    }

    constructor (maxNumWaits: nat, v: Val)
      ensures Valid() && this.maxNumWaits == maxNumWaits && Contents() == Row(0, 0, Free, {}, v)
    {
      this.maxNumWaits := maxNumWaits;
      wts, rts, tsLock, lockOwner, waitingSet, value := 0, 0, false, Free, {}, v;
    }

    /** `write`: on success the caller also gets the current lease. */
    method WriteLock(t: Tx) returns (rc: Rc, w: nat, r: nat)
      requires Valid()
      modifies this
      ensures Valid() && (rc, Contents()) == Write(maxNumWaits, old(Contents()), t)
      ensures rc == RcOk ==> lockOwner == HeldBy(t) && w == wts && r == rts
      ensures rc == Wait ==> t in waitingSet && old(lockOwner).HeldBy? && t < old(lockOwner).tx
    {
      rc, w, r := RcOk, 0, 0;
      if !tsLock {
        tsLock := true;
        lockOwner := HeldBy(t);
      } else if lockOwner != HeldBy(t) {
        if |waitingSet| < maxNumWaits && t < lockOwner.tx {
          waitingSet := waitingSet + {t};
          rc := Wait;
        } else {
          rc := Abort;
        }
      }
      if rc == RcOk {
        w := wts;
        r := rts;
      }
    }

    /** `try_renew`: fails when the version is gone or somebody holds the lock; never shortens a lease. */
    method TryRenewLease(w: nat, ts: nat) returns (ok: bool, newRts: nat)
      requires Valid()
      modifies this`rts
      ensures Valid() && (ok, Contents()) == TryRenew(old(Contents()), w, ts)
      ensures ok ==> newRts == rts && ts <= rts && w == wts
      ensures old(rts) <= rts && (!ok ==> rts == old(rts))
    {
      newRts := 0;
      if w != wts {
        return false, newRts;
      }
      if tsLock {
        return false, newRts;
      }
      newRts := rts;
      if ts > rts {
        rts := ts;
        newRts := ts;
      }
      ok := true;
    }

    method CommitWrite(ts: nat, v: Val)
      requires Valid()
      modifies this
      ensures Valid() && Contents() == Install(old(Contents()), ts, v)
    {
      wts := ts;
      rts := ts;
      value := v;
    }

    /** The last waiter of the ordered set. */
    method LastWaiter() returns (m: Tx)
      requires waitingSet != {}
      ensures m == Last(waitingSet)
    {
      m :| m in waitingSet;
      var rest := waitingSet - {m};
      while rest != {}
        invariant m in waitingSet && rest <= waitingSet
        invariant forall x :: x in waitingSet && x !in rest ==> x <= m
        decreases rest
      {
        var x :| x in rest;
        if x > m {
          m := x;
        }
        rest := rest - {x};
      }
      assert IsLast(waitingSet, m);
    }

    /** `release`: an owner hands the lock to the last waiter or frees it; anyone else stops waiting. */
    method ReleaseLock(t: Tx)
      requires Valid()
      modifies this
      ensures Valid() && Contents() == Release(old(Contents()), t)
      ensures lockOwner != HeldBy(t) && t !in waitingSet
    {
      if lockOwner != HeldBy(t) {
        waitingSet := waitingSet - {t};
        return;
      }
      if waitingSet != {} {
        var next := LastWaiter();
        waitingSet := waitingSet - {next};
        lockOwner := HeldBy(next);
      } else {
        tsLock := false;
        lockOwner := Free;
      }
    }
  }

  class Access {
    const row: RowTicToc
    const write: bool
    var origWts: nat
    var origRts: nat
    var locked: bool

    constructor (row: RowTicToc, write: bool, wts: nat, rts: nat)
      ensures this.row == row && this.write == write && origWts == wts && origRts == rts && locked == write
    {
      this.row := row;
      this.write := write;
      origWts, origRts, locked := wts, rts, write;
    }
  }

  /** A transaction touches a row at most once. */
  ghost predicate RowsDistinct(accs: seq<Access>) {
    && (forall i, j :: 0 <= i < j < |accs| ==> accs[i] != accs[j] && accs[i].row != accs[j].row)
  }

  ghost predicate RowsValid(accs: seq<Access>)
    reads (set a | a in accs :: a.row)`tsLock, (set a | a in accs :: a.row)`lockOwner
    reads (set a | a in accs :: a.row)`waitingSet
  {
    forall i :: 0 <= i < |accs| ==> accs[i].row.Valid()
  }

  /** What the accesses ask of the commit timestamp. */
  function BoundsOf(accs: seq<Access>): set<nat>
    reads accs
  {
    set i | 0 <= i < |accs| :: Bound(accs[i].write, accs[i].origWts, accs[i].origRts)
  }

  /** get_rw_set: reads and writes apart, each keeping its order. */
  function Kind(accs: seq<Access>, write: bool): (r: seq<Access>)
    ensures forall i :: 0 <= i < |r| ==> r[i] in accs && r[i].write == write
    ensures forall i :: 0 <= i < |accs| && accs[i].write == write ==> accs[i] in r
  {
    if accs == [] then []
    else var n := |accs| - 1; Kind(accs[..n], write) + (if accs[n].write == write then [accs[n]] else [])
  }

  lemma {:induction false} KindDistinct(accs: seq<Access>, write: bool)
    requires RowsDistinct(accs)
    ensures RowsDistinct(Kind(accs, write))
  {
    if accs != [] {
      var n := |accs| - 1;
      KindDistinct(accs[..n], write);
      var r := Kind(accs[..n], write);
      forall i | 0 <= i < |r|
        ensures r[i] != accs[n] && r[i].row != accs[n].row
      {
        assert r[i] in accs[..n];
      }
    }
  }

  class Transaction {
    const me: Tx
    const accesses: seq<Access>
    var minCommitTs: nat

    constructor (me: Tx, accesses: seq<Access>, minCommitTs: nat)
      ensures this.me == me && this.accesses == accesses && this.minCommitTs == minCommitTs
    {
      this.me := me;
      this.accesses := accesses;
      this.minCommitTs := minCommitTs;
    }

    method GetRwSet() returns (rset: seq<Access>, wset: seq<Access>)
      ensures rset == Kind(accesses, false) && wset == Kind(accesses, true)
    {
      rset, wset := [], [];
      for i := 0 to |accesses|
        invariant rset == Kind(accesses[..i], false) && wset == Kind(accesses[..i], true)
      {
        assert accesses[..i + 1][..i] == accesses[..i];
        if accesses[i].write {
          wset := wset + [accesses[i]];
        } else {
          rset := rset + [accesses[i]];
        }
      }
      assert accesses[..|accesses|] == accesses;
    }

    /** compute_commit_ts: the least timestamp that all accesses accept. */
    method ComputeCommitTs()
      modifies this`minCommitTs
      ensures IsCommitTs(old(minCommitTs), BoundsOf(accesses), minCommitTs)
    {
      for i := 0 to |accesses|
        invariant IsCommitTs(old(minCommitTs), BoundsOf(accesses[..i]), minCommitTs)
      {
        var a := accesses[i];
        var b := Bound(a.write, a.origWts, a.origRts);
        BoundsStep(accesses, i);
        if b > minCommitTs {
          minCommitTs := b;
        }
      }
      assert accesses[..|accesses|] == accesses;
    }

    /** validate_read_set: it succeeds exactly when every read passes, and then every read has a lease
        up to the commit timestamp. When it fails, the reads after the first failure are untouched. */
    method ValidateReadSet(rset: seq<Access>, ts: nat) returns (ok: bool)
      requires RowsDistinct(rset) && RowsValid(rset)
      modifies (set a | a in rset)`origRts, (set a | a in rset :: a.row)`rts
      ensures RowsValid(rset)
      ensures ok <==> forall j :: 0 <= j < |rset| ==> old(Passes(rset[j], ts))
      ensures ok ==> forall j :: 0 <= j < |rset| ==>
                Checked(rset[j], ts, old(rset[j].origRts), old(rset[j].row.Contents()))
      ensures !ok ==> exists i :: 0 <= i < |rset| && old(!Passes(rset[i], ts)) && CheckedUpTo(rset, ts, i)
    {
      hide Checked, Passes;
      ok := true;
      var i := 0;
      while i < |rset|
        invariant 0 <= i <= |rset| && ok
        invariant CheckedUpTo(rset, ts, i)
        invariant forall j :: 0 <= j < i ==> old(Passes(rset[j], ts))
      {
        ok := CheckAccess(rset[i], ts);
        if !ok {
          return;
        }
        i := i + 1;
      }
    }

    /** One turn of the loop: nothing to do when the remembered lease suffices, otherwise renew. */
    static method CheckAccess(a: Access, ts: nat) returns (ok: bool)
      requires a.row.Valid()
      modifies a`origRts, a.row`rts
      ensures ok == old(Passes(a, ts))
      ensures if ok then Checked(a, ts, old(a.origRts), old(a.row.Contents())) else Same(a)
    {
      ok := true;
      if a.origRts < ts {
        var newRts;
        ok, newRts := a.row.TryRenewLease(a.origWts, ts);
        if ok {
          a.origRts := newRts;
        }
      }
    }

    /** unlock_write_set: every lock it held is released exactly once. */
    method UnlockWriteSet(wset: seq<Access>)
      requires RowsDistinct(wset) && RowsValid(wset)
      modifies (set a | a in wset)`locked, (set a | a in wset :: a.row)
      ensures RowsValid(wset)
      ensures forall j :: 0 <= j < |wset| ==> Unlocked(wset[j], me, old(wset[j].locked), old(wset[j].row.Contents()))
    {
      hide Unlocked;
      for i := 0 to |wset|
        invariant RowsValid(wset)
        invariant forall j :: 0 <= j < i ==> Unlocked(wset[j], me, old(wset[j].locked), old(wset[j].row.Contents()))
        invariant forall j :: i <= j < |wset| ==>
                    wset[j].locked == old(wset[j].locked) && wset[j].row.Contents() == old(wset[j].row.Contents())
      {
        Unlock(wset[i], me);
      }
    }

    static method Unlock(a: Access, t: Tx)
      requires a.row.Valid()
      modifies a`locked, a.row
      ensures a.row.Valid() && Unlocked(a, t, old(a.locked), old(a.row.Contents()))
    {
      if a.locked {
        a.row.ReleaseLock(t);
        a.locked := false;
      }
    }

    /** Checks the reads and, on failure, gives the write locks back. */
    method CheckOrUnlock(rset: seq<Access>, wset: seq<Access>, ts: nat) returns (rc: Rc)
      requires RowsDistinct(rset) && RowsValid(rset) && RowsDistinct(wset) && RowsValid(wset)
      requires forall i, j :: 0 <= i < |rset| && 0 <= j < |wset| ==> rset[i].row != wset[j].row
      modifies (set a | a in rset)`origRts, (set a | a in rset :: a.row)`rts
      modifies (set a | a in wset)`locked, (set a | a in wset :: a.row)
      ensures rc == RcOk || rc == Abort
      ensures rc == RcOk <==> forall j :: 0 <= j < |rset| ==> old(Passes(rset[j], ts))
      ensures rc == RcOk ==> forall j :: 0 <= j < |rset| ==>
                Checked(rset[j], ts, old(rset[j].origRts), old(rset[j].row.Contents()))
      ensures rc == RcOk ==> forall j :: 0 <= j < |wset| ==>
                wset[j].locked == old(wset[j].locked) && wset[j].row.Contents() == old(wset[j].row.Contents())
      ensures rc == Abort ==> forall j :: 0 <= j < |wset| ==>
                Unlocked(wset[j], me, old(wset[j].locked), old(wset[j].row.Contents()))
    {
      hide Checked, Passes, Unlocked, CheckedUpTo, RowsDistinct, RowsValid;
      var ok := ValidateReadSet(rset, ts);
      rc := RcOk;
      if !ok {
        rc := Abort;
        UnlockWriteSet(wset);
      }
    }

    /** validate for the coordinator: fixes the commit timestamp, then succeeds with every read covered
        by a lease and every write lock kept, or fails with every write lock released. It succeeds exactly
        if every read passes at that timestamp. */
    method Validate() returns (rc: Rc)
      requires RowsDistinct(accesses) && RowsValid(accesses)
      modifies this`minCommitTs, accesses, set a | a in accesses :: a.row
      ensures IsCommitTs(old(minCommitTs), old(BoundsOf(accesses)), minCommitTs)
      ensures rc == RcOk || rc == Abort
      ensures var rset, ts := Kind(accesses, false), minCommitTs;
              rc == RcOk <==> forall j :: 0 <= j < |rset| ==> old(Passes(rset[j], ts))
      ensures var rset := Kind(accesses, false);
              rc == RcOk ==> forall j :: 0 <= j < |rset| ==>
                Checked(rset[j], minCommitTs, old(rset[j].origRts), old(rset[j].row.Contents()))
      ensures var wset := Kind(accesses, true);
              rc == RcOk ==> forall j :: 0 <= j < |wset| ==>
                wset[j].locked == old(wset[j].locked) && wset[j].row.Contents() == old(wset[j].row.Contents())
      ensures var wset := Kind(accesses, true);
              rc == Abort ==> forall j :: 0 <= j < |wset| ==>
                Unlocked(wset[j], me, old(wset[j].locked), old(wset[j].row.Contents()))
    {
      hide Checked, Unlocked, IsCommitTs, BoundsOf, RowsDistinct, RowsValid, Kind, Passes;
      var rset, wset := GetRwSet();
      KindValid(accesses, false);
      KindValid(accesses, true);
      KindDistinct(accesses, false);
      KindDistinct(accesses, true);
      KindApart(accesses);
      ComputeCommitTs();
      rc := CheckOrUnlock(rset, wset, minCommitTs);
    }
  }

  /** The lock the access held is gone from the row, or handed over, and the flag is cleared. */
  ghost predicate Unlocked(a: Access, t: Tx, locked: bool, row: Row)
    reads a`locked, a.row
  {
    !a.locked && a.row.Contents() == if locked then Release(row, t) else row
  }

  lemma KindValid(accs: seq<Access>, write: bool)
    requires RowsValid(accs)
    ensures RowsValid(Kind(accs, write))
  {
  }

  lemma KindApart(accs: seq<Access>)
    requires RowsDistinct(accs)
    ensures var rset, wset := Kind(accs, false), Kind(accs, true);
            forall i, j :: 0 <= i < |rset| && 0 <= j < |wset| ==> rset[i].row != wset[j].row
  {
    var rset, wset := Kind(accs, false), Kind(accs, true);
    forall i, j | 0 <= i < |rset| && 0 <= j < |wset|
      ensures rset[i].row != wset[j].row
    {
      assert rset[i] in accs && wset[j] in accs && rset[i].write != wset[j].write;
    }
  }

  predicate Passes(a: Access, ts: nat)
    reads a`origRts, a`origWts, a.row
  {
    a.origRts >= ts || TryRenew(a.row.Contents(), a.origWts, ts).0
  }

  /** The read had a lease long enough, or its row's lease was extended, and by no more than needed. */
  ghost predicate Checked(a: Access, ts: nat, rts: nat, row: Row)
    reads a`origRts, a`origWts, a.row
  {
    && a.origRts >= ts
    && if rts >= ts then a.origRts == rts && a.row.Contents() == row
       else a.origRts == a.row.rts && (true, a.row.Contents()) == TryRenew(row, a.origWts, ts)
  }

  twostate predicate Same(a: Access)
    reads a`origRts, a.row
  {
    a.origRts == old(a.origRts) && a.row.Contents() == old(a.row.Contents())
  }

  twostate predicate CheckedUpTo(rset: seq<Access>, ts: nat, i: int)
    reads (set a | a in rset)`origRts, (set a | a in rset)`origWts, (set a | a in rset :: a.row)
  {
    && (forall j :: 0 <= j < i && j < |rset| ==>
          Checked(rset[j], ts, old(rset[j].origRts), old(rset[j].row.Contents())))
    && (forall j :: 0 <= j && i <= j < |rset| ==> Same(rset[j]))
  }

  lemma BoundsStep(accs: seq<Access>, i: nat)
    requires i < |accs|
    ensures BoundsOf(accs[..i + 1]) ==
            BoundsOf(accs[..i]) + {Bound(accs[i].write, accs[i].origWts, accs[i].origRts)}
  {
    forall b
      ensures b in BoundsOf(accs[..i + 1]) <==>
              b in BoundsOf(accs[..i]) + {Bound(accs[i].write, accs[i].origWts, accs[i].origRts)}
    {
      if b in BoundsOf(accs[..i]) {
        var j :| 0 <= j < i && Bound(accs[..i][j].write, accs[..i][j].origWts, accs[..i][j].origRts) == b;
        assert accs[..i + 1][j] == accs[..i][j];
      }
      assert accs[..i + 1][i] == accs[i];
      if b in BoundsOf(accs[..i + 1]) {
        var j :| 0 <= j < i + 1 &&
                 Bound(accs[..i + 1][j].write, accs[..i + 1][j].origWts, accs[..i + 1][j].origRts) == b;
        assert j < i ==> accs[..i][j] == accs[..i + 1][j];
      }
    }
  }
}

/** The mutable lock entry of a row: lock_get and lock_release with their loops, proved against the
    functions of `RowLocks`. */
module RowLock {
  import opened SerialHistory
  import opened RowLocks

  lemma {:induction false} InsertWaiterAt(ws: seq<Entry>, e: Entry, i: nat)
    requires i <= |ws|
    requires forall j :: 0 <= j < i ==> e.txn < ws[j].txn
    requires i < |ws| ==> ws[i].txn <= e.txn
    ensures InsertWaiter(ws, e) == ws[..i] + [e] + ws[i..]
  {
    if i > 0 {
      InsertWaiterAt(ws[1..], e, i - 1);
      assert ws[..i] == [ws[0]] + ws[1..][..i - 1];
    }
  }

  lemma {:induction false} RemoveOwnerAt(os: seq<Entry>, t: Ts, i: nat)
    requires i < |os| && os[i].txn == t
    requires forall j :: 0 <= j < i ==> os[j].txn != t
    ensures RemoveOwner(os, t) == os[..i] + os[i + 1..]
  {
    if i > 0 {
      RemoveOwnerAt(os[1..], t, i - 1);
      assert os[..i] == [os[0]] + os[1..][..i - 1];
    }
  }

  class RowLockEntry {
    const mode: Mode
    var lockType: LockType
    var owners: seq<Entry>
    var waiters: seq<Entry>
    var ownerCnt: nat
    var waiterCnt: nat

    function Contents(): Lock
      reads this
    {
      Lock(lockType, owners, waiters)
    }

    /** The counters are right, and the lock satisfies the invariant of every reachable row. */
    ghost predicate Valid()
      reads this
    {
      ownerCnt == |owners| && waiterCnt == |waiters| && LockOk(mode, Contents())
    }

    constructor (mode: Mode)
      ensures Valid() && this.mode == mode && Contents() == Lock(LockNone, [], [])
    {
      this.mode := mode;
      lockType := LockNone;
      owners := [];
      waiters := [];
      ownerCnt := 0;
      waiterCnt := 0;
    }

    /** Under WAIT_DIE: no owner is older than the requester. */
    method CanWait(t: Ts) returns (ok: bool)
      ensures ok == OlderThanOwners(Contents(), t)
    {
      ok := true;
      var i := 0;
      while i < |owners|
        invariant 0 <= i <= |owners| && ok
        invariant forall j :: 0 <= j < i ==> t <= owners[j].txn
      {
        if t > owners[i].txn {
          assert owners[i] in owners;
          return false;
        }
        i := i + 1;
      }
    }

    /** Puts a waiter at its place in timestamp order. */
    method InsertByTimestamp(e: Entry)
      modifies this`waiters
      ensures waiters == InsertWaiter(old(waiters), e)
    {
      var i := 0;
      while i < |waiters| && e.txn < waiters[i].txn
        invariant 0 <= i <= |waiters|
        invariant forall j :: 0 <= j < i ==> e.txn < waiters[j].txn
      {
        i := i + 1;
      }
      InsertWaiterAt(waiters, e, i);
      waiters := waiters[..i] + [e] + waiters[i..];
    }

    /** lock_get: grant, wait or abort. A lock granted next to other owners is always shared. */
    method LockGet(e: Entry) returns (rc: Rc)
      requires Valid() && e.kind != LockNone && NewHere(Contents(), e.txn)
      modifies this
      ensures Valid()
      ensures (rc, Contents()) == Get(mode, old(Contents()), e)
      ensures rc == RcOk && old(ownerCnt) > 0 ==> e.kind == LockSh
      ensures (rc == RcOk <==> e in owners) && (rc == Wait <==> e in waiters)
      ensures rc == Abort <==> Contents() == old(Contents())
    {
      ghost var l := Contents();
      GetKeepsLock(mode, l, e);
      GetTellsTheTruth(mode, l, e);
      var conflict := Conflicts(lockType, e.kind);
      if mode == WaitDie && !conflict && waiters != [] && e.txn < waiters[0].txn {
        conflict := true;
      }
      if mode == Calvin && !conflict && waiters != [] {
        conflict := true;
      }
      assert conflict == MustWait(mode, l, e);
      if conflict {
        if mode == WaitDie {
          var canWait := CanWait(e.txn);
          if canWait {
            InsertByTimestamp(e);
            waiterCnt := waiterCnt + 1;
            InsertWaiterLength(l.waiters, e);
            rc := Wait;
          } else {
            rc := Abort;
          }
        } else {
          waiters := waiters + [e];
          waiterCnt := waiterCnt + 1;
          rc := Wait;
        }
      } else {
        owners := [e] + owners;
        ownerCnt := ownerCnt + 1;
        lockType := e.kind;
        rc := RcOk;
      }
    }

    /** Takes the owner's entry out of the owner list. */
    method RemoveFromOwners(t: Ts)
      requires exists o :: o in owners && o.txn == t
      modifies this`owners
      ensures owners == RemoveOwner(old(owners), t)
    {
      var i := 0;
      while owners[i].txn != t
        invariant 0 <= i < |owners|
        invariant forall j :: 0 <= j < i ==> owners[j].txn != t
        decreases |owners| - i
      {
        i := i + 1;
        assert i < |owners| by {
          var o :| o in owners && o.txn == t;
          var k :| 0 <= k < |owners| && owners[k] == o;
        }
      }
      RemoveOwnerAt(owners, t, i);
      owners := owners[..i] + owners[i + 1..];
    }

    /** lock_release: drops the owner, then lets waiters in from the head of the queue. Afterwards
        whoever is still waiting is blocked by the new owners. */
    method LockRelease(t: Ts)
      requires Valid() && exists o :: o in owners && o.txn == t
      modifies this
      ensures Valid()
      ensures Contents() == Release(old(Contents()), t)
    {
      ghost var l := Contents();
      ReleaseKeepsLock(mode, l, t);
      RemoveFromOwners(t);
      ownerCnt := ownerCnt - 1;
      if ownerCnt == 0 {
        lockType := LockNone;
      }
      assert Contents() == Drop(l, t);
      while waiters != [] && !Conflicts(lockType, waiters[0].kind)
        invariant ownerCnt == |owners| && waiterCnt == |waiters|
        invariant Promote(Contents()) == Release(l, t)
        decreases |waiters|
      {
        var e := waiters[0];
        waiters := waiters[1..];
        owners := [e] + owners;
        ownerCnt := ownerCnt + 1;
        waiterCnt := waiterCnt - 1;
        lockType := e.kind;
      }
    }
  }

  lemma {:induction false} InsertWaiterLength(ws: seq<Entry>, e: Entry)
    ensures |InsertWaiter(ws, e)| == |ws| + 1
  {
    if ws != [] {
      InsertWaiterLength(ws[1..], e);
    }
  }
}

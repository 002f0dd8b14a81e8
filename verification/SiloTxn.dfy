/** Silo's commit for one transaction (concurrency_control/silo.cpp): split the accesses, sort
    the write set in place by primary key, lock it, validate, and install or back out.
    Validation locks without waiting (config.h:264). */
module SiloTxn {
  import opened SerialHistory
  import opened SiloRuns

  datatype Rc = RcOk | Abort

  /** `Row_silo`, mutex variant. */
  class RowSilo {
    const key: Key
    var val: Val
    var tid: Tid
    var holder: Holder

    constructor (key: Key, val: Val)
      ensures this.key == key && this.val == val && tid == 0 && holder == Free
    {
      this.key, this.val, tid, holder := key, val, 0, Free;
    }

    method TryLock(x: Tx) returns (ok: bool)
      modifies `holder
      ensures ok == (old(holder) == Free)
      ensures holder == if ok then HeldBy(x) else old(holder)
    {
      ok := holder == Free;
      if ok {
        holder := HeldBy(x);
      }
    }

    method Release()
      modifies `holder
      ensures holder == Free
    {
      holder := Free;
    }

    /** A row outside the write set must also be free for a moment; its mutex ends as it was. */
    method Validate(x: Tx, tid: Tid, inWriteSet: bool) returns (valid: bool)
      modifies `holder
      ensures holder == old(holder)
      ensures valid == (tid == this.tid && (inWriteSet || old(holder) == Free))
    {
      if inWriteSet {
        return tid == this.tid;
      }
      var ok := TryLock(x);
      if !ok {
        return false;
      }
      valid := tid == this.tid;
      Release();
    }

    method Write(data: Val, tid: Tid)
      modifies `val, `tid
      ensures val == data && this.tid == tid
    {
      val := data;
      this.tid := tid;
    }
  }

  /** One access: the row, the tid seen when it was copied, and the copy. */
  datatype Access = Access(isWrite: bool, row: RowSilo, tid: Tid, data: Val)

  // ----- sorting the write set --------------------------------------------------------------

  ghost predicate Distinct(a: seq<nat>) {
    forall i, j :: 0 <= i < j < |a| ==> a[i] != a[j]
  }

  /** The same indices, each once. */
  ghost predicate Rearranged(a: seq<nat>, b: seq<nat>) {
    |b| == |a| && Distinct(b) && forall x :: x in b <==> x in a
  }

  function SwapNext(a: seq<nat>, j: nat): (b: seq<nat>)
    requires j + 1 < |a|
    ensures |b| == |a|
  {
    a[j := a[j + 1]][j + 1 := a[j]]
  }

  lemma SwapRearranges(orig: seq<nat>, a: seq<nat>, j: nat)
    requires j + 1 < |a| && Rearranged(orig, a)
    ensures Rearranged(orig, SwapNext(a, j))
  {
    var b := SwapNext(a, j);
    forall x
      ensures x in b <==> x in a
    {
      if x in a {
        var i :| 0 <= i < |a| && a[i] == x;
        assert b[if i == j then j + 1 else if i == j + 1 then j else i] == x;
      }
    }
  }

  /** In the middle of a pass: entry `j` points to the largest key so far, and the entries behind `i`
      to keys no smaller than those before. */
  ghost predicate InPass(accesses: seq<Access>, s: seq<nat>, i: nat, j: nat) {
    && j <= i < |s| && (forall k :: 0 <= k < |s| ==> s[k] < |accesses|)
    && (forall k :: 0 <= k < j ==> accesses[s[k]].row.key <= accesses[s[j]].row.key)
    && (forall k, l :: 0 <= k <= i < l < |s| ==> accesses[s[k]].row.key <= accesses[s[l]].row.key)
  }

  lemma PassTurn(accesses: seq<Access>, s: seq<nat>, i: nat, j: nat)
    requires InPass(accesses, s, i, j) && j < i
    ensures s[j] < |accesses| && s[j + 1] < |accesses|
    ensures var swap := accesses[s[j]].row.key > accesses[s[j + 1]].row.key;
            InPass(accesses, if swap then SwapNext(s, j) else s, i, j + 1)
  {
  }

  method SwapEntries(a: array<nat>, n: nat, j: nat)
    requires j + 1 < n <= a.Length
    modifies a
    ensures a[..n] == SwapNext(old(a[..n]), j)
  {
    var tmp := a[j];
    a[j] := a[j + 1];
    a[j + 1] := tmp;
  }

  /** One pass of the bubble sort: the largest key among the first `i + 1` entries moves to `i`. */
  method BubblePass(accesses: seq<Access>, a: array<nat>, n: nat, i: nat, ghost orig: seq<nat>)
    requires i < n <= a.Length && Rearranged(orig, a[..n]) && InPass(accesses, a[..n], i, 0)
    modifies a
    ensures Rearranged(orig, a[..n]) && InPass(accesses, a[..n], i, i)
    ensures a[..n][i + 1..] == old(a[..n])[i + 1..]
  {
    hide Rearranged, InPass;
    var j := 0;
    ghost var start, cur := a[..n], a[..n];
    while j < i
      invariant 0 <= j <= i && a[..n] == cur && |cur| == n
      invariant Rearranged(orig, cur) && InPass(accesses, cur, i, j)
      invariant cur[i + 1..] == start[i + 1..]
    {
      PassTurn(accesses, cur, i, j);
      assert cur[j] == a[j] && cur[j + 1] == a[j + 1];
      if accesses[a[j]].row.key > accesses[a[j + 1]].row.key {
        SwapRearranges(orig, cur, j);
        SwapEntries(a, n, j);
        cur := SwapNext(cur, j);
      }
      j := j + 1;
    }
  }

  /** Everything behind `i` is in order, and no smaller than what comes before. */
  ghost predicate SortedBehind(accesses: seq<Access>, s: seq<nat>, i: nat) {
    && (forall k :: 0 <= k < |s| ==> s[k] < |accesses|)
    && forall k, l :: 0 <= k < l < |s| && i < l ==> accesses[s[k]].row.key <= accesses[s[l]].row.key
  }

  lemma PassSorts(accesses: seq<Access>, s: seq<nat>, s': seq<nat>, i: nat)
    requires 0 < i < |s| == |s'| && s[i + 1..] == s'[i + 1..]
    requires SortedBehind(accesses, s, i) && InPass(accesses, s', i, i)
    ensures SortedBehind(accesses, s', i - 1)
  {
    forall k, l | 0 <= k < l < |s'| && i - 1 < l
      ensures accesses[s'[k]].row.key <= accesses[s'[l]].row.key
    {
      if k > i {
        assert s'[k] == s'[i + 1..][k - i - 1] && s'[l] == s'[i + 1..][l - i - 1];
        assert s[k] == s[i + 1..][k - i - 1] && s[l] == s[i + 1..][l - i - 1];
      }
    }
  }

  /** The bubble sort of `validate_silo`, on the first `n` entries: the same indices as before,
      each once, now pointing to keys in ascending order. */
  method BubbleSort(accesses: seq<Access>, a: array<nat>, n: nat)
    requires n <= a.Length && Distinct(a[..n]) && forall i :: 0 <= i < n ==> a[i] < |accesses|
    modifies a
    ensures Rearranged(old(a[..n]), a[..n]) && (n > 1 ==> SortedBehind(accesses, a[..n], 0))
  {
    ghost var orig := a[..n];
    if n > 1 {
      assert SortedBehind(accesses, a[..n], n - 1);
      assert Rearranged(orig, a[..n]);
      hide Rearranged;
      var i := n - 1;
      while i >= 1
        invariant 0 <= i < n
        invariant Rearranged(orig, a[..n]) && SortedBehind(accesses, a[..n], i)
      {
        ghost var s := a[..n];
        BubblePass(accesses, a, n, i, orig);
        PassSorts(accesses, s, a[..n], i);
        i := i - 1;
      }
    }
  }

  // ----- the transaction --------------------------------------------------------------------

  /** `w` lists the write accesses, each once, by ascending primary key. */
  ghost predicate IsWriteSet(accesses: seq<Access>, w: seq<nat>) {
    && Distinct(w)
    && (forall i: nat :: i in w <==> i < |accesses| && accesses[i].isWrite)
    && (forall i :: 0 <= i < |w| ==> w[i] in w)
    && forall i, j :: 0 <= i < j < |w| ==> accesses[w[i]].row.key <= accesses[w[j]].row.key
  }

  lemma PrefixOfWriteSet(accesses: seq<Access>, w: seq<nat>, n: nat)
    requires IsWriteSet(accesses, w) && n <= |w|
    ensures Distinct(w[..n]) && forall i :: i in w[..n] ==> i < |accesses| && accesses[i].isWrite
    ensures w[..|w|] == w
  {
    assert forall i :: i in w[..n] ==> i in w;
  }

  lemma WriteSetEntry(accesses: seq<Access>, w: seq<nat>, i: nat)
    requires IsWriteSet(accesses, w) && i < |w|
    ensures w[i] < |accesses| && w[i] !in w[..i]
  {
    assert w[i] in w;
  }

  lemma WriteSetBounds(accesses: seq<Access>, w: seq<nat>)
    requires IsWriteSet(accesses, w)
    ensures forall j :: 0 <= j < |w| ==> w[j] < |accesses|
  {
    assert forall j :: 0 <= j < |w| ==> w[j] in w;
  }

  lemma WriteSetIsWrites(accesses: seq<Access>, w: seq<nat>)
    requires IsWriteSet(accesses, w)
    ensures forall i :: 0 <= i < |accesses| ==> (i in w <==> accesses[i].isWrite)
  {
  }

  lemma DistinctEntry(w: seq<nat>, i: nat)
    requires Distinct(w) && i < |w|
    ensures w[i] !in w[..i] && w[..i + 1] == w[..i] + [w[i]]
  {
  }

  /** `r` lists the other accesses. */
  ghost predicate IsReadSet(accesses: seq<Access>, r: seq<nat>) {
    forall i: nat :: i in r <==> i < |accesses| && !accesses[i].isWrite
  }

  /** Transaction `x` holds exactly the rows of the listed accesses. */
  ghost predicate Holds(x: Tx, accesses: seq<Access>, w: seq<nat>)
    reads (set i | 0 <= i < |accesses| :: accesses[i].row)`holder
  {
    forall i :: 0 <= i < |accesses| ==> (accesses[i].row.holder == HeldBy(x) <==> i in w)
  }

  /** The access still sees the version it copied and, if only read, an unlocked row. */
  ghost predicate Checked(a: Access)
    reads a.row
  {
    a.row.tid == a.tid && (a.isWrite || a.row.holder == Free)
  }

  class SiloTxn {
    const id: Tx
    const preAbort: bool
    var accesses: seq<Access>
    const writeSet: array<nat>
    var numLocks: nat
    var maxTid: Tid
    /** The rows accessed. */
    ghost var rows: set<RowSilo>

    constructor (id: Tx, preAbort: bool)
      ensures this.id == id && accesses == [] && numLocks == 0 && writeSet.Length == 100 && fresh(writeSet) && Valid()
    {
      this.id, this.preAbort := id, preAbort;
      accesses, numLocks, maxTid, rows := [], 0, 0, {};
      writeSet := new nat[100];
    }

    /** Each row is accessed once, and the write set fits its array. */
    ghost predicate Valid()
      reads `accesses, `rows
    {
      && |accesses| <= writeSet.Length
      && (forall i :: 0 <= i < |accesses| ==> accesses[i].row in rows)
      && (forall r :: r in rows ==> exists i :: 0 <= i < |accesses| && accesses[i].row == r)
      && forall i, j :: 0 <= i < j < |accesses| ==> accesses[i].row != accesses[j].row
    }

    lemma WriteSetFits()
      requires Valid()
      ensures |accesses| <= writeSet.Length
    {
    }

    lemma RowListed(k: nat)
      requires Valid() && k < |accesses|
      ensures accesses[k].row in rows
    {
    }

    /** Splits the accesses. */
    method SplitAccesses() returns (wrCnt: nat, readSet: seq<nat>)
      requires Valid()
      modifies writeSet
      ensures wrCnt <= |accesses| && Distinct(writeSet[..wrCnt]) && IsReadSet(accesses, readSet)
      ensures forall i: nat :: i in writeSet[..wrCnt] <==> i < |accesses| && accesses[i].isWrite
    {
      wrCnt, readSet := 0, [];
      for rid := 0 to |accesses|
        invariant wrCnt <= rid
        invariant Distinct(writeSet[..wrCnt])
        invariant forall i: nat :: i in writeSet[..wrCnt] <==> i < rid && accesses[i].isWrite
        invariant forall i: nat :: i in readSet <==> i < rid && !accesses[i].isWrite
      {
        if accesses[rid].isWrite {
          ghost var before := writeSet[..wrCnt];
          writeSet[wrCnt] := rid;
          wrCnt := wrCnt + 1;
          assert writeSet[..wrCnt] == before + [rid];
        } else {
          readSet := readSet + [rid];
        }
      }
    }

    /** Splits the accesses and sorts the write set; `w` is what the array then holds. */
    method SortWriteSet() returns (w: seq<nat>, readSet: seq<nat>)
      requires Valid()
      modifies writeSet
      ensures |w| <= |accesses| && |w| <= writeSet.Length && writeSet[..|w|] == w
      ensures IsWriteSet(accesses, w) && IsReadSet(accesses, readSet)
    {
      var wrCnt;
      wrCnt, readSet := SplitAccesses();
      assert forall i :: 0 <= i < wrCnt ==> writeSet[i] in writeSet[..wrCnt];
      BubbleSort(accesses, writeSet, wrCnt);
      w := writeSet[..wrCnt];
    }

    /** The accesses whose row still has the tid they copied. */
    method Unchanged(w: seq<nat>) returns (ok: bool)
      requires IsWriteSet(accesses, w) || IsReadSet(accesses, w)
      ensures ok == forall i :: i in w ==> accesses[i].row.tid == accesses[i].tid
    {
      assert forall j :: 0 <= j < |w| ==> w[j] in w;
      for i := 0 to |w|
        invariant forall j :: 0 <= j < i ==> accesses[w[j]].row.tid == accesses[w[j]].tid
      {
        if accesses[w[i]].row.tid != accesses[w[i]].tid {
          return false;
        }
      }
      return true;
    }

    /** Rows of other holders have not changed hands. */
    static twostate predicate OthersKept(x: Tx, rs: set<RowSilo>)
      reads rs`holder
    {
      forall r :: r in rs && r.holder != HeldBy(x) ==> r.holder == old(r.holder)
    }

    /** Locks the next row of the write set, if nobody holds it, and compares its tid. */
    method LockNext(w: seq<nat>, i: nat) returns (ok: bool, same: bool)
      requires Valid() && IsWriteSet(accesses, w) && i < |w| && numLocks == i && Holds(id, accesses, w[..i])
      modifies `numLocks, rows`holder
      ensures numLocks == (if ok then i + 1 else i) && Holds(id, accesses, w[..numLocks]) && OthersKept(id, rows)
      ensures w[i] < |accesses| && same == (accesses[w[i]].row.tid == accesses[w[i]].tid)
      ensures ok <==> old(accesses[w[i]].row.holder) == Free
    {
      WriteSetEntry(accesses, w, i);
      var k := w[i];
      ok := accesses[k].row.TryLock(id);
      assert forall j :: 0 <= j < |accesses| && j != k ==> accesses[j].row != accesses[k].row;
      if ok {
        numLocks := numLocks + 1;
        assert w[..i + 1] == w[..i] + [k];
      }
      same := accesses[k].row.tid == accesses[k].tid;
    }

    /** Locks the write set in key order. Whatever happens, exactly the first `numLocks` rows of
        it are then held, and no row of another holder has changed hands. */
    method LockWriteSet(w: seq<nat>) returns (rc: Rc)
      requires Valid() && IsWriteSet(accesses, w) && Holds(id, accesses, [])
      modifies `numLocks, rows`holder
      ensures numLocks <= |w| && Holds(id, accesses, w[..numLocks]) && OthersKept(id, rows)
      ensures rc == RcOk ==> numLocks == |w|
      ensures rc == RcOk <==> forall j :: 0 <= j < |w| ==>
                accesses[w[j]].row.tid == accesses[w[j]].tid && old(accesses[w[j]].row.holder) == Free
    {
      hide Holds, IsWriteSet, Valid;
      WriteSetBounds(accesses, w);
      assert w[..0] == [];
      numLocks := 0;
      for i := 0 to |w|
        invariant numLocks == i && Holds(id, accesses, w[..i]) && OthersKept(id, rows)
        invariant forall j :: 0 <= j < i ==>
                    accesses[w[j]].row.tid == accesses[w[j]].tid && old(accesses[w[j]].row.holder) == Free
      {
        NotLockedYet(w, i);
        RowListed(w[i]);
        var ok, same := LockNext(w, i);
        if !ok || !same {
          return Abort;
        }
      }
      return RcOk;
    }

    lemma NotLockedYet(w: seq<nat>, i: nat)
      requires IsWriteSet(accesses, w) && i < |w| && Holds(id, accesses, w[..i])
      ensures w[i] < |accesses| && accesses[w[i]].row.holder != HeldBy(id)
    {
      assert w[i] in w;
    }

    /** `validate` on each listed access, carrying on with the largest tid seen. */
    method ValidateRows(w: seq<nat>, inWriteSet: bool, max0: Tid) returns (ok: bool, max: Tid)
      requires Valid() && forall i :: i in w ==> i < |accesses| && accesses[i].isWrite == inWriteSet
      modifies rows`holder
      ensures forall r :: r in rows ==> r.holder == old(r.holder)
      ensures ok == forall i :: i in w ==> Checked(accesses[i])
      ensures max0 <= max && (ok ==> forall i :: i in w ==> accesses[i].tid <= max)
      ensures max == max0 || exists i :: i in w && accesses[i].tid == max
    {
      max := max0;
      assert forall j :: 0 <= j < |w| ==> w[j] in w;
      for i := 0 to |w|
        invariant forall r :: r in rows ==> r.holder == old(r.holder)
        invariant max0 <= max && (max == max0 || exists j :: j in w && accesses[j].tid == max)
        invariant forall j :: 0 <= j < i ==> accesses[w[j]].tid <= max && Checked(accesses[w[j]])
      {
        var access := accesses[w[i]];
        var success := access.row.Validate(id, access.tid, inWriteSet);
        if !success {
          assert !Checked(access);
          return false, max;
        }
        if access.tid > max {
          max := access.tid;
        }
      }
      return true, max;
    }

    /** Validates the read set, then the write set. */
    method ValidateAccesses(w: seq<nat>, readSet: seq<nat>) returns (rc: Rc)
      requires Valid() && IsWriteSet(accesses, w) && IsReadSet(accesses, readSet)
      modifies `maxTid, rows`holder
      ensures forall r :: r in rows ==> r.holder == old(r.holder)
      ensures rc == RcOk <==> forall i :: 0 <= i < |accesses| ==> Checked(accesses[i])
      ensures rc == RcOk ==> forall i :: 0 <= i < |accesses| ==> accesses[i].tid <= maxTid
      ensures rc == RcOk ==> maxTid == 0 || exists i :: 0 <= i < |accesses| && accesses[i].tid == maxTid
    {
      assert forall i :: 0 <= i < |accesses| ==> i in w || i in readSet;
      var ok, max := ValidateRows(readSet, false, 0);
      if !ok {
        return Abort;
      }
      ok, max := ValidateRows(w, true, max);
      if !ok {
        return Abort;
      }
      maxTid := max;
      return RcOk;
    }

    /** Locks the write set, then validates everything. */
    method LockAndValidate(w: seq<nat>, readSet: seq<nat>) returns (rc: Rc)
      requires Valid() && IsWriteSet(accesses, w) && IsReadSet(accesses, readSet) && Holds(id, accesses, [])
      modifies `numLocks, `maxTid, rows`holder
      ensures Valid() && numLocks <= |w| && Holds(id, accesses, w[..numLocks])
      ensures OthersKept(id, rows)
      ensures rc == RcOk ==> numLocks == |w|
      ensures rc == RcOk ==> forall i :: 0 <= i < |accesses| ==> Checked(accesses[i]) && accesses[i].tid <= maxTid
      ensures rc == RcOk <==> forall i :: 0 <= i < |accesses| ==>
                accesses[i].row.tid == accesses[i].tid && old(accesses[i].row.holder) == Free
    {
      hide Holds, IsWriteSet, IsReadSet, Valid;
      rc := LockWriteSet(w);
      AllWrites(w);
      if rc == RcOk {
        label Locked:
        SameWhereRead(w);
        rc := ValidateAccesses(w, readSet);
        SameHolders@Locked(w[..numLocks]);
      }
    }

    lemma AllWrites(w: seq<nat>)
      requires IsWriteSet(accesses, w)
      ensures forall j :: 0 <= j < |w| ==> w[j] < |accesses| && accesses[w[j]].isWrite
      ensures forall i :: 0 <= i < |accesses| && accesses[i].isWrite ==> i in w
    {
      assert forall j :: 0 <= j < |w| ==> w[j] in w;
    }

    /** A row that is only read is as it was before the write set was locked. */
    twostate lemma SameWhereRead(w: seq<nat>)
      requires Valid() && old(accesses) == accesses && old(rows) == rows && numLocks == |w| && IsWriteSet(accesses, w)
      requires Holds(id, accesses, w[..numLocks]) && OthersKept(id, rows)
      ensures forall i :: 0 <= i < |accesses| && !accesses[i].isWrite ==>
                accesses[i].row.holder == old(accesses[i].row.holder)
    {
      assert w[..numLocks] == w;
    }

    /** `validate_silo`. On every path exactly the rows of `writeSet[..numLocks]` are held by this
        transaction and no other row has changed hands; success means that the whole write set is
        locked and that every row accessed is the version that was copied. It succeeds exactly if every
        row accessed carries the tid that was copied and is free when validation starts. */
    method ValidateSilo() returns (rc: Rc)
      requires Valid() && Holds(id, accesses, [])
      modifies `numLocks, `maxTid, writeSet, rows`holder
      ensures Valid() && numLocks <= |accesses| && Holds(id, accesses, writeSet[..numLocks])
      ensures Distinct(writeSet[..numLocks])
      ensures forall i :: i in writeSet[..numLocks] ==> i < |accesses| && accesses[i].isWrite
      ensures OthersKept(id, rows)
      ensures rc == RcOk ==> IsWriteSet(accesses, writeSet[..numLocks])
      ensures rc == RcOk ==> forall i :: 0 <= i < |accesses| ==> Checked(accesses[i]) && accesses[i].tid <= maxTid
      ensures rc == RcOk <==> forall i :: 0 <= i < |accesses| ==>
                accesses[i].row.tid == accesses[i].tid && old(accesses[i].row.holder) == Free
    {
      hide Holds, Checked, Valid, IsWriteSet, IsReadSet;
      var w, readSet := SortWriteSet();
      numLocks := 0;
      assert writeSet[..0] == [];
      SameHolders([]);
      if preAbort {
        var writesOk := Unchanged(w);
        var readsOk := Unchanged(readSet);
        if !writesOk || !readsOk {
          return Abort;
        }
      }
      rc := LockAndValidate(w, readSet);
      assert writeSet[..numLocks] == w[..numLocks];
      PrefixOfWriteSet(accesses, w, numLocks);
    }

    twostate lemma SameHolders(w: seq<nat>)
      requires old(Valid()) && Valid() && old(accesses) == accesses && old(Holds(id, accesses, w))
      requires forall r :: r in rows ==> r.holder == old(r.holder)
      ensures Holds(id, accesses, w)
    {
    }

    /** Installs the copy on commit and releases the row, touching no other. */
    method FinishRow(rc: Rc, commitTid: Tid, k: nat)
      requires Valid() && k < |accesses|
      modifies accesses[k].row
      ensures accesses[k].row.holder == Free && Left(rc == RcOk, accesses[k], commitTid)
      ensures forall j :: 0 <= j < |accesses| && j != k ==> accesses[j].row != accesses[k].row
    {
      var access := accesses[k];
      if rc == RcOk {
        access.row.Write(access.data, commitTid);
      }
      access.row.Release();
    }

    /** `finish`. Releases every row this transaction holds and no other; on commit each of them
        first receives its copy and the commit tid, on abort nothing is written. */
    method Finish(rc: Rc, commitTid: Tid)
      requires Valid() && numLocks <= |accesses| && Holds(id, accesses, writeSet[..numLocks])
      requires Distinct(writeSet[..numLocks])
      requires forall i :: i in writeSet[..numLocks] ==> i < |accesses|
      requires rc == RcOk ==> IsWriteSet(accesses, writeSet[..numLocks])
      modifies `numLocks, rows
      ensures Valid() && numLocks == 0 && Holds(id, accesses, [])
      ensures forall i :: 0 <= i < |accesses| ==>
                accesses[i].row.holder == if i in old(writeSet[..numLocks]) then Free else old(accesses[i].row.holder)
      ensures forall i :: 0 <= i < |accesses| ==> Left(rc == RcOk && accesses[i].isWrite, accesses[i], commitTid)
    {
      hide IsWriteSet, Distinct, Valid;
      WriteSetFits();
      ghost var w := writeSet[..numLocks];
      if rc == RcOk {
        WriteSetIsWrites(accesses, w);
      }
      var n := numLocks;
      for i := 0 to n
        invariant forall j :: 0 <= j < |accesses| ==>
                    accesses[j].row.holder == if j in w[..i] then Free else old(accesses[j].row.holder)
        invariant forall j :: 0 <= j < |accesses| ==> Left(rc == RcOk && j in w[..i], accesses[j], commitTid)
      {
        assert writeSet[i] == w[i] && w[i] in w;
        DistinctEntry(w, i);
        RowListed(w[i]);
        FinishRow(rc, commitTid, writeSet[i]);
      }
      assert w[..n] == w;
      numLocks := 0;
    }

    /** The row holds the copy and the commit tid if it was installed, else what it held before. */
    twostate predicate Left(installed: bool, a: Access, tid: Tid)
      reads a.row
    {
      if installed then a.row.val == a.data && a.row.tid == tid
      else a.row.val == old(a.row.val) && a.row.tid == old(a.row.tid)
    }
  }
}

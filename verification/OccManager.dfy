/** The central manager of optimistic validation with its two lists (concurrency_control/occ.cpp): each
    method is one critical section or the scan between two of them, proved against `Occ`. */
module OccManager {
  import opened SerialHistory
  import opened Occ

  class OptCC {
    var clock: nat
    var active: seq<Act>
    var activeLen: nat
    var history: seq<His>
    var hisLen: nat

    ghost predicate Consistent()
      reads this
    {
      activeLen == |active| && hisLen == |history| && HistoryOk(clock, history)
    }

    constructor (clock: nat)
      ensures Consistent() && this.clock == clock && active == [] && history == []
    {
      this.clock, active, activeLen, history, hisLen := clock, [], 0, [], 0;
    }

    /** The next value of the one timestamp source. */
    method GetTs() returns (ts: nat)
      modifies this`clock
      ensures ts == clock == old(clock) + 1
    {
      clock := clock + 1;
      ts := clock;
    }

    /** test_valid: no row in common. */
    static method TestValid(set1: seq<Key>, set2: seq<Key>) returns (ok: bool)
      ensures ok == Disjoint(set1, set2)
    {
      for i := 0 to |set1|
        invariant forall k :: 0 <= k < i ==> set1[k] !in set2
      {
        for j := 0 to |set2|
          invariant forall k :: 0 <= k < j ==> set1[i] != set2[k]
        {
          if set1[i] == set2[j] {
            assert set1[i] in set1;
            return false;
          }
        }
      }
      ok := true;
    }

    /** The first critical section: the finish number and both lists as they are now, after which a
        transaction that writes is active. */
    method TakeSnapshot(x: Tx, wset: seq<Key>) returns (finish: nat, acts: seq<Act>, his: seq<His>)
      requires Consistent()
      modifies this
      ensures Consistent() && finish == clock == old(clock) + 1
      ensures acts == old(active) && his == history == old(history)
      ensures active == if wset == [] then old(active) else [Act(x, wset)] + old(active)
    {
      finish := GetTs();
      acts := [];
      var n := 0;
      while n < |active|
        invariant 0 <= n <= |active| && acts == active[..n]
        invariant active == old(active) && history == old(history) && clock == finish
        invariant activeLen == |active| && hisLen == |history|
      {
        acts := acts + [active[n]];
        n := n + 1;
      }
      if wset != [] {
        activeLen := activeLen + 1;
        active := [Act(x, wset)] + active;
      }
      his := history;
    }

    /** The scan outside the critical sections. */
    static method Scan(start: nat, finish: nat, acts: seq<Act>, his: seq<His>, rset: seq<Key>, wset: seq<Key>)
      returns (valid: bool)
      ensures valid == Valid(his, acts, start, finish, rset, wset)
    {
      valid := true;
      if finish > start {
        var i := 0;
        while i < |his| && his[i].tn > finish
          invariant 0 <= i <= |his| && SkipNewer(his[i..], finish) == SkipNewer(his, finish)
        {
          i := i + 1;
        }
        ghost var window := his[i..];
        while i < |his| && his[i].tn > start
          invariant 0 <= i <= |his|
          invariant HistoryValid(his[i..], start, rset) == HistoryValid(window, start, rset)
        {
          valid := TestValid(his[i].wset, rset);
          if !valid {
            return;
          }
          i := i + 1;
        }
      }
      for i := 0 to |acts|
        invariant forall k :: 0 <= k < i ==> Disjoint(acts[k].wset, rset) && Disjoint(acts[k].wset, wset)
      {
        valid := TestValid(acts[i].wset, rset);
        if valid {
          valid := TestValid(acts[i].wset, wset);
        }
        if !valid {
          return;
        }
      }
      valid := true;
    }

    /** Unlinks a transaction from the active list; tells whether it was there. */
    method Unlink(x: Tx) returns (found: bool)
      requires Consistent()
      modifies this`active, this`activeLen
      ensures Consistent() && active == RemoveActive(old(active), x)
      ensures found <==> exists a :: a in old(active) && a.tx == x
    {
      var i := 0;
      while i < |active| && active[i].tx != x
        invariant 0 <= i <= |active|
        invariant forall k :: 0 <= k < i ==> active[k].tx != x
      {
        i := i + 1;
      }
      found := i < |active|;
      if found {
        RemoveAt(active, x, i);
        active := active[..i] + active[i + 1..];
        activeLen := activeLen - 1;
      } else {
        RemoveNone(active, x);
      }
    }

    /** central_validate: snapshot, scan, and on failure leave the active list at once. */
    method CentralValidate(x: Tx, start: nat, rset: seq<Key>, wset: seq<Key>) returns (ok: bool)
      requires Consistent()
      modifies this
      ensures Consistent() && history == old(history) && clock == old(clock) + 1
      ensures ok == Valid(old(history), old(active), start, clock, rset, wset)
      ensures var joined := if wset == [] then old(active) else [Act(x, wset)] + old(active);
              active == if ok then joined else RemoveActive(joined, x)
    {
      var finish, acts, his := TakeSnapshot(x, wset);
      ok := Scan(start, finish, acts, his, rset, wset);
      if !ok {
        var _ := Unlink(x);
      }
    }

    /** central_finish: a writer leaves the active list and, if it commits and was there, enters the
        history with a fresh number. */
    method CentralFinish(x: Tx, wset: seq<Key>, commit: bool)
      requires Consistent()
      modifies this
      ensures Consistent()
      ensures active == if wset == [] then old(active) else RemoveActive(old(active), x)
      ensures if wset != [] && commit && (exists a :: a in old(active) && a.tx == x)
              then clock == old(clock) + 1 && history == [His(x, wset, clock)] + old(history)
              else clock == old(clock) && history == old(history)
    {
      if wset != [] {
        var found := Unlink(x);
        if found && commit {
          var tn := GetTs();
          history := [His(x, wset, tn)] + history;
          hisLen := hisLen + 1;
        }
      }
    }
  }

  lemma {:induction false} RemoveAt(acts: seq<Act>, x: Tx, i: nat)
    requires i < |acts| && acts[i].tx == x && forall k :: 0 <= k < i ==> acts[k].tx != x
    ensures RemoveActive(acts, x) == acts[..i] + acts[i + 1..]
  {
    if i > 0 {
      RemoveAt(acts[1..], x, i - 1);
      assert acts[..i] == [acts[0]] + acts[1..][..i - 1];
    }
  }

  lemma {:induction false} RemoveNone(acts: seq<Act>, x: Tx)
    requires forall k :: 0 <= k < |acts| ==> acts[k].tx != x
    ensures RemoveActive(acts, x) == acts
  {
    if acts != [] {
      RemoveNone(acts[1..], x);
    }
  }
}

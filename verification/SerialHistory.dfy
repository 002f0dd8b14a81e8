/** Vocabulary shared by the protocol models: timestamps, rows, and what a serial
    execution of a list of transactions is. */
module SerialHistory {

  const UINT64_MAX: nat := 0xFFFF_FFFF_FFFF_FFFF

  /** `ts_t`: a 64-bit timestamp. */
  type Ts = t: nat | t <= UINT64_MAX

  type Key = nat
  type Val = int
  type Store = map<Key, Val>

  /** The values a transaction saw and the values it left behind. */
  datatype Txn = Txn(seen: Store, wrote: Store)

  /** The store after running the transactions one after the other. */
  function Replay(init: Store, h: seq<Txn>): Store {
    if h == [] then init else Replay(init, h[..|h| - 1]) + h[|h| - 1].wrote
  }

  /** Every transaction saw exactly what a serial execution in list order would have shown it. */
  ghost predicate IsSerial(init: Store, h: seq<Txn>) {
    forall i, k :: 0 <= i < |h| && k in h[i].seen ==>
      k in Replay(init, h[..i]) && Replay(init, h[..i])[k] == h[i].seen[k]
  }

  /** A row holds what the last transaction writing it left. */
  lemma {:induction false} ReplayLastWriter(init: Store, h: seq<Txn>, k: Key, j: nat)
    requires j < |h| && k in h[j].wrote
    requires forall i :: j < i < |h| ==> k !in h[i].wrote
    ensures k in Replay(init, h) && Replay(init, h)[k] == h[j].wrote[k]
  {
    if j < |h| - 1 {
      ReplayLastWriter(init, h[..|h| - 1], k, j);
    }
  }

  /** A row nobody writes keeps its initial value. */
  lemma {:induction false} ReplayUntouched(init: Store, h: seq<Txn>, k: Key)
    requires k in init
    requires forall i :: 0 <= i < |h| ==> k !in h[i].wrote
    ensures k in Replay(init, h) && Replay(init, h)[k] == init[k]
  {
    if h != [] {
      ReplayUntouched(init, h[..|h| - 1], k);
    }
  }

  /** A number above everything in a finite set. */
  lemma {:induction false} Beyond(s: set<nat>) returns (n: nat)
    ensures forall x :: x in s ==> x < n
  {
    n := 0;
    if s != {} {
      var x :| x in s;
      var m := Beyond(s - {x});
      n := if x < m then m else x + 1;
      assert s == s - {x} + {x};
    }
  }
}

/** Interleaving the terminators of transactions with their reads and writes: the in-place backtracking
    enumeration of benchmarks/creator.cpp delivers every legal interleaving exactly once. */
module Interleavings {

  datatype Type = Unknown | Read | Write | Commit | Abort | ScanOdd

  datatype Action = Action(kind: Type, trans: nat, item: nat)

  /** A transaction's end. */
  predicate IsDtl(a: Action) {
    a.kind == Commit || a.kind == Abort
  }

  /** What a terminator may be moved over. */
  predicate IsDml(a: Action) {
    a.kind == Read || a.kind == Write || a.kind == ScanOdd
  }

  predicate CanMove(a: seq<Action>, i: nat)
    requires i < |a|
  {
    i > 0 && a[i - 1].trans != a[i].trans && IsDml(a[i - 1])
  }

  function Swapped(a: seq<Action>, i: nat): (b: seq<Action>)
    requires 0 < i < |a|
    ensures |b| == |a|
  {
    a[i - 1 := a[i]][i := a[i - 1]]
  }

  // ----- what the recursion delivers --------------------------------------------------------

  /** Everything delivered with the terminators up to `pos` in place: first with the one at `pos` where
      it is, then with it moved forward step by step. */
  function Deliver(a: seq<Action>, pos: nat): seq<seq<Action>>
    requires pos <= |a|
    decreases |a| - pos, |a| + 1
  {
    if pos == |a| then [a] else Deliver(a, pos + 1) + Moved(a, pos, pos)
  }

  /** What is delivered while the terminator now at `i` moves further forward. */
  function Moved(a: seq<Action>, pos: nat, i: nat): seq<seq<Action>>
    requires i <= pos < |a|
    decreases |a| - pos, i
  {
    if CanMove(a, i) then Deliver(Swapped(a, i), pos + 1) + Moved(Swapped(a, i), pos, i - 1) else []
  }

  // ----- which interleavings these are ------------------------------------------------------

  function Dmls(z: seq<Action>): seq<Action> {
    if z == [] then [] else
      var n := |z| - 1;
      if IsDtl(z[n]) then Dmls(z[..n]) else Dmls(z[..n]) + [z[n]]
  }

  function Dtls(z: seq<Action>): seq<Action> {
    if z == [] then [] else
      var n := |z| - 1;
      if IsDtl(z[n]) then Dtls(z[..n]) + [z[n]] else Dtls(z[..n])
  }

  /** No terminator comes before an action of its own transaction. */
  ghost predicate EndsLast(z: seq<Action>) {
    forall i, j :: 0 <= i < j < |z| && IsDtl(z[i]) && !IsDtl(z[j]) ==> z[i].trans != z[j].trans
  }

  /** `z` without its last `n` terminators. */
  function Erase(z: seq<Action>, n: nat): seq<Action> {
    if n == 0 || z == [] then z else
      var m := |z| - 1;
      if IsDtl(z[m]) then Erase(z[..m], n - 1) else Erase(z[..m], n) + [z[m]]
  }

  /** The last `n` terminators of `z`, or all of them. */
  function LastDtls(z: seq<Action>, n: nat): seq<Action> {
    if n == 0 || z == [] then [] else
      var m := |z| - 1;
      if IsDtl(z[m]) then LastDtls(z[..m], n - 1) + [z[m]] else LastDtls(z[..m], n)
  }

  /** None of the last `n` terminators comes before an action of its own transaction. */
  ghost predicate LastEndLast(z: seq<Action>, n: nat) {
    if n == 0 || z == [] then true else
      var m := |z| - 1;
      if IsDtl(z[m]) then LastEndLast(z[..m], n - 1)
      else LastEndLast(z[..m], n) && forall x :: x in LastDtls(z[..m], n) ==> x.trans != z[m].trans
  }

  /** The interleavings reachable from `a` by moving the terminators from `pos` on. */
  ghost predicate Reachable(a: seq<Action>, pos: nat, z: seq<Action>)
    requires pos <= |a|
  {
    && Erase(z, |a| - pos) == a[..pos] && LastDtls(z, |a| - pos) == a[pos..]
    && LastEndLast(z, |a| - pos)
  }

  /** Erasing one more terminator: remove the last one of what is left. */
  lemma {:induction false} EraseOneMore(z: seq<Action>, n: nat)
    ensures Erase(z, n + 1) == Erase(Erase(z, n), 1)
    ensures LastDtls(z, n + 1) == LastDtls(Erase(z, n), 1) + LastDtls(z, n)
  {
    if z != [] && n > 0 {
      var m := |z| - 1;
      if IsDtl(z[m]) {
        EraseOneMore(z[..m], n - 1);
      } else {
        EraseOneMore(z[..m], n);
        var e := Erase(z[..m], n) + [z[m]];
        assert e[..|e| - 1] == Erase(z[..m], n);
      }
    }
  }

  lemma {:induction false} LastEndLastOneMore(z: seq<Action>, n: nat)
    ensures LastEndLast(z, n + 1) <==> LastEndLast(z, n) && LastEndLast(Erase(z, n), 1)
  {
    if z != [] && n > 0 {
      var m := |z| - 1;
      if IsDtl(z[m]) {
        LastEndLastOneMore(z[..m], n - 1);
      } else {
        LastEndLastOneMore(z[..m], n);
        EraseOneMore(z[..m], n);
        var e := Erase(z[..m], n) + [z[m]];
        assert e[..|e| - 1] == Erase(z[..m], n);
      }
    }
  }

  /** Putting a terminator into a sequence so that only actions of other transactions follow it. */
  ghost predicate Placed(w: seq<Action>, i: nat, x: Action, base: seq<Action>)  {
    && i <= |base| && w == base[..i] + [x] + base[i..]
    && forall j :: i <= j < |base| ==> !IsDtl(base[j]) && base[j].trans != x.trans
  }

  /** Erasing the last terminator of such a sequence gives back the rest. */
  lemma {:induction false} ErasePlaced(w: seq<Action>, i: nat, x: Action, base: seq<Action>)
    requires IsDtl(x) && Placed(w, i, x, base)
    ensures Erase(w, 1) == base && LastDtls(w, 1) == [x] && LastEndLast(w, 1)
    decreases |base|
  {
    hide LastDtls, Erase, LastEndLast;
    var m := |w| - 1;
    if i == |base| {
      assert w[m] == x && w[..m] == base;
      LastIsDtl(w);
    } else {
      var n := |base| - 1;
      PlacedOneShorter(w, i, x, base);
      ErasePlaced(w[..m], i, x, base[..n]);
      LastIsDml(w);
      assert base == base[..n] + [base[n]];
    }
  }

  lemma PlacedOneShorter(w: seq<Action>, i: nat, x: Action, base: seq<Action>)
    requires Placed(w, i, x, base) && i < |base|
    ensures var n := |base| - 1; w != [] && w[|w| - 1] == base[n] && Placed(w[..|w| - 1], i, x, base[..n])
  {
    var m, n := |w| - 1, |base| - 1;
    assert w[..m] == base[..n][..i] + [x] + base[..n][i..];
  }

  /** A sequence whose last terminator is `x`, behind its transaction's actions, is of that form. */
  lemma {:induction false} PlacedFromErase(w: seq<Action>, x: Action) returns (i: nat)
    requires LastDtls(w, 1) == [x] && LastEndLast(w, 1)
    ensures Placed(w, i, x, Erase(w, 1)) && IsDtl(x)
  {
    var m := |w| - 1;
    if IsDtl(w[m]) {
      i := m;
      PlacedAtEnd(w, x);
    } else {
      i := PlacedFromErase(w[..m], x);
      PlacedOneLonger(w, i, x);
    }
  }

  lemma LastIsDtl(w: seq<Action>)
    requires w != [] && IsDtl(w[|w| - 1])
    ensures Erase(w, 1) == w[..|w| - 1] && LastDtls(w, 1) == [w[|w| - 1]] && LastEndLast(w, 1)
  {
  }

  lemma LastIsDml(w: seq<Action>)
    requires w != [] && !IsDtl(w[|w| - 1])
    ensures var m := |w| - 1;
            && Erase(w, 1) == Erase(w[..m], 1) + [w[m]] && LastDtls(w, 1) == LastDtls(w[..m], 1)
            && (LastEndLast(w, 1) <==>
                  LastEndLast(w[..m], 1) && forall x :: x in LastDtls(w, 1) ==> x.trans != w[m].trans)
  {
  }

  lemma PlacedAtEnd(w: seq<Action>, x: Action)
    requires w != [] && IsDtl(w[|w| - 1]) && LastDtls(w, 1) == [x]
    ensures Placed(w, |w| - 1, x, Erase(w, 1)) && IsDtl(x)
  {
    hide LastDtls, Erase, LastEndLast;
    LastIsDtl(w);
    var m := |w| - 1;
    assert [x][0] == [w[m]][0];
    assert w == w[..m] + [x] + [];
  }

  lemma PlacedOneLonger(w: seq<Action>, i: nat, x: Action)
    requires w != [] && !IsDtl(w[|w| - 1]) && LastDtls(w, 1) == [x] && LastEndLast(w, 1)
    requires Placed(w[..|w| - 1], i, x, Erase(w[..|w| - 1], 1))
    ensures Placed(w, i, x, Erase(w, 1))
  {
    hide LastDtls, Erase, LastEndLast, Placed;
    LastIsDml(w);
    var m := |w| - 1;
    assert x in LastDtls(w, 1);
    assert w == w[..m] + [w[m]];
    PlacedAppend(w[..m], i, x, Erase(w[..m], 1), w[m]);
  }

  lemma PlacedAppend(w: seq<Action>, i: nat, x: Action, base: seq<Action>, y: Action)
    requires Placed(w, i, x, base) && !IsDtl(y) && y.trans != x.trans
    ensures Placed(w + [y], i, x, base + [y])
  {
    assert (base + [y])[..i] == base[..i] && (base + [y])[i..] == base[i..] + [y];
  }

  /** The position is determined by the sequence. */
  lemma PlacedUnique(w: seq<Action>, i: nat, j: nat, x: Action, base: seq<Action>)
    requires IsDtl(x) && Placed(w, i, x, base) && Placed(w, j, x, base)
    ensures i == j
  {
    assert w[i] == x && w[j] == x;
  }

  // ----- the delivered sequences are the reachable ones -------------------------------------

  /** The terminator at `pos` moved to `i`. */
  function MoveTo(a: seq<Action>, pos: nat, i: nat): (b: seq<Action>)
    requires i <= pos < |a|
    ensures |b| == |a|
  {
    a[..i] + [a[pos]] + a[i..pos] + a[pos + 1..]
  }

  lemma MoveToStep(a: seq<Action>, pos: nat, i: nat)
    requires 0 < i <= pos < |a|
    ensures Swapped(MoveTo(a, pos, i), i) == MoveTo(a, pos, i - 1)
    ensures MoveTo(a, pos, i)[i] == a[pos] && MoveTo(a, pos, i)[i - 1] == a[i - 1]
  {
  }

  /** Reachable: with the terminator at `pos` moved to some place, one terminator less to move. */
  lemma ReachableDown(a: seq<Action>, pos: nat, z: seq<Action>) returns (i: nat)
    requires pos < |a| && Reachable(a, pos, z)
    ensures i <= pos && Reachable(MoveTo(a, pos, i), pos + 1, z)
    ensures Placed(MoveTo(a, pos, i)[..pos + 1], i, a[pos], a[..pos])
  {
    hide LastDtls, Erase, LastEndLast;
    var n := |a| - pos - 1;
    var w := Erase(z, n);
    EraseOneMore(z, n);
    LastEndLastOneMore(z, n);
    LastDtlsShort(w, 1);
    LastDtlsShort(z, n);
    LastOfParts(LastDtls(w, 1), LastDtls(z, n), a[pos..], n);
    i := PlacedFromErase(w, a[pos]);
    var b := MoveTo(a, pos, i);
    assert b[..pos + 1] == w && b[pos + 1..] == a[pos + 1..];
  }

  lemma ReachableUp(a: seq<Action>, pos: nat, z: seq<Action>, i: nat)
    requires i <= pos < |a| && IsDtl(a[pos]) && Reachable(MoveTo(a, pos, i), pos + 1, z)
    requires Placed(MoveTo(a, pos, i)[..pos + 1], i, a[pos], a[..pos])
    ensures Reachable(a, pos, z)
  {
    hide LastDtls, Erase, LastEndLast;
    var n := |a| - pos - 1;
    EraseOneMore(z, n);
    LastEndLastOneMore(z, n);
    assert MoveTo(a, pos, i)[pos + 1..] == a[pos + 1..];
    ErasePlaced(Erase(z, n), i, a[pos], a[..pos]);
    assert a[pos..] == [a[pos]] + a[pos + 1..];
  }

  lemma {:induction false} LastDtlsShort(z: seq<Action>, n: nat)
    ensures |LastDtls(z, n)| <= n
  {
    if n > 0 && z != [] {
      var m := |z| - 1;
      LastDtlsShort(z[..m], if IsDtl(z[m]) then n - 1 else n);
    }
  }

  lemma LastOfParts(p: seq<Action>, q: seq<Action>, r: seq<Action>, n: nat)
    requires p + q == r && |r| == n + 1 && |p| <= 1 && |q| <= n
    ensures p == [r[0]] && q == r[1..]
  {
  }

  /** Only actions that a terminator may pass over, then terminators only from `pos` on. */
  ghost predicate Ready(a: seq<Action>, pos: nat)
    requires pos <= |a|
  {
    (forall i :: 0 <= i < pos ==> IsDml(a[i]) || IsDtl(a[i])) && forall i :: pos <= i < |a| ==> IsDtl(a[i])
  }

  /** How far forward the terminator at `pos` may go: everything from `i` up to it can be passed. */
  ghost predicate Free(a: seq<Action>, pos: nat, i: nat)
    requires i <= pos < |a|
  {
    forall j :: i <= j < pos ==> IsDml(a[j]) && a[j].trans != a[pos].trans
  }

  lemma FreeIsPlaced(a: seq<Action>, pos: nat, i: nat)
    requires i <= pos < |a| && Ready(a, pos)
    ensures Free(a, pos, i) <==> Placed(MoveTo(a, pos, i)[..pos + 1], i, a[pos], a[..pos])
    ensures Ready(MoveTo(a, pos, i), pos + 1)
  {
    assert MoveTo(a, pos, i)[..pos + 1] == a[..pos][..i] + [a[pos]] + a[..pos][i..];
    if Free(a, pos, i) {
      assert forall j :: i <= j < pos ==> a[..pos][j] == a[j];
    }
    if Placed(MoveTo(a, pos, i)[..pos + 1], i, a[pos], a[..pos]) {
      assert forall j :: i <= j < pos ==> a[..pos][j] == a[j];
    }
  }

  /** What the while loop delivers: the results for every place it still can move the terminator to. */
  lemma {:induction false} MovedMembers(a: seq<Action>, pos: nat, i: nat, z: seq<Action>)
    requires i <= pos < |a| && Ready(a, pos) && Free(a, pos, i)
    ensures z in Moved(MoveTo(a, pos, i), pos, i) <==>
            exists j: nat :: j < i && Free(a, pos, j) && z in Deliver(MoveTo(a, pos, j), pos + 1)
    decreases i
  {
    hide Deliver, Moved;
    var b := MoveTo(a, pos, i);
    if i > 0 && CanMove(b, i) {
      MoveToStep(a, pos, i);
      assert Free(a, pos, i - 1);
      MovedMembers(a, pos, i - 1, z);
      MovedStep(a, pos, i, []);
      assert forall s: seq<seq<Action>> :: [] + s == s;
    } else {
      MovedStop(a, pos, i);
      if i > 0 {
        MoveToStep(a, pos, i);
        assert forall j: nat :: j < i ==> !Free(a, pos, j);
      }
    }
  }

  /** Delivered from `pos` on are exactly the sequences reachable by moving terminators forward. */
  lemma {:induction false} DeliverMembers(a: seq<Action>, pos: nat, z: seq<Action>)
    requires pos <= |a| && Ready(a, pos)
    ensures z in Deliver(a, pos) <==> Reachable(a, pos, z)
    decreases |a| - pos
  {
    hide Free, Placed, Ready, Reachable;
    if pos == |a| {
      ReachableEnd(a, z);
    } else {
      assert MoveTo(a, pos, pos) == a;
      AllFree(a, pos);
      MovedMembers(a, pos, pos, z);
      forall i: nat | i <= pos
        ensures Free(a, pos, i) && z in Deliver(MoveTo(a, pos, i), pos + 1) <==>
                Reachable(MoveTo(a, pos, i), pos + 1, z) && Placed(MoveTo(a, pos, i)[..pos + 1], i, a[pos], a[..pos])
      {
        FreeIsPlaced(a, pos, i);
        DeliverMembers(MoveTo(a, pos, i), pos + 1, z);
      }
      if Reachable(a, pos, z) {
        var i := ReachableDown(a, pos, z);
        assert i < pos || i == pos;
      }
      forall i: nat | i <= pos && Free(a, pos, i) && z in Deliver(MoveTo(a, pos, i), pos + 1)
        ensures Reachable(a, pos, z)
      {
        ReadyAt(a, pos);
        ReachableUp(a, pos, z, i);
      }
    }
  }

  lemma ReachableEnd(a: seq<Action>, z: seq<Action>)
    ensures Reachable(a, |a|, z) <==> z == a
  {
    assert a[..|a|] == a;
  }

  lemma AllFree(a: seq<Action>, pos: nat)
    requires pos < |a|
    ensures Free(a, pos, pos)
  {
  }

  lemma ReadyAt(a: seq<Action>, pos: nat)
    requires pos < |a| && Ready(a, pos)
    ensures IsDtl(a[pos])
  {
  }

  // ----- each exactly once ------------------------------------------------------------------

  ghost predicate Distinct<T>(s: seq<T>) {
    forall i, j :: 0 <= i < j < |s| ==> s[i] != s[j]
  }

  lemma DistinctConcat<T>(s: seq<T>, t: seq<T>)
    requires Distinct(s) && Distinct(t) && forall z :: z in s ==> z !in t
    ensures Distinct(s + t)
  {
    forall i, j | 0 <= i < j < |s + t|
      ensures (s + t)[i] != (s + t)[j]
    {
      if i < |s| <= j {
        assert s[i] in s && t[j - |s|] in t;
      }
    }
  }

  /** From different places of the terminator at `pos` no two deliveries coincide. */
  lemma PlacesApart(a: seq<Action>, pos: nat, i: nat, j: nat, z: seq<Action>)
    requires i <= pos < |a| && j <= pos && Ready(a, pos) && Free(a, pos, i) && Free(a, pos, j)
    requires z in Deliver(MoveTo(a, pos, i), pos + 1) && z in Deliver(MoveTo(a, pos, j), pos + 1)
    ensures i == j
  {
    hide Free, Placed, Ready, Deliver, LastDtls, LastEndLast, Erase;
    FreeIsPlaced(a, pos, i);
    FreeIsPlaced(a, pos, j);
    DeliverMembers(MoveTo(a, pos, i), pos + 1, z);
    DeliverMembers(MoveTo(a, pos, j), pos + 1, z);
    ReadyAt(a, pos);
    PlacedUnique(Erase(z, |a| - pos - 1), i, j, a[pos], a[..pos]);
  }

  lemma {:induction false} DeliverDistinct(a: seq<Action>, pos: nat)
    requires pos <= |a| && Ready(a, pos)
    ensures Distinct(Deliver(a, pos))
    decreases |a| - pos, |a| + 1
  {
    hide Free, Ready;
    if pos < |a| {
      assert MoveTo(a, pos, pos) == a;
      AllFree(a, pos);
      FreeIsPlaced(a, pos, pos);
      DeliverDistinct(a, pos + 1);
      MovedDistinct(a, pos, pos);
      forall z | z in Deliver(a, pos + 1)
        ensures z !in Moved(a, pos, pos)
      {
        NotDeliveredLater(a, pos, pos, z);
      }
      DistinctConcat(Deliver(a, pos + 1), Moved(a, pos, pos));
    }
  }

  lemma NotDeliveredLater(a: seq<Action>, pos: nat, i: nat, z: seq<Action>)
    requires i <= pos < |a| && Ready(a, pos) && Free(a, pos, i) && z in Deliver(MoveTo(a, pos, i), pos + 1)
    ensures z !in Moved(MoveTo(a, pos, i), pos, i)
  {
    hide Free, Ready, Deliver, Moved;
    MovedMembers(a, pos, i, z);
    forall j: nat | j < i && Free(a, pos, j) && z in Deliver(MoveTo(a, pos, j), pos + 1)
      ensures false
    {
      PlacesApart(a, pos, i, j, z);
    }
  }

  lemma {:induction false} MovedDistinct(a: seq<Action>, pos: nat, i: nat)
    requires i <= pos < |a| && Ready(a, pos) && Free(a, pos, i)
    ensures Distinct(Moved(MoveTo(a, pos, i), pos, i))
    decreases |a| - pos, i
  {
    var b := MoveTo(a, pos, i);
    if CanMove(b, i) {
      MoveToStep(a, pos, i);
      assert Free(a, pos, i - 1);
      hide Free, Ready, Deliver;
      var c := MoveTo(a, pos, i - 1);
      FreeIsPlaced(a, pos, i - 1);
      DeliverDistinct(c, pos + 1);
      MovedDistinct(a, pos, i - 1);
      var here, later := Deliver(c, pos + 1), Moved(c, pos, i - 1);
      forall z | z in here
        ensures z !in later
      {
        NotDeliveredLater(a, pos, i - 1, z);
      }
      DistinctConcat(here, later);
    }
  }

  // ----- in terms of the two lists ----------------------------------------------------------

  lemma {:induction false} DtlsSplit(z: seq<Action>, n: nat)
    ensures Dtls(z) == Dtls(Erase(z, n)) + LastDtls(z, n)
  {
    if z != [] && n > 0 {
      var m := |z| - 1;
      if IsDtl(z[m]) {
        DtlsSplit(z[..m], n - 1);
      } else {
        DtlsSplit(z[..m], n);
        var e := Erase(z[..m], n);
        assert (e + [z[m]])[..|e|] == e;
      }
    }
  }

  lemma {:induction false} EraseAll(z: seq<Action>, n: nat)
    requires |Dtls(z)| <= n
    ensures Erase(z, n) == Dmls(z) && LastDtls(z, n) == Dtls(z)
  {
    if z != [] {
      var m := |z| - 1;
      if n == 0 {
        EraseNone(z);
      } else {
        EraseAll(z[..m], if IsDtl(z[m]) then n - 1 else n);
      }
    }
  }

  lemma {:induction false} EraseNone(z: seq<Action>)
    requires Dtls(z) == []
    ensures Dmls(z) == z
  {
    if z != [] {
      var m := |z| - 1;
      assert !IsDtl(z[m]);
      EraseNone(z[..m]);
      assert z == z[..m] + [z[m]];
    }
  }

  lemma {:induction false} DtlsMembers(z: seq<Action>, x: Action)
    ensures x in Dtls(z) <==> IsDtl(x) && x in z
  {
    if z != [] {
      var m := |z| - 1;
      DtlsMembers(z[..m], x);
      assert z == z[..m] + [z[m]];
    }
  }

  lemma {:induction false} LastEndLastAll(z: seq<Action>, n: nat)
    requires |Dtls(z)| <= n
    ensures LastEndLast(z, n) <==> EndsLast(z)
  {
    if z != [] {
      var m := |z| - 1;
      if n == 0 {
        forall x | x in z
          ensures !IsDtl(x)
        {
          DtlsMembers(z, x);
        }
      } else if IsDtl(z[m]) {
        LastEndLastAll(z[..m], n - 1);
        EndsLastStep(z);
      } else {
        LastEndLastAll(z[..m], n);
        EraseAll(z[..m], n);
        EndsLastStep(z);
      }
    }
  }

  lemma EndsLastStep(z: seq<Action>)
    requires z != []
    ensures var m := |z| - 1;
            EndsLast(z) <==>
            EndsLast(z[..m]) && (IsDtl(z[m]) || forall x :: x in Dtls(z[..m]) ==> x.trans != z[m].trans)
  {
    var m := |z| - 1;
    forall x
      ensures x in Dtls(z[..m]) <==> IsDtl(x) && x in z[..m]
    {
      DtlsMembers(z[..m], x);
    }
    if EndsLast(z[..m]) {
      forall i, j | 0 <= i < j < m && IsDtl(z[i]) && !IsDtl(z[j])
        ensures z[i].trans != z[j].trans
      {
        assert z[..m][i].trans != z[..m][j].trans;
      }
    }
    if !IsDtl(z[m]) && EndsLast(z) {
      forall x | x in Dtls(z[..m])
        ensures x.trans != z[m].trans
      {
        var i :| 0 <= i < m && z[..m][i] == x;
      }
    }
    forall i | 0 <= i < m && IsDtl(z[i])
      ensures z[i] in Dtls(z[..m])
    {
      assert z[..m][i] == z[i];
    }
  }

  /** The enumeration delivers exactly the interleavings that keep the order of the reads and writes and
      the order of the terminators and put every terminator behind the actions of its transaction;
      and it delivers each of them once. */
  lemma DeliversAllInterleavings(dmls: seq<Action>, dtls: seq<Action>, z: seq<Action>)
    requires (forall i :: 0 <= i < |dmls| ==> IsDml(dmls[i])) && (forall i :: 0 <= i < |dtls| ==> IsDtl(dtls[i]))
    ensures z in Deliver(dmls + dtls, |dmls|) <==> Dmls(z) == dmls && Dtls(z) == dtls && EndsLast(z)
    ensures Distinct(Deliver(dmls + dtls, |dmls|))
  {
    hide Deliver, EndsLast, LastEndLast, LastDtls, Erase, Dmls, Dtls;
    var a, n := dmls + dtls, |dtls|;
    DeliverMembers(a, |dmls|, z);
    DeliverDistinct(a, |dmls|);
    assert a[..|dmls|] == dmls && a[|dmls|..] == dtls;
    DtlsSplit(z, n);
    NoDtls(dmls);
    if |Dtls(z)| <= n {
      EraseAll(z, n);
      LastEndLastAll(z, n);
    }
  }

  lemma {:induction false} NoDtls(s: seq<Action>)
    requires forall i :: 0 <= i < |s| ==> IsDml(s[i])
    ensures Dtls(s) == []
  {
    if s != [] {
      NoDtls(s[..|s| - 1]);
    }
  }

  // ----- the code: swaps in place, undone on the way back -----------------------------------

  class Creator {
    const tailDtl: bool
    /** What the handler has received. */
    var delivered: seq<seq<Action>>

    constructor (tailDtl: bool)
      ensures this.tailDtl == tailDtl && delivered == []
    {
      this.tailDtl := tailDtl;
      delivered := [];
    }

    static method Swap(a: array<Action>, i: nat)
      requires 0 < i < a.Length
      modifies a
      ensures a[..] == Swapped(old(a[..]), i)
    {
      a[i - 1], a[i] := a[i], a[i - 1];
    }

    /** RecursiveMoveForwardDTLAction: the array is as it was when the call returns. */
    method MoveForward(a: array<Action>, pos: nat)
      requires pos <= a.Length
      modifies this, a
      ensures a[..] == old(a[..])
      ensures delivered == old(delivered) + if tailDtl then [old(a[..])] else Deliver(old(a[..]), pos)
      decreases a.Length - pos, 1
    {
      if pos == a.Length || tailDtl {
        delivered := delivered + [a[..]];
        return;
      }
      hide Deliver, Moved;
      ghost var start, before := a[..], delivered;
      MoveForward(a, pos + 1);
      var i := MoveOn(a, pos);
      DeliverStep(start, pos, before);
      PutBack(a, pos, i, start);
    }

    /** Moves the terminator forward as far as it goes, delivering from every place. */
    method MoveOn(a: array<Action>, pos: nat) returns (i: nat)
      requires pos < a.Length && !tailDtl
      modifies this, a
      ensures i <= pos && a[..] == MoveTo(old(a[..]), pos, i)
      ensures delivered == old(delivered) + Moved(old(a[..]), pos, pos)
      decreases a.Length - pos, 0
    {
      hide Deliver, Moved, MoveTo, Swapped;
      ghost var start, before, done := a[..], delivered, [];
      MoveNowhere(start, pos);
      i := pos;
      while i > 0 && a[i - 1].trans != a[i].trans &&
            (a[i - 1].kind == Read || a[i - 1].kind == Write || a[i - 1].kind == ScanOdd)
        invariant 0 <= i <= pos && a[..] == MoveTo(start, pos, i)
        invariant delivered == before + done
        invariant done + Moved(MoveTo(start, pos, i), pos, i) == Moved(start, pos, pos)
      {
        assert CanMove(MoveTo(start, pos, i), i);
        MovedStep(start, pos, i, done);
        Swap(a, i);
        MoveForward(a, pos + 1);
        done := done + Deliver(MoveTo(start, pos, i - 1), pos + 1);
        i := i - 1;
      }
      assert !CanMove(MoveTo(start, pos, i), i);
      MovedStop(start, pos, i);
    }

    /** Undoes the moves. */
    method PutBack(a: array<Action>, pos: nat, at: nat, ghost start: seq<Action>)
      requires at <= pos < a.Length == |start| && a[..] == MoveTo(start, pos, at)
      modifies a
      ensures a[..] == start
    {
      var i := at;
      while i < pos
        invariant at <= i <= pos && a[..] == MoveTo(start, pos, i)
        decreases pos - i
      {
        MoveBack(start, pos, i);
        Swap(a, i + 1);
        i := i + 1;
      }
    }
  }

  lemma DeliverStep(a: seq<Action>, pos: nat, before: seq<seq<Action>>)
    requires pos < |a|
    ensures before + Deliver(a, pos) == before + Deliver(a, pos + 1) + Moved(a, pos, pos)
  {
    assert before + (Deliver(a, pos + 1) + Moved(a, pos, pos)) == before + Deliver(a, pos + 1) + Moved(a, pos, pos);
  }

  lemma MoveNowhere(a: seq<Action>, pos: nat)
    requires pos < |a|
    ensures MoveTo(a, pos, pos) == a
  {
  }

  lemma MovedStep(a: seq<Action>, pos: nat, i: nat, done: seq<seq<Action>>)
    requires 0 < i <= pos < |a| && CanMove(MoveTo(a, pos, i), i)
    ensures Swapped(MoveTo(a, pos, i), i) == MoveTo(a, pos, i - 1)
    ensures var b := MoveTo(a, pos, i - 1);
            done + Moved(MoveTo(a, pos, i), pos, i) == done + Deliver(b, pos + 1) + Moved(b, pos, i - 1)
  {
    MoveToStep(a, pos, i);
    var b := MoveTo(a, pos, i - 1);
    assert Moved(MoveTo(a, pos, i), pos, i) == Deliver(b, pos + 1) + Moved(b, pos, i - 1);
  }

  lemma MovedStop(a: seq<Action>, pos: nat, i: nat)
    requires i <= pos < |a| && !CanMove(MoveTo(a, pos, i), i)
    ensures Moved(MoveTo(a, pos, i), pos, i) == []
  {
  }

  lemma MoveBack(a: seq<Action>, pos: nat, i: nat)
    requires i < pos < |a|
    ensures Swapped(MoveTo(a, pos, i), i + 1) == MoveTo(a, pos, i + 1)
  {
  }
}

/** The backtracking enumeration of read/write sequences of benchmarks/creator.cpp: it visits exactly
    the sequences in which transactions and items are numbered in order of first appearance, each
    once; every sequence is a renaming of exactly one of them; and subtasks share them out evenly. */
module Histories {
  import opened Interleavings

  datatype Options = Options(transNum: nat, itemNum: nat, maxDml: nat, dynamic: bool)

  function Max(a: nat, b: nat): nat {
    if a < b then b else a
  }

  function Min(a: nat, b: nat): nat {
    if a < b then a else b
  }

  /** A read right after the identical read. */
  predicate Repeats(a: seq<Action>, x: Action) {
    a != [] && x.kind == Read && a[|a| - 1] == x
  }

  // ----- what the recursion visits ----------------------------------------------------------

  /** Everything visited below the actions chosen so far, in order. */
  function Visit(o: Options, a: seq<Action>, maxTrans: nat, maxItem: nat): seq<seq<Action>>
    requires |a| <= o.maxDml
    decreases o.maxDml - |a|, 3, 0
  {
    (if o.dynamic || |a| == o.maxDml then [a] else []) +
    (if |a| == o.maxDml then [] else VisitTrans(o, a, maxTrans, maxItem, 0))
  }

  function VisitTrans(o: Options, a: seq<Action>, maxTrans: nat, maxItem: nat, t: nat): seq<seq<Action>>
    requires |a| < o.maxDml
    decreases o.maxDml - |a|, 2, Min(maxTrans + 1, o.transNum) - t
  {
    if t < Min(maxTrans + 1, o.transNum) then
      VisitItems(o, a, maxTrans, maxItem, t, 0) + VisitTrans(o, a, maxTrans, maxItem, t + 1)
    else []
  }

  function VisitItems(o: Options, a: seq<Action>, maxTrans: nat, maxItem: nat, t: nat, i: nat): seq<seq<Action>>
    requires |a| < o.maxDml
    decreases o.maxDml - |a|, 1, Min(maxItem + 1, o.itemNum) - i
  {
    if i < Min(maxItem + 1, o.itemNum) then
      VisitAction(o, a, maxTrans, maxItem, Action(Read, t, i)) +
      VisitAction(o, a, maxTrans, maxItem, Action(Write, t, i)) +
      VisitItems(o, a, maxTrans, maxItem, t, i + 1)
    else []
  }

  function VisitAction(o: Options, a: seq<Action>, maxTrans: nat, maxItem: nat, x: Action): seq<seq<Action>>
    requires |a| < o.maxDml
    decreases o.maxDml - |a|, 0, 0
  {
    if Repeats(a, x) then []
    else Visit(o, a + [x], Max(x.trans + 1, maxTrans), Max(x.item + 1, maxItem))
  }

  // ----- which sequences these are ----------------------------------------------------------

  /** One more than the largest number used. */
  function TransTop(a: seq<Action>): nat {
    if a == [] then 0 else Max(a[|a| - 1].trans + 1, TransTop(a[..|a| - 1]))
  }

  function ItemTop(a: seq<Action>): nat {
    if a == [] then 0 else Max(a[|a| - 1].item + 1, ItemTop(a[..|a| - 1]))
  }

  /** What may follow the actions chosen so far. */
  predicate MayFollow(o: Options, a: seq<Action>, x: Action) {
    && (x.kind == Read || x.kind == Write) && !Repeats(a, x)
    && x.trans <= TransTop(a) && x.trans < o.transNum
    && x.item <= ItemTop(a) && x.item < o.itemNum
  }

  ghost predicate Wanted(o: Options, a: seq<Action>, z: seq<Action>) {
    a <= z && |z| <= o.maxDml && (o.dynamic || |z| == o.maxDml)
    && forall i :: |a| <= i < |z| ==> MayFollow(o, z[..i], z[i])
  }

  /** The sequences visited below `a` are the wanted extensions of `a`. */
  lemma {:induction false} VisitMembers(o: Options, a: seq<Action>, z: seq<Action>)
    requires |a| <= o.maxDml
    ensures z in Visit(o, a, TransTop(a), ItemTop(a)) <==> Wanted(o, a, z)
    decreases o.maxDml - |a|
  {
    if |a| < o.maxDml {
      hide VisitTrans;
      forall x
        ensures z in VisitAction(o, a, TransTop(a), ItemTop(a), x) <==> !Repeats(a, x) && Wanted(o, a + [x], z)
      {
        TopStep(a, x);
        VisitMembers(o, a + [x], z);
      }
      VisitTransMembers(o, a, 0, z);
      WantedStep(o, a, z);
    } else {
      WantedEnd(o, a, z);
    }
  }

  lemma TopStep(a: seq<Action>, x: Action)
    ensures TransTop(a + [x]) == Max(x.trans + 1, TransTop(a)) && ItemTop(a + [x]) == Max(x.item + 1, ItemTop(a))
  {
    assert (a + [x])[..|a|] == a;
  }

  lemma WantedEnd(o: Options, a: seq<Action>, z: seq<Action>)
    requires |a| == o.maxDml
    ensures Wanted(o, a, z) <==> z == a
  {
    if Wanted(o, a, z) {
      assert z == z[..|a|];
    }
  }

  lemma WantedStep(o: Options, a: seq<Action>, z: seq<Action>)
    requires |a| < o.maxDml
    ensures Wanted(o, a, z) <==>
            (z == a && o.dynamic) || exists x :: MayFollow(o, a, x) && Wanted(o, a + [x], z)
  {
    if Wanted(o, a, z) && z != a {
      var x := z[|a|];
      assert z[..|a|] == a && a + [x] == z[..|a| + 1];
      assert MayFollow(o, a, x) && Wanted(o, a + [x], z);
    }
    forall x | MayFollow(o, a, x) && Wanted(o, a + [x], z)
      ensures Wanted(o, a, z)
    {
      assert z[..|a|] == (a + [x])[..|a|] == a && z[|a|] == (a + [x])[|a|];
    }
  }

  /** The loop over transactions from `t` on. */
  lemma {:induction false} VisitTransMembers(o: Options, a: seq<Action>, t: nat, z: seq<Action>)
    requires |a| < o.maxDml
    ensures z in VisitTrans(o, a, TransTop(a), ItemTop(a), t) <==>
            exists x: Action :: t <= x.trans <= TransTop(a) && x.trans < o.transNum && ItemChoice(o, a, x) &&
              z in VisitAction(o, a, TransTop(a), ItemTop(a), x)
    decreases Min(TransTop(a) + 1, o.transNum) - t
  {
    hide VisitAction, VisitItems;
    if t < Min(TransTop(a) + 1, o.transNum) {
      VisitItemsMembers(o, a, t, 0, z);
      VisitTransMembers(o, a, t + 1, z);
    }
  }

  predicate ItemChoice(o: Options, a: seq<Action>, x: Action) {
    (x.kind == Read || x.kind == Write) && x.item <= ItemTop(a) && x.item < o.itemNum
  }

  lemma {:induction false} VisitItemsMembers(o: Options, a: seq<Action>, t: nat, i: nat, z: seq<Action>)
    requires |a| < o.maxDml
    ensures z in VisitItems(o, a, TransTop(a), ItemTop(a), t, i) <==>
            exists x: Action :: x.trans == t && i <= x.item && ItemChoice(o, a, x) &&
              z in VisitAction(o, a, TransTop(a), ItemTop(a), x)
    decreases Min(ItemTop(a) + 1, o.itemNum) - i
  {
    hide VisitAction;
    if i < Min(ItemTop(a) + 1, o.itemNum) {
      VisitItemsMembers(o, a, t, i + 1, z);
      var r, w := Action(Read, t, i), Action(Write, t, i);
      assert forall x: Action :: x.trans == t && x.item == i && ItemChoice(o, a, x) ==> x == r || x == w;
      assert ItemChoice(o, a, r) && ItemChoice(o, a, w);
    }
  }

  // ----- each once --------------------------------------------------------------------------

  /** What is visited after choosing `x` starts with it. */
  lemma StartsWith(o: Options, a: seq<Action>, x: Action, z: seq<Action>)
    requires |a| < o.maxDml && z in VisitAction(o, a, TransTop(a), ItemTop(a), x)
    ensures |a| < |z| && z[..|a|] == a && z[|a|] == x
  {
    TopStep(a, x);
    VisitMembers(o, a + [x], z);
    assert (a + [x])[..|a|] == a && (a + [x])[|a|] == x;
    assert z[..|a|] == z[..|a| + 1][..|a|];
  }

  lemma {:induction false} VisitDistinct(o: Options, a: seq<Action>)
    requires |a| <= o.maxDml
    ensures Distinct(Visit(o, a, TransTop(a), ItemTop(a)))
    decreases o.maxDml - |a|, 3, 0
  {
    if |a| < o.maxDml {
      var below := VisitTrans(o, a, TransTop(a), ItemTop(a), 0);
      TransDistinct(o, a, 0);
      forall z | z in below
        ensures z != a
      {
        VisitTransMembers(o, a, 0, z);
        var x: Action :| z in VisitAction(o, a, TransTop(a), ItemTop(a), x);
        StartsWith(o, a, x, z);
      }
      DistinctConcat([a], below);
      DistinctConcat([], below);
    }
  }

  lemma {:induction false} TransDistinct(o: Options, a: seq<Action>, t: nat)
    requires |a| < o.maxDml
    ensures Distinct(VisitTrans(o, a, TransTop(a), ItemTop(a), t))
    decreases o.maxDml - |a|, 2, Min(TransTop(a) + 1, o.transNum) - t
  {
    hide VisitItems, VisitAction;
    if t < Min(TransTop(a) + 1, o.transNum) {
      var here := VisitItems(o, a, TransTop(a), ItemTop(a), t, 0);
      var later := VisitTrans(o, a, TransTop(a), ItemTop(a), t + 1);
      ItemsDistinct(o, a, t, 0);
      TransDistinct(o, a, t + 1);
      forall z | z in here
        ensures z !in later
      {
        VisitItemsMembers(o, a, t, 0, z);
        VisitTransMembers(o, a, t + 1, z);
        OneChoice(o, a, z);
      }
      DistinctConcat(here, later);
    }
  }

  /** A visited sequence comes from one choice. */
  lemma OneChoice(o: Options, a: seq<Action>, z: seq<Action>)
    requires |a| < o.maxDml
    ensures forall x, y ::
              && z in VisitAction(o, a, TransTop(a), ItemTop(a), x)
              && z in VisitAction(o, a, TransTop(a), ItemTop(a), y)
              ==> x == y
  {
    forall x | z in VisitAction(o, a, TransTop(a), ItemTop(a), x)
      ensures |a| < |z| && z[|a|] == x
    {
      StartsWith(o, a, x, z);
    }
  }

  lemma {:induction false} ItemsDistinct(o: Options, a: seq<Action>, t: nat, i: nat)
    requires |a| < o.maxDml
    ensures Distinct(VisitItems(o, a, TransTop(a), ItemTop(a), t, i))
    decreases o.maxDml - |a|, 1, Min(ItemTop(a) + 1, o.itemNum) - i
  {
    hide VisitAction;
    if i < Min(ItemTop(a) + 1, o.itemNum) {
      var x, y := Action(Read, t, i), Action(Write, t, i);
      var readFirst := VisitAction(o, a, TransTop(a), ItemTop(a), x);
      var writeFirst := VisitAction(o, a, TransTop(a), ItemTop(a), y);
      var later := VisitItems(o, a, TransTop(a), ItemTop(a), t, i + 1);
      ActionDistinct(o, a, x);
      ActionDistinct(o, a, y);
      ItemsDistinct(o, a, t, i + 1);
      forall z
        ensures !(z in readFirst && z in writeFirst)
        ensures !(z in readFirst && z in later) && !(z in writeFirst && z in later)
      {
        VisitItemsMembers(o, a, t, i + 1, z);
        OneChoice(o, a, z);
      }
      DistinctConcat(readFirst, writeFirst);
      DistinctConcat(readFirst + writeFirst, later);
    }
  }

  lemma {:induction false} ActionDistinct(o: Options, a: seq<Action>, x: Action)
    requires |a| < o.maxDml
    ensures Distinct(VisitAction(o, a, TransTop(a), ItemTop(a), x))
    decreases o.maxDml - |a|, 0, 0
  {
    TopStep(a, x);
    VisitDistinct(o, a + [x]);
  }

  // ----- numbering by first appearance ------------------------------------------------------

  function Ids(z: seq<Action>): (r: seq<nat>)
    ensures |r| == |z| && forall i :: 0 <= i < |z| ==> r[i] == z[i].trans
  {
    seq(|z|, i requires 0 <= i < |z| => z[i].trans)
  }

  function Items(z: seq<Action>): (r: seq<nat>)
    ensures |r| == |z| && forall i :: 0 <= i < |z| ==> r[i] == z[i].item
  {
    seq(|z|, i requires 0 <= i < |z| => z[i].item)
  }

  /** Every number below a used one was used before it. */
  ghost predicate InOrder(ids: seq<nat>) {
    forall i, v: nat :: 0 <= i < |ids| && v < ids[i] ==> v in ids[..i]
  }

  function Top(ids: seq<nat>): nat {
    if ids == [] then 0 else Max(ids[|ids| - 1] + 1, Top(ids[..|ids| - 1]))
  }

  /** Numbers used in order are exactly those below the top. */
  lemma {:induction false} TopCovers(ids: seq<nat>)
    requires InOrder(ids)
    ensures forall v: nat :: v in ids <==> v < Top(ids)
  {
    if ids != [] {
      var n := |ids| - 1;
      InOrderPrefix(ids);
      TopCovers(ids[..n]);
      assert ids == ids[..n] + [ids[n]];
    }
  }

  lemma InOrderPrefix(ids: seq<nat>)
    requires ids != []
    ensures var n := |ids| - 1; InOrder(ids) <==> InOrder(ids[..n]) && forall v: nat :: v < ids[n] ==> v in ids[..n]
  {
    var n := |ids| - 1;
    assert forall i :: 0 <= i < n ==> ids[..n][..i] == ids[..i];
  }

  lemma {:induction false} InOrderIsBelowTop(ids: seq<nat>)
    ensures InOrder(ids) <==> forall i :: 0 <= i < |ids| ==> ids[i] <= Top(ids[..i])
  {
    if ids != [] {
      var n := |ids| - 1;
      InOrderPrefix(ids);
      InOrderIsBelowTop(ids[..n]);
      assert forall i :: 0 <= i < n ==> ids[..n][..i] == ids[..i] && ids[..n][i] == ids[i];
      if InOrder(ids[..n]) {
        TopCovers(ids[..n]);
        if forall v: nat :: v < ids[n] ==> v in ids[..n] {
          assert ids[n] <= Top(ids[..n]) by {
            if ids[n] > Top(ids[..n]) {
              assert Top(ids[..n]) in ids[..n];
            }
          }
        }
      }
    }
  }

  lemma {:induction false} TopsAgree(z: seq<Action>)
    ensures TransTop(z) == Top(Ids(z)) && ItemTop(z) == Top(Items(z))
  {
    if z != [] {
      var n := |z| - 1;
      TopsAgree(z[..n]);
      assert Ids(z)[..n] == Ids(z[..n]) && Items(z)[..n] == Items(z[..n]);
    }
  }

  /** Reads and writes only, no read right after the identical read. */
  ghost predicate Sensible(z: seq<Action>) {
    && (forall i :: 0 <= i < |z| ==> z[i].kind == Read || z[i].kind == Write)
    && (forall i :: 0 < i < |z| ==> !(z[i].kind == Read && z[i] == z[i - 1]))
  }

  ghost predicate LengthOk(o: Options, z: seq<Action>) {
    |z| <= o.maxDml && (o.dynamic || |z| == o.maxDml)
  }

  ghost predicate Canonical(o: Options, z: seq<Action>) {
    && LengthOk(o, z) && Sensible(z) && InOrder(Ids(z)) && InOrder(Items(z))
    && forall i :: 0 <= i < |z| ==> z[i].trans < o.transNum && z[i].item < o.itemNum
  }

  /** `MayFollow` in terms of the whole sequence. */
  lemma MayFollowAt(o: Options, z: seq<Action>, i: nat)
    requires i < |z|
    ensures MayFollow(o, z[..i], z[i]) <==>
            && (z[i].kind == Read || z[i].kind == Write) && !(i > 0 && z[i].kind == Read && z[i] == z[i - 1])
            && Ids(z)[i] <= Top(Ids(z)[..i]) && z[i].trans < o.transNum
            && Items(z)[i] <= Top(Items(z)[..i]) && z[i].item < o.itemNum
  {
    hide TransTop, ItemTop, Top;
    TopsAgree(z[..i]);
    assert Ids(z)[..i] == Ids(z[..i]) && Items(z)[..i] == Items(z[..i]);
  }

  lemma WantedIsCanonical(o: Options, z: seq<Action>)
    ensures Wanted(o, [], z) <==> Canonical(o, z)
  {
    hide MayFollow, Top, InOrder;
    InOrderIsBelowTop(Ids(z));
    InOrderIsBelowTop(Items(z));
    if Wanted(o, [], z) {
      forall i | 0 <= i < |z|
        ensures (z[i].kind == Read || z[i].kind == Write) && !(i > 0 && z[i].kind == Read && z[i] == z[i - 1])
        ensures Ids(z)[i] <= Top(Ids(z)[..i]) && Items(z)[i] <= Top(Items(z)[..i])
        ensures z[i].trans < o.transNum && z[i].item < o.itemNum
      {
        MayFollowAt(o, z, i);
      }
    }
    if Canonical(o, z) {
      forall i | 0 <= i < |z|
        ensures MayFollow(o, z[..i], z[i])
      {
        MayFollowAt(o, z, i);
      }
    }
  }

  /** The enumeration visits exactly the sequences of the asked length, within the bounds, in which
      transactions and items are numbered by first appearance and no read repeats the one before it;
      and it visits each of them once. */
  lemma VisitsAllCanonical(o: Options, z: seq<Action>)
    ensures z in Visit(o, [], 0, 0) <==> Canonical(o, z)
    ensures Distinct(Visit(o, [], 0, 0))
  {
    hide Visit, Wanted, Canonical;
    VisitMembers(o, [], z);
    VisitDistinct(o, []);
    WantedIsCanonical(o, z);
  }

  // ----- every history is a renaming of one of them -----------------------------------------

  ghost predicate SamePattern(p: seq<nat>, q: seq<nat>) {
    |p| == |q| && forall i, j :: 0 <= i < |p| && 0 <= j < |p| ==> (p[i] == p[j] <==> q[i] == q[j])
  }

  /** The same history with other names for its transactions and items. */
  ghost predicate Renaming(z: seq<Action>, w: seq<Action>) {
    && |z| == |w| && (forall i :: 0 <= i < |z| ==> z[i].kind == w[i].kind)
    && SamePattern(Ids(z), Ids(w)) && SamePattern(Items(z), Items(w))
  }

  function IndexOf(s: seq<nat>, v: nat): (i: nat)
    requires v in s
    ensures i < |s| && s[i] == v
  {
    if s[0] == v then 0 else 1 + IndexOf(s[1..], v)
  }

  /** Numbering by first appearance. */
  function Canon(ids: seq<nat>): (c: seq<nat>)
    ensures |c| == |ids|
  {
    if ids == [] then [] else
      var n := |ids| - 1;
      var c := Canon(ids[..n]);
      c + [if ids[n] in ids[..n] then c[IndexOf(ids[..n], ids[n])] else Top(c)]
  }

  lemma {:induction false} CanonOk(ids: seq<nat>)
    ensures SamePattern(ids, Canon(ids)) && InOrder(Canon(ids))
  {
    if ids != [] {
      var n := |ids| - 1;
      var c, d := Canon(ids[..n]), Canon(ids);
      CanonOk(ids[..n]);
      assert d[..n] == c;
      CanonLast(ids, c, d[n]);
      InOrderPrefix(d);
      PatternStep(ids, d);
    }
  }

  /** The number given to the last element: that of an equal one, or the first unused. */
  lemma CanonLast(ids: seq<nat>, c: seq<nat>, v: nat)
    requires ids != [] && SamePattern(ids[..|ids| - 1], c) && InOrder(c)
    requires var n := |ids| - 1;
             v == if ids[n] in ids[..n] then c[IndexOf(ids[..n], ids[n])] else Top(c)
    ensures forall i :: 0 <= i < |c| ==> (ids[i] == ids[|ids| - 1] <==> c[i] == v)
    ensures forall u: nat :: u < v ==> u in c
    ensures v == Top(c) || v in c
  {
    var n := |ids| - 1;
    TopCovers(c);
    if ids[n] in ids[..n] {
      var k := IndexOf(ids[..n], ids[n]);
      assert c[k] in c;
      forall i | 0 <= i < n
        ensures ids[i] == ids[n] <==> c[i] == v
      {
        assert ids[..n][i] == ids[i] && ids[..n][k] == ids[n];
      }
    } else {
      forall i | 0 <= i < n
        ensures ids[i] != ids[n] && c[i] != v
      {
        assert ids[..n][i] in ids[..n] && c[i] in c;
      }
    }
  }

  /** Enough to look at the last element. */
  lemma PatternStep(p: seq<nat>, q: seq<nat>)
    requires p != [] && |p| == |q|
    requires var n := |p| - 1;
             SamePattern(p[..n], q[..n]) && forall i :: 0 <= i < n ==> (p[i] == p[n] <==> q[i] == q[n])
    ensures SamePattern(p, q)
  {
    var n := |p| - 1;
    forall i, j | 0 <= i < |p| && 0 <= j < |p|
      ensures p[i] == p[j] <==> q[i] == q[j]
    {
      if i < n && j < n {
        assert p[..n][i] == p[i] && p[..n][j] == p[j] && q[..n][i] == q[i] && q[..n][j] == q[j];
      }
    }
  }

  ghost function Values(ids: seq<nat>): set<nat> {
    set v | v in ids
  }

  /** As many numbers are used as there are different names. */
  lemma {:induction false} CanonTop(ids: seq<nat>)
    ensures Top(Canon(ids)) == |Values(ids)|
  {
    if ids != [] {
      var n := |ids| - 1;
      var c, d := Canon(ids[..n]), Canon(ids);
      CanonTop(ids[..n]);
      CanonOk(ids[..n]);
      assert d[..n] == c;
      CanonTopStep(ids[..n], c, ids[n], d[n]);
      assert ids == ids[..n] + [ids[n]];
    }
  }

  lemma CanonTopStep(ids: seq<nat>, c: seq<nat>, x: nat, v: nat)
    requires |c| == |ids| && InOrder(c) && Top(c) == |Values(ids)|
    requires v == if x in ids then c[IndexOf(ids, x)] else Top(c)
    ensures Max(v + 1, Top(c)) == |Values(ids + [x])|
  {
    assert Values(ids + [x]) == Values(ids) + {x};
    if x in ids {
      TopCovers(c);
      assert v in c;
      assert Values(ids + [x]) == Values(ids);
    }
  }

  /** Two numberings by first appearance with the same pattern are the same. */
  lemma {:induction false} InOrderUnique(p: seq<nat>, q: seq<nat>)
    requires InOrder(p) && InOrder(q) && SamePattern(p, q)
    ensures p == q
  {
    if p != [] {
      var n := |p| - 1;
      InOrderPrefix(p);
      InOrderPrefix(q);
      assert SamePattern(p[..n], q[..n]);
      InOrderUnique(p[..n], q[..n]);
      LastDetermined(p, q);
      assert p == p[..n] + [p[n]] && q == q[..n] + [q[n]];
    }
  }

  lemma LastDetermined(p: seq<nat>, q: seq<nat>)
    requires InOrder(p) && InOrder(q) && SamePattern(p, q) && p != [] && p[..|p| - 1] == q[..|p| - 1]
    ensures p[|p| - 1] == q[|p| - 1]
  {
    var n := |p| - 1;
    InOrderPrefix(p);
    InOrderPrefix(q);
    TopCovers(p[..n]);
    if i :| 0 <= i < n && p[i] == p[n] {
      assert p[..n][i] == q[..n][i] && q[i] == q[n];
    } else {
      NewIsTop(p);
      assert forall i :: 0 <= i < n ==> q[i] != q[n];
      NewIsTop(q);
    }
  }

  lemma NewIsTop(p: seq<nat>)
    requires p != [] && InOrder(p) && forall i :: 0 <= i < |p| - 1 ==> p[i] != p[|p| - 1]
    ensures p[|p| - 1] == Top(p[..|p| - 1])
  {
    var n := |p| - 1;
    InOrderPrefix(p);
    TopCovers(p[..n]);
    assert p[n] !in p[..n];
    assert Top(p[..n]) !in p[..n];
  }

  function CanonOf(z: seq<Action>): (w: seq<Action>)
    ensures |w| == |z| && Ids(w) == Canon(Ids(z)) && Items(w) == Canon(Items(z))
  {
    var ids, items := Canon(Ids(z)), Canon(Items(z));
    seq(|z|, i requires 0 <= i < |z| => Action(z[i].kind, ids[i], items[i]))
  }

  /** Every history of reads and writes without a repeated read, with no more transactions and items
      than asked for, whatever they are called, is a renaming of exactly one visited sequence. */
  lemma EveryHistoryIsVisited(o: Options, z: seq<Action>, w: seq<Action>)
    requires LengthOk(o, z) && Sensible(z) && |Values(Ids(z))| <= o.transNum && |Values(Items(z))| <= o.itemNum
    ensures w in Visit(o, [], 0, 0) && Renaming(z, w) <==> w == CanonOf(z)
  {
    hide Visit, InOrder;
    CanonOk(Ids(z));
    CanonOk(Items(z));
    VisitsAllCanonical(o, w);
    if w == CanonOf(z) {
      CanonIsCanonical(o, z);
    }
    if Renaming(z, w) && Canonical(o, w) {
      InOrderUnique(Ids(w), Canon(Ids(z)));
      InOrderUnique(Items(w), Canon(Items(z)));
      var c := CanonOf(z);
      forall i | 0 <= i < |w|
        ensures w[i] == c[i]
      {
        assert Ids(w)[i] == Ids(c)[i] && Items(w)[i] == Items(c)[i];
      }
    }
  }

  lemma CanonIsCanonical(o: Options, z: seq<Action>)
    requires LengthOk(o, z) && Sensible(z) && |Values(Ids(z))| <= o.transNum && |Values(Items(z))| <= o.itemNum
    ensures Canonical(o, CanonOf(z)) && Renaming(z, CanonOf(z))
  {
    hide Top;
    var w := CanonOf(z);
    CanonOk(Ids(z));
    CanonOk(Items(z));
    CanonTop(Ids(z));
    CanonTop(Items(z));
    TopCovers(Ids(w));
    TopCovers(Items(w));
    forall i | 0 <= i < |w|
      ensures w[i].trans < o.transNum && w[i].item < o.itemNum
    {
      assert Ids(w)[i] in Ids(w) && Items(w)[i] in Items(w);
    }
    forall i | 0 < i < |w|
      ensures w[i] == w[i - 1] <==> z[i] == z[i - 1]
    {
      assert Ids(z)[i] == Ids(z)[i - 1] <==> Ids(w)[i] == Ids(w)[i - 1];
      assert Items(z)[i] == Items(z)[i - 1] <==> Items(w)[i] == Items(w)[i - 1];
    }
  }
}

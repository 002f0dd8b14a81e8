/** The lists of terminators that benchmarks/creator.cpp appends to a sequence of reads and writes: every
    choice of commits and aborts, in every order of the transactions. `std::next_permutation` is modelled
    by what it enumerates, the permutations in lexicographic order. */
module Terminators {
  import opened Interleavings

  // ----- commits and aborts -----------------------------------------------------------------

  /** All ways to end the remaining ones of `n` transactions; without aborts only one. */
  function Types(pre: seq<Type>, n: nat, withAbort: bool): seq<seq<Type>>
    requires |pre| <= n
    decreases n - |pre|
  {
    if !withAbort then [seq(n, i => Commit)]
    else if |pre| == n then [pre]
    else Types(pre + [Commit], n, withAbort) + Types(pre + [Abort], n, withAbort)
  }

  predicate IsEnding(withAbort: bool, k: Type) {
    k == Commit || (withAbort && k == Abort)
  }

  ghost predicate Endings(withAbort: bool, ks: seq<Type>) {
    forall i :: 0 <= i < |ks| ==> IsEnding(withAbort, ks[i])
  }

  lemma {:induction false} TypesMembers(pre: seq<Type>, n: nat, withAbort: bool, ks: seq<Type>)
    requires |pre| <= n && Endings(withAbort, pre) && (!withAbort ==> pre == [])
    ensures ks in Types(pre, n, withAbort) <==> |ks| == n && pre <= ks && Endings(withAbort, ks)
    decreases n - |pre|
  {
    if !withAbort {
      if |ks| == n && Endings(withAbort, ks) {
        assert ks == seq(n, i => Commit);
      }
    } else if |pre| < n {
      var m := |pre|;
      TypesMembers(pre + [Commit], n, withAbort, ks);
      TypesMembers(pre + [Abort], n, withAbort, ks);
      if |ks| == n && pre <= ks && Endings(withAbort, ks) {
        assert IsEnding(withAbort, ks[m]);
        assert ks[..m + 1] == pre + [ks[m]];
        assert pre + [ks[m]] <= ks;
      }
    } else if pre <= ks && |ks| == n {
      assert ks == pre;
    }
  }

  lemma {:induction false} TypesDistinct(pre: seq<Type>, n: nat, withAbort: bool)
    requires |pre| <= n && Endings(withAbort, pre) && (!withAbort ==> pre == [])
    ensures Distinct(Types(pre, n, withAbort))
    decreases n - |pre|
  {
    if withAbort && |pre| < n {
      TypesDistinct(pre + [Commit], n, withAbort);
      TypesDistinct(pre + [Abort], n, withAbort);
      forall ks | ks in Types(pre + [Commit], n, withAbort)
        ensures ks !in Types(pre + [Abort], n, withAbort)
      {
        TypesMembers(pre + [Commit], n, withAbort, ks);
        TypesMembers(pre + [Abort], n, withAbort, ks);
        assert pre + [Commit] <= ks && ks[|pre|] == Commit;
      }
      DistinctConcat(Types(pre + [Commit], n, withAbort), Types(pre + [Abort], n, withAbort));
    }
  }

  // ----- orders of the transactions ---------------------------------------------------------

  function Without(s: seq<nat>, i: nat): (r: seq<nat>)
    requires i < |s|
    ensures |r| == |s| - 1
  {
    s[..i] + s[i + 1..]
  }

  function Prepend(x: nat, ps: seq<seq<nat>>): (r: seq<seq<nat>>)
    ensures |r| == |ps| && forall i :: 0 <= i < |ps| ==> r[i] == [x] + ps[i]
  {
    seq(|ps|, i requires 0 <= i < |ps| => [x] + ps[i])
  }

  /** All arrangements of ascending numbers, in lexicographic order. */
  function Perms(s: seq<nat>): seq<seq<nat>>
    decreases |s|, |s| + 1
  {
    if s == [] then [[]] else PermsFrom(s, 0)
  }

  /** Those that begin with the `i`-th number or a later one. */
  function PermsFrom(s: seq<nat>, i: nat): seq<seq<nat>>
    requires i <= |s|
    decreases |s|, |s| - i
  {
    if i == |s| then [] else Prepend(s[i], Perms(Without(s, i))) + PermsFrom(s, i + 1)
  }

  ghost predicate Arranges(p: seq<nat>, s: seq<nat>) {
    multiset(p) == multiset(s)
  }

  lemma WithoutBag(s: seq<nat>, i: nat)
    requires i < |s|
    ensures multiset(s) == multiset(Without(s, i)) + multiset{s[i]}
  {
    assert s == s[..i] + [s[i]] + s[i + 1..];
  }

  lemma PrependMembers(x: nat, ps: seq<seq<nat>>, p: seq<nat>)
    ensures p in Prepend(x, ps) <==> p != [] && p[0] == x && p[1..] in ps
  {
    if p != [] && p[0] == x && p[1..] in ps {
      var i :| 0 <= i < |ps| && ps[i] == p[1..];
      assert p == [x] + p[1..];
      assert Prepend(x, ps)[i] == p;
    }
  }

  lemma FirstArranged(p: seq<nat>, s: seq<nat>, i: nat)
    requires i < |s| && p != [] && p[0] == s[i]
    ensures Arranges(p, s) <==> Arranges(p[1..], Without(s, i))
  {
    assert p == [p[0]] + p[1..];
    assert multiset(p) == multiset{p[0]} + multiset(p[1..]);
    WithoutBag(s, i);
    assert multiset(p[1..]) == multiset(p) - multiset{p[0]};
    assert multiset(Without(s, i)) == multiset(s) - multiset{s[i]};
  }

  /** Exactly the arrangements are listed. */
  lemma {:induction false} PermsMembers(s: seq<nat>, p: seq<nat>)
    ensures p in Perms(s) <==> Arranges(p, s)
    decreases |s|, |s| + 1
  {
    if s == [] {
      assert Arranges(p, s) ==> |multiset(p)| == 0;
    } else {
      PermsFromMembers(s, 0, p);
      if Arranges(p, s) {
        assert |multiset(p)| == |s|;
        assert p[0] in multiset(p);
        assert p[0] in s;
      }
    }
  }

  lemma {:induction false} PermsFromMembers(s: seq<nat>, i: nat, p: seq<nat>)
    requires i <= |s|
    ensures p in PermsFrom(s, i) <==> p != [] && p[0] in s[i..] && Arranges(p, s)
    decreases |s|, |s| - i
  {
    if i < |s| {
      PrependMembers(s[i], Perms(Without(s, i)), p);
      PermsFromMembers(s, i + 1, p);
      assert s[i..] == [s[i]] + s[i + 1..];
      if p != [] && p[0] == s[i] {
        PermsMembers(Without(s, i), p[1..]);
        FirstArranged(p, s, i);
      }
    }
  }

  ghost predicate Ascending(s: seq<nat>) {
    forall i, j :: 0 <= i < j < |s| ==> s[i] < s[j]
  }

  /** Lexicographically smaller: at the first difference. */
  ghost predicate Before(p: seq<nat>, q: seq<nat>) {
    exists m :: 0 <= m < |p| && m < |q| && p[..m] == q[..m] && p[m] < q[m]
  }

  ghost predicate Sorted(ps: seq<seq<nat>>) {
    forall i, j :: 0 <= i < j < |ps| ==> Before(ps[i], ps[j])
  }

  lemma SortedConcat(ps: seq<seq<nat>>, qs: seq<seq<nat>>)
    requires Sorted(ps) && Sorted(qs) && forall p, q :: p in ps && q in qs ==> Before(p, q)
    ensures Sorted(ps + qs)
  {
    hide Before;
    forall i, j | 0 <= i < j < |ps + qs|
      ensures Before((ps + qs)[i], (ps + qs)[j])
    {
      if i < |ps| <= j {
        assert ps[i] in ps && qs[j - |ps|] in qs;
      }
    }
  }

  lemma PrependSorted(x: nat, ps: seq<seq<nat>>)
    requires Sorted(ps)
    ensures Sorted(Prepend(x, ps))
  {
    var r := Prepend(x, ps);
    forall i, j | 0 <= i < j < |r|
      ensures Before(r[i], r[j])
    {
      assert Before(ps[i], ps[j]);
      var m :| 0 <= m < |ps[i]| && m < |ps[j]| && ps[i][..m] == ps[j][..m] && ps[i][m] < ps[j][m];
      assert r[i][..m + 1] == [x] + ps[i][..m] && r[j][..m + 1] == [x] + ps[j][..m];
    }
  }

  lemma WithoutAscending(s: seq<nat>, i: nat)
    requires i < |s| && Ascending(s)
    ensures Ascending(Without(s, i))
  {
  }

  /** In lexicographic order: each is the next permutation after the one before it. */
  lemma {:induction false} PermsSorted(s: seq<nat>)
    requires Ascending(s)
    ensures Sorted(Perms(s))
    decreases |s|, |s| + 1
  {
    if s != [] {
      PermsFromSorted(s, 0);
    }
  }

  lemma {:induction false} PermsFromSorted(s: seq<nat>, i: nat)
    requires i <= |s| && Ascending(s)
    ensures Sorted(PermsFrom(s, i))
    decreases |s|, |s| - i
  {
    if i < |s| {
      var ps, qs := Prepend(s[i], Perms(Without(s, i))), PermsFrom(s, i + 1);
      WithoutAscending(s, i);
      PermsSorted(Without(s, i));
      PrependSorted(s[i], Perms(Without(s, i)));
      PermsFromSorted(s, i + 1);
      forall p, q | p in ps && q in qs
        ensures Before(p, q)
      {
        PrependMembers(s[i], Perms(Without(s, i)), p);
        PermsFromMembers(s, i + 1, q);
        assert p[..0] == q[..0];
      }
      SortedConcat(ps, qs);
    }
  }

  lemma {:induction false} FirstIsAscending(s: seq<nat>)
    ensures Perms(s) != [] && Perms(s)[0] == s
    decreases |s|
  {
    if s != [] {
      FirstIsAscending(Without(s, 0));
      assert Without(s, 0) == s[1..];
      assert [s[0]] + s[1..] == s;
    }
  }

  /** The list runs from the ascending order through the next permutation each time, the least one above,
      to the one that has none above. */
  lemma NextIsLeastAbove(s: seq<nat>, i: nat, q: seq<nat>)
    requires Ascending(s) && i < |Perms(s)| && Arranges(q, s) && Before(Perms(s)[i], q)
    ensures Perms(s)[0] == s && i + 1 < |Perms(s)|
    ensures q == Perms(s)[i + 1] || Before(Perms(s)[i + 1], q)
  {
    hide Perms, Arranges;
    FirstIsAscending(s);
    PermsSorted(s);
    PermsMembers(s, q);
    var j :| 0 <= j < |Perms(s)| && Perms(s)[j] == q;
    if j < i {
      assert Before(q, Perms(s)[i]);
      BeforeIsStrict(q, Perms(s)[i]);
    } else if j == i {
      BeforeIsStrict(q, q);
    }
  }

  lemma BeforeIsStrict(p: seq<nat>, q: seq<nat>)
    requires Before(p, q)
    ensures !Before(q, p)
  {
    var m :| 0 <= m < |p| && m < |q| && p[..m] == q[..m] && p[m] < q[m];
    forall n | 0 <= n < |p| && n < |q| && p[..n] == q[..n]
      ensures p[n] <= q[n]
    {
      if n < m {
        SameBelow(p, q, m, n);
      } else if m < n {
        SameBelow(p, q, n, m);
      }
    }
  }

  lemma SameBelow(p: seq<nat>, q: seq<nat>, m: nat, i: nat)
    requires i < m <= |p| && m <= |q| && p[..m] == q[..m]
    ensures p[i] == q[i]
  {
    assert p[..m][i] == q[..m][i];
  }

  lemma SortedDistinct(ps: seq<seq<nat>>)
    requires Sorted(ps)
    ensures Distinct(ps)
  {
  }

  // ----- terminator lists -------------------------------------------------------------------

  function UpTo(n: nat): (s: seq<nat>)
    ensures |s| == n && forall i :: 0 <= i < n ==> s[i] == i
  {
    seq(n, i => i)
  }

  /** The terminators of the transactions in the order `p`, each ended as `ks` says. */
  function Terms(ks: seq<Type>, p: seq<nat>): (d: seq<Action>)
    requires forall i :: 0 <= i < |p| ==> p[i] < |ks|
    ensures |d| == |p|
  {
    seq(|p|, i requires 0 <= i < |p| => Action(ks[p[i]], p[i], 0))
  }

  // ----- doing something for each element of a list ------------------------------------------

  function ForEach<T, U>(xs: seq<T>, f: T -> seq<U>): seq<U> {
    if xs == [] then [] else ForEach(xs[..|xs| - 1], f) + f(xs[|xs| - 1])
  }

  lemma {:induction false} ForEachMembers<T, U>(xs: seq<T>, f: T -> seq<U>, w: U)
    ensures w in ForEach(xs, f) <==> exists x :: x in xs && w in f(x)
  {
    if xs != [] {
      ForEachMembers(xs[..|xs| - 1], f, w);
    }
  }

  /** Nothing comes twice if nothing comes twice for one element and two elements share nothing. */
  lemma {:induction false} ForEachDistinct<T, U>(xs: seq<T>, f: T -> seq<U>)
    requires Distinct(xs) && (forall x :: x in xs ==> Distinct(f(x)))
    requires forall x, y, w :: x in xs && y in xs && w in f(x) && w in f(y) ==> x == y
    ensures Distinct(ForEach(xs, f))
  {
    if xs != [] {
      var n := |xs| - 1;
      ForEachDistinct(xs[..n], f);
      forall w | w in ForEach(xs[..n], f)
        ensures w !in f(xs[n])
      {
        ForEachMembers(xs[..n], f, w);
      }
      DistinctConcat(ForEach(xs[..n], f), f(xs[n]));
    }
  }

  // ----- all terminator lists ---------------------------------------------------------------

  /** One terminator for each of the transactions 0 to n - 1, in some order. */
  ghost predicate EndsAll(d: seq<Action>, n: nat, withAbort: bool) {
    && |d| == n
    && (forall i :: 0 <= i < n ==> IsEnding(withAbort, d[i].kind) && d[i].item == 0)
    && Arranges(Order(d), UpTo(n))
  }

  function Order(d: seq<Action>): (p: seq<nat>)
    ensures |p| == |d| && forall i :: 0 <= i < |d| ==> p[i] == d[i].trans
  {
    seq(|d|, i requires 0 <= i < |d| => d[i].trans)
  }

  /** The lists for one choice of commits and aborts. */
  function InEveryOrder(ks: seq<Type>): seq<seq<Action>> {
    var ps := Perms(UpTo(|ks|));
    seq(|ps|, i requires 0 <= i < |ps| => PermsInRange(|ks|, ps[i]); Terms(ks, ps[i]))
  }

  lemma PermsInRange(n: nat, p: seq<nat>)
    requires p in Perms(UpTo(n))
    ensures |p| == n && forall i :: 0 <= i < |p| ==> p[i] < n
  {
    PermsMembers(UpTo(n), p);
    assert |multiset(p)| == |multiset(UpTo(n))|;
    forall i | 0 <= i < |p|
      ensures p[i] < n
    {
      assert p[i] in multiset(UpTo(n));
      assert p[i] in UpTo(n);
    }
  }

  function TerminatorLists(n: nat, withAbort: bool): seq<seq<Action>> {
    ForEach(Types([], n, withAbort), InEveryOrder)
  }

  lemma InEveryOrderMembers(ks: seq<Type>, d: seq<Action>)
    ensures d in InEveryOrder(ks) <==>
            && |d| == |ks| && Arranges(Order(d), UpTo(|ks|))
            && forall i :: 0 <= i < |d| ==> d[i].trans < |ks| && d[i] == Action(ks[d[i].trans], d[i].trans, 0)
  {
    var n, ps := |ks|, Perms(UpTo(|ks|));
    if d in InEveryOrder(ks) {
      var j :| 0 <= j < |ps| && InEveryOrder(ks)[j] == d;
      PermsInRange(n, ps[j]);
      PermsMembers(UpTo(n), ps[j]);
      assert Order(d) == ps[j];
    }
    if |d| == n && Arranges(Order(d), UpTo(n)) &&
       forall i :: 0 <= i < |d| ==> d[i].trans < n && d[i] == Action(ks[d[i].trans], d[i].trans, 0) {
      PermsMembers(UpTo(n), Order(d));
      var j :| 0 <= j < |ps| && ps[j] == Order(d);
      assert InEveryOrder(ks)[j] == d;
    }
  }

  lemma InEveryOrderDistinct(ks: seq<Type>)
    ensures Distinct(InEveryOrder(ks))
  {
    var n, ps, ds := |ks|, Perms(UpTo(|ks|)), InEveryOrder(ks);
    PermsSorted(UpTo(n));
    SortedDistinct(ps);
    forall i, j | 0 <= i < j < |ds|
      ensures ds[i] != ds[j]
    {
      PermsInRange(n, ps[i]);
      PermsInRange(n, ps[j]);
      assert Order(ds[i]) == ps[i] && Order(ds[j]) == ps[j];
    }
  }

  /** Every transaction has a place in the order. */
  lemma PlaceOf(d: seq<Action>, n: nat, t: nat) returns (i: nat)
    requires |d| == n && Arranges(Order(d), UpTo(n)) && t < n
    ensures i < n && d[i].trans == t
  {
    assert UpTo(n)[t] == t;
    assert t in multiset(UpTo(n));
    assert t in Order(d);
    i :| 0 <= i < n && Order(d)[i] == t;
  }

  /** The choice of commits and aborts can be read off the list. */
  lemma SameChoice(ks: seq<Type>, ks': seq<Type>, d: seq<Action>)
    requires d in InEveryOrder(ks) && d in InEveryOrder(ks')
    ensures ks == ks'
  {
    hide InEveryOrder, Arranges;
    InEveryOrderMembers(ks, d);
    InEveryOrderMembers(ks', d);
    forall t | 0 <= t < |ks|
      ensures ks[t] == ks'[t]
    {
      var i := PlaceOf(d, |ks|, t);
    }
  }

  lemma CountedTwice(p: seq<nat>, i: nat, j: nat)
    requires i < j < |p| && p[i] == p[j]
    ensures multiset(p)[p[i]] >= 2
  {
    assert p == p[..j] + [p[j]] + p[j + 1..];
    assert p[..j][i] == p[i];
  }

  lemma CountedOnce(n: nat, v: nat)
    requires v < n
    ensures multiset(UpTo(n))[v] == 1
  {
    var s := UpTo(n);
    assert s == s[..v] + [v] + s[v + 1..];
  }

  /** No transaction comes twice. */
  lemma PlacesDiffer(d: seq<Action>, n: nat, i: nat, j: nat)
    requires |d| == n && Arranges(Order(d), UpTo(n)) && i < j < n
    ensures d[i].trans != d[j].trans
  {
    var p := Order(d);
    assert p[i] in multiset(UpTo(n));
    assert p[i] in UpTo(n);
    CountedOnce(n, p[i]);
    if p[i] == p[j] {
      CountedTwice(p, i, j);
    }
  }

  lemma {:induction false} ChoiceOf(d: seq<Action>, n: nat, withAbort: bool) returns (ks: seq<Type>)
    requires EndsAll(d, n, withAbort)
    ensures |ks| == n && Endings(withAbort, ks) && d in InEveryOrder(ks)
  {
    ks := [];
    for t := 0 to n
      invariant |ks| == t && Endings(withAbort, ks)
      invariant forall i :: 0 <= i < n && d[i].trans < t ==> d[i].kind == ks[d[i].trans]
    {
      var i := PlaceOf(d, n, t);
      ks := ks + [d[i].kind];
      forall j | 0 <= j < n && d[j].trans == t
        ensures j == i
      {
        if j < i {
          PlacesDiffer(d, n, j, i);
        } else if i < j {
          PlacesDiffer(d, n, i, j);
        }
      }
    }
    forall i | 0 <= i < n
      ensures d[i].trans < n
    {
      assert Order(d)[i] in multiset(UpTo(n));
      assert d[i].trans in UpTo(n);
    }
    InEveryOrderMembers(ks, d);
  }

  /** Exactly the lists with one terminator for each transaction are produced, and each once. */
  lemma TerminatorListsAll(n: nat, withAbort: bool, d: seq<Action>)
    ensures d in TerminatorLists(n, withAbort) <==> EndsAll(d, n, withAbort)
    ensures Distinct(TerminatorLists(n, withAbort))
  {
    hide InEveryOrder, Types, Arranges;
    var kss := Types([], n, withAbort);
    ForEachMembers(kss, InEveryOrder, d);
    if d in TerminatorLists(n, withAbort) {
      var ks :| ks in kss && d in InEveryOrder(ks);
      TypesMembers([], n, withAbort, ks);
      InEveryOrderMembers(ks, d);
    }
    if EndsAll(d, n, withAbort) {
      var ks := ChoiceOf(d, n, withAbort);
      TypesMembers([], n, withAbort, ks);
    }
    TypesDistinct([], n, withAbort);
    forall ks | ks in kss
      ensures Distinct(InEveryOrder(ks))
    {
      InEveryOrderDistinct(ks);
    }
    forall ks, ks', e | ks in kss && ks' in kss && e in InEveryOrder(ks) && e in InEveryOrder(ks')
      ensures ks == ks'
    {
      SameChoice(ks, ks', e);
    }
    ForEachDistinct(kss, InEveryOrder);
  }

  // ----- the code: push, recurse, pop, and step through the permutations --------------------

  /** `std::next_permutation` on an order of the transactions 0 to n - 1: the one after it in
      lexicographic order, or back to the first. */
  method NextPermutation(p: seq<nat>, n: nat, ghost at: nat) returns (more: bool, q: seq<nat>)
    requires at < |Perms(UpTo(n))| && p == Perms(UpTo(n))[at]
    ensures more <==> at + 1 < |Perms(UpTo(n))|
    ensures q == Perms(UpTo(n))[if more then at + 1 else 0]
  {
    var ps := Perms(UpTo(n));
    PermsSorted(UpTo(n));
    SortedDistinct(ps);
    var i := 0;
    while ps[i] != p
      invariant i <= at
      decreases at - i
    {
      i := i + 1;
    }
    more := i + 1 < |ps|;
    q := ps[if more then i + 1 else 0];
  }

  class TerminatorCreator {
    const withAbort: bool
    var types: seq<Type>
    var handled: seq<seq<Action>>

    constructor (withAbort: bool)
      ensures this.withAbort == withAbort && types == [] && handled == []
    {
      this.withAbort := withAbort;
      types, handled := [], [];
    }

    /** Everything below the endings chosen so far is handled, in order; the vector comes back as it was,
        unless there is no choice, when it is filled with commits. */
    method Fill(n: nat)
      requires |types| <= n && Endings(withAbort, types)
      modifies this
      ensures handled == old(handled) + ForEach(Types(old(types), n, withAbort), InEveryOrder)
      ensures types == if withAbort then old(types) else seq(n, i => Commit)
      decreases n - |types|
    {
      if !withAbort {
        types := seq(n, i => Commit);
      }
      if |types| == n {
        OneChoice(types);
        HandleAll(n);
      } else {
        TwoChoices(types, n);
        ghost var start := types;
        types := types + [Commit];
        Fill(n);
        types := types[..|types| - 1];
        types := types + [Abort];
        Fill(n);
        types := types[..|types| - 1];
        assert types == start;
      }
    }

    /** All orders of the transactions. */
    method HandleAll(n: nat)
      requires |types| == n
      modifies this`handled
      ensures handled == old(handled) + InEveryOrder(types)
    {
      var order := UpTo(n);
      FirstIsAscending(order);
      ghost var all, at := InEveryOrder(types), 0;
      var more := true;
      while more
        invariant at <= |all| && handled == old(handled) + all[..at]
        invariant more <==> at < |all|
        invariant more ==> order == Perms(UpTo(n))[at]
        decreases |all| - at
      {
        PermsInRange(n, order);
        handled := handled + [Terms(types, order)];
        more, order := NextPermutation(order, n, at);
        assert all[..at + 1] == all[..at] + [all[at]];
        at := at + 1;
      }
      assert all[..at] == all;
    }
  }

  lemma OneChoice(ks: seq<Type>)
    ensures ForEach([ks], InEveryOrder) == InEveryOrder(ks)
  {
    assert [ks][..0] == [];
    assert ForEach([ks][..0], InEveryOrder) == [];
  }

  lemma {:induction false} ForEachConcat<T, U>(xs: seq<T>, ys: seq<T>, f: T -> seq<U>)
    ensures ForEach(xs + ys, f) == ForEach(xs, f) + ForEach(ys, f)
    decreases |ys|
  {
    if ys == [] {
      assert xs + ys == xs;
    } else {
      var n := |ys| - 1;
      ForEachConcat(xs, ys[..n], f);
      assert (xs + ys)[..|xs + ys| - 1] == xs + ys[..n];
    }
  }

  lemma TwoChoices(pre: seq<Type>, n: nat)
    requires |pre| < n
    ensures ForEach(Types(pre, n, true), InEveryOrder) ==
            ForEach(Types(pre + [Commit], n, true), InEveryOrder) + ForEach(Types(pre + [Abort], n, true), InEveryOrder)
  {
    ForEachConcat(Types(pre + [Commit], n, true), Types(pre + [Abort], n, true), InEveryOrder);
  }
}

/** The enumerating object of benchmarks/creator.cpp: pushes and pops actions on one vector, counts what
    it visits and hands every subtask its share. */
module HistoryCreator {
  import opened Interleavings
  import opened Histories

  /** What the handler is given: the actions, the running number and the number of transactions. */
  datatype Handled = Handled(actions: seq<Action>, seqId: nat, transCnt: nat)

  /** How many subtasks there are, and whether histories with fewer transactions than asked are kept. */
  datatype Task = Task(opt: Options, subtaskNum: nat, saveAll: bool)

  datatype Counters = Counters(dfsCnt: nat, seqId: nat, cutDown: nat, handled: seq<Handled>)

  predicate Keep(t: Task, z: seq<Action>) {
    TransTop(z) == t.opt.transNum || t.saveAll
  }

  /** One visited sequence. */
  function Count(t: Task, c: Counters, z: seq<Action>): Counters
    requires t.subtaskNum > 0
  {
    var turn := c.dfsCnt == t.subtaskNum;
    Counters((if turn then 0 else c.dfsCnt) + 1, c.seqId + 1,
             if turn && !Keep(t, z) then c.cutDown + 1 else c.cutDown,
             if turn && Keep(t, z) then c.handled + [Handled(z, c.seqId, TransTop(z))] else c.handled)
  }

  function CountAll(t: Task, c: Counters, zs: seq<seq<Action>>): Counters
    requires t.subtaskNum > 0
    decreases |zs|
  {
    if zs == [] then c else CountAll(t, Count(t, c, zs[0]), zs[1..])
  }

  lemma {:induction false} CountConcat(t: Task, c: Counters, xs: seq<seq<Action>>, ys: seq<seq<Action>>)
    requires t.subtaskNum > 0
    ensures CountAll(t, c, xs + ys) == CountAll(t, CountAll(t, c, xs), ys)
    decreases |xs|
  {
    if xs == [] {
      assert xs + ys == ys;
    } else {
      assert (xs + ys)[1..] == xs[1..] + ys;
      CountConcat(t, Count(t, c, xs[0]), xs[1..], ys);
    }
  }

  // ----- the share of a subtask -------------------------------------------------------------

  /** Those visited sequences whose running number is the subtask's modulo the number of subtasks. */
  function Share(t: Task, id: nat, zs: seq<seq<Action>>): seq<Handled>
    requires t.subtaskNum > 0
  {
    if zs == [] then [] else
      var n := |zs| - 1;
      Share(t, id, zs[..n]) +
      (if n % t.subtaskNum == id && Keep(t, zs[n]) then [Handled(zs[n], n, TransTop(zs[n]))] else [])
  }

  /** The counter runs from 1 to the number of subtasks and is there exactly in the subtask's turn. */
  function Phase(n: nat, id: nat, j: nat): nat
    requires id < n
  {
    if j % n <= id then n - (id - j % n) else j % n - id
  }

  lemma NextMod(n: nat, j: nat)
    requires n > 0
    ensures (j + 1) % n == if j % n + 1 == n then 0 else j % n + 1
  {
    var q, r := j / n, j % n;
    if r + 1 == n {
      assert n * (q + 1) == n * q + n;
      DivisionUnique(n, q + 1, 0, (j + 1) / n, (j + 1) % n);
    } else {
      DivisionUnique(n, q, r + 1, (j + 1) / n, (j + 1) % n);
    }
  }

  lemma DivisionUnique(n: nat, q: nat, r: nat, q': nat, r': nat)
    requires r < n && r' < n && n * q + r == n * q' + r'
    ensures q == q' && r == r'
  {
    if q < q' {
      MultiplesApart(n, q, q');
    } else if q' < q {
      MultiplesApart(n, q', q);
    }
  }

  lemma {:induction false} MultiplesApart(n: nat, p: nat, q: nat)
    requires p < q
    ensures n * q >= n * p + n
    decreases q
  {
    assert n * q == n * (q - 1) + n;
    if p < q - 1 {
      MultiplesApart(n, p, q - 1);
    }
  }

  lemma {:induction false} CountsShare(t: Task, id: nat, zs: seq<seq<Action>>)
    requires id < t.subtaskNum
    ensures var c := CountAll(t, Counters(t.subtaskNum - id, 0, 0, []), zs);
            c.seqId == |zs| && c.dfsCnt == Phase(t.subtaskNum, id, |zs|) && c.handled == Share(t, id, zs)
  {
    if zs != [] {
      var n := |zs| - 1;
      var start := Counters(t.subtaskNum - id, 0, 0, []);
      assert zs == zs[..n] + [zs[n]];
      CountConcat(t, start, zs[..n], [zs[n]]);
      assert [zs[n]][1..] == [];
      CountsShare(t, id, zs[..n]);
      NextMod(t.subtaskNum, n);
    }
  }

  lemma {:induction false} ShareMembers(t: Task, id: nat, zs: seq<seq<Action>>, h: Handled)
    requires t.subtaskNum > 0
    ensures h in Share(t, id, zs) <==>
            && h.seqId < |zs| && h.seqId % t.subtaskNum == id
            && h.actions == zs[h.seqId] && Keep(t, h.actions) && h.transCnt == TransTop(h.actions)
  {
    if zs != [] {
      ShareMembers(t, id, zs[..|zs| - 1], h);
    }
  }

  // ----- the recursion ----------------------------------------------------------------------

  class TraversalCreator {
    const task: Task
    var actions: seq<Action>
    var dfsCnt: nat
    var seqId: nat
    var cutDown: nat
    var handled: seq<Handled>

    constructor (task: Task, subtaskId: nat)
      requires subtaskId < task.subtaskNum
      ensures this.task == task && actions == []
      ensures Contents() == Counters(task.subtaskNum - subtaskId, 0, 0, [])
    {
      this.task := task;
      actions, dfsCnt, seqId, cutDown, handled := [], task.subtaskNum - subtaskId, 0, 0, [];
    }

    function Contents(): Counters
      reads this
    {
      Counters(dfsCnt, seqId, cutDown, handled)
    }

    /** Counts the current sequence and handles it if it is this subtask's turn. */
    method Arrive(maxTransId: nat)
      requires task.subtaskNum > 0 && maxTransId == TransTop(actions)
      modifies this
      ensures actions == old(actions) && Contents() == Count(task, old(Contents()), actions)
    {
      if dfsCnt == task.subtaskNum {
        if maxTransId == task.opt.transNum || task.saveAll {
          handled := handled + [Handled(actions, seqId, maxTransId)];
        } else {
          cutDown := cutDown + 1;
        }
        dfsCnt := dfsCnt - task.subtaskNum;
      }
      seqId := seqId + 1;
      dfsCnt := dfsCnt + 1;
    }

    /** RecursiveFillDMLActionSeq: counts everything below the current actions and restores them. */
    method Fill(maxTransId: nat, maxItemId: nat)
      requires task.subtaskNum > 0 && |actions| <= task.opt.maxDml
      requires maxTransId == TransTop(actions) && maxItemId == ItemTop(actions)
      modifies this
      ensures actions == old(actions)
      ensures Contents() == CountAll(task, old(Contents()), Visit(task.opt, actions, maxTransId, maxItemId))
      decreases task.opt.maxDml - |actions|, 3
    {
      hide CountAll, VisitTrans;
      var o := task.opt;
      ghost var c0 := Contents();
      if o.dynamic || |actions| == o.maxDml {
        Arrive(maxTransId);
      }
      VisitSplit(task, c0, actions, maxTransId, maxItemId);
      if |actions| != o.maxDml {
        ghost var a, c1 := actions, Contents();
        var t := 0;
        CountNone(task, Contents());
        while t < Min(maxTransId + 1, o.transNum)
          invariant actions == a
          invariant CountAll(task, Contents(), VisitTrans(o, a, maxTransId, maxItemId, t)) ==
                    CountAll(task, c1, VisitTrans(o, a, maxTransId, maxItemId, 0))
        {
          TransTurn(task, Contents(), a, maxTransId, maxItemId, t);
          FillItems(maxTransId, maxItemId, t);
          t := t + 1;
        }
        TransEnd(task, Contents(), a, maxTransId, maxItemId, t);
      }
    }

    /** The loop over the items for one transaction. */
    method FillItems(maxTransId: nat, maxItemId: nat, t: nat)
      requires task.subtaskNum > 0 && |actions| < task.opt.maxDml
      requires maxTransId == TransTop(actions) && maxItemId == ItemTop(actions)
      modifies this
      ensures actions == old(actions)
      ensures Contents() == CountAll(task, old(Contents()), VisitItems(task.opt, actions, maxTransId, maxItemId, t, 0))
      decreases task.opt.maxDml - |actions|, 2
    {
      hide CountAll, VisitItems, VisitAction;
      var o := task.opt;
      ghost var a, c1 := actions, Contents();
      var i := 0;
      while i < Min(maxItemId + 1, o.itemNum)
        invariant actions == a
        invariant CountAll(task, Contents(), VisitItems(o, a, maxTransId, maxItemId, t, i)) ==
                  CountAll(task, c1, VisitItems(o, a, maxTransId, maxItemId, t, 0))
      {
        ItemsTurn(task, Contents(), a, maxTransId, maxItemId, t, i);
        Try(maxTransId, maxItemId, Action(Read, t, i));
        Try(maxTransId, maxItemId, Action(Write, t, i));
        i := i + 1;
      }
      ItemsEnd(task, Contents(), a, maxTransId, maxItemId, t, i);
    }

    /** Pushes one action, recurses and pops it, unless it repeats the read before it. */
    method Try(maxTransId: nat, maxItemId: nat, x: Action)
      requires task.subtaskNum > 0 && |actions| < task.opt.maxDml
      requires maxTransId == TransTop(actions) && maxItemId == ItemTop(actions)
      modifies this
      ensures actions == old(actions)
      ensures Contents() == CountAll(task, old(Contents()), VisitAction(task.opt, actions, maxTransId, maxItemId, x))
      decreases task.opt.maxDml - |actions|, 1
    {
      hide CountAll, Visit, VisitAction, TransTop, ItemTop;
      var cur := |actions|;
      ActionTurn(task, Contents(), actions, maxTransId, maxItemId, x);
      if cur > 0 && x.kind == Read && actions[cur - 1] == x {
        return;
      }
      TopStep(actions, x);
      actions := actions + [x];
      Fill(Max(x.trans + 1, maxTransId), Max(x.item + 1, maxItemId));
      actions := actions[..cur];
    }

    /** DeliverActionSequences: a subtask handles exactly the visited sequences of its residue class. */
    method Deliver(ghost subtaskId: nat)
      requires subtaskId < task.subtaskNum && actions == []
      requires Contents() == Counters(task.subtaskNum - subtaskId, 0, 0, [])
      modifies this
      ensures actions == [] && handled == Share(task, subtaskId, Visit(task.opt, [], 0, 0))
    {
      Fill(0, 0);
      CountsShare(task, subtaskId, Visit(task.opt, [], 0, 0));
    }
  }

  lemma CountNone(t: Task, c: Counters)
    requires t.subtaskNum > 0
    ensures CountAll(t, c, []) == c
  {
  }

  lemma ActionTurn(t: Task, c: Counters, a: seq<Action>, maxTrans: nat, maxItem: nat, x: Action)
    requires t.subtaskNum > 0 && |a| < t.opt.maxDml
    ensures CountAll(t, c, VisitAction(t.opt, a, maxTrans, maxItem, x)) ==
            if Repeats(a, x) then c
            else CountAll(t, c, Visit(t.opt, a + [x], Max(x.trans + 1, maxTrans), Max(x.item + 1, maxItem)))
  {
  }

  lemma VisitSplit(t: Task, c: Counters, a: seq<Action>, maxTrans: nat, maxItem: nat)
    requires t.subtaskNum > 0 && |a| <= t.opt.maxDml
    ensures var c1 := if t.opt.dynamic || |a| == t.opt.maxDml then Count(t, c, a) else c;
            CountAll(t, c, Visit(t.opt, a, maxTrans, maxItem)) ==
            if |a| == t.opt.maxDml then c1 else CountAll(t, c1, VisitTrans(t.opt, a, maxTrans, maxItem, 0))
  {
    var here := if t.opt.dynamic || |a| == t.opt.maxDml then [a] else [];
    var below := if |a| == t.opt.maxDml then [] else VisitTrans(t.opt, a, maxTrans, maxItem, 0);
    CountConcat(t, c, here, below);
    assert [a][1..] == [];
  }

  lemma TransTurn(k: Task, c: Counters, a: seq<Action>, maxTrans: nat, maxItem: nat, t: nat)
    requires k.subtaskNum > 0 && |a| < k.opt.maxDml && t < Min(maxTrans + 1, k.opt.transNum)
    ensures var here := VisitItems(k.opt, a, maxTrans, maxItem, t, 0);
            CountAll(k, c, VisitTrans(k.opt, a, maxTrans, maxItem, t)) ==
            CountAll(k, CountAll(k, c, here), VisitTrans(k.opt, a, maxTrans, maxItem, t + 1))
  {
    CountConcat(k, c, VisitItems(k.opt, a, maxTrans, maxItem, t, 0), VisitTrans(k.opt, a, maxTrans, maxItem, t + 1));
  }

  lemma TransEnd(k: Task, c: Counters, a: seq<Action>, maxTrans: nat, maxItem: nat, t: nat)
    requires k.subtaskNum > 0 && |a| < k.opt.maxDml && t >= Min(maxTrans + 1, k.opt.transNum)
    ensures CountAll(k, c, VisitTrans(k.opt, a, maxTrans, maxItem, t)) == c
  {
  }

  lemma ItemsTurn(k: Task, c: Counters, a: seq<Action>, maxTrans: nat, maxItem: nat, t: nat, i: nat)
    requires k.subtaskNum > 0 && |a| < k.opt.maxDml && i < Min(maxItem + 1, k.opt.itemNum)
    ensures var r := VisitAction(k.opt, a, maxTrans, maxItem, Action(Read, t, i));
            var w := VisitAction(k.opt, a, maxTrans, maxItem, Action(Write, t, i));
            CountAll(k, c, VisitItems(k.opt, a, maxTrans, maxItem, t, i)) ==
            CountAll(k, CountAll(k, CountAll(k, c, r), w), VisitItems(k.opt, a, maxTrans, maxItem, t, i + 1))
  {
    hide VisitAction;
    var r := VisitAction(k.opt, a, maxTrans, maxItem, Action(Read, t, i));
    var w := VisitAction(k.opt, a, maxTrans, maxItem, Action(Write, t, i));
    CountConcat(k, c, r + w, VisitItems(k.opt, a, maxTrans, maxItem, t, i + 1));
    CountConcat(k, c, r, w);
  }

  lemma ItemsEnd(k: Task, c: Counters, a: seq<Action>, maxTrans: nat, maxItem: nat, t: nat, i: nat)
    requires k.subtaskNum > 0 && |a| < k.opt.maxDml && i >= Min(maxItem + 1, k.opt.itemNum)
    ensures CountAll(k, c, VisitItems(k.opt, a, maxTrans, maxItem, t, i)) == c
  {
  }

  /** The subtasks share out the visited sequences: each kept one is handled by exactly one subtask. */
  lemma SubtasksPartition(t: Task, j: nat, id: nat)
    requires id < t.subtaskNum && j < |Visit(t.opt, [], 0, 0)| && Keep(t, Visit(t.opt, [], 0, 0)[j])
    ensures var zs := Visit(t.opt, [], 0, 0);
            var c := CountAll(t, Counters(t.subtaskNum - id, 0, 0, []), zs);
            Handled(zs[j], j, TransTop(zs[j])) in c.handled <==> id == j % t.subtaskNum
  {
    hide Visit, CountAll, Share;
    var zs := Visit(t.opt, [], 0, 0);
    CountsShare(t, id, zs);
    ShareMembers(t, id, zs, Handled(zs[j], j, TransTop(zs[j])));
  }
}

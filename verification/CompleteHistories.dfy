/** The whole enumeration of benchmarks/creator.cpp: sequences of reads and writes, the terminator lists for
    each, and their interleavings. The subtasks together deliver every complete history exactly once. */
module CompleteHistories {
  import opened Interleavings
  import opened Histories
  import opened HistoryCreator
  import opened Terminators

  /** What to enumerate, whether transactions may abort, and whether all terminators stay at the end. */
  datatype Plan = Plan(task: Task, withAbort: bool, tailDtl: bool)

  /** HandleDTLActionSeq: one terminator list for one sequence of reads and writes. */
  function Interleaved(tail: bool, z: seq<Action>, d: seq<Action>): seq<seq<Action>> {
    if tail then [z + d] else Deliver(z + d, |z|)
  }

  function InterleavedWith(tail: bool, z: seq<Action>): seq<Action> -> seq<seq<Action>> {
    d => Interleaved(tail, z, d)
  }

  /** HandleDMLActionSeq: all terminator lists for one handled sequence. */
  function Completed(p: Plan, h: Handled): seq<seq<Action>> {
    ForEach(TerminatorLists(h.transCnt, p.withAbort), InterleavedWith(p.tailDtl, h.actions))
  }

  function Completion(p: Plan): Handled -> seq<seq<Action>> {
    h => Completed(p, h)
  }

  /** DeliverActionSequences: everything one subtask delivers. */
  function Delivered(p: Plan, id: nat): seq<seq<Action>>
    requires p.task.subtaskNum > 0
  {
    ForEach(Share(p.task, id, Visit(p.task.opt, [], 0, 0)), Completion(p))
  }

  /** One terminator for each transaction, behind its actions or behind all actions. */
  ghost predicate Ended(p: Plan, w: seq<Action>) {
    && EndsAll(Dtls(w), TransTop(Dmls(w)), p.withAbort)
    && (if p.tailDtl then w == Dmls(w) + Dtls(w) else EndsLast(w))
  }

  /** What the enumeration is for: canonical reads and writes that are to be kept, all transactions ended. */
  ghost predicate Complete(p: Plan, w: seq<Action>) {
    Canonical(p.task.opt, Dmls(w)) && Keep(p.task, Dmls(w)) && Ended(p, w)
  }

  // ----- one sequence of reads and writes ---------------------------------------------------

  ghost predicate AllDml(z: seq<Action>) {
    forall i :: 0 <= i < |z| ==> IsDml(z[i])
  }

  ghost predicate AllDtl(d: seq<Action>) {
    forall i :: 0 <= i < |d| ==> IsDtl(d[i])
  }

  lemma {:induction false} OnlyDmls(z: seq<Action>)
    requires AllDml(z)
    ensures Dmls(z) == z && Dtls(z) == []
  {
    if z != [] {
      OnlyDmls(z[..|z| - 1]);
    }
  }

  lemma {:induction false} PartsOf(z: seq<Action>, d: seq<Action>)
    requires AllDml(z) && AllDtl(d)
    ensures Dmls(z + d) == z && Dtls(z + d) == d
    decreases |d|
  {
    if d == [] {
      assert z + d == z;
      OnlyDmls(z);
    } else {
      var n := |d| - 1;
      PartsOf(z, d[..n]);
      assert (z + d)[..|z + d| - 1] == z + d[..n];
    }
  }

  lemma InterleavedMembers(tail: bool, z: seq<Action>, d: seq<Action>, w: seq<Action>)
    requires AllDml(z) && AllDtl(d)
    ensures w in Interleaved(tail, z, d) <==>
            Dmls(w) == z && Dtls(w) == d && (if tail then w == Dmls(w) + Dtls(w) else EndsLast(w))
    ensures Distinct(Interleaved(tail, z, d))
  {
    hide Deliver, EndsLast, Dmls, Dtls;
    DeliversAllInterleavings(z, d, w);
    PartsOf(z, d);
  }

  lemma EndsAllDtl(d: seq<Action>, n: nat, withAbort: bool)
    requires EndsAll(d, n, withAbort)
    ensures AllDtl(d)
  {
  }

  /** From one handled sequence come exactly its completions, each once. */
  lemma CompletedMembers(p: Plan, h: Handled, w: seq<Action>)
    requires AllDml(h.actions) && h.transCnt == TransTop(h.actions)
    ensures w in Completed(p, h) <==> Dmls(w) == h.actions && Ended(p, w)
  {
    hide TerminatorLists, EndsAll, EndsLast, Interleaved, Dmls, Dtls, AllDml, AllDtl, TransTop;
    var ds, f := TerminatorLists(h.transCnt, p.withAbort), InterleavedWith(p.tailDtl, h.actions);
    ForEachMembers(ds, f, w);
    if w in Completed(p, h) {
      var d :| d in ds && w in f(d);
      TerminatorListsAll(h.transCnt, p.withAbort, d);
      EndsAllDtl(d, h.transCnt, p.withAbort);
      InterleavedMembers(p.tailDtl, h.actions, d, w);
    }
    if Dmls(w) == h.actions && Ended(p, w) {
      var d := Dtls(w);
      TerminatorListsAll(h.transCnt, p.withAbort, d);
      EndsAllDtl(d, h.transCnt, p.withAbort);
      InterleavedMembers(p.tailDtl, h.actions, d, w);
      assert d in ds && w in f(d);
    }
  }

  lemma CompletedDistinct(p: Plan, h: Handled)
    requires AllDml(h.actions)
    ensures Distinct(Completed(p, h))
  {
    hide TerminatorLists, EndsAll, EndsLast, Interleaved, Dmls, Dtls, AllDml, AllDtl, Distinct;
    var n, ds, f := h.transCnt, TerminatorLists(h.transCnt, p.withAbort), InterleavedWith(p.tailDtl, h.actions);
    TerminatorListsAll(n, p.withAbort, []);
    forall d | d in ds
      ensures Distinct(f(d))
    {
      TerminatorListsAll(n, p.withAbort, d);
      EndsAllDtl(d, n, p.withAbort);
      InterleavedMembers(p.tailDtl, h.actions, d, []);
    }
    forall d, d', w | d in ds && d' in ds && w in f(d) && w in f(d')
      ensures d == d'
    {
      TerminatorListsAll(n, p.withAbort, d);
      TerminatorListsAll(n, p.withAbort, d');
      EndsAllDtl(d, n, p.withAbort);
      EndsAllDtl(d', n, p.withAbort);
      InterleavedMembers(p.tailDtl, h.actions, d, w);
      InterleavedMembers(p.tailDtl, h.actions, d', w);
    }
    ForEachDistinct(ds, f);
  }

  // ----- all of them ------------------------------------------------------------------------

  lemma CanonicalIsDml(o: Options, z: seq<Action>)
    requires Canonical(o, z)
    ensures AllDml(z)
  {
  }

  /** What a subtask handles: the visited sequences of its residue class that are to be kept. */
  lemma HandledOk(t: Task, id: nat, h: Handled)
    requires t.subtaskNum > 0 && h in Share(t, id, Visit(t.opt, [], 0, 0))
    ensures h.seqId < |Visit(t.opt, [], 0, 0)| && h.actions == Visit(t.opt, [], 0, 0)[h.seqId]
    ensures h.seqId % t.subtaskNum == id && h.transCnt == TransTop(h.actions) && Keep(t, h.actions)
    ensures Canonical(t.opt, h.actions) && AllDml(h.actions)
  {
    hide Visit, Share, Canonical, TransTop, Keep, AllDml;
    ShareMembers(t, id, Visit(t.opt, [], 0, 0), h);
    VisitsAllCanonical(t.opt, h.actions);
    CanonicalIsDml(t.opt, h.actions);
  }

  lemma {:induction false} ShareDistinct(t: Task, id: nat, zs: seq<seq<Action>>)
    requires t.subtaskNum > 0
    ensures Distinct(Share(t, id, zs))
  {
    if zs != [] {
      hide Keep;
      var n := |zs| - 1;
      ShareDistinct(t, id, zs[..n]);
      forall h | h in Share(t, id, zs[..n])
        ensures h.seqId < n
      {
        ShareMembers(t, id, zs[..n], h);
      }
      var last := if n % t.subtaskNum == id && Keep(t, zs[n]) then [Handled(zs[n], n, TransTop(zs[n]))] else [];
      DistinctConcat(Share(t, id, zs[..n]), last);
    }
  }

  /** A number visited twice would be the same number. */
  lemma SameNumber(o: Options, i: nat, j: nat)
    requires i < |Visit(o, [], 0, 0)| && j < |Visit(o, [], 0, 0)|
    requires Visit(o, [], 0, 0)[i] == Visit(o, [], 0, 0)[j]
    ensures i == j
  {
    hide Visit;
    VisitsAllCanonical(o, []);
  }

  /** A delivered history comes from the one handled sequence that has its reads and writes. */
  lemma DeliveredFrom(p: Plan, id: nat, w: seq<Action>) returns (h: Handled)
    requires p.task.subtaskNum > 0 && w in Delivered(p, id)
    ensures h in Share(p.task, id, Visit(p.task.opt, [], 0, 0)) && w in Completed(p, h)
    ensures Dmls(w) == h.actions && Complete(p, w)
  {
    hide Visit, Share, Canonical, TransTop, Keep, AllDml, Completed, Dmls, Dtls, Ended;
    var hs := Share(p.task, id, Visit(p.task.opt, [], 0, 0));
    ForEachMembers(hs, Completion(p), w);
    h :| h in hs && w in Completion(p)(h);
    HandledOk(p.task, id, h);
    CompletedMembers(p, h, w);
  }

  /** Every complete history is delivered by the subtask that the running number of its reads and writes
      in the enumeration belongs to. */
  lemma CompleteIsDelivered(p: Plan, w: seq<Action>) returns (id: nat)
    requires p.task.subtaskNum > 0 && Complete(p, w)
    ensures id < p.task.subtaskNum && w in Delivered(p, id)
  {
    hide Visit, Share, Canonical, TransTop, Keep, AllDml, Completed, Dmls, Dtls, Ended;
    var zs, z := Visit(p.task.opt, [], 0, 0), Dmls(w);
    VisitsAllCanonical(p.task.opt, z);
    var j :| 0 <= j < |zs| && zs[j] == z;
    id := j % p.task.subtaskNum;
    var h := Handled(z, j, TransTop(z));
    ShareMembers(p.task, id, zs, h);
    CanonicalIsDml(p.task.opt, z);
    CompletedMembers(p, h, w);
    ForEachMembers(Share(p.task, id, zs), Completion(p), w);
    assert w in Completion(p)(h);
  }

  lemma DeliveredDistinct(p: Plan, id: nat)
    requires p.task.subtaskNum > 0
    ensures Distinct(Delivered(p, id))
  {
    hide Visit, Share, Canonical, TransTop, Keep, AllDml, Completed, Dmls, Dtls, Ended, Distinct;
    var hs := Share(p.task, id, Visit(p.task.opt, [], 0, 0));
    ShareDistinct(p.task, id, Visit(p.task.opt, [], 0, 0));
    forall h | h in hs
      ensures Distinct(Completion(p)(h))
    {
      HandledOk(p.task, id, h);
      CompletedDistinct(p, h);
    }
    forall h, h', w | h in hs && h' in hs && w in Completion(p)(h) && w in Completion(p)(h')
      ensures h == h'
    {
      HandledOk(p.task, id, h);
      HandledOk(p.task, id, h');
      CompletedMembers(p, h, w);
      CompletedMembers(p, h', w);
      SameNumber(p.task.opt, h.seqId, h'.seqId);
    }
    ForEachDistinct(hs, Completion(p));
  }

  /** Delivered by some subtask are exactly the complete histories: canonical reads and writes, one terminator
      for each transaction and behind its actions. No two subtasks deliver the same history, and no subtask
      delivers one twice. */
  lemma EveryCompleteHistoryOnce(p: Plan, w: seq<Action>, id: nat, id': nat)
    requires id < p.task.subtaskNum && id' < p.task.subtaskNum
    ensures Complete(p, w) <==> exists i: nat :: i < p.task.subtaskNum && w in Delivered(p, i)
    ensures w in Delivered(p, id) && w in Delivered(p, id') ==> id == id'
    ensures Distinct(Delivered(p, id))
  {
    hide Delivered, Complete, Distinct, Dmls, Completed, Share, Visit, Keep, TransTop, Canonical, AllDml;
    if Complete(p, w) {
      var i := CompleteIsDelivered(p, w);
    }
    if i: nat :| i < p.task.subtaskNum && w in Delivered(p, i) {
      var h := DeliveredFrom(p, i, w);
    }
    if w in Delivered(p, id) && w in Delivered(p, id') {
      var h := DeliveredFrom(p, id, w);
      var h' := DeliveredFrom(p, id', w);
      HandledOk(p.task, id, h);
      HandledOk(p.task, id', h');
      SameNumber(p.task.opt, h.seqId, h'.seqId);
    }
    DeliveredDistinct(p, id);
  }
}

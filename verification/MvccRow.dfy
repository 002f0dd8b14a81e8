/** The row manager of concurrency_control/row_mvcc.cpp: lists and counters updated in place
    by loops, proved to compute `Mvcc.Access`. The linked lists are sequences, head first. */
module MvccRow {
  import opened SerialHistory
  import opened Mvcc

  predicate DescendingVersions(h: seq<Version>) {
    forall i, j :: 0 <= i < j < |h| ==> h[i].ts >= h[j].ts
  }

  lemma {:induction false} InsertTsAt(h: seq<Ts>, ts: Ts, i: nat)
    requires i <= |h|
    requires forall j :: 0 <= j < i ==> ts < h[j]
    requires i < |h| ==> h[i] <= ts
    ensures InsertTs(h, ts) == h[..i] + [ts] + h[i..]
  {
    if i > 0 {
      InsertTsAt(h[1..], ts, i - 1);
      assert h[..i] == [h[0]] + h[1..][..i - 1];
    }
  }

  lemma {:induction false} InsertVersionAt(h: seq<Version>, v: Version, i: nat)
    requires i <= |h|
    requires forall j :: 0 <= j < i ==> v.ts < h[j].ts
    requires i < |h| ==> h[i].ts <= v.ts
    ensures InsertVersion(h, v) == h[..i] + [v] + h[i..]
  {
    if i > 0 {
      InsertVersionAt(h[1..], v, i - 1);
      assert h[..i] == [h[0]] + h[1..][..i - 1];
    }
  }

  lemma {:induction false} InsertVersionSorted(h: seq<Version>, v: Version)
    requires DescendingVersions(h)
    ensures DescendingVersions(InsertVersion(h, v))
  {
    if h != [] && h[0].ts > v.ts {
      InsertVersionSorted(h[1..], v);
      assert forall j :: 0 <= j < |h| ==> InsertVersion(h[1..], v)[j] in InsertVersion(h[1..], v);
    }
  }

  lemma {:induction false} RemoveAt(q: seq<Ts>, ts: Ts, i: nat)
    requires i < |q| && q[i] == ts
    requires forall j :: 0 <= j < i ==> q[j] != ts
    ensures Remove(q, ts) == q[..i] + q[i + 1..]
  {
    if i > 0 {
      RemoveAt(q[1..], ts, i - 1);
      assert q[..i] == [q[0]] + q[1..][..i - 1];
    }
  }

  lemma {:induction false} LookupAt(h: seq<Version>, base: Version, ts: Ts, i: nat)
    requires i <= |h|
    requires forall j :: 0 <= j < i ==> h[j].ts > ts
    requires i < |h| ==> h[i].ts <= ts
    ensures Lookup(h, base, ts) == if i < |h| then h[i] else base
  {
    if i > 0 {
      LookupAt(h[1..], base, ts, i - 1);
    }
  }

  lemma {:induction false} UnlinkReady(kept: seq<Ts>, rest: seq<Ts>, preReq: seq<Ts>, ready: seq<Ts>)
    requires rest != []
    ensures Unblocked(preReq, rest[0]) ==>
              && Ready(rest, preReq) + ready == Ready(rest[1..], preReq) + ([rest[0]] + ready)
              && StillBlocked(rest, preReq) == StillBlocked(rest[1..], preReq)
    ensures !Unblocked(preReq, rest[0]) ==>
              && Ready(rest, preReq) == Ready(rest[1..], preReq)
              && kept + StillBlocked(rest, preReq) == (kept + [rest[0]]) + StillBlocked(rest[1..], preReq)
  {
  }

  lemma DropOldest(h: seq<Version>, t: Ts)
    requires |h| >= 2 && h[|h| - 2].ts < t && DescendingVersions(h)
    ensures Surviving(h, t) == Surviving(h[..|h| - 1], t) && DescendingVersions(h[..|h| - 1])
  {
  }

  lemma DropNone(h: seq<Version>, t: Ts)
    requires |h| < 2 || h[|h| - 2].ts >= t
    ensures Surviving(h, t) == |h|
  {
  }

  lemma NothingBuffered(preReq: seq<Ts>, ready: seq<Ts>, kept: seq<Ts>)
    ensures Ready([], preReq) + ready == ready && kept + StillBlocked([], preReq) == kept
  {
  }

  class RowMvcc {
    const cfg: Config
    var base: Version
    var readReq: seq<Ts>
    var preReq: seq<Ts>
    var readHis: seq<Ts>
    var writeHis: seq<Version>
    var whisLen: nat
    var rhisLen: nat
    var rreqLen: nat
    var preqLen: nat

    /** The length counters agree with the lists, and the histories run from new to old. */
    ghost predicate Valid()
      reads this
    {
      && whisLen == |writeHis| && rhisLen == |readHis|
      && rreqLen == |readReq| && preqLen == |preReq|
      && Descending(readHis) && DescendingVersions(writeHis)
    }

    ghost function State(): Row
      reads this
    {
      Row(base, readReq, preReq, readHis, writeHis)
    }

    constructor (cfg: Config, initial: Val)
      ensures Valid() && this.cfg == cfg
      ensures State() == Row(Version(0, initial), [], [], [], [])
    {
      this.cfg := cfg;
      base := Version(0, initial);
      readReq, preReq, readHis, writeHis := [], [], [], [];
      whisLen, rhisLen, rreqLen, preqLen := 0, 0, 0, 0;
    }

    /** `conflict`: find the prewrite or read next to `ts`, then look for a version in between. */
    method Conflict(req: Request, ts: Ts) returns (conflict: bool)
      requires Valid() && (req.Read? || req.Prewrite?)
      ensures req.Read? ==> conflict == ReadConflict(State(), ts)
      ensures req.Prewrite? ==> conflict == PrewriteConflict(State(), ts)
    {
      var rts: Ts, pts: Ts := 0, 0;
      var i := 0;
      if req.Read? {
        rts := ts;
        while i < |preReq|
          invariant 0 <= i <= |preReq|
          invariant pts == 0 || (pts in preReq && pts < ts)
          invariant forall j :: 0 <= j < i && preReq[j] < ts ==> preReq[j] <= pts
        {
          if preReq[i] < ts && preReq[i] > pts {
            pts := preReq[i];
          }
          i := i + 1;
        }
        if pts == 0 {
          return false;
        }
      } else {
        pts := ts;
        while i < |readHis| && readHis[i] > ts
          invariant 0 <= i <= |readHis|
          invariant i == 0 ==> rts == 0
          invariant i > 0 ==> rts == readHis[i - 1] > ts
        {
          rts := readHis[i];
          i := i + 1;
        }
        if rts == 0 {
          assert forall j :: 0 <= j < |readHis| ==> readHis[j] <= ts;
          return false;
        }
        assert forall j :: 0 <= j < |readHis| && readHis[j] > ts ==> rts <= readHis[j];
      }
      var w := 0;
      while w < |writeHis| && writeHis[w].ts > pts
        invariant 0 <= w <= |writeHis|
        invariant forall j :: 0 <= j < w ==> writeHis[j].ts >= rts
      {
        if writeHis[w].ts < rts {
          assert writeHis[w] in writeHis;
          return false;
        }
        w := w + 1;
      }
      assert !WrittenBetween(writeHis, pts, rts);
      assert req.Prewrite? ==> rts in readHis;
      return true;
    }

    /** `insert_history` with a null row. */
    method InsertRead(ts: Ts)
      requires Valid()
      modifies `readHis, `rhisLen
      ensures Valid() && readHis == InsertTs(old(readHis), ts)
    {
      rhisLen := rhisLen + 1;
      var i := 0;
      while i < |readHis| && ts < readHis[i]
        invariant 0 <= i <= |readHis|
        invariant forall j :: 0 <= j < i ==> ts < readHis[j]
      {
        i := i + 1;
      }
      InsertTsAt(readHis, ts, i);
      InsertTsDescending(readHis, ts);
      readHis := readHis[..i] + [ts] + readHis[i..];
    }

    /** `insert_history` with the row just written. */
    method InsertWrite(v: Version)
      requires Valid()
      modifies `writeHis, `whisLen
      ensures Valid() && writeHis == InsertVersion(old(writeHis), v)
    {
      whisLen := whisLen + 1;
      var i := 0;
      while i < |writeHis| && v.ts < writeHis[i].ts
        invariant 0 <= i <= |writeHis|
        invariant forall j :: 0 <= j < i ==> v.ts < writeHis[j].ts
      {
        i := i + 1;
      }
      InsertVersionAt(writeHis, v, i);
      InsertVersionSorted(writeHis, v);
      writeHis := writeHis[..i] + [v] + writeHis[i..];
    }

    /** `debuffer_req` for a prewrite: unlink the transaction's own entry. */
    method DebufferPrewrite(ts: Ts)
      requires Valid() && ts in preReq
      modifies `preReq, `preqLen
      ensures Valid() && preReq == Remove(old(preReq), ts)
    {
      var i := 0;
      while preReq[i] != ts
        invariant 0 <= i < |preReq|
        invariant forall j :: 0 <= j < i ==> preReq[j] != ts
        decreases |preReq| - i
      {
        i := i + 1;
      }
      RemoveAt(preReq, ts, i);
      preReq := preReq[..i] + preReq[i + 1..];
      preqLen := preqLen - 1;
    }

    /** The oldest pending prewrite, or UINT64_MAX. */
    method OldestPrewrite() returns (minPts: Ts)
      ensures forall r: Ts :: Unblocked(preReq, r) <==> r <= minPts
    {
      minPts := UINT64_MAX;
      for p := 0 to |preReq|
        invariant minPts == UINT64_MAX || minPts in preReq
        invariant forall j :: 0 <= j < p ==> minPts <= preReq[j]
      {
        if preReq[p] < minPts {
          minPts := preReq[p];
        }
      }
    }

    /** `debuffer_req` for reads: unlink every read no later than the oldest pending prewrite. */
    method DebufferReads() returns (ready: seq<Ts>)
      requires Valid()
      modifies `readReq, `rreqLen
      ensures Valid()
      ensures ready == Ready(old(readReq), preReq)
      ensures readReq == StillBlocked(old(readReq), preReq)
    {
      hide Descending, DescendingVersions, Ready, StillBlocked, Unblocked;
      var minPts := OldestPrewrite();
      ready := [];
      var i := 0;
      ghost var rest := readReq;
      assert Ready(rest, preReq) + ready == Ready(rest, preReq);
      assert readReq[..i] + StillBlocked(rest, preReq) == StillBlocked(rest, preReq);
      while i < |readReq|
        invariant 0 <= i <= |readReq| == rreqLen
        invariant readReq[i..] == rest
        invariant Ready(old(readReq), preReq) == Ready(rest, preReq) + ready
        invariant StillBlocked(old(readReq), preReq) == readReq[..i] + StillBlocked(rest, preReq)
        decreases |readReq| - i
      {
        var req := readReq[i];
        assert req == rest[0];
        if req <= minPts {
          UnlinkReady(readReq[..i], rest, preReq, ready);
          readReq := readReq[..i] + readReq[i + 1..];
          assert readReq[i..] == rest[1..];
          rreqLen := rreqLen - 1;
          ready := [req] + ready;
        } else {
          UnlinkReady(readReq[..i], rest, preReq, ready);
          i := i + 1;
        }
        rest := rest[1..];
      }
      NothingBuffered(preReq, ready, readReq[..i]);
    }

    /** `update_buffer`: give every read that became ready its version. */
    method UpdateBuffer() returns (answers: seq<Answer>)
      requires Valid()
      modifies `readReq, `rreqLen, `readHis, `rhisLen
      ensures Valid()
      ensures (State(), answers) == ReleaseReads(old(State()))
    {
      var ready := DebufferReads();
      answers := [];
      var q := 0;
      ghost var row, rest := old(State()), ready;
      while q < |ready|
        invariant 0 <= q <= |ready| && Valid() && rest == ready[q..]
        invariant readReq == StillBlocked(old(readReq), preReq)
        invariant InsertAll(old(readHis), ready) == InsertAll(readHis, rest)
        invariant AnswerAll(row, ready) == answers + AnswerAll(row, rest)
      {
        var version := Visible(ready[q]);
        assert Answer(ready[q], version) == AnswerAll(row, rest)[0];
        answers := answers + [Answer(ready[q], version)];
        InsertRead(ready[q]);
        q, rest := q + 1, rest[1..];
      }
      assert answers + AnswerAll(row, []) == answers;
    }

    /** The scan of the write history for the version a reader sees. */
    method Visible(ts: Ts) returns (version: Version)
      ensures version == Lookup(writeHis, base, ts)
    {
      var w := 0;
      while w < |writeHis| && writeHis[w].ts > ts
        invariant 0 <= w <= |writeHis|
        invariant forall j :: 0 <= j < w ==> writeHis[j].ts > ts
      {
        w := w + 1;
      }
      LookupAt(writeHis, base, ts, w);
      return if w == |writeHis| then base else writeHis[w];
    }

    /** `clear_history` on the read history, from the tail. */
    method ClearReads(t: Ts)
      requires Valid()
      modifies `readHis, `rhisLen
      ensures Valid() && readHis == RecycleReads(old(readHis), t)
    {
      while |readHis| >= 2 && readHis[|readHis| - 2] < t
        invariant Valid()
        invariant RecycleReads(old(readHis), t) == RecycleReads(readHis, t)
        decreases |readHis|
      {
        readHis := readHis[..|readHis| - 1];
        rhisLen := rhisLen - 1;
      }
    }

    /** `clear_history` on the write history; returns the newest version it discarded. */
    method ClearWrites(t: Ts) returns (latest: seq<Version>)
      requires Valid()
      modifies `writeHis, `whisLen
      ensures Valid()
      ensures var n := Surviving(old(writeHis), t);
              && writeHis == old(writeHis)[..n]
              && latest == if n < |old(writeHis)| then [old(writeHis)[n]] else []
    {
      hide Descending, DescendingVersions, Surviving;
      latest := [];
      while |writeHis| >= 2 && writeHis[|writeHis| - 2].ts < t
        invariant Valid() && |writeHis| <= |old(writeHis)|
        invariant writeHis == old(writeHis)[..|writeHis|]
        invariant Surviving(old(writeHis), t) == Surviving(writeHis, t)
        invariant latest == if |writeHis| < |old(writeHis)| then [old(writeHis)[|writeHis|]] else []
        decreases |writeHis|
      {
        DropOldest(writeHis, t);
        latest := [writeHis[|writeHis| - 1]];
        writeHis := writeHis[..|writeHis| - 1];
        whisLen := whisLen - 1;
      }
      DropNone(writeHis, t);
    }

    /** The recycling at the end of a successful access. */
    method Recycle(minTs: Ts)
      requires Valid()
      modifies `base, `readHis, `writeHis, `rhisLen, `whisLen
      ensures Valid() && State() == Collect(cfg, old(State()), minTs)
    {
      if whisLen > cfg.recycleLen || rhisLen > cfg.recycleLen {
        if rhisLen > 0 && readHis[rhisLen - 1] < minTs {
          ClearReads(minTs);
        }
        if whisLen > 1 && writeHis[whisLen - 2].ts < minTs {
          var latest := ClearWrites(minTs);
          if latest != [] {
            base := latest[0];
          }
        }
      }
    }

    /** `access`: `ts` is the transaction, `minTs` the recycling threshold at this moment. */
    method Access(req: Request, ts: Ts, minTs: Ts) returns (rc: Rc, answers: seq<Answer>)
      requires Valid()
      requires req.Write? || req.Cancel? ==> ts in preReq
      modifies this
      ensures Valid()
      ensures Outcome(rc, State(), answers) == Mvcc.Access(cfg, old(State()), req, ts, minTs)
    {
      rc, answers := RcOk, [];
      match req {
        case Read =>
          var conflict := Conflict(req, ts);
          if conflict && rreqLen < cfg.maxReadReq {
            rc := Wait;
            rreqLen := rreqLen + 1;
            readReq := [ts] + readReq;
          } else if conflict {
            rc := Abort;
          } else {
            var version := Visible(ts);
            answers := [Answer(ts, version)];
            InsertRead(ts);
          }
        case Prewrite =>
          var conflict := Conflict(req, ts);
          if conflict {
            rc := Abort;
          } else if preqLen < cfg.maxPreReq {
            preqLen := preqLen + 1;
            preReq := [ts] + preReq;
          } else {
            rc := Abort;
          }
        case Write(val) =>
          InsertWrite(Version(ts, val));
          DebufferPrewrite(ts);
          answers := UpdateBuffer();
        case Cancel =>
          DebufferPrewrite(ts);
          answers := UpdateBuffer();
      }
      if rc == RcOk {
        Recycle(minTs);
      }
    }
  }
}

/** Multi-version timestamp ordering on one row (concurrency_control/row_mvcc.cpp), as a
    function from a row and a request to the new row and the answers it releases.
    Timestamps are distinct, so a transaction is named by its timestamp. */
module Mvcc {
  import opened SerialHistory

  datatype Rc = RcOk | Wait | Abort

  /** R_REQ, P_REQ, W_REQ and XP_REQ. */
  datatype Request = Read | Prewrite | Write(val: Val) | Cancel

  datatype Version = Version(ts: Ts, val: Val)

  /** g_max_read_req, g_max_pre_req and g_his_recycle_len. */
  datatype Config = Config(maxReadReq: nat, maxPreReq: nat, recycleLen: nat)

  /** `base` is the row itself; its timestamp is bookkeeping that the row does not store. */
  datatype Row = Row(base: Version, readReq: seq<Ts>, preReq: seq<Ts>,
                     readHis: seq<Ts>, writeHis: seq<Version>)

  datatype Answer = Answer(reader: Ts, version: Version)

  datatype Outcome = Outcome(rc: Rc, row: Row, answers: seq<Answer>)

  // ----- reading the lists ---------------------------------------------------------------

  predicate Descending(h: seq<Ts>) {
    forall i, j :: 0 <= i < j < |h| ==> h[i] >= h[j]
  }

  predicate StrictlyDescending(h: seq<Version>) {
    forall i, j :: 0 <= i < j < |h| ==> h[i].ts > h[j].ts
  }

  predicate Distinct(h: seq<Ts>) {
    forall i, j :: 0 <= i < j < |h| ==> h[i] != h[j]
  }

  /** Some version of the history lies strictly between the two timestamps. */
  predicate WrittenBetween(h: seq<Version>, lo: Ts, hi: Ts) {
    exists v :: v in h && lo < v.ts < hi
  }

  /** A read must wait when the version it wants may still be created by a pending prewrite. */
  predicate ReadConflict(row: Row, ts: Ts) {
    exists p :: p in row.preReq && 0 < p < ts && !WrittenBetween(row.writeHis, p, ts)
  }

  /** A prewrite is too late when some later read did not see a version above it. */
  predicate PrewriteConflict(row: Row, ts: Ts) {
    exists r :: r in row.readHis && ts < r && !WrittenBetween(row.writeHis, ts, r)
  }

  /** The version visible at `ts`: the first one in the history not above it, else the row. */
  function Lookup(h: seq<Version>, base: Version, ts: Ts): Version {
    if h == [] then base else if h[0].ts <= ts then h[0] else Lookup(h[1..], base, ts)
  }

  // ----- changing the lists --------------------------------------------------------------

  function InsertTs(h: seq<Ts>, ts: Ts): (r: seq<Ts>)
    ensures |r| == |h| + 1
    ensures forall t :: t in r <==> t in h || t == ts
  {
    if h == [] || h[0] <= ts then [ts] + h else [h[0]] + InsertTs(h[1..], ts)
  }

  lemma {:induction false} InsertTsDescending(h: seq<Ts>, ts: Ts)
    requires Descending(h)
    ensures Descending(InsertTs(h, ts))
  {
    if h != [] && h[0] > ts {
      InsertTsDescending(h[1..], ts);
      assert forall j :: 0 <= j < |h| ==> InsertTs(h[1..], ts)[j] in InsertTs(h[1..], ts);
    }
  }

  function InsertVersion(h: seq<Version>, v: Version): (r: seq<Version>)
    ensures |r| == |h| + 1
    ensures forall u :: u in r <==> u in h || u == v
  {
    if h == [] || h[0].ts <= v.ts then [v] + h else [h[0]] + InsertVersion(h[1..], v)
  }

  function Remove(q: seq<Ts>, ts: Ts): (r: seq<Ts>)
    ensures forall t :: t in r ==> t in q
    ensures forall t :: t in q && t != ts ==> t in r
    ensures Distinct(q) ==> Distinct(r) && ts !in r
  {
    if q == [] then []
    else if q[0] == ts then q[1..]
    else
      var rest := Remove(q[1..], ts);
      assert Distinct(q) ==> Distinct(q[1..]) && q[0] !in q[1..];
      assert forall j :: 0 <= j < |rest| ==> rest[j] in q[1..];
      [q[0]] + rest
  }

  /** No pending prewrite has a smaller timestamp. */
  predicate Unblocked(preReq: seq<Ts>, r: Ts) {
    forall p :: p in preReq ==> r <= p
  }

  /** The buffered reads that may go, last one buffered last. */
  function Ready(readReq: seq<Ts>, preReq: seq<Ts>): seq<Ts>
  {
    if readReq == [] then []
    else if Unblocked(preReq, readReq[0]) then Ready(readReq[1..], preReq) + [readReq[0]]
    else Ready(readReq[1..], preReq)
  }

  function StillBlocked(readReq: seq<Ts>, preReq: seq<Ts>): seq<Ts>
  {
    if readReq == [] then []
    else if Unblocked(preReq, readReq[0]) then StillBlocked(readReq[1..], preReq)
    else [readReq[0]] + StillBlocked(readReq[1..], preReq)
  }

  /** Answers the given reads: each is entered in the read history and given its version. */
  function InsertAll(h: seq<Ts>, rs: seq<Ts>): seq<Ts>
    decreases rs
  {
    if rs == [] then h
    else InsertAll(InsertTs(h, rs[0]), rs[1..])
  }

  function AnswerAll(row: Row, rs: seq<Ts>): seq<Answer>
  {
    if rs == [] then []
    else [Answer(rs[0], Lookup(row.writeHis, row.base, rs[0]))] + AnswerAll(row, rs[1..])
  }

  function ReleaseReads(row: Row): (r: (Row, seq<Answer>)) {
    var ready := Ready(row.readReq, row.preReq);
    (row.(readReq := StillBlocked(row.readReq, row.preReq), readHis := InsertAll(row.readHis, ready)),
     AnswerAll(row, ready))
  }

  // ----- garbage collection --------------------------------------------------------------

  /** Drops read entries from the old end while the next newer one is also below `t`. */
  function RecycleReads(h: seq<Ts>, t: Ts): (r: seq<Ts>)
    ensures r <= h
    ensures Descending(h) ==> forall x :: x in h && x !in r ==> x < t
  {
    if |h| >= 2 && h[|h| - 2] < t then
      assert h == h[..|h| - 1] + [h[|h| - 1]];
      RecycleReads(h[..|h| - 1], t)
    else h
  }

  /** How many versions survive: all down to and including the newest one below `t`. */
  function Surviving(h: seq<Version>, t: Ts): (n: nat)
    ensures n <= |h| && (n == 0 <==> h == [])
    ensures n < |h| ==> h[n - 1].ts < t
    ensures n >= 2 ==> h[n - 2].ts >= t
  {
    if |h| >= 2 && h[|h| - 2].ts < t then Surviving(h[..|h| - 1], t) else |h|
  }

  /** Recycles old versions; the newest discarded one becomes the row. */
  function RecycleWrites(row: Row, t: Ts): Row {
    var n := Surviving(row.writeHis, t);
    if n < |row.writeHis| then row.(writeHis := row.writeHis[..n], base := row.writeHis[n]) else row
  }

  function Collect(cfg: Config, row: Row, t: Ts): Row {
    if |row.writeHis| > cfg.recycleLen || |row.readHis| > cfg.recycleLen then
      RecycleWrites(row.(readHis := RecycleReads(row.readHis, t)), t)
    else row
  }

  // ----- one access ----------------------------------------------------------------------

  function Access(cfg: Config, row: Row, req: Request, ts: Ts, minTs: Ts): Outcome {
    match req
    case Read =>
      if ReadConflict(row, ts) then
        if |row.readReq| < cfg.maxReadReq then Outcome(Wait, row.(readReq := [ts] + row.readReq), [])
        else Outcome(Abort, row, [])
      else
        Outcome(RcOk, Collect(cfg, row.(readHis := InsertTs(row.readHis, ts)), minTs),
                [Answer(ts, Lookup(row.writeHis, row.base, ts))])
    case Prewrite =>
      if PrewriteConflict(row, ts) || |row.preReq| >= cfg.maxPreReq then Outcome(Abort, row, [])
      else Outcome(RcOk, Collect(cfg, row.(preReq := [ts] + row.preReq), minTs), [])
    case Write(val) =>
      var (row', answers) := ReleaseReads(row.(writeHis := InsertVersion(row.writeHis, Version(ts, val)),
                                               preReq := Remove(row.preReq, ts)));
      Outcome(RcOk, Collect(cfg, row', minTs), answers)
    case Cancel =>
      var (row', answers) := ReleaseReads(row.(preReq := Remove(row.preReq, ts)));
      Outcome(RcOk, Collect(cfg, row', minTs), answers)
  }
}

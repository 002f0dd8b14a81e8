# Promi: concurrency control and history enumeration in Dafny

Promi is a distributed OLTP testbed. Its substance is a collection of concurrency-control protocols
under `concurrency_control/`, and one combinatorial generator of transaction histories in
`benchmarks/creator.cpp`. This project models nine of these pieces of code and proves what they are for.

Every protocol comes in up to three layers:

- functions on values that compute what one latched section of the code computes;
- a class with the code's own fields and loops, whose methods are proved equal to those functions or
  proved against what the code promises;
- a state machine whose steps are the latched sections, interleaved without any restriction between
  transactions, with logs of everything read, written, granted and committed. The main results are
  about every finite run of that machine.

| protocol | values | code | runs |
|---|---|---|---|
| multi-version timestamp ordering | `Mvcc` | `MvccRow` | `MvccRuns` |
| Silo | | `SiloTxn` | `SiloRuns`, `SiloFresh`, `SiloTids` |
| TicToc | `TicToc` | `TicTocTxn` | `TicTocRuns`, `TicTocReads` |
| two-phase locking, WAIT_DIE and CALVIN | `RowLocks` | `RowLock` | `RowLocks` |
| MAAT | `Maat` | `MaatTxn` | `MaatRuns`, `MaatSeen`, `MaatForward` |
| DTA and WOOKONG | `Dta` | `DtaTxn` | `DtaRuns`, `DtaTies`, `WkdbWakes` |
| central optimistic validation | `Occ` | `OccManager` | `Occ`, `OccVerdicts` |
| SSI conflict tracking | `Ssi` | `SsiRow` | `SsiRuns`, `SsiMarks`, `SsiSnapshots`, `SsiSkew` |
| history enumeration | `Interleavings`, `Histories`, `Terminators`, `CompleteHistories` | `Interleavings`, `HistoryCreator`, `Terminators` | |

`SerialHistory` says once what a serial execution is: `Replay` runs a list of transactions one after the
other, and `IsSerial` says that each saw exactly what the ones before it left. `DtaSteps` holds the steps of which
the runs in `DtaTies` and `WkdbWakes` are made.

What is assumed of the surroundings: timestamps, priorities and transaction ids are distinct, and
transaction ids are not reused; timestamps come from a strictly increasing source where a protocol draws
them; a transaction touches a row at most once (MVCC: prewrites, reads at the same timestamp, then writes or
cancels); a recycling threshold is at most the timestamp of every transaction that may still access rows.
Transactions are named by their timestamp (MVCC, locking), priority (TicToc) or id. Where wrap-around
matters (`Maat`, `Dta`) 64-bit arithmetic is written out; elsewhere numbers are unbounded.

Where the code and its comments or callers disagree:

- `row_lock.cpp:92-95` says that a transaction with a larger timestamp than an owner waits. The code lets it
  wait only if no owner has a smaller timestamp, and the model follows the code.
- Silo's serializability needs commit tids that no concurrent reader of the row remembers. The code takes them
  from a per-transaction counter that starts at 0 (`system/txn.cpp:365`, `system/txn.cpp:1533-1538`).
  `SiloRuns` proves serializability for runs with fresh tids. `SiloFresh.SerialExactlyIfFresh` shows that
  freshness is also necessary: from every reachable state in which everybody who shares a row with the committing
  transaction has been overtaken but is otherwise free to go on, all continuations are serial if and only if the
  commit tid is fresh. `SiloTids.ReusedTidLosesUpdate` gives a run with the code's tids whose committed
  transactions are serial in no order.
- TicToc's `commit` does not look at the access type, and finishing transactions call it for rows they only
  read. In `TicTocRuns` a committed transaction may return a read this way if the row's lease ends at or below its
  commit timestamp, and all results hold of runs with such steps. `TicTocReads.CommitOnReadIsSafeExactly` shows that
  this guard is exact: without it the step sets the value, a timestamp or a lease back and breaks the invariant.
  `TicTocReads.CommitOnReadLosesUpdate` is a run with a newer version, `TicTocReads.CommitOnReadCutsLease` one
  without, and `TicTocReads.CutLeaseBreaksOrder` says from every reachable state what a cut lease costs.
- In MAAT's `validate` the sum `lower + 2` can wrap around. `Maat.RoomIsSafeExactly` says for which lower bounds
  the asserted `lower < upper` is safe, and `MaatRuns.ValidateNoWrap` shows that reachable states are safe.
- MAAT's forward validation does not look at the state of its targets. `MaatRuns.CommitOrder` states a condition
  under which the ordering survives it, `MaatRuns.CommitOrderWithoutForward` the ordering without it.
  `MaatForward.ForwardCanMisorder` is a run from the initial state that ends with two commit timestamps in the wrong
  order, and `MaatForward.CommitsLaterExactly` the exact condition on the lower bound that validation gives.
- WOOKONG lets a prewrite wait while another writer is registered on the row and, when it wakes it, sets its upper
  bound back to the maximum (`row_wkdb.cpp:317`), which undoes what a validating writer has trimmed. The ordering of
  readers before writers is therefore proved for DTA without a condition and for WOOKONG for readers that are not
  woken in between; `DtaRuns.BoundHoldsExactly` shows that waking is the only step that lifts the bound, and
  `WkdbWakes.WokenReaderCommitsLater` is a run in which the order fails.
- DTA's `validate` raises the lower bound above the greatest write timestamp a transaction has learned
  (`dta.cpp:95-96`), but the lines that would learn it are commented out (`row_dta.cpp:203-205`), so it stays 0
  (`DtaRuns.GreatestIsNeverLearned`). What holds is that a transaction does not commit before a writer whose write it
  saw; `DtaRuns.SawIsNotLater` says exactly when it commits strictly after, and `DtaTies.WritersCanTie` is a run with
  a tie.
- SSI draws commit timestamps before the rows are written (`system/txn.cpp:567-575`), so a version can arrive below a
  start that is already past. `SsiSnapshots.SnapshotHoldsExactly` says exactly when the version a read got stays the
  newest one not after its start, and `SsiSnapshots.SnapshotCanBreak` is a run in which it does not.
- No line of the source creates entries of the SSI conflict table: `InOutTable::init(thd_id, key)`
  (`ssi.cpp:94-107`) has no caller, unlike its counterparts of MAAT, DTA and WOOKONG
  (`system/worker_thread.cpp:801-813`). Calls on a missing entry do nothing. In `SsiRuns` creating an entry is an
  optional step of a transaction that has not accessed anything, and the results say what holds if and only if the
  entry is there. Without such steps validation refuses nobody (`SsiRuns.NobodyIsRefused`), and
  `SsiSkew.PivotWithoutEntryValidates` is a run in which two transactions validate that each read what the other
  writes.

## Model

| member | source | states |
|---|---|---|
| MvccRuns.ReadsAreSerial | concurrency_control/row_mvcc.cpp:321-444 | In every run over any rows, each answered read, immediate or released later, returned what serial execution of all committed writes in timestamp order up to the reader leaves in the row |
| MvccRuns.NoReadIsStranded | concurrency_control/row_mvcc.cpp:416-444 | In every run each buffered read has a pending prewrite below it, so a row without pending prewrites has no waiting reads |
| MvccRuns.EveryAnswerIsRight | concurrency_control/row_mvcc.cpp:321-414 | In every run the return code of every request is right: a read is answered at once if and only if no pending prewrite could still change what it is to see, waits if and only if it is buffered, and is refused if and only if it would have to wait and the buffer is full; a prewrite is pending if and only if it got RcOk, and is refused if and only if a reader above it was given a version below it or the buffer is full; writes and cancels succeed and end the prewrite |
| MvccRuns.GrantedArePending | concurrency_control/row_mvcc.cpp:321-444 | In every run the prewrites granted and not ended are exactly those pending, and the reads told to wait and not answered exactly those buffered |
| MvccRuns.AnswersMeanWhatTheySay | concurrency_control/row_mvcc.cpp:321-414 | The same for one access to any row that satisfies the invariant |
| MvccRuns.PrewriteConflictExactly | concurrency_control/row_mvcc.cpp:219-246 | The conflict test of a prewrite is true if and only if some answered read saw a version below it and is above it, recycling notwithstanding |
| MvccRuns.ReadConflictExactly | concurrency_control/row_mvcc.cpp:205-246 | The conflict test of a read is true if and only if a granted prewrite below it has no committed version above it and below the reader |
| MvccRuns.RunKeepsSystem | concurrency_control/row_mvcc.cpp:321-444 | Every reachable state satisfies the row invariant: histories sorted, stored versions the newest committed, every answer still the newest version below its reader whatever is pending |
| MvccRuns.StepKeepsSystem | concurrency_control/row_mvcc.cpp:321-414 | One access by any transaction on any row keeps that invariant on all rows |
| MvccRuns.AccessKeepsRow | concurrency_control/row_mvcc.cpp:321-414 | Each kind of request keeps the invariant of its row, with recycling in the loop |
| MvccRuns.PrewriteKeepsAnswers | concurrency_control/row_mvcc.cpp:205-246 | An admitted prewrite lies in no gap between an answered read and the version it returned |
| MvccRuns.FreshAnswerOk | concurrency_control/row_mvcc.cpp:344-353 | A read that does not conflict gets the newest committed version below it, with nothing pending in between |
| MvccRuns.ReleaseKeepsRow | concurrency_control/row_mvcc.cpp:416-444 | Releasing buffered reads answers each with its correct version and leaves only reads that are still blocked |
| MvccRuns.LookupIsNewest | concurrency_control/row_mvcc.cpp:347-349 | On a descending history the lookup returns the newest version not above the timestamp, else the row |
| MvccRuns.WriteGarbageCollection | concurrency_control/row_mvcc.cpp:41-79 | Recycling versions and folding the newest discarded one into the row leaves the lookup unchanged at and above the discarded version |
| MvccRuns.GarbageCollectionKeepsDecisions | concurrency_control/row_mvcc.cpp:382-399 | Recycling changes no prewrite decision for timestamps at or above the threshold |
| MvccRuns.CollectExactly | concurrency_control/row_mvcc.cpp:382-399 | Recycling leaves one version and one read below the threshold at most, everything from the threshold on, and the newest discarded version in the row; it happens only when a history is long and never touches waiting requests |
| MvccRow.RowMvcc.constructor | concurrency_control/row_mvcc.cpp:24-39 | An empty row with its initial version |
| MvccRow.RowMvcc.Conflict | concurrency_control/row_mvcc.cpp:205-246 | The two scans decide exactly whether a pending prewrite, or an answered read, lies next to the timestamp with no version in between |
| MvccRow.RowMvcc.InsertRead | concurrency_control/row_mvcc.cpp:182-203 | The read history gets the timestamp at its sorted place; lengths agree |
| MvccRow.RowMvcc.InsertWrite | concurrency_control/row_mvcc.cpp:182-203 | The write history gets the version at its sorted place; lengths agree |
| MvccRow.RowMvcc.DebufferPrewrite | concurrency_control/row_mvcc.cpp:134-151 | Exactly the first pending prewrite of the transaction is unlinked |
| MvccRow.RowMvcc.OldestPrewrite | concurrency_control/row_mvcc.cpp:157-160 | The bound below which reads are unblocked is the smallest pending prewrite |
| MvccRow.RowMvcc.DebufferReads | concurrency_control/row_mvcc.cpp:152-180 | The unlinked reads are exactly the unblocked ones, in order, and the rest stays in order |
| MvccRow.RowMvcc.UpdateBuffer | concurrency_control/row_mvcc.cpp:416-444 | All released reads are answered and logged as the value function says |
| MvccRow.RowMvcc.Visible | concurrency_control/row_mvcc.cpp:347-349 | The version found is the lookup of the history |
| MvccRow.RowMvcc.ClearReads | concurrency_control/row_mvcc.cpp:41-79 | The tail of the read history is recycled to the threshold |
| MvccRow.RowMvcc.ClearWrites | concurrency_control/row_mvcc.cpp:41-79 | Versions survive down to the newest one below the threshold; the newest discarded one is returned |
| MvccRow.RowMvcc.Recycle | concurrency_control/row_mvcc.cpp:382-399 | Recycling as a whole equals the value function |
| MvccRow.RowMvcc.Access | concurrency_control/row_mvcc.cpp:321-414 | One access: return code, new row and answers equal the value function on which the runs are built and whose answers are proved right |
| SiloRuns.CommittedAreSerial | concurrency_control/silo.cpp:8-181 | Under any interleaving of single-row reads, locks, checks and installs with fresh commit tids, each committed transaction saw what a serial execution ordered by the moment of holding all write locks shows it |
| SiloRuns.RowsAreSerial | concurrency_control/silo.cpp:156-181 | In these runs a row nobody is about to install holds what that serial execution leaves in it |
| SiloFresh.SerialExactlyIfFresh | system/txn.cpp:1533-1538 | From every reachable state in which x may commit and all who share a row with it are overtaken: every continuation is serial if and only if no undecided transaction remembers the commit tid for a row of x |
| SiloFresh.ReusedTidBreaksOrder | system/txn.cpp:1533-1538 | From every reachable state: if x commits with a tid that an overtaken transaction remembers, there is a continuation in which that transaction locks, validates and commits, and the log is not serial |
| SiloFresh.FreshIsSerial | system/txn.cpp:1533-1538 | If the tid is fresh, everything that can follow is serial |
| SiloFresh.MissedWriteIsNotSerial | concurrency_control/silo.cpp:124-153 | A transaction placed after x that saw another value of a row x wrote makes the log not serial |
| SiloFresh.RunToCommit | concurrency_control/silo.cpp:40-153 | A transaction whose copies carry the tids of their rows, and whose rows are free or its own, can lock, validate and commit |
| SiloRuns.RunKeeps | concurrency_control/silo.cpp:40-181 | Every state reachable with fresh commit tids satisfies the protocol invariant |
| SiloRuns.StepKeeps | concurrency_control/silo.cpp:40-181 | Each single-row step keeps it, a commit with a fresh tid included |
| SiloRuns.LockPointKeeps | concurrency_control/silo.cpp:59-84 | At the moment all write locks are held, every written row is the last version of the order so far |
| SiloRuns.CheckRowKeeps | concurrency_control/silo.cpp:124-148 | A successful check shows that nothing ordered before the transaction has replaced the copied version |
| SiloRuns.CommitKeeps | concurrency_control/silo.cpp:150-153 | A decision with a fresh tid puts the transaction into the order without disturbing anybody already placed |
| SiloRuns.InstallRowKeeps | concurrency_control/row_silo.cpp:87-98 | Installing one row at a time keeps rows, copies and order consistent |
| SiloTids.ReusedTidLosesUpdate | system/txn.cpp:1533-1538 | A run in which every commit takes tid 1 commits three transactions that no order makes serial |
| SiloTids.NoOrderIsSerial | system/txn.cpp:1533-1538 | None of the arrangements of these three transactions is serial |
| SiloTids.LostUpdateRun | system/txn.cpp:365 | The run, step by step, from an initial state |
| SiloTxn.RowSilo.constructor | concurrency_control/row_silo.cpp:8-18 | A free row |
| SiloTxn.RowSilo.TryLock | concurrency_control/row_silo.cpp:124-136 | Succeeds exactly on a free row and then holds it |
| SiloTxn.RowSilo.Release | concurrency_control/row_silo.cpp:113-122 | The row is free afterwards |
| SiloTxn.RowSilo.Validate | concurrency_control/row_silo.cpp:60-85 | Succeeds exactly if the tid is unchanged and, outside the write set, nobody holds the row; holders are unchanged |
| SiloTxn.RowSilo.Write | concurrency_control/row_silo.cpp:87-98 | The row holds the copy and the commit tid |
| SiloTxn.BubblePass | concurrency_control/silo.cpp:27-36 | One pass rearranges the indices and moves the largest key of the prefix to its end |
| SiloTxn.BubbleSort | concurrency_control/silo.cpp:23-38 | The in-place sort leaves the same indices, each once, in ascending key order |
| SiloTxn.SiloTxn.constructor | system/txn.cpp:355-369 | A transaction with its accesses and no locks |
| SiloTxn.SiloTxn.SplitAccesses | concurrency_control/silo.cpp:12-21 | Write accesses and read accesses are separated without loss or repetition |
| SiloTxn.SiloTxn.SortWriteSet | concurrency_control/silo.cpp:12-38 | The write set lists exactly the write accesses, each once, by ascending key |
| SiloTxn.SiloTxn.Unchanged | concurrency_control/silo.cpp:43-57 | Tells whether all listed rows still have the copied tid |
| SiloTxn.SiloTxn.LockNext | concurrency_control/silo.cpp:62-80 | One more row of the sorted write set is held if and only if it was free, or nothing changes |
| SiloTxn.SiloTxn.LockWriteSet | concurrency_control/silo.cpp:59-84 | On every path exactly the first num_locks rows of the write set are held; it succeeds if and only if all of them were free and have unchanged tids |
| SiloTxn.SiloTxn.ValidateRows | concurrency_control/silo.cpp:126-148 | Tells whether all listed rows pass, carries exactly the largest tid, changes no holder |
| SiloTxn.SiloTxn.ValidateAccesses | concurrency_control/silo.cpp:124-151 | Succeeds exactly if every access is unchanged and every row only read is unlocked |
| SiloTxn.SiloTxn.LockAndValidate | concurrency_control/silo.cpp:59-153 | Locks then validates, with the same account of who holds what on every path; succeeds if and only if every row accessed was free and has the tid that was copied |
| SiloTxn.SiloTxn.ValidateSilo | concurrency_control/silo.cpp:8-154 | On every return path exactly the rows of write_set[..num_locks] are held and no other row changed hands; it succeeds if and only if every row accessed was free and has the tid that was copied, and then the whole write set is locked |
| SiloTxn.SiloTxn.FinishRow | concurrency_control/silo.cpp:169-175 | One row is installed on commit and released |
| SiloTxn.SiloTxn.Finish | concurrency_control/silo.cpp:156-181 | Each held row is released once and no other row touched; on commit exactly the written rows receive copy and tid |
| TicTocRuns.CommittedAreSerial | concurrency_control/tictoc.cpp:83-260 | In every run, with guarded returns of read rows, each committed transaction saw what serial execution in commit timestamp order, ties by decision, shows it |
| TicTocRuns.RowsAreSerial | concurrency_control/row_tictoc.cpp:186-204 | A row nobody is about to install holds what that serial execution leaves in it |
| TicTocRuns.LeasesNeverOverlap | concurrency_control/row_tictoc.cpp:186-309 | In every run the versions of a row have disjoint, strictly increasing [wts, rts] intervals |
| TicTocRuns.CommittedReadsStayValid | concurrency_control/tictoc.cpp:224-260 | A read committed at c on the version of w: w <= c, and no version ever made, before or after, has a timestamp in (w, c] |
| TicTocRuns.WritersNeverDeadlock | concurrency_control/row_tictoc.cpp:143-174 | No chain of transactions waiting for write locks closes, over all rows of every reachable state |
| TicTocRuns.RunKeeps | concurrency_control/tictoc.cpp:83-260 | Every reachable state satisfies the protocol invariant |
| TicTocRuns.StepKeeps | concurrency_control/tictoc.cpp:83-343 | Each step of each transaction keeps it |
| TicTocRuns.WriteRowKeeps | concurrency_control/row_tictoc.cpp:130-174 | Taking or queueing for the write lock keeps it |
| TicTocRuns.LockAnswersAreRight | concurrency_control/row_tictoc.cpp:130-174 | In every run a request for a write lock goes on if and only if the row was free or its own and is its own afterwards, gives up if and only if it may not wait, and waits otherwise |
| TicTocRuns.WriteTellsTheTruth | concurrency_control/row_tictoc.cpp:130-174 | When each of the three answers is given, what has changed, and that nobody else is affected |
| TicTocRuns.ChecksAreRight | concurrency_control/tictoc.cpp:224-260 | In every run a read passes its check if and only if its remembered lease suffices or the row is unlocked and still stamped as read; then the version read is covered, otherwise no row has changed |
| TicTocRuns.CheckRowKeeps | concurrency_control/row_tictoc.cpp:249-309 | Renewal only lengthens leases of current, unlocked versions and then covers the commit timestamp |
| TicTocRuns.CommitKeeps | concurrency_control/tictoc.cpp:83-143 | At the decision every read lease covers the timestamp and every write lies above its predecessor |
| TicTocRuns.InstallRowKeeps | concurrency_control/row_tictoc.cpp:186-204 | A new version lands above every rts its predecessor reached |
| TicTocRuns.ReturnReadKeeps | concurrency_control/row_tictoc.cpp:186-204 | Stamping a row anew with a committed read keeps the invariant if its lease ends at or below the commit timestamp |
| TicTocRuns.ReturnReadKeepsCell | concurrency_control/row_tictoc.cpp:186-204 | On one row: that guard is equivalent to the row staying consistent, and to value, write timestamp and lease end not going back |
| TicTocRuns.ReleaseRowKeeps | concurrency_control/row_tictoc.cpp:351-385 | Handing the lock to the last waiter keeps it |
| TicTocRuns.ReleaseTellsTheTruth | concurrency_control/row_tictoc.cpp:351-385 | The waiter of largest priority owns the row next, if anybody waits, and nobody else leaves the queue |
| TicTocRuns.NobodyBetween | concurrency_control/row_tictoc.cpp:186-204 | No committed write lies between the version a committed transaction saw and that transaction |
| TicTocRuns.SerialOrderOk | concurrency_control/tictoc.cpp:193-222 | Sorting by commit timestamp loses no committed transaction and orders all of them |
| TicTocReads.CommitOnReadLosesUpdate | concurrency_control/row_tictoc.cpp:186-204 | A concrete run after which applying commit to a row that was only read loses an update |
| TicTocReads.CommitOnReadIsSafeExactly | concurrency_control/row_tictoc.cpp:186-203 | In every run, that step keeps the invariant, and sets neither value nor write timestamp nor lease end back, if and only if the lease of the row ends at or below the commit timestamp |
| TicTocReads.CutLeaseBreaksOrder | concurrency_control/row_tictoc.cpp:186-203 | From every reachable state: returning a read of a free row at ts although a committed transaction read the row above ts + 1 lets a writer commit in between, and commit timestamp order is not serial |
| TicTocReads.CommitOnReadCutsLease | concurrency_control/row_tictoc.cpp:186-203 | A concrete run in which value and write timestamp stay and only the lease is cut, with that outcome |
| TicTocTxn.RowTicToc.constructor | concurrency_control/row_tictoc.cpp:34-55 | An unlocked row with lease [0, 0] |
| TicTocTxn.RowTicToc.WriteLock | concurrency_control/row_tictoc.cpp:130-174 | Own, wait or abort as the value function says; waiters have smaller priority than the owner; success returns the current lease |
| TicTocTxn.RowTicToc.TryRenewLease | concurrency_control/row_tictoc.cpp:249-309 | Fails exactly on a changed version or a locked row; never shortens a lease |
| TicTocTxn.RowTicToc.CommitWrite | concurrency_control/row_tictoc.cpp:186-204 | wts, rts and value are the new version |
| TicTocTxn.RowTicToc.LastWaiter | concurrency_control/row_tictoc.cpp:363-368 | The waiter of largest priority |
| TicTocTxn.RowTicToc.ReleaseLock | concurrency_control/row_tictoc.cpp:351-385 | The lock passes to the last waiter or is freed; the caller neither owns nor waits afterwards |
| TicTocTxn.Transaction.GetRwSet | concurrency_control/tictoc.cpp:28-58 | Reads and writes are separated in order |
| TicTocTxn.Transaction.ComputeCommitTs | concurrency_control/tictoc.cpp:193-222 | The result is the largest of the running minimum, the wts of reads and rts + 1 of writes |
| TicTocTxn.Transaction.ValidateReadSet | concurrency_control/tictoc.cpp:224-260 | Succeeds if and only if every read passes, and then covers every read up to the timestamp; on failure the first failing read is one that does not pass, and later ones are untouched |
| TicTocTxn.Transaction.CheckAccess | concurrency_control/tictoc.cpp:249-256 | One read passes exactly if its lease suffices or its row can be renewed |
| TicTocTxn.Transaction.UnlockWriteSet | concurrency_control/tictoc.cpp:321-343 | Each held lock is released exactly once |
| TicTocTxn.Transaction.CheckOrUnlock | concurrency_control/tictoc.cpp:113-139 | All reads covered and all locks kept if every read passes, all locks released if not |
| TicTocTxn.Transaction.Validate | concurrency_control/tictoc.cpp:83-143 | The commit timestamp is the least acceptable one; it succeeds if and only if every read passes there, covering every read and keeping every lock, and otherwise releases every lock |
| RowLocks.WaitDieNeverDeadlocks | concurrency_control/row_lock.cpp:67-155 | WAIT_DIE: over all rows of every reachable state no chain of waiting closes |
| RowLocks.WaitDieProgress | concurrency_control/row_lock.cpp:320-363 | WAIT_DIE: whenever anybody waits, some owner waits nowhere |
| RowLocks.CalvinNeverDeadlocks | concurrency_control/row_lock.cpp:156-176 | CALVIN: if all rows receive requests in one common order, no chain of waiting closes |
| RowLocks.CalvinProgress | concurrency_control/row_lock.cpp:320-363 | CALVIN under a common order: whenever anybody waits, some owner waits nowhere |
| RowLocks.RunKeepsSystem | concurrency_control/row_lock.cpp:51-378 | Every reachable row: lock type sums up the owners, a waiting head conflicts with it, WAIT_DIE queues descend and are older than all owners, CALVIN requests equal grants followed by waiters |
| RowLocks.StepKeepsSystem | concurrency_control/row_lock.cpp:51-378 | Each call on each row keeps that |
| RowLocks.GetKeepsLock | concurrency_control/row_lock.cpp:67-204 | A request keeps the invariant whatever the answer |
| RowLocks.GetTellsTheTruth | concurrency_control/row_lock.cpp:67-204 | RcOk if and only if the request is an owner afterwards, which is when it is compatible with every owner and overtakes nobody; Wait if and only if it is in the queue; Abort if and only if nothing changed, which is under WAIT_DIE when it cannot be granted and some owner is older |
| RowLocks.EveryAnswerIsRight | concurrency_control/row_lock.cpp:51-222 | In every run the same, by the grants and waits that transactions were told of before |
| RowLocks.HeldAreCompatible | concurrency_control/row_lock.cpp:51-378 | In every run the grants told and not released are exactly the owners, any two of them compatible, and those told to wait exactly the queue |
| RowLocks.ReleaseKeepsLock | concurrency_control/row_lock.cpp:264-363 | A release with its promotion loop keeps the invariant and leaves no compatible waiter at the head |
| RowLocks.ReleaseTellsTheTruth | concurrency_control/row_lock.cpp:264-363 | A release takes exactly its entry from the owners and lets exactly a prefix of the queue in |
| RowLocks.PromoteTakesPrefix | concurrency_control/row_lock.cpp:320-363 | Promotion moves a prefix of the queue, in order, to the owners |
| RowLocks.WaitDieWaitsForYounger | concurrency_control/row_lock.cpp:97-142 | A WAIT_DIE transaction waits only for younger ones |
| RowLocks.CalvinWaitsForEarlier | concurrency_control/row_lock.cpp:156-176 | A CALVIN transaction waits only for earlier ones in the common order |
| RowLock.RowLockEntry.constructor | concurrency_control/row_lock.cpp:24-43 | An unlocked row |
| RowLock.RowLockEntry.CanWait | concurrency_control/row_lock.cpp:97-118 | True exactly if no owner is older |
| RowLock.RowLockEntry.InsertByTimestamp | concurrency_control/row_lock.cpp:133-141 | The waiter goes before the first one not younger |
| RowLock.RowLockEntry.LockGet | concurrency_control/row_lock.cpp:51-222 | Grant, wait or abort and the new lock equal the value function; RcOk, Wait and Abort if and only if the request is an owner, is in the queue, nothing changed; counters agree; a lock granted beside owners is shared |
| RowLock.RowLockEntry.RemoveFromOwners | concurrency_control/row_lock.cpp:266-281 | Exactly the owner's entry is unlinked |
| RowLock.RowLockEntry.LockRelease | concurrency_control/row_lock.cpp:225-378 | The loop ends with the lock of the value function and the invariant restored |
| MaatRuns.CommitOrder | concurrency_control/maat.cpp:27-189 | In every run, including forward validation: after x validates, both commit and y is in a dependency set with its entry present, commit timestamps are strictly ordered as the set demands, provided the interval of an already committed y still contains its timestamp |
| MaatRuns.CommitOrderWithoutForward | concurrency_control/maat.cpp:27-189 | Over runs of accesses, validations and bound selections the same order holds of all such pairs |
| MaatRuns.IntactWithoutForward | concurrency_control/maat.cpp:174-189 | Without row commits the interval of a committed transaction contains its commit timestamp |
| MaatForward.ForwardCanMisorder | concurrency_control/row_maat.cpp:281-311 | A run from the initial state in which a row commit moves the interval of a committed reader and a writer that validates over its read commits below it |
| MaatForward.CommitsLaterExactly | concurrency_control/maat.cpp:27-189 | For every run ending with a validation of x and every committed y: in all continuations x commits after y, if and only if the lower bound given to x is above the commit timestamp of y |
| MaatRuns.ConflictsAreTracked | concurrency_control/row_maat.cpp:52-170 | In every reachable state, of a pending reader and a pending writer of a row, or of two pending writers, one has the other in its dependency sets |
| MaatSeen.WriterAfterCommittedReader | concurrency_control/row_maat.cpp:130-170 | In every run a transaction that prewrites a row after the read of it by y was committed, and commits, commits after y |
| MaatSeen.AfterCommittedWriter | concurrency_control/row_maat.cpp:99-170 | In every run a transaction that reads or prewrites a row after the write of it by y was committed, and commits, commits after y |
| MaatSeen.PendingIsLearned | concurrency_control/row_maat.cpp:52-170 | In every run whoever has read or prewritten a row and not left it is learned by the next one to access it, in the set its role demands |
| MaatSeen.AccessLearnsNothingElse | concurrency_control/row_maat.cpp:52-170 | Whoever is new in a set was pending on the row in that role, and a timestamp that has grown is the row's |
| MaatSeen.LeavingUnregisters | concurrency_control/row_maat.cpp:172-316 | A row commit takes its transaction off the list it was on, an abort off both |
| MaatSeen.ForwardOrdersWriters | concurrency_control/row_maat.cpp:255-273 | In every run, when the read of y is committed, a pending writer that y did not know and that commits later commits after y |
| MaatSeen.ForwardOrdersOthers | concurrency_control/row_maat.cpp:281-311 | In every run, when the write of y is committed, a pending writer that y did not know and that commits later commits before y, and such a reader below the lower bound of y |
| MaatSeen.CommitsExactly | concurrency_control/maat.cpp:27-189 | In every run a transaction validates if and only if there is room among the decided transactions it knows of, and commits if and only if its interval is not empty by then, at its lower bound |
| MaatRuns.RunIsLater | concurrency_control/maat.cpp:27-189 | Between any two states of a run intervals only narrow, and a later commit timestamp lies in the earlier interval |
| MaatRuns.RunKeeps | concurrency_control/maat.cpp:27-189 | After n steps every bound is the largest timestamp or at most n |
| MaatRuns.ValidateNoWrap | concurrency_control/maat.cpp:135-144 | In such states the sum in validate that could wrap around does not |
| MaatRuns.CommitReadNarrows | concurrency_control/row_maat.cpp:255-273 | Forward validation at the commit of a read only narrows intervals and changes no state |
| MaatRuns.CommitWriteNarrows | concurrency_control/row_maat.cpp:281-311 | So does forward validation at the commit of a write |
| MaatRuns.CommitBothNarrows | concurrency_control/row_maat.cpp:203-251 | So does forward validation where every access both reads and prewrites |
| Maat.ValidateSeparates | concurrency_control/maat.cpp:44-162 | After a successful validation the interval is separated from that of every non-aborted member of the three sets; the only tie leaves the other interval empty |
| Maat.ValidateNarrows | concurrency_control/maat.cpp:37-163 | Validation narrows intervals only, succeeds exactly if lower < upper, changes no other state, and touches nobody else on abort |
| Maat.RoomIsSafeExactly | concurrency_control/maat.cpp:135-144 | The adjusting loop keeps lower < upper for all inputs if and only if lower is at least two below the largest timestamp |
| Maat.MakePlanOk | concurrency_control/maat.cpp:37-109 | The three scans put decided transactions out of the way and list the running ones |
| Maat.ValidateFindsRoomExactly | concurrency_control/maat.cpp:37-163 | Validation succeeds if and only if some lower bound above all that has to come before lies below some upper bound below all that has to come after |
| Maat.PlanIsTightest | concurrency_control/maat.cpp:37-109 | The bounds after the scans are the least and the greatest possible |
| Maat.RaiseLowerExactly | concurrency_control/maat.cpp:112-122 | The lower bound moves past every running reader that leaves room below the upper bound, and no further |
| Maat.DropUpperExactly | concurrency_control/maat.cpp:135-150 | The upper bound drops below every running writer that leaves room, and no further |
| Maat.FindBoundExactly | concurrency_control/maat.cpp:174-189 | Commits if and only if the interval is not empty, at its lower bound |
| Maat.InsertAscending | concurrency_control/row_maat.cpp:64-76 | The dependency sets are kept in ascending order, each element once |
| Maat.AdjustOk | concurrency_control/maat.cpp:110-158 | The four adjusting loops: what becomes of every entry |
| MaatTxn.TimeTable.Scan | concurrency_control/maat.cpp:37-109 | The three scanning loops compute the plan |
| MaatTxn.TimeTable.SeparateReaders | concurrency_control/maat.cpp:119-134 | Finding room above running readers and cutting them off |
| MaatTxn.TimeTable.SeparateWriters | concurrency_control/maat.cpp:135-155 | Making room for running writers and lifting them |
| MaatTxn.TimeTable.Validate | concurrency_control/maat.cpp:27-172 | Return code and table equal the value function |
| MaatTxn.TimeTable.FindBound | concurrency_control/maat.cpp:174-189 | An empty interval aborts, otherwise the lower bound is the commit timestamp |
| MaatTxn.RowMaat.constructor | concurrency_control/row_maat.cpp:25-36 | A row nobody accesses |
| MaatTxn.RowMaat.Read | concurrency_control/row_maat.cpp:99-128 | Dependency sets and soft lock of a reader |
| MaatTxn.RowMaat.Prewrite | concurrency_control/row_maat.cpp:130-170 | Dependency sets and soft lock of a writer |
| MaatTxn.RowMaat.ReadAndPrewrite | concurrency_control/row_maat.cpp:52-97 | Both at once |
| MaatTxn.RowMaat.CommitRead | concurrency_control/row_maat.cpp:255-273 | Last read timestamp, soft lock and forward validation of pending writers |
| MaatTxn.RowMaat.CommitWrite | concurrency_control/row_maat.cpp:281-311 | Last write timestamp, soft lock and forward validation of pending writers and readers |
| MaatTxn.RowMaat.CommitBoth | concurrency_control/row_maat.cpp:203-251 | Both timestamps, both soft locks and forward validation in both directions, in one section |
| DtaRuns.ReaderCommitsEarlier | concurrency_control/wkdb.cpp:37-168 | In every run of DTA or WOOKONG: when x validates, y, another reader of a row x writes, may still commit and is not woken from then on, and both commit, y commits strictly earlier |
| DtaRuns.DtaReaderCommitsEarlier | concurrency_control/dta.cpp:69-229 | In every run of DTA the same without a condition on wake-ups |
| DtaRuns.BoundHoldsExactly | concurrency_control/row_wkdb.cpp:282-323 | In every reachable state a step keeps a transaction at or below the bound it was trimmed to if and only if the step does not wake it |
| WkdbWakes.WokenReaderCommitsLater | concurrency_control/row_wkdb.cpp:282-323 | A run of WOOKONG in which a reader trimmed by a validating writer is woken and commits after it |
| Dta.ValidateServesReaders | concurrency_control/dta.cpp:100-172 | On success x is the registered writer of every row it writes, nobody else was, its lower bound is above their last reads, and every other reader that may still commit ends at or below it |
| Dta.ValidateTrims | concurrency_control/dta.cpp:69-185 | Only running intervals change, only at the upper end, and no non-empty one becomes empty; rows at most gain x as writer |
| Dta.ReaderStepOk | concurrency_control/dta.cpp:123-155 | One reader: pushed past, trimmed, or already below |
| Dta.ReaderStepExactly | concurrency_control/dta.cpp:123-155 | One reader moves the bound no further than past the end of a decided one or the beginning of a running one, which is cut at the bound |
| Dta.ValidateAboveWrites | concurrency_control/dta.cpp:94-98 | On success DTA's writer is above the greatest write timestamp it has learned |
| Dta.ValidateHasReason | concurrency_control/dta.cpp:69-185 | Validation refuses only because another writer is registered or there is no room, and every bound it gives is one that the start, the write seen, a last read or a reader asks for |
| DtaRuns.SawIsNotLater | concurrency_control/row_dta.cpp:102-130 | In every run of DTA a committed transaction does not come before a writer whose write it saw, and comes strictly after it if and only if the write is below its start or it commits above its start |
| DtaRuns.WriterAfterCommitted | concurrency_control/row_dta.cpp:241-273 | In every run a transaction that validates a write of a row after y, reader or writer, committed and left it, commits strictly after y |
| DtaRuns.GreatestIsNeverLearned | concurrency_control/row_dta.cpp:178-212 | In every run the greatest write timestamp of every transaction is 0 |
| DtaTies.WritersCanTie | concurrency_control/dta.cpp:94-98 | A run of DTA in which a writer commits at the timestamp of the writer whose write it saw |
| DtaRuns.RunKeeps | concurrency_control/dta.cpp:69-229 | In every run lower bounds of known transactions only rise, commit timestamps stay and lie in the interval, and every logged write stands for a commit at its timestamp |
| DtaRuns.StepKeeps | concurrency_control/row_wkdb.cpp:152-203 | Each step keeps that, and caps every transaction it does not wake at its upper bound |
| DtaRuns.RunCaps | concurrency_control/row_wkdb.cpp:282-323 | Between two states of a run a transaction that is not woken stays below its upper bound, and so does its commit timestamp |
| DtaTxn.RowDta.constructor | concurrency_control/row_dta.cpp:25-51 | A row without readers or writer |
| DtaTxn.TimeTable.VisitReaders | concurrency_control/wkdb.cpp:102-137 | The reader loop with its early exit |
| DtaTxn.TimeTable.VisitRow | concurrency_control/wkdb.cpp:71-140 | One row of the write set; the availability flag is restored on every way out |
| DtaTxn.TimeTable.VisitRows | concurrency_control/dta.cpp:100-156 | The loop over the write set with both early exits |
| DtaTxn.TimeTable.Validate | concurrency_control/wkdb.cpp:37-168 | Return code, table and rows equal the value function; every row is available afterwards |
| Occ.CommittedDoNotConflict | concurrency_control/occ.cpp:117-301 | In every run, of two committed transactions the earlier snapshot has written nothing the later read unless it finished before the later started, and nothing the later wrote unless it finished before the later snapshot |
| Occ.HistoryStaysDescending | concurrency_control/occ.cpp:254-301 | In every run the history is strictly descending |
| Occ.ScanCoversWindow | concurrency_control/occ.cpp:169-186 | On a strictly descending history the two loops test exactly the transaction numbers in (start, finish] |
| OccVerdicts.VerdictExactly | concurrency_control/occ.cpp:163-207 | In every run a transaction is refused if and only if another one, committed in its window or active at its snapshot, wrote what it read or, if active, writes what it writes |
| OccVerdicts.ValidExactly | concurrency_control/occ.cpp:163-207 | The verdict is true if and only if the write sets in the window (start, finish] are disjoint from the read set and the active ones from both sets |
| OccVerdicts.RunLists | concurrency_control/occ.cpp:117-301 | In every run the active list holds transactions after their snapshot that have not ended, each once, and the history committed ones |
| OccVerdicts.RemoveActiveExactly | concurrency_control/occ.cpp:225-239 | Unlinking takes exactly the transaction's entry out |
| Occ.RunKeeps | concurrency_control/occ.cpp:117-301 | Every reachable state: snapshots show every earlier transaction that may commit |
| Occ.StepKeeps | concurrency_control/occ.cpp:117-301 | Each critical section and each scan keeps that |
| OccManager.OptCC.constructor | concurrency_control/occ.cpp:32-40 | Empty lists |
| OccManager.OptCC.TestValid | concurrency_control/occ.cpp:328-336 | True exactly if no row is in both sets |
| OccManager.OptCC.TakeSnapshot | concurrency_control/occ.cpp:138-160 | The first critical section: both lists as they were, and a writer becomes active |
| OccManager.OptCC.Scan | concurrency_control/occ.cpp:163-207 | The verdict equals the value function |
| OccManager.OptCC.Unlink | concurrency_control/occ.cpp:225-239 | The transaction's first entry leaves the active list, if there is one |
| OccManager.OptCC.CentralValidate | concurrency_control/occ.cpp:117-245 | Verdict and lists after a whole validation |
| OccManager.OptCC.CentralFinish | concurrency_control/occ.cpp:254-301 | A writer leaves the active list and, if it commits and was there, enters the history with a fresh number |
| SsiRuns.NoAntidependencyIsMissed | concurrency_control/row_ssi.cpp:231-416 | In every run, if a transaction read a version older than a concurrent transaction's write and neither aborted: the reader is in the writer's in-set if and only if the writer has an entry, and the writer in the reader's out-set if and only if the reader has one |
| SsiRuns.PivotIsRefused | concurrency_control/ssi.cpp:29-62 | Validation refuses a transaction with such dependencies both in and out if and only if it has an entry |
| SsiRuns.NobodyIsRefused | concurrency_control/ssi.cpp:94-107 | In every run without the creation of entries, validation refuses nobody |
| SsiRuns.TableStaysEmpty | concurrency_control/ssi.cpp:94-107 | In such runs the table of conflicts stays empty |
| SsiSkew.PivotWithoutEntryValidates | concurrency_control/ssi.cpp:29-62 | A run in which two pivots without entries validate, each having read what the other writes |
| SsiRuns.RunKeeps | concurrency_control/row_ssi.cpp:231-416 | Every reachable state: locks stand for exactly what is logged, every version read is not after the start of its reader, recycled versions are older than kept ones, all antidependencies are marked |
| SsiRuns.StepKeeps | concurrency_control/row_ssi.cpp:231-416 | Each step keeps that |
| SsiRuns.NewReadMeetsWriter | concurrency_control/row_ssi.cpp:242-286 | A new read meets every writer whose version it misses, by its lock or in the history, whatever has been recycled |
| SsiRuns.NewWriteMeetsReader | concurrency_control/row_ssi.cpp:294-360 | A new prewrite meets every concurrent reader of the row |
| SsiRuns.InstallRowKeeps | concurrency_control/row_ssi.cpp:361-372 | Turning a write lock into a version loses no dependency |
| SsiRuns.AbortTxnKeeps | concurrency_control/ssi.cpp:202-225 | Marking a transaction aborted, and then clearing its conflicts, loses no dependency of others |
| SsiRuns.RecycleRowKeeps | concurrency_control/row_ssi.cpp:45-76 | Recycling keeps a version between what is discarded and every transaction that may still read |
| SsiRuns.PrewriteRefusedExactly | concurrency_control/row_ssi.cpp:294-360 | In every run a prewrite is refused if and only if a concurrent reader of the row has committed with a conflict in, or too many prewrites are pending |
| SsiMarks.ReadMarksExactly | concurrency_control/row_ssi.cpp:242-286 | In every run a read marks exactly the other holders of write locks on the row and the writers of versions newer than its start, on both sides |
| SsiMarks.PrewriteMarksExactly | concurrency_control/row_ssi.cpp:332-352 | In every run a granted prewrite marks exactly the readers of the row that are alive and had not committed when the writer started |
| SsiMarks.AbortedIsForgotten | concurrency_control/ssi.cpp:202-225 | In every run, when an aborted transaction with an entry is cleared, it is in the sets of nobody who has not left |
| SsiMarks.PendingPrewrites | concurrency_control/row_ssi.cpp:294-381 | In every run the prewrites pending on a row are granted and not installed, each once, and all of those of live transactions |
| SsiSnapshots.ReadIsNewest | concurrency_control/row_ssi.cpp:259-263 | In every run a read gets a version not after its start, or the base row, with nothing installed in between |
| SsiSnapshots.SnapshotHoldsExactly | concurrency_control/row_ssi.cpp:231-372 | For every run ending with a read: in all continuations nothing is installed between the version it got and its start, if and only if nobody had drawn a timestamp there without having installed the row |
| SsiSnapshots.SnapshotCanBreak | system/txn.cpp:561-581 | A run in which a version arrives below the start of a reader that has already read the row |
| Ssi.VersionAtExactly | concurrency_control/row_ssi.cpp:259-263 | The version found is not after the start, is in the history or the base row, and no version of the history lies in between |
| Ssi.NewerExactly | concurrency_control/row_ssi.cpp:280-286 | The writers met in the history are exactly those of versions newer than the start |
| Ssi.RecycleExactly | concurrency_control/row_ssi.cpp:45-76 | Below the threshold one version at most is left, and from the threshold on all are |
| SsiRow.InOutTable.SetConflict | concurrency_control/ssi.cpp:152-174 | One antidependency is entered on both sides |
| SsiRow.InOutTable.ClearConflict | concurrency_control/ssi.cpp:202-225 | The transaction leaves the sets of everybody it conflicted with, and nothing else changes |
| SsiRow.InOutTable.Validate | concurrency_control/ssi.cpp:29-62 | Aborts exactly with conflicts both in and out |
| SsiRow.RowSsi.constructor | concurrency_control/row_ssi.cpp:25-43 | An empty row |
| SsiRow.RowSsi.ReadRequest | concurrency_control/row_ssi.cpp:242-286 | Lock, marks and version equal the value function |
| SsiRow.RowSsi.MeetWriters | concurrency_control/row_ssi.cpp:246-256 | Everybody else on the write lock list is marked |
| SsiRow.RowSsi.FindVersion | concurrency_control/row_ssi.cpp:259-263 | The newest version not after the start |
| SsiRow.RowSsi.MeetNewer | concurrency_control/row_ssi.cpp:280-286 | Every newer version's writer is marked |
| SsiRow.RowSsi.PrewriteRequest | concurrency_control/row_ssi.cpp:294-360 | Verdict, lock, marks and buffer equal the value function |
| SsiRow.RowSsi.FindDanger | concurrency_control/row_ssi.cpp:298-314 | True exactly if some committed concurrent reader has a conflict in |
| SsiRow.RowSsi.MeetReaders | concurrency_control/row_ssi.cpp:332-352 | Exactly the concurrent readers are marked |
| SsiRow.RowSsi.UnlinkFirst | concurrency_control/row_ssi.cpp:192-229 | Exactly the first entry of the transaction is unlinked |
| SsiRow.RowSsi.WriteRequest | concurrency_control/row_ssi.cpp:361-372 | The write lock becomes a version at its place |
| SsiRow.RowSsi.CancelRequest | concurrency_control/row_ssi.cpp:373-381 | An aborted writer gives up its locks and its prewrite |
| SsiRow.RowSsi.ClearHistory | concurrency_control/row_ssi.cpp:45-76 | Recycling from the tail equals the value function |
| Interleavings.DeliversAllInterleavings | benchmarks/creator.cpp:177-195 | Delivered are exactly the interleavings that keep both orders and put each terminator behind its transaction's actions, each once |
| Interleavings.DeliverMembers | benchmarks/creator.cpp:177-195 | From any stage on, delivered are exactly the sequences reachable by moving the remaining terminators |
| Interleavings.DeliverDistinct | benchmarks/creator.cpp:177-195 | No sequence is delivered twice |
| Interleavings.Creator.MoveForward | benchmarks/creator.cpp:177-195 | The in-place recursion delivers what the value function says and restores the array |
| Interleavings.Creator.MoveOn | benchmarks/creator.cpp:183-189 | The forward loop delivers from every place the terminator reaches |
| Interleavings.Creator.PutBack | benchmarks/creator.cpp:190-193 | The backward loop restores the array |
| Histories.VisitsAllCanonical | benchmarks/creator.cpp:107-141 | Visited are exactly the sequences of the asked length, within bounds, numbered by first appearance, without a repeated identical read; each once |
| Histories.EveryHistoryIsVisited | benchmarks/creator.cpp:107-141 | Every history without a repeated read and with no more transactions and items than asked is a renaming of exactly one visited sequence |
| Histories.VisitMembers | benchmarks/creator.cpp:123-139 | Below any prefix, visited are exactly the wanted extensions |
| Histories.VisitDistinct | benchmarks/creator.cpp:123-139 | Below any prefix nothing is visited twice |
| HistoryCreator.SubtasksPartition | benchmarks/creator.cpp:29-39 | The j-th visited sequence, if kept, is handled by exactly the subtask j modulo the number of subtasks |
| HistoryCreator.CountsShare | benchmarks/creator.cpp:111-121 | The counter hands a subtask exactly its residue class, with the right running numbers |
| HistoryCreator.TraversalCreator.constructor | benchmarks/creator.cpp:29-39 | The counter starts at the number of subtasks minus the subtask id |
| HistoryCreator.TraversalCreator.Arrive | benchmarks/creator.cpp:111-121 | Counting and handling one visited sequence |
| HistoryCreator.TraversalCreator.Fill | benchmarks/creator.cpp:107-141 | The recursion counts everything below the current actions and restores the vector |
| HistoryCreator.TraversalCreator.FillItems | benchmarks/creator.cpp:125-139 | The item loop |
| HistoryCreator.TraversalCreator.Try | benchmarks/creator.cpp:127-138 | One action is pushed, explored and popped, unless it repeats a read |
| HistoryCreator.TraversalCreator.Deliver | benchmarks/creator.cpp:41-48 | A subtask handles exactly its share of the enumeration |
| Terminators.TerminatorListsAll | benchmarks/creator.cpp:149-175 | Produced are exactly the lists with one commit, or abort where allowed, for each transaction, in any order; each once |
| Terminators.TypesMembers | benchmarks/creator.cpp:167-174 | Below any choice so far, visited are exactly its extensions by commits and aborts |
| Terminators.PermsMembers | benchmarks/creator.cpp:156-166 | The orders visited are exactly the permutations of the transactions |
| Terminators.PermsSorted | benchmarks/creator.cpp:156-166 | They are visited in strictly increasing lexicographic order |
| Terminators.NextIsLeastAbove | benchmarks/creator.cpp:166 | Each is the next permutation after the one before it, the least one above, starting from the ascending order |
| Terminators.TerminatorCreator.constructor | benchmarks/creator.cpp:67-74 | Nothing chosen and nothing handled |
| Terminators.TerminatorCreator.Fill | benchmarks/creator.cpp:149-175 | The recursion handles all lists below the current choice in order and restores the vector |
| Terminators.TerminatorCreator.HandleAll | benchmarks/creator.cpp:156-166 | The loop over permutations handles every order of one choice |
| CompleteHistories.EveryCompleteHistoryOnce | benchmarks/creator.cpp:41-74 | The subtasks together deliver exactly the complete histories: canonical reads and writes, one terminator for each transaction behind its actions; no two subtasks deliver the same one and no subtask delivers one twice |
| CompleteHistories.CompletedMembers | benchmarks/creator.cpp:55-74 | From one handled sequence come exactly its completions |
| CompleteHistories.CompleteIsDelivered | benchmarks/creator.cpp:41-48 | Every complete history is delivered by the subtask to which the running number of its reads and writes belongs |

## Left out

- Networking, message queues, threads, statistics, allocation, schema loading, benchmarks' transaction logic and random generators: plumbing.
- Timestamp ordering (`row_ts.cpp`), WSI, BOCC, FOCC, DLI, per-row OCC, `rts_cache.cpp`, `key_xid.cpp`: other protocols, not modelled.
- NO_WAIT locking and `TWOPL_LITE`: WAIT_DIE and CALVIN cover the same row with queues.
- CALVIN's ready counter (`lock_ready_cnt`), which restarts a transaction once all its locks are granted.
- Silo with `ATOMIC_WORD` or waiting locks; TicToc without `OCC_WAW_LOCK`, row deletion, `TICTOC_MV`, and `Row_tictoc::access`, which drops return codes.
- TicToc, MAAT, DTA and SSI across nodes: validation by parts, prepare and finish messages.
- MAAT and DTA values: rows install unconditionally, so only commit timestamps are ordered here, not values read.
- DTA and WOOKONG values read, the recycling of DTA's versions and WOOKONG's version histories; the prewrite buffers of DTA, in which nobody waits; the timestamp by which a woken WOOKONG transaction picks its version.
- Optimistic validation at the level of values: a transaction enters the history before its rows are written (`system/txn.cpp:1196-1221`), so finishing before a start does not mean installed before it; and the extra write-set test of the TPC-C workload.
- SSI serializability: the check on committed writers is disabled in the code (`row_ssi.cpp:269-278`); tracking and the refusal of pivots are proved, not that all histories are serializable.
- `std::next_permutation` itself: it is modelled by the order in which it enumerates. The number of aborts passed along with a list, and histories read from a file (`InputActionSequenceCreator`).
- Hash chains of the time tables and of the conflict table are maps; entry lists are sequences; latches are not modelled, each latched section is one step. SSI validation, which reads the two conflict sets of one transaction under two latches, is one step too.
- MaatRuns.CommitOrder: requires that the table interval of a `y` that committed earlier still contains its commit timestamp. Without that the order can fail (`MaatForward.ForwardCanMisorder`); the exact condition is stated for `x` to come after `y` (`MaatForward.CommitsLaterExactly`), not for `x` to come before it.
- SiloRuns.CommittedAreSerial: runs in which commit tids are fresh, because with the code's tids it does not hold; see `SiloFresh.SerialExactlyIfFresh` and `SiloTids.ReusedTidLosesUpdate`.
- SiloFresh.SerialExactlyIfFresh: necessity is for transactions that have not reached their lock point; one that has, and is placed before the committing one, may read the old version rightly.
- TicTocRuns.CommittedAreSerial: the commit step on a row that was only read is guarded by the lease of the row, because without the guard it does not hold; see `TicTocReads`.
- DtaRuns.ReaderCommitsEarlier: in WOOKONG only for readers that are not woken after the writer's validation, because otherwise it does not hold; see `WkdbWakes.WokenReaderCommitsLater`.
- DtaRuns.SawIsNotLater: strictly after only under its condition, because write timestamps are never learned; see `DtaTies.WritersCanTie`.
- SsiSnapshots.SnapshotHoldsExactly: only for reads that nobody is racing with, because otherwise it does not hold; see `SsiSnapshots.SnapshotCanBreak`.
- SsiRuns.PivotIsRefused: only for transactions with an entry in the table of conflicts, which no line of the source creates; see `SsiSkew.PivotWithoutEntryValidates`.

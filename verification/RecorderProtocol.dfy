/**
 The recorder as a protocol (internal/app/record.go): every interleaving of
 notes, marks, flushes, applies and untrusts on one instance that stays
 registered, over a store that commits or refuses each transaction.

 A step is one span of mu, or one transaction. The writer lock is the `writer`
 field: it is held from a snapshot to the settle or remerge. Rows are noted and
 untrusts issued by one goroutine, so neither happens while an untrust is under
 way. Untrusts of other instances advance the shared number.
 */
module RecorderProtocol {
  import opened RecordStore
  import opened Recorder

  datatype Untrust = Untrust(at: nat, number: nat)

  datatype Writer =
    | Idle
    | Writing(snap: Snapshot)    // a flush, before its transaction
    | Written(snap: Snapshot)    // a flush that committed, before its settle
    | Failed(snap: Snapshot)     // a flush that failed, before its remerge
    | Applying(batch: Batch)     // an apply, before its transaction
    | Deleting(f: nat, number: nat)  // an untrust, before its transaction
    | Deleted_(f: nat, number: nat)  // an untrust that committed, before its settle

  datatype Worker = Free | Untrusting(f: nat, number: nat)

  /** buf, owedSeq, writer, worker and store are the program's. The rest is the
      run's history: the stamp clock, every row noted, those not disowned since,
      the latest untrust of each file, when each numbered untrust began, and the
      latest state of each file: marked, or given to an apply that committed, with the
      complete flag any verdict since gave it. A file has none once an untrust disowns
      it, or an apply purges its buffered one. */
  datatype State = State(
    buf: Slice, owedSeq: nat, writer: Writer, worker: Worker, store: Store,
    clock: nat, noted: set<Row>, alive: set<Row>,
    last: map<nat, Untrust>, when: map<nat, nat>, mark: map<nat, FileState>)

  datatype Step =
    | Note(fileIdx: nat, artIdx: int, offset: int, length: int, crc: int)
    | Mark(f: nat, complete: bool, filename: string, fetchPolicy: int)
    | OtherUntrust
    | FlushTake(checked: bool)
    | FlushCommit
    | FlushFail
    | FlushSettle
    | FlushRemerge
    | ApplyBegin(verdicts: seq<Verdict>, files: map<nat, FileState>)
    | ApplyEnd(ok: bool)
    | UntrustBegin(uf: nat)
    | UntrustGiveUp
    | UntrustLock
    | UntrustWrite(ok: bool)
    | UntrustSettle

  /** The rows a flush holds that are not in the store yet. */
  function InFlight(w: Writer): (rs: seq<Row>) {
    if w.Writing? || w.Failed? then w.snap.rows else []
  }

  function InFlightFiles(w: Writer): (fs: map<nat, FileState>) {
    if w.Writing? || w.Failed? then w.snap.files else map[]
  }

  predicate Flushing(w: Writer) { w.Writing? || w.Written? || w.Failed? }

  predicate Enabled(s: State, st: Step) {
    match st
    case Note(_, _, _, _, _) => s.worker.Free?
    case Mark(_, _, _, _) => true
    case OtherUntrust => true
    case FlushTake(_) => s.writer.Idle?
    case FlushCommit => s.writer.Writing?
    case FlushFail => s.writer.Writing?
    case FlushSettle => s.writer.Written?
    case FlushRemerge => s.writer.Failed?
    case ApplyBegin(_, _) => s.writer.Idle?
    case ApplyEnd(ok) => s.writer.Applying? && (ok ==> Applicable(s.writer.batch))
    case UntrustBegin(_) => s.worker.Free?
    case UntrustGiveUp => s.worker.Untrusting? && !s.writer.Deleting? && !s.writer.Deleted_?
    case UntrustLock => s.worker.Untrusting? && s.writer.Idle?
    case UntrustWrite(_) => s.worker.Untrusting? && s.writer.Deleting?
    case UntrustSettle => s.worker.Untrusting? && s.writer.Deleted_?
  }

  function NewRow(s: State, st: Step): (r: Row)
    requires st.Note?
  {
    Row(st.fileIdx, st.artIdx, st.offset, st.length, st.crc, s.clock)
  }

  function AliveAfter(alive: set<Row>, vs: seq<Verdict>): (out: set<Row>) {
    set r | r in alive && !Deleted(vs, KeyOf(r))
  }

  /** The files whose state a list of verdicts touches. */
  function Touched(vs: seq<Verdict>): (fs: set<nat>) {
    set v | v in vs && (v.deleteAll || v.setComplete || v.clearComplete) :: v.fileIdx
  }

  /** The untrust's own delete, about to commit, will clear the complete flag of a
      state marked and flushed since its purge. */
  predicate ClearsLaterMark(s: State)
    requires s.writer.Deleting?
  {
    var f := s.writer.f;
    f in s.mark && s.mark[f].complete && f !in s.buf.dirty && f in s.store.files
  }

  /** An apply's file states, stamped with when it began. */
  function Stamped(files: map<nat, FileState>, at: nat): (fs: map<nat, FileState>) {
    map f | f in files :: files[f].(at := at)
  }

  /** The latest states as an apply's purge leaves them: a buffered one is what it is
      made into, or goes with the buffer. */
  function MarkAtPurge(mark: map<nat, FileState>, before: map<nat, FileState>, after: map<nat, FileState>)
      : (m: map<nat, FileState>)
  {
    map f | f in mark && (f in before ==> f in after) :: if f in after then after[f] else mark[f]
  }

  /** And as its commit leaves them: what it stored, unless a newer one is buffered or
      an untrust has disowned it meanwhile. */
  function MarkAtCommit(s: State): (m: map<nat, FileState>)
    requires s.writer.Applying?
  {
    var files := ApplyBatch(s.store, s.writer.batch).files;
    map f | f in s.mark.Keys + s.writer.batch.files.Keys
            && (f in s.mark || (f in files && f !in s.buf.dirty && f !in s.buf.owed)) ::
      if f in s.mark && (f in s.buf.dirty || f !in files) then s.mark[f] else files[f]
  }

  function Do(s: State, st: Step): (t: State)
    requires Enabled(s, st)
  {
    match st
    case Note(_, _, _, _, _) =>
      var r := NewRow(s, st);
      s.(buf := s.buf.(pending := s.buf.pending + [r]), clock := s.clock + 1,
         noted := s.noted + {r}, alive := s.alive + {r})
    case Mark(f, complete, filename, policy) =>
      var fs := FileState(complete, filename, policy, s.clock);
      s.(buf := s.buf.(dirty := s.buf.dirty[f := fs]), clock := s.clock + 1, mark := s.mark[f := fs])
    case OtherUntrust => s.(owedSeq := s.owedSeq + 1)
    case FlushTake(checked) =>
      var a := if checked then Current else Unchecked;
      s.(buf := LeftAfter(s.buf, a), writer := Writing(TakenFrom(s.buf, a)))
    case FlushCommit =>
      s.(store := ApplyBatch(s.store, FlushBatch(s.writer.snap)), writer := Written(s.writer.snap))
    case FlushFail => s.(writer := Failed(s.writer.snap))
    case FlushSettle =>
      s.(buf := s.buf.(owed := SettleAll(s.buf.owed, s.writer.snap.carried)), writer := Idle)
    case FlushRemerge => s.(buf := Remerge(s.buf, s.writer.snap), writer := Idle)
    case ApplyBegin(vs, files) =>
      s.(buf := PurgeForApply(s.buf, vs, files), writer := Applying(Batch([], Stamped(files, s.clock), vs)),
         clock := s.clock + 1, alive := AliveAfter(s.alive, vs),
         mark := MarkAtPurge(s.mark, s.buf.dirty, PurgeForApply(s.buf, vs, files).dirty))
    case ApplyEnd(ok) =>
      if ok then s.(store := ApplyBatch(s.store, s.writer.batch), writer := Idle, mark := MarkAtCommit(s))
      else s.(writer := Idle)
    case UntrustBegin(f) =>
      var n := s.owedSeq + 1;
      s.(buf := Disown(s.buf, f, n), owedSeq := n, worker := Untrusting(f, n), clock := s.clock + 1,
         alive := AliveAfter(s.alive, [UntrustVerdict(f)]),
         last := s.last[f := Untrust(s.clock, n)], when := s.when[n := s.clock], mark := s.mark - {f})
    case UntrustGiveUp => s.(worker := Free)
    case UntrustLock => s.(writer := Deleting(s.worker.f, s.worker.number))
    case UntrustWrite(ok) =>
      if ok then
        s.(store := ApplyBatch(s.store, Batch([], map[], [UntrustVerdict(s.writer.f)])),
           writer := Deleted_(s.writer.f, s.writer.number),
           mark := if ClearsLaterMark(s) then s.mark - {s.writer.f} else s.mark)
      else s.(writer := Idle, worker := Free)
    case UntrustSettle =>
      s.(buf := s.buf.(owed := SettleOne(s.buf.owed, s.writer.f, s.writer.number)), writer := Idle, worker := Free)
  }

  /** A registered instance: its job_files rows exist, and the store may hold
      rows an earlier process wrote. */
  predicate Init(s: State) {
    && s.buf == Slice([], map[], map[])
    && s.writer == Idle && s.worker == Free
    && s.store.files != map[]
    && WellKeyed(s.store.rows)
    && s.noted == s.alive == s.store.rows.Values
    && (forall r | r in s.noted :: r.at < s.clock)
    && s.last == map[] && s.when == map[] && s.mark == map[]
  }

  ghost predicate Trace(s: State, steps: seq<Step>, t: State)
    decreases |steps|
  {
    if steps == [] then s == t
    else Enabled(s, steps[0]) && Trace(Do(s, steps[0]), steps[1..], t)
  }

  // ---- Invariant: order of stamps ----------------------------------------

  /** Everything stored is older than everything in flight, which is older than
      everything pending, and each list is in note order. */
  predicate Ordered(s: State) {
    && Ascending(InFlight(s.writer) + s.buf.pending)
    && (forall r | r in s.buf.pending :: r in s.noted)
    && (forall r | r in InFlight(s.writer) :: r in s.noted)
    && (forall r | r in s.noted :: r.at < s.clock)
    && WellKeyed(s.store.rows)
    && (forall k | k in s.store.rows :: s.store.rows[k] in s.noted)
    && (forall k, r | k in s.store.rows && r in InFlight(s.writer) + s.buf.pending :: s.store.rows[k].at < r.at)
    && s.store.files != map[]
  }

  predicate StaleIn(last: map<nat, Untrust>, f: nat, at: nat) { f in last && at < last[f].at }

  predicate FreshIn(last: map<nat, Untrust>, f: nat, at: nat) { f in last ==> last[f].at < at }

  predicate Stale(s: State, f: nat, at: nat) { StaleIn(s.last, f, at) }

  predicate Fresh(s: State, f: nat, at: nat) { FreshIn(s.last, f, at) }

  /** The debts, the latest untrusts, and what is buffered. */
  predicate Debts(s: State) {
    && (forall f | f in s.last :: s.last[f].at < s.clock && 0 < s.last[f].number <= s.owedSeq)
    && (forall f | f in s.buf.owed :: f in s.last && s.buf.owed[f] == s.last[f].number)
    && (forall r | r in s.buf.pending :: Fresh(s, r.fileIdx, r.at))
    && (forall f | f in s.buf.dirty :: Fresh(s, f, s.buf.dirty[f].at))
    && (forall r | r in s.alive :: Fresh(s, r.fileIdx, r.at))
    && (forall f | f in s.mark :: Fresh(s, f, s.mark[f].at) && s.mark[f].at < s.clock)
    && (forall f | f in s.buf.dirty :: s.buf.dirty[f].at < s.clock)
  }

  /** Overtaken things are older than the file's latest untrust, the others newer. */
  predicate OneSide(overtaken: bool, last: map<nat, Untrust>, f: nat, at: nat) {
    if overtaken then StaleIn(last, f, at) else FreshIn(last, f, at)
  }

  /** A snapshot in flight: a debt it carries is still owed, unless replaced by a
      later one, and what it holds of a file is entirely on one side of the
      file's latest untrust. */
  predicate SnapshotOk(snap: Snapshot, owed: map<nat, nat>, last: map<nat, Untrust>, pending: seq<Row>, clock: nat) {
    && (forall f | f in snap.carried :: f in owed && snap.carried[f] <= owed[f])
    && (forall r | r in snap.rows ::
          r.at < clock && OneSide(Overrun(owed, snap.carried, r.fileIdx), last, r.fileIdx, r.at))
    && (forall f | f in snap.files ::
          snap.files[f].at < clock && OneSide(Overrun(owed, snap.carried, f), last, f, snap.files[f].at))
    && (forall f, r | f in snap.files && r in pending :: snap.files[f].at < r.at)
  }

  predicate Carries(s: State) {
    Flushing(s.writer) ==> SnapshotOk(s.writer.snap, s.buf.owed, s.last, s.buf.pending, s.clock)
  }

  /** The debt of f rode on a write that has committed and not settled yet. */
  predicate JustPaid(s: State, f: nat) {
    f in s.buf.owed &&
    ((s.writer.Written? && f in s.writer.snap.carried && s.writer.snap.carried[f] == s.buf.owed[f])
     || (s.writer.Deleted_? && s.writer.f == f && s.writer.number == s.buf.owed[f]))
  }

  /** The store: stale rows only under a debt, fresh rows only without one. */
  predicate Stored(s: State) {
    && (forall k | k in s.store.rows && Stale(s, k.fileIdx, s.store.rows[k].at) ::
          k.fileIdx in s.buf.owed && !JustPaid(s, k.fileIdx))
    && (forall k | k in s.store.rows && k.fileIdx in s.buf.owed && !JustPaid(s, k.fileIdx) ::
          Stale(s, k.fileIdx, s.store.rows[k].at))
  }

  /** One goroutine notes and untrusts: nothing was noted since its untrust began. */
  predicate OneGoroutine(s: State) {
    && (s.worker.Untrusting? ==>
          && s.worker.f in s.last && s.last[s.worker.f].number == s.worker.number
          && (forall r | r in s.noted :: r.at < s.last[s.worker.f].at))
    && (s.writer.Deleting? || s.writer.Deleted_? ==>
          s.worker == Untrusting(s.writer.f, s.writer.number))
  }

  predicate Committed(s: State, r: Row) {
    KeyOf(r) in s.store.rows && r.at <= s.store.rows[KeyOf(r)].at
  }

  predicate Conserved(s: State) {
    && s.alive <= s.noted
    && (forall r | r in s.alive :: r in s.buf.pending || r in InFlight(s.writer) || Committed(s, r))
  }

  /** A disowned row disowned every earlier row of its article with it, and no two
      rows of an article share a stamp. */
  predicate Closed(s: State) {
    && (forall r, q | r in s.alive && q in s.noted && KeyOf(q) == KeyOf(r) && r.at < q.at :: q in s.alive)
    && (forall r, q | r in s.noted && q in s.noted && KeyOf(q) == KeyOf(r) && r.at == q.at :: r == q)
  }

  /** The latest mark of f that stands is buffered, or in flight with nothing newer
      buffered, or in the store with neither. */
  predicate MarkPlaced(s: State, f: nat)
    requires f in s.mark
  {
    if f in s.buf.dirty then s.buf.dirty[f] == s.mark[f]
    else if f in InFlightFiles(s.writer) then InFlightFiles(s.writer)[f] == s.mark[f]
    else (f in s.store.files ==> s.store.files[f] == s.mark[f]) && (f in s.buf.owed ==> JustPaid(s, f))
  }

  predicate Marks(s: State) {
    forall f | f in s.mark :: MarkPlaced(s, f)
  }

  /** While an apply is open, the rows its transaction removes and that still stand were
      noted since it began, and are buffered; its states are older than no untrust but
      one that is owed. */
  predicate ApplyOpen(s: State) {
    s.writer.Applying? ==>
      && s.writer.batch.rows == []
      && (forall r | r in s.alive && Deleted(s.writer.batch.verdicts, KeyOf(r)) :: r in s.buf.pending)
      && (forall f | f in s.writer.batch.files ::
            && s.writer.batch.files[f].at < s.clock
            && (f in s.buf.owed || Fresh(s, f, s.writer.batch.files[f].at)))
  }

  /** What a write under way is about to delete for an untrust is older than that untrust. */
  predicate Timely(s: State) {
    && (forall f | f in s.last :: s.last[f].number in s.when && s.when[s.last[f].number] == s.last[f].at)
    && (forall n | n in s.when :: n <= s.owedSeq)
    && (s.writer.Writing? ==>
          forall f | f in s.writer.snap.carried ::
            && s.writer.snap.carried[f] in s.when
            && (forall k | k in s.store.rows && k.fileIdx == f ::
                  s.store.rows[k].at < s.when[s.writer.snap.carried[f]]))
  }

  predicate Inv(s: State) {
    && Ordered(s) && Debts(s) && Carries(s) && Stored(s) && OneGoroutine(s)
    && Conserved(s) && Closed(s) && Marks(s) && ApplyOpen(s) && Timely(s)
  }
}

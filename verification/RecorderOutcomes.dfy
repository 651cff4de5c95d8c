/**
 What the recorder's calls come to, in terms of the calls alone: what is stored after an
 apply, a note, a mark or an untrust and whatever happened since, and what a whole
 flush or untrust leaves (internal/app/record.go).
 */
module RecorderOutcomes {
  import opened RecordStore
  import opened Recorder
  import opened RecorderProtocol
  import opened RecorderInvariant
  import opened RecorderTheorems

  lemma ReachableOn(s: State, steps: seq<Step>, t: State)
    requires Reachable(s) && Trace(s, steps, t)
    ensures Reachable(t)
  {
    var s0, before :| Init(s0) && Trace(s0, before, s);
    TraceAppend(s0, before, s, steps, t);
  }

  lemma ReachableStep(s: State, st: Step)
    requires Reachable(s) && Enabled(s, st)
    ensures Reachable(Do(s, st))
  {
    assert Trace(Do(s, st), [st][1..], Do(s, st));
    assert Trace(s, [st], Do(s, st));
    ReachableOn(s, [st], Do(s, st));
  }

  // ---- apply --------------------------------------------------------------------------

  lemma {:induction false} ApplyStaysOpen(s: State, steps: seq<Step>, t: State)
    requires s.writer.Applying? && Trace(s, steps, t) && forall st | st in steps :: !st.ApplyEnd?
    ensures t.writer == s.writer && t.store == s.store
    decreases |steps|
  {
    if steps != [] {
      assert steps[0] in steps;
      ApplyStaysOpen(Do(s, steps[0]), steps[1..], t);
    }
  }

  /** An apply can commit exactly when no verdict of it both sets and clears complete.
      Once it does, whatever happened since it began, an article is stored exactly when
      it was and no verdict deletes it; a file has the name and policy given for it,
      else its own, and the flag the last verdict to decide it gives, else that of the
      state given, else its own. If it fails, the store is as it was. */
  lemma ApplyCommits(s: State, vs: seq<Verdict>, files: map<nat, FileState>, steps: seq<Step>, t: State)
    requires Enabled(s, ApplyBegin(vs, files)) && Trace(Do(s, ApplyBegin(vs, files)), steps, t)
    requires forall st | st in steps :: !st.ApplyEnd?
    ensures Enabled(t, ApplyEnd(true)) <==> forall v | v in vs :: !(v.setComplete && v.clearComplete)
    ensures Enabled(t, ApplyEnd(false)) && Do(t, ApplyEnd(false)).store == s.store
    ensures Enabled(t, ApplyEnd(true)) ==>
      var u := Do(t, ApplyEnd(true)).store;
      && (forall f: nat, a: int :: Key(f, a) in u.rows <==> Key(f, a) in s.store.rows && !Named(vs, f, a))
      && (forall k | k in u.rows :: k in s.store.rows && u.rows[k] == s.store.rows[k])
      && u.files.Keys == s.store.files.Keys
      && (forall f | f in u.files :: GivenState(s.store.files[f], vs, files, f, u.files[f]))
  {
    ApplyStaysOpen(Do(s, ApplyBegin(vs, files)), steps, t);
    var b := t.writer.batch;
    if Enabled(t, ApplyEnd(true)) {
      var u := Do(t, ApplyEnd(true)).store;
      forall f: nat, a: int
        ensures Key(f, a) in u.rows <==> Key(f, a) in s.store.rows && !Named(vs, f, a)
        ensures Key(f, a) in u.rows ==> u.rows[Key(f, a)] == s.store.rows[Key(f, a)]
      {
        ApplyBatchRow(s.store, b, f, a);
      }
      forall k | k in u.rows ensures k in s.store.rows && u.rows[k] == s.store.rows[k] {
        assert k == Key(k.fileIdx, k.artIdx);
      }
      forall f | f in u.files ensures GivenState(s.store.files[f], vs, files, f, u.files[f]) {
        ApplyBatchFile(s.store, b, f);
      }
    }
  }

  /** The state an apply leaves of f, which had state was. */
  ghost predicate GivenState(was: FileState, vs: seq<Verdict>, files: map<nat, FileState>, f: nat, now: FileState) {
    var given := if f in files then files[f] else was;
    && now.filename == given.filename && now.fetchPolicy == given.fetchPolicy
    && (forall i: nat | LastToDecide(vs, f, i) :: now.complete == vs[i].setComplete)
    && (NoneDecides(vs, f) ==> now.complete == given.complete)
  }

  // ---- Which rows stand ------------------------------------------------------------------

  /** The call disowns the article's rows noted so far. */
  predicate Disowns(st: Step, f: nat, artIdx: int) {
    (st.UntrustBegin? && st.uf == f) || (st.ApplyBegin? && Named(st.verdicts, f, artIdx))
  }

  lemma StandsStep(s: State, st: Step, r: Row)
    requires Enabled(s, st) && r in s.alive
    ensures r in Do(s, st).alive <==> !Disowns(st, r.fileIdx, r.artIdx)
  {
    if st.ApplyBegin? {
      assert Deleted(st.verdicts, KeyOf(r)) <==> Named(st.verdicts, r.fileIdx, r.artIdx);
    } else if st.UntrustBegin? {
      OneVerdict(UntrustVerdict(st.uf), KeyOf(r));
    }
  }

  /** A row stands until an untrust of its file or a verdict that deletes its article. */
  lemma {:induction false} StandsUntilDisowned(s: State, steps: seq<Step>, t: State, r: Row)
    requires Trace(s, steps, t) && r in s.alive && forall st | st in steps :: !Disowns(st, r.fileIdx, r.artIdx)
    ensures r in t.alive
    decreases |steps|
  {
    if steps != [] {
      assert steps[0] in steps;
      StandsStep(s, steps[0], r);
      StandsUntilDisowned(Do(s, steps[0]), steps[1..], t, r);
    }
  }

  /** What is buffered stands, and so does what a flush holds and no untrust overran. */
  predicate Standing(s: State) {
    && (forall r | r in s.buf.pending :: r in s.alive)
    && (forall r | r in InFlight(s.writer) :: Overrun(s.buf.owed, s.writer.snap.carried, r.fileIdx) || r in s.alive)
  }

  lemma UntrustKeepsStanding(s: State, f: nat)
    requires Inv(s) && Standing(s) && Enabled(s, UntrustBegin(f))
    ensures Standing(Do(s, UntrustBegin(f)))
  {
    var t, v := Do(s, UntrustBegin(f)), UntrustVerdict(f);
    PurgeRowsMembers(s.buf.pending, v);
    forall r: Row ensures Deleted([v], KeyOf(r)) <==> r.fileIdx == f { OneVerdict(v, KeyOf(r)); }
    forall r | r in InFlight(t.writer)
      ensures Overrun(t.buf.owed, t.writer.snap.carried, r.fileIdx) || r in t.alive
    {
      if r.fileIdx in s.writer.snap.carried { assert s.writer.snap.carried[r.fileIdx] <= s.buf.owed[r.fileIdx]; }
    }
  }

  lemma RemergeKeepsStanding(s: State)
    requires Standing(s) && s.writer.Failed?
    ensures Standing(Do(s, FlushRemerge))
  {
    KeepRowsMembers(s.writer.snap.rows, (r: Row) => !Overrun(s.buf.owed, s.writer.snap.carried, r.fileIdx));
  }

  lemma StandingKept(s: State, st: Step)
    requires Inv(s) && Standing(s) && Enabled(s, st)
    ensures Standing(Do(s, st))
  {
    match st {
      case UntrustBegin(f) => UntrustKeepsStanding(s, f);
      case FlushRemerge => RemergeKeepsStanding(s);
      case ApplyBegin(vs, files) => ApplyKeepsStanding(s, vs, files);
      case _ => QuietKeepsStanding(s, st);
    }
  }

  lemma ApplyKeepsStanding(s: State, vs: seq<Verdict>, files: map<nat, FileState>)
    requires Standing(s) && Enabled(s, ApplyBegin(vs, files))
    ensures Standing(Do(s, ApplyBegin(vs, files)))
  {
    PurgeAllRows(s.buf, vs);
  }

  lemma QuietKeepsStanding(s: State, st: Step)
    requires Standing(s) && Enabled(s, st) && !st.UntrustBegin? && !st.FlushRemerge? && !st.ApplyBegin?
    ensures Standing(Do(s, st))
  {
  }

  lemma {:induction false} TraceKeepsStanding(s: State, steps: seq<Step>, t: State)
    requires Inv(s) && Standing(s) && Trace(s, steps, t)
    ensures Standing(t)
    decreases |steps|
  {
    if steps != [] {
      StepKeepsInv(s, steps[0]);
      StandingKept(s, steps[0]);
      TraceKeepsStanding(Do(s, steps[0]), steps[1..], t);
    }
  }

  /** No disowned row is ever buffered, so none is handed to a later flush. */
  lemma BufferedRowsStand(t: State, r: Row)
    requires Reachable(t) && r in t.buf.pending
    ensures r in t.alive
  {
    var s, steps :| Init(s) && Trace(s, steps, t);
    InitInv(s);
    TraceKeepsStanding(s, steps, t);
  }

  // ---- note, mark, untrust -----------------------------------------------------------------

  lemma {:induction false} NoNewerNote(s: State, steps: seq<Step>, t: State, f: nat, artIdx: int, q: Row)
    requires Trace(s, steps, t)
    requires forall st | st in steps :: !(st.Note? && st.fileIdx == f && st.artIdx == artIdx)
    requires q in t.noted && q.fileIdx == f && q.artIdx == artIdx
    ensures q in s.noted
    decreases |steps|
  {
    if steps != [] {
      assert steps[0] in steps;
      NoNewerNote(Do(s, steps[0]), steps[1..], t, f, artIdx, q);
    }
  }

  /** An article noted, not noted again and not disowned since is stored, as it was noted,
      once no writer is at work and nothing of it is buffered; across any number of
      failed flushes. */
  lemma NotedArticleIsStored(
      s: State, f: nat, artIdx: int, offset: int, length: int, crc: int, steps: seq<Step>, t: State)
    requires Reachable(s) && Enabled(s, Note(f, artIdx, offset, length, crc))
    requires Trace(Do(s, Note(f, artIdx, offset, length, crc)), steps, t)
    requires forall st | st in steps :: !Disowns(st, f, artIdx)
    requires forall st | st in steps :: !(st.Note? && st.fileIdx == f && st.artIdx == artIdx)
    requires t.writer.Idle? && forall r | r in t.buf.pending :: !(r.fileIdx == f && r.artIdx == artIdx)
    ensures Key(f, artIdx) in t.store.rows
    ensures var r := t.store.rows[Key(f, artIdx)]; r.offset == offset && r.length == length && r.crc == crc
  {
    var note := Note(f, artIdx, offset, length, crc);
    var u := Do(s, note);
    ReachableStep(s, note);
    ReachableOn(u, steps, t);
    ReachableInv(u);
    ReachableInv(t);
    var r := Row(f, artIdx, offset, length, crc, s.clock);
    StandsUntilDisowned(u, steps, t, r);
    forall q | q in t.alive && KeyOf(q) == KeyOf(r) ensures q.at <= r.at {
      NoNewerNote(u, steps, t, f, artIdx, q);
    }
    NewestRowWins(t, r);
  }

  /** The call bears on the state of f. */
  predicate Restates(st: Step, f: nat) {
    || (st.Mark? && st.f == f)
    || (st.UntrustBegin? && st.uf == f)
    || (st.ApplyBegin? && (f in st.files || exists v :: v in st.verdicts && v.fileIdx == f))
  }

  /** fs is the newest state of f, and nothing under way will change that. */
  predicate Stands(s: State, f: nat, fs: FileState) {
    && f in s.mark && s.mark[f] == fs
    && (s.worker.Untrusting? ==> s.worker.f != f)
    && (s.writer.Applying? ==>
          f in s.buf.dirty || (f !in s.writer.batch.files && forall v | v in s.writer.batch.verdicts :: v.fileIdx != f))
  }

  lemma ApplyKeepsStands(s: State, st: Step, f: nat, fs: FileState)
    requires Inv(s) && Stands(s, f, fs) && Enabled(s, st) && !Restates(st, f) && (st.ApplyBegin? || st.ApplyEnd?)
    ensures Stands(Do(s, st), f, fs)
  {
    assert MarkPlaced(s, f);
    if st.ApplyBegin? {
      PurgeAllFiles(s.buf, st.verdicts, f);
    } else if f in s.store.files && f !in s.buf.dirty {
      CompleteUntouched(UpdateFiles(s.store.files, s.writer.batch.files), s.writer.batch.verdicts, f);
    }
  }

  lemma StandsKept(s: State, st: Step, f: nat, fs: FileState)
    requires Inv(s) && Stands(s, f, fs) && Enabled(s, st) && !Restates(st, f)
    ensures Stands(Do(s, st), f, fs)
  {
    if st.ApplyBegin? || st.ApplyEnd? { ApplyKeepsStands(s, st, f, fs); }
  }

  lemma {:induction false} TraceKeepsStands(s: State, steps: seq<Step>, t: State, f: nat, fs: FileState)
    requires Inv(s) && Stands(s, f, fs) && Trace(s, steps, t) && forall st | st in steps :: !Restates(st, f)
    ensures Stands(t, f, fs)
    decreases |steps|
  {
    if steps != [] {
      assert steps[0] in steps;
      StepKeepsInv(s, steps[0]);
      StandsKept(s, steps[0], f, fs);
      TraceKeepsStands(Do(s, steps[0]), steps[1..], t, f, fs);
    }
  }

  /** A file's state marked while no untrust of it is under way, and not marked, untrusted
      or applied to since, is stored as it was marked once no writer is at work and none
      is buffered; across any number of failed flushes. */
  lemma MarkedStateIsStored(s: State, f: nat, complete: bool, filename: string, policy: int, steps: seq<Step>, t: State)
    requires Reachable(s) && (s.worker.Untrusting? ==> s.worker.f != f)
    requires Trace(Do(s, Mark(f, complete, filename, policy)), steps, t)
    requires forall st | st in steps :: !Restates(st, f)
    requires t.writer.Idle? && f !in t.buf.dirty && f in t.store.files
    ensures var fs := t.store.files[f]; fs.complete == complete && fs.filename == filename && fs.fetchPolicy == policy
  {
    var mark := Mark(f, complete, filename, policy);
    var u := Do(s, mark);
    ReachableStep(s, mark);
    ReachableOn(u, steps, t);
    ReachableInv(u);
    TraceKeepsStands(u, steps, t, f, FileState(complete, filename, policy, s.clock));
    NewestStateWins(t, f);
  }

  /** Nothing of f's state is buffered or in flight. */
  predicate NoneWaits(s: State, f: nat) { f !in s.buf.dirty && f !in InFlightFiles(s.writer) }

  lemma NoStateAppears(s: State, st: Step, f: nat)
    requires NoneWaits(s, f) && Enabled(s, st) && !(st.Mark? && st.f == f)
    ensures NoneWaits(Do(s, st), f)
  {
    if st.ApplyBegin? { PurgeAllFiles(s.buf, st.verdicts, f); }
  }

  lemma {:induction false} TraceKeepsNoneWaits(s: State, steps: seq<Step>, t: State, f: nat)
    requires NoneWaits(s, f) && Trace(s, steps, t) && forall st | st in steps :: !(st.Mark? && st.f == f)
    ensures NoneWaits(t, f)
    decreases |steps|
  {
    if steps != [] {
      assert steps[0] in steps;
      NoStateAppears(s, steps[0], f);
      TraceKeepsNoneWaits(Do(s, steps[0]), steps[1..], t, f);
    }
  }

  lemma {:induction false} NoDebtAppears(s: State, steps: seq<Step>, t: State, f: nat)
    requires f !in s.buf.owed && (s.worker.Untrusting? ==> s.worker.f != f) && Trace(s, steps, t)
    requires forall st | st in steps :: !(st.UntrustBegin? && st.uf == f)
    ensures f !in t.buf.owed && (t.worker.Untrusting? ==> t.worker.f != f)
    decreases |steps|
  {
    if steps != [] {
      assert steps[0] in steps;
      if steps[0].ApplyBegin? { PurgeAllRows(s.buf, steps[0].verdicts); }
      NoDebtAppears(Do(s, steps[0]), steps[1..], t, f);
    }
  }

  lemma OpenApplyOwnsTheFile(s: State, vs: seq<Verdict>, files: map<nat, FileState>, f: nat, open: seq<Step>, m: State)
    requires Enabled(s, ApplyBegin(vs, files)) && f in files
    requires f !in s.buf.owed && (s.worker.Untrusting? ==> s.worker.f != f)
    requires Trace(Do(s, ApplyBegin(vs, files)), open, m) && forall st | st in open :: !st.ApplyEnd? && !Restates(st, f)
    ensures NoneWaits(m, f) && f !in m.buf.owed && (m.worker.Untrusting? ==> m.worker.f != f)
    ensures m.writer.Applying? && f in m.writer.batch.files && m.store == s.store
  {
    var a := Do(s, ApplyBegin(vs, files));
    PurgeAllRows(s.buf, vs);
    TraceKeepsNoneWaits(a, open, m, f);
    NoDebtAppears(a, open, m, f);
    ApplyStaysOpen(a, open, m);
  }

  lemma CommittedStateStands(m: State, f: nat)
    requires NoneWaits(m, f) && f !in m.buf.owed && (m.worker.Untrusting? ==> m.worker.f != f)
    requires Enabled(m, ApplyEnd(true)) && f in m.writer.batch.files && f in m.store.files
    ensures var b := Do(m, ApplyEnd(true)); NoneWaits(b, f) && f in b.store.files && Stands(b, f, b.store.files[f])
  {
  }

  lemma StandingStateIsStored(b: State, f: nat, fs: FileState, after: seq<Step>, t: State)
    requires Reachable(b) && NoneWaits(b, f) && Stands(b, f, fs) && f in b.store.files
    requires Trace(b, after, t) && forall st | st in after :: !Restates(st, f)
    ensures NoneWaits(t, f) && f in t.store.files && t.store.files[f] == fs
  {
    ReachableInv(b);
    ReachableOn(b, after, t);
    TraceKeepsNoneWaits(b, after, t, f);
    TraceKeepsStands(b, after, t, f, fs);
    StoreKeepsFiles(b, after, t);
    NewestStateWins(t, f);
  }

  /** The state an apply gives a file replaces a buffered one for good: committed, and not
      marked, untrusted or applied to since, it is what is stored, and nothing of the
      file is buffered or in flight that could overwrite it. */
  lemma AppliedStateStays(s: State, vs: seq<Verdict>, files: map<nat, FileState>, f: nat,
                          open: seq<Step>, m: State, after: seq<Step>, t: State)
    requires Reachable(s) && Enabled(s, ApplyBegin(vs, files)) && f in files && f in s.store.files
    requires f !in s.buf.owed && (s.worker.Untrusting? ==> s.worker.f != f)
    requires Trace(Do(s, ApplyBegin(vs, files)), open, m) && forall st | st in open :: !st.ApplyEnd? && !Restates(st, f)
    requires Enabled(m, ApplyEnd(true)) && Trace(Do(m, ApplyEnd(true)), after, t)
    requires forall st | st in after :: !Restates(st, f)
    ensures NoneWaits(t, f)
    ensures f in t.store.files && GivenState(s.store.files[f], vs, files, f, t.store.files[f])
  {
    var b := Do(m, ApplyEnd(true));
    ReachableStep(s, ApplyBegin(vs, files));
    ReachableOn(Do(s, ApplyBegin(vs, files)), open, m);
    ReachableStep(m, ApplyEnd(true));
    OpenApplyOwnsTheFile(s, vs, files, f, open, m);
    CommittedStateStands(m, f);
    ApplyCommits(s, vs, files, open, m);
    StandingStateIsStored(b, f, b.store.files[f], after, t);
  }

  lemma {:induction false} StoreKeepsFiles(s: State, steps: seq<Step>, t: State)
    requires Trace(s, steps, t)
    ensures t.store.files.Keys == s.store.files.Keys
    decreases |steps|
  {
    if steps != [] {
      StoreKeepsFiles(Do(s, steps[0]), steps[1..], t);
    }
  }

  lemma {:induction false} LatestUntrust(s: State, steps: seq<Step>, t: State, f: nat)
    requires Trace(s, steps, t) && f in s.last && forall st | st in steps :: !(st.UntrustBegin? && st.uf == f)
    ensures f in t.last && t.last[f] == s.last[f]
    decreases |steps|
  {
    if steps != [] {
      assert steps[0] in steps;
      LatestUntrust(Do(s, steps[0]), steps[1..], t, f);
    }
  }

  /** After an untrust of f, and until the next, a row of f noted before it is stored only
      while that untrust's own number is owed. */
  lemma UntrustedRowIsOwed(s: State, f: nat, steps: seq<Step>, t: State, k: Key)
    requires Reachable(s) && Enabled(s, UntrustBegin(f)) && Trace(Do(s, UntrustBegin(f)), steps, t)
    requires forall st | st in steps :: !(st.UntrustBegin? && st.uf == f)
    requires k in t.store.rows && k.fileIdx == f && t.store.rows[k] in s.noted
    ensures f in t.buf.owed && t.buf.owed[f] == s.owedSeq + 1
  {
    var u := Do(s, UntrustBegin(f));
    ReachableInv(s);
    ReachableStep(s, UntrustBegin(f));
    ReachableOn(u, steps, t);
    LatestUntrust(u, steps, t, f);
    StaleRowIsOwed(t, k);
  }

  // ---- Whole flushes and untrusts -----------------------------------------------------------

  lemma RemergeUndoesTheTake(b: Slice)
    ensures Remerge(LeftAfter(b, Current), TakenFrom(b, Current)) == b
  {
    var snap := TakenFrom(b, Current);
    var keep := (r: Row) => !Overrun(b.owed, snap.carried, r.fileIdx);
    KeepAll(b.pending, keep);
    SameKeep(b.pending, keep, (r: Row) => !Overrun(LeftAfter(b, Current).owed, snap.carried, r.fileIdx));
    assert MergeRows(LeftAfter(b, Current), snap) == b.pending;
    assert MergeFiles(LeftAfter(b, Current), snap) == b.dirty;
  }

  /** A flush that fails with nothing else happening changes nothing. */
  lemma FailedFlushRestores(s: State)
    requires s.writer.Idle?
    ensures Do(Do(Do(s, FlushTake(true)), FlushFail), FlushRemerge) == s
  {
    RemergeUndoesTheTake(s.buf);
  }

  lemma {:induction false} KeepAll(rs: seq<Row>, keep: Row -> bool)
    requires forall r | r in rs :: keep(r)
    ensures KeepRows(rs, keep) == rs
  {
    if rs != [] {
      KeepAll(rs[..|rs| - 1], keep);
      assert rs == rs[..|rs| - 1] + [rs[|rs| - 1]];
    }
  }

  /** A whole flush that succeeds with nothing else happening. */
  function Flushed(s: State): (t: State)
    requires s.writer.Idle?
  {
    Do(Do(Do(s, FlushTake(true)), FlushCommit), FlushSettle)
  }

  lemma FlushedIsReachable(s: State)
    requires Reachable(s) && s.writer.Idle?
    ensures Reachable(Flushed(s))
  {
    var a := Do(s, FlushTake(true));
    var b := Do(a, FlushCommit);
    ReachableStep(s, FlushTake(true));
    ReachableStep(a, FlushCommit);
    ReachableStep(b, FlushSettle);
  }

  lemma FlushedBuffers(s: State)
    requires s.writer.Idle?
    ensures Flushed(s).buf == Slice([], map[], map[]) && Flushed(s).writer.Idle?
    ensures Flushed(s).alive == s.alive && Flushed(s).mark == s.mark && Flushed(s).last == s.last
  {
  }

  /** It leaves nothing buffered or owed: every standing row is stored, or a later one of
      its article is, every file's newest state is stored, and no stored row is older
      than its file's latest untrust. */
  lemma FlushEmpties(s: State)
    requires Reachable(s) && s.writer.Idle?
    ensures var t := Flushed(s);
      && t.buf == Slice([], map[], map[]) && t.writer.Idle? && t.alive == s.alive && t.mark == s.mark
      && (forall r | r in t.alive ::
            Key(r.fileIdx, r.artIdx) in t.store.rows && r.at <= t.store.rows[Key(r.fileIdx, r.artIdx)].at)
      && (forall f | f in t.mark && f in t.store.files :: t.store.files[f] == t.mark[f])
      && (forall k | k in t.store.rows && k.fileIdx in t.last :: t.last[k.fileIdx].at <= t.store.rows[k].at)
  {
    var t := Flushed(s);
    FlushedIsReachable(s);
    FlushedBuffers(s);
    EmptyIsStored(t);
  }

  lemma EmptyIsStored(t: State)
    requires Reachable(t) && t.buf == Slice([], map[], map[]) && t.writer.Idle?
    ensures forall r | r in t.alive ::
      Key(r.fileIdx, r.artIdx) in t.store.rows && r.at <= t.store.rows[Key(r.fileIdx, r.artIdx)].at
    ensures forall f | f in t.mark && f in t.store.files :: t.store.files[f] == t.mark[f]
    ensures forall k | k in t.store.rows && k.fileIdx in t.last :: t.last[k.fileIdx].at <= t.store.rows[k].at
  {
    ReachableInv(t);
    forall r | r in t.alive ensures Committed(t, r) { }
    forall f | f in t.mark && f in t.store.files ensures t.store.files[f] == t.mark[f] { NewestStateWins(t, f); }
    forall k | k in t.store.rows && k.fileIdx in t.last ensures !Stale(t, k.fileIdx, t.store.rows[k].at) { }
  }

  /** A whole untrust's delete that commits with nothing else happening. */
  function Cleared(s: State): (t: State)
    requires s.worker.Untrusting? && s.writer.Idle?
  {
    Do(Do(Do(s, UntrustLock), UntrustWrite(true)), UntrustSettle)
  }

  lemma DeleteClears(store: Store, f: nat)
    ensures var t := ApplyBatch(store, Batch([], map[], [UntrustVerdict(f)]));
      && (forall k: Key :: k in t.rows <==> k in store.rows && k.fileIdx != f)
      && (forall k | k in t.rows :: t.rows[k] == store.rows[k])
      && (f in store.files ==> !t.files[f].complete)
  {
    var v := UntrustVerdict(f);
    var b := Batch([], map[], [v]);
    var t := ApplyBatch(store, b);
    forall k: Key
      ensures k in t.rows <==> k in store.rows && k.fileIdx != f
      ensures k in t.rows ==> t.rows[k] == store.rows[k]
    {
      ApplyBatchRow(store, b, k.fileIdx, k.artIdx);
      assert Named([v], k.fileIdx, k.artIdx) <==> k.fileIdx == f by { assert [v][0] == v; }
    }
    if f in store.files { DeleteKeepsState(store, f, f); }
  }

  lemma ClearedParts(s: State)
    requires s.worker.Untrusting? && s.writer.Idle?
    ensures Cleared(s).store == ApplyBatch(s.store, Batch([], map[], [UntrustVerdict(s.worker.f)]))
    ensures Cleared(s).buf.owed == SettleOne(s.buf.owed, s.worker.f, s.worker.number)
    ensures Cleared(s).worker.Free? && Cleared(s).writer.Idle?
  {
  }

  /** It leaves no row of the file stored, the file not complete, nothing owed for it, and
      every other file's rows. */
  lemma UntrustClearsTheFile(s: State)
    requires Reachable(s) && s.worker.Untrusting? && s.writer.Idle?
    ensures var f, t := s.worker.f, Cleared(s);
      && f !in t.buf.owed && t.worker.Free? && t.writer.Idle?
      && (forall k: Key :: k in t.store.rows <==> k in s.store.rows && k.fileIdx != f)
      && (forall k | k in t.store.rows :: t.store.rows[k] == s.store.rows[k])
      && (f in t.store.files ==> !t.store.files[f].complete)
  {
    ReachableInv(s);
    assert s.worker.f in s.buf.owed ==> s.buf.owed[s.worker.f] == s.worker.number;
    ClearedParts(s);
    DeleteClears(s.store, s.worker.f);
  }

  /** One that gives up, or whose delete fails, leaves its debt. */
  lemma UntrustMayLeaveItsDebt(s: State)
    requires s.worker.Untrusting? && s.writer.Idle?
    ensures Do(s, UntrustGiveUp).buf == s.buf
    ensures var t := Do(Do(s, UntrustLock), UntrustWrite(false));
      t.buf == s.buf && t.store == s.store && t.worker.Free? && t.writer.Idle?
  {
  }
}

/** What the recorder promises, over every run of a registered instance. */
module RecorderTheorems {
  import opened RecordStore
  import opened Recorder
  import opened RecorderProtocol
  import opened RecorderInvariant

  lemma InitInv(s: State)
    requires Init(s)
    ensures Inv(s)
  {
    forall k | k in s.store.rows ensures s.store.rows[k] in s.noted { }
    forall r | r in s.alive ensures Committed(s, r) {
      var k :| k in s.store.rows && s.store.rows[k] == r;
    }
  }

  lemma {:induction false} TraceKeepsInv(s: State, steps: seq<Step>, t: State)
    requires Inv(s) && Trace(s, steps, t)
    ensures Inv(t)
    decreases |steps|
  {
    if steps != [] {
      StepKeepsInv(s, steps[0]);
      TraceKeepsInv(Do(s, steps[0]), steps[1..], t);
    }
  }

  ghost predicate Reachable(t: State) {
    exists s, steps :: Init(s) && Trace(s, steps, t)
  }

  lemma ReachableInv(t: State)
    requires Reachable(t)
    ensures Inv(t)
  {
    var s, steps :| Init(s) && Trace(s, steps, t);
    InitInv(s);
    TraceKeepsInv(s, steps, t);
  }

  /** A stored row noted before its file's latest untrust is there only while
      that untrust's own number is owed: a settled debt leaves no such row. */
  lemma StaleRowIsOwed(t: State, k: Key)
    requires Reachable(t) && k in t.store.rows && k.fileIdx in t.last
    requires t.store.rows[k].at < t.last[k.fileIdx].at
    ensures k.fileIdx in t.buf.owed && t.buf.owed[k.fileIdx] == t.last[k.fileIdx].number
  {
    ReachableInv(t);
    assert Stale(t, k.fileIdx, t.store.rows[k].at);
  }

  /** A flush that takes the instance while f's delete is owed carries it: its
      transaction deletes every stored row of f before it inserts, so that once
      committed f's rows are the ones noted since the untrust, and its complete
      flag is that of a state marked since, or false. */
  lemma OwedRidesTheFlush(t: State, f: nat)
    requires Reachable(t) && t.writer.Idle? && f in t.buf.owed
    ensures var u := Do(t, FlushTake(true));
      && f in t.last && u.writer.snap.carried == t.buf.owed
      && (forall k: Key | k.fileIdx == f :: Deleted(FlushBatch(u.writer.snap).verdicts, k))
      && var v := Do(u, FlushCommit);
      && (forall k | k in v.store.rows && k.fileIdx == f :: v.store.rows[k].at > t.last[f].at)
      && (f in v.store.files && v.store.files[f].complete ==>
            f in t.buf.dirty && v.store.files[f] == t.buf.dirty[f] && t.buf.dirty[f].at > t.last[f].at)
  {
    ReachableInv(t);
    var u := Do(t, FlushTake(true));
    var v := Do(u, FlushCommit);
    forall k: Key | k.fileIdx == f ensures Deleted(FlushBatch(u.writer.snap).verdicts, k) {
      FlushDeletes(u.writer.snap, k);
    }
    forall k | k in v.store.rows && k.fileIdx == f ensures v.store.rows[k].at > t.last[f].at {
      FlushRowEffect(t.store, u.writer.snap, k);
      assert v.store.rows[k] in t.buf.pending;
      assert Fresh(t, f, v.store.rows[k].at);
    }
    if f in v.store.files {
      FlushFileEffect(t.store, u.writer.snap, f);
      if f in t.buf.dirty { assert Fresh(t, f, t.buf.dirty[f].at); }
    }
  }

  /** Conservation: a noted row no untrust or verdict disowned is in exactly one
      of the buffer, a flush in flight, and the store (there, or replaced by a
      later row of its article). */
  lemma RowInExactlyOnePlace(t: State, r: Row)
    requires Reachable(t) && r in t.alive
    ensures r in t.buf.pending || r in InFlight(t.writer) || Committed(t, r)
    ensures !(r in t.buf.pending && r in InFlight(t.writer))
    ensures !(r in t.buf.pending && Committed(t, r)) && !(r in InFlight(t.writer) && Committed(t, r))
    ensures var rs := InFlight(t.writer) + t.buf.pending;
      forall i, j | 0 <= i < |rs| && 0 <= j < |rs| && rs[i] == r && rs[j] == r :: i == j
  {
    ReachableInv(t);
    AscendingParts(InFlight(t.writer), t.buf.pending);
    if r in t.buf.pending || r in InFlight(t.writer) {
      assert r in InFlight(t.writer) + t.buf.pending;
    }
  }

  /** However many flushes failed, the newest row of an article that stands is
      the one the store holds once it is neither buffered nor in flight. */
  lemma NewestRowWins(t: State, r: Row)
    requires Reachable(t) && r in t.alive
    requires forall q | q in t.alive && KeyOf(q) == KeyOf(r) :: q.at <= r.at
    requires r !in t.buf.pending && r !in InFlight(t.writer)
    ensures KeyOf(r) in t.store.rows && t.store.rows[KeyOf(r)] == r
  {
    ReachableInv(t);
    var q := t.store.rows[KeyOf(r)];
    assert KeyOf(q) == KeyOf(r) && q in t.noted;
  }

  /** The newest state of a file, marked or applied, with the flag any verdict since gave
      it, is stored once it is neither buffered nor in flight. */
  lemma NewestStateWins(t: State, f: nat)
    requires Reachable(t) && f in t.mark && f in t.store.files
    requires f !in t.buf.dirty && f !in InFlightFiles(t.writer)
    ensures t.store.files[f] == t.mark[f]
  {
    ReachableInv(t);
    assert MarkPlaced(t, f);
  }

  /** An apply that commits stores each state it gives, but for the flag its verdicts
      leave it, and that is then the file's newest, unless one marked meanwhile is
      buffered or an untrust has disowned it. */
  lemma AppliedStateIsTheNewest(t: State, f: nat)
    requires Reachable(t) && Enabled(t, ApplyEnd(true)) && f in t.writer.batch.files && f in t.store.files
    ensures var u := Do(t, ApplyEnd(true));
      && u.store.files[f] == t.writer.batch.files[f].(complete := u.store.files[f].complete)
      && ((forall v | v in t.writer.batch.verdicts :: v.fileIdx == f ==> !v.setComplete && !v.clearComplete) ==>
            u.store.files[f] == t.writer.batch.files[f])
      && (f !in t.buf.dirty && f !in t.buf.owed ==> f in u.mark && u.mark[f] == u.store.files[f])
      && (f in t.mark && f in t.buf.dirty ==> f in u.mark && u.mark[f] == u.buf.dirty[f] == t.buf.dirty[f])
  {
    ReachableInv(t);
    var b := t.writer.batch;
    ApplyStores(t, f);
    if forall v | v in b.verdicts :: v.fileIdx == f ==> !v.setComplete && !v.clearComplete {
      CompleteUntouched(UpdateFiles(t.store.files, b.files), b.verdicts, f);
    }
    if f in t.mark { assert MarkPlaced(t, f); }
  }

  /** A verdict that sets or clears the flag of a buffered state rewrites that state,
      which stays the file's newest: name and policy survive it. */
  lemma VerdictRewritesTheNewest(t: State, f: nat, v: Verdict)
    requires Reachable(t) && t.writer.Idle? && f in t.mark && f in t.buf.dirty
    requires v.fileIdx == f && !v.deleteAll && (v.setComplete || v.clearComplete)
    ensures var u := Do(t, ApplyBegin([v], map[]));
      && f in u.mark && u.mark[f] == t.mark[f].(complete := v.setComplete)
      && f in u.buf.dirty && u.buf.dirty[f] == u.mark[f]
  {
    ReachableInv(t);
    assert MarkPlaced(t, f);
    assert [v][..0] == [];
    assert PurgeAll(t.buf, [v][..0]) == t.buf;
    assert PurgeAll(t.buf, [v]) == Purge(t.buf, v);
  }

  /** An untrust tries its delete itself after its purge. When that commits, the
      state marked last for its file, if any since the purge, still stands exactly
      when it is buffered or does not say complete: a later state that says so and
      was already flushed loses its flag. */
  lemma LateDeleteKeepsState(t: State)
    requires Reachable(t) && Enabled(t, UntrustWrite(true)) && t.writer.f in t.mark && t.writer.f in t.store.files
    ensures var f, u := t.writer.f, Do(t, UntrustWrite(true));
      (if f in u.buf.dirty then u.buf.dirty[f] == t.mark[f] else u.store.files[f] == t.mark[f])
      <==> f in t.buf.dirty || !t.mark[f].complete
  {
    ReachableInv(t);
    assert MarkPlaced(t, t.writer.f);
    DeleteKeepsState(t.store, t.writer.f, t.writer.f);
  }

  const LATE := FileState(true, "a", 0, 1)

  function LateStart(): (s: State) {
    State(Slice([], map[], map[]), 0, Idle, Free, Store(map[], map[0 := FileState(false, "", 0, 0)]),
          0, {}, {}, map[], map[], map[])
  }

  /** The state marked after the purge, before the flush that carries the untrust. */
  function LateMarked(): (s: State) {
    LateStart().(buf := Slice([], map[0 := LATE], map[0 := 1]), owedSeq := 1, worker := Untrusting(0, 1), clock := 2,
                 last := map[0 := Untrust(0, 1)], when := map[1 := 0], mark := map[0 := LATE])
  }

  lemma LateMarkedIsReached()
    ensures Init(LateStart()) && Trace(LateStart(), [UntrustBegin(0), Mark(0, true, "a", 0)], LateMarked())
  {
    var s := LateStart();
    assert s.store.rows.Values == {};
    var a := Do(s, UntrustBegin(0));
    assert a.buf == Slice([], map[], map[0 := 1]) && a.alive == {};
    assert Do(a, Mark(0, true, "a", 0)) == LateMarked();
    assert Trace(a, [Mark(0, true, "a", 0)], LateMarked());
  }

  lemma LateFlush() returns (d: State)
    ensures Trace(LateMarked(), [FlushTake(true), FlushCommit], d)
    ensures d.writer == Written(Snapshot([], map[0 := LATE], map[0 := 1])) && d.store.files.Keys == {0}
    ensures d.store.files[0] == LATE && d.mark == map[0 := LATE] && d.worker == Untrusting(0, 1) && d.buf.dirty == map[]
  {
    var b := LateMarked();
    var c := Do(b, FlushTake(true));
    d := Do(c, FlushCommit);
    FlushFileEffect(c.store, c.writer.snap, 0);
    assert Trace(c, [FlushCommit], d);
  }

  /** A run that loses it: the state is marked and flushed between the untrust's purge
      and its delete. */
  lemma LateDeleteCanClear() returns (s: State, steps: seq<Step>, t: State)
    ensures Init(s) && Trace(s, steps, t)
    ensures Enabled(t, UntrustWrite(true)) && t.writer.f == 0 && t.mark == map[0 := LATE]
    ensures 0 in t.store.files && t.store.files[0] == LATE && LATE.complete
    ensures !Do(t, UntrustWrite(true)).store.files[0].complete
  {
    s := LateStart();
    LateMarkedIsReached();
    var d := LateFlush();
    var e := Do(d, FlushSettle);
    t := Do(e, UntrustLock);
    assert Trace(e, [UntrustLock], t);
    assert Trace(d, [FlushSettle, UntrustLock], t);
    TraceAppend(LateMarked(), [FlushTake(true), FlushCommit], d, [FlushSettle, UntrustLock], t);
    steps := [UntrustBegin(0), Mark(0, true, "a", 0)] + ([FlushTake(true), FlushCommit] + [FlushSettle, UntrustLock]);
    TraceAppend(s, [UntrustBegin(0), Mark(0, true, "a", 0)], LateMarked(),
                [FlushTake(true), FlushCommit] + [FlushSettle, UntrustLock], t);
    DeleteKeepsState(t.store, 0, 0);
  }

  lemma {:induction false} TraceAppend(s: State, a: seq<Step>, m: State, b: seq<Step>, t: State)
    requires Trace(s, a, m) && Trace(m, b, t)
    ensures Trace(s, a + b, t)
    decreases |a|
  {
    if a == [] {
      assert a + b == b;
    } else {
      TraceAppend(Do(s, a[0]), a[1..], m, b, t);
      assert (a + b)[1..] == a[1..] + b;
    }
  }

  /** No delete made for an untrust removes a row noted after that untrust began,
      whether a flush carries it or the untrust writes it itself. */
  lemma UntrustDeletesOnlyEarlierRows(t: State, k: Key)
    requires Reachable(t) && k in t.store.rows
    ensures t.writer.Writing? && k.fileIdx in t.writer.snap.carried ==>
      var n := t.writer.snap.carried[k.fileIdx];
      n in t.when && t.store.rows[k].at < t.when[n]
    ensures t.writer.Deleting? && k.fileIdx == t.writer.f ==>
      t.writer.number in t.when && t.store.rows[k].at < t.when[t.writer.number]
  {
    ReachableInv(t);
  }

  /** When a flush commits a file's state, every row of the file noted before the
      state was marked, and not disowned since, is in the store after that same
      commit, or a later row of its article is. */
  lemma StateNeverOutrunsItsRows(t: State, f: nat, r: Row)
    requires Reachable(t) && t.writer.Writing? && f in t.writer.snap.files
    requires r in t.alive && r.fileIdx == f && r.at < t.writer.snap.files[f].at
    ensures var u := Do(t, FlushCommit);
      && Committed(u, r)
      && (f in u.store.files ==> u.store.files[f] == t.writer.snap.files[f])
  {
    ReachableInv(t);
    assert r !in t.buf.pending;
    StepKeepsInv(t, FlushCommit);
    if f in t.store.files { FlushFileEffect(t.store, t.writer.snap, f); }
  }
}

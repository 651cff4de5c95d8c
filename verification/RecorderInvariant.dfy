/** Every step of the recorder's protocol keeps its invariant. */
module RecorderInvariant {
  import opened RecordStore
  import opened Recorder
  import opened RecorderProtocol

  // ---- Effects of the buffer functions and of the transactions ------------

  lemma PurgeRowsMembers(pending: seq<Row>, v: Verdict)
    ensures forall r :: r in PurgeRows(pending, v) <==> r in pending && !Hits(v, KeyOf(r))
    ensures Ascending(pending) ==> Ascending(PurgeRows(pending, v))
  {
    var keep := (r: Row) => !Hits(v, KeyOf(r));
    KeepRowsMembers(pending, keep);
    if Ascending(pending) { KeepRowsAscending(pending, keep); }
  }

  lemma {:induction false} PurgeAllRows(b: Slice, vs: seq<Verdict>)
    ensures forall r :: r in PurgeAll(b, vs).pending <==> r in b.pending && !Deleted(vs, KeyOf(r))
    ensures Ascending(b.pending) ==> Ascending(PurgeAll(b, vs).pending)
    ensures PurgeAll(b, vs).owed == b.owed
  {
    if vs != [] {
      var init, v := vs[..|vs| - 1], vs[|vs| - 1];
      PurgeAllRows(b, init);
      PurgeRowsMembers(PurgeAll(b, init).pending, v);
      forall r: Row ensures Deleted(vs, KeyOf(r)) <==> Deleted(init, KeyOf(r)) || Hits(v, KeyOf(r)) {
        DeletedSplit(vs, KeyOf(r));
      }
    }
  }

  lemma DeletedSplit(vs: seq<Verdict>, k: Key)
    requires vs != []
    ensures Deleted(vs, k) <==> Deleted(vs[..|vs| - 1], k) || Hits(vs[|vs| - 1], k)
  {
    var init := vs[..|vs| - 1];
    if Deleted(init, k) {
      var i :| 0 <= i < |init| && Hits(init[i], k);
      assert Hits(vs[i], k);
    }
    if Deleted(vs, k) {
      var i :| 0 <= i < |vs| && Hits(vs[i], k);
      if i < |vs| - 1 { assert Hits(init[i], k); }
    }
  }

  /** A purge changes only the files its verdicts touch, and never a stamp. */
  lemma {:induction false} PurgeAllFiles(b: Slice, vs: seq<Verdict>, f: nat)
    ensures f in PurgeAll(b, vs).dirty ==> f in b.dirty && PurgeAll(b, vs).dirty[f].at == b.dirty[f].at
    ensures f !in Touched(vs) && f in b.dirty ==> f in PurgeAll(b, vs).dirty && PurgeAll(b, vs).dirty[f] == b.dirty[f]
  {
    if vs != [] {
      var init, v := vs[..|vs| - 1], vs[|vs| - 1];
      assert vs == init + [v];
      assert v in vs;
      assert forall w :: w in init ==> w in vs;
      PurgeAllFiles(b, init, f);
    }
  }

  lemma FlushRowEffect(s: Store, snap: Snapshot, k: Key)
    requires s.files != map[]
    ensures var t := ApplyBatch(s, FlushBatch(snap)).rows;
      && (k in t ==>
            || (t[k] in snap.rows && KeyOf(t[k]) == k)
            || (k in s.rows && k.fileIdx !in snap.carried && t[k] == s.rows[k]))
      && (k in s.rows && k.fileIdx !in snap.carried ==> k in t)
  {
    var b := FlushBatch(snap);
    var kept := map q | q in s.rows && !Deleted(b.verdicts, q) :: s.rows[q];
    FlushDeletes(snap, k);
    InsertRowsAt(kept, snap.rows, k);
  }

  lemma FlushedRow(s: Store, snap: Snapshot, r: Row)
    requires s.files != map[] && Ascending(snap.rows) && r in snap.rows
    ensures var t := ApplyBatch(s, FlushBatch(snap)).rows;
      KeyOf(r) in t && t[KeyOf(r)] in snap.rows && r.at <= t[KeyOf(r)].at
  {
    var b := FlushBatch(snap);
    var kept := map q | q in s.rows && !Deleted(b.verdicts, q) :: s.rows[q];
    var i :| 0 <= i < |snap.rows| && snap.rows[i] == r;
    InsertedOrReplaced(kept, snap.rows, i);
  }

  /** A transaction with no rows only deletes. */
  lemma NoRowsEffect(s: Store, b: Batch, k: Key)
    requires b.rows == []
    ensures var t := ApplyBatch(s, b).rows;
      && (k in t <==> k in s.rows && !Deleted(b.verdicts, k))
      && (k in t ==> t[k] == s.rows[k])
  {
  }

  lemma OneVerdict(v: Verdict, k: Key)
    ensures Deleted([v], k) <==> Hits(v, k)
  {
    if Hits(v, k) { assert Hits([v][0], k); }
  }

  // ---- Ordered -------------------------------------------------------------

  lemma AscendingSub(a: seq<Row>, b: seq<Row>, c: seq<Row>)
    requires Ascending(a + b) && Ascending(c) && forall r | r in c :: r in b
    ensures Ascending(a + c)
  {
    var ac, ab := a + c, a + b;
    forall i, j | 0 <= i < j < |ac| ensures ac[i].at < ac[j].at {
      if i < |a| {
        if j < |a| {
          assert ab[i] == ac[i] && ab[j] == ac[j];
        } else {
          assert c[j - |a|] in b;
          var k :| 0 <= k < |b| && b[k] == c[j - |a|];
          assert ab[i] == a[i] && ab[|a| + k] == b[k];
        }
      }
    }
  }

  lemma AscendingParts(a: seq<Row>, b: seq<Row>)
    requires Ascending(a + b)
    ensures Ascending(a) && Ascending(b)
    ensures forall x, y | x in a && y in b :: x.at < y.at
  {
    var ab := a + b;
    forall i, j | 0 <= i < j < |a| ensures a[i].at < a[j].at { assert ab[i] == a[i] && ab[j] == a[j]; }
    forall i, j | 0 <= i < j < |b| ensures b[i].at < b[j].at {
      assert ab[|a| + i] == b[i] && ab[|a| + j] == b[j];
    }
    forall x, y | x in a && y in b ensures x.at < y.at {
      var i :| 0 <= i < |a| && a[i] == x;
      var j :| 0 <= j < |b| && b[j] == y;
      assert ab[i] == x && ab[|a| + j] == y;
    }
  }

  lemma AscendingJoin(a: seq<Row>, b: seq<Row>)
    requires Ascending(a) && Ascending(b)
    requires forall x, y | x in a && y in b :: x.at < y.at
    ensures Ascending(a + b)
  {
    var ab := a + b;
    forall i, j | 0 <= i < j < |ab| ensures ab[i].at < ab[j].at {
      if i < |a| <= j { assert a[i] in a && b[j - |a|] in b; }
    }
  }

  lemma PurgeKeepsOrdered(s: State, t: State)
    requires Ordered(s)
    requires t.store == s.store && t.noted == s.noted && InFlight(t.writer) == InFlight(s.writer) && s.clock <= t.clock
    requires Ascending(t.buf.pending) && forall r | r in t.buf.pending :: r in s.buf.pending
    ensures Ordered(t)
  {
    AscendingSub(InFlight(s.writer), s.buf.pending, t.buf.pending);
    forall k, r | k in t.store.rows && r in InFlight(t.writer) + t.buf.pending
      ensures t.store.rows[k].at < r.at
    {
      assert r in InFlight(s.writer) + s.buf.pending;
    }
  }

  lemma CommitKeepsOrdered(s: State)
    requires Ordered(s) && s.writer.Writing?
    ensures Ordered(Do(s, FlushCommit))
  {
    var t, snap := Do(s, FlushCommit), s.writer.snap;
    AscendingParts(snap.rows, s.buf.pending);
    assert InFlight(t.writer) + t.buf.pending == s.buf.pending;
    forall k | k in t.store.rows
      ensures KeyOf(t.store.rows[k]) == k && t.store.rows[k] in s.noted
      ensures forall r | r in s.buf.pending :: t.store.rows[k].at < r.at
    {
      FlushRowEffect(s.store, snap, k);
      if !(t.store.rows[k] in snap.rows) {
        forall r | r in s.buf.pending ensures s.store.rows[k].at < r.at {
          assert r in InFlight(s.writer) + s.buf.pending;
        }
      }
    }
  }

  lemma RemergeKeepsOrdered(s: State)
    requires Ordered(s) && s.writer.Failed?
    ensures Ordered(Do(s, FlushRemerge))
  {
    var t, snap := Do(s, FlushRemerge), s.writer.snap;
    var keep := (r: Row) => !Overrun(s.buf.owed, snap.carried, r.fileIdx);
    var kept := KeepRows(snap.rows, keep);
    KeepRowsMembers(snap.rows, keep);
    AscendingParts(snap.rows, s.buf.pending);
    KeepRowsAscending(snap.rows, keep);
    AscendingJoin(kept, s.buf.pending);
    assert t.buf.pending == kept + s.buf.pending;
    assert InFlight(t.writer) + t.buf.pending == t.buf.pending;
    forall k, r | k in t.store.rows && r in t.buf.pending ensures t.store.rows[k].at < r.at {
      assert r in InFlight(s.writer) + s.buf.pending;
    }
  }

  lemma NoteKeepsOrdered(s: State, st: Step)
    requires Ordered(s) && Enabled(s, st) && st.Note?
    ensures Ordered(Do(s, st))
  {
    var t, r := Do(s, st), NewRow(s, st);
    var old_ := InFlight(s.writer) + s.buf.pending;
    assert InFlight(t.writer) + t.buf.pending == old_ + [r];
    AscendingJoin(old_, [r]);
    forall k, q | k in t.store.rows && q in old_ + [r] ensures t.store.rows[k].at < q.at {
      if q != r { assert q in old_; }
    }
  }

  lemma DeleteKeepsOrdered(s: State, b: Batch, t: State)
    requires Ordered(s) && b.rows == [] && t.store == ApplyBatch(s.store, b)
    requires t.buf == s.buf && t.noted == s.noted && t.clock == s.clock
    requires InFlight(s.writer) == InFlight(t.writer) == []
    ensures Ordered(t)
  {
    forall k | k in t.store.rows ensures k in s.store.rows && t.store.rows[k] == s.store.rows[k] {
      NoRowsEffect(s.store, b, k);
    }
  }

  lemma OrderedKept(s: State, st: Step)
    requires Ordered(s) && OneGoroutine(s) && ApplyOpen(s) && Enabled(s, st)
    ensures Ordered(Do(s, st))
  {
    var t := Do(s, st);
    match st {
      case Note(_, _, _, _, _) => NoteKeepsOrdered(s, st);
      case Mark(_, _, _, _) =>
      case OtherUntrust =>
      case FlushTake(checked) =>
        if checked {
          assert InFlight(t.writer) + t.buf.pending == InFlight(s.writer) + s.buf.pending;
        }
      case FlushCommit => CommitKeepsOrdered(s);
      case FlushFail =>
      case FlushSettle =>
      case FlushRemerge => RemergeKeepsOrdered(s);
      case ApplyBegin(vs, files) =>
        PurgeAllRows(s.buf, vs);
        AscendingParts(InFlight(s.writer), s.buf.pending);
        PurgeKeepsOrdered(s, t);
      case ApplyEnd(ok) =>
        if ok { DeleteKeepsOrdered(s, s.writer.batch, t); }
      case UntrustBegin(f) =>
        PurgeRowsMembers(s.buf.pending, UntrustVerdict(f));
        AscendingParts(InFlight(s.writer), s.buf.pending);
        PurgeKeepsOrdered(s, t);
      case UntrustGiveUp =>
      case UntrustLock =>
      case UntrustWrite(ok) =>
        if ok { DeleteKeepsOrdered(s, Batch([], map[], [UntrustVerdict(s.writer.f)]), t); }
      case UntrustSettle =>
    }
  }

  // ---- Debts ---------------------------------------------------------------

  /** Debts survive when buffers and rows that stand only shrink, and marks stay fresh. */
  lemma DebtsShrink(s: State, t: State)
    requires Debts(s)
    requires t.last == s.last && s.owedSeq <= t.owedSeq && s.clock <= t.clock
    requires forall f | f in t.buf.owed :: f in s.buf.owed && t.buf.owed[f] == s.buf.owed[f]
    requires forall r | r in t.buf.pending :: r in s.buf.pending
    requires forall f | f in t.buf.dirty :: f in s.buf.dirty && t.buf.dirty[f].at == s.buf.dirty[f].at
    requires t.alive <= s.alive
    requires forall f | f in t.mark :: Fresh(s, f, t.mark[f].at) && t.mark[f].at < s.clock
    ensures Debts(t)
  {
  }

  lemma RemergeKeepsDebts(s: State)
    requires Debts(s) && Carries(s) && s.writer.Failed?
    ensures Debts(Do(s, FlushRemerge))
  {
    var t, snap := Do(s, FlushRemerge), s.writer.snap;
    KeepRowsMembers(snap.rows, (r: Row) => !Overrun(s.buf.owed, snap.carried, r.fileIdx));
    forall r | r in t.buf.pending ensures Fresh(s, r.fileIdx, r.at) { }
    forall f | f in t.buf.dirty ensures Fresh(s, f, t.buf.dirty[f].at) && t.buf.dirty[f].at < s.clock { }
  }

  lemma ApplyKeepsDebts(s: State, st: Step)
    requires Debts(s) && Enabled(s, st) && st.ApplyBegin?
    ensures Debts(Do(s, st))
  {
    var t := Do(s, st);
    PurgeAllRows(s.buf, st.verdicts);
    forall f | f in t.buf.dirty ensures f in s.buf.dirty && t.buf.dirty[f].at == s.buf.dirty[f].at {
      PurgeAllFiles(s.buf, st.verdicts, f);
    }
    DebtsShrink(s, t);
  }

  lemma NoteKeepsDebts(s: State, st: Step)
    requires Debts(s) && Enabled(s, st) && st.Note?
    ensures Debts(Do(s, st))
  {
  }

  lemma MarkKeepsDebts(s: State, st: Step)
    requires Debts(s) && Enabled(s, st) && st.Mark?
    ensures Debts(Do(s, st))
  {
  }

  lemma QuietKeepsDebts(s: State, st: Step)
    requires Debts(s) && Enabled(s, st)
    requires !(st.Note? || st.Mark? || st.FlushRemerge? || st.ApplyBegin? || st.ApplyEnd? || st.UntrustBegin?)
    ensures Debts(Do(s, st))
  {
    DebtsShrink(s, Do(s, st));
  }

  /** What an apply's commit stores of a file is the state it gave, or the one stored,
      but for the flag. */
  lemma ApplyStores(s: State, f: nat)
    requires s.writer.Applying? && f in s.store.files
    ensures var b, t := s.writer.batch, ApplyBatch(s.store, s.writer.batch).files;
      f in t && t[f] == (if f in b.files then b.files[f] else s.store.files[f]).(complete := t[f].complete)
  {
    CompleteOnly(UpdateFiles(s.store.files, s.writer.batch.files), s.writer.batch.verdicts, f);
  }

  lemma ApplyEndKeepsDebts(s: State)
    requires Debts(s) && Marks(s) && ApplyOpen(s) && Enabled(s, ApplyEnd(true))
    ensures Debts(Do(s, ApplyEnd(true)))
  {
    var t := Do(s, ApplyEnd(true));
    forall f | f in t.mark ensures Fresh(s, f, t.mark[f].at) && t.mark[f].at < s.clock {
      if f in s.mark { assert MarkPlaced(s, f); }
      if f in s.store.files { ApplyStores(s, f); }
    }
    DebtsShrink(s, t);
  }

  lemma DebtsKept(s: State, st: Step)
    requires Ordered(s) && Debts(s) && Carries(s) && Marks(s) && ApplyOpen(s) && Enabled(s, st)
    ensures Debts(Do(s, st))
  {
    match st {
      case Note(_, _, _, _, _) => NoteKeepsDebts(s, st);
      case Mark(_, _, _, _) => MarkKeepsDebts(s, st);
      case FlushRemerge => RemergeKeepsDebts(s);
      case ApplyBegin(_, _) => ApplyKeepsDebts(s, st);
      case ApplyEnd(ok) => if ok { ApplyEndKeepsDebts(s); } else { DebtsShrink(s, Do(s, st)); }
      case UntrustBegin(_) => UntrustKeepsDebts(s, st);
      case _ => QuietKeepsDebts(s, st);
    }
  }

  lemma UntrustKeepsDebts(s: State, st: Step)
    requires Ordered(s) && Debts(s) && Enabled(s, st) && st.UntrustBegin?
    ensures Debts(Do(s, st))
  {
    var t, v := Do(s, st), UntrustVerdict(st.uf);
    PurgeRowsMembers(s.buf.pending, v);
    forall r | r in t.alive ensures Fresh(t, r.fileIdx, r.at) {
      OneVerdict(v, KeyOf(r));
    }
  }

  // ---- Carries -------------------------------------------------------------

  lemma TakeKeepsCarries(s: State, checked: bool)
    requires Ordered(s) && Debts(s) && s.writer.Idle?
    ensures Carries(Do(s, FlushTake(checked)))
  {
  }

  lemma UntrustKeepsCarries(snap: Snapshot, s: State, t: State, f: nat)
    requires SnapshotOk(snap, s.buf.owed, s.last, s.buf.pending, s.clock)
    requires forall g | g in s.buf.owed :: s.buf.owed[g] <= s.owedSeq
    requires t.buf == Disown(s.buf, f, s.owedSeq + 1)
    requires t.last == s.last[f := Untrust(s.clock, s.owedSeq + 1)] && t.clock == s.clock + 1
    ensures SnapshotOk(snap, t.buf.owed, t.last, t.buf.pending, t.clock)
  {
    PurgeRowsMembers(s.buf.pending, UntrustVerdict(f));
  }

  lemma CarriesKept(s: State, st: Step)
    requires Ordered(s) && Debts(s) && Carries(s) && OneGoroutine(s) && Enabled(s, st)
    ensures Carries(Do(s, st))
  {
    match st {
      case FlushTake(checked) => TakeKeepsCarries(s, checked);
      case UntrustBegin(f) =>
        if Flushing(s.writer) { UntrustKeepsCarries(s.writer.snap, s, Do(s, st), f); }
      case _ =>
    }
  }

  // ---- OneGoroutine, Closed ------------------------------------------------

  lemma OneGoroutineKept(s: State, st: Step)
    requires OneGoroutine(s) && Ordered(s) && Enabled(s, st)
    ensures OneGoroutine(Do(s, st))
  {
  }

  lemma ClosedKept(s: State, st: Step)
    requires Closed(s) && Ordered(s) && Conserved(s) && Enabled(s, st)
    ensures Closed(Do(s, st))
  {
  }

  // ---- Stored --------------------------------------------------------------

  lemma CommitKeepsStored(s: State)
    requires Ordered(s) && Debts(s) && Carries(s) && Stored(s) && s.writer.Writing?
    ensures Stored(Do(s, FlushCommit))
  {
    var t, snap := Do(s, FlushCommit), s.writer.snap;
    forall k | k in t.store.rows
      ensures Stale(t, k.fileIdx, t.store.rows[k].at) ==> k.fileIdx in t.buf.owed && !JustPaid(t, k.fileIdx)
      ensures k.fileIdx in t.buf.owed && !JustPaid(t, k.fileIdx) ==> Stale(t, k.fileIdx, t.store.rows[k].at)
    {
      FlushRowEffect(s.store, snap, k);
      if t.store.rows[k] in snap.rows && KeyOf(t.store.rows[k]) == k {
        assert OneSide(Overrun(s.buf.owed, snap.carried, k.fileIdx), s.last, k.fileIdx, t.store.rows[k].at);
      }
    }
  }

  lemma DeleteKeepsStored(s: State, b: Batch, t: State)
    requires Stored(s) && b.rows == [] && t.store == ApplyBatch(s.store, b)
    requires t.buf == s.buf && t.last == s.last
    requires forall f :: JustPaid(t, f) ==> JustPaid(s, f) || forall k: Key | k.fileIdx == f :: Deleted(b.verdicts, k)
    requires forall f :: JustPaid(s, f) ==> JustPaid(t, f)
    ensures Stored(t)
  {
    forall k | k in t.store.rows
      ensures k in s.store.rows && t.store.rows[k] == s.store.rows[k] && !Deleted(b.verdicts, k)
    {
      NoRowsEffect(s.store, b, k);
    }
  }

  lemma UntrustKeepsStored(s: State, st: Step)
    requires Ordered(s) && Debts(s) && Carries(s) && Stored(s) && OneGoroutine(s) && Enabled(s, st) && st.UntrustBegin?
    ensures Stored(Do(s, st))
  {
    var t, f := Do(s, st), st.uf;
    assert !JustPaid(t, f);
    forall k | k in t.store.rows && k.fileIdx != f ensures JustPaid(t, k.fileIdx) <==> JustPaid(s, k.fileIdx) { }
    forall k | k in t.store.rows && k.fileIdx == f ensures Stale(t, f, t.store.rows[k].at) {
      assert s.store.rows[k] in s.noted;
    }
  }

  lemma SettleKeepsStored(s: State, st: Step)
    requires Stored(s) && Enabled(s, st) && (st.FlushSettle? || st.UntrustSettle?)
    ensures Stored(Do(s, st))
  {
    var t := Do(s, st);
    forall f ensures f in t.buf.owed <==> f in s.buf.owed && !JustPaid(s, f) { }
    forall f ensures !JustPaid(t, f) { }
  }

  lemma UntrustWriteKeepsStored(s: State, ok: bool)
    requires Stored(s) && Enabled(s, UntrustWrite(ok))
    ensures Stored(Do(s, UntrustWrite(ok)))
  {
    var t := Do(s, UntrustWrite(ok));
    if ok {
      var v := UntrustVerdict(s.writer.f);
      forall k: Key | k.fileIdx == s.writer.f ensures Deleted([v], k) { OneVerdict(v, k); }
      DeleteKeepsStored(s, Batch([], map[], [v]), t);
    } else {
      forall f ensures !JustPaid(s, f) && !JustPaid(t, f) { }
    }
  }

  lemma QuietKeepsStored(s: State, t: State)
    requires Stored(s)
    requires t.store == s.store && t.buf.owed == s.buf.owed && t.last == s.last
    requires t.writer == s.writer
      || !(s.writer.Written? || s.writer.Deleted_? || t.writer.Written? || t.writer.Deleted_?)
    ensures Stored(t)
  {
    forall f ensures JustPaid(t, f) <==> JustPaid(s, f) { }
  }

  lemma StoredKept(s: State, st: Step)
    requires Inv(s) && Enabled(s, st)
    ensures Stored(Do(s, st))
  {
    match st {
      case FlushCommit => CommitKeepsStored(s);
      case FlushSettle => SettleKeepsStored(s, st);
      case UntrustSettle => SettleKeepsStored(s, st);
      case UntrustBegin(_) => UntrustKeepsStored(s, st);
      case UntrustWrite(ok) => UntrustWriteKeepsStored(s, ok);
      case ApplyBegin(vs, _) =>
        PurgeAllRows(s.buf, vs);
        QuietKeepsStored(s, Do(s, st));
      case ApplyEnd(ok) =>
        if ok { DeleteKeepsStored(s, s.writer.batch, Do(s, st)); } else { QuietKeepsStored(s, Do(s, st)); }
      case _ => QuietKeepsStored(s, Do(s, st));
    }
  }

  // ---- Conserved -----------------------------------------------------------

  lemma CommitKeepsConserved(s: State)
    requires Ordered(s) && Debts(s) && Carries(s) && Stored(s) && Conserved(s) && s.writer.Writing?
    ensures Conserved(Do(s, FlushCommit))
  {
    var t, snap := Do(s, FlushCommit), s.writer.snap;
    AscendingParts(snap.rows, s.buf.pending);
    forall r | r in s.alive && r !in s.buf.pending ensures Committed(t, r) {
      if r in snap.rows {
        FlushedRow(s.store, snap, r);
      } else {
        CommittedSurvivesFlush(s, r);
      }
    }
  }

  lemma CommittedSurvivesFlush(s: State, r: Row)
    requires Ordered(s) && Debts(s) && Carries(s) && Stored(s) && s.writer.Writing?
    requires r in s.alive && Committed(s, r)
    ensures Committed(Do(s, FlushCommit), r)
  {
    var k, snap := KeyOf(r), s.writer.snap;
    FlushRowEffect(s.store, snap, k);
    assert Fresh(s, r.fileIdx, r.at);
    assert !(k.fileIdx in s.buf.owed && !JustPaid(s, k.fileIdx));
    var t := Do(s, FlushCommit);
    if t.store.rows[k] in snap.rows {
      assert t.store.rows[k] in InFlight(s.writer) + s.buf.pending;
    }
  }

  lemma RemergeKeepsConserved(s: State)
    requires Debts(s) && Carries(s) && Conserved(s) && s.writer.Failed?
    ensures Conserved(Do(s, FlushRemerge))
  {
    var snap := s.writer.snap;
    KeepRowsMembers(snap.rows, (r: Row) => !Overrun(s.buf.owed, snap.carried, r.fileIdx));
    forall r | r in s.alive && r in snap.rows ensures !Overrun(s.buf.owed, snap.carried, r.fileIdx) {
      assert Fresh(s, r.fileIdx, r.at);
    }
  }

  lemma PurgeKeepsConserved(s: State, st: Step)
    requires Conserved(s) && Enabled(s, st) && (st.ApplyBegin? || st.UntrustBegin?)
    ensures Conserved(Do(s, st))
  {
    if st.ApplyBegin? {
      PurgeAllRows(s.buf, st.verdicts);
    } else {
      PurgeRowsMembers(s.buf.pending, UntrustVerdict(st.uf));
      forall r: Row ensures Deleted([UntrustVerdict(st.uf)], KeyOf(r)) <==> Hits(UntrustVerdict(st.uf), KeyOf(r)) {
        OneVerdict(UntrustVerdict(st.uf), KeyOf(r));
      }
    }
  }

  lemma UntrustWriteKeepsConserved(s: State)
    requires Debts(s) && OneGoroutine(s) && Conserved(s) && Enabled(s, UntrustWrite(true))
    ensures Conserved(Do(s, UntrustWrite(true)))
  {
    var v := UntrustVerdict(s.writer.f);
    forall r | r in s.alive && Committed(s, r) ensures Committed(Do(s, UntrustWrite(true)), r) {
      assert Fresh(s, r.fileIdx, r.at) && r in s.noted;
      OneVerdict(v, KeyOf(r));
      NoRowsEffect(s.store, Batch([], map[], [v]), KeyOf(r));
    }
  }

  lemma ApplyEndKeepsConserved(s: State)
    requires Conserved(s) && ApplyOpen(s) && Enabled(s, ApplyEnd(true))
    ensures Conserved(Do(s, ApplyEnd(true)))
  {
    forall r | r in s.alive && r !in s.buf.pending ensures Committed(Do(s, ApplyEnd(true)), r) {
      NoRowsEffect(s.store, s.writer.batch, KeyOf(r));
    }
  }

  lemma ConservedKept(s: State, st: Step)
    requires Inv(s) && Enabled(s, st)
    ensures Conserved(Do(s, st))
  {
    match st {
      case FlushCommit => CommitKeepsConserved(s);
      case FlushRemerge => RemergeKeepsConserved(s);
      case ApplyBegin(_, _) => PurgeKeepsConserved(s, st);
      case UntrustBegin(_) => PurgeKeepsConserved(s, st);
      case UntrustWrite(ok) => if ok { UntrustWriteKeepsConserved(s); }
      case ApplyEnd(ok) => if ok { ApplyEndKeepsConserved(s); }
      case _ =>
    }
  }

  // ---- Marks ---------------------------------------------------------------

  lemma CommitKeepsMark(s: State, f: nat)
    requires Debts(s) && Carries(s) && Marks(s) && s.writer.Writing? && f in s.mark
    ensures MarkPlaced(Do(s, FlushCommit), f)
  {
    var snap := s.writer.snap;
    assert MarkPlaced(s, f) && Fresh(s, f, s.mark[f].at);
    if f in s.store.files { FlushFileEffect(s.store, snap, f); }
    if f !in s.buf.dirty && f in snap.files {
      assert OneSide(Overrun(s.buf.owed, snap.carried, f), s.last, f, snap.files[f].at);
    }
  }

  lemma RemergeKeepsMark(s: State, f: nat)
    requires Debts(s) && Carries(s) && Marks(s) && s.writer.Failed? && f in s.mark
    ensures MarkPlaced(Do(s, FlushRemerge), f)
  {
    var snap := s.writer.snap;
    assert MarkPlaced(s, f) && Fresh(s, f, s.mark[f].at);
    if f !in s.buf.dirty && f in snap.files {
      assert OneSide(Overrun(s.buf.owed, snap.carried, f), s.last, f, snap.files[f].at);
    }
  }

  lemma ApplyKeepsMark(s: State, st: Step, f: nat)
    requires Marks(s) && Enabled(s, st) && (st.ApplyBegin? || st.ApplyEnd?)
    requires f in Do(s, st).mark
    ensures MarkPlaced(Do(s, st), f)
  {
    if f in s.mark { assert MarkPlaced(s, f); }
    if st.ApplyBegin? {
      PurgeAllFiles(s.buf, st.verdicts, f);
      PurgeAllRows(s.buf, st.verdicts);
    }
  }

  lemma UntrustKeepsMark(s: State, st: Step, f: nat)
    requires Marks(s) && OneGoroutine(s) && Enabled(s, st)
    requires st.UntrustBegin? || st.UntrustWrite? || st.UntrustSettle?
    requires f in Do(s, st).mark
    ensures MarkPlaced(Do(s, st), f)
  {
    assert MarkPlaced(s, f);
    if st.UntrustWrite? && st.ok && f in s.store.files && f !in s.buf.dirty {
      DeleteKeepsState(s.store, s.writer.f, f);
    }
  }

  /** An untrust's own delete leaves every file's state as it was, but for its own
      file's complete flag, which it clears. */
  lemma DeleteKeepsState(store: Store, uf: nat, f: nat)
    requires f in store.files
    ensures ApplyBatch(store, Batch([], map[], [UntrustVerdict(uf)])).files[f]
         == if f == uf then store.files[f].(complete := false) else store.files[f]
  {
    var vs := [UntrustVerdict(uf)];
    var m := UpdateFiles(store.files, map[]);
    assert vs[..0] == [];
    assert CompleteChanges(m, vs[..0]) == m;
  }

  lemma QuietKeepsMark(s: State, st: Step, f: nat)
    requires Marks(s) && Enabled(s, st) && f in Do(s, st).mark
    requires !(st.FlushCommit? || st.FlushRemerge? || st.ApplyBegin? || st.ApplyEnd?)
    requires !(st.UntrustBegin? || st.UntrustWrite? || st.UntrustSettle?)
    ensures MarkPlaced(Do(s, st), f)
  {
    if f in s.mark { assert MarkPlaced(s, f); }
  }

  lemma MarksKept(s: State, st: Step)
    requires Inv(s) && Enabled(s, st)
    ensures Marks(Do(s, st))
  {
    var t := Do(s, st);
    forall f | f in t.mark ensures MarkPlaced(t, f) {
      match st {
        case FlushCommit => CommitKeepsMark(s, f);
        case FlushRemerge => RemergeKeepsMark(s, f);
        case ApplyBegin(_, _) => ApplyKeepsMark(s, st, f);
        case ApplyEnd(_) => ApplyKeepsMark(s, st, f);
        case UntrustBegin(_) => UntrustKeepsMark(s, st, f);
        case UntrustWrite(_) => UntrustKeepsMark(s, st, f);
        case UntrustSettle => UntrustKeepsMark(s, st, f);
        case _ => QuietKeepsMark(s, st, f);
      }
    }
  }

  // ---- ApplyOpen, and all of it --------------------------------------------

  lemma ApplyOpenKept(s: State, st: Step)
    requires Debts(s) && ApplyOpen(s) && Enabled(s, st)
    ensures ApplyOpen(Do(s, st))
  {
    if st.UntrustBegin? && s.writer.Applying? {
      PurgeRowsMembers(s.buf.pending, UntrustVerdict(st.uf));
      forall r: Row ensures Deleted([UntrustVerdict(st.uf)], KeyOf(r)) <==> Hits(UntrustVerdict(st.uf), KeyOf(r)) {
        OneVerdict(UntrustVerdict(st.uf), KeyOf(r));
      }
    }
  }

  lemma TimelyKept(s: State, st: Step)
    requires Debts(s) && Stored(s) && Carries(s) && Timely(s) && Enabled(s, st)
    ensures Timely(Do(s, st))
  {
    if st.FlushTake? { TakeKeepsTimely(s, st.checked); } else { QuietKeepsTimely(s, st); }
  }

  lemma TakeKeepsTimely(s: State, checked: bool)
    requires Debts(s) && Stored(s) && Timely(s) && Enabled(s, FlushTake(checked))
    ensures Timely(Do(s, FlushTake(checked)))
  {
    forall f | f in s.buf.owed ensures !JustPaid(s, f) { }
  }

  lemma QuietKeepsTimely(s: State, st: Step)
    requires Debts(s) && Timely(s) && Enabled(s, st) && !st.FlushTake?
    ensures Timely(Do(s, st))
  {
  }

  /** Every step keeps the invariant. */
  lemma StepKeepsInv(s: State, st: Step)
    requires Inv(s) && Enabled(s, st)
    ensures Inv(Do(s, st))
  {
    OrderedKept(s, st);
    DebtsKept(s, st);
    CarriesKept(s, st);
    StoredKept(s, st);
    OneGoroutineKept(s, st);
    ConservedKept(s, st);
    ClosedKept(s, st);
    MarksKept(s, st);
    ApplyOpenKept(s, st);
    TimelyKept(s, st);
  }
}

/**
 The recorder's in-place code (internal/app/record.go). Each method is one span
 of the recorder's mu; I/O and the writer lock are in RecorderProtocol.
 */
module ArticleRecorder {
  import opened Wrappers
  import opened RecordStore
  import opened Recorder

  function RowsOf(m: map<Job, seq<Row>>, j: Job): (rs: seq<Row>) {
    if j in m then m[j] else []
  }

  function FilesOf(m: map<Job, map<nat, FileState>>, j: Job): (fs: map<nat, FileState>) {
    if j in m then m[j] else map[]
  }

  function DebtsOf(m: map<Job, map<nat, nat>>, j: Job): (o: map<nat, nat>) {
    if j in m then m[j] else map[]
  }

  function AnswerOf(live: map<Job, bool>, j: Job): (a: Answer) {
    if j !in live then Unchecked else if live[j] then Current else Gone
  }

  /** takeRowsLocked's and takeFilesLocked's loop: every entry the instance check
      answered for leaves m, and those of current instances are handed out. */
  method TakeChecked<T>(m: map<Job, T>, live: map<Job, bool>) returns (left: map<Job, T>, out: map<Job, T>)
    ensures left == map j | j in m && j !in live :: m[j]
    ensures out == map j | j in m && j in live && live[j] :: m[j]
  {
    var todo := m.Keys;
    left, out := m, map[];
    while todo != {}
      invariant todo <= m.Keys
      invariant left == map j | j in m && (j in todo || j !in live) :: m[j]
      invariant out == map j | j in m && j !in todo && j in live && live[j] :: m[j]
      decreases |todo|
    {
      var j :| j in todo;
      todo := todo - {j};
      if j in live {
        if live[j] {
          out := out[j := m[j]];
        }
        left := left - {j};
      }
    }
  }

  /** remerge's loop over file states: a state marked since is newer and is kept. */
  method RestoreStates(m: map<nat, FileState>, fs: map<nat, FileState>, owed: map<nat, nat>, carried: map<nat, nat>)
      returns (r: map<nat, FileState>)
    ensures r == (map f | f in fs && !Overrun(owed, carried, f) :: fs[f]) + m
  {
    var todo := fs.Keys;
    r := m;
    while todo != {}
      invariant todo <= fs.Keys
      invariant forall f :: f in r <==> f in m || (f in fs && f !in todo && !Overrun(owed, carried, f))
      invariant forall f | f in r :: r[f] == if f in m then m[f] else fs[f]
      decreases |todo|
    {
      var f :| f in todo;
      todo := todo - {f};
      if !Overrun(owed, carried, f) && f !in r {
        r := r[f := fs[f]];
      }
    }
  }

  class ArticleRecorder {
    var pending: map<Job, seq<Row>>
    var dirty: map<Job, map<nat, FileState>>
    var owed: map<Job, map<nat, nat>>
    var owedSeq: nat

    ghost function SliceOf(j: Job): (s: Slice)
      reads this
    {
      Slice(RowsOf(pending, j), FilesOf(dirty, j), DebtsOf(owed, j))
    }

    constructor ()
      ensures owedSeq == 0
      ensures forall j :: SliceOf(j) == Slice([], map[], map[])
    {
      pending, dirty, owed, owedSeq := map[], map[], map[], 0;
    }

    method NoteWritten(j: Job, row: Row)
      modifies this`pending
      ensures SliceOf(j) == old(SliceOf(j)).(pending := old(SliceOf(j)).pending + [row])
      ensures forall k :: k != j ==> SliceOf(k) == old(SliceOf(k))
    {
      pending := pending[j := RowsOf(pending, j) + [row]];
    }

    method MarkDirty(j: Job, f: nat, st: FileState)
      modifies this`dirty
      ensures SliceOf(j) == old(SliceOf(j)).(dirty := old(SliceOf(j)).dirty[f := st])
      ensures forall k :: k != j ==> SliceOf(k) == old(SliceOf(k))
    {
      dirty := dirty[j := FilesOf(dirty, j)[f := st]];
    }

    /** The jobs an instance check has to answer for: those with anything buffered or owed. */
    method Buffered() returns (jobs: set<Job>)
      ensures forall j :: j !in jobs ==> SliceOf(j) == Slice([], map[], map[])
      ensures jobs == pending.Keys + dirty.Keys + owed.Keys
    {
      jobs := pending.Keys + dirty.Keys + owed.Keys;
    }

    method TakeRows(live: map<Job, bool>) returns (out: map<Job, seq<Row>>)
      modifies this`pending
      ensures forall j :: RowsOf(pending, j) == if j in live then [] else RowsOf(old(pending), j)
      ensures forall j :: RowsOf(out, j) == if j in live && live[j] then RowsOf(old(pending), j) else []
    {
      pending, out := TakeChecked(pending, live);
    }

    method TakeFiles(live: map<Job, bool>) returns (out: map<Job, map<nat, FileState>>)
      modifies this`dirty
      ensures forall j :: FilesOf(dirty, j) == if j in live then map[] else FilesOf(old(dirty), j)
      ensures forall j :: FilesOf(out, j) == if j in live && live[j] then FilesOf(old(dirty), j) else map[]
    {
      dirty, out := TakeChecked(dirty, live);
    }

    /** The debts of current instances, which stay owed; those of gone ones are dropped. */
    method CopyDebts(live: map<Job, bool>) returns (out: map<Job, map<nat, nat>>)
      modifies this`owed
      ensures forall j :: DebtsOf(owed, j) == if j in live && !live[j] then map[] else DebtsOf(old(owed), j)
      ensures forall j :: DebtsOf(out, j) == if j in live && live[j] then DebtsOf(old(owed), j) else map[]
    {
      var left: map<Job, map<nat, nat>>;
      left, out := TakeChecked(owed, live);
      owed := left + out;
    }

    /** The flush's one snapshot: rows, states and debts in the same span. */
    method TakeSnapshot(live: map<Job, bool>)
        returns (rows: map<Job, seq<Row>>, files: map<Job, map<nat, FileState>>, debts: map<Job, map<nat, nat>>)
      modifies this
      ensures owedSeq == old(owedSeq)
      ensures forall j :: SliceOf(j) == LeftAfter(old(SliceOf(j)), AnswerOf(live, j))
      ensures forall j ::
        SnapshotOf(rows, files, debts, j) == TakenFrom(old(SliceOf(j)), AnswerOf(live, j))
    {
      rows := TakeRows(live);
      files := TakeFiles(live);
      debts := CopyDebts(live);
    }

    method SettleLocked(j: Job, f: nat, seq_: nat)
      modifies this`owed
      ensures DebtsOf(owed, j) == SettleOne(DebtsOf(old(owed), j), f, seq_)
      ensures forall k :: k != j ==> DebtsOf(owed, k) == DebtsOf(old(owed), k)
    {
      if !(j in owed && f in owed[j] && owed[j][f] == seq_) {
        return;
      }
      var rest := owed[j] - {f};
      owed := if rest == map[] then owed - {j} else owed[j := rest];
    }

    method SettleJob(j: Job, carried: map<nat, nat>)
      modifies this`owed
      ensures DebtsOf(owed, j) == SettleAll(DebtsOf(old(owed), j), carried)
      ensures forall k :: k != j ==> DebtsOf(owed, k) == DebtsOf(old(owed), k)
    {
      var todo := carried.Keys;
      ghost var before := DebtsOf(owed, j);
      ghost var others := owed;
      while todo != {}
        invariant todo <= carried.Keys
        invariant DebtsOf(owed, j) ==
          map f | f in before && !(f in carried && f !in todo && carried[f] == before[f]) :: before[f]
        invariant forall k :: k != j ==> DebtsOf(owed, k) == DebtsOf(others, k)
        decreases |todo|
      {
        var f :| f in todo;
        SettleLocked(j, f, carried[f]);
        todo := todo - {f};
      }
    }

    /** settle: what a successful write carried, for every job of it. */
    method Settle(carried: map<Job, map<nat, nat>>)
      modifies this`owed
      ensures forall j ::
        SliceOf(j) == old(SliceOf(j)).(owed := SettleAll(old(SliceOf(j)).owed, DebtsOf(carried, j)))
    {
      var todo := carried.Keys;
      ghost var before := owed;
      while todo != {}
        invariant todo <= carried.Keys
        invariant forall j | j in todo :: DebtsOf(owed, j) == DebtsOf(before, j)
        invariant forall j | j !in todo :: DebtsOf(owed, j) == SettleAll(DebtsOf(before, j), DebtsOf(carried, j))
        decreases |todo|
      {
        var j :| j in todo;
        SettleJob(j, carried[j]);
        todo := todo - {j};
      }
    }

    method RemergeRows(j: Job, snap: Snapshot)
      modifies this`pending
      ensures RowsOf(pending, j) == MergeRows(old(SliceOf(j)), snap)
      ensures forall k :: k != j ==> RowsOf(pending, k) == RowsOf(old(pending), k)
    {
      var rs := snap.rows;
      ghost var keep := (r: Row) => !Overrun(DebtsOf(old(owed), j), snap.carried, r.fileIdx);
      var kept := [];
      for i := 0 to |rs|
        invariant kept == KeepRows(rs[..i], keep)
      {
        assert rs[..i + 1][..i] == rs[..i];
        if !Overrun(DebtsOf(owed, j), snap.carried, rs[i].fileIdx) {
          kept := kept + [rs[i]];
        }
      }
      assert rs[..|rs|] == rs;
      SameKeep(rs, keep, (r: Row) => !Overrun(old(SliceOf(j)).owed, snap.carried, r.fileIdx));
      if kept != [] {
        pending := pending[j := kept + RowsOf(pending, j)];
      }
    }

    method RemergeFiles(j: Job, snap: Snapshot)
      modifies this`dirty
      ensures FilesOf(dirty, j) == MergeFiles(old(SliceOf(j)), snap)
      ensures forall k :: k != j ==> FilesOf(dirty, k) == FilesOf(old(dirty), k)
    {
      var m := RestoreStates(FilesOf(dirty, j), snap.files, DebtsOf(owed, j), snap.carried);
      dirty := dirty[j := m];
    }

    /** remerge's first loop, over the jobs whose rows the snapshot holds. */
    method RemergeAllRows(rows: map<Job, seq<Row>>, files: map<Job, map<nat, FileState>>,
                          carried: map<Job, map<nat, nat>>)
      modifies this`pending
      ensures forall j :: RowsOf(pending, j) == MergeRows(old(SliceOf(j)), SnapshotOf(rows, files, carried, j))
    {
      var todo := rows.Keys;
      forall j | j !in rows ensures MergeRows(SliceOf(j), SnapshotOf(rows, files, carried, j)) == RowsOf(pending, j) { }
      while todo != {}
        invariant todo <= rows.Keys
        invariant forall j | j in todo :: RowsOf(pending, j) == RowsOf(old(pending), j)
        invariant forall j | j !in todo ::
          RowsOf(pending, j) == MergeRows(old(SliceOf(j)), SnapshotOf(rows, files, carried, j))
        decreases |todo|
      {
        var j :| j in todo;
        todo := todo - {j};
        assert SliceOf(j) == old(SliceOf(j));
        RemergeRows(j, SnapshotOf(rows, files, carried, j));
      }
    }

    /** Its second, over the jobs whose file states the snapshot holds. */
    method RemergeAllFiles(rows: map<Job, seq<Row>>, files: map<Job, map<nat, FileState>>,
                           carried: map<Job, map<nat, nat>>)
      modifies this`dirty
      ensures forall j :: FilesOf(dirty, j) == MergeFiles(old(SliceOf(j)), SnapshotOf(rows, files, carried, j))
    {
      var todo := files.Keys;
      while todo != {}
        invariant todo <= files.Keys
        invariant forall j | j in todo :: FilesOf(dirty, j) == FilesOf(old(dirty), j)
        invariant forall j | j !in todo ::
          FilesOf(dirty, j) == MergeFiles(old(SliceOf(j)), SnapshotOf(rows, files, carried, j))
        decreases |todo|
      {
        var j :| j in todo;
        todo := todo - {j};
        assert SliceOf(j) == old(SliceOf(j));
        RemergeFiles(j, SnapshotOf(rows, files, carried, j));
      }
    }

    /** remerge: one span puts a failed snapshot back for every job of it. */
    method RemergeAll(rows: map<Job, seq<Row>>, files: map<Job, map<nat, FileState>>,
                      carried: map<Job, map<nat, nat>>)
      modifies this`pending, this`dirty
      ensures forall j :: SliceOf(j) == Remerge(old(SliceOf(j)), SnapshotOf(rows, files, carried, j))
    {
      RemergeAllRows(rows, files, carried);
      RemergeAllFiles(rows, files, carried);
    }

    /** apply's span: the verdicts' purges in order, then the states it replaces. */
    method PurgeBeforeApply(j: Job, vs: seq<Verdict>, files: map<nat, FileState>)
      modifies this`pending, this`dirty
      ensures SliceOf(j) == PurgeForApply(old(SliceOf(j)), vs, files)
      ensures forall k :: k != j ==> SliceOf(k) == old(SliceOf(k))
    {
      for i := 0 to |vs|
        invariant SliceOf(j) == PurgeAll(old(SliceOf(j)), vs[..i])
        invariant forall k :: k != j ==> SliceOf(k) == old(SliceOf(k))
      {
        assert vs[..i + 1][..i] == vs[..i];
        PurgeLocked(j, vs[i]);
      }
      assert vs[..|vs|] == vs;
      if j in dirty {
        var m := dirty[j] - files.Keys;
        dirty := if m == map[] then dirty - {j} else dirty[j := m];
      }
    }

    /** purgeLocked: what one verdict removes from the buffers. */
    method PurgeLocked(j: Job, v: Verdict)
      modifies this`pending, this`dirty
      ensures SliceOf(j) == Purge(old(SliceOf(j)), v)
      ensures forall k :: k != j ==> SliceOf(k) == old(SliceOf(k))
    {
      if v.deleteAll || v.deleteArts != [] {
        var rs := RowsOf(pending, j);
        ghost var keep := (r: Row) => !Hits(v, KeyOf(r));
        var kept := [];
        for i := 0 to |rs|
          invariant kept == KeepRows(rs[..i], keep)
        {
          assert rs[..i + 1][..i] == rs[..i];
          if !Hits(v, KeyOf(rs[i])) {
            kept := kept + [rs[i]];
          }
        }
        assert rs[..|rs|] == rs;
        SameKeep(rs, keep, (r: Row) => !Hits(v, KeyOf(r)));
        pending := if kept == [] then pending - {j} else pending[j := kept];
      }
      var m := PurgeFiles(FilesOf(dirty, j), v);
      dirty := if m == map[] then dirty - {j} else dirty[j := m];
    }

    /** untrust's first span; the returned number names the debt. */
    method DisownFile(j: Job, f: nat) returns (seq_: nat)
      modifies this
      ensures seq_ == owedSeq == old(owedSeq) + 1
      ensures SliceOf(j) == Disown(old(SliceOf(j)), f, seq_)
      ensures forall k :: k != j ==> SliceOf(k) == old(SliceOf(k))
    {
      PurgeLocked(j, UntrustVerdict(f));
      owedSeq := owedSeq + 1;
      seq_ := owedSeq;
      owed := owed[j := DebtsOf(owed, j)[f := seq_]];
    }
  }

  /** What a snapshot of the three maps holds for j. */
  function SnapshotOf(rows: map<Job, seq<Row>>, files: map<Job, map<nat, FileState>>,
                      debts: map<Job, map<nat, nat>>, j: Job): (snap: Snapshot)
  {
    Snapshot(RowsOf(rows, j), FilesOf(files, j), DebtsOf(debts, j))
  }

  /** flushLocked's batch of one job. */
  method BatchFor(snap: Snapshot) returns (b: Batch)
    ensures b == FlushBatch(snap)
  {
    var verdicts := VerdictList(snap.carried.Keys, snap.files);
    b := Batch(snap.rows, snap.files, verdicts);
  }

  method VerdictList(owed: set<nat>, files: map<nat, FileState>) returns (vs: seq<Verdict>)
    ensures vs == OwedVerdicts(owed, files)
  {
    vs := [];
    var todo := owed;
    while todo != {}
      invariant vs + OwedVerdicts(todo, files) == OwedVerdicts(owed, files)
      decreases |todo|
    {
      var f := Least(todo);
      var v := UntrustVerdict(f).(clearComplete := f !in files);
      ghost var rest := OwedVerdicts(todo - {f}, files);
      assert OwedVerdicts(todo, files) == [v] + rest;
      assert vs + ([v] + rest) == (vs + [v]) + rest;
      vs := vs + [v];
      todo := todo - {f};
    }
  }
}

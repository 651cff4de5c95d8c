/**
 The durable record of one job: `written_articles` and `job_files`, and the
 transaction `ApplyRecord` runs over them (internal/durability/written.go).

 Rows and file states carry a model-only stamp `at`: the position, in the run,
 of the call that noted or marked them. Nothing the code decides reads it.
 */
module RecordStore {

  datatype Row = Row(fileIdx: nat, artIdx: int, offset: int, length: int, crc: int, at: nat)

  /** The primary key of a row within its job. */
  datatype Key = Key(fileIdx: nat, artIdx: int)

  datatype FileState = FileState(complete: bool, filename: string, fetchPolicy: int, at: nat)

  datatype Verdict = Verdict(
    fileIdx: nat, deleteAll: bool, deleteArts: seq<int>, clearComplete: bool, setComplete: bool)

  datatype Batch = Batch(rows: seq<Row>, files: map<nat, FileState>, verdicts: seq<Verdict>)

  datatype Store = Store(rows: map<Key, Row>, files: map<nat, FileState>)

  function KeyOf(r: Row): (k: Key) { Key(r.fileIdx, r.artIdx) }

  /** A verdict's delete reaches the row with key k. */
  predicate Hits(v: Verdict, k: Key) {
    k.fileIdx == v.fileIdx && (v.deleteAll || k.artIdx in v.deleteArts)
  }

  predicate Deleted(vs: seq<Verdict>, k: Key) {
    exists i :: 0 <= i < |vs| && Hits(vs[i], k)
  }

  /** INSERT OR REPLACE of rows in order. */
  function InsertRows(m: map<Key, Row>, rs: seq<Row>): (r: map<Key, Row>) {
    if rs == [] then m
    else
      var last := rs[|rs| - 1];
      InsertRows(m, rs[..|rs| - 1])[KeyOf(last) := last]
  }

  /** UPDATE of the job_files rows that exist; a state of an unknown file changes nothing. */
  function UpdateFiles(m: map<nat, FileState>, fs: map<nat, FileState>): (r: map<nat, FileState>)
    ensures r.Keys == m.Keys
  {
    map f | f in m :: if f in fs then fs[f] else m[f]
  }

  function CompleteChanges(m: map<nat, FileState>, vs: seq<Verdict>): (r: map<nat, FileState>)
    ensures r.Keys == m.Keys
  {
    if vs == [] then m
    else
      var v := vs[|vs| - 1];
      var before := CompleteChanges(m, vs[..|vs| - 1]);
      if (v.setComplete || v.clearComplete) && v.fileIdx in before
      then before[v.fileIdx := before[v.fileIdx].(complete := v.setComplete)]
      else before
  }

  /** A batch the transaction does not refuse: no verdict both sets and clears complete. */
  predicate Applicable(b: Batch) {
    forall v | v in b.verdicts :: !(v.setComplete && v.clearComplete)
  }

  /** One job's share of a committed transaction: verdict deletes, row upserts
      (only while the job has a job_files row), file states, complete changes. */
  function ApplyBatch(s: Store, b: Batch): (t: Store)
    ensures t.files.Keys == s.files.Keys
  {
    var kept := map k | k in s.rows && !Deleted(b.verdicts, k) :: s.rows[k];
    var rows := if s.files == map[] then kept else InsertRows(kept, b.rows);
    Store(rows, CompleteChanges(UpdateFiles(s.files, b.files), b.verdicts))
  }

  predicate Ascending(rs: seq<Row>) {
    forall i, j :: 0 <= i < j < |rs| ==> rs[i].at < rs[j].at
  }

  predicate WellKeyed(m: map<Key, Row>) {
    forall k | k in m :: KeyOf(m[k]) == k
  }

  /** What key k holds after the insert: one of the inserted rows, or what it held. */
  lemma {:induction false} InsertRowsAt(m: map<Key, Row>, rs: seq<Row>, k: Key)
    ensures k in m ==> k in InsertRows(m, rs)
    ensures k in InsertRows(m, rs) ==>
      (InsertRows(m, rs)[k] in rs && KeyOf(InsertRows(m, rs)[k]) == k)
      || (k in m && InsertRows(m, rs)[k] == m[k])
  {
    if rs != [] {
      var init, last := rs[..|rs| - 1], rs[|rs| - 1];
      InsertRowsAt(m, init, k);
      assert last in rs;
    }
  }

  /** An inserted row is there, or a later row of the list replaced it. */
  lemma {:induction false} InsertedOrReplaced(m: map<Key, Row>, rs: seq<Row>, i: nat)
    requires Ascending(rs) && i < |rs|
    ensures KeyOf(rs[i]) in InsertRows(m, rs)
    ensures rs[i].at <= InsertRows(m, rs)[KeyOf(rs[i])].at
    ensures InsertRows(m, rs)[KeyOf(rs[i])] in rs
  {
    var init, last := rs[..|rs| - 1], rs[|rs| - 1];
    if i < |rs| - 1 {
      assert init[i] == rs[i];
      InsertedOrReplaced(m, init, i);
      if KeyOf(last) != KeyOf(rs[i]) {
        assert InsertRows(m, init)[KeyOf(rs[i])] in init;
      }
    }
  }

  /** Verdicts that touch no complete flag of f leave f's state alone. */
  lemma {:induction false} CompleteUntouched(m: map<nat, FileState>, vs: seq<Verdict>, f: nat)
    requires f in m
    requires forall v | v in vs :: v.fileIdx == f ==> !v.setComplete && !v.clearComplete
    ensures CompleteChanges(m, vs)[f] == m[f]
  {
    if vs != [] {
      assert vs[|vs| - 1] in vs;
      CompleteUntouched(m, vs[..|vs| - 1], f);
    }
  }

  /** Complete changes change nothing of a state but its flag. */
  lemma {:induction false} CompleteOnly(m: map<nat, FileState>, vs: seq<Verdict>, f: nat)
    requires f in m
    ensures CompleteChanges(m, vs)[f] == m[f].(complete := CompleteChanges(m, vs)[f].complete)
  {
    if vs != [] {
      CompleteOnly(m, vs[..|vs| - 1], f);
    }
  }

  /** Verdicts that only clear f's flag, at least one of which does, leave it false. */
  lemma {:induction false} CompleteCleared(m: map<nat, FileState>, vs: seq<Verdict>, f: nat)
    requires f in m
    requires forall v | v in vs :: v.fileIdx == f ==> !v.setComplete
    requires exists v :: v in vs && v.fileIdx == f && v.clearComplete
    ensures !CompleteChanges(m, vs)[f].complete
  {
    var init, last := vs[..|vs| - 1], vs[|vs| - 1];
    assert vs == init + [last];
    assert last in vs;
    if !(last.fileIdx == f && last.clearComplete) {
      var v :| v in vs && v.fileIdx == f && v.clearComplete;
      assert v in init;
      CompleteCleared(m, init, f);
    }
  }

  // ---- The transaction, written out ------------------------------------------------

  /** Some verdict deletes article artIdx of file f: with all of the file, or by name. */
  predicate Named(vs: seq<Verdict>, f: nat, artIdx: int) {
    exists i :: 0 <= i < |vs| && vs[i].fileIdx == f && (vs[i].deleteAll || artIdx in vs[i].deleteArts)
  }

  predicate IsFor(r: Row, f: nat, artIdx: int) { r.fileIdx == f && r.artIdx == artIdx }

  /** The i-th row is the last given for the article. */
  predicate LastFor(rs: seq<Row>, f: nat, artIdx: int, i: nat) {
    i < |rs| && IsFor(rs[i], f, artIdx) && forall j | i < j < |rs| :: !IsFor(rs[j], f, artIdx)
  }

  predicate NoneFor(rs: seq<Row>, f: nat, artIdx: int) { forall j | 0 <= j < |rs| :: !IsFor(rs[j], f, artIdx) }

  predicate Decides(v: Verdict, f: nat) { v.fileIdx == f && (v.setComplete || v.clearComplete) }

  /** The i-th verdict is the last to set or clear the complete flag of f. */
  predicate LastToDecide(vs: seq<Verdict>, f: nat, i: nat) {
    i < |vs| && Decides(vs[i], f) && forall j | i < j < |vs| :: !Decides(vs[j], f)
  }

  predicate NoneDecides(vs: seq<Verdict>, f: nat) { forall j | 0 <= j < |vs| :: !Decides(vs[j], f) }

  lemma {:induction false} LastInserted(m: map<Key, Row>, rs: seq<Row>, f: nat, artIdx: int, i: nat)
    requires LastFor(rs, f, artIdx, i)
    ensures Key(f, artIdx) in InsertRows(m, rs) && InsertRows(m, rs)[Key(f, artIdx)] == rs[i]
    decreases |rs|
  {
    if i < |rs| - 1 {
      LastInserted(m, rs[..|rs| - 1], f, artIdx, i);
      assert !IsFor(rs[|rs| - 1], f, artIdx);
    }
  }

  lemma {:induction false} NotInserted(m: map<Key, Row>, rs: seq<Row>, f: nat, artIdx: int)
    requires NoneFor(rs, f, artIdx)
    ensures Key(f, artIdx) in InsertRows(m, rs) <==> Key(f, artIdx) in m
    ensures Key(f, artIdx) in m ==> InsertRows(m, rs)[Key(f, artIdx)] == m[Key(f, artIdx)]
    decreases |rs|
  {
    if rs != [] {
      NotInserted(m, rs[..|rs| - 1], f, artIdx);
      assert !IsFor(rs[|rs| - 1], f, artIdx);
    }
  }

  /** What a committed transaction leaves of an article: the last row given for it, if
      the job still has files; else what was stored, unless a verdict deletes it. */
  lemma ApplyBatchRow(s: Store, b: Batch, f: nat, artIdx: int)
    ensures var t, k := ApplyBatch(s, b).rows, Key(f, artIdx);
      && (forall i: nat | LastFor(b.rows, f, artIdx, i) :: s.files != map[] ==> k in t && t[k] == b.rows[i])
      && (s.files == map[] || NoneFor(b.rows, f, artIdx) ==>
            && (k in t <==> k in s.rows && !Named(b.verdicts, f, artIdx))
            && (k in t ==> t[k] == s.rows[k]))
  {
    var kept := map k | k in s.rows && !Deleted(b.verdicts, k) :: s.rows[k];
    var k := Key(f, artIdx);
    assert Deleted(b.verdicts, k) <==> Named(b.verdicts, f, artIdx);
    forall i: nat | LastFor(b.rows, f, artIdx, i)
      ensures k in InsertRows(kept, b.rows) && InsertRows(kept, b.rows)[k] == b.rows[i]
    {
      LastInserted(kept, b.rows, f, artIdx, i);
    }
    if NoneFor(b.rows, f, artIdx) { NotInserted(kept, b.rows, f, artIdx); }
  }

  lemma {:induction false} LastDecisionWins(m: map<nat, FileState>, vs: seq<Verdict>, f: nat, i: nat)
    requires f in m && LastToDecide(vs, f, i)
    ensures CompleteChanges(m, vs)[f].complete == vs[i].setComplete
    decreases |vs|
  {
    if i < |vs| - 1 {
      LastDecisionWins(m, vs[..|vs| - 1], f, i);
      assert !Decides(vs[|vs| - 1], f);
    }
  }

  /** And of a file: the state given for it, else the one stored, with the complete flag
      of the last verdict that decides it; a file without a row gets none. */
  lemma ApplyBatchFile(s: Store, b: Batch, f: nat)
    ensures var t := ApplyBatch(s, b).files;
      && (f in t <==> f in s.files)
      && (f in s.files ==>
            var given := if f in b.files then b.files[f] else s.files[f];
            && t[f].filename == given.filename && t[f].fetchPolicy == given.fetchPolicy && t[f].at == given.at
            && (forall i: nat | LastToDecide(b.verdicts, f, i) :: t[f].complete == b.verdicts[i].setComplete)
            && (NoneDecides(b.verdicts, f) ==> t[f].complete == given.complete))
  {
    if f in s.files {
      var m, vs := UpdateFiles(s.files, b.files), b.verdicts;
      CompleteOnly(m, vs, f);
      forall i: nat | LastToDecide(vs, f, i) ensures CompleteChanges(m, vs)[f].complete == vs[i].setComplete {
        LastDecisionWins(m, vs, f, i);
      }
      if NoneDecides(vs, f) { CompleteUntouched(m, vs, f); }
    }
  }
}

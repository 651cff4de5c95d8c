/**
 The article recorder (internal/app/record.go): the buffered rows, the dirty
 file states and the owed untrust deletes of every job instance.

 What the recorder does to one instance is given by functions on that
 instance's `Slice`; the class below is the in-place code, each method proved
 to act on every instance's slice as those functions say.
 */
module Recorder {
  import opened Wrappers
  import opened RecordStore

  /** What the recorder holds for one instance. An absent entry reads as empty. */
  datatype Slice = Slice(pending: seq<Row>, dirty: map<nat, FileState>, owed: map<nat, nat>)

  /** What one flush took for one instance. */
  datatype Snapshot = Snapshot(rows: seq<Row>, files: map<nat, FileState>, carried: map<nat, nat>)

  const NOTHING := Snapshot([], map[], map[])

  function UntrustVerdict(f: nat): (v: Verdict) { Verdict(f, true, [], true, false) }

  // ---- Filters -----------------------------------------------------------

  function KeepRows(rs: seq<Row>, keep: Row -> bool): (out: seq<Row>) {
    if rs == [] then []
    else
      var last := rs[|rs| - 1];
      KeepRows(rs[..|rs| - 1], keep) + (if keep(last) then [last] else [])
  }

  lemma {:induction false} KeepRowsMembers(rs: seq<Row>, keep: Row -> bool)
    ensures forall r :: r in KeepRows(rs, keep) <==> r in rs && keep(r)
  {
    if rs != [] {
      var init, last := rs[..|rs| - 1], rs[|rs| - 1];
      assert rs == init + [last];
      KeepRowsMembers(init, keep);
    }
  }

  /** Filters that agree on every row give the same list. */
  lemma {:induction false} SameKeep(rs: seq<Row>, p: Row -> bool, q: Row -> bool)
    requires forall r :: p(r) == q(r)
    ensures KeepRows(rs, p) == KeepRows(rs, q)
  {
    if rs != [] {
      SameKeep(rs[..|rs| - 1], p, q);
    }
  }

  /** A filtered list keeps its order. */
  lemma {:induction false} KeepRowsAscending(rs: seq<Row>, keep: Row -> bool)
    requires Ascending(rs)
    ensures Ascending(KeepRows(rs, keep))
  {
    if rs != [] {
      var init, last := rs[..|rs| - 1], rs[|rs| - 1];
      var out := KeepRows(init, keep);
      KeepRowsAscending(init, keep);
      KeepRowsMembers(init, keep);
      forall i | 0 <= i < |out| ensures out[i].at < last.at {
        assert out[i] in init;
        var k :| 0 <= k < |init| && init[k] == out[i];
        assert rs[k].at < rs[|rs| - 1].at;
      }
    }
  }

  // ---- The effect on one instance ----------------------------------------

  function PurgeRows(pending: seq<Row>, v: Verdict): (out: seq<Row>) {
    if v.deleteAll || v.deleteArts != []
    then KeepRows(pending, (r: Row) => !Hits(v, KeyOf(r)))
    else pending
  }

  function PurgeFiles(dirty: map<nat, FileState>, v: Verdict): (out: map<nat, FileState>) {
    if v.deleteAll then dirty - {v.fileIdx}
    else if v.fileIdx in dirty && (v.setComplete || v.clearComplete)
    then dirty[v.fileIdx := dirty[v.fileIdx].(complete := v.setComplete)]
    else dirty
  }

  function Purge(s: Slice, v: Verdict): (t: Slice) {
    s.(pending := PurgeRows(s.pending, v), dirty := PurgeFiles(s.dirty, v))
  }

  function PurgeAll(s: Slice, vs: seq<Verdict>): (t: Slice) {
    if vs == [] then s else Purge(PurgeAll(s, vs[..|vs| - 1]), vs[|vs| - 1])
  }

  /** apply's purge: the verdicts', then the states it replaces. */
  function PurgeForApply(s: Slice, vs: seq<Verdict>, files: map<nat, FileState>): (t: Slice) {
    var p := PurgeAll(s, vs);
    p.(dirty := p.dirty - files.Keys)
  }

  /** untrust's first span: purge the file, then owe its delete under seq. */
  function Disown(s: Slice, f: nat, seq_: nat): (t: Slice) {
    var p := Purge(s, UntrustVerdict(f));
    p.(owed := p.owed[f := seq_])
  }

  function SettleOne(owed: map<nat, nat>, f: nat, seq_: nat): (out: map<nat, nat>) {
    if f in owed && owed[f] == seq_ then owed - {f} else owed
  }

  /** Clears each debt that is still the one the write carried. */
  function SettleAll(owed: map<nat, nat>, carried: map<nat, nat>): (out: map<nat, nat>) {
    map f | f in owed && !(f in carried && carried[f] == owed[f]) :: owed[f]
  }

  function CarriedSeq(carried: map<nat, nat>, f: nat): (n: nat) {
    if f in carried then carried[f] else 0
  }

  /** An untrust of f was recorded since a write carried `carried`. */
  predicate Overrun(owed: map<nat, nat>, carried: map<nat, nat>, f: nat) {
    f in owed && owed[f] > CarriedSeq(carried, f)
  }

  function MergeRows(s: Slice, snap: Snapshot): (out: seq<Row>) {
    KeepRows(snap.rows, (r: Row) => !Overrun(s.owed, snap.carried, r.fileIdx)) + s.pending
  }

  function MergeFiles(s: Slice, snap: Snapshot): (out: map<nat, FileState>) {
    (map f | f in snap.files && !Overrun(s.owed, snap.carried, f) :: snap.files[f]) + s.dirty
  }

  /** A failed snapshot put back. */
  function Remerge(s: Slice, snap: Snapshot): (t: Slice) {
    s.(pending := MergeRows(s, snap), dirty := MergeFiles(s, snap))
  }

  datatype Answer = Unchecked | Gone | Current

  /** What a flush takes of an instance, by the instance check's answer. */
  function TakenFrom(s: Slice, a: Answer): (snap: Snapshot) {
    if a == Current then Snapshot(s.pending, s.dirty, s.owed) else NOTHING
  }

  /** What a flush's take leaves of it. */
  function LeftAfter(s: Slice, a: Answer): (t: Slice) {
    match a
    case Unchecked => s
    case Gone => Slice([], map[], map[])
    case Current => Slice([], map[], s.owed)
  }

  // ---- The batch a flush builds for one instance --------------------------

  lemma {:induction false} LeastExists(s: set<nat>) returns (m: nat)
    requires s != {}
    ensures m in s && forall x | x in s :: m <= x
    decreases |s|
  {
    var a :| a in s;
    var rest := set x | x in s && x < a;
    m := a;
    if rest != {} {
      assert |rest| < |s| by { Smaller(rest, s, a); }
      m := LeastExists(rest);
    }
    forall x | x in s ensures m <= x {
      if x < a { assert x in rest; }
    }
  }

  lemma {:induction false} Smaller(a: set<nat>, b: set<nat>, x: nat)
    requires a <= b && x in b && x !in a
    ensures |a| < |b|
    decreases a
  {
    if a != {} {
      var y :| y in a;
      Smaller(a - {y}, b - {y}, x);
    }
  }

  lemma LeastThere(s: set<nat>)
    requires s != {}
    ensures exists m :: m in s && forall x | x in s :: m <= x
  {
    var _ := LeastExists(s);
  }

  function Least(s: set<nat>): (m: nat)
    requires s != {}
    ensures m in s && forall x | x in s :: m <= x
  {
    LeastThere(s);
    var m :| m in s && forall x | x in s :: m <= x;
    m
  }

  /** One DeleteAll verdict per owed file, in file order; complete is left to a
      file state of the same batch. */
  function OwedVerdicts(todo: set<nat>, files: map<nat, FileState>): (vs: seq<Verdict>)
    decreases |todo|
  {
    if todo == {} then []
    else
      var f := Least(todo);
      [UntrustVerdict(f).(clearComplete := f !in files)] + OwedVerdicts(todo - {f}, files)
  }

  function FlushBatch(snap: Snapshot): (b: Batch) {
    Batch(snap.rows, snap.files, OwedVerdicts(snap.carried.Keys, snap.files))
  }

  /** The verdicts of a flush are exactly its debts. */
  lemma {:induction false} OwedVerdictsExact(todo: set<nat>, files: map<nat, FileState>)
    ensures forall v :: v in OwedVerdicts(todo, files) <==>
      v.fileIdx in todo && v == UntrustVerdict(v.fileIdx).(clearComplete := v.fileIdx !in files)
    decreases |todo|
  {
    if todo != {} {
      var f := Least(todo);
      OwedVerdictsExact(todo - {f}, files);
    }
  }

  lemma FlushDeletes(snap: Snapshot, k: Key)
    ensures Deleted(FlushBatch(snap).verdicts, k) <==> k.fileIdx in snap.carried
  {
    var vs := FlushBatch(snap).verdicts;
    OwedVerdictsExact(snap.carried.Keys, snap.files);
    if k.fileIdx in snap.carried {
      var v := UntrustVerdict(k.fileIdx).(clearComplete := k.fileIdx !in snap.files);
      assert v in vs;
      var i :| 0 <= i < |vs| && vs[i] == v;
      assert Hits(vs[i], k);
    }
    if Deleted(vs, k) {
      var i :| 0 <= i < |vs| && Hits(vs[i], k);
      assert vs[i] in vs;
    }
  }

  /** The job_files row of f after a flush's batch: the batch's state if it has
      one, else f's stored state, its complete flag cleared if f was owed. */
  lemma FlushFileEffect(s: Store, snap: Snapshot, f: nat)
    requires f in s.files
    ensures var t := ApplyBatch(s, FlushBatch(snap));
      && (f in snap.files ==> t.files[f] == snap.files[f])
      && (f !in snap.files && f !in snap.carried ==> t.files[f] == s.files[f])
      && (f !in snap.files && f in snap.carried ==> !t.files[f].complete)
  {
    var b := FlushBatch(snap);
    var m := UpdateFiles(s.files, b.files);
    OwedVerdictsExact(snap.carried.Keys, snap.files);
    if f in snap.files || f !in snap.carried {
      CompleteUntouched(m, b.verdicts, f);
    } else {
      assert UntrustVerdict(f).(clearComplete := true) in b.verdicts;
      CompleteCleared(m, b.verdicts, f);
    }
  }

  /** A flush's batch is never refused by the store. */
  lemma FlushBatchApplicable(snap: Snapshot)
    ensures Applicable(FlushBatch(snap))
  {
    OwedVerdictsExact(snap.carried.Keys, snap.files);
  }
}

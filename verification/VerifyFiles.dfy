/**
 The verification a restart or a retry makes of a job's recorded articles
 (internal/app/verify.go). The filesystem, the CRCs and the context are a `Disk`
 of answers, one per file.
 */
module VerifyFiles {
  import opened RecordStore
  import opened ResolveRows

  datatype Result<T> = Ok(value: T) | Fault

  datatype FetchPolicy = FetchAlways | FetchIfNeeded | FetchNever

  datatype FileRow = FileRow(fileIdx: nat, filename: string, complete: bool, policy: FetchPolicy)

  /** ranges[f] is the half-open article range of file f, bytes[f] its preallocated size. */
  datatype FileTable = FileTable(ranges: seq<(int, int)>, bytes: seq<int>)

  datatype Open = Opened | NotExist | OtherError

  datatype Read = Matches | Differs | ReadError

  /** What the device answers about one file. stopped(r) is the context having ended
      before r is read; finishOk the stat, truncate and fsync of the finish; cut a
      truncate made before a finish failed. */
  datatype Disk = Disk(
    located: bool, dir: Open, file: Open, fsyncOk: bool, cacheOk: bool, stopped: Row -> bool, answer: Row -> Read,
    stoppedAtFinish: bool, finishOk: bool, cut: bool, size: int)

  datatype Readback = Readback(deleteAll: bool, deleted: seq<int>, verified: seq<Row>, failed: seq<int>)

  /** Verdicts is a list with at most one entry per file; here it is keyed by file. */
  datatype VerifyResult = VerifyResult(
    verdicts: map<nat, Verdict>, verified: map<nat, seq<Row>>, failed: map<nat, seq<int>>)

  // ---- rowsByFile ------------------------------------------------------------

  predicate Before(a: Row, b: Row) { a.offset < b.offset || (a.offset == b.offset && a.artIdx <= b.artIdx) }

  function Insert(r: Row, rs: seq<Row>): (out: seq<Row>) {
    if rs == [] then [r]
    else if Before(r, rs[0]) then [r] + rs
    else [rs[0]] + Insert(r, rs[1..])
  }

  function RowsOf(rows: seq<Row>, f: nat): (out: seq<Row>) {
    if rows == [] then []
    else if rows[0].fileIdx == f then Insert(rows[0], RowsOf(rows[1..], f))
    else RowsOf(rows[1..], f)
  }

  predicate Sorted(rs: seq<Row>) { forall i, j :: 0 <= i < j < |rs| ==> Before(rs[i], rs[j]) }

  lemma {:induction false} InsertMembers(r: Row, rs: seq<Row>)
    ensures multiset(Insert(r, rs)) == multiset(rs) + multiset{r}
    ensures forall q :: q in Insert(r, rs) <==> q == r || q in rs
  {
    if rs != [] {
      assert rs == [rs[0]] + rs[1..];
      if !Before(r, rs[0]) { InsertMembers(r, rs[1..]); }
    }
    forall q ensures q in Insert(r, rs) <==> q == r || q in rs {
      assert q in multiset(Insert(r, rs)) <==> q in multiset(rs) || q == r;
    }
  }

  lemma {:induction false} InsertSorted(r: Row, rs: seq<Row>)
    requires Sorted(rs)
    ensures Sorted(Insert(r, rs))
  {
    if rs != [] && !Before(r, rs[0]) {
      InsertSorted(r, rs[1..]);
      InsertMembers(r, rs[1..]);
      var out := Insert(r, rs[1..]);
      forall k | 0 <= k < |out| ensures Before(rs[0], out[k]) {
        assert out[k] in out;
        if out[k] != r {
          var i :| 0 <= i < |rs[1..]| && rs[1..][i] == out[k];
          assert rs[i + 1] == out[k];
        }
      }
    }
  }

  /** A file's rows come in offset order, and are the rows recorded for the file, each
      as often as it is. */
  lemma {:induction false} RowsOfInOrder(rows: seq<Row>, f: nat)
    ensures Sorted(RowsOf(rows, f)) && InOffsetOrder(RowsOf(rows, f))
    ensures var out := RowsOf(rows, f);
      forall i, j :: 0 <= i < j < |out| && out[i].offset == out[j].offset ==> out[i].artIdx <= out[j].artIdx
    ensures forall r :: multiset(RowsOf(rows, f))[r] == if r.fileIdx == f then multiset(rows)[r] else 0
  {
    if rows != [] {
      assert rows == [rows[0]] + rows[1..];
      RowsOfInOrder(rows[1..], f);
      if rows[0].fileIdx == f {
        InsertSorted(rows[0], RowsOf(rows[1..], f));
        InsertMembers(rows[0], RowsOf(rows[1..], f));
      }
    }
  }

  // ---- readBackFile ------------------------------------------------------------

  predicate ValidShape(r: Row) { r.offset >= 0 && r.length >= 0 }

  function Flags(rows: seq<Row>, p: Row -> bool): (flags: seq<bool>)
    ensures |flags| == |rows|
    ensures forall i :: 0 <= i < |rows| ==> flags[i] == p(rows[i])
  {
    seq(|rows|, i requires 0 <= i < |rows| => p(rows[i]))
  }

  const READABLE: Row -> bool := (r: Row) => ValidShape(r) && r.length > 0
  const EMPTY: Row -> bool := (r: Row) => ValidShape(r) && r.length == 0
  const INVALID: Row -> bool := (r: Row) => !ValidShape(r)

  function Where(rows: seq<Row>, p: Row -> bool): (out: seq<Row>) { Select(rows, Flags(rows, p)) }

  lemma WhereStep(rows: seq<Row>, p: Row -> bool, k: nat)
    requires k < |rows|
    ensures Where(rows[..k + 1], p) == Where(rows[..k], p) + (if p(rows[k]) then [rows[k]] else [])
  {
    SelectStep(rows, Flags(rows, p), k);
    assert Flags(rows, p)[..k + 1] == Flags(rows[..k + 1], p) && Flags(rows, p)[..k] == Flags(rows[..k], p);
  }

  lemma {:induction false} WhereMembers(rows: seq<Row>, p: Row -> bool, k: nat)
    requires k <= |rows|
    ensures forall r :: r in Where(rows[..k], p) <==> r in rows[..k] && p(r)
  {
    if k > 0 {
      WhereMembers(rows, p, k - 1);
      WhereStep(rows, p, k - 1);
      assert rows[..k] == rows[..k - 1] + [rows[k - 1]];
    }
  }

  lemma {:induction false} WhereInOrder(rows: seq<Row>, p: Row -> bool, k: nat)
    requires k <= |rows| && InOffsetOrder(rows)
    ensures InOffsetOrder(Where(rows[..k], p))
  {
    if k > 0 {
      WhereInOrder(rows, p, k - 1);
      WhereStep(rows, p, k - 1);
      WhereMembers(rows, p, k - 1);
      var out := Where(rows[..k - 1], p);
      forall i | 0 <= i < |out| ensures out[i].offset <= rows[k - 1].offset {
        assert out[i] in rows[..k - 1];
        var m :| 0 <= m < k - 1 && rows[..k - 1][m] == out[i];
        assert rows[m] == out[i];
      }
    }
  }

  /** How often article x occurs. */
  function Times(as_: seq<int>, x: int): (n: nat) {
    if as_ == [] then 0
    else Times(as_[..|as_| - 1], x) + (if as_[|as_| - 1] == x then 1 else 0)
  }

  function Count(rows: seq<Row>, x: int): (n: nat) { Times(Arts(rows), x) }

  lemma {:induction false} TimesJoin(a: seq<int>, b: seq<int>, x: int)
    ensures Times(a + b, x) == Times(a, x) + Times(b, x)
  {
    if b == [] {
      assert a + b == a;
    } else {
      assert (a + b)[..|a + b| - 1] == a + b[..|b| - 1];
      TimesJoin(a, b[..|b| - 1], x);
    }
  }

  lemma CountSnoc(rows: seq<Row>, r: Row, x: int)
    ensures Count(rows + [r], x) == Count(rows, x) + (if r.artIdx == x then 1 else 0)
  {
    assert Arts(rows + [r])[..|rows|] == Arts(rows);
  }

  lemma CountJoin(a: seq<Row>, b: seq<Row>, x: int)
    ensures Count(a + b, x) == Count(a, x) + Count(b, x)
  {
    assert Arts(a + b) == Arts(a) + Arts(b);
    TimesJoin(Arts(a), Arts(b), x);
  }

  lemma WhereCount(rows: seq<Row>, p: Row -> bool, k: nat, x: int)
    requires k < |rows|
    ensures Count(Where(rows[..k + 1], p), x) ==
      Count(Where(rows[..k], p), x) + (if p(rows[k]) && rows[k].artIdx == x then 1 else 0)
  {
    WhereStep(rows, p, k);
    CountSnoc(Where(rows[..k], p), rows[k], x);
    assert Where(rows[..k], p) + [] == Where(rows[..k], p);
  }

  /** Readable, empty and invalid rows are all the rows. */
  lemma {:induction false} ThreeKinds(rows: seq<Row>, k: nat, x: int)
    requires k <= |rows|
    ensures
      Count(Where(rows[..k], READABLE), x) + Count(Where(rows[..k], EMPTY), x) + Count(Where(rows[..k], INVALID), x)
      == Count(rows[..k], x)
  {
    if k > 0 {
      ThreeKinds(rows, k - 1, x);
      assert rows[..k] == rows[..k - 1] + [rows[k - 1]];
      CountSnoc(rows[..k - 1], rows[k - 1], x);
      WhereCount(rows, READABLE, k - 1, x);
      WhereCount(rows, EMPTY, k - 1, x);
      WhereCount(rows, INVALID, k - 1, x);
    }
  }

  lemma SelectCount(rows: seq<Row>, flags: seq<bool>, x: int)
    requires |flags| == |rows| > 0
    ensures var n := |rows| - 1;
      Count(Select(rows, flags), x) ==
        Count(Select(rows[..n], flags[..n]), x) + (if flags[n] && rows[n].artIdx == x then 1 else 0)
  {
    var n := |rows| - 1;
    CountSnoc(Select(rows[..n], flags[..n]), rows[n], x);
    assert Select(rows[..n], flags[..n]) + [] == Select(rows[..n], flags[..n]);
  }

  lemma {:induction false} KeptOrDropped(rows: seq<Row>, kept: seq<bool>, x: int)
    requires |kept| == |rows|
    ensures Count(Select(rows, kept), x) + Count(Select(rows, Dropped(kept)), x) == Count(rows, x)
  {
    if rows != [] {
      var n := |rows| - 1;
      KeptOrDropped(rows[..n], kept[..n], x);
      var rest := Dropped(kept);
      assert rest[..n] == Dropped(kept[..n]) && rest[n] == !kept[n];
      SelectCount(rows, kept, x);
      SelectCount(rows, rest, x);
      assert rows == rows[..n] + [rows[n]];
      CountSnoc(rows[..n], rows[n], x);
    }
  }

  /** A failed row is a dropped row. */
  lemma {:induction false} HitsAreDropped(rows: seq<Row>, hits: seq<bool>, dropped: seq<bool>, x: int)
    requires |hits| == |rows| == |dropped| && forall i :: 0 <= i < |rows| && hits[i] ==> dropped[i]
    ensures Count(Select(rows, hits), x) <= Count(Select(rows, dropped), x)
  {
    if rows != [] {
      var n := |rows| - 1;
      HitsAreDropped(rows[..n], hits[..n], dropped[..n], x);
      SelectCount(rows, hits, x);
      SelectCount(rows, dropped, x);
    }
  }

  // ---- readBackFile: what it answers, and that the code answers it -----------

  const GOOD_CRC: Row -> bool := (r: Row) => r.crc == 0
  const BAD_CRC: Row -> bool := (r: Row) => r.crc != 0

  ghost function Matched(disk: Disk, valid: seq<Row>): (m: seq<bool>)
    ensures |m| == |valid|
  {
    Flags(valid, (r: Row) => disk.answer(r) == Matches)
  }

  ghost function ReadbackOf(disk: Disk, rows: seq<Row>): (out: Readback) {
    var valid, empty := Where(rows, READABLE), Where(rows, EMPTY);
    var kept := Kept(valid, Matched(disk, valid));
    Readback(false,
             Arts(Select(valid, Dropped(kept))) + Arts(Where(rows, INVALID)) + Arts(Where(empty, BAD_CRC)),
             Select(valid, kept) + Where(empty, GOOD_CRC),
             Arts(Select(valid, Hit(valid, kept))))
  }

  predicate Unreadable(disk: Disk, rows: seq<Row>) {
    exists r :: r in rows && READABLE(r) && (disk.stopped(r) || disk.answer(r) == ReadError)
  }

  /** Absence is definitive only inside a directory that exists, or on a retry. */
  ghost function ReadBackAnswer(disk: Disk, rows: seq<Row>, retry: bool): (a: Result<Readback>) {
    if disk.dir == NotExist && retry then Ok(Readback(true, [], [], []))
    else if disk.dir != Opened then Fault
    else if disk.file == NotExist then Ok(Readback(true, [], [], []))
    else if disk.file != Opened then Fault
    else if !disk.fsyncOk then Ok(Readback(true, [], [], []))
    else if !disk.cacheOk || Unreadable(disk, rows) then Fault
    else Ok(ReadbackOf(disk, rows))
  }

  lemma WhereAll(rows: seq<Row>, p: Row -> bool)
    ensures forall r :: r in Where(rows, p) <==> r in rows && p(r)
    ensures InOffsetOrder(rows) ==> InOffsetOrder(Where(rows, p))
  {
    assert rows[..|rows|] == rows;
    WhereMembers(rows, p, |rows|);
    if InOffsetOrder(rows) { WhereInOrder(rows, p, |rows|); }
  }

  lemma WhereSplit(rows: seq<Row>, p: Row -> bool, q: Row -> bool, x: int)
    requires forall r :: q(r) == !p(r)
    ensures Count(Where(rows, p), x) + Count(Where(rows, q), x) == Count(rows, x)
  {
    KeptOrDropped(rows, Flags(rows, p), x);
    assert Dropped(Flags(rows, p)) == Flags(rows, q);
  }

  /** Each row of a read-back file is in exactly one of verified and deleted, and the
      failed articles are among the deleted. */
  lemma ReadbackPartitions(disk: Disk, rows: seq<Row>, x: int)
    ensures var out := ReadbackOf(disk, rows);
      && Count(out.verified, x) + Times(out.deleted, x) == Count(rows, x)
      && Times(out.failed, x) <= Times(out.deleted, x)
  {
    var out := ReadbackOf(disk, rows);
    var valid, empty, invalid := Where(rows, READABLE), Where(rows, EMPTY), Where(rows, INVALID);
    var kept := Kept(valid, Matched(disk, valid));
    var dropped := Dropped(kept);
    assert rows[..|rows|] == rows;
    ThreeKinds(rows, |rows|, x);
    KeptOrDropped(valid, kept, x);
    HitsAreDropped(valid, Hit(valid, kept), dropped, x);
    WhereSplit(empty, GOOD_CRC, BAD_CRC, x);
    CountJoin(Select(valid, kept), Where(empty, GOOD_CRC), x);
    TimesJoin(Arts(Select(valid, dropped)) + Arts(invalid), Arts(Where(empty, BAD_CRC)), x);
    TimesJoin(Arts(Select(valid, dropped)), Arts(invalid), x);
  }

  /** What is verified was read back and agrees: a row of bytes matched on the
      device and meets no other, an empty row has CRC 0. */
  lemma VerifiedIsSound(disk: Disk, rows: seq<Row>, r: Row)
    requires r in ReadbackOf(disk, rows).verified
    ensures r in rows && ValidShape(r)
    ensures r.length > 0 ==> disk.answer(r) == Matches
    ensures r.length == 0 ==> r.crc == 0
  {
    var valid, empty := Where(rows, READABLE), Where(rows, EMPTY);
    var kept := Kept(valid, Matched(disk, valid));
    WhereAll(rows, READABLE);
    WhereAll(rows, EMPTY);
    WhereAll(empty, GOOD_CRC);
    KeptIsGreedy(valid, Matched(disk, valid));
    SelectMember(valid, kept, r);
    if r in Select(valid, kept) {
      var k :| 0 <= k < |valid| && kept[k] && valid[k] == r;
      assert r in valid;
    }
  }

  /** Which answers of the device give up the whole file, which stop the pass, and which
      leave the rows to be judged one by one. */
  lemma DeviceDecides(disk: Disk, rows: seq<Row>, retry: bool)
    ensures var a := ReadBackAnswer(disk, rows, retry);
      && (a.Ok? && a.value.deleteAll <==>
            || (retry && disk.dir == NotExist)
            || (disk.dir == Opened && disk.file == NotExist)
            || (disk.dir == Opened && disk.file == Opened && !disk.fsyncOk))
      && (a.Fault? <==>
            || (disk.dir == NotExist && !retry) || disk.dir == OtherError
            || (disk.dir == Opened && disk.file == OtherError)
            || (disk.dir == Opened && disk.file == Opened && disk.fsyncOk && !disk.cacheOk)
            || (disk.dir == Opened && disk.file == Opened && disk.fsyncOk
                && exists r :: r in rows && r.offset >= 0 && r.length > 0
                               && (disk.stopped(r) || disk.answer(r) == ReadError)))
  {
    if r :| r in rows && r.offset >= 0 && r.length > 0 && (disk.stopped(r) || disk.answer(r) == ReadError) {
      assert READABLE(r);
    }
    if Unreadable(disk, rows) {
      var r :| r in rows && READABLE(r) && (disk.stopped(r) || disk.answer(r) == ReadError);
      assert r.offset >= 0 && r.length > 0;
    }
  }

  /** A row of bytes that matches, recorded once, whose bytes no other matching row has, is
      verified; at any offset from 0 on. */
  lemma MatchingRowIsVerified(disk: Disk, rows: seq<Row>, r: Row)
    requires multiset(rows)[r] == 1 && r.offset >= 0 && r.length > 0 && disk.answer(r) == Matches
    requires forall q | q in rows && q != r && q.offset >= 0 && q.length > 0 && disk.answer(q) == Matches ::
      !ShareAByte(r, q)
    ensures r in ReadbackOf(disk, rows).verified
  {
    var valid := Where(rows, READABLE);
    WhereAll(rows, READABLE);
    WhereOnce(rows, READABLE, r);
    assert READABLE(r) && multiset(rows)[r] > 0 && r in rows;
    MatchingIsKept(disk, valid, r);
  }

  lemma WhereOnce(rows: seq<Row>, p: Row -> bool, r: Row)
    ensures multiset(Where(rows, p))[r] <= multiset(rows)[r]
  {
    SelectPartitions(rows, Flags(rows, p));
  }

  lemma MatchingIsKept(disk: Disk, valid: seq<Row>, r: Row)
    requires r in valid && multiset(valid)[r] <= 1 && disk.answer(r) == Matches && NonEmpty(valid)
    requires forall q | q in valid && q != r && disk.answer(q) == Matches :: !ShareAByte(r, q)
    ensures r in Select(valid, Kept(valid, Matched(disk, valid)))
  {
    var m := Matched(disk, valid);
    var k :| 0 <= k < |valid| && valid[k] == r;
    forall i | 0 <= i < |valid| && i != k && m[i] ensures !ShareAByte(valid[k], valid[i]) {
      OnlyOnce(valid, k, i);
    }
    LoneMatchIsKept(valid, m, k);
    SelectMember(valid, Kept(valid, m), r);
  }

  lemma OnlyOnce(rows: seq<Row>, k: nat, i: nat)
    requires k < |rows| && i < |rows| && i != k && multiset(rows)[rows[k]] <= 1
    ensures rows[i] != rows[k]
  {
    var lo, hi := if i < k then i else k, if i < k then k else i;
    assert rows == rows[..lo] + [rows[lo]] + rows[lo + 1..hi] + [rows[hi]] + rows[hi + 1..];
  }

  /** A row of no bytes is verified exactly when it is recorded with CRC 0; a row with a
      negative offset or length never is. */
  lemma EmptyAndInvalidRows(disk: Disk, rows: seq<Row>, r: Row)
    requires r in rows
    ensures r.offset >= 0 && r.length == 0 ==> (r in ReadbackOf(disk, rows).verified <==> r.crc == 0)
    ensures r.offset < 0 || r.length < 0 ==> r !in ReadbackOf(disk, rows).verified
    ensures r.offset >= 0 && r.length > 0 && disk.answer(r) != Matches ==> r !in ReadbackOf(disk, rows).verified
  {
    var empty := Where(rows, EMPTY);
    WhereAll(rows, EMPTY);
    WhereAll(empty, GOOD_CRC);
    if r in ReadbackOf(disk, rows).verified { VerifiedIsSound(disk, rows, r); }
    if r.offset >= 0 && r.length == 0 && r.crc == 0 { assert EMPTY(r) && GOOD_CRC(r) && r in Where(empty, GOOD_CRC); }
  }

  method ReadRows(disk: Disk, valid: seq<Row>) returns (m: Result<seq<bool>>)
    requires forall r | r in valid :: READABLE(r)
    ensures m.Fault? <==> Unreadable(disk, valid)
    ensures m.Ok? ==> m.value == Matched(disk, valid)
  {
    var flags := [];
    for k := 0 to |valid|
      invariant flags == Matched(disk, valid)[..k]
      invariant forall i :: 0 <= i < k ==> !disk.stopped(valid[i]) && disk.answer(valid[i]) != ReadError
    {
      if disk.stopped(valid[k]) || disk.answer(valid[k]) == ReadError {
        assert valid[k] in valid;
        return Fault;
      }
      flags := flags + [disk.answer(valid[k]) == Matches];
    }
    return Ok(flags);
  }

  /** The classifying loop. */
  method Classify(rows: seq<Row>) returns (valid: seq<Row>, empty: seq<Row>, invalid: seq<int>)
    ensures valid == Where(rows, READABLE) && empty == Where(rows, EMPTY) && invalid == Arts(Where(rows, INVALID))
  {
    valid, empty, invalid := [], [], [];
    ghost var bad: seq<Row> := [];
    for k := 0 to |rows|
      invariant valid == Where(rows[..k], READABLE) && empty == Where(rows[..k], EMPTY)
      invariant bad == Where(rows[..k], INVALID) && invalid == Arts(bad)
    {
      WhereStep(rows, READABLE, k);
      WhereStep(rows, EMPTY, k);
      WhereStep(rows, INVALID, k);
      var r := rows[k];
      if !ValidShape(r) {
        invalid := invalid + [r.artIdx];
        bad := bad + [r];
      } else if r.length == 0 {
        empty := empty + [r];
      } else {
        valid := valid + [r];
      }
    }
    assert rows[..|rows|] == rows;
  }

  /** The loop over the zero-length rows, judged without a read. */
  method JudgeEmpty(empty: seq<Row>) returns (good: seq<Row>, bad: seq<int>)
    ensures good == Where(empty, GOOD_CRC) && bad == Arts(Where(empty, BAD_CRC))
  {
    good, bad := [], [];
    ghost var dropped: seq<Row> := [];
    for k := 0 to |empty|
      invariant good == Where(empty[..k], GOOD_CRC)
      invariant dropped == Where(empty[..k], BAD_CRC) && bad == Arts(dropped)
    {
      WhereStep(empty, GOOD_CRC, k);
      WhereStep(empty, BAD_CRC, k);
      if empty[k].crc == 0 {
        good := good + [empty[k]];
      } else {
        bad := bad + [empty[k].artIdx];
        dropped := dropped + [empty[k]];
      }
    }
    assert empty[..|empty|] == empty;
  }

  method ReadBackFile(disk: Disk, rows: seq<Row>, retry: bool) returns (a: Result<Readback>)
    requires InOffsetOrder(rows)
    ensures a == ReadBackAnswer(disk, rows, retry)
  {
    if disk.dir != Opened {
      return if retry && disk.dir == NotExist then Ok(Readback(true, [], [], [])) else Fault;
    }
    if disk.file == NotExist {
      return Ok(Readback(true, [], [], []));
    }
    if disk.file != Opened {
      return Fault;
    }
    if !disk.fsyncOk {
      return Ok(Readback(true, [], [], []));
    }
    if !disk.cacheOk {
      return Fault;
    }
    var valid, empty, invalid := Classify(rows);
    WhereAll(rows, READABLE);
    var m := ReadRows(disk, valid);
    assert Unreadable(disk, valid) <==> Unreadable(disk, rows);
    if m.Fault? {
      return Fault;
    }
    assert forall i :: 0 <= i < |valid| ==> valid[i] in valid;
    var verified, failed, deleted := Resolve(valid, m.value);
    var good, bad := JudgeEmpty(empty);
    return Ok(Readback(false, deleted + invalid + bad, verified + good, failed));
  }

  // ---- finishIfResolved --------------------------------------------------------

  /** Every article of a FetchAlways file that has articles is resolved: verified, or,
      when not a retry, failed by an intersection. */
  ghost predicate Finishable(ft: FileTable, f: FileRow, verified: seq<Row>, failed: seq<int>, retry: bool) {
    && f.fileIdx < |ft.ranges|
    && f.policy == FetchAlways && !f.complete
    && ft.ranges[f.fileIdx].0 < ft.ranges[f.fileIdx].1
    && forall i | ft.ranges[f.fileIdx].0 <= i < ft.ranges[f.fileIdx].1 ::
         i in Arts(verified) || (!retry && i in failed)
  }

  method FileFinishable(ft: FileTable, f: FileRow, resolved: set<int>) returns (ok: bool)
    ensures ok <==>
      && f.fileIdx < |ft.ranges| && f.policy == FetchAlways && !f.complete
      && ft.ranges[f.fileIdx].0 < ft.ranges[f.fileIdx].1
      && forall i | ft.ranges[f.fileIdx].0 <= i < ft.ranges[f.fileIdx].1 :: i in resolved
  {
    if f.fileIdx >= |ft.ranges| || f.policy != FetchAlways || f.complete {
      return false;
    }
    var (lo, hi) := ft.ranges[f.fileIdx];
    if hi <= lo {
      return false;
    }
    for i := lo to hi
      invariant forall k | lo <= k < i :: k in resolved
    {
      if i !in resolved {
        return false;
      }
    }
    return true;
  }

  /** The size a finish leaves: only a file at its preallocated size is cut. */
  function Shrunk(size: int, prealloc: int, maxEnd: int): (out: int) {
    if size == prealloc && maxEnd > 0 && size > maxEnd then maxEnd else size
  }

  /** A file is finished when something of it verified and every article is resolved. */
  ghost predicate Wants(ft: FileTable, f: FileRow, out: Readback, retry: bool) {
    !out.deleteAll && out.verified != [] && Finishable(ft, f, out.verified, out.failed, retry)
  }

  predicate Preallocated(ft: FileTable, f: FileRow, disk: Disk) {
    f.fileIdx < |ft.bytes| && disk.size == ft.bytes[f.fileIdx]
  }

  /** A finish cuts only a file at its preallocated size, and cuts no verified byte. */
  ghost predicate KeepsVerified(ft: FileTable, f: FileRow, disk: Disk, out: Readback, retry: bool, size: int) {
    && size <= disk.size
    && (size != disk.size ==> Wants(ft, f, out, retry) && Preallocated(ft, f, disk))
    && (forall r, b | r in out.verified && Covers(r, b) && b < disk.size :: b < size)
  }

  /** A finish that succeeds leaves such a file no byte past the last verified one. */
  ghost predicate Trims(ft: FileTable, f: FileRow, disk: Disk, out: Readback, retry: bool, size: int) {
    Wants(ft, f, out, retry) && Preallocated(ft, f, disk) && (exists r :: r in out.verified && r.length > 0) ==>
      exists r :: r in out.verified && r.length > 0 && size <= r.offset + r.length
  }

  /** Verified rows of bytes have valid shapes, so they end past offset 0. */
  predicate PositiveEnds(rows: seq<Row>) { forall r | r in rows && r.length > 0 :: r.offset + r.length > 0 }

  /** finishIfResolved: whether the file is finished, and its size after. */
  method FinishIfResolved(ft: FileTable, f: FileRow, disk: Disk, out: Readback, retry: bool)
      returns (a: Result<bool>, size: int)
    requires |ft.bytes| == |ft.ranges|
    ensures a == Ok(true) <==> Wants(ft, f, out, retry) && !disk.stoppedAtFinish && disk.finishOk
    ensures a == Fault <==> Wants(ft, f, out, retry) && (disk.stoppedAtFinish || !disk.finishOk)
    ensures KeepsVerified(ft, f, disk, out, retry, size)
    ensures a.Ok? && PositiveEnds(out.verified) ==> Trims(ft, f, disk, out, retry, size)
  {
    size := disk.size;
    if out.deleteAll || out.verified == [] {
      return Ok(false), size;
    }
    var resolved := set i | 0 <= i < |out.verified| :: out.verified[i].artIdx;
    if !retry {
      resolved := resolved + set x | x in out.failed;
    }
    ArtsAsSet(out.verified);
    assert forall i :: i in resolved <==> i in Arts(out.verified) || (!retry && i in out.failed);
    var ok := FileFinishable(ft, f, resolved);
    if !ok {
      return Ok(false), size;
    }
    if disk.stoppedAtFinish {
      return Fault, size;
    }
    var maxEnd := MaxEnd(out.verified);
    if disk.finishOk || disk.cut {
      size := Shrunk(disk.size, ft.bytes[f.fileIdx], maxEnd);
    }
    if !disk.finishOk {
      return Fault, size;
    }
    return Ok(true), size;
  }

  lemma ArtsAsSet(rows: seq<Row>)
    ensures (set i | 0 <= i < |rows| :: rows[i].artIdx) == set x | x in Arts(rows)
  {
    var s := set i | 0 <= i < |rows| :: rows[i].artIdx;
    forall x ensures x in s <==> x in Arts(rows) {
      if x in Arts(rows) {
        var i :| 0 <= i < |rows| && Arts(rows)[i] == x;
        assert rows[i].artIdx in s;
      }
      if x in s {
        var i :| 0 <= i < |rows| && rows[i].artIdx == x;
        assert Arts(rows)[i] == x;
      }
    }
  }

  method MaxEnd(verified: seq<Row>) returns (m: int)
    ensures m >= 0 && forall r | r in verified && r.length > 0 :: r.offset + r.length <= m
    ensures m == 0 || exists r :: r in verified && r.length > 0 && r.offset + r.length == m
  {
    m := 0;
    for i := 0 to |verified|
      invariant m >= 0 && forall r | r in verified[..i] && r.length > 0 :: r.offset + r.length <= m
      invariant m == 0 || exists r :: r in verified && r.length > 0 && r.offset + r.length == m
    {
      var r := verified[i];
      assert verified[..i + 1] == verified[..i] + [r];
      if r.length > 0 && m < r.offset + r.length {
        m := r.offset + r.length;
        assert r in verified;
      }
    }
    assert verified[..|verified|] == verified;
  }

  // ---- verifyJobFiles ------------------------------------------------------------

  predicate DistinctFiles(files: seq<FileRow>) {
    forall i, j :: 0 <= i < j < |files| ==> files[i].fileIdx != files[j].fileIdx
  }

  function NoVerdict(f: nat): (v: Verdict) { Verdict(f, false, [], false, false) }

  function VerdictOf(res: VerifyResult, f: nat): (v: Verdict) {
    if f in res.verdicts then res.verdicts[f] else NoVerdict(f)
  }

  function VerifiedOf(res: VerifyResult, f: nat): (rs: seq<Row>) {
    if f in res.verified then res.verified[f] else []
  }

  function FailedOf(res: VerifyResult, f: nat): (as_: seq<int>) {
    if f in res.failed then res.failed[f] else []
  }

  /** What is established of a file whose rows were read back: it is what the device's
      answers determine; either every row is deleted and nothing else, or each row is in
      exactly one of verified and deleted, the failed articles among the deleted;
      complete is set exactly when something verified and every article is resolved; and
      the file keeps every verified byte, and if finished no byte past the last one. */
  ghost predicate ReadBackEstablishes(ft: FileTable, f: FileRow, rows: seq<Row>, disk: Disk, retry: bool,
                                      v: Verdict, verified: seq<Row>, failed: seq<int>, size: int)
  {
    var out := Readback(v.deleteAll, v.deleteArts, verified, failed);
    && ReadBackAnswer(disk, rows, retry) == Ok(out)
    && v.fileIdx == f.fileIdx && !v.clearComplete
    && (v.deleteAll ==> verified == [] && failed == [] && v.deleteArts == [] && !v.setComplete)
    && (!v.deleteAll ==> Partitioned(disk, rows, out))
    && (v.setComplete <==> verified != [] && Finishable(ft, f, verified, failed, retry))
    && KeepsVerified(ft, f, disk, out, retry, size) && Trims(ft, f, disk, out, retry, size)
  }

  ghost predicate Partitioned(disk: Disk, rows: seq<Row>, out: Readback) {
    && (forall x :: Count(out.verified, x) + Times(out.deleted, x) == Count(rows, x))
    && (forall x :: Times(out.failed, x) <= Times(out.deleted, x))
    && (forall r | r in out.verified :: r in rows && (r.length > 0 ==> disk.answer(r) == Matches))
  }

  /** When a read-back file is set complete: something of it verified, it is to be fetched,
      is not complete and has articles, and each of them is verified or, except on a
      retry, failed by an intersection. */
  lemma CompleteExactlyWhen(ft: FileTable, f: FileRow, rows: seq<Row>, disk: Disk, retry: bool,
                            v: Verdict, verified: seq<Row>, failed: seq<int>, size: int)
    requires ReadBackEstablishes(ft, f, rows, disk, retry, v, verified, failed, size)
    ensures v.setComplete <==>
      && verified != [] && f.policy == FetchAlways && !f.complete && f.fileIdx < |ft.ranges|
      && ft.ranges[f.fileIdx].0 < ft.ranges[f.fileIdx].1
      && forall i | ft.ranges[f.fileIdx].0 <= i < ft.ranges[f.fileIdx].1 ::
           HasArt(verified, i) || (!retry && i in failed)
  {
    forall i: int ensures i in Arts(verified) <==> HasArt(verified, i) { HasArtIs(verified, i); }
  }

  predicate HasArt(rows: seq<Row>, i: int) { exists k :: 0 <= k < |rows| && rows[k].artIdx == i }

  lemma HasArtIs(rows: seq<Row>, i: int)
    ensures i in Arts(rows) <==> HasArt(rows, i)
  {
    if k :| 0 <= k < |rows| && rows[k].artIdx == i { assert Arts(rows)[k] == i; }
    if i in Arts(rows) {
      var k :| 0 <= k < |rows| && Arts(rows)[k] == i;
      assert rows[k].artIdx == i;
    }
  }

  /** What is established of any file, given the size it is left at. */
  ghost predicate Established(ft: FileTable, f: FileRow, rows: seq<Row>, disk: Disk, retry: bool,
                              res: VerifyResult, size: int)
  {
    var v, verified, failed := VerdictOf(res, f.fileIdx), VerifiedOf(res, f.fileIdx), FailedOf(res, f.fileIdx);
    if rows == [] then v == NoVerdict(f.fileIdx) && verified == [] && failed == [] && size == disk.size
    else if f.complete then v == NoVerdict(f.fileIdx) && verified == rows && failed == [] && size == disk.size
    else if f.filename == "" then
      v == NoVerdict(f.fileIdx).(deleteAll := true) && verified == [] && failed == [] && size == disk.size
    else ReadBackEstablishes(ft, f, rows, disk, retry, v, verified, failed, size)
  }

  lemma ReadBackIsPartitioned(rows: seq<Row>, disk: Disk, retry: bool, out: Readback)
    requires ReadBackAnswer(disk, rows, retry) == Ok(out)
    ensures !out.deleteAll ==> Partitioned(disk, rows, out)
    ensures PositiveEnds(out.verified)
  {
    if !out.deleteAll {
      assert out == ReadbackOf(disk, rows);
      forall x: int
        ensures Count(out.verified, x) + Times(out.deleted, x) == Count(rows, x)
        ensures Times(out.failed, x) <= Times(out.deleted, x)
      {
        ReadbackPartitions(disk, rows, x);
      }
      forall r | r in out.verified
        ensures r in rows && ValidShape(r) && (r.length > 0 ==> disk.answer(r) == Matches)
      {
        VerifiedIsSound(disk, rows, r);
      }
    }
  }

  /** The device, the context or the name stops the pass at this file. */
  ghost predicate Faults(ft: FileTable, f: FileRow, rows: seq<Row>, disk: Disk, retry: bool) {
    && rows != [] && !f.complete && f.filename != ""
    && (|| !disk.located
        || ReadBackAnswer(disk, rows, retry).Fault?
        || (Wants(ft, f, ReadBackAnswer(disk, rows, retry).value, retry) && (disk.stoppedAtFinish || !disk.finishOk)))
  }

  /** The size a pass leaves a file at, whether or not it stops there: its own, unless
      it was read back, and then no verified byte is cut. */
  ghost predicate Uncut(ft: FileTable, f: FileRow, rows: seq<Row>, disk: Disk, retry: bool, size: int) {
    if rows == [] || f.complete || f.filename == "" || !disk.located || ReadBackAnswer(disk, rows, retry).Fault?
    then size == disk.size
    else KeepsVerified(ft, f, disk, ReadBackAnswer(disk, rows, retry).value, retry, size)
  }

  /** One file of the pass. */
  method VerifyFile(ft: FileTable, f: FileRow, rows: seq<Row>, disk: Disk, retry: bool)
      returns (a: Result<(Verdict, seq<Row>, seq<int>)>, size: int)
    requires |ft.bytes| == |ft.ranges| && InOffsetOrder(rows) && rows != [] && !f.complete && f.filename != ""
    ensures a.Fault? <==> Faults(ft, f, rows, disk, retry)
    ensures a.Ok? ==> ReadBackEstablishes(ft, f, rows, disk, retry, a.value.0, a.value.1, a.value.2, size)
    ensures Uncut(ft, f, rows, disk, retry, size)
  {
    size := disk.size;
    if !disk.located {
      return Fault, size;
    }
    var back := ReadBackFile(disk, rows, retry);
    if back.Fault? {
      return Fault, size;
    }
    var out := back.value;
    ReadBackIsPartitioned(rows, disk, retry, out);
    var finish;
    finish, size := FinishIfResolved(ft, f, disk, out, retry);
    if finish.Fault? {
      return Fault, size;
    }
    var v := Verdict(f.fileIdx, out.deleteAll, out.deleted, false, finish.value);
    return Ok((v, out.verified, out.failed)), size;
  }

  function Put<T>(m: map<nat, T>, f: nat, keep: bool, t: T): (out: map<nat, T>) { if keep then m[f := t] else m }

  /** Verdicts that say nothing and empty lists are not put in the result. */
  function Added(res: VerifyResult, fi: nat, v: Verdict, verified: seq<Row>, failed: seq<int>): (t: VerifyResult) {
    VerifyResult(Put(res.verdicts, fi, v.deleteAll || v.deleteArts != [] || v.setComplete, v),
                 Put(res.verified, fi, verified != [], verified),
                 Put(res.failed, fi, failed != [], failed))
  }

  lemma AddedReads(res: VerifyResult, fi: nat, v: Verdict, verified: seq<Row>, failed: seq<int>)
    requires Untouched(res, fi) && v.fileIdx == fi && !v.clearComplete
    ensures var t := Added(res, fi, v, verified, failed);
      && VerdictOf(t, fi) == v && VerifiedOf(t, fi) == verified && FailedOf(t, fi) == failed
      && forall g: nat | g != fi :: SameAt(res, t, g)
  {
  }

  /** One turn of the loop over files: what it establishes about f, and that it leaves
      every other file alone. */
  method AddFile(ft: FileTable, f: FileRow, fr: seq<Row>, disk: Disk, retry: bool, before: VerifyResult)
      returns (a: Result<VerifyResult>, size: int)
    requires |ft.bytes| == |ft.ranges| && InOffsetOrder(fr) && Untouched(before, f.fileIdx)
    ensures a.Fault? <==> Faults(ft, f, fr, disk, retry)
    ensures a.Ok? ==> Established(ft, f, fr, disk, retry, a.value, size)
    ensures a.Ok? ==> forall g: nat | g != f.fileIdx :: SameAt(before, a.value, g)
    ensures Uncut(ft, f, fr, disk, retry, size)
  {
    var fi := f.fileIdx;
    var res := before;
    size := disk.size;
    if fr == [] {
    } else if f.complete {
      res := res.(verified := res.verified[fi := fr]);
    } else if f.filename == "" {
      res := res.(verdicts := res.verdicts[fi := Verdict(fi, true, [], false, false)]);
    } else {
      var one;
      one, size := VerifyFile(ft, f, fr, disk, retry);
      if one.Fault? {
        return Fault, size;
      }
      var (v, verified, failed) := one.value;
      res := Added(res, fi, v, verified, failed);
      AddedReads(before, fi, v, verified, failed);
    }
    return Ok(res), size;
  }

  /** The sizes files are left at; a file the pass did not reach keeps its own. */
  function SizeOf(sizes: map<nat, int>, f: nat, disk: Disk): (size: int) {
    if f in sizes then sizes[f] else disk.size
  }

  /** verifyJobFiles: every file is established, or nothing is returned; and no file
      loses a verified byte even when the pass faults. */
  method VerifyJobFiles(ft: FileTable, files: seq<FileRow>, rows: seq<Row>, disks: nat -> Disk, retry: bool)
      returns (a: Result<VerifyResult>, sizes: map<nat, int>)
    requires |ft.bytes| == |ft.ranges| && DistinctFiles(files)
    ensures a.Ok? ==> forall f | f in files ::
      Established(ft, f, RowsOf(rows, f.fileIdx), disks(f.fileIdx), retry, a.value,
                  SizeOf(sizes, f.fileIdx, disks(f.fileIdx)))
    ensures a.Fault? <==> exists f :: f in files && Faults(ft, f, RowsOf(rows, f.fileIdx), disks(f.fileIdx), retry)
    ensures forall f | f in files ::
      Uncut(ft, f, RowsOf(rows, f.fileIdx), disks(f.fileIdx), retry, SizeOf(sizes, f.fileIdx, disks(f.fileIdx)))
  {
    var res := VerifyResult(map[], map[], map[]);
    sizes := map[];
    for i := 0 to |files|
      invariant forall k :: 0 <= k < i ==> At(ft, files[k], rows, disks, retry, res, sizes)
      invariant forall k :: i <= k < |files| ==> Untouched(res, files[k].fileIdx) && files[k].fileIdx !in sizes
      invariant forall k :: 0 <= k < i ==>
        !Faults(ft, files[k], RowsOf(rows, files[k].fileIdx), disks(files[k].fileIdx), retry)
    {
      var f := files[i];
      RowsOfInOrder(rows, f.fileIdx);
      var one, size := AddFile(ft, f, RowsOf(rows, f.fileIdx), disks(f.fileIdx), retry, res);
      ghost var before := sizes;
      sizes := sizes[f.fileIdx := size];
      assert f in files;
      if one.Fault? {
        forall g | g in files
          ensures Uncut(ft, g, RowsOf(rows, g.fileIdx), disks(g.fileIdx), retry,
                        SizeOf(sizes, g.fileIdx, disks(g.fileIdx)))
        {
          var k :| 0 <= k < |files| && files[k] == g;
          if k < i { assert At(ft, files[k], rows, disks, retry, res, before); }
        }
        return Fault, sizes;
      }
      forall k | 0 <= k < |files| && k != i ensures SameAt(res, one.value, files[k].fileIdx) {
        assert files[k].fileIdx != f.fileIdx;
      }
      forall k | 0 <= k < i ensures At(ft, files[k], rows, disks, retry, one.value, sizes) {
        assert At(ft, files[k], rows, disks, retry, res, before);
      }
      res := one.value;
    }
    forall f | f in files ensures At(ft, f, rows, disks, retry, res, sizes) {
      var k :| 0 <= k < |files| && files[k] == f;
    }
    return Ok(res), sizes;
  }

  /** What the pass has done about a file it has been through. */
  ghost predicate At(ft: FileTable, f: FileRow, rows: seq<Row>, disks: nat -> Disk, retry: bool,
                     res: VerifyResult, sizes: map<nat, int>)
  {
    var fr, disk := RowsOf(rows, f.fileIdx), disks(f.fileIdx);
    var size := SizeOf(sizes, f.fileIdx, disk);
    Established(ft, f, fr, disk, retry, res, size) && Uncut(ft, f, fr, disk, retry, size)
  }

  ghost predicate Untouched(res: VerifyResult, f: nat) {
    f !in res.verdicts && f !in res.verified && f !in res.failed
  }

  ghost predicate SameAt(a: VerifyResult, b: VerifyResult, f: nat) {
    && VerdictOf(a, f) == VerdictOf(b, f) && VerifiedOf(a, f) == VerifiedOf(b, f) && FailedOf(a, f) == FailedOf(b, f)
    && (Untouched(a, f) <==> Untouched(b, f))
  }
}

/**
 The greedy resolution of recorded rows that a restart read back
 (resolveRows, internal/app/verify.go). The code tests a row against the kept
 row nearest on each side only; the definitions here test it against every kept
 row, and the method is proved to agree with them.
 */
module ResolveRows {

  import opened RecordStore

  predicate Intersects(a: Row, b: Row) {
    a.offset < b.offset + b.length && b.offset < a.offset + a.length
  }

  /** Byte b of the file is one of r's. */
  predicate Covers(r: Row, b: int) { r.offset <= b < r.offset + r.length }

  ghost predicate ShareAByte(a: Row, b: Row) { exists x :: Covers(a, x) && Covers(b, x) }

  /** Rows of bytes intersect exactly when some byte is in both; rows that touch do not. */
  lemma IntersectsSharesAByte(a: Row, b: Row)
    requires a.length > 0 && b.length > 0
    ensures Intersects(a, b) <==> ShareAByte(a, b)
  {
    if Intersects(a, b) {
      var x := if a.offset < b.offset then b.offset else a.offset;
      assert Covers(a, x) && Covers(b, x);
    }
  }

  predicate InOffsetOrder(rows: seq<Row>) {
    forall i, j :: 0 <= i < j < |rows| ==> rows[i].offset <= rows[j].offset
  }

  predicate NonEmpty(rows: seq<Row>) { forall i :: 0 <= i < |rows| ==> rows[i].length > 0 }

  /** The rows whose flag is set, in order. */
  function Select(rows: seq<Row>, flags: seq<bool>): (out: seq<Row>)
    requires |flags| == |rows|
  {
    if rows == [] then []
    else
      var n := |rows| - 1;
      Select(rows[..n], flags[..n]) + (if flags[n] then [rows[n]] else [])
  }

  function Arts(rows: seq<Row>): (as_: seq<int>)
    ensures |as_| == |rows|
  {
    seq(|rows|, i requires 0 <= i < |rows| => rows[i].artIdx)
  }

  /** The reference: a row is kept when it matches and meets no row kept before it. */
  function Kept(rows: seq<Row>, match_: seq<bool>): (kept: seq<bool>)
    requires |match_| == |rows|
    ensures |kept| == |rows|
  {
    if rows == [] then []
    else
      var n := |rows| - 1;
      var before := Kept(rows[..n], match_[..n]);
      before + [match_[n] && forall i :: 0 <= i < n && before[i] ==> !Intersects(rows[n], rows[i])]
  }

  /** Row k meets some kept row. */
  predicate Meets(rows: seq<Row>, kept: seq<bool>, k: nat)
    requires |kept| == |rows| && k < |rows|
  {
    exists i :: 0 <= i < |rows| && kept[i] && Intersects(rows[k], rows[i])
  }

  function Dropped(kept: seq<bool>): (flags: seq<bool>)
    ensures |flags| == |kept|
  {
    seq(|kept|, k requires 0 <= k < |kept| => !kept[k])
  }

  function Hit(rows: seq<Row>, kept: seq<bool>): (flags: seq<bool>)
    requires |kept| == |rows|
    ensures |flags| == |rows|
  {
    seq(|rows|, k requires 0 <= k < |rows| => !kept[k] && Meets(rows, kept, k))
  }

  // ---- What the reference promises -----------------------------------------

  lemma {:induction false} KeptAt(rows: seq<Row>, match_: seq<bool>, k: nat)
    requires |match_| == |rows| && k < |rows|
    ensures Kept(rows, match_)[k] <==>
      match_[k] && forall i :: 0 <= i < k && Kept(rows, match_)[i] ==> !Intersects(rows[k], rows[i])
    ensures forall i :: 0 <= i < |rows| - 1 ==>
      Kept(rows, match_)[i] == Kept(rows[..|rows| - 1], match_[..|rows| - 1])[i]
  {
    var n := |rows| - 1;
    if k < n {
      KeptAt(rows[..n], match_[..n], k);
    }
  }

  /** The kept rows match and are pairwise disjoint, and every matching row is kept
      or meets a kept row before it. */
  lemma KeptIsGreedy(rows: seq<Row>, match_: seq<bool>)
    requires |match_| == |rows|
    ensures var kept := Kept(rows, match_);
      && (forall k :: 0 <= k < |rows| && kept[k] ==> match_[k])
      && (forall i, j :: 0 <= i < j < |rows| && kept[i] && kept[j] ==> !Intersects(rows[j], rows[i]))
      && (forall k :: 0 <= k < |rows| && match_[k] && !kept[k] ==>
            exists i :: 0 <= i < k && kept[i] && Intersects(rows[k], rows[i]))
  {
    forall k | 0 <= k < |rows|
      ensures Kept(rows, match_)[k] <==>
        match_[k] && forall i :: 0 <= i < k && Kept(rows, match_)[i] ==> !Intersects(rows[k], rows[i])
    {
      KeptAt(rows, match_, k);
    }
  }

  /** Any choice with that rule is the reference's: the resolution is determined. */
  lemma {:induction false} KeptIsUnique(rows: seq<Row>, match_: seq<bool>, kept: seq<bool>, k: nat)
    requires |match_| == |rows| == |kept| && k <= |rows|
    requires forall k :: 0 <= k < |rows| ==>
      (kept[k] <==> match_[k] && forall i :: 0 <= i < k && kept[i] ==> !Intersects(rows[k], rows[i]))
    ensures kept[..k] == Kept(rows, match_)[..k]
  {
    if k > 0 {
      KeptIsUnique(rows, match_, kept, k - 1);
      var ref := Kept(rows, match_);
      KeptAt(rows, match_, k - 1);
      assert forall i :: 0 <= i < k - 1 ==> kept[i] == kept[..k - 1][i] == ref[..k - 1][i] == ref[i];
    }
  }

  /** Kept and dropped rows partition the input. */
  lemma {:induction false} SelectPartitions(rows: seq<Row>, kept: seq<bool>)
    requires |kept| == |rows|
    ensures multiset(Select(rows, kept)) + multiset(Select(rows, Dropped(kept))) == multiset(rows)
  {
    if rows != [] {
      var n := |rows| - 1;
      SelectPartitions(rows[..n], kept[..n]);
      assert rows == rows[..n] + [rows[n]];
      var rest := Dropped(kept);
      assert rest[..n] == Dropped(kept[..n]) && rest[n] == !kept[n];
      SelectSplit(rows, kept);
      SelectSplit(rows, rest);
    }
  }

  lemma SelectSplit(rows: seq<Row>, flags: seq<bool>)
    requires |flags| == |rows| > 0
    ensures var n := |rows| - 1;
      multiset(Select(rows, flags)) ==
        multiset(Select(rows[..n], flags[..n])) + (if flags[n] then multiset{rows[n]} else multiset{})
  {
  }

  lemma {:induction false} SelectMember(rows: seq<Row>, flags: seq<bool>, r: Row)
    requires |flags| == |rows|
    ensures r in Select(rows, flags) <==> exists k :: 0 <= k < |rows| && flags[k] && rows[k] == r
  {
    if rows != [] {
      var n := |rows| - 1;
      SelectMember(rows[..n], flags[..n], r);
      if exists k :: 0 <= k < n && flags[..n][k] && rows[..n][k] == r {
        var k :| 0 <= k < n && flags[..n][k] && rows[..n][k] == r;
        assert flags[k] && rows[k] == r;
      }
      if exists k :: 0 <= k < |rows| && flags[k] && rows[k] == r {
        var k :| 0 <= k < |rows| && flags[k] && rows[k] == r;
        if k < n { assert flags[..n][k] && rows[..n][k] == r; }
      }
    }
  }

  // ---- Nearest neighbours ---------------------------------------------------

  /** How many flags are set below k. */
  function Rank(flags: seq<bool>, k: nat): (n: nat)
    requires k <= |flags|
  {
    if k == 0 then 0 else Rank(flags, k - 1) + (if flags[k - 1] then 1 else 0)
  }

  lemma {:induction false} RankMonotone(flags: seq<bool>, a: nat, b: nat)
    requires a <= b <= |flags|
    ensures Rank(flags, a) <= Rank(flags, b)
  {
    if a < b { RankMonotone(flags, a, b - 1); }
  }

  lemma {:induction false} RankSame(flags: seq<bool>, more: seq<bool>, k: nat)
    requires k <= |flags| <= |more| && forall i :: 0 <= i < k ==> flags[i] == more[i]
    ensures Rank(flags, k) == Rank(more, k)
  {
    if k > 0 { RankSame(flags, more, k - 1); }
  }

  lemma {:induction false} SelectLength(rows: seq<Row>, flags: seq<bool>)
    requires |flags| == |rows|
    ensures |Select(rows, flags)| == Rank(flags, |rows|)
  {
    if rows != [] {
      var n := |rows| - 1;
      SelectLength(rows[..n], flags[..n]);
      RankSame(flags[..n], flags, n);
    }
  }

  /** The selected row of rank r is the flagged row with r flags below it. */
  lemma {:induction false} SelectAt(rows: seq<Row>, flags: seq<bool>, k: nat)
    requires |flags| == |rows| && k < |rows| && flags[k]
    ensures Rank(flags, k) < |Select(rows, flags)| && Select(rows, flags)[Rank(flags, k)] == rows[k]
  {
    var n := |rows| - 1;
    SelectLength(rows[..n], flags[..n]);
    RankSame(flags[..n], flags, n);
    if k < n {
      SelectAt(rows[..n], flags[..n], k);
      RankSame(flags[..n], flags, k);
    }
  }

  /** The nearest flagged row below k, when some flag below k is set. */
  lemma {:induction false} NearestBelow(flags: seq<bool>, k: nat) returns (p: nat)
    requires k <= |flags| && Rank(flags, k) > 0
    ensures p < k && flags[p] && Rank(flags, p) == Rank(flags, k) - 1
    ensures forall i :: p < i < k ==> !flags[i]
  {
    if flags[k - 1] { p := k - 1; } else { p := NearestBelow(flags, k - 1); }
  }

  lemma {:induction false} NearestFrom(flags: seq<bool>, k: nat) returns (q: nat)
    requires k <= |flags| && Rank(flags, k) < Rank(flags, |flags|)
    ensures k <= q < |flags| && flags[q] && Rank(flags, q) == Rank(flags, k)
    ensures forall i :: k <= i < q ==> !flags[i]
    decreases |flags| - k
  {
    if flags[k] { q := k; } else { q := NearestFrom(flags, k + 1); }
  }

  ghost predicate Disjoint(rows: seq<Row>, kept: seq<bool>)
    requires |kept| == |rows|
  {
    forall i, j :: 0 <= i < j < |rows| && kept[i] && kept[j] ==> !Intersects(rows[j], rows[i])
  }

  /** A row meets no kept row below it but the nearest. */
  lemma BelowNearestIsApart(rows: seq<Row>, kept: seq<bool>, k: nat, p: nat, i: nat)
    requires |kept| == |rows| && k < |rows| && InOffsetOrder(rows) && NonEmpty(rows) && Disjoint(rows, kept)
    requires i < p < k && kept[p] && kept[i]
    ensures !Intersects(rows[k], rows[i])
  {
    assert !Intersects(rows[p], rows[i]);
    assert rows[i].offset <= rows[p].offset <= rows[k].offset;
  }

  lemma AboveMeetsNearest(rows: seq<Row>, kept: seq<bool>, k: nat, q: nat, i: nat)
    requires |kept| == |rows| && i < |rows| && InOffsetOrder(rows) && NonEmpty(rows)
    requires k < q <= i && kept[q] && kept[i] && Intersects(rows[k], rows[i])
    ensures Intersects(rows[k], rows[q])
  {
    assert rows[k].offset <= rows[q].offset <= rows[i].offset;
  }

  /** The two-neighbour test of the code decides Meets. */
  lemma TwoNeighboursSuffice(rows: seq<Row>, kept: seq<bool>, k: nat)
    requires |kept| == |rows| && k < |rows| && !kept[k]
    requires InOffsetOrder(rows) && NonEmpty(rows) && Disjoint(rows, kept)
    ensures var v, before := Select(rows, kept), Rank(kept, k);
      && before <= |v|
      && (Meets(rows, kept, k) <==>
            (before > 0 && Intersects(rows[k], v[before - 1])) || (before < |v| && Intersects(rows[k], v[before])))
  {
    var v, before := Select(rows, kept), Rank(kept, k);
    SelectLength(rows, kept);
    RankMonotone(kept, k, |kept|);
    if before > 0 {
      var p := NearestBelow(kept, k);
      SelectAt(rows, kept, p);
      forall i: nat | i < p && kept[i] ensures !Intersects(rows[k], rows[i]) {
        BelowNearestIsApart(rows, kept, k, p, i);
      }
    }
    if before < |v| {
      var q := NearestFrom(kept, k);
      SelectAt(rows, kept, q);
      forall i: nat | k < i < |rows| && kept[i] && Intersects(rows[k], rows[i]) ensures Intersects(rows[k], rows[q]) {
        AboveMeetsNearest(rows, kept, k, q, i);
      }
    }
    NoneBelow(kept, k);
    NoneFrom(kept, k);
  }

  lemma {:induction false} NoneBelow(flags: seq<bool>, k: nat)
    requires k <= |flags|
    ensures Rank(flags, k) == 0 ==> forall i :: 0 <= i < k ==> !flags[i]
  {
    if k > 0 { NoneBelow(flags, k - 1); }
  }

  lemma {:induction false} NoneFrom(flags: seq<bool>, k: nat)
    requires k <= |flags|
    ensures Rank(flags, k) == Rank(flags, |flags|) ==> forall i :: k <= i < |flags| ==> !flags[i]
    decreases |flags| - k
  {
    if k < |flags| {
      NoneFrom(flags, k + 1);
      RankMonotone(flags, k + 1, |flags|);
    }
  }

  // ---- The code --------------------------------------------------------------

  lemma SelectStep(rows: seq<Row>, flags: seq<bool>, k: nat)
    requires |flags| == |rows| && k < |rows|
    ensures Select(rows[..k + 1], flags[..k + 1]) ==
      Select(rows[..k], flags[..k]) + (if flags[k] then [rows[k]] else [])
    ensures Arts(Select(rows[..k + 1], flags[..k + 1])) ==
      Arts(Select(rows[..k], flags[..k])) + (if flags[k] then [rows[k].artIdx] else [])
  {
    assert rows[..k + 1][..k] == rows[..k] && flags[..k + 1][..k] == flags[..k];
  }

  /** Of the kept rows below k only the last can meet row k. */
  lemma LastBelowDecides(rows: seq<Row>, kept: seq<bool>, k: nat)
    requires |kept| == |rows| && k < |rows| && InOffsetOrder(rows) && NonEmpty(rows) && Disjoint(rows, kept)
    ensures var v := Select(rows[..k], kept[..k]);
      (|v| > 0 && Intersects(rows[k], v[|v| - 1])) <==>
        exists i: nat :: i < k && kept[i] && Intersects(rows[k], rows[i])
  {
    var head, flags := rows[..k], kept[..k];
    SelectLength(head, flags);
    NoneBelow(flags, k);
    assert forall i: nat | i < k :: kept[i] == flags[i];
    if Rank(flags, k) > 0 {
      var p := NearestBelow(flags, k);
      SelectAt(head, flags, p);
      forall i: nat | i < p && kept[i] ensures !Intersects(rows[k], rows[i]) {
        BelowNearestIsApart(rows, kept, k, p, i);
      }
    }
  }

  /** The test against the last kept row decides whether row k is kept. */
  lemma LastKeptSuffices(rows: seq<Row>, match_: seq<bool>, k: nat)
    requires |match_| == |rows| && k < |rows| && InOffsetOrder(rows) && NonEmpty(rows)
    ensures var v := Select(rows[..k], Kept(rows, match_)[..k]);
      Kept(rows, match_)[k] <==> match_[k] && !(|v| > 0 && Intersects(rows[k], v[|v| - 1]))
  {
    KeptAt(rows, match_, k);
    KeptIsGreedy(rows, match_);
    LastBelowDecides(rows, Kept(rows, match_), k);
  }

  /** The greedy loop. */
  method KeepRows(rows: seq<Row>, match_: seq<bool>) returns (kept: seq<bool>, verified: seq<Row>)
    requires |match_| == |rows| && InOffsetOrder(rows) && NonEmpty(rows)
    ensures kept == Kept(rows, match_) && verified == Select(rows, kept)
  {
    ghost var ref := Kept(rows, match_);
    kept, verified := [], [];
    for k := 0 to |rows|
      invariant kept == ref[..k] && verified == Select(rows[..k], ref[..k])
    {
      LastKeptSuffices(rows, match_, k);
      SelectStep(rows, ref, k);
      var n := |verified|;
      if !match_[k] || (n > 0 && Intersects(rows[k], verified[n - 1])) {
        kept := kept + [false];
      } else {
        kept := kept + [true];
        verified := verified + [rows[k]];
      }
    }
    assert ref[..|rows|] == ref && rows[..|rows|] == rows;
  }

  // ---- In bytes ----------------------------------------------------------------

  /** The resolution in terms of the bytes of the file: kept rows match and no byte is in
      two of them; a matching row not kept shares a byte with a kept one before it; a
      row is failed exactly when it is not kept and shares a byte with a kept one. */
  lemma ResolvedInBytes(rows: seq<Row>, match_: seq<bool>)
    requires |match_| == |rows| && NonEmpty(rows)
    ensures var kept := Kept(rows, match_);
      var failed := Hit(rows, kept);
      && (forall k :: 0 <= k < |rows| && kept[k] ==> match_[k])
      && (forall i, j :: 0 <= i < j < |rows| && kept[i] && kept[j] ==> !ShareAByte(rows[i], rows[j]))
      && (forall k :: 0 <= k < |rows| && match_[k] && !kept[k] ==>
            exists i :: 0 <= i < k && kept[i] && ShareAByte(rows[k], rows[i]))
      && (forall k :: 0 <= k < |rows| ==>
            (failed[k] <==> !kept[k] && exists i :: 0 <= i < |rows| && kept[i] && ShareAByte(rows[k], rows[i])))
  {
    KeptIsGreedy(rows, match_);
    var kept := Kept(rows, match_);
    forall i, j | 0 <= i < |rows| && 0 <= j < |rows|
      ensures Intersects(rows[j], rows[i]) <==> ShareAByte(rows[j], rows[i])
    {
      IntersectsSharesAByte(rows[j], rows[i]);
    }
    forall k: nat | k < |rows| && match_[k] && !kept[k]
      ensures exists i :: 0 <= i < k && kept[i] && ShareAByte(rows[k], rows[i])
    {
      var i :| 0 <= i < k && kept[i] && Intersects(rows[k], rows[i]);
      assert ShareAByte(rows[k], rows[i]);
    }
    FailedInBytes(rows, kept);
  }

  lemma FailedInBytes(rows: seq<Row>, kept: seq<bool>)
    requires |kept| == |rows| && NonEmpty(rows)
    ensures forall k :: 0 <= k < |rows| ==>
      (Hit(rows, kept)[k] <==> !kept[k] && exists i :: 0 <= i < |rows| && kept[i] && ShareAByte(rows[k], rows[i]))
  {
    forall k: nat | k < |rows|
      ensures Meets(rows, kept, k) <==> exists i :: 0 <= i < |rows| && kept[i] && ShareAByte(rows[k], rows[i])
    {
      if Meets(rows, kept, k) {
        var i :| 0 <= i < |rows| && kept[i] && Intersects(rows[k], rows[i]);
        IntersectsSharesAByte(rows[k], rows[i]);
      }
      if i :| 0 <= i < |rows| && kept[i] && ShareAByte(rows[k], rows[i]) {
        IntersectsSharesAByte(rows[k], rows[i]);
        assert Meets(rows, kept, k);
      }
    }
  }

  /** Row k shares no byte with another row that matches. */
  ghost predicate Lone(rows: seq<Row>, match_: seq<bool>, k: nat)
    requires |match_| == |rows| && k < |rows|
  {
    forall i :: 0 <= i < |rows| && i != k && match_[i] ==> !ShareAByte(rows[k], rows[i])
  }

  /** A matching row whose bytes are in no other matching row is kept. */
  lemma LoneMatchIsKept(rows: seq<Row>, match_: seq<bool>, k: nat)
    requires |match_| == |rows| && NonEmpty(rows) && k < |rows| && match_[k]
    requires Lone(rows, match_, k)
    ensures Kept(rows, match_)[k]
  {
    ResolvedInBytes(rows, match_);
  }

  /** What a caller gets: verified rows matched and no byte is in two of them; a matching
      row whose bytes no other matching row has is verified; and an article is failed
      exactly when some row of it is not kept and shares a byte with a verified row. */
  ghost predicate Resolved(rows: seq<Row>, match_: seq<bool>, verified: seq<Row>, failed: seq<int>)
    requires |match_| == |rows|
  {
    && (forall r | r in verified :: exists k :: 0 <= k < |rows| && match_[k] && rows[k] == r)
    && (forall r, q | r in verified && q in verified && r != q :: !ShareAByte(r, q))
    && (forall k: nat | k < |rows| && match_[k] ::
          Lone(rows, match_, k) ==> rows[k] in verified)
    && (forall x :: x in failed <==>
          exists k: nat :: k < |rows| && Hit(rows, Kept(rows, match_))[k] && rows[k].artIdx == x)
    && (forall k: nat | k < |rows| && Hit(rows, Kept(rows, match_))[k] ::
          exists q :: q in verified && ShareAByte(rows[k], q))
  }

  lemma VerifiedInBytes(rows: seq<Row>, match_: seq<bool>)
    requires |match_| == |rows| && NonEmpty(rows)
    ensures var verified := Select(rows, Kept(rows, match_));
      && (forall r | r in verified :: exists k :: 0 <= k < |rows| && match_[k] && rows[k] == r)
      && (forall r, q | r in verified && q in verified && r != q :: !ShareAByte(r, q))
      && (forall k: nat | k < |rows| && match_[k] ::
            Lone(rows, match_, k) ==> rows[k] in verified)
  {
    var kept := Kept(rows, match_);
    var verified := Select(rows, kept);
    ResolvedInBytes(rows, match_);
    forall r ensures r in verified <==> exists k :: 0 <= k < |rows| && kept[k] && rows[k] == r {
      SelectMember(rows, kept, r);
    }
    forall r, q | r in verified && q in verified && r != q ensures !ShareAByte(r, q) {
      var i :| 0 <= i < |rows| && kept[i] && rows[i] == r;
      var j :| 0 <= j < |rows| && kept[j] && rows[j] == q;
      assert ShareAByte(r, q) <==> ShareAByte(q, r);
    }
    forall k: nat | k < |rows| && match_[k] && Lone(rows, match_, k) ensures rows[k] in verified
    {
      LoneMatchIsKept(rows, match_, k);
    }
  }

  lemma FailedAreHit(rows: seq<Row>, match_: seq<bool>)
    requires |match_| == |rows| && NonEmpty(rows)
    ensures var kept := Kept(rows, match_);
      && (forall x :: x in Arts(Select(rows, Hit(rows, kept))) <==>
            exists k: nat :: k < |rows| && Hit(rows, kept)[k] && rows[k].artIdx == x)
      && (forall k: nat | k < |rows| && Hit(rows, kept)[k] ::
            exists q :: q in Select(rows, kept) && ShareAByte(rows[k], q))
  {
    var kept := Kept(rows, match_);
    var hits := Hit(rows, kept);
    var sel := Select(rows, hits);
    forall x ensures x in Arts(sel) <==> exists k: nat :: k < |rows| && hits[k] && rows[k].artIdx == x {
      if x in Arts(sel) {
        var i :| 0 <= i < |sel| && Arts(sel)[i] == x;
        assert sel[i] in sel;
        SelectMember(rows, hits, sel[i]);
      }
      if k: nat :| k < |rows| && hits[k] && rows[k].artIdx == x {
        SelectMember(rows, hits, rows[k]);
        var i :| 0 <= i < |sel| && sel[i] == rows[k];
        assert Arts(sel)[i] == x;
      }
    }
    FailedInBytes(rows, kept);
    forall k: nat | k < |rows| && hits[k] ensures exists q :: q in Select(rows, kept) && ShareAByte(rows[k], q) {
      var i :| 0 <= i < |rows| && kept[i] && ShareAByte(rows[k], rows[i]);
      SelectMember(rows, kept, rows[i]);
    }
  }

  /** resolveRows: what is kept, what fails, and what is deleted, as the reference says. */
  method Resolve(rows: seq<Row>, match_: seq<bool>)
      returns (verified: seq<Row>, failed: seq<int>, deleted: seq<int>)
    requires |match_| == |rows| && InOffsetOrder(rows) && NonEmpty(rows)
    ensures var kept := Kept(rows, match_);
      && verified == Select(rows, kept)
      && deleted == Arts(Select(rows, Dropped(kept)))
      && failed == Arts(Select(rows, Hit(rows, kept)))
    ensures Resolved(rows, match_, verified, failed)
  {
    var kept;
    kept, verified := KeepRows(rows, match_);
    ghost var dropped, hits := Dropped(kept), Hit(rows, kept);
    KeptIsGreedy(rows, match_);
    SelectLength(rows, kept);
    failed, deleted := [], [];
    var before := 0;
    for k := 0 to |rows|
      invariant before == Rank(kept, k)
      invariant deleted == Arts(Select(rows[..k], dropped[..k]))
      invariant failed == Arts(Select(rows[..k], hits[..k]))
    {
      SelectStep(rows, dropped, k);
      SelectStep(rows, hits, k);
      if kept[k] {
        before := before + 1;
      } else {
        TwoNeighboursSuffice(rows, kept, k);
        var hit := (before > 0 && Intersects(rows[k], verified[before - 1]))
          || (before < |verified| && Intersects(rows[k], verified[before]));
        if hit {
          failed := failed + [rows[k].artIdx];
        }
        deleted := deleted + [rows[k].artIdx];
      }
    }
    assert rows[..|rows|] == rows && dropped[..|rows|] == dropped && hits[..|rows|] == hits;
    VerifiedInBytes(rows, match_);
    FailedAreHit(rows, match_);
  }
}

/**
 Which article owns each written byte range of a file
 (internal/assembler/ranges.go). Offsets are unbounded: an end that overflows
 int64 is the caller's to reject before it gets here.
 */
module OwnedRanges {

  datatype Range = Range(off: int, len: int)

  function End(r: Range): (e: int) { r.off + r.len }

  predicate Intersects(r: Range, s: Range) {
    r.len > 0 && s.len > 0 && r.off < End(s) && s.off < End(r)
  }

  datatype Owned = Owned(r: Range, id: int)

  /** Owner of ranges verified before this process; no article has this index. */
  const SEEDED := -1

  predicate Has(r: Range, b: int) { r.off <= b < End(r) }

  predicate OwnsByte(s: seq<Owned>, b: int) { exists i :: 0 <= i < |s| && Has(s[i].r, b) }

  /** Sorted, pairwise disjoint, none empty. */
  predicate Disjoint(s: seq<Owned>) {
    && (forall i :: 0 <= i < |s| ==> s[i].r.len > 0)
    && (forall i, j :: 0 <= i < j < |s| ==> End(s[i].r) <= s[j].r.off)
  }

  // ---- Counting bytes ------------------------------------------------------------

  predicate Within(lo: int, hi: int, b: int) { lo <= b < hi }

  function Bytes(lo: int, hi: int): (bs: set<int>) { set b | lo <= b < hi && Within(lo, hi, b) }

  lemma {:induction false} IntervalSize(lo: int, hi: int)
    ensures |Bytes(lo, hi)| == if lo < hi then hi - lo else 0
    decreases hi - lo
  {
    if lo < hi {
      IntervalSize(lo, hi - 1);
      assert Bytes(lo, hi) == Bytes(lo, hi - 1) + {hi - 1};
    } else {
      assert Bytes(lo, hi) == {};
    }
  }

  /** The bytes of r that s owns. */
  ghost function CoveredBytes(s: seq<Owned>, r: Range): (bs: set<int>) {
    set b | r.off <= b < End(r) && OwnsByte(s, b)
  }

  function Max(a: int, b: int): (m: int) { if a < b then b else a }
  function Min(a: int, b: int): (m: int) { if a < b then a else b }

  lemma OwnsStep(s: seq<Owned>, i: nat, b: int)
    requires i < |s|
    ensures OwnsByte(s[..i + 1], b) <==> OwnsByte(s[..i], b) || Has(s[i].r, b)
  {
    assert s[..i + 1] == s[..i] + [s[i]];
    if OwnsByte(s[..i], b) {
      var k :| 0 <= k < i && Has(s[..i][k].r, b);
      assert Has(s[..i + 1][k].r, b);
    }
    if Has(s[i].r, b) { assert Has(s[..i + 1][i].r, b); }
    if OwnsByte(s[..i + 1], b) {
      var k :| 0 <= k <= i && Has(s[..i + 1][k].r, b);
      if k < i { assert Has(s[..i][k].r, b); }
    }
  }

  /** One more range adds exactly its overlap with r. */
  lemma CoveredStep(s: seq<Owned>, i: nat, r: Range)
    requires Disjoint(s) && i < |s|
    ensures var lo, hi := Max(s[i].r.off, r.off), Min(End(s[i].r), End(r));
      |CoveredBytes(s[..i + 1], r)| == |CoveredBytes(s[..i], r)| + (if hi > lo then hi - lo else 0)
  {
    var lo, hi := Max(s[i].r.off, r.off), Min(End(s[i].r), End(r));
    var before, overlap := CoveredBytes(s[..i], r), Bytes(lo, hi);
    forall b: int ensures b in CoveredBytes(s[..i + 1], r) <==> b in before || b in overlap {
      OwnsStep(s, i, b);
    }
    assert CoveredBytes(s[..i + 1], r) == before + overlap;
    forall b | b in before ensures b !in overlap {
      var k :| 0 <= k < i && Has(s[..i][k].r, b);
      assert End(s[k].r) <= s[i].r.off;
    }
    assert before !! overlap;
    IntervalSize(lo, hi);
  }

  // ---- Canonical form ------------------------------------------------------------

  /** Disjoint with a gap between neighbours: what a seed leaves. */
  predicate Separated(s: seq<Owned>) {
    && (forall i :: 0 <= i < |s| ==> s[i].r.len > 0 && s[i].id == SEEDED)
    && (forall i, j :: 0 <= i < j < |s| ==> End(s[i].r) < s[j].r.off)
  }

  lemma SeparatedFirst(s: seq<Owned>, t: seq<Owned>)
    requires Separated(s) && Separated(t) && s != [] && t != []
    requires forall b :: OwnsByte(s, b) <==> OwnsByte(t, b)
    ensures s[0] == t[0]
  {
    FirstStart(s, t);
    FirstStart(t, s);
    FirstEnd(s, t);
    FirstEnd(t, s);
  }

  lemma FirstStart(s: seq<Owned>, t: seq<Owned>)
    requires Separated(s) && Separated(t) && s != [] && t != []
    requires forall b :: OwnsByte(s, b) ==> OwnsByte(t, b)
    ensures t[0].r.off <= s[0].r.off
  {
    assert Has(s[0].r, s[0].r.off);
    assert OwnsByte(s, s[0].r.off);
    var k :| 0 <= k < |t| && Has(t[k].r, s[0].r.off);
    if k > 0 { assert End(t[0].r) < t[k].r.off; }
  }

  lemma FirstEnd(s: seq<Owned>, t: seq<Owned>)
    requires Separated(s) && Separated(t) && s != [] && t != [] && s[0].r.off == t[0].r.off
    requires forall b :: OwnsByte(s, b) ==> OwnsByte(t, b)
    ensures End(s[0].r) <= End(t[0].r)
  {
    var b := End(t[0].r);
    forall k | 0 <= k < |t| ensures !Has(t[k].r, b) {
      if k > 0 { assert End(t[0].r) < t[k].r.off; }
    }
    assert Has(s[0].r, b) ==> OwnsByte(s, b);
  }

  lemma OwnsTail(s: seq<Owned>, b: int)
    requires s != [] && Separated(s)
    ensures OwnsByte(s[1..], b) <==> OwnsByte(s, b) && !Has(s[0].r, b)
  {
    if OwnsByte(s[1..], b) {
      var k :| 0 <= k < |s[1..]| && Has(s[1..][k].r, b);
      assert Has(s[k + 1].r, b) && End(s[0].r) < s[k + 1].r.off;
    }
    if OwnsByte(s, b) && !Has(s[0].r, b) {
      var k :| 0 <= k < |s| && Has(s[k].r, b);
      assert Has(s[1..][k - 1].r, b);
    }
  }

  lemma OwnsItsFirstByte(s: seq<Owned>)
    requires Separated(s)
    ensures s != [] ==> OwnsByte(s, s[0].r.off)
  {
    if s != [] { assert Has(s[0].r, s[0].r.off); }
  }

  /** Two seeds that own the same bytes are the same list, so the order in which
      ranges are given to a seed leaves no trace. */
  lemma {:induction false} SeedIsCanonical(s: seq<Owned>, t: seq<Owned>)
    requires Separated(s) && Separated(t)
    requires forall b :: OwnsByte(s, b) <==> OwnsByte(t, b)
    ensures s == t
  {
    OwnsItsFirstByte(s);
    OwnsItsFirstByte(t);
    if s != [] && t != [] {
      SeparatedFirst(s, t);
      forall b ensures OwnsByte(s[1..], b) <==> OwnsByte(t[1..], b) {
        OwnsTail(s, b);
        OwnsTail(t, b);
      }
      SeedIsCanonical(s[1..], t[1..]);
      assert s == [s[0]] + s[1..] && t == [t[0]] + t[1..];
    }
  }

  // ---- The code --------------------------------------------------------------------

  /** sort.Search for the first range that ends after off. */
  method FirstEndingAfter(s: seq<Owned>, off: int) returns (i: nat)
    requires Disjoint(s)
    ensures i <= |s|
    ensures forall k :: 0 <= k < i ==> End(s[k].r) <= off
    ensures forall k :: i <= k < |s| ==> End(s[k].r) > off
  {
    i := 0;
    var j := |s|;
    while i < j
      invariant i <= j <= |s|
      invariant forall k :: 0 <= k < i ==> End(s[k].r) <= off
      invariant forall k :: j <= k < |s| ==> End(s[k].r) > off
    {
      var h := (i + j) / 2;
      if End(s[h].r) > off {
        j := h;
        forall k | h <= k < |s| ensures End(s[k].r) > off {
          if h < k { assert End(s[h].r) <= s[k].r.off; }
        }
      } else {
        forall k | 0 <= k <= h ensures End(s[k].r) <= off {
          if k < h { assert End(s[k].r) <= s[h].r.off; }
        }
        i := h + 1;
      }
    }
  }

  /** Some byte of r is owned. */
  ghost predicate Touches(s: seq<Owned>, r: Range) { exists b :: Has(r, b) && OwnsByte(s, b) }

  lemma IntersectsShareAByte(a: Range, b: Range)
    ensures Intersects(a, b) <==> exists x :: Has(a, x) && Has(b, x)
  {
    if Intersects(a, b) {
      assert Has(a, Max(a.off, b.off)) && Has(b, Max(a.off, b.off));
    }
  }

  /** The owned range at i meets r exactly when they share a byte; none before the
      search's answer does, and none from the first that starts at or after r's end. */
  lemma NoneOutside(s: seq<Owned>, r: Range, lo: nat, hi: nat)
    requires Disjoint(s) && lo <= hi <= |s|
    requires forall k :: 0 <= k < lo ==> End(s[k].r) <= r.off
    requires forall k :: lo <= k < hi ==> !Intersects(s[k].r, r)
    requires hi < |s| ==> End(r) <= s[hi].r.off
    ensures !Touches(s, r)
  {
    forall b, k | Has(r, b) && 0 <= k < |s| ensures !Has(s[k].r, b) {
      if lo <= k < hi {
        IntersectsShareAByte(s[k].r, r);
      } else if hi < k {
        assert End(s[hi].r) <= s[k].r.off;
      }
    }
  }

  /** ownerOf: the owner of an owned range that shares a byte with r, if any does. */
  method OwnerOf(s: seq<Owned>, r: Range) returns (id: int, found: bool)
    requires Disjoint(s)
    ensures found <==> Touches(s, r)
    ensures found ==> exists i :: 0 <= i < |s| && s[i].id == id && Intersects(s[i].r, r)
  {
    var i := FirstEndingAfter(s, r.off);
    ghost var lo := i;
    while i < |s| && s[i].r.off < End(r)
      invariant lo <= i <= |s|
      invariant forall k :: lo <= k < i ==> !Intersects(s[k].r, r)
    {
      if Intersects(s[i].r, r) {
        IntersectsShareAByte(s[i].r, r);
        var x :| Has(s[i].r, x) && Has(r, x);
        assert OwnsByte(s, x);
        return s[i].id, true;
      }
      i := i + 1;
    }
    NoneOutside(s, r, lo, i);
    return 0, false;
  }

  lemma {:induction false} NothingCovered(s: seq<Owned>, r: Range, from: nat, to: nat)
    requires Disjoint(s) && from <= to <= |s|
    requires forall k :: from <= k < to ==> End(s[k].r) <= r.off || End(r) <= s[k].r.off
    ensures |CoveredBytes(s[..from], r)| == |CoveredBytes(s[..to], r)|
  {
    if from < to {
      NothingCovered(s, r, from, to - 1);
      CoveredStep(s, to - 1, r);
    }
  }

  /** covered: exactly how many bytes of r are owned. */
  method Covered(s: seq<Owned>, r: Range) returns (n: int)
    requires Disjoint(s)
    ensures n == |CoveredBytes(s, r)|
  {
    var i := FirstEndingAfter(s, r.off);
    n := 0;
    assert CoveredBytes(s[..0], r) == {};
    NothingCovered(s, r, 0, i);
    while i < |s| && s[i].r.off < End(r)
      invariant i <= |s| && n == |CoveredBytes(s[..i], r)|
    {
      CoveredStep(s, i, r);
      var lo, hi := Max(s[i].r.off, r.off), Min(End(s[i].r), End(r));
      if hi > lo {
        n := n + (hi - lo);
      }
      i := i + 1;
    }
    forall k | i <= k < |s| ensures End(r) <= s[k].r.off {
      if i < k { assert End(s[i].r) <= s[k].r.off; }
    }
    NothingCovered(s, r, i, |s|);
    assert s[..|s|] == s;
  }

  /** maxEnd: the largest owned end, or 0. */
  method MaxEnd(s: seq<Owned>) returns (m: int)
    requires Disjoint(s)
    ensures s == [] ==> m == 0
    ensures s != [] ==> (forall i :: 0 <= i < |s| ==> End(s[i].r) <= m) && exists i :: 0 <= i < |s| && End(s[i].r) == m
  {
    if s == [] {
      return 0;
    }
    var n := |s| - 1;
    forall i | 0 <= i < |s| ensures End(s[i].r) <= End(s[n].r) {
      if i < n { assert End(s[i].r) <= s[n].r.off; }
    }
    return End(s[n].r);
  }

  lemma OwnsInserted(s: seq<Owned>, lo: nat, e: Owned, b: int)
    requires lo <= |s|
    ensures OwnsByte(s[..lo] + [e] + s[lo..], b) <==> OwnsByte(s, b) || Has(e.r, b)
  {
    var t := s[..lo] + [e] + s[lo..];
    if OwnsByte(s, b) {
      var k :| 0 <= k < |s| && Has(s[k].r, b);
      assert Has(t[if k < lo then k else k + 1].r, b);
    }
    if Has(e.r, b) { assert Has(t[lo].r, b); }
    if OwnsByte(t, b) {
      var k :| 0 <= k < |t| && Has(t[k].r, b);
      if k != lo { assert Has(s[if k < lo then k else k - 1].r, b); }
    }
  }

  lemma InsertedIsDisjoint(s: seq<Owned>, lo: nat, e: Owned)
    requires Disjoint(s) && lo <= |s| && e.r.len > 0
    requires forall k :: 0 <= k < lo ==> End(s[k].r) <= e.r.off
    requires lo < |s| ==> End(e.r) <= s[lo].r.off
    ensures Disjoint(s[..lo] + [e] + s[lo..])
  {
    forall k | lo <= k < |s| ensures End(e.r) <= s[k].r.off {
      if lo < k { assert End(s[lo].r) <= s[k].r.off; }
    }
  }

  /** Inserting where the search stopped keeps the set sorted and disjoint. */
  lemma InsertedKeeps(s: seq<Owned>, lo: nat, e: Owned)
    requires Disjoint(s) && lo <= |s| && e.r.len > 0
    requires forall k :: 0 <= k < lo ==> End(s[k].r) <= e.r.off
    requires lo < |s| ==> End(e.r) <= s[lo].r.off
    ensures Disjoint(s[..lo] + [e] + s[lo..])
    ensures forall b :: OwnsByte(s[..lo] + [e] + s[lo..], b) <==> OwnsByte(s, b) || Has(e.r, b)
    ensures forall x :: x in s[..lo] + [e] + s[lo..] <==> x == e || x in s
  {
    InsertedIsDisjoint(s, lo, e);
    forall b: int ensures OwnsByte(s[..lo] + [e] + s[lo..], b) <==> OwnsByte(s, b) || Has(e.r, b) {
      OwnsInserted(s, lo, e, b);
    }
    assert s == s[..lo] + s[lo..];
  }

  class Ranges {
    var s: seq<Owned>

    ghost predicate Valid()
      reads this
    {
      Disjoint(s)
    }

    constructor ()
      ensures Valid() && s == []
    {
      s := [];
    }

    /** claim: panics, changing nothing, exactly when some byte of r is owned. */
    method Claim(r: Range, id: int) returns (panics: bool)
      requires Valid()
      modifies this
      ensures Valid()
      ensures panics <==> old(Touches(s, r))
      ensures panics ==> s == old(s)
      ensures !panics ==> forall b :: OwnsByte(s, b) <==> OwnsByte(old(s), b) || Has(r, b)
      ensures forall e :: e in old(s) ==> e in s
      ensures forall e :: e in s ==> e in old(s) || (e == Owned(r, id) && r.len > 0 && !panics)
    {
      if r.len <= 0 {
        return false;
      }
      var lo := FirstEndingAfter(s, r.off);
      if lo < |s| && s[lo].r.off < End(r) {
        IntersectsShareAByte(s[lo].r, r);
        var x :| Has(s[lo].r, x) && Has(r, x);
        assert OwnsByte(s, x);
        return true;
      }
      NoneOutside(s, r, lo, lo);
      ghost var before := s;
      s := s[..lo] + [Owned(r, id)] + s[lo..];
      InsertedKeeps(before, lo, Owned(r, id));
      return false;
    }

    /** seed: refused on a non-empty set; otherwise owns exactly the bytes given. */
    method Seed(rs: seq<Range>) returns (ok: bool)
      requires Valid()
      modifies this
      ensures Valid() && ok == (old(s) == [])
      ensures !ok ==> s == old(s)
      ensures ok ==> Separated(s) && forall b :: OwnsByte(s, b) <==> InSome(rs, b)
    {
      if s != [] {
        return false;
      }
      var sorted := SortRanges(rs);
      for i := 0 to |sorted|
        invariant Separated(s) && Behind(s, sorted, i)
        invariant forall b :: OwnsByte(s, b) <==> InSome(sorted[..i], b)
      {
        ghost var before := s;
        var r := sorted[i];
        var n := |s|;
        if n > 0 && r.off <= End(s[n - 1].r) {
          var e := End(r);
          if e > End(s[n - 1].r) {
            s := s[n - 1 := Owned(Range(s[n - 1].r.off, e - s[n - 1].r.off), SEEDED)];
          }
        } else {
          s := s + [Owned(r, SEEDED)];
        }
        assert s == MergedWith(before, r);
        MergeStep(before, sorted, i);
      }
      assert sorted[..|sorted|] == sorted;
      return true;
    }
  }

  // ---- Seed's merge ------------------------------------------------------------------

  predicate InSome(rs: seq<Range>, b: int) { exists i :: 0 <= i < |rs| && Has(rs[i], b) }

  predicate ByOffset(rs: seq<Range>) { forall i, j :: 0 <= i < j < |rs| ==> rs[i].off <= rs[j].off }

  /** The last owned range starts no later than any range still to come. */
  predicate Behind(s: seq<Owned>, sorted: seq<Range>, i: nat)
    requires i <= |sorted|
  {
    forall k, m :: 0 <= k < |s| && i <= m < |sorted| ==> s[k].r.off <= sorted[m].off
  }

  function InsertRange(r: Range, rs: seq<Range>): (out: seq<Range>) {
    if rs == [] || r.off <= rs[0].off then [r] + rs else [rs[0]] + InsertRange(r, rs[1..])
  }

  lemma {:induction false} InsertRangeKeeps(r: Range, rs: seq<Range>)
    ensures forall q :: q in InsertRange(r, rs) <==> q == r || q in rs
    ensures ByOffset(rs) ==> ByOffset(InsertRange(r, rs))
  {
    if rs != [] {
      assert rs == [rs[0]] + rs[1..];
      if r.off > rs[0].off {
        InsertRangeKeeps(r, rs[1..]);
        var out := InsertRange(r, rs[1..]);
        if ByOffset(rs) {
          forall k | 0 <= k < |out| ensures rs[0].off <= out[k].off {
            assert out[k] in out;
            if out[k] != r {
              var m :| 0 <= m < |rs[1..]| && rs[1..][m] == out[k];
              assert rs[m + 1] == out[k];
            }
          }
        }
      }
    }
  }

  /** The non-empty ranges, by offset. */
  method SortRanges(rs: seq<Range>) returns (out: seq<Range>)
    ensures ByOffset(out) && forall r | r in out :: r.len > 0
    ensures forall b :: InSome(out, b) <==> InSome(rs, b)
  {
    out := [];
    for i := 0 to |rs|
      invariant ByOffset(out)
      invariant forall r :: r in out <==> r in rs[..i] && r.len > 0
    {
      assert rs[..i + 1] == rs[..i] + [rs[i]];
      if rs[i].len > 0 {
        InsertRangeKeeps(rs[i], out);
        out := InsertRange(rs[i], out);
      }
    }
    assert rs[..|rs|] == rs;
    forall b: int ensures InSome(out, b) <==> InSome(rs, b) {
      if InSome(out, b) {
        var i :| 0 <= i < |out| && Has(out[i], b);
        assert out[i] in rs;
        var k :| 0 <= k < |rs| && rs[k] == out[i];
        assert Has(rs[k], b);
      }
      if InSome(rs, b) {
        var k :| 0 <= k < |rs| && Has(rs[k], b);
        assert rs[k] in out;
        var i :| 0 <= i < |out| && out[i] == rs[k];
        assert Has(out[i], b);
      }
    }
  }

  lemma InSomeStep(rs: seq<Range>, i: nat, b: int)
    requires i < |rs|
    ensures InSome(rs[..i + 1], b) <==> InSome(rs[..i], b) || Has(rs[i], b)
  {
    assert rs[..i + 1] == rs[..i] + [rs[i]];
    if InSome(rs[..i], b) {
      var k :| 0 <= k < i && Has(rs[..i][k], b);
      assert Has(rs[..i + 1][k], b);
    }
    if Has(rs[i], b) { assert Has(rs[..i + 1][i], b); }
    if InSome(rs[..i + 1], b) {
      var k :| 0 <= k <= i && Has(rs[..i + 1][k], b);
      if k < i { assert Has(rs[..i][k], b); }
    }
  }

  /** Merging in the next range by offset keeps the form and adds exactly its bytes. */
  lemma MergeStep(s: seq<Owned>, sorted: seq<Range>, i: nat)
    requires i < |sorted| && ByOffset(sorted) && sorted[i].len > 0 && Separated(s) && Behind(s, sorted, i)
    requires forall b :: OwnsByte(s, b) <==> InSome(sorted[..i], b)
    ensures var t := MergedWith(s, sorted[i]);
      Separated(t) && Behind(t, sorted, i + 1) && forall b :: OwnsByte(t, b) <==> InSome(sorted[..i + 1], b)
  {
    MergeKeepsForm(s, sorted, i);
    forall b: int ensures OwnsByte(MergedWith(s, sorted[i]), b) <==> InSome(sorted[..i + 1], b) {
      InSomeStep(sorted, i, b);
      MergedOwns(s, sorted, i, b);
    }
  }

  lemma MergeKeepsForm(s: seq<Owned>, sorted: seq<Range>, i: nat)
    requires i < |sorted| && ByOffset(sorted) && sorted[i].len > 0 && Separated(s) && Behind(s, sorted, i)
    ensures Separated(MergedWith(s, sorted[i])) && Behind(MergedWith(s, sorted[i]), sorted, i + 1)
  {
    var t := MergedWith(s, sorted[i]);
    assert forall k | 0 <= k < |s| - 1 :: t[k] == s[k];
  }

  /** r appended, the last range extended over it, or a last range that covers it. */
  function MergedWith(s: seq<Owned>, r: Range): (t: seq<Owned>) {
    var n := |s|;
    if n > 0 && r.off <= End(s[n - 1].r)
    then
      if End(r) > End(s[n - 1].r) then s[n - 1 := Owned(Range(s[n - 1].r.off, End(r) - s[n - 1].r.off), SEEDED)] else s
    else s + [Owned(r, SEEDED)]
  }

  lemma MergedOwns(s: seq<Owned>, sorted: seq<Range>, i: nat, b: int)
    requires i < |sorted| && Behind(s, sorted, i)
    ensures OwnsByte(MergedWith(s, sorted[i]), b) <==> OwnsByte(s, b) || Has(sorted[i], b)
  {
    var n, r, t := |s|, sorted[i], MergedWith(s, sorted[i]);
    if t == s + [Owned(r, SEEDED)] {
      OwnsInserted(s, n, Owned(r, SEEDED), b);
      assert s[..n] + [Owned(r, SEEDED)] + s[n..] == t;
    } else {
      if OwnsByte(s, b) {
        var k :| 0 <= k < n && Has(s[k].r, b);
        assert Has(t[k].r, b);
      }
      if Has(r, b) { assert Has(t[n - 1].r, b); }
      if OwnsByte(t, b) {
        var k :| 0 <= k < n && Has(t[k].r, b);
        assert k < n - 1 ==> s[k] == t[k];
        assert Has(s[k].r, b) || Has(r, b);
      }
    }
  }
}

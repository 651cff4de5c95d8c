/**
 A file writer's accounting (internal/assembler/filewriter.go): the articles
 accepted and failed, the cached part count, and the ranges accepted articles
 own; with the assembler's one path through them (handleSuccessArticle,
 acceptArticle and handleFatalArticle, internal/assembler/assembler.go).
 */
module FileWriter {
  import opened Wrappers
  import opened OwnedRanges

  datatype Disposition = Written | Rejected | FetchFailed | RolledBack

  /** seenDone, seenFailed and partsWritten. */
  datatype Account = Account(done: set<nat>, failed: set<nat>, parts: int)

  function Admit(a: Account, art: nat): (out: (Account, bool)) {
    if art in a.done then (a, false)
    else (a.(done := a.done + {art}, parts := if art in a.failed then a.parts else a.parts + 1), true)
  }

  /** None is the panic: a disposition of an article that was not admitted. */
  function Resolve(a: Account, art: nat, d: Disposition): (out: Option<Account>) {
    if d != FetchFailed && art !in a.done then None
    else match d
      case Written => Some(a)
      case Rejected => Some(a.(done := a.done - {art}, failed := a.failed + {art}))
      case FetchFailed =>
        Some(a.(failed := a.failed + {art},
                parts := if art in a.done || art in a.failed then a.parts else a.parts + 1))
      case RolledBack =>
        Some(a.(done := a.done - {art}, parts := if art in a.failed then a.parts else a.parts - 1))
  }

  predicate CountsUnion(a: Account) { a.parts == |a.done + a.failed| }

  datatype Op = AdmitOp(art: nat) | ResolveOp(art: nat, d: Disposition)

  function Do(a: Account, op: Op): (b: Account) {
    match op
    case AdmitOp(art) => Admit(a, art).0
    case ResolveOp(art, d) => if Resolve(a, art, d).Some? then Resolve(a, art, d).value else a
  }

  function Run(a: Account, ops: seq<Op>): (b: Account)
    decreases |ops|
  {
    if ops == [] then a else Run(Do(a, ops[0]), ops[1..])
  }

  lemma AdmitCounts(a: Account, art: nat)
    requires CountsUnion(a)
    ensures CountsUnion(Admit(a, art).0)
  {
    var b := Admit(a, art).0;
    if art !in a.done {
      if art in a.failed {
        assert b.done + b.failed == a.done + a.failed;
      } else {
        assert b.done + b.failed == a.done + a.failed + {art};
      }
    }
  }

  lemma ResolveCounts(a: Account, art: nat, d: Disposition)
    requires CountsUnion(a) && Resolve(a, art, d).Some?
    ensures CountsUnion(Resolve(a, art, d).value)
  {
    var b := Resolve(a, art, d).value;
    match d {
      case Written =>
      case Rejected => assert b.done + b.failed == a.done + a.failed;
      case FetchFailed =>
        if art in a.done || art in a.failed {
          assert b.done + b.failed == a.done + a.failed;
        } else {
          assert b.done + b.failed == a.done + a.failed + {art};
        }
      case RolledBack =>
        if art in a.failed {
          assert b.done + b.failed == a.done + a.failed;
        } else {
          assert b.done + b.failed == a.done + a.failed - {art};
        }
    }
  }

  /** Over every sequence of admissions and resolutions, the count is the number of
      articles accepted, failed, or both. */
  lemma {:induction false} PartsIsTheSizeOfTheUnion(a: Account, ops: seq<Op>)
    requires CountsUnion(a)
    ensures CountsUnion(Run(a, ops))
    decreases |ops|
  {
    if ops != [] {
      match ops[0] {
        case AdmitOp(art) => AdmitCounts(a, art);
        case ResolveOp(art, d) => if Resolve(a, art, d).Some? { ResolveCounts(a, art, d); }
      }
      PartsIsTheSizeOfTheUnion(Do(a, ops[0]), ops[1..]);
    }
  }

  /** A rolled-back admission leaves no trace. */
  lemma RollbackRestores(a: Account, art: nat)
    requires Admit(a, art).1
    ensures Resolve(Admit(a, art).0, art, RolledBack) == Some(a)
  {
    assert a.done + {art} - {art} == a.done;
  }

  /** A second disposition of a rejected or rolled-back article panics. */
  lemma ResolvedOnce(a: Account, art: nat, d: Disposition, e: Disposition)
    requires d == Rejected || d == RolledBack
    requires Resolve(a, art, d).Some? && e != FetchFailed
    ensures Resolve(Resolve(a, art, d).value, art, e) == None
  {
  }

  // ---- The writer ------------------------------------------------------------------

  datatype Outcome =
    | Duplicate
    | Wrote
    | OutOfRange
    | Overlaps(uncovered: int)  // refused, with the bytes no other article covers
    | Faulted

  class Writer {
    var seenDone: set<nat>
    var seenFailed: set<nat>
    var partsWritten: int
    const owned: Ranges

    ghost function Acct(): (a: Account)
      reads this
    {
      Account(seenDone, seenFailed, partsWritten)
    }

    /** The count is the union's size, and every range not seeded belongs to an
        accepted article. */
    ghost predicate Valid()
      reads this, owned
    {
      && owned.Valid() && CountsUnion(Acct())
      && (forall e | e in owned.s :: e.id == SEEDED || e.id in seenDone)
    }

    constructor (ranges: Ranges)
      requires ranges.Valid() && forall e | e in ranges.s :: e.id == SEEDED
      ensures Valid() && owned == ranges && Acct() == Account({}, {}, 0)
    {
      seenDone, seenFailed, partsWritten, owned := {}, {}, 0, ranges;
    }

    method AdmitArticle(art: nat) returns (ok: bool)
      modifies this`seenDone, this`partsWritten
      ensures (Acct(), ok) == Admit(old(Acct()), art)
    {
      if art in seenDone {
        return false;
      }
      if art !in seenFailed {
        partsWritten := partsWritten + 1;
      }
      seenDone := seenDone + {art};
      return true;
    }

    method ResolveArticle(art: nat, d: Disposition) returns (panics: bool)
      modifies this`seenDone, this`seenFailed, this`partsWritten
      ensures panics <==> Resolve(old(Acct()), art, d).None?
      ensures panics ==> Acct() == old(Acct())
      ensures !panics ==> Resolve(old(Acct()), art, d) == Some(Acct())
    {
      var wasDone, wasFailed := art in seenDone, art in seenFailed;
      if d != FetchFailed && !wasDone {
        return true;
      }
      match d {
        case Written =>
        case Rejected =>
          seenDone := seenDone - {art};
          seenFailed := seenFailed + {art};
        case FetchFailed =>
          if !wasDone && !wasFailed {
            partsWritten := partsWritten + 1;
          }
          seenFailed := seenFailed + {art};
        case RolledBack =>
          seenDone := seenDone - {art};
          if !wasFailed {
            partsWritten := partsWritten - 1;
          }
      }
      return false;
    }

    /** acceptArticle: the disposition, and the range claimed by a write that landed.
        The claim never meets an owned range. */
    method AcceptArticle(art: nat, r: Range, inRange: bool, writeOk: bool) returns (o: Outcome)
      requires owned.Valid()
      modifies owned
      ensures owned.Valid() && !o.Duplicate?
      ensures o.OutOfRange? <==> !inRange
      ensures o.Overlaps? <==> inRange && old(Touches(owned.s, r))
      ensures o.Overlaps? ==> o.uncovered == r.len - |CoveredBytes(old(owned.s), r)|
      ensures o.Faulted? <==> inRange && !old(Touches(owned.s, r)) && !writeOk
      ensures !o.Wrote? ==> owned.s == old(owned.s)
      ensures o.Wrote? ==> forall b :: OwnsByte(owned.s, b) <==> OwnsByte(old(owned.s), b) || Has(r, b)
      ensures forall e :: e in owned.s ==> e in old(owned.s) || (o.Wrote? && e.id == art)
    {
      if !inRange {
        return OutOfRange;
      }
      var _, settled := OwnerOf(owned.s, r);
      if settled {
        var n := Covered(owned.s, r);
        return Overlaps(r.len - n);
      }
      if !writeOk {
        return Faulted;
      }
      var panics := owned.Claim(r, art);
      assert !panics;
      return Wrote;
    }

    /** handleSuccessArticle: one admission, one outcome, one resolution. */
    method HandleSuccess(art: nat, r: Range, inRange: bool, writeOk: bool) returns (o: Outcome)
      requires Valid()
      modifies this, owned
      ensures Valid()
      ensures o.Duplicate? <==> art in old(seenDone)
      ensures !o.Duplicate? ==>
        && (o.OutOfRange? <==> !inRange)
        && (o.Overlaps? <==> inRange && old(Touches(owned.s, r)))
        && (o.Faulted? <==> inRange && !old(Touches(owned.s, r)) && !writeOk)
      ensures o.Duplicate? || o.Faulted? ==> Acct() == old(Acct()) && owned.s == old(owned.s)
      ensures o.Wrote? ==> seenDone == old(seenDone) + {art} && seenFailed == old(seenFailed)
      ensures o.OutOfRange? || o.Overlaps? ==>
        seenFailed == old(seenFailed) + {art} && seenDone == old(seenDone) && owned.s == old(owned.s)
      ensures o.Overlaps? ==> o.uncovered == r.len - |CoveredBytes(old(owned.s), r)|
      ensures o.Wrote? ==> forall b :: OwnsByte(owned.s, b) <==> OwnsByte(old(owned.s), b) || Has(r, b)
      ensures o.Wrote? ==> !old(Touches(owned.s, r))
    {
      ghost var before := Acct();
      var ok := AdmitArticle(art);
      if !ok {
        return Duplicate;
      }
      AdmitCounts(before, art);
      o := AcceptArticle(art, r, inRange, writeOk);
      var d := match o case Wrote => Written case Faulted => RolledBack case _ => Rejected;
      ghost var admitted := Acct();
      var panics := ResolveArticle(art, d);
      assert !panics;
      ResolveCounts(admitted, art, d);
      RollbackRestores(before, art);
      assert before.done + {art} - {art} == before.done;
    }

    /** handleFatalArticle: a failed fetch charges a part only if none is held. */
    method HandleFatal(art: nat)
      requires Valid()
      modifies this
      ensures Valid() && seenDone == old(seenDone) && seenFailed == old(seenFailed) + {art}
      ensures partsWritten == old(partsWritten) + (if art in old(seenDone) + old(seenFailed) then 0 else 1)
    {
      ghost var before := Acct();
      var panics := ResolveArticle(art, FetchFailed);
      assert !panics;
      ResolveCounts(before, art, FetchFailed);
    }
  }
}

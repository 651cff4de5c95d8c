/**
 What every call on an instance's admission answers, told from the history of calls
 alone (internal/app/postproc_admission.go): which outcome an offered reason gets, and
 what beginHandOver and closeAndTakeNotes give their callers.
 */
module AdmissionAnswers {
  import opened Wrappers
  import opened Admissions
  import opened AdmissionRuns

  // ---- What a log says ---------------------------------------------------------

  predicate SealedIn(log: seq<Event>) { exists e :: e in log && e.Sealed? }

  predicate ClosedIn(log: seq<Event>) { exists e :: e in log && e.Closed? }

  predicate Keeps(e: Event, m: string) {
    e.Offered? && e.msg == m
    && (e.outcome == Admitted || e.outcome == RefusedReasonKept || e.outcome == RefusedReasonNoted)
  }

  /** The reason is already the run's FailMsg or one of its notes. */
  predicate Known(log: seq<Event>, m: string) { exists e :: e in log && Keeps(e, m) }

  /** The reasons answered as noted, in order. */
  function Noted(log: seq<Event>): (ms: seq<string>) {
    if log == [] then []
    else
      var init, e := log[..|log| - 1], log[|log| - 1];
      Noted(init) + if e.Offered? && e.outcome == RefusedReasonNoted then [e.msg] else []
  }

  /** The answer to a reason offered after log: refused as ended once the admission was
      released, admitted the first time, refused if it says nothing new, refused as
      ended once the notes are closed, kept as the FailMsg if there is none and the
      hand-over has not begun, and noted otherwise. */
  function Expected(log: seq<Event>, m: string): (o: Outcome) {
    if Released in log then RefusedEnded
    else if !EverAdmitted(log) then Admitted
    else if m == "" || Known(log, m) then Refused
    else if ClosedIn(log) then RefusedEnded
    else if FirstNonEmpty(Eligible(log)) == "" && !SealedIn(log) then RefusedReasonKept
    else RefusedReasonNoted
  }

  lemma SnocFacts(log: seq<Event>, e: Event, m: string)
    ensures SealedIn(log + [e]) <==> SealedIn(log) || e.Sealed?
    ensures ClosedIn(log + [e]) <==> ClosedIn(log) || e.Closed?
    ensures Known(log + [e], m) <==> Known(log, m) || Keeps(e, m)
    ensures Released in log + [e] <==> Released in log || e == Released
    ensures Noted(log + [e]) == Noted(log) + if e.Offered? && e.outcome == RefusedReasonNoted then [e.msg] else []
  {
    var more := log + [e];
    assert more[..|log|] == log;
    assert forall x :: x in more <==> x in log || x == e;
    assert e in more;
  }

  // ---- Invariant -----------------------------------------------------------------

  predicate Phases(s: State) {
    && (s.rec.ended <==> Released in s.log)
    && (SealedIn(s.log) <==> s.past.Some? && s.past.value.isSealed)
    && (ClosedIn(s.log) <==> s.past.Some? && s.past.value.notesTaken)
  }

  ghost predicate Reasons(s: State) {
    s.past.Some? ==> forall m | m != "" ::
      Known(s.log, m) <==> m == s.past.value.failMsg || m in s.past.value.notes
  }

  predicate Given(s: State) {
    && Noted(s.log) == (if s.past.Some? then s.past.value.notes else [])
    && (forall e | e in s.log && e.Closed? :: e.notes == Noted(s.log))
    && (forall e | e in s.log && e.Sealed? :: s.past.Some? && e.failMsg == s.past.value.failMsg)
  }

  ghost predicate Told(s: State) { Inv(s) && Phases(s) && Reasons(s) && Given(s) }

  lemma PhasesKept(s: State, t: State, e: Option<Event>)
    requires Phases(s) && Effect(s, t, e)
    ensures Phases(t)
  {
    if e.Some? { SnocFacts(s.log, e.value, ""); }
  }

  lemma ReasonsKept(s: State, t: State, e: Option<Event>)
    requires Inv(s) && Reasons(s) && Effect(s, t, e)
    ensures Reasons(t)
  {
    if t.past.Some? {
      forall m | m != "" ensures Known(t.log, m) <==> m == t.past.value.failMsg || m in t.past.value.notes {
        if e.Some? { SnocFacts(s.log, e.value, m); }
        if s.past.None? { NothingKnown(s, m); }
      }
    }
  }

  /** Before an admission no reason is known. */
  lemma NothingKnown(s: State, m: string)
    requires Inv(s) && s.past.None? && m != ""
    ensures !Known(s.log, m)
  {
    forall e | e in s.log ensures !Keeps(e, m) {
      assert Placed(s, e);
    }
  }

  lemma GivenKept(s: State, t: State, e: Option<Event>)
    requires Phases(s) && Given(s) && Effect(s, t, e)
    ensures Given(t)
  {
    if e.Some? {
      SnocFacts(s.log, e.value, "");
      assert forall x :: x in t.log <==> x in s.log || x == e.value;
    }
  }

  lemma {:induction false} RunTells(s: State, calls: seq<Call>)
    requires Told(s)
    ensures Told(Run(s, calls))
    decreases |calls|
  {
    if calls != [] {
      CallKeepsInv(s, calls[0]);
      var t, e := Do(s, calls[0]), EventOf(s, calls[0]);
      CallEffect(s, calls[0]);
      PhasesKept(s, t, e);
      ReasonsKept(s, t, e);
      GivenKept(s, t, e);
      RunTells(Do(s, calls[0]), calls[1..]);
    }
  }

  // ---- Theorems ----------------------------------------------------------------------

  lemma AnswerFrom(s: State, m: string)
    requires Told(s)
    ensures AdmitRec(s.rec, m).1 == Expected(s.log, m)
  {
  }

  /** Every reason offered gets the answer the history calls for. */
  lemma AnswerIsTheHistorys(calls: seq<Call>, m: string)
    ensures var s := Run(START, calls);
      Do(s, Offer(m)).log == s.log + [Offered(m, Expected(s.log, m))]
  {
    RunTells(START, calls);
    AnswerFrom(Run(START, calls), m);
  }

  /** The report of a fault or a completion gets the same, except that one never admitted
      or ended that is open and at Assessing, due at Assessing, or complete at Fetching
      with nothing due, is deferred. */
  lemma DeferredExactlyWhen(calls: seq<Call>, m: string, snap: Snapshot)
    ensures var s := Run(START, calls);
      var waits := snap.open && (snap.next == Assessing
        || (snap.next == Unset && (snap.state == Assessing || (snap.state == Fetching && snap.complete))));
      Do(s, OfferUnlessAssessing(m, snap)).log == s.log + [Offered(m,
        if Released !in s.log && !EverAdmitted(s.log) && waits then DeferredToAssessing else Expected(s.log, m))]
  {
    RunTells(START, calls);
    AnswerFrom(Run(START, calls), m);
  }

  /** Whatever closeAndTakeNotes gave is every reason ever answered as noted, in order:
      none is noted after it. */
  lemma NotesAreHandedOut(calls: seq<Call>, e: Event)
    requires e in Run(START, calls).log && e.Closed?
    ensures e.notes == Noted(Run(START, calls).log)
  {
    RunTells(START, calls);
  }

  /** Whatever FailMsg beginHandOver gave is the first non-empty reason before it, and
      stays the run's. */
  lemma SealedMessageIsTheFirst(calls: seq<Call>, e: Event)
    requires e in Run(START, calls).log && e.Sealed?
    ensures e.failMsg == FirstNonEmpty(Eligible(Run(START, calls).log))
  {
    RunTells(START, calls);
  }

  /** A hand-over begins exactly for an instance admitted, not ended and not marked
      removed, and a wait for one admitted and not ended. */
  lemma StepsBeginExactlyWhen(calls: seq<Call>, marked: bool, token: nat)
    ensures var s := Run(START, calls);
      var live := EverAdmitted(s.log) && Released !in s.log;
      && BeginHandOverRec(s.rec, marked, token).1 == (if live && !marked then Some(token) else None)
      && BeginWaitRec(s.rec, token).1 == (if live then Some(token) else None)
  {
    RunTells(START, calls);
  }
}

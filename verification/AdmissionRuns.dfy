/**
 What holds of one instance over any sequence of calls to its admission
 (internal/app/postproc_admission.go), in any order: one admission at most,
 where each failure reason went, and who was handed each deferred one.
 */
module AdmissionRuns {
  import opened Wrappers
  import opened Admissions

  datatype Call =
    | Offer(msg: string)
    | OfferUnlessAssessing(msg: string, snap: Snapshot)
    | BeginAssess | TakeDeferred | EndAssess(number: nat)
    | BeginWait(token: nat) | BeginHandOver(marked: bool, token: nat) | EndStep(step: Option<nat>)
    | Withdraw | CloseNotes | Release

  /** Sealed and Closed carry what beginHandOver and closeAndTakeNotes gave their callers. */
  datatype Event =
    | Offered(msg: string, outcome: Outcome) | Sealed(failMsg: string) | Closed(notes: seq<string>) | Released

  /** rec and visits are the program's. log is what was offered and answered, with
      and where the run's FailMsg was sealed, its notes closed, and it ended; past is the
      admission as it is, or was when it ended; handed is every deferred reason
      given out so far, in order. */
  datatype State = State(rec: Rec, visits: nat, log: seq<Event>, past: Option<Admission>, handed: seq<string>)

  function With(s: State, r: Rec): (t: State) {
    s.(rec := r, past := if r.adm.Some? then r.adm else s.past)
  }

  function Do(s: State, c: Call): (t: State) {
    match c
    case Offer(m) =>
      var (r, o) := AdmitRec(s.rec, m);
      With(s, r).(log := s.log + [Offered(m, o)])
    case OfferUnlessAssessing(m, snap) =>
      var (r, o) := AdmitUnlessAssessingRec(s.rec, m, AwaitsAssessing(snap), s.visits);
      With(s, r).(log := s.log + [Offered(m, o)], visits := s.visits + 1)
    case BeginAssess => With(s, BeginAssessRec(s.rec, s.visits)).(visits := s.visits + 1)
    case TakeDeferred =>
      var (r, out) := TakeDeferredRec(s.rec);
      With(s, r).(handed := s.handed + out)
    case EndAssess(n) =>
      var (r, out) := EndAssessRec(s.rec, n);
      With(s, r).(handed := s.handed + out)
    case BeginWait(tok) => With(s, BeginWaitRec(s.rec, tok).0)
    case BeginHandOver(marked, tok) =>
      var (r, got) := BeginHandOverRec(s.rec, marked, tok);
      With(s, r).(log := if got.Some? then s.log + [Sealed(s.rec.adm.value.failMsg)] else s.log)
    case EndStep(tok) => With(s, EndStepRec(s.rec, tok).0)
    case Withdraw => With(s, WithdrawRec(s.rec).0)
    case CloseNotes =>
      var (r, notes) := CloseNotesRec(s.rec);
      With(s, r).(log := if s.rec.adm.Some? then s.log + [Closed(notes)] else s.log)
    case Release => With(s, ReleaseRec(s.rec).0).(log := s.log + [Released])
  }

  const START := State(Rec(None, false, None), 0, [], None, [])

  function Run(s: State, calls: seq<Call>): (t: State)
    decreases |calls|
  {
    if calls == [] then s else Run(Do(s, calls[0]), calls[1..])
  }

  // ---- What a log says, independently of the admission ---------------------

  predicate Stops(e: Event) { e.Sealed? || e.Closed? }

  predicate Stopped(log: seq<Event>) { exists e :: e in log && Stops(e) }

  predicate Reached(e: Event) {
    e.Offered? && e.outcome != DeferredToAssessing && e.outcome != RefusedEnded
  }

  /** The reasons offered to the admission, in order, up to its seal. */
  function Eligible(log: seq<Event>): (ms: seq<string>) {
    if log == [] then []
    else
      var init, e := log[..|log| - 1], log[|log| - 1];
      if !Stopped(init) && Reached(e) then Eligible(init) + [e.msg] else Eligible(init)
  }

  function FirstNonEmpty(ms: seq<string>): (m: string) {
    if ms == [] then "" else if ms[0] != "" then ms[0] else FirstNonEmpty(ms[1..])
  }

  /** The reasons deferred to the Assessing worker, in order. */
  function Deferred(log: seq<Event>): (ms: seq<string>) {
    if log == [] then []
    else
      var init, e := log[..|log| - 1], log[|log| - 1];
      if e.Offered? && e.outcome == DeferredToAssessing && e.msg != "" then Deferred(init) + [e.msg] else Deferred(init)
  }

  function Waiting(r: Rec): (ms: seq<string>) {
    if r.visit.Some? then r.visit.value.reasons else []
  }

  lemma {:induction false} FirstOfSnoc(ms: seq<string>, m: string)
    ensures FirstNonEmpty(ms + [m]) == if FirstNonEmpty(ms) != "" then FirstNonEmpty(ms) else m
  {
    if ms != [] {
      assert (ms + [m])[1..] == ms[1..] + [m];
      FirstOfSnoc(ms[1..], m);
    }
  }

  lemma LogSnoc(log: seq<Event>, e: Event)
    ensures Stopped(log + [e]) <==> Stopped(log) || Stops(e)
    ensures Eligible(log + [e]) == if !Stopped(log) && Reached(e) then Eligible(log) + [e.msg] else Eligible(log)
    ensures Deferred(log + [e]) ==
      if e.Offered? && e.outcome == DeferredToAssessing && e.msg != "" then Deferred(log) + [e.msg] else Deferred(log)
  {
    assert (log + [e])[..|log|] == log;
    assert forall x :: x in log + [e] <==> x in log || x == e;
    assert Stops(e) ==> e in log + [e];
  }

  // ---- Invariant -----------------------------------------------------------

  predicate Once(log: seq<Event>) {
    forall i, j :: 0 <= i < j < |log| && log[i].Offered? && log[i].outcome == Admitted ==>
      !(log[j].Offered? && log[j].outcome == Admitted)
  }

  predicate EverAdmitted(log: seq<Event>) {
    exists i :: 0 <= i < |log| && log[i].Offered? && log[i].outcome == Admitted
  }

  predicate Lifecycle(s: State) {
    && (s.rec.adm.Some? ==> s.past == s.rec.adm && !s.rec.ended)
    && (s.rec.adm.None? && s.past.Some? ==> s.rec.ended)
    && (s.past.Some? <==> EverAdmitted(s.log))
    && Once(s.log)
  }

  predicate FailMsgFirst(s: State) {
    && (Stopped(s.log) <==> s.past.Some? && (s.past.value.isSealed || s.past.value.notesTaken))
    && (s.past.Some? ==> s.past.value.failMsg == FirstNonEmpty(Eligible(s.log)))
    && (s.past.None? ==> Eligible(s.log) == [])
  }

  predicate NotesDistinct(s: State) {
    s.past.Some? ==>
      var a := s.past.value;
      && (forall i, j :: 0 <= i < j < |a.notes| ==> a.notes[i] != a.notes[j])
      && a.failMsg !in a.notes && "" !in a.notes
      && (a.notes != [] ==> a.failMsg != "" || a.isSealed)
  }

  predicate Placed(s: State, e: Event) {
    e.Offered? && e.msg != "" ==>
      || e.outcome == DeferredToAssessing
      || e.outcome == RefusedEnded
      || (s.past.Some? && (e.msg == s.past.value.failMsg || e.msg in s.past.value.notes))
  }

  predicate AllPlaced(s: State) { forall e | e in s.log :: Placed(s, e) }

  predicate Visits(s: State) {
    && Deferred(s.log) == s.handed + Waiting(s.rec)
    && (s.rec.visit.Some? ==> s.rec.visit.value.number < s.visits)
  }

  predicate Inv(s: State) {
    Lifecycle(s) && FailMsgFirst(s) && NotesDistinct(s) && AllPlaced(s) && Visits(s)
  }

  /** The event a call appends to the log. */
  function EventOf(s: State, c: Call): (e: Option<Event>) {
    match c
    case Offer(m) => Some(Offered(m, AdmitRec(s.rec, m).1))
    case OfferUnlessAssessing(m, snap) =>
      Some(Offered(m, AdmitUnlessAssessingRec(s.rec, m, AwaitsAssessing(snap), s.visits).1))
    case BeginHandOver(marked, token) =>
      if BeginHandOverRec(s.rec, marked, token).1.None? then None else Some(Sealed(s.rec.adm.value.failMsg))
    case CloseNotes => if s.rec.adm.Some? then Some(Closed(CloseNotesRec(s.rec).1)) else None
    case Release => Some(Released)
    case _ => None
  }

  lemma LogOf(s: State, c: Call)
    ensures Do(s, c).log == if EventOf(s, c).Some? then s.log + [EventOf(s, c).value] else s.log
  {
  }

  // ---- What a call does to the admission, past or present ------------------------------

  predicate Same(p: Option<Admission>, q: Option<Admission>) {
    if p.None? then q.None?
    else
      && q.Some? && q.value.failMsg == p.value.failMsg && q.value.notes == p.value.notes
      && q.value.isSealed == p.value.isSealed && q.value.notesTaken == p.value.notesTaken
  }

  predicate IsOffer(c: Call) { c.Offer? || c.OfferUnlessAssessing? }

  predicate Quiet(c: Call) {
    c.BeginAssess? || c.TakeDeferred? || c.EndAssess? || c.BeginWait? || c.EndStep? || c.Withdraw?
  }

  /** What an offer answered with o makes of the admission. */
  predicate Answered(p: Option<Admission>, q: Option<Admission>, m: string, o: Outcome) {
    match o
    case Admitted => p.None? && q.Some? && Same(q, Some(Admission(m, false, [], false, false, None)))
    case RefusedReasonKept =>
      && p.Some? && p.value.failMsg == "" && m != "" && m !in p.value.notes && !p.value.isSealed && !p.value.notesTaken
      && Same(q, Some(p.value.(failMsg := m)))
    case RefusedReasonNoted =>
      && p.Some? && m != "" && m != p.value.failMsg && m !in p.value.notes && !p.value.notesTaken
      && (p.value.failMsg != "" || p.value.isSealed) && Same(q, Some(p.value.(notes := p.value.notes + [m])))
    case Refused => p.Some? && (m == "" || m == p.value.failMsg || m in p.value.notes) && Same(p, q)
    case _ => Same(p, q)
  }

  /** What a call that logs e, if anything, does. */
  predicate Effect(s: State, t: State, e: Option<Event>) {
    if e.None? then t.log == s.log && t.rec.ended == s.rec.ended && Same(s.past, t.past)
    else
      && t.log == s.log + [e.value] && (t.rec.ended <==> s.rec.ended || e.value.Released?)
      && match e.value
         case Offered(m, o) => Answered(s.past, t.past, m, o)
         case Sealed(f) =>
           && s.past.Some? && f == s.past.value.failMsg
           && Same(t.past, Some(s.past.value.(isSealed := true)))
         case Closed(ns) =>
           && s.past.Some? && ns == s.past.value.notes
           && Same(t.past, Some(s.past.value.(notesTaken := true)))
         case Released => Same(s.past, t.past)
  }

  lemma QuietCall(s: State, c: Call)
    requires Lifecycle(s) && Quiet(c)
    ensures Effect(s, Do(s, c), EventOf(s, c))
  {
  }

  lemma OfferCall(s: State, c: Call)
    requires Lifecycle(s) && IsOffer(c)
    ensures Effect(s, Do(s, c), EventOf(s, c))
  {
  }

  lemma EndingCall(s: State, c: Call)
    requires Lifecycle(s) && !Quiet(c) && !IsOffer(c)
    ensures Effect(s, Do(s, c), EventOf(s, c))
  {
  }

  lemma CallEffect(s: State, c: Call)
    requires Lifecycle(s)
    ensures Effect(s, Do(s, c), EventOf(s, c))
  {
    if Quiet(c) { QuietCall(s, c); } else if IsOffer(c) { OfferCall(s, c); } else { EndingCall(s, c); }
  }

  // ---- Each part of the invariant is kept ----------------------------------------

  lemma LifecycleKept(s: State, c: Call)
    requires Lifecycle(s)
    ensures Lifecycle(Do(s, c))
  {
    var t := Do(s, c);
    LogOf(s, c);
    if EventOf(s, c).Some? {
      var e := EventOf(s, c).value;
      EverSnoc(s.log, e);
      if e.Offered? && e.outcome == Admitted {
        assert s.rec.adm.None? && !s.rec.ended;
        assert !EverAdmitted(s.log);
        forall i | 0 <= i < |s.log| ensures !(t.log[i].Offered? && t.log[i].outcome == Admitted) {
          assert t.log[i] == s.log[i];
        }
      }
    }
  }

  lemma EverSnoc(log: seq<Event>, e: Event)
    ensures EverAdmitted(log + [e]) <==> EverAdmitted(log) || (e.Offered? && e.outcome == Admitted)
  {
    var more := log + [e];
    if EverAdmitted(log) {
      var i :| 0 <= i < |log| && log[i].Offered? && log[i].outcome == Admitted;
      assert more[i] == log[i];
    }
    if e.Offered? && e.outcome == Admitted { assert more[|log|] == e; }
  }

  lemma FailMsgFirstKept(s: State, t: State, e: Option<Event>)
    requires FailMsgFirst(s) && NotesDistinct(s) && Effect(s, t, e)
    ensures FailMsgFirst(t)
  {
    if e.Some? {
      LogSnoc(s.log, e.value);
      if e.value.Offered? { FirstOfSnoc(Eligible(s.log), e.value.msg); }
    }
  }

  lemma NotesDistinctKept(s: State, c: Call)
    requires Lifecycle(s) && NotesDistinct(s)
    ensures NotesDistinct(Do(s, c))
  {
  }

  lemma AllPlacedKept(s: State, t: State, x: Option<Event>)
    requires AllPlaced(s) && Effect(s, t, x)
    ensures AllPlaced(t)
  {
    forall e | e in t.log ensures Placed(t, e) {
      if e in s.log { assert Placed(s, e); }
    }
  }

  /** The reason a call defers, if it does. */
  function NewlyDeferred(s: State, c: Call): (ms: seq<string>) {
    if c.OfferUnlessAssessing? && EventOf(s, c).value.outcome == DeferredToAssessing && c.msg != ""
    then [c.msg]
    else []
  }

  lemma DeferredOf(s: State, c: Call)
    ensures Deferred(Do(s, c).log) == Deferred(s.log) + NewlyDeferred(s, c)
  {
    LogOf(s, c);
    if EventOf(s, c).Some? { LogSnoc(s.log, EventOf(s, c).value); }
  }

  /** A call hands out from the front of what waits and defers at its back. */
  lemma WaitingOf(s: State, c: Call)
    ensures var t := Do(s, c);
      s.handed + Waiting(s.rec) + NewlyDeferred(s, c)
      == t.handed + Waiting(t.rec)
  {
  }

  lemma VisitsKept(s: State, c: Call)
    requires Visits(s)
    ensures Visits(Do(s, c))
  {
    DeferredOf(s, c);
    WaitingOf(s, c);
    CurrentVisitIsNumbered(s, c);
  }

  lemma CurrentVisitIsNumbered(s: State, c: Call)
    requires s.rec.visit.Some? ==> s.rec.visit.value.number < s.visits
    ensures var t := Do(s, c); t.rec.visit.Some? ==> t.rec.visit.value.number < t.visits
  {
  }

  lemma CallKeepsInv(s: State, c: Call)
    requires Inv(s)
    ensures Inv(Do(s, c))
  {
    LifecycleKept(s, c);
    var t, e := Do(s, c), EventOf(s, c);
    CallEffect(s, c);
    FailMsgFirstKept(s, t, e);
    NotesDistinctKept(s, c);
    AllPlacedKept(s, t, e);
    VisitsKept(s, c);
  }

  lemma {:induction false} RunKeepsInv(s: State, calls: seq<Call>)
    requires Inv(s)
    ensures Inv(Run(s, calls))
    decreases |calls|
  {
    if calls != [] {
      CallKeepsInv(s, calls[0]);
      RunKeepsInv(Do(s, calls[0]), calls[1..]);
    }
  }

  // ---- Theorems ------------------------------------------------------------

  /** Over any sequence of calls an instance is admitted at most once. */
  lemma AdmittedAtMostOnce(calls: seq<Call>, i: nat, j: nat)
    requires var log := Run(START, calls).log;
      && i < |log| && j < |log|
      && log[i].Offered? && log[i].outcome == Admitted
      && log[j].Offered? && log[j].outcome == Admitted
    ensures i == j
  {
    RunKeepsInv(START, calls);
  }

  /** The run's FailMsg is the first non-empty reason that reached the admission
      before its seal; the notes are distinct non-empty reasons, none of them
      the FailMsg. */
  lemma FailMsgIsTheFirstReason(calls: seq<Call>)
    requires Run(START, calls).past.Some?
    ensures var s := Run(START, calls);
      && s.past.value.failMsg == FirstNonEmpty(Eligible(s.log))
      && s.past.value.failMsg !in s.past.value.notes && "" !in s.past.value.notes
      && (forall i, j :: 0 <= i < j < |s.past.value.notes| ==> s.past.value.notes[i] != s.past.value.notes[j])
  {
    RunKeepsInv(START, calls);
  }

  /** Every non-empty reason offered is deferred, answered as ended, or is the
      FailMsg or a note. */
  lemma NoReasonIsLost(calls: seq<Call>, e: Event)
    requires e in Run(START, calls).log && e.Offered? && e.msg != ""
    ensures var s := Run(START, calls);
      || e.outcome == DeferredToAssessing
      || e.outcome == RefusedEnded
      || (s.past.Some? && (e.msg == s.past.value.failMsg || e.msg in s.past.value.notes))
  {
    RunKeepsInv(START, calls);
    assert Placed(Run(START, calls), e);
  }

  predicate Fixed(a: Option<Admission>) {
    a.Some? && (a.value.isSealed || a.value.failMsg != "")
  }

  predicate Extends(a: Option<Admission>, b: Option<Admission>) {
    && a.Some? && b.Some? && b.value.failMsg == a.value.failMsg
    && (a.value.isSealed ==> b.value.isSealed)
    && a.value.notes <= b.value.notes
  }

  lemma CallExtends(s: State, c: Call)
    requires Lifecycle(s) && Fixed(s.past)
    ensures Extends(s.past, Do(s, c).past)
  {
  }

  /** Once sealed, or once not empty, the FailMsg never changes, and a note is
      never taken back. */
  lemma {:induction false} FailMsgNeverChanges(s: State, calls: seq<Call>)
    requires Inv(s) && Fixed(s.past)
    ensures Extends(s.past, Run(s, calls).past)
    decreases |calls|
  {
    if calls != [] {
      CallKeepsInv(s, calls[0]);
      CallExtends(s, calls[0]);
      FailMsgNeverChanges(Do(s, calls[0]), calls[1..]);
    }
  }

  /** Deferred reasons are handed out exactly once and in deferral order: what was
      handed out, followed by what still waits, is what was deferred. */
  lemma DeferredHandedOutOnce(calls: seq<Call>)
    ensures var s := Run(START, calls);
      Deferred(s.log) == s.handed + Waiting(s.rec)
  {
    RunKeepsInv(START, calls);
  }

  /** A visit that was replaced or ended never becomes current again, so its
      endAssess hands out nothing, whatever was deferred since. */
  lemma {:induction false} ReplacedVisitHandsOutNothing(s: State, calls: seq<Call>, n: nat)
    requires n < s.visits && !(s.rec.visit.Some? && s.rec.visit.value.number == n)
    ensures var t := Run(s, calls);
      && n < t.visits
      && EndAssessRec(t.rec, n) == (t.rec, [])
    decreases |calls|
  {
    if calls != [] {
      ReplacedVisitHandsOutNothing(Do(s, calls[0]), calls[1..], n);
    }
  }

  /** A new visit inherits everything still waiting, and its worker's takeDeferred
      or endAssess hands all of it out. */
  lemma NewVisitInherits(s: State)
    ensures var t := Do(s, BeginAssess);
      && Waiting(t.rec) == Waiting(s.rec) && t.handed == s.handed
      && Do(t, TakeDeferred).handed == s.handed + Waiting(s.rec)
      && Do(t, EndAssess(t.rec.visit.value.number)).handed == s.handed + Waiting(s.rec)
      && Waiting(Do(t, EndAssess(t.rec.visit.value.number)).rec) == []
  {
  }
}

/**
 The hand-over of one instance to post-processing, beside any number of
 RemoveJobs (internal/app/postproc_admission.go, enqueuePostProc and RemoveJob
 in internal/app/app.go): the enqueue's two steps and their tokens, the
 post-processor's release, the removal mark and withdraw.
 */
module AdmissionProtocol {
  import opened Wrappers
  import opened Admissions

  /** Where the admitted enqueuePostProc is. */
  datatype EnqPc =
    | NotAdmitted
    | Fresh                 // admitted, no step yet
    | Waiting(token: nat)   // the DirectUnpack wait
    | Waited
    | Abandoned             // a shutdown ended it between its steps
    | Handing(token: nat)   // beginHandOver passed, Process not called yet
    | Handed(token: nat)    // Process called
    | Turned                // the hand-over refused as removed
    | Finished

  datatype PostProc = Without | Has | Gone

  /** tokens is the number of step tokens made; closes every close of one, in order;
      removedCloses counts the closes of the removed channel. looks is the token
      each withdraw that has looked found, returned those that came back. */
  datatype State = State(
    rec: Rec, marked: bool, tokens: nat, closes: seq<nat>, removedCloses: nat,
    enq: EnqPc, pp: PostProc, looks: map<nat, Option<nat>>, returned: set<nat>)

  datatype Step =
    | Offer(msg: string)
    | EnqBeginWait | EnqEndWait | EnqAbandon | EnqBeginHandOver | EnqProcess | EnqEndHandOver | EnqCancelled
    | PpCloseNotes | PpRelease
    | MarkRemoved | WithdrawLook(w: nat) | WithdrawReturn(w: nat)

  predicate Enabled(s: State, st: Step) {
    match st
    case Offer(_) => true
    case EnqBeginWait => s.enq.Fresh?
    case EnqEndWait => s.enq.Waiting?
    case EnqAbandon => s.enq.Waited?
    case EnqBeginHandOver => s.enq.Waited?
    case EnqProcess => s.enq.Handing?
    case EnqEndHandOver => s.enq.Handed?
    case EnqCancelled => s.enq.Turned?
    case PpCloseNotes => s.pp.Has?
    case PpRelease => s.pp.Has?
    case MarkRemoved => true
    case WithdrawLook(w) => s.marked && w !in s.looks
    case WithdrawReturn(w) =>
      w in s.looks && w !in s.returned && (s.looks[w].Some? ==> s.looks[w].value in s.closes)
  }

  function Close(s: State, out: (Rec, Option<nat>)): (t: State) {
    s.(rec := out.0, closes := if out.1.Some? then s.closes + [out.1.value] else s.closes)
  }

  function Do(s: State, st: Step): (t: State)
    requires Enabled(s, st)
  {
    match st
    case Offer(m) =>
      var (r, o) := AdmitRec(s.rec, m);
      s.(rec := r, enq := if o == Admitted then Fresh else s.enq)
    case EnqBeginWait =>
      var (r, tok) := BeginWaitRec(s.rec, s.tokens);
      s.(rec := r, tokens := s.tokens + 1, enq := if tok.Some? then Waiting(tok.value) else Waited)
    case EnqEndWait => Close(s, EndStepRec(s.rec, Some(s.enq.token))).(enq := Waited)
    case EnqAbandon => s.(enq := Abandoned)
    case EnqBeginHandOver =>
      var (r, tok) := BeginHandOverRec(s.rec, s.marked, s.tokens);
      if tok.Some? then s.(rec := r, tokens := s.tokens + 1, enq := Handing(tok.value))
      else s.(rec := r, enq := Turned)
    case EnqProcess => s.(enq := Handed(s.enq.token), pp := Has)
    case EnqEndHandOver => Close(s, EndStepRec(s.rec, Some(s.enq.token))).(enq := Finished)
    case EnqCancelled => Close(s, ReleaseRec(s.rec)).(enq := Finished)
    case PpCloseNotes => s.(rec := CloseNotesRec(s.rec).0)
    case PpRelease => Close(s, ReleaseRec(s.rec)).(pp := Gone)
    case MarkRemoved => s.(marked := true)
    case WithdrawLook(w) =>
      var (r, tok) := WithdrawRec(s.rec);
      s.(rec := r, looks := s.looks[w := tok],
         removedCloses := if s.rec.adm.Some? && !s.rec.adm.value.removedClosed
                          then s.removedCloses + 1 else s.removedCloses)
    case WithdrawReturn(w) => s.(returned := s.returned + {w})
  }

  const START := State(Rec(None, false, None), false, 0, [], 0, NotAdmitted, Without, map[], {})

  ghost predicate Trace(s: State, steps: seq<Step>, t: State)
    decreases |steps|
  {
    if steps == [] then s == t
    else Enabled(s, steps[0]) && Trace(Do(s, steps[0]), steps[1..], t)
  }

  // ---- Invariant -----------------------------------------------------------

  predicate Distinct(c: seq<nat>) { forall i, j :: 0 <= i < j < |c| ==> c[i] != c[j] }

  function Busy(s: State): (b: Option<nat>) {
    if s.rec.adm.Some? then s.rec.adm.value.busy else None
  }

  /** The enqueue's position fixes what the admission holds. */
  predicate Position(s: State) {
    match s.enq
    case NotAdmitted => s.rec.adm.None? && !s.rec.ended && s.pp.Without?
    case Fresh => s.rec.adm.Some? && Busy(s).None? && s.pp.Without?
    case Waiting(k) => Busy(s) == Some(k) && s.pp.Without?
    case Waited => s.rec.adm.Some? && Busy(s).None? && s.pp.Without?
    case Abandoned => s.rec.adm.Some? && Busy(s).None? && s.pp.Without?
    case Handing(k) => Busy(s) == Some(k) && s.pp.Without?
    case Handed(k) => (s.pp.Has? && Busy(s) == Some(k)) || (s.pp.Gone? && s.rec.adm.None? && s.rec.ended)
    case Turned => s.rec.adm.Some? && Busy(s).None? && s.pp.Without?
    case Finished => (s.pp.Has? && s.rec.adm.Some? && Busy(s).None?) || (!s.pp.Has? && s.rec.adm.None? && s.rec.ended)
  }

  ghost predicate Tokens(s: State) {
    && Distinct(s.closes)
    && (forall k | k in s.closes :: k < s.tokens)
    && (Busy(s).Some? ==> Busy(s).value < s.tokens && Busy(s).value !in s.closes)
    && (forall k: nat | k < s.tokens :: k in s.closes || Busy(s) == Some(k))
    && s.removedCloses <= 1
    && (s.rec.adm.Some? ==> s.removedCloses == if s.rec.adm.value.removedClosed then 1 else 0)
    && !(s.rec.adm.Some? && s.rec.ended)
    && (s.enq.NotAdmitted? ==> s.removedCloses == 0)
  }

  predicate Withdrawals(s: State) {
    && (forall w | w in s.looks ::
          && s.marked
          && (s.looks[w].Some? ==> s.looks[w].value < s.tokens)
          && (s.enq.Handing? ==> s.looks[w] == Some(s.enq.token)))
    && (forall w | w in s.returned :: w in s.looks && (s.looks[w].Some? ==> s.looks[w].value in s.closes))
  }

  ghost predicate Inv(s: State) { Position(s) && Tokens(s) && Withdrawals(s) }

  lemma PositionKept(s: State, st: Step)
    requires Position(s) && Tokens(s) && Enabled(s, st)
    ensures Position(Do(s, st))
  {
  }

  lemma CloseKeepsTokens(s: State, t: State, k: nat)
    requires Tokens(s) && Busy(s) == Some(k)
    requires t.closes == s.closes + [k] && t.tokens == s.tokens && t.removedCloses == s.removedCloses
    requires t.rec.adm == Some(s.rec.adm.value.(busy := None)) || t.rec.adm.None?
    requires !(t.rec.adm.Some? && t.rec.ended) && !t.enq.NotAdmitted?
    ensures Tokens(t)
  {
    forall n: nat | n < t.tokens ensures n in t.closes {
      assert n in s.closes || n == k;
    }
  }

  lemma CloseOne(s: State, st: Step)
    requires Position(s) && Tokens(s) && Enabled(s, st)
    requires st.EnqEndWait? || st.EnqEndHandOver? || st.EnqCancelled? || st.PpRelease?
    ensures Busy(s).Some? ==> Do(s, st).closes == s.closes + [Busy(s).value]
    ensures Busy(s).None? ==> Do(s, st).closes == s.closes
  {
  }

  lemma TokensKept(s: State, st: Step)
    requires Position(s) && Tokens(s) && Enabled(s, st)
    ensures Tokens(Do(s, st))
  {
    var t := Do(s, st);
    if st.EnqEndWait? || st.EnqEndHandOver? || st.EnqCancelled? || st.PpRelease? {
      CloseOne(s, st);
      if Busy(s).Some? { CloseKeepsTokens(s, t, Busy(s).value); }
    } else if st.EnqBeginWait? || st.EnqBeginHandOver? {
      assert Busy(s).None?;
      assert s.tokens !in s.closes;
    } else {
      assert Busy(t) == Busy(s) && t.closes == s.closes;
    }
  }

  lemma WithdrawalsKept(s: State, st: Step)
    requires Position(s) && Tokens(s) && Withdrawals(s) && Enabled(s, st)
    ensures Withdrawals(Do(s, st))
  {
    if st.EnqEndWait? || st.EnqEndHandOver? || st.EnqCancelled? || st.PpRelease? {
      CloseOne(s, st);
    }
  }

  lemma {:induction false} TraceKeepsInv(s: State, steps: seq<Step>, t: State)
    requires Inv(s) && Trace(s, steps, t)
    ensures Inv(t)
    decreases |steps|
  {
    if steps != [] {
      PositionKept(s, steps[0]);
      TokensKept(s, steps[0]);
      WithdrawalsKept(s, steps[0]);
      TraceKeepsInv(Do(s, steps[0]), steps[1..], t);
    }
  }

  // ---- Theorems ------------------------------------------------------------

  /** When a withdraw has returned, the step it found open is over, and the
      enqueue is not between beginHandOver and Process, then or later: the job is
      either with the post-processor already, or never will be. */
  lemma WithdrawReturnsAfterTheStep(steps: seq<Step>, t: State, w: nat)
    requires Trace(START, steps, t) && w in t.returned
    ensures w in t.looks && t.marked && !t.enq.Handing?
    ensures t.looks[w].Some? ==> t.looks[w].value in t.closes && Busy(t) != t.looks[w]
    ensures t.looks[w].Some? ==> t.enq != Waiting(t.looks[w].value)
  {
    TraceKeepsInv(START, steps, t);
  }

  /** From the mark on, no hand-over begins. */
  lemma MarkedIsTurnedAway(steps: seq<Step>, t: State)
    requires Trace(START, steps, t) && t.marked && Enabled(t, EnqBeginHandOver)
    ensures Do(t, EnqBeginHandOver).enq == Turned && Do(t, EnqBeginHandOver).rec == t.rec
  {
  }

  /** So whatever follows, a job marked before it was handed over is never handed over,
      and the post-processor never gets it. */
  lemma {:induction false} MarkedIsNeverHandedOver(s: State, steps: seq<Step>, t: State)
    requires Trace(s, steps, t) && s.marked && !s.enq.Handing? && !s.enq.Handed? && s.pp.Without?
    ensures t.marked && !t.enq.Handing? && !t.enq.Handed? && t.pp.Without?
    decreases |steps|
  {
    if steps != [] {
      MarkedIsNeverHandedOver(Do(s, steps[0]), steps[1..], t);
    }
  }

  /** No token is closed twice, nor the removed channel, and none is replaced while
      open: a step begins only when no other is in progress. */
  lemma TokensClosedOnce(steps: seq<Step>, t: State)
    requires Trace(START, steps, t)
    ensures Distinct(t.closes) && t.removedCloses <= 1
    ensures Enabled(t, EnqBeginWait) || Enabled(t, EnqBeginHandOver) ==> Busy(t).None?
  {
    TraceKeepsInv(START, steps, t);
  }

  /** A withdraw waits only for a step the enqueue is still in, and whose end, or
      the post-processor's release, closes the token. */
  lemma WithdrawWaitsForALiveStep(steps: seq<Step>, t: State, w: nat)
    requires Trace(START, steps, t) && w in t.looks && t.looks[w].Some? && t.looks[w].value !in t.closes
    ensures Busy(t) == t.looks[w]
    ensures var k := t.looks[w].value;
      t.enq == Waiting(k) || t.enq == Handing(k) || t.enq == Handed(k)
  {
    TraceKeepsInv(START, steps, t);
  }

  // ---- What can always happen ------------------------------------------------------

  lemma TraceOne(s: State, st: Step)
    requires Enabled(s, st)
    ensures Trace(s, [st], Do(s, st))
  {
    assert Trace(Do(s, st), [st][1..], Do(s, st));
  }

  lemma {:induction false} TraceAppend(s: State, a: seq<Step>, m: State, b: seq<Step>, t: State)
    requires Trace(s, a, m) && Trace(m, b, t)
    ensures Trace(s, a + b, t)
    decreases |a|
  {
    if a == [] {
      assert a + b == b;
    } else {
      TraceAppend(Do(s, a[0]), a[1..], m, b, t);
      assert (a + b)[1..] == a[1..] + b;
    }
  }

  /** A hand-over that is due begins exactly when the job is not marked, and hands the
      post-processor the job. */
  lemma HandOverBeginsUnlessMarked(steps: seq<Step>, t: State)
    requires Trace(START, steps, t) && Enabled(t, EnqBeginHandOver)
    ensures var u := Do(t, EnqBeginHandOver);
      && (if t.marked then u.enq == Turned else u.enq == Handing(t.tokens) && Busy(u) == Some(t.tokens))
      && (!t.marked ==> Enabled(u, EnqProcess) && Do(u, EnqProcess).pp == Has)
  {
    TraceKeepsInv(START, steps, t);
  }

  /** A withdraw finds the step the enqueue is in, if it is in one. */
  lemma WithdrawFindsTheOpenStep(steps: seq<Step>, t: State, w: nat)
    requires Trace(START, steps, t) && Enabled(t, WithdrawLook(w))
    ensures var u := Do(t, WithdrawLook(w));
      w in u.looks && u.looks[w] ==
        match t.enq
        case Waiting(k) => Some(k)
        case Handing(k) => Some(k)
        case Handed(k) => if t.pp.Has? then Some(k) else None
        case _ => None
  {
    TraceKeepsInv(START, steps, t);
  }

  /** A withdraw that waits can always come back: the enqueue's own next steps end the
      step it waits for, and nothing else is needed. */
  lemma WithdrawCanReturn(steps: seq<Step>, t: State, w: nat) returns (more: seq<Step>, u: State)
    requires Trace(START, steps, t) && w in t.looks && w !in t.returned
    ensures Trace(t, more, u) && w in u.returned
    ensures forall st | st in more ::
      st == EnqEndWait || st == EnqProcess || st == EnqEndHandOver || st == WithdrawReturn(w)
  {
    TraceKeepsInv(START, steps, t);
    more, u := [], t;
    if t.looks[w].Some? && t.looks[w].value !in t.closes {
      WithdrawWaitsForALiveStep(steps, t, w);
      if t.enq.Waiting? {
        TraceOne(t, EnqEndWait);
        more, u := [EnqEndWait], Do(t, EnqEndWait);
      } else {
        if t.enq.Handing? {
          TraceOne(t, EnqProcess);
          more, u := [EnqProcess], Do(t, EnqProcess);
        }
        TraceOne(u, EnqEndHandOver);
        TraceAppend(t, more, u, [EnqEndHandOver], Do(u, EnqEndHandOver));
        more, u := more + [EnqEndHandOver], Do(u, EnqEndHandOver);
      }
    }
    TraceOne(u, WithdrawReturn(w));
    TraceAppend(t, more, u, [WithdrawReturn(w)], Do(u, WithdrawReturn(w)));
    more, u := more + [WithdrawReturn(w)], Do(u, WithdrawReturn(w));
  }

  lemma Extend(s: State, steps: seq<Step>, t: State, st: Step) returns (more: seq<Step>, u: State)
    requires Trace(s, steps, t) && Enabled(t, st)
    ensures Trace(s, more, u) && u == Do(t, st)
  {
    TraceOne(t, st);
    more, u := steps + [st], Do(t, st);
    TraceAppend(s, steps, t, [st], u);
  }

  lemma AJobWaits(msg: string) returns (steps: seq<Step>, t: State)
    ensures Trace(START, steps, t) && t.enq == Waiting(0) && Busy(t) == Some(0) && t.tokens == 1
    ensures !t.marked && t.closes == [] && t.looks == map[] && t.returned == {} && t.pp == Without
  {
    steps, t := Extend(START, [], START, Offer(msg));
    assert t.enq == Fresh && t.rec.adm.Some?;
    steps, t := Extend(START, steps, t, EnqBeginWait);
  }

  lemma AJobIsQueued(msg: string) returns (steps: seq<Step>, t: State)
    ensures Trace(START, steps, t) && t.enq == Handed(1) && Busy(t) == Some(1) && t.closes == [0] && t.pp == Has
  {
    steps, t := AJobWaits(msg);
    steps, t := Extend(START, steps, t, EnqEndWait);
    assert t.enq == Waited && t.closes == [0] && t.rec.adm.Some? && !t.marked && t.tokens == 1;
    steps, t := Extend(START, steps, t, EnqBeginHandOver);
    assert t.enq == Handing(1) && Busy(t) == Some(1) && t.closes == [0];
    steps, t := Extend(START, steps, t, EnqProcess);
  }

  /** A job offered and never removed is handed to the post-processor and released. */
  lemma AJobIsHandedOver(msg: string) returns (steps: seq<Step>, t: State)
    ensures Trace(START, steps, t) && t.pp == Gone && t.enq == Finished && t.rec.ended && t.closes == [0, 1]
  {
    steps, t := AJobIsQueued(msg);
    steps, t := Extend(START, steps, t, EnqEndHandOver);
    assert t.enq == Finished && t.pp == Has && t.closes == [0, 1] && Busy(t).None?;
    steps, t := Extend(START, steps, t, PpRelease);
  }

  lemma AWithdrawReturns(msg: string) returns (steps: seq<Step>, t: State)
    ensures Trace(START, steps, t) && t.marked && 0 in t.returned && t.pp == Without
    ensures t.enq == Waited && t.rec.adm.Some?
  {
    steps, t := AJobWaits(msg);
    steps, t := Extend(START, steps, t, MarkRemoved);
    steps, t := Extend(START, steps, t, WithdrawLook(0));
    assert t.looks == map[0 := Some(0)] && t.enq == Waiting(0) && Busy(t) == Some(0) && t.marked && t.closes == [];
    steps, t := Extend(START, steps, t, EnqEndWait);
    assert t.enq == Waited && t.closes == [0] && t.looks == map[0 := Some(0)] && t.marked && t.rec.adm.Some?;
    steps, t := Extend(START, steps, t, WithdrawReturn(0));
  }

  /** One removed during its wait is turned away, after the removal's withdraw came back. */
  lemma ARemovedJobIsTurnedAway(msg: string) returns (steps: seq<Step>, t: State)
    ensures Trace(START, steps, t) && t.marked && 0 in t.returned && t.pp == Without && t.enq == Finished && t.rec.ended
  {
    steps, t := AWithdrawReturns(msg);
    steps, t := Extend(START, steps, t, EnqBeginHandOver);
    assert t.enq == Turned && 0 in t.returned && t.pp == Without && t.marked;
    steps, t := Extend(START, steps, t, EnqCancelled);
  }
}

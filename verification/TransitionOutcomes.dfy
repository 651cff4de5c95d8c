/**
 What finalizers, retries and removals of an ID come to: what each check answers, that a
 run is filed exactly once or removed, and that each of them can always be brought to its
 end (internal/app/transition.go, internal/app/job_finalizer.go, internal/app/app.go).
 */
module TransitionOutcomes {
  import opened Wrappers
  import opened TransitionProtocol

  predicate AllDone(s: State) { forall j | j in s.fins :: s.fins[j] == Done }

  lemma CountIsZeroExactlyWhen(s: State)
    requires Basics(s)
    ensures s.finalizing == 0 <==> AllDone(s)
  {
    if s.finalizing == 0 {
      forall j | j in s.fins ensures s.fins[j] == Done {
        assert j !in Active(s);
      }
    } else {
      var j :| j in Active(s);
    }
  }

  // ---- What the checks answer ------------------------------------------------------------

  /** A retry gets its claim exactly when nobody holds the lock and every finalizer begun
      is done; passes its registration check exactly when no instance is registered; and
      its finalizing check exactly when every finalizer begun is done. */
  lemma RetryChecksAnswer(s: State, steps: seq<Step>, t: State)
    requires Init(s) && Trace(s, steps, t)
    ensures Enabled(t, RetryBegin) <==> t.lock.Free? && AllDone(t)
    ensures Enabled(t, RetryCheckRegistered) ==>
      Do(t, RetryCheckRegistered).lock == if t.registered.None? then Retry(Unregistered) else Free
    ensures Enabled(t, RetryCheckFinalizing) ==>
      Do(t, RetryCheckFinalizing).lock == if AllDone(t) then Retry(Passed) else Free
  {
    ReachableInv(s, steps, t);
    CountIsZeroExactlyWhen(t);
    ChecksRead(t);
  }

  lemma ChecksRead(t: State)
    requires t.finalizing == 0 <==> AllDone(t)
    ensures Enabled(t, RetryBegin) <==> t.lock.Free? && AllDone(t)
    ensures Enabled(t, RetryCheckRegistered) ==>
      Do(t, RetryCheckRegistered).lock == if t.registered.None? then Retry(Unregistered) else Free
    ensures Enabled(t, RetryCheckFinalizing) ==>
      Do(t, RetryCheckFinalizing).lock == if AllDone(t) then Retry(Passed) else Free
  {
  }

  /** A finalizer that waited goes on exactly when no removal marked its instance; one that
      goes on is never stopped by a later instance, files its run, and a removal of its
      instance that succeeds leaves it unregistered and touches no other; one that fails
      is noted on the job exactly when the job is still there. */
  lemma FinalizerSteps(s: State, steps: seq<Step>, t: State, j: nat)
    requires Init(s) && Trace(s, steps, t)
    ensures Enabled(t, FinReadMark(j)) ==>
      (Do(t, FinReadMark(j)).fins[j].Unmarked? <==> j !in t.marked)
      && (j in t.marked ==> Do(t, FinReadMark(j)).fins[j].Ending?)
    ensures Enabled(t, FinOccupy(j)) ==> Do(t, FinOccupy(j)).fins[j].Filing?
    ensures Enabled(t, FinHistory(j)) ==> Do(t, FinHistory(j)).filed == t.filed + [j]
    ensures Enabled(t, FinRemove(j, true)) ==>
      Do(t, FinRemove(j, true)).registered == if t.registered == Some(j) then None else t.registered
    ensures Enabled(t, FinRemove(j, false)) ==>
      Do(t, FinRemove(j, false)).registered == t.registered
      && (Do(t, FinRemove(j, false)).fins[j].Noting? <==> t.registered == Some(j))
  {
    ReachableInv(s, steps, t);
    if Enabled(t, FinOccupy(j)) { UnmarkedIsLatest(t, j); }
  }

  /** Past its mark check, a finalizer's instance is the ID's latest. */
  lemma UnmarkedIsLatest(s: State, j: nat)
    requires Inv(s) && j in s.fins && s.fins[j].Unmarked?
    ensures j == s.known - 1 && (s.registered.None? || s.registered == Some(j))
  {
    assert !Over(s, j);
  }

  /** A removal finds what is registered; marks that instance before it cancels or removes
      it; and if the dispatcher lets it go leaves nothing registered, so that nothing is
      registered when it reclaims. */
  lemma RemovalSteps(s: State, steps: seq<Step>, t: State)
    requires Init(s) && Trace(s, steps, t)
    ensures Enabled(t, RemoveLookup) ==>
      Do(t, RemoveLookup).lock == Removal(if t.registered.Some? then Found(t.registered.value) else Absent)
    ensures Enabled(t, RemoveMark) ==> t.lock.r.j in Do(t, RemoveMark).marked
    ensures Enabled(t, RemoveCancel) && t.registered.Some? ==> t.registered.value in Do(t, RemoveCancel).cancelled
    ensures Enabled(t, RemoveRemove(true)) ==> Do(t, RemoveRemove(true)).registered.None?
  {
  }

  /** One that fails frees the lock, keeps its mark and leaves the instance cancelled. */
  lemma FailedRemoval(t: State)
    requires Enabled(t, RemoveRemove(false))
    ensures var u := Do(t, RemoveRemove(false));
      && u.lock.Free? && u.marked == t.marked && u.registered == t.registered
      && (u.registered.Some? ==> u.registered.value in u.cancelled)
  {
  }

  /** The dispatcher lets go of an instance by itself exactly once it is cancelled; so a
      removal that failed leaves one it can let go of, and a retry can follow. */
  lemma CancelledCanBeEvicted(t: State)
    ensures Enabled(t, Evict) <==> t.registered.Some? && t.registered.value in t.cancelled
    ensures Enabled(t, Evict) ==> Do(t, Evict) == t.(registered := None)
  {
  }

  lemma RemovalMarksFirst(s: State, steps: seq<Step>, t: State)
    requires Init(s) && Trace(s, steps, t)
    ensures Enabled(t, RemoveCancel) || Enabled(t, RemoveRemove(true)) ==> t.lock.r.j in t.marked
    ensures Enabled(t, RemoveReclaim) ==> t.registered.None? && t.lock.r.j in t.marked
  {
    ReachableInv(s, steps, t);
  }

  // ---- Filed exactly once --------------------------------------------------------------------

  predicate NotFiledYet(pc: FinPc) {
    pc.Recorded? || pc.CancelSent? || pc.Waited? || pc.Unmarked? || pc.Filing?
  }

  predicate Ended(pc: FinPc) { pc.Ending? || pc.Unlocked? || pc.Done? }

  predicate Filings(s: State) {
    && (forall a, b | 0 <= a < b < |s.filed| :: s.filed[a] != s.filed[b])
    && (forall j | j in s.filed :: j in s.fins)
    && (forall j | j in s.fins ::
          if NotFiledYet(s.fins[j]) then j !in s.filed
          else if Ended(s.fins[j]) then j in s.filed || j in s.marked
          else j in s.filed)
  }

  lemma FilingKeepsFilings(s: State, j: nat)
    requires Filings(s) && Enabled(s, FinHistory(j))
    ensures Filings(Do(s, FinHistory(j)))
  {
    assert j !in s.filed;
  }

  lemma EarlyKeepsFilings(s: State, st: Step)
    requires Inv(s) && Filings(s) && Enabled(s, st)
    requires st.FinBegin? || st.FinCancel? || st.FinLock? || st.FinBypass? || st.FinReadMark? || st.FinOccupy?
    ensures Filings(Do(s, st))
  {
    if st.FinOccupy? { UnmarkedIsLatest(s, st.j); }
  }

  lemma LateKeepsFilings(s: State, st: Step)
    requires Filings(s) && Enabled(s, st)
    requires st.FinRemove? || st.FinNote? || st.FinReclaim? || st.FinRelease? || st.FinEnd?
    ensures Filings(Do(s, st))
  {
  }

  lemma OtherKeepsFilings(s: State, st: Step)
    requires Filings(s) && Enabled(s, st) && Do(s, st).fins == s.fins
    ensures Filings(Do(s, st))
  {
  }

  lemma FilingsKept(s: State, st: Step)
    requires Inv(s) && Filings(s) && Enabled(s, st)
    ensures Filings(Do(s, st))
  {
    if st.FinHistory? {
      FilingKeepsFilings(s, st.j);
    } else if st.FinBegin? || st.FinCancel? || st.FinLock? || st.FinBypass? || st.FinReadMark? || st.FinOccupy? {
      EarlyKeepsFilings(s, st);
    } else if st.FinRemove? || st.FinNote? || st.FinReclaim? || st.FinRelease? || st.FinEnd? {
      LateKeepsFilings(s, st);
    } else {
      OtherKeepsFilings(s, st);
    }
  }

  lemma {:induction false} TraceKeepsFilings(s: State, steps: seq<Step>, t: State)
    requires Inv(s) && Filings(s) && Trace(s, steps, t)
    ensures Filings(t)
    decreases |steps|
  {
    if steps != [] {
      StepKeepsInv(s, steps[0]);
      FilingsKept(s, steps[0]);
      TraceKeepsFilings(Do(s, steps[0]), steps[1..], t);
    }
  }

  /** No run is filed twice, and one whose finalizer is done was filed unless a removal
      marked it. */
  lemma FiledExactlyOnce(s: State, steps: seq<Step>, t: State)
    requires Init(s) && Trace(s, steps, t)
    ensures forall a, b | 0 <= a < b < |t.filed| :: t.filed[a] != t.filed[b]
    ensures forall j | j in t.fins && t.fins[j] == Done && j !in t.marked :: j in t.filed
    ensures forall j | j in t.filed :: j in t.fins
  {
    ReachableInv(s, [], s);
    TraceKeepsFilings(s, steps, t);
  }

  // ---- What can always happen ------------------------------------------------------------------

  /** A finalizer's own next step; it gives up waiting for the lock. */
  function NextStep(j: nat, pc: FinPc): (st: Step)
    requires pc != Done
  {
    match pc
    case Recorded => FinCancel(j)
    case CancelSent => FinBypass(j)
    case Waited(_) => FinReadMark(j)
    case Unmarked(_) => FinOccupy(j)
    case Filing(_) => FinHistory(j)
    case Removing(_) => FinRemove(j, true)
    case Noting(_) => FinNote(j)
    case Reclaiming(_) => FinReclaim(j)
    case Ending(_) => FinRelease(j)
    case Unlocked => FinEnd(j)
  }

  function Left(pc: FinPc): (n: nat) {
    match pc
    case Recorded => 10
    case CancelSent => 9
    case Waited(_) => 8
    case Unmarked(_) => 7
    case Filing(_) => 6
    case Removing(_) => 5
    case Noting(_) => 4
    case Reclaiming(_) => 3
    case Ending(_) => 2
    case Unlocked => 1
    case Done => 0
  }

  lemma NextStepGoesOn(t: State, j: nat)
    requires Inv(t) && j in t.fins && t.fins[j] != Done
    ensures var st := NextStep(j, t.fins[j]);
      Enabled(t, st) && j in Do(t, st).fins && Left(Do(t, st).fins[j]) < Left(t.fins[j])
  {
    assert j in Active(t);
  }

  /** A finalizer begun can always be brought to its end by its own steps, whoever holds
      the lock. */
  lemma {:induction false} FinalizerCanFinish(t: State, j: nat) returns (steps: seq<Step>, u: State)
    requires Inv(t) && j in t.fins
    ensures Trace(t, steps, u) && Inv(u) && j in u.fins && u.fins[j] == Done
    decreases Left(t.fins[j])
  {
    if t.fins[j] == Done {
      return [], t;
    }
    var st := NextStep(j, t.fins[j]);
    NextStepGoesOn(t, j);
    StepKeepsInv(t, st);
    var more;
    more, u := FinalizerCanFinish(Do(t, st), j);
    steps := [st] + more;
    assert steps[1..] == more;
  }

  /** With the lock free, no instance registered and every finalizer done, a retry goes
      through and registers a new instance. */
  lemma RetryCanRegister(s: State, steps: seq<Step>, t: State) returns (more: seq<Step>, u: State)
    requires Init(s) && Trace(s, steps, t)
    requires t.lock.Free? && t.registered.None? && AllDone(t)
    ensures Trace(s, more, u) && u.registered == Some(t.known) && u.known == t.known + 1 && u.lock.Free?
  {
    more, u := RetryCanPass(s, steps, t);
    more, u := Extend(s, more, u, RetryAdd);
    more, u := Extend(s, more, u, RetryEnd);
  }

  lemma RetryCanPass(s: State, steps: seq<Step>, t: State) returns (more: seq<Step>, u: State)
    requires Init(s) && Trace(s, steps, t)
    requires t.lock.Free? && t.registered.None? && AllDone(t)
    ensures Trace(s, more, u) && u == t.(lock := Retry(Passed))
  {
    ReachableInv(s, steps, t);
    CountIsZeroExactlyWhen(t);
    more, u := Extend(s, steps, t, RetryBegin);
    assert u == t.(lock := Retry(Started));
    more, u := Extend(s, more, u, RetryCheckRegistered);
    assert u == t.(lock := Retry(Unregistered));
    more, u := Extend(s, more, u, RetryCheckFinalizing);
  }

  /** A whole life of an ID: its first instance is finalized and filed, and a retry then
      registers the second. */
  lemma ARetryRegisters() returns (s: State, steps: seq<Step>, t: State)
    ensures Init(s) && Trace(s, steps, t) && t.registered == Some(1) && t.known == 2
  {
    s, steps, t := AFinalizerFiles();
    steps, t := RetryCanRegister(s, steps, t);
  }

  /** A state of that run: the finalizer of instance 0 is at pc. */
  function FirstAt(pc: FinPc, registered: Option<nat>, filed: seq<nat>, lock: Holder): (s: State) {
    State(registered, 1, {0}, {}, 1, lock, map[0 := pc], filed)
  }

  lemma AFinalizerBegins() returns (s: State, steps: seq<Step>, t: State)
    ensures Init(s) && Trace(s, steps, t) && t == FirstAt(Waited(true), Some(0), [], Finalizer(0))
  {
    s, steps := State(Some(0), 1, {}, {}, 0, Free, map[], []), [];
    t := s;
    steps, t := Extend(s, steps, t, FinBegin(0));
    assert t.fins == map[0 := Recorded];
    steps, t := Extend(s, steps, t, FinCancel(0));
    assert t == FirstAt(CancelSent, Some(0), [], Free);
    steps, t := Extend(s, steps, t, FinLock(0));
  }

  lemma AFinalizerCommits() returns (s: State, steps: seq<Step>, t: State)
    ensures Init(s) && Trace(s, steps, t) && t == FirstAt(Removing(true), Some(0), [0], Finalizer(0))
  {
    s, steps, t := AFinalizerBegins();
    steps, t := Extend(s, steps, t, FinReadMark(0));
    assert t == FirstAt(Unmarked(true), Some(0), [], Finalizer(0));
    steps, t := Extend(s, steps, t, FinOccupy(0));
    assert t == FirstAt(Filing(true), Some(0), [], Finalizer(0));
    steps, t := Extend(s, steps, t, FinHistory(0));
  }

  lemma AFinalizerFiles() returns (s: State, steps: seq<Step>, t: State)
    ensures Init(s) && Trace(s, steps, t)
    ensures t == State(None, 1, {0}, {}, 0, Free, map[0 := Done], [0])
  {
    s, steps, t := AFinalizerCommits();
    steps, t := Extend(s, steps, t, FinRemove(0, true));
    assert t == FirstAt(Reclaiming(true), None, [0], Finalizer(0));
    steps, t := Extend(s, steps, t, FinReclaim(0));
    assert t == FirstAt(Ending(true), None, [0], Finalizer(0));
    steps, t := Extend(s, steps, t, FinRelease(0));
    assert t == FirstAt(Unlocked, None, [0], Free);
    steps, t := Extend(s, steps, t, FinEnd(0));
  }

  /** A removal under way can always be brought to its end, and if the dispatcher lets the
      job go leaves nothing registered, the lock free, and what it found marked. */
  lemma RemovalCanFinish(s: State, steps: seq<Step>, t: State) returns (more: seq<Step>, u: State)
    requires Init(s) && Trace(s, steps, t) && t.lock == Removal(Claimed)
    ensures Trace(s, more, u) && u.registered.None? && u.lock.Free?
    ensures t.registered.Some? ==> t.registered.value in u.marked
  {
    more, u := Extend(s, steps, t, RemoveLookup);
    if t.registered.Some? {
      more, u := FoundCanBeRemoved(s, more, u, t.registered.value);
      more, u := Extend(s, more, u, RemoveReclaim);
    } else {
      more, u := Extend(s, more, u, RemoveReclaimAbsent);
    }
  }

  lemma FoundCanBeRemoved(s: State, steps: seq<Step>, t: State, j: nat) returns (more: seq<Step>, u: State)
    requires Trace(s, steps, t) && t.lock == Removal(Found(j))
    ensures Trace(s, more, u) && u.lock == Removal(Removed(j)) && j in u.marked && u.registered.None?
  {
    more, u := Extend(s, steps, t, RemoveMark);
    assert u.lock == Removal(Marked(j)) && j in u.marked;
    more, u := Extend(s, more, u, RemoveCancel);
    assert u.lock == Removal(Cancelled(j)) && j in u.marked;
    more, u := Extend(s, more, u, RemoveRemove(true));
  }
}

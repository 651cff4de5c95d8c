/**
 Finalizers, removals and retries of one job ID as step sequences over the
 dispatcher's registration, the transition lock, the finalizing counter and the
 removal marks (internal/app/transition.go, job_finalizer.go, app.go).

 Instances of the ID are numbered in registration order. A finalizer may go on
 without the lock. What is assumed of the rest of the program: an instance
 leaves the dispatcher only once cancelled, the cancels are the finalizer's own
 and RemoveJob's, only a retry registers a later instance, and an instance is
 finalized at most once (AdmissionRuns.AdmittedAtMostOnce).
 */
module TransitionProtocol {

  import opened Wrappers

  /** Where a finalizer is: persistAndCommit from its first line to its last.
      lock says whether it holds the transition lock. */
  datatype FinPc =
    | Recorded                  // in the finalizing count
    | CancelSent                // its CancelJob made
    | Waited(lock: bool)        // got the lock, or gave up waiting for it
    | Unmarked(lock: bool)      // read no removal mark
    | Filing(lock: bool)        // about to write history
    | Removing(lock: bool)      // about to remove its instance
    | Noting(lock: bool)        // removal failed: about to set the operational error
    | Reclaiming(lock: bool)    // about to reclaim
    | Ending(lock: bool)
    | Unlocked
    | Done

  datatype RemovePc =
    | Claimed | Absent | Found(j: nat) | Marked(j: nat) | Cancelled(j: nat) | Removed(j: nat)

  datatype RetryPc = Started | Unregistered | Passed | Added(k: nat)

  datatype Holder = Free | Finalizer(j: nat) | Removal(r: RemovePc) | Retry(t: RetryPc)

  /** The dispatcher's instance and how many there have been, those cancelled and marked,
      the finalizing count, the lock, the finalizers, and the runs filed in history. */
  datatype State = State(
    registered: Option<nat>, known: nat, cancelled: set<nat>, marked: set<nat>,
    finalizing: nat, lock: Holder, fins: map<nat, FinPc>, filed: seq<nat>)

  datatype Step =
    | FinBegin(j: nat) | FinCancel(j: nat) | FinLock(j: nat) | FinBypass(j: nat) | FinReadMark(j: nat)
    | FinOccupy(j: nat) | FinHistory(j: nat) | FinRemove(j: nat, ok: bool) | FinNote(j: nat)
    | FinReclaim(j: nat) | FinRelease(j: nat) | FinEnd(j: nat)
    | Evict
    | RemoveBegin | RemoveLookup | RemoveReclaimAbsent | RemoveMark | RemoveCancel
    | RemoveRemove(ok: bool) | RemoveReclaim
    | RetryBegin | RetryCheckRegistered | RetryCheckFinalizing | RetryAbort | RetryAdd | RetryEnd

  predicate At(s: State, j: nat, pc: FinPc) { j in s.fins && s.fins[j] == pc }

  /** j's finalizer is in one of its by-ID steps' states or about to enter them. */
  predicate Committing(pc: FinPc) {
    pc.Unmarked? || pc.Filing? || pc.Removing? || pc.Noting? || pc.Reclaiming?
  }

  /** The steps that act on whatever is kept under the ID. */
  predicate ById(st: Step) {
    st.FinHistory? || st.FinNote? || st.FinReclaim? || st.RemoveReclaim? || st.RemoveReclaimAbsent?
  }

  predicate Enabled(s: State, st: Step) {
    match st
    case FinBegin(j) => j < s.known && j !in s.fins
    case FinCancel(j) => At(s, j, Recorded)
    case FinLock(j) => At(s, j, CancelSent) && s.lock.Free?
    case FinBypass(j) => At(s, j, CancelSent)
    case FinReadMark(j) => j in s.fins && s.fins[j].Waited?
    case FinOccupy(j) => j in s.fins && s.fins[j].Unmarked?
    case FinHistory(j) => j in s.fins && s.fins[j].Filing?
    case FinRemove(j, _) => j in s.fins && s.fins[j].Removing?
    case FinNote(j) => j in s.fins && s.fins[j].Noting?
    case FinReclaim(j) => j in s.fins && s.fins[j].Reclaiming?
    case FinRelease(j) => j in s.fins && s.fins[j].Ending?
    case FinEnd(j) => At(s, j, Unlocked) && s.finalizing > 0
    case Evict => s.registered.Some? && s.registered.value in s.cancelled
    case RemoveBegin => s.lock.Free?
    case RemoveLookup => s.lock == Removal(Claimed)
    case RemoveReclaimAbsent => s.lock == Removal(Absent)
    case RemoveMark => s.lock.Removal? && s.lock.r.Found?
    case RemoveCancel => s.lock.Removal? && s.lock.r.Marked?
    case RemoveRemove(_) => s.lock.Removal? && s.lock.r.Cancelled?
    case RemoveReclaim => s.lock.Removal? && s.lock.r.Removed?
    case RetryBegin => s.lock.Free? && s.finalizing == 0
    case RetryCheckRegistered => s.lock == Retry(Started)
    case RetryCheckFinalizing => s.lock == Retry(Unregistered)
    case RetryAbort => s.lock == Retry(Passed)
    case RetryAdd => s.lock == Retry(Passed)
    case RetryEnd => s.lock.Retry? && s.lock.t.Added?
  }

  function Move(s: State, j: nat, pc: FinPc): (t: State) { s.(fins := s.fins[j := pc]) }

  function CancelRegistered(s: State): (c: set<nat>) {
    if s.registered.Some? then s.cancelled + {s.registered.value} else s.cancelled
  }

  function Do(s: State, st: Step): (t: State)
    requires Enabled(s, st)
  {
    match st
    case FinBegin(j) => Move(s, j, Recorded).(finalizing := s.finalizing + 1)
    case FinCancel(j) =>
      Move(s, j, CancelSent).(cancelled := if s.registered == Some(j) then s.cancelled + {j} else s.cancelled)
    case FinLock(j) => Move(s, j, Waited(true)).(lock := Finalizer(j))
    case FinBypass(j) => Move(s, j, Waited(false))
    case FinReadMark(j) =>
      var l := s.fins[j].lock;
      Move(s, j, if j in s.marked then Ending(l) else Unmarked(l))
    case FinOccupy(j) =>
      // A later instance under the ID stops the finalizer; no instance, or its own, does not.
      var l := s.fins[j].lock;
      Move(s, j, if s.registered.Some? && s.registered.value != j then Ending(l) else Filing(l))
    case FinHistory(j) => Move(s, j, Removing(s.fins[j].lock)).(filed := s.filed + [j])
    case FinRemove(j, ok) =>
      // By instance: a registered instance other than j is left alone, as not found.
      if s.registered != Some(j) then Move(s, j, Reclaiming(s.fins[j].lock))
      else if ok then Move(s, j, Reclaiming(s.fins[j].lock)).(registered := None)
      else Move(s, j, Noting(s.fins[j].lock))
    case FinNote(j) => Move(s, j, Reclaiming(s.fins[j].lock))
    case FinReclaim(j) => Move(s, j, Ending(s.fins[j].lock))
    case FinRelease(j) => Move(s, j, Unlocked).(lock := if s.fins[j].lock then Free else s.lock)
    case FinEnd(j) => Move(s, j, Done).(finalizing := s.finalizing - 1)
    case Evict => s.(registered := None)
    case RemoveBegin => s.(lock := Removal(Claimed))
    case RemoveLookup =>
      s.(lock := Removal(if s.registered.Some? then Found(s.registered.value) else Absent))
    case RemoveReclaimAbsent => s.(lock := Free)
    case RemoveMark => s.(marked := s.marked + {s.lock.r.j}, lock := Removal(Marked(s.lock.r.j)))
    case RemoveCancel => s.(cancelled := CancelRegistered(s), lock := Removal(Cancelled(s.lock.r.j)))
    case RemoveRemove(ok) =>
      if ok then s.(registered := None, lock := Removal(Removed(s.lock.r.j)))
      else s.(cancelled := CancelRegistered(s), lock := Free)
    case RemoveReclaim => s.(lock := Free)
    case RetryBegin => s.(lock := Retry(Started))
    case RetryCheckRegistered => s.(lock := if s.registered.None? then Retry(Unregistered) else Free)
    case RetryCheckFinalizing => s.(lock := if s.finalizing == 0 then Retry(Passed) else Free)
    case RetryAbort => s.(lock := Free)
    case RetryAdd =>
      if s.registered.Some? then s.(lock := Free)
      else s.(registered := Some(s.known), known := s.known + 1, lock := Retry(Added(s.known)))
    case RetryEnd => s.(lock := Free)
  }

  /** Nothing under way: either one instance is registered, or none is, as when the ID is
      a failed history entry left by an earlier process. */
  predicate Init(s: State) {
    s == State(Some(0), 1, {}, {}, 0, Free, map[], []) || s == State(None, 0, {}, {}, 0, Free, map[], [])
  }

  ghost predicate Trace(s: State, steps: seq<Step>, t: State)
    decreases |steps|
  {
    if steps == [] then s == t
    else Enabled(s, steps[0]) && Trace(Do(s, steps[0]), steps[1..], t)
  }

  // ---- Invariant -----------------------------------------------------------

  function Active(s: State): (a: set<nat>) { set j | j in s.fins && s.fins[j] != Done }

  /** The finalizer of j has begun, or a removal has marked j. */
  predicate Accounted(s: State, j: nat) { j in s.marked || j in s.fins }

  predicate Settled(s: State, j: nat) { j in s.marked || At(s, j, Done) }

  /** Nothing of j is filed any more: j is marked or its finalizer is done, and no
      finalizer of j is past its reading of the mark. */
  predicate Over(s: State, j: nat) {
    Settled(s, j) && (j in s.fins ==> !Committing(s.fins[j]))
  }

  ghost predicate Basics(s: State) {
    && (s.registered.Some? ==> s.registered.value == s.known - 1)
    && (forall j | j in s.fins :: j < s.known)
    && s.finalizing == |Active(s)|
    && (forall j | j in s.cancelled :: Accounted(s, j))
    && (forall j: nat | j < s.known && s.registered != Some(j) :: Accounted(s, j))
  }

  ghost predicate LockHeld(s: State) {
    && (forall j | j in s.fins && HoldsLock(s.fins[j]) :: s.lock == Finalizer(j))
  }

  predicate HoldsLock(pc: FinPc) {
    (pc.Waited? || pc.Unmarked? || pc.Filing? || pc.Removing? || pc.Noting? || pc.Reclaiming? || pc.Ending?) && pc.lock
  }

  /** Only the latest instance is not over. */
  ghost predicate OldOver(s: State) {
    forall j: nat | j + 1 < s.known :: Over(s, j)
  }

  ghost predicate Removals(s: State) {
    s.lock.Removal? ==>
      match s.lock.r
      case Found(j) => j == s.known - 1
      case Marked(j) => j == s.known - 1 && j in s.marked
      case Cancelled(j) => j == s.known - 1 && j in s.marked
      case Removed(j) => j == s.known - 1 && j in s.marked && s.registered.None?
      case _ => true
  }

  ghost predicate Retries(s: State) {
    s.lock.Retry? ==>
      match s.lock.t
      case Started => true
      case Unregistered => s.registered.None?
      case Passed => s.registered.None? && forall j: nat | j < s.known :: Over(s, j)
      case Added(k) => k == s.known - 1
  }

  ghost predicate Inv(s: State) {
    Basics(s) && LockHeld(s) && OldOver(s) && Removals(s) && Retries(s)
  }

  /** The steps that move a finalizer without beginning or ending it. */
  predicate Moves(st: Step) {
    st.FinCancel? || st.FinLock? || st.FinBypass? || st.FinReadMark? || st.FinOccupy? || st.FinHistory?
    || st.FinRemove? || st.FinNote? || st.FinReclaim? || st.FinRelease?
  }

  lemma MovesKeepActive(s: State, st: Step)
    requires Enabled(s, st) && Moves(st)
    ensures Active(Do(s, st)) == Active(s) && Do(s, st).finalizing == s.finalizing
  {
    var t := Do(s, st);
    assert st.j in Active(s) && t.fins[st.j] != Done;
    assert t.fins == s.fins[st.j := t.fins[st.j]];
  }

  lemma ActiveKept(s: State, st: Step)
    requires Basics(s) && Enabled(s, st)
    ensures Do(s, st).finalizing == |Active(Do(s, st))|
  {
    if Moves(st) {
      MovesKeepActive(s, st);
    } else if st.FinBegin? {
      assert Active(Do(s, st)) == Active(s) + {st.j};
    } else if st.FinEnd? {
      assert Active(Do(s, st)) == Active(s) - {st.j};
    } else {
      assert Do(s, st).fins == s.fins;
    }
  }

  lemma BasicsKept(s: State, st: Step)
    requires Inv(s) && Enabled(s, st)
    ensures Basics(Do(s, st))
  {
    ActiveKept(s, st);
  }

  lemma LockKept(s: State, st: Step)
    requires LockHeld(s) && Enabled(s, st)
    ensures LockHeld(Do(s, st))
  {
  }

  /** An instance that is over stays over: its mark is never withdrawn, and its
      finalizer reads the mark before any by-ID step. */
  lemma OverKept(s: State, st: Step, j: nat)
    requires Over(s, j) && Enabled(s, st)
    ensures Over(Do(s, st), j)
  {
  }

  lemma OldOverKept(s: State, st: Step)
    requires Inv(s) && Enabled(s, st)
    ensures OldOver(Do(s, st))
  {
    var t := Do(s, st);
    forall j: nat | j + 1 < t.known ensures Over(t, j) {
      OverKept(s, st, j);
    }
  }

  /** At the retry's finalizing check no finalizer is active, so every instance the
      registration check found gone is marked or done. */
  lemma RetriesKept(s: State, st: Step)
    requires Inv(s) && Enabled(s, st)
    ensures Retries(Do(s, st))
  {
    var t := Do(s, st);
    if st.RetryCheckFinalizing? && s.finalizing == 0 {
      assert Active(s) == {};
      forall j: nat | j < s.known ensures Over(t, j) {
        assert Accounted(s, j);
        assert j !in Active(s);
      }
    } else if t.lock == Retry(Passed) {
      forall j: nat | j < t.known ensures Over(t, j) {
        OverKept(s, st, j);
      }
    }
  }

  lemma RemovalsKept(s: State, st: Step)
    requires Inv(s) && Enabled(s, st)
    ensures Removals(Do(s, st))
  {
  }

  lemma StepKeepsInv(s: State, st: Step)
    requires Inv(s) && Enabled(s, st)
    ensures Inv(Do(s, st))
  {
    BasicsKept(s, st);
    LockKept(s, st);
    OldOverKept(s, st);
    RemovalsKept(s, st);
    RetriesKept(s, st);
  }

  lemma {:induction false} TraceKeepsInv(s: State, steps: seq<Step>, t: State)
    requires Inv(s) && Trace(s, steps, t)
    ensures Inv(t)
    decreases |steps|
  {
    if steps != [] {
      StepKeepsInv(s, steps[0]);
      TraceKeepsInv(Do(s, steps[0]), steps[1..], t);
    }
  }

  /** A run extended by one enabled step is a run. */
  lemma {:induction false} TraceSnoc(s: State, steps: seq<Step>, t: State, st: Step)
    requires Trace(s, steps, t) && Enabled(t, st)
    ensures Trace(s, steps + [st], Do(t, st))
    decreases |steps|
  {
    var more := steps + [st];
    if steps == [] {
      assert more[1..] == [];
    } else {
      assert more[0] == steps[0] && more[1..] == steps[1..] + [st];
      TraceSnoc(Do(s, steps[0]), steps[1..], t, st);
    }
  }

  lemma ReachableInv(s: State, steps: seq<Step>, t: State)
    requires Init(s) && Trace(s, steps, t)
    ensures Inv(t)
  {
    assert Active(s) == {};
    TraceKeepsInv(s, steps, t);
  }

  // ---- Theorems ------------------------------------------------------------

  /** While a retry is past its checks, no by-ID step of a removal, or of a
      finalizer of any instance but the one the retry itself registered, can
      happen: not even of a finalizer that runs without the lock. */
  lemma NoByIdStepBesideARetry(s: State, steps: seq<Step>, t: State, st: Step)
    requires Init(s) && Trace(s, steps, t)
    requires t.lock == Retry(Passed) || (t.lock.Retry? && t.lock.t.Added?)
    requires Enabled(t, st) && ById(st)
    ensures t.lock != Retry(Passed)
    ensures (st.FinHistory? || st.FinNote? || st.FinReclaim?) && st.j == t.lock.t.k
  {
    ReachableInv(s, steps, t);
    assert st.FinHistory? || st.FinNote? || st.FinReclaim?;
    assert Committing(t.fins[st.j]);
    assert t.lock == Retry(Passed) || st.j + 1 < t.known ==> Over(t, st.j);
  }

  /** A finalizer acts by ID only for the latest instance of the ID, so what it
      files, marks or reclaims is never a later instance's. */
  lemma FinalizerActsOnItsOwn(s: State, steps: seq<Step>, t: State, st: Step)
    requires Init(s) && Trace(s, steps, t)
    requires Enabled(t, st) && (st.FinHistory? || st.FinNote? || st.FinReclaim?)
    ensures st.j == t.known - 1 && (t.registered.None? || t.registered == Some(st.j))
  {
    ReachableInv(s, steps, t);
    assert st.j + 1 < t.known ==> Over(t, st.j);
  }

  /** A retry that reaches its registration finds the ID free. */
  lemma RetryRegisters(s: State, steps: seq<Step>, t: State)
    requires Init(s) && Trace(s, steps, t) && Enabled(t, RetryAdd)
    ensures Do(t, RetryAdd).registered == Some(t.known)
  {
    ReachableInv(s, steps, t);
  }

  /** The exclusion is not the lock's: a finalizer that gave up waiting files its
      run while a removal holds the lock. */
  lemma BypassIsReachable()
    ensures exists s, steps, t ::
      Init(s) && Trace(s, steps, t) && t.lock.Removal? && 0 in t.fins && t.fins[0] == Filing(false)
  {
    var s, steps, t := BypassRun();
  }

  lemma BypassRun() returns (s: State, steps: seq<Step>, t: State)
    ensures Init(s) && Trace(s, steps, t)
    ensures t.lock.Removal? && 0 in t.fins && t.fins[0] == Filing(false)
  {
    s, steps := State(Some(0), 1, {}, {}, 0, Free, map[], []), [];
    t := s;
    steps, t := Extend(s, steps, t, RemoveBegin);
    steps, t := Extend(s, steps, t, FinBegin(0));
    steps, t := Extend(s, steps, t, FinCancel(0));
    steps, t := Extend(s, steps, t, FinBypass(0));
    steps, t := Extend(s, steps, t, FinReadMark(0));
    steps, t := Extend(s, steps, t, FinOccupy(0));
  }

  lemma Extend(s: State, steps: seq<Step>, t: State, st: Step) returns (more: seq<Step>, u: State)
    requires Trace(s, steps, t) && Enabled(t, st)
    ensures Trace(s, more, u) && u == Do(t, st)
  {
    TraceSnoc(s, steps, t, st);
    more, u := steps + [st], Do(t, st);
  }
}

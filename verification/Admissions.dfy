/**
 Post-processing admission (internal/app/postproc_admission.go): which job
 instances have been handed to post-processing, the failure reasons offered to
 them, the step tokens of their hand-over, and the reasons deferred to their
 Assessing worker.

 What a call does to one instance is a function on that instance's `Rec`. The
 class is the in-place code, proved to act on every instance as they say.
 Channels are numbered; so are visits, whose number stands for the pointer the
 code compares.
 */
module Admissions {

  import opened Wrappers

  datatype Admission = Admission(
    failMsg: string, isSealed: bool, notes: seq<string>, notesTaken: bool,
    removedClosed: bool, busy: Option<nat>)

  datatype Visit = Visit(number: nat, reasons: seq<string>, owned: bool)

  datatype Outcome =
    | Admitted | Refused | RefusedReasonKept | RefusedReasonNoted | RefusedEnded | DeferredToAssessing

  /** What is recorded of one instance. */
  datatype Rec = Rec(adm: Option<Admission>, ended: bool, visit: Option<Visit>)

  // ---- awaitsAssessing -----------------------------------------------------

  datatype JobState = Unset | Fetching | Assessing | Other

  datatype Snapshot = Snapshot(open: bool, state: JobState, next: JobState, complete: bool)

  /** At Assessing, due at Assessing, or complete at Fetching. */
  predicate AwaitsAssessing(s: Snapshot) {
    s.open &&
    (if s.next == Assessing then true
     else if s.next != Unset then false
     else if s.state == Assessing then true
     else s.state == Fetching && s.complete)
  }

  // ---- The effect on one instance ------------------------------------------

  function AdmitRec(r: Rec, msg: string): (out: (Rec, Outcome)) {
    if r.ended then (r, RefusedEnded)
    else match r.adm
      case None => (r.(adm := Some(Admission(msg, false, [], false, false, None))), Admitted)
      case Some(a) =>
        if msg == "" || msg == a.failMsg || msg in a.notes then (r, Refused)
        else if a.notesTaken then (r, RefusedEnded)
        else if a.failMsg == "" && !a.isSealed then (r.(adm := Some(a.(failMsg := msg))), RefusedReasonKept)
        else (r.(adm := Some(a.(notes := a.notes + [msg]))), RefusedReasonNoted)
  }

  /** number is what a visit created by the call would be numbered. */
  function AdmitUnlessAssessingRec(r: Rec, msg: string, awaits: bool, number: nat): (out: (Rec, Outcome)) {
    if r.ended then (r, RefusedEnded)
    else if r.adm.None? && awaits then
      if msg == "" then (r, DeferredToAssessing)
      else
        var v := if r.visit.Some? then r.visit.value else Visit(number, [], false);
        (r.(visit := Some(v.(reasons := v.reasons + [msg]))), DeferredToAssessing)
    else AdmitRec(r, msg)
  }

  /** The visit beginAssess returns is the one then current. */
  function BeginAssessRec(r: Rec, number: nat): (out: Rec)
    ensures out.visit.Some? && out.visit.value.owned
  {
    match r.visit
    case None => r.(visit := Some(Visit(number, [], true)))
    case Some(v) =>
      if v.owned then r.(visit := Some(Visit(number, v.reasons, true)))
      else r.(visit := Some(v.(owned := true)))
  }

  function TakeDeferredRec(r: Rec): (out: (Rec, seq<string>)) {
    match r.visit
    case None => (r, [])
    case Some(v) => (r.(visit := Some(v.(reasons := []))), v.reasons)
  }

  function EndAssessRec(r: Rec, number: nat): (out: (Rec, seq<string>)) {
    if r.visit.Some? && r.visit.value.number == number
    then (r.(visit := None), r.visit.value.reasons)
    else (r, [])
  }

  /** token is what a channel made by the call would be numbered. */
  function BeginWaitRec(r: Rec, token: nat): (out: (Rec, Option<nat>)) {
    match r.adm
    case None => (r, None)
    case Some(a) => (r.(adm := Some(a.(busy := Some(token)))), Some(token))
  }

  function BeginHandOverRec(r: Rec, marked: bool, token: nat): (out: (Rec, Option<nat>)) {
    if r.adm.None? || marked then (r, None)
    else (r.(adm := Some(r.adm.value.(isSealed := true, busy := Some(token)))), Some(token))
  }

  /** Also gives the token the call closes. */
  function EndStepRec(r: Rec, token: Option<nat>): (out: (Rec, Option<nat>)) {
    if r.adm.Some? && token.Some? && r.adm.value.busy == token
    then (r.(adm := Some(r.adm.value.(busy := None))), token)
    else (r, None)
  }

  function AsSet(token: Option<nat>): (c: set<nat>) { if token.Some? then {token.value} else {} }

  /** withdraw up to its wait: closes removed once, and gives the token it waits for. */
  function WithdrawRec(r: Rec): (out: (Rec, Option<nat>)) {
    match r.adm
    case None => (r, None)
    case Some(a) => (r.(adm := Some(a.(removedClosed := true))), a.busy)
  }

  function CloseNotesRec(r: Rec): (out: (Rec, seq<string>)) {
    match r.adm
    case None => (r, [])
    case Some(a) => (r.(adm := Some(a.(notesTaken := true))), a.notes)
  }

  function ReleaseRec(r: Rec): (out: (Rec, Option<nat>)) {
    (r.(adm := None, ended := true), if r.adm.Some? then r.adm.value.busy else None)
  }

  // ---- The in-place code ---------------------------------------------------

  class PostProcAdmissions {
    var jobs: map<Job, Admission>
    var ended: set<Job>
    var assessing: map<Job, Visit>
    var channels: nat  // channels made so far
    var visits: nat    // visits made so far
    ghost var closed: set<nat>

    ghost function RecOf(j: Job): (r: Rec)
      reads this
    {
      Rec(if j in jobs then Some(jobs[j]) else None, j in ended,
          if j in assessing then Some(assessing[j]) else None)
    }

    /** Every visit, and every token open or closed, has a number already given out:
        the next one is new. */
    ghost predicate Valid()
      reads this
    {
      && (forall j | j in assessing :: assessing[j].number < visits)
      && (forall j | j in jobs && jobs[j].busy.Some? :: jobs[j].busy.value < channels)
      && (forall k | k in closed :: k < channels)
    }

    constructor ()
      ensures Valid()
      ensures forall j :: RecOf(j) == Rec(None, false, None)
      ensures closed == {}
    {
      jobs, ended, assessing, channels, visits, closed := map[], {}, map[], 0, 0, {};
    }

    method Admit(j: Job, msg: string) returns (o: Outcome)
      requires Valid()
      modifies this`jobs
      ensures Valid()
      ensures (RecOf(j), o) == AdmitRec(old(RecOf(j)), msg)
      ensures forall k :: k != j ==> RecOf(k) == old(RecOf(k))
    {
      if j in ended {
        return RefusedEnded;
      }
      if j in jobs {
        var cur := jobs[j];
        if msg == "" || msg == cur.failMsg || msg in cur.notes {
          return Refused;
        }
        if cur.notesTaken {
          return RefusedEnded;
        }
        if cur.failMsg == "" && !cur.isSealed {
          jobs := jobs[j := cur.(failMsg := msg)];
          return RefusedReasonKept;
        }
        jobs := jobs[j := cur.(notes := cur.notes + [msg])];
        return RefusedReasonNoted;
      }
      jobs := jobs[j := Admission(msg, false, [], false, false, None)];
      return Admitted;
    }

    method AdmitUnlessAssessing(j: Job, msg: string, snap: Snapshot) returns (o: Outcome)
      requires Valid()
      modifies this`jobs, this`assessing, this`visits
      ensures Valid()
      ensures (RecOf(j), o) == AdmitUnlessAssessingRec(old(RecOf(j)), msg, AwaitsAssessing(snap), old(visits))
      ensures visits == old(visits) + if RecOf(j).visit.Some? && old(RecOf(j)).visit.None? then 1 else 0
      ensures forall k :: k != j ==> RecOf(k) == old(RecOf(k))
    {
      if j in ended {
        return RefusedEnded;
      }
      if j !in jobs && AwaitsAssessing(snap) {
        if msg == "" {
          return DeferredToAssessing;
        }
        var v;
        if j in assessing {
          v := assessing[j];
        } else {
          v := Visit(visits, [], false);
          visits := visits + 1;
        }
        assessing := assessing[j := v.(reasons := v.reasons + [msg])];
        return DeferredToAssessing;
      }
      o := Admit(j, msg);
    }

    method BeginAssess(j: Job) returns (number: nat)
      requires Valid()
      modifies this`assessing, this`visits
      ensures Valid()
      ensures RecOf(j) == BeginAssessRec(old(RecOf(j)), old(visits))
      ensures RecOf(j).visit.Some? && number == RecOf(j).visit.value.number < visits
      ensures old(RecOf(j)).visit.Some? && !old(RecOf(j)).visit.value.owned ==> visits == old(visits)
      ensures old(RecOf(j)).visit.None? || old(RecOf(j)).visit.value.owned ==>
        number == old(visits) && visits == old(visits) + 1
      ensures forall k :: k != j ==> RecOf(k) == old(RecOf(k))
    {
      var v;
      if j !in assessing {
        v := Visit(visits, [], true);
        visits := visits + 1;
      } else if assessing[j].owned {
        v := Visit(visits, assessing[j].reasons, true);
        visits := visits + 1;
      } else {
        v := assessing[j].(owned := true);
      }
      assessing := assessing[j := v];
      number := v.number;
    }

    method TakeDeferred(j: Job) returns (reasons: seq<string>)
      requires Valid()
      modifies this`assessing
      ensures Valid()
      ensures (RecOf(j), reasons) == TakeDeferredRec(old(RecOf(j)))
      ensures forall k :: k != j ==> RecOf(k) == old(RecOf(k))
    {
      if j !in assessing {
        return [];
      }
      reasons := assessing[j].reasons;
      assessing := assessing[j := assessing[j].(reasons := [])];
    }

    method EndAssess(j: Job, number: nat) returns (reasons: seq<string>)
      requires Valid()
      modifies this`assessing
      ensures Valid()
      ensures (RecOf(j), reasons) == EndAssessRec(old(RecOf(j)), number)
      ensures forall k :: k != j ==> RecOf(k) == old(RecOf(k))
    {
      if !(j in assessing && assessing[j].number == number) {
        return [];
      }
      reasons := assessing[j].reasons;
      assessing := assessing - {j};
    }

    method BeginWait(j: Job) returns (token: Option<nat>)
      requires Valid()
      modifies this`jobs, this`channels
      ensures Valid()
      ensures (RecOf(j), token) == BeginWaitRec(old(RecOf(j)), old(channels))
      ensures channels == old(channels) + if token.Some? then 1 else 0
      ensures forall k :: k != j ==> RecOf(k) == old(RecOf(k))
    {
      if j !in jobs {
        return None;
      }
      token := Some(channels);
      jobs := jobs[j := jobs[j].(busy := token)];
      channels := channels + 1;
    }

    method BeginHandOver(j: Job, marked: bool) returns (failMsg: string, token: Option<nat>)
      requires Valid()
      modifies this`jobs, this`channels
      ensures Valid()
      ensures (RecOf(j), token) == BeginHandOverRec(old(RecOf(j)), marked, old(channels))
      ensures channels == old(channels) + if token.Some? then 1 else 0
      ensures token.Some? ==> failMsg == RecOf(j).adm.value.failMsg
      ensures forall k :: k != j ==> RecOf(k) == old(RecOf(k))
    {
      if j !in jobs || marked {
        return "", None;
      }
      token := Some(channels);
      failMsg := jobs[j].failMsg;
      jobs := jobs[j := jobs[j].(isSealed := true, busy := token)];
      channels := channels + 1;
    }

    method EndStep(j: Job, token: Option<nat>)
      requires Valid()
      modifies this`jobs, this`closed
      ensures Valid()
      ensures RecOf(j) == EndStepRec(old(RecOf(j)), token).0
      ensures closed == old(closed) + AsSet(EndStepRec(old(RecOf(j)), token).1)
      ensures forall k :: k != j ==> RecOf(k) == old(RecOf(k))
    {
      if j in jobs && token.Some? && jobs[j].busy == token {
        closed := closed + {token.value};
        jobs := jobs[j := jobs[j].(busy := None)];
      }
    }

    /** withdraw's locked part; the caller then waits until the token is closed. */
    method Withdraw(j: Job) returns (wait: Option<nat>)
      requires Valid()
      modifies this`jobs
      ensures Valid()
      ensures (RecOf(j), wait) == WithdrawRec(old(RecOf(j)))
      ensures forall k :: k != j ==> RecOf(k) == old(RecOf(k))
    {
      if j !in jobs {
        return None;
      }
      wait := jobs[j].busy;
      jobs := jobs[j := jobs[j].(removedClosed := true)];
    }

    method CloseAndTakeNotes(j: Job) returns (notes: seq<string>)
      requires Valid()
      modifies this`jobs
      ensures Valid()
      ensures (RecOf(j), notes) == CloseNotesRec(old(RecOf(j)))
      ensures forall k :: k != j ==> RecOf(k) == old(RecOf(k))
    {
      if j !in jobs {
        return [];
      }
      notes := jobs[j].notes;
      jobs := jobs[j := jobs[j].(notesTaken := true)];
    }

    method Release(j: Job)
      requires Valid()
      modifies this`jobs, this`ended, this`closed
      ensures Valid()
      ensures RecOf(j) == ReleaseRec(old(RecOf(j))).0
      ensures closed == old(closed) + AsSet(ReleaseRec(old(RecOf(j))).1)
      ensures forall k :: k != j ==> RecOf(k) == old(RecOf(k))
    {
      if j in jobs && jobs[j].busy.Some? {
        closed := closed + {jobs[j].busy.value};
      }
      jobs := jobs - {j};
      ended := ended + {j};
    }
  }
}

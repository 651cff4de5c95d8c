/**
 Hydrate and Evict of one job as users of a latch and a cancel
 (internal/app/residency.go, internal/keyedlatch/latch.go). A step is one span of
 the residency's mu, or the end of a wait. Claims are numbered; a claim's number
 stands for the channel its release closes.
 */
module Residency {

  import opened Wrappers

  /** What mu guards for one ID: the claim on the latch, and the cancel registered.
      A cancel is named by the hydration it cancels. */
  datatype Slot = Slot(claim: Option<nat>, cancel: Option<nat>)

  // ---- The in-place code, over every ID -----------------------------------------------

  class Claims {
    var hydrating: map<string, nat>
    var cancels: map<string, nat>
    var made: nat

    function SlotOf(id: string): (s: Slot)
      reads this
    {
      Slot(if id in hydrating then Some(hydrating[id]) else None, if id in cancels then Some(cancels[id]) else None)
    }

    /** Seen under mu, an ID has a cancel exactly while a hydration holds its claim. */
    ghost predicate Valid()
      reads this
    {
      hydrating.Keys == cancels.Keys && forall id | id in hydrating :: hydrating[id] < made
    }

    constructor ()
      ensures Valid() && forall id :: SlotOf(id) == Slot(None, None)
    {
      hydrating, cancels, made := map[], map[], 0;
    }

    /** Hydrate's locked attempt. Busy: another hydration holds the claim. Resident:
        the claim was taken and given back in this span. */
    method TryHydrate(id: string, h: nat, resident: bool) returns (claim: Option<nat>, busy: bool)
      requires Valid()
      modifies this
      ensures Valid()
      ensures busy <==> old(SlotOf(id)).claim.Some?
      ensures claim.Some? <==> !busy && !resident
      ensures claim.Some? ==> claim.value == old(made) && SlotOf(id) == Slot(claim, Some(h))
      ensures claim.None? ==> SlotOf(id) == old(SlotOf(id))
      ensures forall other :: other != id ==> SlotOf(other) == old(SlotOf(other))
    {
      if id in hydrating {
        return None, true;
      }
      hydrating := hydrating[id := made];
      claim := Some(made);
      made := made + 1;
      if resident {
        hydrating := hydrating - {id};
        return None, false;
      }
      cancels := cancels[id := h];
      return claim, false;
    }

    /** Hydrate's deferred span. */
    method EndHydrate(id: string)
      requires Valid()
      modifies this
      ensures Valid() && SlotOf(id) == Slot(None, None)
      ensures forall other :: other != id ==> SlotOf(other) == old(SlotOf(other))
    {
      cancels := cancels - {id};
      hydrating := hydrating - {id};
    }

    /** Evict's look: nothing in flight, or the claim to wait for and the hydration
        its cancel reaches, which is always there. */
    method EvictLook(id: string) returns (wait: Option<nat>, cancelled: Option<nat>)
      requires Valid()
      ensures wait == SlotOf(id).claim && cancelled == SlotOf(id).cancel
      ensures wait.Some? <==> cancelled.Some?
    {
      if id !in hydrating {
        return None, None;
      }
      return Some(hydrating[id]), Some(cancels[id]);
    }
  }

  // ---- The protocol, for one ID ---------------------------------------------------------

  datatype HydratePc = Trying | Blocked | Running(claim: nat) | Attached(claim: nat) | Returned

  datatype EvictPc = Looking | Waiting(claim: nat) | Dropped

  /** told is the hydrations an Evict has cancelled; closed the claims released. */
  datatype State = State(
    slot: Slot, claims: nat, closed: set<nat>, resident: bool,
    hydrations: map<nat, HydratePc>, evictions: map<nat, EvictPc>, told: set<nat>)

  datatype Step =
    | HydrateBegin(h: nat) | HydrateTry(h: nat) | HydrateWake(h: nat) | HydrateGiveUp(h: nat)
    | HydrateAttach(h: nat) | HydrateEnd(h: nat)
    | EvictBegin(e: nat) | EvictTurn(e: nat) | EvictWake(e: nat)
    | Ingest  // articles attached outside any hydration

  predicate Enabled(s: State, st: Step) {
    match st
    case HydrateBegin(h) => h !in s.hydrations
    case HydrateTry(h) => h in s.hydrations && s.hydrations[h].Trying?
    case HydrateWake(h) => h in s.hydrations && s.hydrations[h].Blocked?
    case HydrateGiveUp(h) => h in s.hydrations && s.hydrations[h].Blocked?
    case HydrateAttach(h) => h in s.hydrations && s.hydrations[h].Running?
    case HydrateEnd(h) => h in s.hydrations && (s.hydrations[h].Running? || s.hydrations[h].Attached?)
    case EvictBegin(e) => e !in s.evictions
    case EvictTurn(e) => e in s.evictions && s.evictions[e].Looking?
    case EvictWake(e) => e in s.evictions && s.evictions[e].Waiting? && s.evictions[e].claim in s.closed
    case Ingest => true
  }

  function Move(s: State, h: nat, pc: HydratePc): (t: State) { s.(hydrations := s.hydrations[h := pc]) }

  function Do(s: State, st: Step): (t: State)
    requires Enabled(s, st)
  {
    match st
    case HydrateBegin(h) => Move(s, h, Trying)
    case HydrateTry(h) =>
      if s.slot.claim.Some? then Move(s, h, Blocked)
      else if s.resident then Move(s, h, Returned).(claims := s.claims + 1, closed := s.closed + {s.claims})
      else Move(s, h, Running(s.claims)).(slot := Slot(Some(s.claims), Some(h)), claims := s.claims + 1)
    case HydrateWake(h) => Move(s, h, Trying)
    case HydrateGiveUp(h) => Move(s, h, Returned)
    case HydrateAttach(h) => Move(s, h, Attached(s.hydrations[h].claim)).(resident := true)
    case HydrateEnd(h) =>
      // The deferred span drops whatever cancel and claim the ID has.
      Move(s, h, Returned).(slot := Slot(None, None),
        closed := if s.slot.claim.Some? then s.closed + {s.slot.claim.value} else s.closed)
    case EvictBegin(e) => s.(evictions := s.evictions[e := Looking])
    case EvictTurn(e) =>
      if s.slot.claim.None? then s.(resident := false, evictions := s.evictions[e := Dropped])
      else s.(evictions := s.evictions[e := Waiting(s.slot.claim.value)],
              told := if s.slot.cancel.Some? then s.told + {s.slot.cancel.value} else s.told)
    case EvictWake(e) => s.(evictions := s.evictions[e := Looking])
    case Ingest => s.(resident := true)
  }

  const START := State(Slot(None, None), 0, {}, false, map[], map[], {})

  ghost predicate Trace(s: State, steps: seq<Step>, t: State)
    decreases |steps|
  {
    if steps == [] then s == t
    else Enabled(s, steps[0]) && Trace(Do(s, steps[0]), steps[1..], t)
  }

  predicate InFlight(pc: HydratePc) { pc.Running? || pc.Attached? }

  predicate Inv(s: State) {
    && (s.slot.claim.Some? <==> s.slot.cancel.Some?)
    && (s.slot.claim.Some? ==>
          var h := s.slot.cancel.value;
          h in s.hydrations && InFlight(s.hydrations[h]) && s.hydrations[h].claim == s.slot.claim.value)
    && (forall h | h in s.hydrations && InFlight(s.hydrations[h]) ::
          s.slot == Slot(Some(s.hydrations[h].claim), Some(h)))
    && (s.slot.claim.Some? ==> s.slot.claim.value < s.claims && s.slot.claim.value !in s.closed)
    && (forall k | k in s.closed :: k < s.claims)
    && (forall e | e in s.evictions && s.evictions[e].Waiting? ::
          s.evictions[e].claim in s.closed || s.slot.claim == Some(s.evictions[e].claim))
    && (forall e | e in s.evictions && s.evictions[e].Waiting? && s.evictions[e].claim !in s.closed ::
          s.slot.cancel.Some? && s.slot.cancel.value in s.told)
  }

  lemma StepKeepsInv(s: State, st: Step)
    requires Inv(s) && Enabled(s, st)
    ensures Inv(Do(s, st))
  {
  }

  lemma {:induction false} TraceKeepsInv(s: State, steps: seq<Step>, t: State)
    requires Inv(s) && Trace(s, steps, t)
    ensures Inv(t)
    decreases |steps|
  {
    if steps != [] {
      StepKeepsInv(s, steps[0]);
      TraceKeepsInv(Do(s, steps[0]), steps[1..], t);
    }
  }

  /** At most one hydration of an ID runs, and it is the one whose cancel is registered
      and whose claim is held. */
  lemma OneHydrationAtATime(steps: seq<Step>, t: State, h: nat, g: nat)
    requires Trace(START, steps, t)
    requires h in t.hydrations && InFlight(t.hydrations[h]) && g in t.hydrations && InFlight(t.hydrations[g])
    ensures h == g && t.slot == Slot(Some(t.hydrations[h].claim), Some(h))
  {
    TraceKeepsInv(START, steps, t);
  }

  /** An ID has a cancel exactly when a hydration holds its claim, so Evict never
      calls a missing one, and the one it calls is that hydration's. */
  lemma EvictCancelsTheHolder(steps: seq<Step>, t: State)
    requires Trace(START, steps, t)
    ensures t.slot.claim.Some? <==> t.slot.cancel.Some?
    ensures t.slot.claim.Some? <==> exists h :: h in t.hydrations && InFlight(t.hydrations[h])
    ensures t.slot.claim.Some? ==> t.slot.cancel.value in t.hydrations && InFlight(t.hydrations[t.slot.cancel.value])
  {
    TraceKeepsInv(START, steps, t);
  }

  /** Evict drops the manifest only with no hydration in flight. */
  lemma DropsOnlyWhenQuiet(steps: seq<Step>, t: State, e: nat, h: nat)
    requires Trace(START, steps, t) && Enabled(t, EvictTurn(e)) && Do(t, EvictTurn(e)).evictions[e].Dropped?
    requires h in t.hydrations
    ensures !InFlight(t.hydrations[h])
  {
    TraceKeepsInv(START, steps, t);
  }

  /** An Evict that waits, waits for the hydration it cancelled. */
  lemma EvictWaitsForTheOneItCancelled(steps: seq<Step>, t: State, e: nat)
    requires Trace(START, steps, t) && e in t.evictions && t.evictions[e].Waiting?
    ensures !Enabled(t, EvictWake(e)) ==>
      (&& t.slot.claim == Some(t.evictions[e].claim)
       && t.slot.cancel.Some? && t.slot.cancel.value in t.told
       && Enabled(t, HydrateEnd(t.slot.cancel.value)))
  {
    TraceKeepsInv(START, steps, t);
  }

  /** The end of any hydration in flight wakes every waiting Evict: no Evict is left
      asleep, whichever hydration held the claim when it looked. */
  lemma EveryEndWakesEveryEvict(steps: seq<Step>, t: State, h: nat, e: nat)
    requires Trace(START, steps, t) && Enabled(t, HydrateEnd(h))
    requires e in t.evictions && t.evictions[e].Waiting?
    ensures Enabled(Do(t, HydrateEnd(h)), EvictWake(e))
  {
    TraceKeepsInv(START, steps, t);
  }

  // ---- Outcomes ----------------------------------------------------------------------------

  /** A hydration's attempt blocks exactly while another hydration is in flight; otherwise
      it returns at once if the articles are resident, and starts one if not. */
  lemma HydrateAnswers(steps: seq<Step>, t: State, h: nat)
    requires Trace(START, steps, t) && Enabled(t, HydrateTry(h))
    ensures var u := Do(t, HydrateTry(h));
      var busy := exists g :: g in t.hydrations && InFlight(t.hydrations[g]);
      && (u.hydrations[h].Blocked? <==> busy)
      && (u.hydrations[h].Returned? <==> !busy && t.resident)
      && (u.hydrations[h].Running? <==> !busy && !t.resident)
      && (u.hydrations[h].Running? ==> u.slot == Slot(Some(u.hydrations[h].claim), Some(h)))
      && u.resident == t.resident
  {
    TraceKeepsInv(START, steps, t);
  }

  /** An Evict's turn drops the manifest exactly when no hydration is in flight, and
      otherwise cancels the one that is and waits for it. */
  lemma EvictAnswers(steps: seq<Step>, t: State, e: nat)
    requires Trace(START, steps, t) && Enabled(t, EvictTurn(e))
    ensures var u := Do(t, EvictTurn(e));
      && (if exists g :: g in t.hydrations && InFlight(t.hydrations[g])
          then u.evictions[e].Waiting? && u.resident == t.resident
          else u.evictions[e] == Dropped && !u.resident)
      && (forall g | g in t.hydrations && InFlight(t.hydrations[g]) ::
            g in u.told && u.evictions[e] == Waiting(t.hydrations[g].claim))
  {
    TraceKeepsInv(START, steps, t);
  }

  /** A hydration in flight attaches the articles, and its end frees the ID for the next. */
  lemma HydrationAttaches(steps: seq<Step>, t: State, h: nat)
    requires Trace(START, steps, t) && h in t.hydrations
    ensures t.hydrations[h].Running? ==> Enabled(t, HydrateAttach(h)) && Do(t, HydrateAttach(h)).resident
    ensures InFlight(t.hydrations[h]) ==>
      Enabled(t, HydrateEnd(h)) && Do(t, HydrateEnd(h)).slot == Slot(None, None)
      && Do(t, HydrateEnd(h)).resident == t.resident
  {
    TraceKeepsInv(START, steps, t);
  }

  predicate Attaches(st: Step) { st.HydrateAttach? || st.Ingest? }

  /** After an Evict drops it, the manifest stays dropped until a hydration or an ingest
      attaches it again. */
  lemma {:induction false} DroppedStaysDropped(s: State, steps: seq<Step>, t: State)
    requires Trace(s, steps, t) && !s.resident && forall st | st in steps :: !Attaches(st)
    ensures !t.resident
    decreases |steps|
  {
    if steps != [] {
      assert steps[0] in steps;
      DroppedStaysDropped(Do(s, steps[0]), steps[1..], t);
    }
  }

  lemma {:induction false} TraceAppend(s: State, a: seq<Step>, m: State, b: seq<Step>, t: State)
    requires Trace(s, a, m) && Trace(m, b, t)
    ensures Trace(s, a + b, t)
    decreases |a|
  {
    if a == [] {
      assert a + b == b;
    } else {
      TraceAppend(Do(s, a[0]), a[1..], m, b, t);
      assert (a + b)[1..] == a[1..] + b;
    }
  }

  lemma Extend(s: State, a: seq<Step>, m: State, st: Step) returns (b: seq<Step>, t: State)
    requires Trace(s, a, m) && Enabled(m, st)
    ensures Trace(s, b, t) && t == Do(m, st) && b == a + [st]
  {
    b, t := a + [st], Do(m, st);
    assert Trace(t, [st][1..], t);
    TraceAppend(s, a, m, [st], t);
  }

  /** An Evict begun can always come back with the manifest dropped, once the hydration in
      flight, if any, ends and no other is started. */
  lemma EvictCanDrop(steps: seq<Step>, t: State, e: nat) returns (more: seq<Step>, u: State)
    requires Trace(START, steps, t) && e in t.evictions && t.evictions[e] != Dropped
    ensures Trace(START, more, u) && e in u.evictions && u.evictions[e] == Dropped && !u.resident
  {
    TraceKeepsInv(START, steps, t);
    more, u := steps, t;
    if t.slot.cancel.Some? {
      more, u := Extend(START, more, u, HydrateEnd(t.slot.cancel.value));
    }
    if t.evictions[e].Waiting? {
      assert u.evictions[e].claim in u.closed;
      more, u := Extend(START, more, u, EvictWake(e));
    }
    more, u := Extend(START, more, u, EvictTurn(e));
  }

  /** A hydration starts and attaches, and an Evict that finds it waits, is woken by its
      end and drops the manifest. */
  lemma AHydrationIsEvicted() returns (steps: seq<Step>, t: State)
    ensures Trace(START, steps, t) && t.hydrations == map[0 := Returned] && t.evictions == map[0 := Dropped]
    ensures t.told == {0} && !t.resident
  {
    steps, t := Extend(START, [], START, HydrateBegin(0));
    steps, t := Extend(START, steps, t, HydrateTry(0));
    assert t.hydrations == map[0 := Running(0)];
    steps, t := Extend(START, steps, t, EvictBegin(0));
    steps, t := Extend(START, steps, t, EvictTurn(0));
    assert t.evictions == map[0 := Waiting(0)] && t.told == {0};
    steps, t := Extend(START, steps, t, HydrateAttach(0));
    steps, t := Extend(START, steps, t, HydrateEnd(0));
    assert t.hydrations == map[0 := Returned] && t.closed == {0} && t.slot == Slot(None, None) && t.resident;
    steps, t := Extend(START, steps, t, EvictWake(0));
    steps, t := Extend(START, steps, t, EvictTurn(0));
  }
}

/**
 The download pipeline's reader and workers (run, awaitInFlight and
 setCompletions, internal/app/pipeline.go): any number of workers, any schedule,
 results taken from one completions channel at a time, and the swap of that
 channel as a quiescence point. A result is a number; a channel carries each
 result put into it once.
 */
module Pipeline {

  import opened Wrappers

  /** queue is what the channel buffers; put and taken what went in and out. A stopped
      downloader puts nothing more, and only a stopped one's channel is closed. */
  datatype Chan = Chan(queue: seq<nat>, put: multiset<nat>, taken: multiset<nat>, stopped: bool, closed: bool)

  /** A swap under way: the channel to drain, the one to take, the one the pipeline was
      last given (it is not drained again if the loop has already read it to its
      close), and whether the latter's downloader had stopped when the swap began. */
  datatype Swap = Swap(from: Option<nat>, to: Option<nat>, source: Option<nat>, wasStopped: bool)

  /** An acknowledged swap: whether it completed, every result taken by then, and the
      channels by then read to their close. */
  datatype Ack = Ack(swap: Swap, completed: bool, taken: multiset<nat>, ended: set<nat>)

  datatype Pc =
    | Looping
    | Sending(res: nat, resume: Option<Swap>)  // counted, not yet on the work queue
    | Draining(swap: Swap)
    | Awaiting(swap: Swap)
    | Exited

  /** Channels, the one being read, the run loop, the work queue, what workers hold, the
      WaitGroup's count; and the run's history: every result taken, handled and
      released, the channel last given, the channels read to their close, and every
      swap acknowledged. */
  datatype State = State(
    chans: map<nat, Chan>, completions: Option<nat>, pc: Pc, work: seq<nat>, busy: multiset<nat>, inFlight: int,
    cancelled: bool, taken: multiset<nat>, handled: multiset<nat>, released: multiset<nat>,
    source: Option<nat>, ended: set<nat>, acked: seq<Ack>)

  datatype Step =
    | Open(c: nat) | Put(c: nat, r: nat) | Stop(c: nat) | Close(c: nat) | Cancel
    | Take | SourceClosed | SendOk | SendCancelled
    | SwapBegin(to: Option<nat>) | DrainTake | DrainEmpty | AwaitDone | AwaitCancelled
    | WorkerTake | WorkerDone(r: nat)
    | Exit

  predicate Ready(s: State, c: Option<nat>) {
    c.Some? && c.value in s.chans && s.chans[c.value].queue != []
  }

  /** workers is the number of worker goroutines, capacity the work queue's. */
  predicate Enabled(s: State, st: Step, workers: nat, capacity: nat) {
    match st
    case Open(c) => c !in s.chans
    case Put(c, _) => c in s.chans && !s.chans[c].stopped
    case Stop(c) => c in s.chans
    case Close(c) => c in s.chans && s.chans[c].stopped
    case Cancel => true
    case Take => s.pc.Looping? && Ready(s, s.completions)
    case SourceClosed =>
      s.pc.Looping? && s.completions.Some? && s.completions.value in s.chans
      && s.chans[s.completions.value].closed && !Ready(s, s.completions)
    case SendOk => s.pc.Sending? && |s.work| < capacity
    case SendCancelled => s.pc.Sending? && s.cancelled
    case SwapBegin(_) => s.pc.Looping?
    case DrainTake => s.pc.Draining? && Ready(s, s.pc.swap.from)
    case DrainEmpty => s.pc.Draining? && !Ready(s, s.pc.swap.from)
    case AwaitDone => s.pc.Awaiting? && s.inFlight == 0
    case AwaitCancelled => s.pc.Awaiting? && s.cancelled
    case WorkerTake => s.work != [] && |s.busy| < workers
    case WorkerDone(r) => r in s.busy
    case Exit => s.pc.Looping? && s.cancelled
  }

  predicate Stopped(s: State, c: Option<nat>) { c.Some? && c.value in s.chans && s.chans[c.value].stopped }

  function AckOf(s: State, sw: Swap, completed: bool): (a: Ack) { Ack(sw, completed, s.taken, s.ended) }

  function TakeFrom(s: State, c: nat, resume: Option<Swap>): (t: State)
    requires c in s.chans && s.chans[c].queue != []
  {
    var ch := s.chans[c];
    var r := ch.queue[0];
    s.(chans := s.chans[c := ch.(queue := ch.queue[1..], taken := ch.taken + multiset{r})],
       pc := Sending(r, resume), inFlight := s.inFlight + 1, taken := s.taken + multiset{r})
  }

  function Do(s: State, st: Step, workers: nat, capacity: nat): (t: State)
    requires Enabled(s, st, workers, capacity)
  {
    match st
    case Open(c) => s.(chans := s.chans[c := Chan([], multiset{}, multiset{}, false, false)])
    case Put(c, r) =>
      var ch := s.chans[c];
      s.(chans := s.chans[c := ch.(queue := ch.queue + [r], put := ch.put + multiset{r})])
    case Stop(c) => s.(chans := s.chans[c := s.chans[c].(stopped := true)])
    case Close(c) => s.(chans := s.chans[c := s.chans[c].(closed := true)])
    case Cancel => s.(cancelled := true)
    case Take => TakeFrom(s, s.completions.value, None)
    case SourceClosed => s.(completions := None, ended := s.ended + {s.completions.value})
    case SendOk =>
      s.(work := s.work + [s.pc.res], pc := if s.pc.resume.Some? then Draining(s.pc.resume.value) else Looping)
    case SendCancelled =>
      s.(inFlight := s.inFlight - 1, released := s.released + multiset{s.pc.res}, pc := Exited,
         acked := if s.pc.resume.Some? then s.acked + [AckOf(s, s.pc.resume.value, false)] else s.acked)
    case SwapBegin(to) =>
      var from := s.completions;
      var sw := Swap(from, to, s.source, Stopped(s, s.source));
      s.(pc := if from.Some? then Draining(sw) else Awaiting(sw))
    case DrainTake => TakeFrom(s, s.pc.swap.from.value, Some(s.pc.swap))
    case DrainEmpty => s.(pc := Awaiting(s.pc.swap))
    case AwaitDone =>
      s.(completions := s.pc.swap.to, source := s.pc.swap.to, pc := Looping,
         acked := s.acked + [AckOf(s, s.pc.swap, true)])
    case AwaitCancelled => s.(pc := Exited, acked := s.acked + [AckOf(s, s.pc.swap, false)])
    case WorkerTake => s.(work := s.work[1..], busy := s.busy + multiset{s.work[0]})
    case WorkerDone(r) =>
      s.(busy := s.busy - multiset{r}, handled := s.handled + multiset{r}, inFlight := s.inFlight - 1)
    case Exit => s.(pc := Exited)
  }

  const START := State(map[], None, Looping, [], multiset{}, 0, false, multiset{}, multiset{}, multiset{}, None, {}, [])

  ghost predicate Trace(s: State, steps: seq<Step>, t: State, workers: nat, capacity: nat)
    decreases |steps|
  {
    if steps == [] then s == t
    else
      && Enabled(s, steps[0], workers, capacity)
      && Trace(Do(s, steps[0], workers, capacity), steps[1..], t, workers, capacity)
  }

  // ---- Invariant -------------------------------------------------------------------

  function Held(pc: Pc): (m: multiset<nat>) { if pc.Sending? then multiset{pc.res} else multiset{} }

  predicate Counted(s: State) {
    s.inFlight == |s.work| + |s.busy| + (if s.pc.Sending? then 1 else 0)
  }

  /** Each result taken is on its way, in a worker, handled or released, once. */
  predicate AccountedFor(s: State, r: nat) {
    s.taken[r] == Held(s.pc)[r] + multiset(s.work)[r] + s.busy[r] + s.handled[r] + s.released[r]
  }

  ghost predicate Accounted(s: State) { forall r: nat :: AccountedFor(s, r) }

  predicate ReleasedOnlyAtExit(s: State) { s.released != multiset{} ==> s.pc.Exited? }

  predicate Channels(s: State) {
    forall c | c in s.chans ::
      && s.chans[c].put == multiset(s.chans[c].queue) + s.chans[c].taken
      && s.chans[c].taken <= s.taken
  }

  function SwapOf(pc: Pc): (sw: Option<Swap>) {
    match pc
    case Sending(_, resume) => resume
    case Draining(sw) => Some(sw)
    case Awaiting(sw) => Some(sw)
    case _ => None
  }

  /** Nothing more will come out of c. */
  predicate Dry(s: State, c: nat) { c in s.chans && s.chans[c].stopped && s.chans[c].queue == [] }

  /** The channel last given is being read, or has been read to its close; only a
      stopped downloader's channel is closed. */
  predicate Sources(s: State) {
    && (forall c | c in s.chans && s.chans[c].closed :: s.chans[c].stopped)
    && (forall c | c in s.ended :: Dry(s, c))
    && (if s.completions.Some? then s.source == s.completions else s.source.Some? ==> s.source.value in s.ended)
  }

  predicate Swaps(s: State) {
    SwapOf(s.pc).Some? ==>
      var sw := SwapOf(s.pc).value;
      && sw.from == s.completions && sw.source == s.source
      && (sw.wasStopped ==> Stopped(s, sw.source))
      && (s.pc.Awaiting? && sw.wasStopped ==> Dry(s, sw.source.value))
  }

  /** All that was ever put into c has been handled, and nothing more will be. */
  predicate Quiet(s: State, c: nat) { Dry(s, c) && s.chans[c].put <= s.handled }

  /** What an acknowledgement without cancellation says of s: every result taken by then
      has been handled, and all of each channel read to its close by then, and of the
      channel last given if its downloader had stopped before the swap. */
  predicate Kept(s: State, a: Ack) {
    a.completed ==>
      && a.taken <= s.handled
      && (forall c | c in a.ended :: Quiet(s, c))
      && (a.swap.wasStopped ==> a.swap.source.Some? && Quiet(s, a.swap.source.value))
  }

  predicate Acks(s: State) { forall a | a in s.acked :: Kept(s, a) }

  /** The i-th acknowledgement is the last without cancellation. */
  predicate LastCompleted(acked: seq<Ack>, i: nat) {
    i < |acked| && acked[i].completed && forall j | i < j < |acked| :: !acked[j].completed
  }

  /** The channel last given is the one the last completed swap asked for. */
  ghost predicate Installed(s: State) { forall i: nat | LastCompleted(s.acked, i) :: s.source == s.acked[i].swap.to }

  ghost predicate Inv(s: State) {
    && Counted(s) && Accounted(s) && ReleasedOnlyAtExit(s) && Channels(s)
    && Sources(s) && Swaps(s) && Acks(s) && Installed(s)
  }

  lemma CountedKept(s: State, st: Step, workers: nat, capacity: nat)
    requires Counted(s) && Enabled(s, st, workers, capacity)
    ensures Counted(Do(s, st, workers, capacity))
  {
  }

  lemma TakeKeepsAccount(s: State, c: nat, resume: Option<Swap>, r: nat)
    requires AccountedFor(s, r) && !s.pc.Sending? && c in s.chans && s.chans[c].queue != []
    ensures AccountedFor(TakeFrom(s, c, resume), r)
  {
  }

  lemma SendKeepsAccount(s: State, t: State, r: nat)
    requires AccountedFor(s, r) && s.pc.Sending? && !t.pc.Sending?
    requires t.taken == s.taken && t.busy == s.busy && t.handled == s.handled
    requires (t.work == s.work + [s.pc.res] && t.released == s.released)
      || (t.work == s.work && t.released == s.released + multiset{s.pc.res})
    ensures AccountedFor(t, r)
  {
  }

  lemma WorkerTakeKeepsAccount(s: State, t: State, r: nat)
    requires AccountedFor(s, r) && s.work != [] && t == s.(work := s.work[1..], busy := s.busy + multiset{s.work[0]})
    ensures AccountedFor(t, r)
  {
    assert s.work == [s.work[0]] + s.work[1..];
  }

  lemma WorkerDoneKeepsAccount(s: State, t: State, done: nat, r: nat)
    requires AccountedFor(s, r) && done in s.busy && t.taken == s.taken && t.pc == s.pc && t.work == s.work
    requires t.released == s.released && t.busy == s.busy - multiset{done} && t.handled == s.handled + multiset{done}
    ensures AccountedFor(t, r)
  {
  }

  lemma AccountedForKept(s: State, st: Step, workers: nat, capacity: nat, r: nat)
    requires AccountedFor(s, r) && Enabled(s, st, workers, capacity)
    ensures AccountedFor(Do(s, st, workers, capacity), r)
  {
    match st {
      case Take => TakeKeepsAccount(s, s.completions.value, None, r);
      case DrainTake => TakeKeepsAccount(s, s.pc.swap.from.value, Some(s.pc.swap), r);
      case SendOk => SendKeepsAccount(s, Do(s, st, workers, capacity), r);
      case SendCancelled => SendKeepsAccount(s, Do(s, st, workers, capacity), r);
      case WorkerTake => WorkerTakeKeepsAccount(s, Do(s, st, workers, capacity), r);
      case WorkerDone(done) => WorkerDoneKeepsAccount(s, Do(s, st, workers, capacity), done, r);
      case _ =>
    }
  }

  lemma AccountedKept(s: State, st: Step, workers: nat, capacity: nat)
    requires Accounted(s) && Enabled(s, st, workers, capacity)
    ensures Accounted(Do(s, st, workers, capacity))
  {
    forall r: nat ensures AccountedFor(Do(s, st, workers, capacity), r) {
      AccountedForKept(s, st, workers, capacity, r);
    }
  }

  lemma TakeKeepsChannels(s: State, c: nat, resume: Option<Swap>)
    requires Channels(s) && c in s.chans && s.chans[c].queue != []
    ensures Channels(TakeFrom(s, c, resume))
  {
    var q := s.chans[c].queue;
    assert q == [q[0]] + q[1..];
  }

  lemma ChannelsKept(s: State, st: Step, workers: nat, capacity: nat)
    requires Channels(s) && Enabled(s, st, workers, capacity)
    ensures Channels(Do(s, st, workers, capacity))
  {
    match st {
      case Take => TakeKeepsChannels(s, s.completions.value, None);
      case DrainTake => TakeKeepsChannels(s, s.pc.swap.from.value, Some(s.pc.swap));
      case _ =>
    }
  }

  lemma DryKept(s: State, st: Step, workers: nat, capacity: nat, c: nat)
    requires Dry(s, c) && Enabled(s, st, workers, capacity)
    ensures Dry(Do(s, st, workers, capacity), c)
    ensures Do(s, st, workers, capacity).chans[c].put == s.chans[c].put
  {
  }

  lemma SourcesKept(s: State, st: Step, workers: nat, capacity: nat)
    requires Sources(s) && Swaps(s) && Enabled(s, st, workers, capacity)
    ensures Sources(Do(s, st, workers, capacity))
  {
    var t := Do(s, st, workers, capacity);
    forall c | c in t.ended ensures Dry(t, c) {
      if c in s.ended { DryKept(s, st, workers, capacity, c); }
    }
  }

  lemma SwapsKept(s: State, st: Step, workers: nat, capacity: nat)
    requires Sources(s) && Swaps(s) && Enabled(s, st, workers, capacity)
    ensures Swaps(Do(s, st, workers, capacity))
  {
    if s.pc.Awaiting? && s.pc.swap.wasStopped {
      DryKept(s, st, workers, capacity, s.pc.swap.source.value);
    }
  }

  /** With nothing in flight, everything taken has been handled. */
  lemma IdleIsHandled(s: State)
    requires Counted(s) && Accounted(s) && ReleasedOnlyAtExit(s) && s.pc.Awaiting? && s.inFlight == 0
    ensures s.work == [] && s.busy == multiset{} && s.handled == s.taken
  {
    assert |s.busy| == 0;
    forall r: nat ensures s.handled[r] == s.taken[r] { assert AccountedFor(s, r); }
  }

  lemma DryIsQuiet(s: State, c: nat)
    requires Channels(s) && Dry(s, c) && s.handled == s.taken
    ensures Quiet(s, c)
  {
    assert s.chans[c].put == s.chans[c].taken;
  }

  /** A swap that completes finds everything it promises handled. */
  lemma CompletionKeeps(s: State)
    requires Inv(s) && s.pc.Awaiting? && s.inFlight == 0
    ensures Kept(s, AckOf(s, s.pc.swap, true))
  {
    IdleIsHandled(s);
    forall c | c in s.ended ensures Quiet(s, c) { DryIsQuiet(s, c); }
    if s.pc.swap.wasStopped { DryIsQuiet(s, s.pc.swap.source.value); }
  }

  lemma KeptKept(s: State, st: Step, workers: nat, capacity: nat, a: Ack)
    requires Kept(s, a) && Enabled(s, st, workers, capacity)
    ensures Kept(Do(s, st, workers, capacity), a)
  {
    var t := Do(s, st, workers, capacity);
    assert s.handled <= t.handled;
    if a.completed {
      forall c | c in a.ended ensures Quiet(t, c) { DryKept(s, st, workers, capacity, c); }
      if a.swap.wasStopped { DryKept(s, st, workers, capacity, a.swap.source.value); }
    }
  }

  lemma AcksKept(s: State, st: Step, workers: nat, capacity: nat)
    requires Inv(s) && Enabled(s, st, workers, capacity)
    ensures Acks(Do(s, st, workers, capacity))
  {
    var t := Do(s, st, workers, capacity);
    forall a | a in t.acked ensures Kept(t, a) {
      if a in s.acked {
        KeptKept(s, st, workers, capacity, a);
      } else if st.AwaitDone? {
        CompletionKeeps(s);
        KeptKept(s, st, workers, capacity, a);
      }
    }
  }

  lemma InstalledKept(s: State, st: Step, workers: nat, capacity: nat)
    requires Installed(s) && Enabled(s, st, workers, capacity)
    ensures Installed(Do(s, st, workers, capacity))
  {
    var t := Do(s, st, workers, capacity);
    forall i: nat | LastCompleted(t.acked, i) ensures t.source == t.acked[i].swap.to {
      assert forall j | 0 <= j < |s.acked| :: t.acked[j] == s.acked[j];
      if st.AwaitDone? {
        assert t.acked[|s.acked|].completed;
      } else {
        assert i < |s.acked| && LastCompleted(s.acked, i);
      }
    }
  }

  lemma {:induction false} TraceKeepsInv(s: State, steps: seq<Step>, t: State, workers: nat, capacity: nat)
    requires Inv(s) && Trace(s, steps, t, workers, capacity)
    ensures Inv(t)
    decreases |steps|
  {
    if steps != [] {
      CountedKept(s, steps[0], workers, capacity);
      AccountedKept(s, steps[0], workers, capacity);
      ChannelsKept(s, steps[0], workers, capacity);
      SourcesKept(s, steps[0], workers, capacity);
      SwapsKept(s, steps[0], workers, capacity);
      AcksKept(s, steps[0], workers, capacity);
      InstalledKept(s, steps[0], workers, capacity);
      TraceKeepsInv(Do(s, steps[0], workers, capacity), steps[1..], t, workers, capacity);
    }
  }

  // ---- Theorems --------------------------------------------------------------------

  /** The WaitGroup's count is the results counted for the work queue and not yet
      finished by a worker. */
  lemma InFlightIsUnfinished(steps: seq<Step>, t: State, workers: nat, capacity: nat)
    requires Trace(START, steps, t, workers, capacity)
    ensures t.inFlight == |t.work| + |t.busy| + (if t.pc.Sending? then 1 else 0)
  {
    TraceKeepsInv(START, steps, t, workers, capacity);
  }

  /** Each result taken from a channel is, exactly once, on its way to a worker, with
      one, handled, or released; and none is released before the run loop exits. */
  lemma HandledExactlyOnce(steps: seq<Step>, t: State, workers: nat, capacity: nat, r: nat)
    requires Trace(START, steps, t, workers, capacity)
    ensures t.taken[r] == Held(t.pc)[r] + multiset(t.work)[r] + t.busy[r] + t.handled[r] + t.released[r]
    ensures !t.pc.Exited? ==> t.released == multiset{}
  {
    TraceKeepsInv(START, steps, t, workers, capacity);
    assert AccountedFor(t, r);
  }

  /** A swap about to be acknowledged without cancellation finds nothing in flight. */
  lemma SwapIsQuiescence(steps: seq<Step>, t: State, workers: nat, capacity: nat)
    requires Trace(START, steps, t, workers, capacity) && Enabled(t, AwaitDone, workers, capacity)
    ensures t.work == [] && t.busy == multiset{} && t.handled == t.taken
  {
    TraceKeepsInv(START, steps, t, workers, capacity);
    IdleIsHandled(t);
  }

  /** From an acknowledgement without cancellation on, every result taken before it has
      been handled; so has all that was ever put into a channel the loop had read to
      its close, and all that was ever put into the channel the pipeline was last
      given, if its downloader had stopped before the swap began, whether the swap
      drained that channel or the loop had found it closed first. */
  lemma AcknowledgedSwapIsQuiescence(steps: seq<Step>, t: State, workers: nat, capacity: nat, i: nat)
    requires Trace(START, steps, t, workers, capacity) && i < |t.acked| && t.acked[i].completed
    ensures t.acked[i].taken <= t.handled
    ensures forall c | c in t.acked[i].ended :: Quiet(t, c)
    ensures t.acked[i].swap.wasStopped ==> t.acked[i].swap.source.Some? && Quiet(t, t.acked[i].swap.source.value)
  {
    TraceKeepsInv(START, steps, t, workers, capacity);
    assert Kept(t, t.acked[i]);
  }

  /** wasStopped is what the swap's caller knows: the downloader of the channel the
      pipeline was last given had stopped, by the time the loop took the swap up. */
  lemma SwapBeginsFromTheSource(steps: seq<Step>, t: State, workers: nat, capacity: nat, to: Option<nat>)
    requires Trace(START, steps, t, workers, capacity) && Enabled(t, SwapBegin(to), workers, capacity)
    ensures var sw := SwapOf(Do(t, SwapBegin(to), workers, capacity).pc);
      && sw == Some(Swap(t.completions, to, t.source, Stopped(t, t.source)))
      && (t.completions == t.source || (t.completions.None? && Dry(t, t.source.value)))
  {
    TraceKeepsInv(START, steps, t, workers, capacity);
  }

  /** From a swap acknowledged without cancellation to the next, the pipeline reads exactly
      the channel it asked for, until it has read it to its close; and a result waiting
      there is what the idle loop takes. */
  lemma SwapInstallsItsChannel(steps: seq<Step>, t: State, workers: nat, capacity: nat, i: nat)
    requires Trace(START, steps, t, workers, capacity) && LastCompleted(t.acked, i)
    ensures var to := t.acked[i].swap.to;
      && t.source == to
      && (t.completions == to || (t.completions.None? && to.Some? && Dry(t, to.value)))
      && (t.pc.Looping? && Ready(t, to) ==>
            Enabled(t, Take, workers, capacity)
            && Do(t, Take, workers, capacity).pc == Sending(t.chans[to.value].queue[0], None))
  {
    TraceKeepsInv(START, steps, t, workers, capacity);
  }

  // ---- What can always happen --------------------------------------------------------

  lemma TraceOne(s: State, st: Step, workers: nat, capacity: nat)
    requires Enabled(s, st, workers, capacity)
    ensures Trace(s, [st], Do(s, st, workers, capacity), workers, capacity)
  {
    assert Trace(Do(s, st, workers, capacity), [st][1..], Do(s, st, workers, capacity), workers, capacity);
  }

  lemma {:induction false} TraceAppend(
      s: State, a: seq<Step>, m: State, b: seq<Step>, t: State, workers: nat, capacity: nat)
    requires Trace(s, a, m, workers, capacity) && Trace(m, b, t, workers, capacity)
    ensures Trace(s, a + b, t, workers, capacity)
    decreases |a|
  {
    if a == [] {
      assert a + b == b;
    } else {
      TraceAppend(Do(s, a[0], workers, capacity), a[1..], m, b, t, workers, capacity);
      assert (a + b)[1..] == a[1..] + b;
    }
  }

  lemma Extend(s: State, a: seq<Step>, m: State, st: Step, workers: nat, capacity: nat)
      returns (b: seq<Step>, t: State)
    requires Trace(s, a, m, workers, capacity) && Enabled(m, st, workers, capacity)
    ensures Trace(s, b, t, workers, capacity) && t == Do(m, st, workers, capacity)
  {
    TraceOne(m, st, workers, capacity);
    b, t := a + [st], Do(m, st, workers, capacity);
    TraceAppend(s, a, m, [st], t, workers, capacity);
  }

  /** t is s but for what the workers have done. */
  predicate Worked(s: State, t: State) {
    && t.pc == s.pc && t.chans == s.chans && t.completions == s.completions && t.source == s.source
    && t.ended == s.ended && t.acked == s.acked && t.taken == s.taken
  }

  /** The workers alone can finish everything handed to them. */
  lemma {:induction false} WorkersCanFinish(s: State, workers: nat, capacity: nat) returns (steps: seq<Step>, t: State)
    requires workers > 0
    ensures Trace(s, steps, t, workers, capacity) && Worked(s, t) && t.work == [] && t.busy == multiset{}
    decreases 2 * |s.work| + |s.busy|
  {
    steps, t := [], s;
    if s.busy != multiset{} {
      var r :| r in s.busy;
      steps, t := Extend(s, steps, t, WorkerDone(r), workers, capacity);
    } else if s.work != [] {
      steps, t := Extend(s, steps, t, WorkerTake, workers, capacity);
    }
    if s.busy != multiset{} || s.work != [] {
      var more, u := WorkersCanFinish(t, workers, capacity);
      TraceAppend(s, steps, t, more, u, workers, capacity);
      steps, t := steps + more, u;
    }
  }

  /** A result taken can always be put on the work queue. */
  lemma SendCanGoThrough(s: State, workers: nat, capacity: nat) returns (steps: seq<Step>, t: State)
    requires workers > 0 && capacity > 0 && s.pc.Sending?
    ensures Trace(s, steps, t, workers, capacity)
    ensures t.pc == if s.pc.resume.Some? then Draining(s.pc.resume.value) else Looping
    ensures t.chans == s.chans && t.acked == s.acked && t.completions == s.completions
    ensures t.work == [s.pc.res] && t.busy == multiset{}
  {
    steps, t := WorkersCanFinish(s, workers, capacity);
    steps, t := Extend(s, steps, t, SendOk, workers, capacity);
  }

  lemma {:induction false} DrainCanEnd(s: State, workers: nat, capacity: nat) returns (steps: seq<Step>, t: State)
    requires workers > 0 && capacity > 0 && s.pc.Draining?
    ensures Trace(s, steps, t, workers, capacity) && t.pc == Awaiting(s.pc.swap) && t.acked == s.acked
    decreases if Ready(s, s.pc.swap.from) then |s.chans[s.pc.swap.from.value].queue| else 0
  {
    steps, t := [], s;
    if Ready(s, s.pc.swap.from) {
      steps, t := Extend(s, steps, t, DrainTake, workers, capacity);
      var more, u := SendCanGoThrough(t, workers, capacity);
      TraceAppend(s, steps, t, more, u, workers, capacity);
      steps, t := steps + more, u;
      more, u := DrainCanEnd(t, workers, capacity);
      TraceAppend(s, steps, t, more, u, workers, capacity);
      steps, t := steps + more, u;
    } else {
      steps, t := Extend(s, steps, t, DrainEmpty, workers, capacity);
    }
  }

  lemma AwaitCanEnd(s: State, workers: nat, capacity: nat) returns (steps: seq<Step>, t: State)
    requires Inv(s) && workers > 0 && s.pc.Awaiting?
    ensures Trace(s, steps, t, workers, capacity) && t.pc.Looping? && t.completions == s.pc.swap.to
    ensures |t.acked| == |s.acked| + 1 && t.acked[|s.acked|].swap == s.pc.swap && t.acked[|s.acked|].completed
  {
    steps, t := WorkersCanFinish(s, workers, capacity);
    TraceKeepsInv(s, steps, t, workers, capacity);
    assert t.inFlight == 0;
    steps, t := Extend(s, steps, t, AwaitDone, workers, capacity);
  }

  /** With a worker and room on the queue, a swap under way can always be completed, by
      the loop and the workers alone. */
  lemma SwapCanComplete(before: seq<Step>, s: State, workers: nat, capacity: nat) returns (steps: seq<Step>, t: State)
    requires Trace(START, before, s, workers, capacity) && workers > 0 && capacity > 0 && SwapOf(s.pc).Some?
    ensures Trace(s, steps, t, workers, capacity)
    ensures t.pc.Looping? && t.completions == SwapOf(s.pc).value.to
    ensures |t.acked| == |s.acked| + 1
    ensures t.acked[|s.acked|].swap == SwapOf(s.pc).value && t.acked[|s.acked|].completed
  {
    steps, t := [], s;
    if s.pc.Sending? {
      steps, t := SendCanGoThrough(s, workers, capacity);
    }
    if t.pc.Draining? {
      var more, u := DrainCanEnd(t, workers, capacity);
      TraceAppend(s, steps, t, more, u, workers, capacity);
      steps, t := steps + more, u;
    }
    TraceKeepsInv(START, before, s, workers, capacity);
    TraceKeepsInv(s, steps, t, workers, capacity);
    var more, u := AwaitCanEnd(t, workers, capacity);
    TraceAppend(s, steps, t, more, u, workers, capacity);
    steps, t := steps + more, u;
  }

  /** The first result waiting in the channel being read can always be handled. */
  lemma ResultCanBeHandled(s: State, workers: nat, capacity: nat) returns (steps: seq<Step>, t: State)
    requires workers > 0 && capacity > 0 && s.pc.Looping? && Ready(s, s.completions)
    ensures Trace(s, steps, t, workers, capacity) && t.pc.Looping?
    ensures var c := s.completions.value;
      c in t.chans && t.chans[c].queue == s.chans[c].queue[1..] && s.chans[c].queue[0] in t.handled
  {
    steps, t := Extend(s, [], s, Take, workers, capacity);
    var more, u := SendCanGoThrough(t, workers, capacity);
    TraceAppend(s, steps, t, more, u, workers, capacity);
    steps, t := steps + more, u;
    steps, t := Extend(s, steps, t, WorkerTake, workers, capacity);
    steps, t := Extend(s, steps, t, WorkerDone(s.chans[s.completions.value].queue[0]), workers, capacity);
  }

  /** A channel keeps what is put into it, in order, until its downloader stops; the loop
      finds a closed channel's end exactly when nothing is left in it, and leaves it. */
  lemma ChannelSteps(s: State, c: nat, r: nat, workers: nat, capacity: nat)
    requires c in s.chans
    ensures Enabled(s, Put(c, r), workers, capacity) <==> !s.chans[c].stopped
    ensures !s.chans[c].stopped ==>
      var t := Do(s, Put(c, r), workers, capacity).chans[c];
      t.queue == s.chans[c].queue + [r] && t.put == s.chans[c].put + multiset{r} && t.taken == s.chans[c].taken
    ensures Enabled(s, Stop(c), workers, capacity) && Stopped(Do(s, Stop(c), workers, capacity), Some(c))
    ensures s.chans[c].stopped ==>
      Enabled(s, Close(c), workers, capacity) && Do(s, Close(c), workers, capacity).chans[c].closed
    ensures s.pc.Looping? && s.completions == Some(c) ==>
      (Enabled(s, SourceClosed, workers, capacity) <==> s.chans[c].closed && s.chans[c].queue == [])
    ensures Enabled(s, SourceClosed, workers, capacity) ==>
      Do(s, SourceClosed, workers, capacity).completions.None?
  {
  }

  lemma OpenedChannelIsEmpty(s: State, c: nat, workers: nat, capacity: nat)
    requires c !in s.chans
    ensures Enabled(s, Open(c), workers, capacity)
    ensures var t := Do(s, Open(c), workers, capacity).chans;
      c in t && t[c].queue == [] && t[c].put == multiset{} && !t[c].stopped && !t[c].closed
  {
  }

  /** Once the context has ended the loop can always exit, whatever it is doing. */
  lemma LoopCanExit(s: State, workers: nat, capacity: nat) returns (steps: seq<Step>, t: State)
    ensures Trace(s, steps, t, workers, capacity) && t.pc.Exited? && t.cancelled
  {
    steps, t := Extend(s, [], s, Cancel, workers, capacity);
    if t.pc.Draining? {
      steps, t := Extend(s, steps, t, if Ready(t, t.pc.swap.from) then DrainTake else DrainEmpty, workers, capacity);
    }
    if t.pc.Looping? {
      steps, t := Extend(s, steps, t, Exit, workers, capacity);
    } else if t.pc.Sending? {
      steps, t := Extend(s, steps, t, SendCancelled, workers, capacity);
    } else if t.pc.Awaiting? {
      steps, t := Extend(s, steps, t, AwaitCancelled, workers, capacity);
    }
  }
}

/**
 The rolling speed meter (internal/bpsmeter/meter.go): a ring of one-second buckets
 per server, against the plain sum over everything recorded. Times are nanoseconds
 since the zero time; the clock never goes back and reads at least one second. The
 division of a windowed total by the window is left to the caller.
 */
module Meter {

  const SECOND: int := 1_000_000_000

  /** A bucket whose ts is the zero time is empty. */
  datatype Bucket = Bucket(ts: int, bytes: int)

  datatype Ring = Ring(buckets: seq<Bucket>, head: nat, lifetime: int)

  datatype Op = Record(now: int, n: int) | Flush

  function Second(now: int): (sec: int) { now - now % SECOND }

  /** The number of slots a window is given. */
  function Slots(window: int): (n: nat)
    requires window > 0
  {
    window / SECOND + 2
  }

  predicate Shape(r: Ring) { |r.buckets| > 0 }

  function NewRing(slots: nat): (r: Ring) { Ring(seq(slots, _ => Bucket(0, 0)), 0, 0) }

  function Current(r: Ring): (b: Bucket)
    requires Shape(r)
  {
    r.buckets[r.head % |r.buckets|]
  }

  function Recorded(r: Ring, now: int, n: int): (t: Ring)
    requires Shape(r)
  {
    var sec := Second(now);
    var at := r.head % |r.buckets|;
    if r.buckets[at].ts == sec
    then Ring(r.buckets[at := Bucket(sec, r.buckets[at].bytes + n)], r.head, r.lifetime + n)
    else Ring(r.buckets[(r.head + 1) % |r.buckets| := Bucket(sec, n)], r.head + 1, r.lifetime + n)
  }

  function Flushed(r: Ring): (t: Ring) { NewRing(|r.buckets|).(lifetime := r.lifetime) }

  function Apply(r: Ring, op: Op): (t: Ring)
    requires Shape(r)
    ensures |t.buckets| == |r.buckets|
  {
    if op.Record? then Recorded(r, op.now, op.n) else Flushed(r)
  }

  function Run(slots: nat, ops: seq<Op>): (r: Ring)
    requires slots > 0
    ensures |r.buckets| == slots
  {
    if ops == [] then NewRing(slots) else Apply(Run(slots, ops[..|ops| - 1]), ops[|ops| - 1])
  }

  function Counted(b: Bucket, cutoff: int): (n: int) { if b.ts != 0 && b.ts > cutoff then b.bytes else 0 }

  /** The total the rate is taken from: every bucket after the cutoff. */
  function Total(buckets: seq<Bucket>, cutoff: int): (n: int) {
    if buckets == [] then 0 else Total(buckets[..|buckets| - 1], cutoff) + Counted(buckets[|buckets| - 1], cutoff)
  }

  // ---- The history ------------------------------------------------------------------------

  /** The bytes recorded since the last Flush in a second after the cutoff. */
  function Since(ops: seq<Op>, cutoff: int): (n: int) {
    if ops == [] || ops[|ops| - 1].Flush? then 0
    else
      var op := ops[|ops| - 1];
      Since(ops[..|ops| - 1], cutoff) + if Second(op.now) > cutoff then op.n else 0
  }

  function Lifetime(ops: seq<Op>): (n: int) {
    if ops == [] then 0
    else Lifetime(ops[..|ops| - 1]) + if ops[|ops| - 1].Record? then ops[|ops| - 1].n else 0
  }

  /** The clock's last reading in a run, at least a second. */
  function LastClock(ops: seq<Op>): (now: int) {
    if ops == [] then SECOND
    else if ops[|ops| - 1].Record? then ops[|ops| - 1].now
    else LastClock(ops[..|ops| - 1])
  }

  /** The clock never goes back. */
  predicate Clocked(ops: seq<Op>) {
    ops == [] || (
      && Clocked(ops[..|ops| - 1])
      && (ops[|ops| - 1].Record? ==> LastClock(ops[..|ops| - 1]) <= ops[|ops| - 1].now)
    )
  }

  // ---- Sums over slots ----------------------------------------------------------------------

  lemma {:induction false} TotalUpdate(buckets: seq<Bucket>, at: nat, b: Bucket, cutoff: int)
    requires at < |buckets|
    ensures Total(buckets[at := b], cutoff)
         == Total(buckets, cutoff) - Counted(buckets[at], cutoff) + Counted(b, cutoff)
    decreases |buckets|
  {
    var m := |buckets| - 1;
    var u := buckets[at := b];
    if at == m {
      assert u[..m] == buckets[..m];
    } else {
      TotalUpdate(buckets[..m], at, b, cutoff);
      assert u[..m] == buckets[..m][at := b];
    }
  }

  lemma {:induction false} TotalOfEmpty(slots: nat, cutoff: int)
    ensures Total(NewRing(slots).buckets, cutoff) == 0
  {
    if slots > 0 {
      TotalOfEmpty(slots - 1, cutoff);
      assert NewRing(slots).buckets[..slots - 1] == NewRing(slots - 1).buckets;
    }
  }

  // ---- Age of slots ---------------------------------------------------------------------------

  lemma SecondIsWhole(now: int)
    ensures Second(now) % SECOND == 0 && Second(now) <= now < Second(now) + SECOND
  {
    assert Second(now) == SECOND * (now / SECOND);
  }

  lemma SecondIsMonotone(a: int, b: int)
    requires a <= b
    ensures Second(a) <= Second(b)
  {
    assert Second(a) == SECOND * (a / SECOND) && Second(b) == SECOND * (b / SECOND);
  }

  lemma Remainder(x: int, q: int, r: int, n: int)
    requires 0 <= r < n && x == q * n + r
    ensures x % n == r
  {
    var d := x / n - q;
    assert d * n == r - x % n;
    assert d >= 1 ==> d * n >= n;
    assert d <= -1 ==> d * n <= -n;
  }

  /** The slot i places behind the head. */
  function Back(head: nat, i: nat, slots: nat): (at: nat)
    requires i < slots
    ensures at < slots
    ensures i == 0 ==> at == head % slots
  {
    Remainder(head + slots, head / slots + 1, head % slots, slots);
    (head + slots - i) % slots
  }

  /** It is another slot than the head's. */
  lemma BackIsElsewhere(head: nat, i: nat, slots: nat)
    requires 0 < i < slots
    ensures Back(head, i, slots) != head % slots
  {
    var q, m := head / slots, head % slots;
    if m >= i {
      Remainder(head + slots - i, q + 1, m - i, slots);
    } else {
      Remainder(head + slots - i, q, m + slots - i, slots);
    }
  }

  /** i slots behind the head is a bucket at least i seconds older. */
  predicate Aged(r: Ring, i: nat)
    requires Shape(r) && i < |r.buckets|
  {
    var ts := r.buckets[Back(r.head, i, |r.buckets|)].ts;
    ts == 0 || ts <= Current(r).ts - i * SECOND
  }

  predicate AllAged(r: Ring) {
    && Shape(r)
    && Current(r).ts % SECOND == 0 && 0 <= Current(r).ts
    && forall i: nat | i < |r.buckets| :: Aged(r, i)
  }

  /** A new second puts every kept slot one place further behind. */
  lemma NewSecondAges(r: Ring, now: int, n: int, i: nat)
    requires AllAged(r) && Current(r).ts + SECOND <= Second(now) && i < |r.buckets|
    ensures Aged(Recorded(r, now, n), i)
  {
    var slots := |r.buckets|;
    if i > 0 {
      BackIsElsewhere(r.head + 1, i, slots);
      assert Aged(r, i - 1);
      var at := Back(r.head + 1, i, slots);
      assert at == Back(r.head, i - 1, slots);
      assert Recorded(r, now, n).buckets[at] == r.buckets[at];
    }
  }

  lemma RecordAges(r: Ring, now: int, n: int)
    requires AllAged(r) && Current(r).ts <= Second(now) && SECOND <= now
    ensures AllAged(Recorded(r, now, n)) && Current(Recorded(r, now, n)).ts == Second(now)
  {
    var t := Recorded(r, now, n);
    SecondIsWhole(now);
    forall i: nat | i < |r.buckets| ensures Aged(t, i) {
      if Current(r).ts == Second(now) {
        assert Aged(r, i);
      } else {
        NewSecondAges(r, now, n, i);
      }
    }
  }

  /** The slot a new second overwrites holds nothing a whole ring's span reaches. */
  lemma OverwrittenIsOld(r: Ring, now: int)
    requires AllAged(r) && Current(r).ts < Second(now)
    ensures var was := r.buckets[(r.head + 1) % |r.buckets|];
      was.ts == 0 || was.ts <= Second(now) - |r.buckets| * SECOND
  {
    var slots := |r.buckets|;
    SecondIsWhole(now);
    assert Aged(r, slots - 1);
    assert Back(r.head, slots - 1, slots) == (r.head + 1) % slots;
    assert Second(now) - Current(r).ts >= SECOND;
  }

  // ---- The invariant over runs ----------------------------------------------------------------

  /** Every slot is aged, none is ahead of the clock, and every total within a
      ring's span of the clock is the history's. */
  ghost predicate Inv(r: Ring, ops: seq<Op>) {
    && AllAged(r)
    && Current(r).ts <= Second(LastClock(ops))
    && forall cutoff :: Second(LastClock(ops)) - |r.buckets| * SECOND <= cutoff ==>
         Total(r.buckets, cutoff) == Since(ops, cutoff)
  }

  lemma RecordTotals(r: Ring, now: int, n: int, cutoff: int)
    requires AllAged(r) && Current(r).ts <= Second(now) && SECOND <= now
    requires Second(now) - |r.buckets| * SECOND <= cutoff
    ensures Total(Recorded(r, now, n).buckets, cutoff)
         == Total(r.buckets, cutoff) + if Second(now) > cutoff then n else 0
  {
    var slots := |r.buckets|;
    SecondIsWhole(now);
    if Current(r).ts == Second(now) {
      TotalUpdate(r.buckets, r.head % slots, Bucket(Second(now), Current(r).bytes + n), cutoff);
    } else {
      OverwrittenIsOld(r, now);
      TotalUpdate(r.buckets, (r.head + 1) % slots, Bucket(Second(now), n), cutoff);
    }
  }

  lemma {:induction false} ClockAtLeastASecond(ops: seq<Op>)
    requires Clocked(ops)
    ensures SECOND <= LastClock(ops)
  {
    if ops != [] {
      ClockAtLeastASecond(ops[..|ops| - 1]);
    }
  }

  lemma {:induction false} RunKeepsInv(slots: nat, ops: seq<Op>)
    requires slots > 0 && Clocked(ops)
    ensures Inv(Run(slots, ops), ops)
    decreases |ops|
  {
    ClockAtLeastASecond(ops);
    SecondIsWhole(LastClock(ops));
    if ops == [] || ops[|ops| - 1].Flush? {
      forall cutoff ensures Total(Run(slots, ops).buckets, cutoff) == 0 {
        TotalOfEmpty(slots, cutoff);
      }
    } else {
      var before, op := ops[..|ops| - 1], ops[|ops| - 1];
      RunKeepsInv(slots, before);
      RecordKeepsInv(Run(slots, before), before, ops, op);
    }
  }

  lemma RecordKeepsInv(r: Ring, before: seq<Op>, ops: seq<Op>, op: Op)
    requires Inv(r, before) && op.Record? && ops == before + [op] && Clocked(ops)
    ensures Inv(Recorded(r, op.now, op.n), ops)
  {
    assert ops[..|ops| - 1] == before;
    ClockAtLeastASecond(ops);
    SecondIsMonotone(LastClock(before), op.now);
    RecordAges(r, op.now, op.n);
    forall cutoff | Second(op.now) - |r.buckets| * SECOND <= cutoff
      ensures Total(Recorded(r, op.now, op.n).buckets, cutoff) == Since(ops, cutoff)
    {
      RecordTotals(r, op.now, op.n, cutoff);
    }
  }

  // ---- Theorems ---------------------------------------------------------------------------------

  /** The windowed total at a moment no earlier than the run is the history's. */
  predicate Agrees(slots: nat, window: int, ops: seq<Op>, now: int)
    requires slots > 0
  {
    Clocked(ops) && LastClock(ops) <= now ==>
      Total(Run(slots, ops).buckets, now - window) == Since(ops, now - window)
  }

  /** No run of records and flushes makes a faithful ring differ from the history. */
  ghost predicate Faithful(slots: nat, window: int)
    requires slots > 0
  {
    forall ops: seq<Op>, now: int :: Agrees(slots, window, ops, now)
  }

  lemma WindowedTotalIsExact(slots: nat, window: int, ops: seq<Op>, now: int)
    requires slots > 0 && window <= slots * SECOND
    ensures Agrees(slots, window, ops, now)
  {
    if Clocked(ops) {
      RunKeepsInv(slots, ops);
      SecondIsWhole(LastClock(ops));
    }
  }

  /** One record of one byte in each of the first k seconds. */
  function OnePerSecond(k: nat): (ops: seq<Op>)
    ensures |ops| == k
  {
    if k == 0 then [] else OnePerSecond(k - 1) + [Record(k * SECOND, 1)]
  }

  lemma {:induction false} OnePerSecondHistory(k: nat, cutoff: int)
    requires cutoff < SECOND
    ensures Clocked(OnePerSecond(k)) && Since(OnePerSecond(k), cutoff) == k
    ensures LastClock(OnePerSecond(k)) == if k == 0 then SECOND else k * SECOND
  {
    if k > 0 {
      OnePerSecondHistory(k - 1, cutoff);
      assert OnePerSecond(k)[..k - 1] == OnePerSecond(k - 1);
      SecondOfWhole(k);
    }
  }

  lemma SecondOfWhole(k: nat)
    ensures Second(k * SECOND) == k * SECOND
  {
    assert (k * SECOND) % SECOND == 0;
  }

  lemma {:induction false} OnePerSecondRing(slots: nat, k: nat)
    requires slots > 0
    ensures forall i: nat | i < slots :: Run(slots, OnePerSecond(k)).buckets[i].bytes <= 1
    ensures Current(Run(slots, OnePerSecond(k))).ts == k * SECOND
    decreases k
  {
    if k > 0 {
      OnePerSecondRing(slots, k - 1);
      assert OnePerSecond(k)[..k - 1] == OnePerSecond(k - 1);
      SecondOfWhole(k);
    }
  }

  lemma {:induction false} TotalAtMost(buckets: seq<Bucket>, cutoff: int)
    requires forall i: nat | i < |buckets| :: buckets[i].bytes <= 1
    ensures Total(buckets, cutoff) <= |buckets|
  {
    if buckets != [] {
      TotalAtMost(buckets[..|buckets| - 1], cutoff);
    }
  }

  lemma ShortRingLoses(slots: nat, window: int)
    requires slots > 0 && slots * SECOND < window
    ensures !Agrees(slots, window, OnePerSecond(slots + 1), (slots + 1) * SECOND)
  {
    var k := slots + 1;
    OnePerSecondHistory(k, k * SECOND - window);
    OnePerSecondRing(slots, k);
    TotalAtMost(Run(slots, OnePerSecond(k)).buckets, k * SECOND - window);
  }

  /** A ring loses no in-window byte, in any run, exactly when its slots span the
      window. */
  lemma FaithfulExactlyWhen(slots: nat, window: int)
    requires slots > 0
    ensures Faithful(slots, window) <==> window <= slots * SECOND
  {
    if window <= slots * SECOND {
      forall ops: seq<Op>, now: int ensures Agrees(slots, window, ops, now) {
        WindowedTotalIsExact(slots, window, ops, now);
      }
    } else {
      ShortRingLoses(slots, window);
    }
  }

  /** The ring NewMeter makes spans its window, with a slot to spare; with two fewer it
      would only for a window of whole seconds. */
  lemma NewMeterIsFaithful(window: int)
    requires window > 0
    ensures Slots(window) > 1 && Faithful(Slots(window), window) && Faithful(Slots(window) - 1, window)
    ensures window >= SECOND ==>
      Slots(window) > 2 && (Faithful(Slots(window) - 2, window) <==> window % SECOND == 0)
  {
    FaithfulExactlyWhen(Slots(window), window);
    FaithfulExactlyWhen(Slots(window) - 1, window);
    if window >= SECOND { FaithfulExactlyWhen(Slots(window) - 2, window); }
  }

  /** Neither wrapping nor Flush touches the lifetime total. */
  lemma {:induction false} LifetimeIsEverything(slots: nat, ops: seq<Op>)
    requires slots > 0
    ensures Run(slots, ops).lifetime == Lifetime(ops)
  {
    if ops != [] {
      LifetimeIsEverything(slots, ops[..|ops| - 1]);
    }
  }
}

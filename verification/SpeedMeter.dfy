/**
 The meter in place (internal/bpsmeter/meter.go): one ring per server and one, under
 the empty name, for all of them. A method is one span of the meter's mu.
 */
module SpeedMeter {
  import opened Meter

  // ---- One server's ring -------------------------------------------------------------------

  class ServerState {
    const buckets: array<Bucket>
    var head: nat
    var lifetime: int

    constructor (slots: nat)
      ensures Contents() == NewRing(slots) && fresh(buckets) && buckets.Length == slots
    {
      buckets := new Bucket[slots](_ => Bucket(0, 0));
      head, lifetime := 0, 0;
    }

    function Contents(): (r: Ring)
      reads this, buckets
    {
      Ring(buckets[..], head, lifetime)
    }

    method Record(now: int, n: int)
      requires Shape(Contents())
      modifies this, buckets
      ensures Contents() == Recorded(old(Contents()), now, n)
    {
      var sec := now - now % SECOND;
      var at := head % buckets.Length;
      if buckets[at].ts == sec {
        buckets[at] := Bucket(sec, buckets[at].bytes + n);
      } else {
        head := head + 1;
        buckets[head % buckets.Length] := Bucket(sec, n);
      }
      lifetime := lifetime + n;
    }

    method Flush()
      modifies this, buckets
      ensures Contents() == Flushed(old(Contents()))
    {
      for i := 0 to buckets.Length
        invariant forall k | 0 <= k < i :: buckets[k] == Bucket(0, 0)
        invariant lifetime == old(lifetime)
      {
        buckets[i] := Bucket(0, 0);
      }
      head := 0;
    }

    /** What the rate is divided from. */
    method WindowTotal(now: int, window: int) returns (total: int)
      ensures total == Total(Contents().buckets, now - window)
    {
      var cutoff := now - window;
      total := 0;
      for i := 0 to buckets.Length
        invariant total == Total(buckets[..i], cutoff)
      {
        assert buckets[..i + 1][..i] == buckets[..i];
        if buckets[i].ts != 0 && buckets[i].ts > cutoff {
          total := total + buckets[i].bytes;
        }
      }
      assert buckets[..buckets.Length] == buckets[..];
    }
  }

  // ---- The meter as values ---------------------------------------------------------------------

  datatype MeterOp = RecordFor(server: string, now: int, n: int) | FlushAll

  /** A server not met yet counts as a new ring. */
  function RingOf(m: map<string, Ring>, slots: nat, server: string): (r: Ring)
    ensures server !in m ==> r == NewRing(slots)
  {
    if server in m then m[server] else NewRing(slots)
  }

  predicate Sized(m: map<string, Ring>, slots: nat) {
    slots > 0 && "" in m && forall k | k in m :: |m[k].buckets| == slots
  }

  function RecordedFor(m: map<string, Ring>, slots: nat, server: string, now: int, n: int): (t: map<string, Ring>)
    requires Sized(m, slots)
    ensures Sized(t, slots)
  {
    var own := if server == "" then m else m[server := Recorded(RingOf(m, slots, server), now, n)];
    own["" := Recorded(own[""], now, n)]
  }

  function FlushedAll(m: map<string, Ring>): (t: map<string, Ring>) {
    map k | k in m :: Flushed(m[k])
  }

  function RunMeter(slots: nat, ops: seq<MeterOp>): (m: map<string, Ring>)
    requires slots > 0
    ensures Sized(m, slots)
  {
    if ops == [] then map["" := NewRing(slots)]
    else
      Stepped(RunMeter(slots, ops[..|ops| - 1]), slots, ops[|ops| - 1])
  }

  function Stepped(m: map<string, Ring>, slots: nat, op: MeterOp): (t: map<string, Ring>)
    requires Sized(m, slots)
    ensures Sized(t, slots)
  {
    if op.RecordFor? then RecordedFor(m, slots, op.server, op.now, op.n) else FlushedAll(m)
  }

  lemma RunsBySteps(slots: nat, ops: seq<MeterOp>)
    requires slots > 0 && ops != []
    ensures RunMeter(slots, ops) == Stepped(RunMeter(slots, ops[..|ops| - 1]), slots, ops[|ops| - 1])
  {
  }

  /** What a server's ring sees of a run: its own records, or all for the empty name. */
  function Seen(ops: seq<MeterOp>, server: string): (r: seq<Op>) {
    if ops == [] then []
    else
      var before, op := Seen(ops[..|ops| - 1], server), ops[|ops| - 1];
      if op.FlushAll? then before + [Op.Flush]
      else if server == "" || op.server == server then before + [Op.Record(op.now, op.n)]
      else before
  }

  lemma RunSnoc(slots: nat, ops: seq<Op>, op: Op)
    requires slots > 0
    ensures Run(slots, ops + [op]) == Apply(Run(slots, ops), op)
  {
    assert (ops + [op])[..|ops|] == ops;
  }

  lemma RecordedRing(m: map<string, Ring>, slots: nat, to: string, now: int, n: int, server: string)
    requires Sized(m, slots)
    ensures RingOf(RecordedFor(m, slots, to, now, n), slots, server)
         == var r := RingOf(m, slots, server);
            if server == "" || to == server then Recorded(r, now, n) else r
  {
  }

  lemma FlushedRing(m: map<string, Ring>, slots: nat, server: string)
    requires Sized(m, slots)
    ensures RingOf(FlushedAll(m), slots, server) == Flushed(RingOf(m, slots, server))
  {
  }

  /** The servers' rings do not disturb each other, and the empty name's is the
      aggregate: each is what its own part of the run makes of a new ring. */
  lemma {:induction false} EachServerRunsAlone(slots: nat, ops: seq<MeterOp>, server: string)
    requires slots > 0
    ensures RingOf(RunMeter(slots, ops), slots, server) == Run(slots, Seen(ops, server))
    decreases |ops|
  {
    if ops != [] {
      var before, op := ops[..|ops| - 1], ops[|ops| - 1];
      EachServerRunsAlone(slots, before, server);
      var seen := Seen(before, server);
      var m := RunMeter(slots, before);
      if op.FlushAll? {
        FlushedRing(m, slots, server);
        RunSnoc(slots, seen, Op.Flush);
      } else {
        RecordedRing(m, slots, op.server, op.now, op.n, server);
        RunSnoc(slots, seen, Op.Record(op.now, op.n));
      }
    }
  }

  function MeterClock(ops: seq<MeterOp>): (now: int) {
    LastClock(Seen(ops, ""))
  }

  lemma {:induction false} SeenIsClocked(ops: seq<MeterOp>, server: string)
    requires Clocked(Seen(ops, ""))
    ensures Clocked(Seen(ops, server)) && LastClock(Seen(ops, server)) <= MeterClock(ops)
    decreases |ops|
  {
    if ops != [] {
      var before := ops[..|ops| - 1];
      var all, own := Seen(ops, ""), Seen(ops, server);
      assert all[..|all| - 1] == Seen(before, "");
      SeenIsClocked(before, server);
      assert own != Seen(before, server) ==> own[..|own| - 1] == Seen(before, server);
    }
  }

  /** In every run under a clock that never goes back, each server's windowed total is
      the bytes it recorded in the window since the last Flush, and its lifetime total
      all it ever recorded; a server never met has neither. */
  lemma MeterIsExact(window: int, ops: seq<MeterOp>, server: string, now: int)
    requires window > 0 && Clocked(Seen(ops, "")) && MeterClock(ops) <= now
    ensures var r := RingOf(RunMeter(Slots(window), ops), Slots(window), server);
      && Total(r.buckets, now - window) == Since(Seen(ops, server), now - window)
      && r.lifetime == Lifetime(Seen(ops, server))
  {
    var slots := Slots(window);
    EachServerRunsAlone(slots, ops, server);
    SeenIsClocked(ops, server);
    WindowedTotalIsExact(slots, window, Seen(ops, server), now);
    LifetimeIsEverything(slots, Seen(ops, server));
  }

  lemma UpdatedTwice(m: map<string, Ring>, k: string, a: Ring, b: Ring)
    ensures m[k := a][k := b] == m[k := b]
  {
  }

  // ---- The meter in place ------------------------------------------------------------------------

  class SpeedMeter {
    const window: int
    const slots: nat
    var servers: map<string, ServerState>

    /** The aggregate is there, and no two servers share a ring. */
    ghost predicate Valid()
      reads this, servers.Values
    {
      && slots > 0 && window > 0 && slots == Slots(window) && "" in servers
      && (forall k | k in servers :: servers[k].buckets.Length == slots)
      && (forall k, g | k in servers && g in servers && k != g ::
            servers[k] != servers[g] && servers[k].buckets != servers[g].buckets)
    }

    ghost function Footprint(): (s: set<object>)
      reads this
    {
      (set k | k in servers :: servers[k] as object) + (set k | k in servers :: servers[k].buckets as object)
    }

    ghost function View(): (m: map<string, Ring>)
      reads this, Footprint()
    {
      map k | k in servers :: servers[k].Contents()
    }

    constructor (w: int)
      ensures Valid() && View() == RunMeter(slots, []) && window == (if w <= 0 then SECOND else w)
      ensures fresh(Footprint())
    {
      window := if w <= 0 then SECOND else w;
      slots := Slots(if w <= 0 then SECOND else w);
      var all := new ServerState(Slots(if w <= 0 then SECOND else w));
      servers := map["" := all];
    }

    method GetOrCreate(server: string) returns (s: ServerState)
      requires Valid()
      modifies this`servers
      ensures Valid() && server in servers && s == servers[server]
      ensures View() == old(View())[server := RingOf(old(View()), slots, server)]
      ensures fresh(Footprint() - old(Footprint()))
    {
      if server !in servers {
        s := new ServerState(slots);
        servers := servers[server := s];
      }
      s := servers[server];
    }

    /** One server's record; the other rings are disjoint from it. */
    method RecordIn(server: string, now: int, n: int)
      requires Valid() && server in servers
      modifies servers[server], servers[server].buckets
      ensures Valid() && View() == old(View())[server := Recorded(old(View())[server], now, n)]
    {
      servers[server].Record(now, n);
    }

    method RecordOwn(server: string, now: int, n: int)
      requires Valid()
      modifies this`servers, Footprint()
      ensures Valid() && View() == old(View())[server := Recorded(RingOf(old(View()), slots, server), now, n)]
      ensures fresh(Footprint() - old(Footprint()))
    {
      ghost var was := View();
      var s := GetOrCreate(server);
      ghost var made := View();
      assert s in Footprint() && s.buckets in Footprint();
      RecordIn(server, now, n);
      UpdatedTwice(was, server, made[server], Recorded(made[server], now, n));
    }

    method Record(server: string, now: int, n: int)
      requires Valid()
      modifies this`servers, Footprint()
      ensures Valid() && View() == RecordedFor(old(View()), slots, server, now, n)
      ensures fresh(Footprint() - old(Footprint()))
    {
      if server != "" {
        RecordOwn(server, now, n);
      }
      assert servers[""] in Footprint() && servers[""].buckets in Footprint();
      RecordIn("", now, n);
    }

    method FlushIn(server: string)
      requires Valid() && server in servers
      modifies servers[server], servers[server].buckets
      ensures Valid() && View() == old(View())[server := Flushed(old(View())[server])]
    {
      servers[server].Flush();
    }

    method Flush()
      requires Valid()
      modifies Footprint()
      ensures Valid() && View() == FlushedAll(old(View())) && Footprint() == old(Footprint())
    {
      var todo := servers.Keys;
      ghost var was := View();
      while todo != {}
        invariant Valid() && todo <= servers.Keys
        invariant View().Keys == was.Keys
        invariant forall k | k in was :: View()[k] == if k in todo then was[k] else Flushed(was[k])
        decreases |todo|
      {
        var k :| k in todo;
        todo := todo - {k};
        FlushIn(k);
      }
    }

    method Step(op: MeterOp)
      requires Valid()
      modifies this`servers, Footprint()
      ensures Valid() && View() == Stepped(old(View()), slots, op)
      ensures fresh(Footprint() - old(Footprint()))
    {
      if op.RecordFor? {
        Record(op.server, op.now, op.n);
      } else {
        Flush();
      }
    }

    /** The total behind BPS: none for a server never met. */
    method WindowTotal(server: string, now: int) returns (total: int)
      requires Valid()
      ensures total == Total(RingOf(View(), slots, server).buckets, now - window)
    {
      if server !in servers {
        TotalOfEmpty(slots, now - window);
        return 0;
      }
      total := servers[server].WindowTotal(now, window);
    }

    method LifetimeTotal(server: string) returns (total: int)
      requires Valid()
      ensures total == RingOf(View(), slots, server).lifetime
    {
      total := if server in servers then servers[server].lifetime else 0;
    }

    /** A new meter, driven through any run in place, holds what the run over values
        does. */
    method ReplayInPlace(ops: seq<MeterOp>)
      requires Valid() && View() == RunMeter(slots, [])
      modifies this`servers, Footprint()
      ensures Valid() && View() == RunMeter(slots, ops)
      ensures fresh(Footprint() - old(Footprint()))
      decreases |ops|
    {
      if ops != [] {
        var before, op := ops[..|ops| - 1], ops[|ops| - 1];
        ReplayInPlace(before);
        ghost var mid := Footprint();
        assert fresh(mid - old(Footprint()));
        Step(op);
        assert fresh(Footprint() - mid);
        RunsBySteps(slots, ops);
      }
    }
  }
}

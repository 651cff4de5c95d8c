/**
 The single-flight cache of free-space readings (claim, probe, evictStaleLocked,
 estimate and NoteWritten, internal/assembler/diskprobe.go). The statfs call is
 the time between a probe's launch and its end, and may never end. Probes are
 numbered in launch order; a number stands for the channel its end closes. The
 clock is a parameter of each span, read once in it.
 */
module DiskProbe {

  import opened Wrappers

  /** One directory's entry. No fetchedAt is the zero time: nothing read yet. */
  datatype Entry = Entry(
    pending: Option<nat>, free: int, err: Option<string>, fetchedAt: Option<int>, wroteAtProbe: int)

  const NEW_ENTRY := Entry(None, 0, None, None, 0)

  datatype Config = Config(ttl: int, evictAfter: int)

  function Max(a: int, b: int): (m: int) { if a < b then b else a }

  predicate Fresh(e: Entry, now: int, c: Config) {
    e.pending.None? && e.fetchedAt.Some? && now - e.fetchedAt.value < c.ttl
  }

  predicate Stale(e: Entry, now: int, c: Config) {
    e.pending.None? && e.fetchedAt.Some? && now - e.fetchedAt.value > Max(c.evictAfter, c.ttl)
  }

  function Estimate(e: Entry, wrote: int): (free: int) { Max(e.free - (wrote - e.wroteAtProbe), 0) }

  function Launched(e: Entry, probe: nat, wrote: int): (r: Entry) {
    e.(pending := Some(probe), wroteAtProbe := wrote)
  }

  function Finished(e: Entry, free: int, err: Option<string>, now: int): (r: Entry) {
    e.(pending := None, free := free, err := err, fetchedAt := Some(now))
  }

  // ---- The in-place code ----------------------------------------------------------------

  /** What the directories hold: a sweep if dir is new, then dir's entry. */
  function Looked(v: map<string, Entry>, dir: string, now: int, c: Config): (r: map<string, Entry>)
    ensures dir in r
  {
    if dir in v then v else (map d | d in v && !Stale(v[d], now, c) :: v[d])[dir := NEW_ENTRY]
  }

  /** A claim launches a probe for dir unless it has a fresh reading or one in flight. */
  function Claimed(v: map<string, Entry>, dir: string, now: int, c: Config, probe: nat, wrote: int)
      : (r: map<string, Entry>)
    ensures dir in r
  {
    var w := Looked(v, dir, now, c);
    if Fresh(w[dir], now, c) || w[dir].pending.Some? then w else w[dir := Launched(w[dir], probe, wrote)]
  }

  class ProbeState {
    var pending: Option<nat>
    var free: int
    var err: Option<string>
    var fetchedAt: Option<int>
    var wroteAtProbe: int

    constructor ()
      ensures View() == NEW_ENTRY
    {
      pending, free, err, fetchedAt, wroteAtProbe := None, 0, None, None, 0;
    }

    function View(): (e: Entry)
      reads this
    {
      Entry(pending, free, err, fetchedAt, wroteAtProbe)
    }

    /** The end of the probe launched on this entry, which still holds it by pointer. */
    method ProbeDone(result: int, failure: Option<string>, now: int)
      modifies this
      ensures View() == Finished(old(View()), result, failure, now)
    {
      free, err, fetchedAt := result, failure, Some(now);
      pending := None;
    }
  }

  class Cache {
    const config: Config
    var dirs: map<string, ProbeState>
    var wrote: int
    var launched: nat

    /** No two directories share an entry, and a pending probe's number is given out. */
    ghost predicate Valid()
      reads this, dirs.Values
    {
      && (forall d, g | d in dirs && g in dirs && d != g :: dirs[d] != dirs[g])
      && (forall d | d in dirs && dirs[d].pending.Some? :: dirs[d].pending.value < launched)
    }

    ghost function View(): (v: map<string, Entry>)
      reads this, dirs.Values
    {
      map d | d in dirs :: dirs[d].View()
    }

    constructor (c: Config)
      ensures Valid() && View() == map[] && wrote == 0 && launched == 0 && config == c
    {
      config, dirs, wrote, launched := c, map[], 0, 0;
    }

    method NoteWritten(n: int)
      modifies this`wrote
      ensures wrote == old(wrote) + Max(n, 0)
    {
      if n <= 0 {
        return;
      }
      wrote := wrote + n;
    }

    method EvictStaleLocked(now: int)
      requires Valid()
      modifies this`dirs
      ensures Valid()
      ensures View() == map d | d in old(View()) && !Stale(old(View())[d], now, config) :: old(View())[d]
      ensures forall d | d in dirs :: d in old(dirs) && dirs[d] == old(dirs)[d]
    {
      DropStale(now);
    }

    /** Its loop. */
    method DropStale(now: int)
      modifies this`dirs
      ensures dirs == map d | d in old(dirs) && !Stale(old(dirs)[d].View(), now, config) :: old(dirs)[d]
    {
      var todo := dirs.Keys;
      ghost var was := dirs;
      while todo != {}
        invariant todo <= dirs.Keys && forall d | d in dirs :: d in was && dirs[d] == was[d]
        invariant forall d | d in was && d !in todo :: d in dirs <==> !Stale(was[d].View(), now, config)
        decreases |todo|
      {
        var d :| d in todo;
        todo := todo - {d};
        if Stale(dirs[d].View(), now, config) {
          dirs := dirs - {d};
        }
      }
    }

    method Add(dir: string)
      requires Valid() && dir !in dirs
      modifies this`dirs
      ensures Valid() && View() == old(View())[dir := NEW_ENTRY]
      ensures dir in dirs && fresh(dirs[dir]) && dirs == old(dirs)[dir := dirs[dir]]
    {
      var entry := new ProbeState();
      dirs := dirs[dir := entry];
    }

    /** dir's entry, made after a sweep if there is none. */
    method Look(dir: string, now: int) returns (st: ProbeState)
      requires Valid()
      modifies this`dirs
      ensures Valid() && dir in dirs && st == dirs[dir]
      ensures View() == Looked(old(View()), dir, now, config)
      ensures forall d | d in dirs :: fresh(dirs[d]) || (d in old(dirs) && dirs[d] == old(dirs)[d])
    {
      if dir !in dirs {
        EvictStaleLocked(now);
        Add(dir);
      }
      st := dirs[dir];
    }

    /** Marks dir's entry as having a new probe in flight. */
    method Launch(dir: string)
      requires Valid() && dir in dirs
      modifies this`launched, dirs[dir]
      ensures Valid() && launched == old(launched) + 1
      ensures View() == old(View())[dir := Launched(old(View())[dir], old(launched), wrote)]
    {
      var st := dirs[dir];
      st.pending, st.wroteAtProbe := Some(launched), wrote;
      launched := launched + 1;
    }

    /** A hit answers from the cache; otherwise the entry to wait on has a probe in
        flight, this call's or an earlier one's. */
    method Claim(dir: string, now: int) returns (st: ProbeState, done: Option<nat>, free: int, err: Option<string>)
      requires Valid()
      modifies this`dirs, this`launched, dirs.Values
      ensures Valid() && dir in dirs && st == dirs[dir]
      ensures View() == Claimed(old(View()), dir, now, config, old(launched), wrote)
      ensures forall d | d in dirs :: fresh(dirs[d]) || (d in old(dirs) && dirs[d] == old(dirs)[d])
      ensures var e := Looked(old(View()), dir, now, config)[dir];
        launched == old(launched) + if Fresh(e, now, config) || e.pending.Some? then 0 else 1
      ensures done == st.pending && (done.None? <==> Fresh(st.View(), now, config))
      ensures done.None? <==> old(dir in dirs && dirs[dir].pending.None? && dirs[dir].fetchedAt.Some?
                                  && now - dirs[dir].fetchedAt.value < config.ttl)
      ensures done.None? ==> free == Estimate(st.View(), wrote) && err == st.err
      ensures done.Some? ==> free == 0 && err.None?
    {
      st := Look(dir, now);
      if st.pending.None? && st.fetchedAt.Some? && now - st.fetchedAt.value < config.ttl {
        return st, None, Max(st.free - (wrote - st.wroteAtProbe), 0), st.err;
      }
      if st.pending.None? {
        Launch(dir);
      }
      return st, st.pending, 0, None;
    }
  }
}

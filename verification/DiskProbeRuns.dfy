/**
 Every interleaving of callers, probe ends and noted writes over the free-space
 cache (internal/assembler/diskprobe.go). Entries are cells reached by pointer: the
 map holds one per directory, and a probe or a waiter holds on to the cell it was
 given whether or not the map still does.
 */
module DiskProbeRuns {
  import opened Wrappers
  import opened DiskProbe

  datatype Reading = Reading(free: int, err: Option<string>, at: int)

  /** A probe's launch: its directory, how many notes came before, what it read. */
  datatype Launch = Launch(dir: string, noted: nat, result: Option<Reading>)

  /** An entry, the directory it was made for, and the probe whose reading it holds. */
  datatype Cell = Cell(entry: Entry, home: string, readBy: Option<nat>)

  /** outstanding maps each statfs not yet returned to the cell it will write; notes
      and launches are the run's history. */
  datatype State = State(
    dirs: map<string, nat>, cells: seq<Cell>, outstanding: map<nat, nat>, wrote: int,
    notes: seq<int>, launches: seq<Launch>)

  datatype Step =
    | Note(n: int)
    | ClaimDir(dir: string, now: int)
    | ProbeEnd(probe: nat, result: Reading)

  const START := State(map[], [], map[], 0, [], [])

  predicate Enabled(s: State, st: Step) {
    match st
    case Note(_) => true
    case ClaimDir(_, _) => true
    case ProbeEnd(p, _) => p in s.outstanding && p < |s.launches| && s.outstanding[p] < |s.cells|
  }

  predicate StaleDir(s: State, d: string, now: int, c: Config) {
    d in s.dirs && s.dirs[d] < |s.cells| && Stale(s.cells[s.dirs[d]].entry, now, c)
  }

  function Look(s: State, dir: string, now: int, c: Config): (t: State) {
    if dir in s.dirs then s
    else s.(dirs := (map d | d in s.dirs && !StaleDir(s, d, now, c) :: s.dirs[d])[dir := |s.cells|],
            cells := s.cells + [Cell(NEW_ENTRY, dir, None)])
  }

  function LaunchOn(s: State, dir: string, k: nat): (t: State)
    requires k < |s.cells|
  {
    var p := |s.launches|;
    s.(cells := s.cells[k := s.cells[k].(entry := Launched(s.cells[k].entry, p, s.wrote))],
       outstanding := s.outstanding[p := k], launches := s.launches + [Launch(dir, |s.notes|, None)])
  }

  function Claim(s: State, dir: string, now: int, c: Config): (t: State) {
    var w := Look(s, dir, now, c);
    var k := w.dirs[dir];
    if k >= |w.cells| || Fresh(w.cells[k].entry, now, c) || w.cells[k].entry.pending.Some? then w
    else LaunchOn(w, dir, k)
  }

  function End(s: State, p: nat, r: Reading): (t: State)
    requires Enabled(s, ProbeEnd(p, r))
  {
    var k := s.outstanding[p];
    s.(cells := s.cells[k := s.cells[k].(entry := Finished(s.cells[k].entry, r.free, r.err, r.at), readBy := Some(p))],
       outstanding := s.outstanding - {p}, launches := s.launches[p := s.launches[p].(result := Some(r))])
  }

  function Do(s: State, st: Step, c: Config): (t: State)
    requires Enabled(s, st)
  {
    match st
    case Note(n) => s.(wrote := s.wrote + Max(n, 0), notes := s.notes + [n])
    case ClaimDir(dir, now) => Claim(s, dir, now, c)
    case ProbeEnd(p, r) => End(s, p, r)
  }

  ghost predicate Trace(s: State, steps: seq<Step>, t: State, c: Config)
    decreases |steps|
  {
    if steps == [] then s == t
    else Enabled(s, steps[0]) && Trace(Do(s, steps[0], c), steps[1..], t, c)
  }

  // ---- Bytes noted ----------------------------------------------------------------------

  /** The bytes a run of notes adds; a note of nothing or less adds none. */
  function Bytes(notes: seq<int>): (n: nat) {
    if notes == [] then 0 else Bytes(notes[..|notes| - 1]) + if notes[|notes| - 1] > 0 then notes[|notes| - 1] else 0
  }

  lemma {:induction false} BytesSplit(notes: seq<int>, k: nat)
    requires k <= |notes|
    ensures Bytes(notes) == Bytes(notes[..k]) + Bytes(notes[k..])
    decreases |notes| - k
  {
    if k == |notes| {
      assert notes[..k] == notes;
    } else {
      var m := |notes| - 1;
      BytesSplit(notes[..m], k);
      assert notes[..m][..k] == notes[..k];
      assert notes[k..][..m - k] == notes[..m][k..];
    }
  }

  /** The bytes noted since a probe was launched. */
  function NotedSince(s: State, p: nat): (n: nat)
    requires p < |s.launches| && s.launches[p].noted <= |s.notes|
  {
    Bytes(s.notes[s.launches[p].noted..])
  }

  // ---- Invariant ------------------------------------------------------------------------

  /** The map reaches each cell from one directory at most, the one it was made for. */
  predicate MapInv(s: State) {
    forall d | d in s.dirs :: s.dirs[d] < |s.cells| && s.cells[s.dirs[d]].home == d
  }

  predicate HistoryInv(s: State) {
    && s.wrote == Bytes(s.notes)
    && (forall p: nat | p < |s.launches| :: s.launches[p].noted <= |s.notes|)
  }

  /** A probe is outstanding exactly while its cell says so, and the map still holds
      that cell. */
  predicate FlightInv(s: State) {
    && (forall p | p in s.outstanding ::
          && p < |s.launches| && s.launches[p].result.None? && s.outstanding[p] < |s.cells|
          && s.cells[s.outstanding[p]].entry.pending == Some(p))
    && (forall k: nat | k < |s.cells| && s.cells[k].entry.pending.Some? ::
          && s.cells[k].entry.pending.value in s.outstanding
          && s.outstanding[s.cells[k].entry.pending.value] == k
          && s.cells[k].home in s.dirs && s.dirs[s.cells[k].home] == k)
  }

  /** The launch a cell's wroteAtProbe was taken at. */
  function LastLaunch(k: Cell): (p: nat) {
    if k.entry.pending.Some? then k.entry.pending.value else if k.readBy.Some? then k.readBy.value else 0
  }

  predicate CellInv(s: State, k: Cell) {
    && (k.entry.fetchedAt.Some? <==> k.readBy.Some?)
    && (k.readBy.Some? ==>
          && k.readBy.value < |s.launches|
          && s.launches[k.readBy.value].dir == k.home
          && k.readBy.value <= LastLaunch(k)
          && s.launches[k.readBy.value].result == Some(Reading(k.entry.free, k.entry.err, k.entry.fetchedAt.value)))
    && (k.entry.pending.Some? || k.readBy.Some?)
    && LastLaunch(k) < |s.launches|
    && s.launches[LastLaunch(k)].dir == k.home
    && s.launches[LastLaunch(k)].noted <= |s.notes|
    && k.entry.wroteAtProbe == Bytes(s.notes[..s.launches[LastLaunch(k)].noted])
  }

  predicate CellsInv(s: State) {
    forall k: nat | k < |s.cells| :: CellInv(s, s.cells[k])
  }

  /** The map's entry for a directory is behind none of its launches. */
  predicate LatestInv(s: State) {
    forall d, q: nat | d in s.dirs && s.dirs[d] < |s.cells| && q < |s.launches| && s.launches[q].dir == d ::
      q <= LastLaunch(s.cells[s.dirs[d]])
  }

  predicate Inv(s: State) {
    MapInv(s) && HistoryInv(s) && FlightInv(s) && CellsInv(s) && LatestInv(s)
  }

  /** Inv, but for the cell of dir, which may be new: its probe is launched in the
      same span. */
  predicate LookedInv(s: State, dir: string) {
    && MapInv(s) && HistoryInv(s) && FlightInv(s) && dir in s.dirs
    && (forall k: nat | k < |s.cells| && k != s.dirs[dir] :: CellInv(s, s.cells[k]))
    && (s.cells[s.dirs[dir]] == Cell(NEW_ENTRY, dir, None) || CellInv(s, s.cells[s.dirs[dir]]))
    && (forall d, q: nat | d in s.dirs && d != dir && q < |s.launches| && s.launches[q].dir == d ::
          q <= LastLaunch(s.cells[s.dirs[d]]))
  }

  lemma NoteKeepsInv(s: State, n: int, c: Config)
    requires Inv(s)
    ensures Inv(Do(s, Note(n), c))
  {
    var t := Do(s, Note(n), c);
    assert t.notes[..|s.notes|] == s.notes;
    forall k: nat | k < |t.cells| ensures CellInv(t, t.cells[k]) {
      assert CellInv(s, s.cells[k]);
      var m := s.launches[LastLaunch(s.cells[k])].noted;
      assert t.notes[..m] == s.notes[..m];
    }
  }

  lemma SweepKeepsFlight(s: State, dir: string, now: int, c: Config)
    requires Inv(s) && dir !in s.dirs
    ensures FlightInv(Look(s, dir, now, c))
  {
    var t := Look(s, dir, now, c);
    forall k: nat | k < |t.cells| && t.cells[k].entry.pending.Some?
      ensures t.cells[k].home in t.dirs && t.dirs[t.cells[k].home] == k
    {
      assert k < |s.cells| && s.cells[k].home in s.dirs && s.cells[k].home != dir;
    }
  }

  lemma LookKeeps(s: State, dir: string, now: int, c: Config)
    requires Inv(s)
    ensures LookedInv(Look(s, dir, now, c), dir)
  {
    var t := Look(s, dir, now, c);
    if dir !in s.dirs {
      SweepKeepsFlight(s, dir, now, c);
      forall k: nat | k < |s.cells| ensures CellInv(t, t.cells[k]) {
        assert CellInv(s, s.cells[k]);
      }
    }
  }

  lemma LaunchKeepsFlight(s: State, dir: string)
    requires LookedInv(s, dir) && s.cells[s.dirs[dir]].entry.pending.None?
    ensures MapInv(LaunchOn(s, dir, s.dirs[dir])) && FlightInv(LaunchOn(s, dir, s.dirs[dir]))
  {
    var t := LaunchOn(s, dir, s.dirs[dir]);
    forall p | p in t.outstanding
      ensures t.outstanding[p] < |t.cells| && t.cells[t.outstanding[p]].entry.pending == Some(p)
    {
      assert p != |s.launches| ==> p in s.outstanding && s.outstanding[p] != s.dirs[dir];
    }
  }

  lemma LaunchKeepsCells(s: State, dir: string)
    requires LookedInv(s, dir) && s.cells[s.dirs[dir]].entry.pending.None?
    ensures CellsInv(LaunchOn(s, dir, s.dirs[dir]))
  {
    var at := s.dirs[dir];
    var t := LaunchOn(s, dir, at);
    assert s.notes[..|s.notes|] == s.notes;
    assert s.cells[at].home == dir;
    forall k: nat | k < |t.cells| ensures CellInv(t, t.cells[k]) {
      assert k != at ==> CellInv(s, s.cells[k]);
    }
  }

  lemma LaunchKeepsLatest(s: State, dir: string)
    requires LookedInv(s, dir) && s.cells[s.dirs[dir]].entry.pending.None?
    ensures LatestInv(LaunchOn(s, dir, s.dirs[dir]))
  {
    var t := LaunchOn(s, dir, s.dirs[dir]);
    forall d, q: nat | d in t.dirs && t.dirs[d] < |t.cells| && q < |t.launches| && t.launches[q].dir == d
      ensures q <= LastLaunch(t.cells[t.dirs[d]])
    {
      assert d != dir ==> t.dirs[d] != s.dirs[dir];
    }
  }

  lemma ClaimKeepsInv(s: State, dir: string, now: int, c: Config)
    requires Inv(s)
    ensures Inv(Claim(s, dir, now, c))
  {
    LookKeeps(s, dir, now, c);
    var w := Look(s, dir, now, c);
    if w.cells[w.dirs[dir]].entry.pending.None? && !Fresh(w.cells[w.dirs[dir]].entry, now, c) {
      LaunchKeepsFlight(w, dir);
      LaunchKeepsCells(w, dir);
      LaunchKeepsLatest(w, dir);
    }
  }

  lemma EndKeepsFlight(s: State, p: nat, r: Reading)
    requires Inv(s) && Enabled(s, ProbeEnd(p, r))
    ensures MapInv(End(s, p, r)) && FlightInv(End(s, p, r))
  {
    var t := End(s, p, r);
    forall q | q in t.outstanding
      ensures t.outstanding[q] < |t.cells| && t.cells[t.outstanding[q]].entry.pending == Some(q)
    {
      assert q in s.outstanding && s.outstanding[q] != s.outstanding[p];
    }
  }

  lemma EndKeepsCell(s: State, p: nat, r: Reading, k: nat)
    requires Inv(s) && Enabled(s, ProbeEnd(p, r)) && k < |s.cells|
    ensures CellInv(End(s, p, r), End(s, p, r).cells[k])
    ensures LastLaunch(End(s, p, r).cells[k]) == LastLaunch(s.cells[k])
  {
    assert CellInv(s, s.cells[k]);
    assert s.launches[p].result.None?;
  }

  lemma EndKeepsInv(s: State, p: nat, r: Reading)
    requires Inv(s) && Enabled(s, ProbeEnd(p, r))
    ensures Inv(End(s, p, r))
  {
    var t := End(s, p, r);
    EndKeepsFlight(s, p, r);
    forall k: nat | k < |t.cells| ensures CellInv(t, t.cells[k]) && LastLaunch(t.cells[k]) == LastLaunch(s.cells[k]) {
      EndKeepsCell(s, p, r, k);
    }
    forall d, q: nat | d in t.dirs && t.dirs[d] < |t.cells| && q < |t.launches| && t.launches[q].dir == d
      ensures q <= LastLaunch(t.cells[t.dirs[d]])
    {
      assert s.launches[q].dir == d;
    }
  }

  lemma StepKeepsInv(s: State, st: Step, c: Config)
    requires Inv(s) && Enabled(s, st)
    ensures Inv(Do(s, st, c))
  {
    match st
    case Note(n) => NoteKeepsInv(s, n, c);
    case ClaimDir(dir, now) => ClaimKeepsInv(s, dir, now, c);
    case ProbeEnd(p, r) => EndKeepsInv(s, p, r);
  }

  lemma {:induction false} TraceKeepsInv(s: State, steps: seq<Step>, t: State, c: Config)
    requires Inv(s) && Trace(s, steps, t, c)
    ensures Inv(t)
    decreases |steps|
  {
    if steps != [] {
      StepKeepsInv(s, steps[0], c);
      TraceKeepsInv(Do(s, steps[0], c), steps[1..], t, c);
    }
  }

  // ---- Theorems -------------------------------------------------------------------------

  /** At most one statfs of a directory is outstanding, and the cell it will write is
      the one the map holds for that directory. */
  lemma OneProbePerDirectory(steps: seq<Step>, t: State, c: Config, p: nat, q: nat)
    requires Trace(START, steps, t, c) && p in t.outstanding && q in t.outstanding
    ensures p < |t.launches| && q < |t.launches|
    ensures t.launches[p].dir == t.launches[q].dir ==> p == q
    ensures t.launches[p].dir in t.dirs && t.dirs[t.launches[p].dir] == t.outstanding[p]
  {
    TraceKeepsInv(START, steps, t, c);
    assert CellInv(t, t.cells[t.outstanding[p]]) && CellInv(t, t.cells[t.outstanding[q]]);
  }

  /** Whether a caller that comes at now is answered from the cache. */
  predicate Hit(s: State, dir: string, now: int, c: Config) {
    dir in s.dirs && s.dirs[dir] < |s.cells| && Fresh(s.cells[s.dirs[dir]].entry, now, c)
  }

  /** p is the directory's last launch, and has returned. */
  ghost predicate LastRead(s: State, dir: string, p: nat) {
    && p < |s.launches| && s.launches[p].dir == dir && s.launches[p].result.Some?
    && forall q: nat | q < |s.launches| && s.launches[q].dir == dir :: q <= p
  }

  /** The map's entry for a directory that has no probe in flight holds its last reading. */
  lemma EntryHoldsTheLastReading(t: State, dir: string)
    requires Inv(t) && dir in t.dirs
    ensures var k := t.cells[t.dirs[dir]];
      && (k.entry.pending.None? ==>
            && k.readBy.Some? && LastRead(t, dir, k.readBy.value)
            && t.launches[k.readBy.value].result == Some(Reading(k.entry.free, k.entry.err, k.entry.fetchedAt.value)))
      && (k.entry.pending.Some? ==> forall p: nat :: !LastRead(t, dir, p))
  {
    var k := t.cells[t.dirs[dir]];
    assert CellInv(t, k) && k.home == dir;
    if k.entry.pending.Some? {
      var q := k.entry.pending.value;
      forall p: nat ensures !LastRead(t, dir, p) {
        assert q in t.outstanding && t.launches[q].result.None?;
      }
    }
  }

  /** A caller is answered from the cache exactly when the directory's last probe has
      returned, less than the TTL ago, and the entry was not evicted since. */
  lemma HitExactlyWhen(steps: seq<Step>, t: State, c: Config, dir: string, now: int)
    requires Trace(START, steps, t, c)
    ensures Hit(t, dir, now, c) <==>
      dir in t.dirs && exists p: nat :: LastRead(t, dir, p) && now - t.launches[p].result.value.at < c.ttl
  {
    TraceKeepsInv(START, steps, t, c);
    if dir in t.dirs {
      EntryHoldsTheLastReading(t, dir);
      var k := t.cells[t.dirs[dir]];
      if p: nat :| LastRead(t, dir, p) && now - t.launches[p].result.value.at < c.ttl {
        assert p == k.readBy.value;
      }
      if Hit(t, dir, now, c) {
        assert LastRead(t, dir, k.readBy.value);
      }
    }
  }

  /** A claim that is not answered from the cache leaves exactly one probe of the directory
      in flight: the one there was, or, if there was none, a new one. */
  lemma ClaimAnswersOrProbes(steps: seq<Step>, t: State, c: Config, dir: string, now: int)
    requires Trace(START, steps, t, c)
    ensures var u, n := Claim(t, dir, now, c), |t.launches|;
      && (Hit(t, dir, now, c) ==> u == t)
      && (!Hit(t, dir, now, c) ==>
            if exists p :: p in t.outstanding && p < n && t.launches[p].dir == dir
            then u.launches == t.launches && u.outstanding == t.outstanding
            else u.launches == t.launches + [Launch(dir, |t.notes|, None)] && n in u.outstanding)
  {
    TraceKeepsInv(START, steps, t, c);
    PendingExactlyWhen(t, dir);
    ClaimLaunches(t, dir, now, c);
  }

  lemma PendingExactlyWhen(t: State, dir: string)
    requires Inv(t)
    ensures (exists p :: p in t.outstanding && p < |t.launches| && t.launches[p].dir == dir) <==>
      dir in t.dirs && t.cells[t.dirs[dir]].entry.pending.Some?
  {
    forall p | p in t.outstanding && t.launches[p].dir == dir
      ensures dir in t.dirs && t.cells[t.dirs[dir]].entry.pending.Some?
    {
      assert CellInv(t, t.cells[t.outstanding[p]]);
    }
    if dir in t.dirs && t.cells[t.dirs[dir]].entry.pending.Some? {
      var k := t.cells[t.dirs[dir]];
      assert CellInv(t, k) && k.home == dir && k.entry.pending.value in t.outstanding;
    }
  }

  lemma ClaimLaunches(t: State, dir: string, now: int, c: Config)
    requires MapInv(t)
    ensures var u, n := Claim(t, dir, now, c), |t.launches|;
      && (Hit(t, dir, now, c) ==> u == t)
      && (!Hit(t, dir, now, c) ==>
            if dir in t.dirs && t.cells[t.dirs[dir]].entry.pending.Some?
            then u.launches == t.launches && u.outstanding == t.outstanding
            else u.launches == t.launches + [Launch(dir, |t.notes|, None)] && n in u.outstanding)
  {
  }

  /** A claim drops an entry exactly when it is for a new directory and the entry's last
      probe returned longer ago than both the eviction window and the TTL: never one
      pending, nor one within its TTL. Every other entry stays the same object. */
  lemma EvictsExactlyTheStale(steps: seq<Step>, t: State, c: Config, dir: string, now: int, d: string)
    requires Trace(START, steps, t, c) && d in t.dirs
    ensures d !in Claim(t, dir, now, c).dirs <==> dir !in t.dirs && exists p: nat ::
      LastRead(t, d, p) && now - t.launches[p].result.value.at > c.ttl
      && now - t.launches[p].result.value.at > c.evictAfter
    ensures d in Claim(t, dir, now, c).dirs ==> Claim(t, dir, now, c).dirs[d] == t.dirs[d]
  {
    TraceKeepsInv(START, steps, t, c);
    ClaimKeepsEntries(t, dir, now, c, d);
    StaleExactlyWhen(t, now, c, d);
  }

  lemma ClaimKeepsEntries(t: State, dir: string, now: int, c: Config, d: string)
    requires MapInv(t) && d in t.dirs
    ensures d !in Claim(t, dir, now, c).dirs <==> dir !in t.dirs && Stale(t.cells[t.dirs[d]].entry, now, c)
    ensures d in Claim(t, dir, now, c).dirs ==> Claim(t, dir, now, c).dirs[d] == t.dirs[d]
  {
  }

  lemma StaleExactlyWhen(t: State, now: int, c: Config, d: string)
    requires Inv(t) && d in t.dirs
    ensures Stale(t.cells[t.dirs[d]].entry, now, c) <==> exists p: nat ::
      LastRead(t, d, p) && now - t.launches[p].result.value.at > c.ttl
      && now - t.launches[p].result.value.at > c.evictAfter
  {
    EntryHoldsTheLastReading(t, d);
    var k := t.cells[t.dirs[d]];
    if p: nat :| LastRead(t, d, p) && now - t.launches[p].result.value.at > c.ttl
                 && now - t.launches[p].result.value.at > c.evictAfter {
      assert p == k.readBy.value;
    }
    if Stale(k.entry, now, c) { assert LastRead(t, d, k.readBy.value); }
  }

  /** The bytes an estimate subtracts. */
  lemma EstimateSubtracts(s: State, k: Cell)
    requires HistoryInv(s) && CellInv(s, k)
    ensures s.wrote - k.entry.wroteAtProbe == NotedSince(s, LastLaunch(k))
  {
    BytesSplit(s.notes, s.launches[LastLaunch(k)].noted);
  }

  /** A hit answers with the directory's last reading less every byte noted since that
      reading's probe was launched, floored at zero. */
  lemma HitIsExact(steps: seq<Step>, t: State, c: Config, dir: string, now: int) returns (p: nat)
    requires Trace(START, steps, t, c) && Hit(t, dir, now, c)
    ensures LastRead(t, dir, p) && t.launches[p].noted <= |t.notes|
    ensures var free, noted := t.launches[p].result.value.free, NotedSince(t, p);
      Estimate(t.cells[t.dirs[dir]].entry, t.wrote) == if free > noted then free - noted else 0
    ensures t.cells[t.dirs[dir]].entry.err == t.launches[p].result.value.err
    ensures now - t.launches[p].result.value.at < c.ttl
  {
    TraceKeepsInv(START, steps, t, c);
    var k := t.cells[t.dirs[dir]];
    assert CellInv(t, k);
    p := k.readBy.value;
    assert LastLaunch(k) == p;
    EstimateSubtracts(t, k);
  }

  /** A waiter reads the cell it was given after its probe ended, by when a newer probe
      may be in flight on it. What it reads is never below the reading less the bytes
      noted since its launch, and equals that exactly when no newer probe is in
      flight, or nothing was noted between the two launches, or nothing is left. */
  lemma WaiterReadsExactlyWhen(steps: seq<Step>, t: State, c: Config, k: nat)
    requires Trace(START, steps, t, c) && k < |t.cells| && t.cells[k].readBy.Some?
    ensures CellInv(t, t.cells[k])
    ensures var p, q, e := t.cells[k].readBy.value, LastLaunch(t.cells[k]), t.cells[k].entry;
      && t.launches[p].noted <= |t.notes|
      && NotedSince(t, q) <= NotedSince(t, p)
      && Estimate(e, t.wrote) >= Max(e.free - NotedSince(t, p), 0)
      && (Estimate(e, t.wrote) == Max(e.free - NotedSince(t, p), 0) <==>
            e.pending.None? || NotedSince(t, q) == NotedSince(t, p) || e.free <= NotedSince(t, q))
  {
    TraceKeepsInv(START, steps, t, c);
    assert CellInv(t, t.cells[k]);
    var p, q := t.cells[k].readBy.value, LastLaunch(t.cells[k]);
    LaunchesInOrder(START, steps, t, c);
    EarlierSeesMore(t, p, q);
    EstimateSubtracts(t, t.cells[k]);
  }

  lemma EarlierSeesMore(s: State, p: nat, q: nat)
    requires InOrder(s) && p <= q < |s.launches|
    ensures NotedSince(s, q) <= NotedSince(s, p)
  {
    var a, b := s.launches[p].noted, s.launches[q].noted;
    BytesSplit(s.notes[a..], b - a);
    assert s.notes[a..][b - a..] == s.notes[b..];
  }

  predicate InOrder(s: State) {
    && (forall p: nat | p < |s.launches| :: s.launches[p].noted <= |s.notes|)
    && (forall p: nat, q: nat | p <= q < |s.launches| :: s.launches[p].noted <= s.launches[q].noted)
  }

  lemma {:induction false} LaunchesInOrder(s: State, steps: seq<Step>, t: State, c: Config)
    requires InOrder(s) && Trace(s, steps, t, c)
    ensures InOrder(t)
    decreases |steps|
  {
    if steps != [] {
      LaunchesInOrder(Do(s, steps[0], c), steps[1..], t, c);
    }
  }

  /** The waiter's read can be too high: 100 bytes read, 40 noted, and a newer probe's
      launch makes the waiter of the first read 100. */
  lemma WaiterCanReadTooMuch() returns (t: State)
    ensures Trace(START, EXAMPLE, t, Config(5, 600))
    ensures |t.cells| == 1 && t.cells[0].readBy == Some(0) && |t.launches| == 2
    ensures t.launches[0].noted == 0 && NotedSince(t, 0) == 40
    ensures Estimate(t.cells[0].entry, t.wrote) == 100
  {
    var c := Config(5, 600);
    var s1 := Do(START, EXAMPLE[0], c);
    var cell := Cell(Entry(Some(0), 0, None, None, 0), "d", None);
    assert s1 == State(map["d" := 0], [cell], map[0 := 0], 0, [], [Launch("d", 0, None)]);
    var s2 := Do(s1, EXAMPLE[1], c);
    assert s2 == AfterReading([], 0);
    var s3 := Do(s2, EXAMPLE[2], c);
    assert s3 == AfterReading([40], 40);
    t := Do(s3, EXAMPLE[3], c);
    LastClaim(c);
    FourSteps(EXAMPLE, s1, s2, s3, t, c);
    assert t.notes[0..] == [40] && Bytes([40]) == 40;
  }

  const EXAMPLE := [ClaimDir("d", 0), ProbeEnd(0, Reading(100, None, 1)), Note(40), ClaimDir("d", 7)]

  function AfterReading(notes: seq<int>, wrote: int): (s: State) {
    State(map["d" := 0], [Cell(Entry(None, 100, None, Some(1), 0), "d", Some(0))], map[], wrote, notes,
          [Launch("d", 0, Some(Reading(100, None, 1)))])
  }

  lemma LastClaim(c: Config)
    requires c.ttl == 5
    ensures var t := Claim(AfterReading([40], 40), "d", 7, c);
      && t.cells == [Cell(Entry(Some(1), 100, None, Some(1), 40), "d", Some(0))]
      && t.notes == [40] && t.wrote == 40 && |t.launches| == 2 && t.launches[0].noted == 0
  {
  }

  lemma FourSteps(steps: seq<Step>, a: State, b: State, d: State, t: State, c: Config)
    requires |steps| == 4 && Enabled(START, steps[0]) && a == Do(START, steps[0], c)
    requires Enabled(a, steps[1]) && b == Do(a, steps[1], c) && Enabled(b, steps[2]) && d == Do(b, steps[2], c)
    requires Enabled(d, steps[3]) && t == Do(d, steps[3], c)
    ensures Trace(START, steps, t, c)
  {
    assert Trace(d, steps[3..], t, c);
    assert steps[2..][1..] == steps[3..] && steps[1..][1..] == steps[2..];
    assert Trace(b, steps[2..], t, c);
    assert Trace(a, steps[1..], t, c);
  }

  // ---- The machine's claim is the in-place one ---------------------------------------------

  function View(s: State): (v: map<string, Entry>) {
    map d | d in s.dirs && s.dirs[d] < |s.cells| :: s.cells[s.dirs[d]].entry
  }

  lemma LookRefines(s: State, dir: string, now: int, c: Config)
    requires MapInv(s)
    ensures View(Look(s, dir, now, c)) == Looked(View(s), dir, now, c)
  {
  }

  lemma LaunchRefines(w: State, dir: string)
    requires MapInv(w) && dir in w.dirs
    ensures View(LaunchOn(w, dir, w.dirs[dir])) == View(w)[dir := Launched(View(w)[dir], |w.launches|, w.wrote)]
  {
    var t := LaunchOn(w, dir, w.dirs[dir]);
    forall d | d in w.dirs && d != dir ensures t.cells[t.dirs[d]].entry == w.cells[w.dirs[d]].entry {
      assert w.cells[w.dirs[d]].home == d;
    }
  }

  /** What the map's entries are after a claim is what the in-place Claim leaves. */
  lemma ClaimRefines(s: State, dir: string, now: int, c: Config)
    requires Inv(s)
    ensures View(Claim(s, dir, now, c)) == Claimed(View(s), dir, now, c, |s.launches|, s.wrote)
  {
    LookKeeps(s, dir, now, c);
    LookRefines(s, dir, now, c);
    LaunchRefines(Look(s, dir, now, c), dir);
  }
}

/**
 The splitter of a subprocess's output into lines (internal/cmdutil/linestreamer.go):
 Write's buffering loop against a reading of the stream one byte at a time, in which
 chunks do not appear, and that reading against the lines themselves. The calls of
 onLine are the sequence of lines it was given.
 */
module LineStreamer {

  type Byte = b: int | 0 <= b < 256

  const CR: Byte := 13
  const NL: Byte := 10

  /** The line without its trailing carriage returns and newlines, however many. */
  function TrimRight(line: seq<Byte>): (r: seq<Byte>)
    ensures r <= line
    ensures forall k | |r| <= k < |line| :: line[k] == CR || line[k] == NL
    ensures r != [] ==> r[|r| - 1] != CR && r[|r| - 1] != NL
  {
    if line != [] && (line[|line| - 1] == CR || line[|line| - 1] == NL) then TrimRight(line[..|line| - 1]) else line
  }

  // ---- The stream a byte at a time --------------------------------------------------------

  /** The partial line, and the lines handed to onLine. */
  datatype Split = Split(buf: seq<Byte>, lines: seq<seq<Byte>>)

  function Next(s: Split, b: Byte): (t: Split) {
    if b == NL then Split([], s.lines + [TrimRight(s.buf)]) else Split(s.buf + [b], s.lines)
  }

  function Fed(s: Split, p: seq<Byte>): (t: Split) {
    if p == [] then s else Next(Fed(s, p[..|p| - 1]), p[|p| - 1])
  }

  /** A flush hands over the partial line unless nothing is left of it. */
  function Flushed(s: Split): (t: Split) {
    Split([], if TrimRight(s.buf) == [] then s.lines else s.lines + [TrimRight(s.buf)])
  }

  predicate NoNewline(p: seq<Byte>) { NL !in p }

  lemma {:induction false} FedAppend(s: Split, a: seq<Byte>, b: seq<Byte>)
    ensures Fed(s, a + b) == Fed(Fed(s, a), b)
    decreases |b|
  {
    if b == [] {
      assert a + b == a;
    } else {
      var m := |b| - 1;
      FedAppend(s, a, b[..m]);
      assert (a + b)[..|a + b| - 1] == a + b[..m];
    }
  }

  lemma {:induction false} FedNoNewline(s: Split, p: seq<Byte>)
    requires NoNewline(p)
    ensures Fed(s, p) == Split(s.buf + p, s.lines)
    decreases |p|
  {
    if p != [] {
      FedNoNewline(s, p[..|p| - 1]);
      assert p == p[..|p| - 1] + [p[|p| - 1]];
    }
  }

  /** The newline ReadString stops at adds nothing once the line is trimmed. */
  lemma TrimNewline(line: seq<Byte>)
    ensures TrimRight(line + [NL]) == TrimRight(line)
  {
    assert (line + [NL])[..|line|] == line;
  }

  lemma FedTerminated(lines: seq<seq<Byte>>, line: seq<Byte>)
    requires NoNewline(line)
    ensures Fed(Split([], lines), line + [NL]) == Split([], lines + [TrimRight(line)])
  {
    FedNoNewline(Split([], lines), line);
    assert (line + [NL])[..|line|] == line;
    assert [] + line == line;
  }

  /** A terminated line at the front of the buffer is one line, and the rest is as if
      it came to an empty buffer. */
  lemma FedLine(lines: seq<seq<Byte>>, line: seq<Byte>, rest: seq<Byte>)
    requires NoNewline(line)
    ensures Fed(Split([], lines), line + [NL] + rest) == Fed(Split([], lines + [TrimRight(line)]), rest)
  {
    FedAppend(Split([], lines), line + [NL], rest);
    FedTerminated(lines, line);
  }

  /** The same, of a line as ReadString returns it. */
  lemma FedRead(lines: seq<seq<Byte>>, buf: seq<Byte>, line: seq<Byte>, rest: seq<Byte>)
    requires buf == line + rest && line != [] && line[|line| - 1] == NL && NoNewline(line[..|line| - 1])
    ensures Fed(Split([], lines), buf) == Fed(Split([], lines + [TrimRight(line)]), rest)
  {
    var body := line[..|line| - 1];
    assert line == body + [NL];
    TrimNewline(body);
    FedLine(lines, body, rest);
  }

  // ---- The lines of a stream ---------------------------------------------------------------

  function Join(raw: seq<seq<Byte>>): (p: seq<Byte>) {
    if raw == [] then [] else raw[0] + [NL] + Join(raw[1..])
  }

  function Trimmed(raw: seq<seq<Byte>>): (r: seq<seq<Byte>>) {
    seq(|raw|, i requires 0 <= i < |raw| => TrimRight(raw[i]))
  }

  lemma TrimmedCons(lines: seq<seq<Byte>>, first: seq<Byte>, more: seq<seq<Byte>>)
    ensures lines + Trimmed([first] + more) == lines + [TrimRight(first)] + Trimmed(more)
  {
  }

  lemma JoinCons(l: seq<Byte>, raw: seq<seq<Byte>>)
    ensures Join([l] + raw) == l + [NL] + Join(raw)
  {
    assert ([l] + raw)[1..] == raw;
  }

  /** However a stream is written as newline-terminated lines and a rest without a
      newline, those are the lines handed over, stripped, and the rest is buffered. */
  lemma {:induction false} StreamIsItsLines(lines: seq<seq<Byte>>, raw: seq<seq<Byte>>, rest: seq<Byte>)
    requires NoNewline(rest) && forall l | l in raw :: NoNewline(l)
    ensures Fed(Split([], lines), Join(raw) + rest) == Split(rest, lines + Trimmed(raw))
    decreases |raw|
  {
    if raw == [] {
      FedNoNewline(Split([], lines), rest);
      assert Join(raw) + rest == rest;
    } else {
      var first, more := raw[0], raw[1..];
      var line, after := TrimRight(first), Join(more) + rest;
      assert raw == [first] + more;
      JoinCons(first, more);
      assert Join(raw) + rest == first + [NL] + after;
      FedLine(lines, first, after);
      StreamIsItsLines(lines + [line], more, rest);
      TrimmedCons(lines, first, more);
    }
  }

  function FirstNewline(p: seq<Byte>): (k: nat)
    requires NL in p
    ensures k < |p| && p[k] == NL && forall j | 0 <= j < k :: p[j] != NL
  {
    if p[0] == NL then 0 else 1 + FirstNewline(p[1..])
  }

  function RawLines(p: seq<Byte>): (raw: seq<seq<Byte>>) {
    if NL !in p then [] else [p[..FirstNewline(p)]] + RawLines(p[FirstNewline(p) + 1..])
  }

  function RestOf(p: seq<Byte>): (rest: seq<Byte>) {
    if NL !in p then p else RestOf(p[FirstNewline(p) + 1..])
  }

  /** Every stream can be written so. */
  lemma {:induction false} EveryStreamSplits(p: seq<Byte>)
    ensures p == Join(RawLines(p)) + RestOf(p)
    ensures NoNewline(RestOf(p)) && forall l | l in RawLines(p) :: NoNewline(l)
    decreases |p|
  {
    if NL in p {
      var k := FirstNewline(p);
      var line, after := p[..k], p[k + 1..];
      EveryStreamSplits(after);
      var raw := RawLines(after);
      assert RawLines(p) == [line] + raw && RestOf(p) == RestOf(after);
      JoinCons(line, raw);
      assert p == line + [NL] + after;
      assert line + [NL] + (Join(raw) + RestOf(after)) == line + [NL] + Join(raw) + RestOf(after);
    }
  }

  lemma FirstNewlineIs(l: seq<Byte>, after: seq<Byte>)
    requires NoNewline(l)
    ensures NL in l + [NL] + after && FirstNewline(l + [NL] + after) == |l|
  {
    var p := l + [NL] + after;
    assert p[|l|] == NL;
    assert forall j | 0 <= j < |l| :: p[j] == l[j];
  }

  /** And in one way only. */
  lemma {:induction false} OneWayToSplit(raw: seq<seq<Byte>>, rest: seq<Byte>)
    requires NoNewline(rest) && forall l | l in raw :: NoNewline(l)
    ensures RawLines(Join(raw) + rest) == raw && RestOf(Join(raw) + rest) == rest
    decreases |raw|
  {
    var p := Join(raw) + rest;
    if raw == [] {
      assert p == rest;
    } else {
      var after := Join(raw[1..]) + rest;
      assert p == raw[0] + [NL] + after;
      FirstNewlineIs(raw[0], after);
      assert p[..|raw[0]|] == raw[0] && p[|raw[0]| + 1..] == after;
      OneWayToSplit(raw[1..], rest);
    }
  }

  // ---- Runs -------------------------------------------------------------------------------

  datatype Op = Write(p: seq<Byte>) | Flush

  datatype State = State(split: Split, full: seq<Byte>, capped: bool)

  function Accumulated(s: State, cap: int, p: seq<Byte>): (t: State) {
    if cap == 0 then s.(full := s.full + p)
    else if cap < 0 || s.capped then s
    else if |s.full| >= cap then s.(capped := true)
    else if |p| > cap - |s.full| then s.(full := s.full + p[..cap - |s.full|], capped := true)
    else s.(full := s.full + p)
  }

  function Written(s: State, cap: int, p: seq<Byte>): (t: State) {
    Accumulated(s, cap, p).(split := Fed(s.split, p))
  }

  function Run(cap: int, ops: seq<Op>): (s: State) {
    if ops == [] then State(Split([], []), [], false)
    else
      var before, op := Run(cap, ops[..|ops| - 1]), ops[|ops| - 1];
      if op.Write? then Written(before, cap, op.p) else before.(split := Flushed(before.split))
  }

  /** A run with the chunks forgotten: its bytes in order, and where it was flushed. */
  datatype Event = Got(b: Byte) | Flushing

  function Bytes(p: seq<Byte>): (r: seq<Event>) { seq(|p|, i requires 0 <= i < |p| => Got(p[i])) }

  function Events(ops: seq<Op>): (r: seq<Event>) {
    if ops == [] then []
    else
      var op := ops[|ops| - 1];
      Events(ops[..|ops| - 1]) + if op.Write? then Bytes(op.p) else [Flushing]
  }

  function Replay(s: Split, events: seq<Event>): (t: Split) {
    if events == [] then s
    else
      var before, e := Replay(s, events[..|events| - 1]), events[|events| - 1];
      if e.Got? then Next(before, e.b) else Flushed(before)
  }

  lemma {:induction false} ReplayBytes(s: Split, events: seq<Event>, p: seq<Byte>)
    ensures Replay(s, events + Bytes(p)) == Fed(Replay(s, events), p)
    decreases |p|
  {
    if p == [] {
      assert events + Bytes(p) == events;
    } else {
      var m := |p| - 1;
      ReplayBytes(s, events, p[..m]);
      assert (events + Bytes(p))[..|events| + m] == events + Bytes(p[..m]);
    }
  }

  lemma {:induction false} RunReplays(cap: int, ops: seq<Op>)
    ensures Run(cap, ops).split == Replay(Split([], []), Events(ops))
    decreases |ops|
  {
    if ops != [] {
      var before, op := ops[..|ops| - 1], ops[|ops| - 1];
      RunReplays(cap, before);
      if op.Write? {
        ReplayBytes(Split([], []), Events(before), op.p);
      } else {
        assert Events(ops)[..|Events(before)|] == Events(before);
      }
    }
  }

  /** The bytes of every write. */
  function Stream(ops: seq<Op>): (p: seq<Byte>) {
    if ops == [] then []
    else Stream(ops[..|ops| - 1]) + if ops[|ops| - 1].Write? then ops[|ops| - 1].p else []
  }

  /** What String returns after a stream: all of it, its first cap bytes, or, for a
      negative cap, nothing. */
  function Kept(cap: int, p: seq<Byte>): (r: seq<Byte>) {
    if cap == 0 then p else if cap < 0 then [] else if |p| <= cap then p else p[..cap]
  }

  lemma {:induction false} FullIsAPrefix(cap: int, ops: seq<Op>)
    ensures Run(cap, ops).full == Kept(cap, Stream(ops))
    ensures Run(cap, ops).capped ==> cap > 0 && |Stream(ops)| >= cap
    decreases |ops|
  {
    if ops != [] {
      FullIsAPrefix(cap, ops[..|ops| - 1]);
    }
  }

  /** A run's lines, partial line and output depend on the bytes and the flushes
      alone, not on how the bytes were cut into writes. */
  lemma ChunkingIsInvisible(cap: int, a: seq<Op>, b: seq<Op>)
    requires Events(a) == Events(b)
    ensures Run(cap, a).split == Run(cap, b).split && Run(cap, a).full == Run(cap, b).full
  {
    RunReplays(cap, a);
    RunReplays(cap, b);
    FullIsAPrefix(cap, a);
    FullIsAPrefix(cap, b);
    StreamOfEvents(a);
    StreamOfEvents(b);
  }

  function BytesOf(events: seq<Event>): (p: seq<Byte>) {
    if events == [] then []
    else
      var e := events[|events| - 1];
      BytesOf(events[..|events| - 1]) + if e.Got? then [e.b] else []
  }

  lemma {:induction false} BytesOfBytes(events: seq<Event>, p: seq<Byte>)
    ensures BytesOf(events + Bytes(p)) == BytesOf(events) + p
    decreases |p|
  {
    if p == [] {
      assert events + Bytes(p) == events;
    } else {
      var m := |p| - 1;
      BytesOfBytes(events, p[..m]);
      assert (events + Bytes(p))[..|events| + m] == events + Bytes(p[..m]);
      assert p == p[..m] + [p[m]];
    }
  }

  lemma {:induction false} StreamOfEvents(ops: seq<Op>)
    ensures Stream(ops) == BytesOf(Events(ops))
    decreases |ops|
  {
    if ops != [] {
      var before, op := ops[..|ops| - 1], ops[|ops| - 1];
      StreamOfEvents(before);
      if op.Write? {
        BytesOfBytes(Events(before), op.p);
      } else {
        assert Events(ops)[..|Events(before)|] == Events(before);
      }
    }
  }

  predicate NoFlush(ops: seq<Op>) { forall op | op in ops :: op.Write? }

  lemma {:induction false} RunWithoutFlush(cap: int, ops: seq<Op>)
    requires NoFlush(ops)
    ensures Run(cap, ops).split == Fed(Split([], []), Stream(ops))
    decreases |ops|
  {
    if ops != [] {
      var before := ops[..|ops| - 1];
      RunWithoutFlush(cap, before);
      FedAppend(Split([], []), Stream(before), ops[|ops| - 1].p);
    }
  }

  /** However a stream is cut into writes, the lines handed over are its
      newline-terminated lines, stripped, and the buffer holds its unterminated rest;
      a flush then hands that over too, unless nothing is left of it. */
  lemma LinesOfTheStream(cap: int, ops: seq<Op>, raw: seq<seq<Byte>>, rest: seq<Byte>)
    requires NoFlush(ops) && Stream(ops) == Join(raw) + rest
    requires NoNewline(rest) && forall l | l in raw :: NoNewline(l)
    ensures Run(cap, ops).split == Split(rest, Trimmed(raw))
    ensures Run(cap, ops + [Flush]).split
         == Split([], Trimmed(raw) + if TrimRight(rest) == [] then [] else [TrimRight(rest)])
  {
    RunWithoutFlush(cap, ops);
    StreamIsItsLines([], raw, rest);
    assert (ops + [Flush])[..|ops|] == ops;
  }

  // ---- The in-place code --------------------------------------------------------------------

  class Streamer {
    const cap: int
    const listening: bool
    var buf: seq<Byte>
    var full: seq<Byte>
    var capped: bool
    var told: seq<seq<Byte>>
    ghost var split: Split

    /** told is the lines onLine was given, if there is one; split.lines those it would
        have been given. */
    ghost predicate Valid()
      reads this
    {
      && split.buf == buf && NoNewline(buf)
      && told == if listening then split.lines else []
    }

    ghost function View(): (s: State)
      reads this
    {
      State(split, full, capped)
    }

    constructor (max: int, onLine: bool)
      ensures Valid() && View() == Run(max, []) && cap == max && listening == onLine
    {
      cap, listening := max, onLine;
      buf, full, capped, told, split := [], [], false, [], Split([], []);
    }

    /** The bytes up to and including the first newline, or all of them and an error. */
    method ReadString() returns (line: seq<Byte>, eof: bool)
      modifies this`buf
      ensures old(buf) == line + buf
      ensures eof <==> NoNewline(old(buf))
      ensures eof ==> buf == []
      ensures !eof ==> line != [] && line[|line| - 1] == NL && NoNewline(line[..|line| - 1])
    {
      var i := 0;
      while i < |buf| && buf[i] != NL
        invariant i <= |buf| && NoNewline(buf[..i])
      {
        i := i + 1;
      }
      eof := i == |buf|;
      ghost var was := buf;
      if eof {
        assert buf[..i] == buf;
        line, buf := buf, [];
      } else {
        line, buf := buf[..i + 1], buf[i + 1..];
        assert line[..i] == was[..i];
      }
    }

    method Accumulate(p: seq<Byte>)
      modifies this`full, this`capped
      ensures View() == Accumulated(old(View()), cap, p)
    {
      if cap > 0 && !capped {
        var remaining := cap - |full|;
        if remaining <= 0 {
          capped := true;
        } else if |p| > remaining {
          full := full + p[..remaining];
          capped := true;
        } else {
          full := full + p;
        }
      } else if cap == 0 {
        full := full + p;
      }
    }

    /** Hands over every complete line at the front of the buffer. */
    method Dispatch()
      requires split.buf == [] && told == if listening then split.lines else []
      modifies this`buf, this`told, this`split
      ensures Valid() && split == Fed(old(split), old(buf))
    {
      var eof := false;
      ghost var goal := Fed(split, buf);
      while !eof
        invariant Fed(Split([], split.lines), buf) == goal
        invariant told == if listening then split.lines else []
        invariant eof ==> NoNewline(buf)
        decreases !eof, |buf|
      {
        ghost var was := buf;
        var line: seq<Byte>;
        line, eof := ReadString();
        if eof {
          buf := buf + line;
          assert buf == was;
        } else {
          FedRead(split.lines, was, line, buf);
          line := TrimRight(line);
          split := Split([], split.lines + [line]);
          if listening {
            told := told + [line];
          }
        }
      }
      FedNoNewline(Split([], split.lines), buf);
      split := Split([] + buf, split.lines);
    }

    method Write(p: seq<Byte>) returns (n: nat)
      requires Valid()
      modifies this
      ensures Valid() && n == |p|
      ensures View() == Written(old(View()), cap, p)
    {
      n := |p|;
      Accumulate(p);
      FedNoNewline(Split([], split.lines), buf);
      assert [] + buf == split.buf;
      FedAppend(Split([], split.lines), buf, p);
      buf := buf + p;
      split := Split([], split.lines);
      Dispatch();
    }

    method Flush()
      requires Valid()
      modifies this
      ensures Valid()
      ensures View() == old(View()).(split := Flushed(old(split)))
    {
      if |buf| > 0 {
        var line := TrimRight(buf);
        buf := [];
        if line != [] && listening {
          told := told + [line];
        }
      }
      split := Flushed(split);
    }
  }
  /** The in-place streamer, driven through any run, holds what the run over values does,
      and onLine was given its lines. */
  method ReplayInPlace(cap: int, onLine: bool, ops: seq<Op>) returns (s: Streamer)
    ensures fresh(s) && s.Valid() && s.View() == Run(cap, ops)
    ensures s.told == if onLine then Run(cap, ops).split.lines else []
  {
    s := new Streamer(cap, onLine);
    for i := 0 to |ops|
      invariant fresh(s) && s.Valid() && s.View() == Run(cap, ops[..i])
    {
      assert ops[..i + 1][..i] == ops[..i];
      if ops[i].Write? {
        var _ := s.Write(ops[i].p);
      } else {
        s.Flush();
      }
    }
    assert ops[..|ops|] == ops;
  }
}

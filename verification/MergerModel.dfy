/** What `StreamMerger`'s operations do to its two inputs, as functions on values (src/api/log_filter.rs). */
module MergerModel {
  import opened Wrappers
  import opened Seqs
  import opened LogLines
  import opened StableSort

  /** How long a followed line waits for the other stream: 200 ms, in nanoseconds. */
  const MERGE_WINDOW := 200_000_000

  /** A monotonic clock reading, in nanoseconds. */
  type Nanos = int

  datatype OutputStream = Stdout | Stderr

  datatype PendingLine = PendingLine(time: Option<Time>, received: Nanos, line: bytes)

  datatype InputState = InputState(partial: bytes, lastTime: Option<Time>, lines: seq<PendingLine>)

  datatype MergerState = MergerState(stdout: InputState, stderr: InputState) {
    function Input(kind: OutputStream): InputState {
      if kind.Stdout? then stdout else stderr
    }

    function With(kind: OutputStream, input: InputState): MergerState {
      if kind.Stdout? then this.(stdout := input) else this.(stderr := input)
    }

    function Waiting(): nat {
      |stdout.lines| + |stderr.lines|
    }
  }

  const EMPTY_INPUT := InputState([], None, [])
  const EMPTY_MERGER := MergerState(EMPTY_INPUT, EMPTY_INPUT)

  /** A line taken out of the merger: where it came from and what is written for it. */
  datatype Released = Released(kind: OutputStream, entry: PendingLine, text: bytes)

  function PushLine(c: Clock, input: InputState, line: bytes, received: Nanos): InputState {
    var time := Carry(c, line, input.lastTime);
    input.(lastTime := time, lines := input.lines + [PendingLine(time, received, line)])
  }

  function PushLines(c: Clock, input: InputState, lines: seq<bytes>, received: Nanos): InputState
    decreases |lines|
  {
    if lines == [] then input
    else PushLines(c, PushLine(c, input, lines[0], received), lines[1..], received)
  }

  function PushInput(c: Clock, input: InputState, data: bytes, received: Nanos): InputState {
    var text := input.partial + data;
    PushLines(c, input.(partial := Rest(text)), Complete(text), received)
  }

  function FinishInput(c: Clock, input: InputState, received: Nanos): InputState {
    if input.partial == [] then input
    else PushLine(c, input.(partial := []), input.partial, received)
  }

  function Push(c: Clock, m: MergerState, kind: OutputStream, data: bytes, received: Nanos): MergerState {
    m.With(kind, PushInput(c, m.Input(kind), data, received))
  }

  function Finish(c: Clock, m: MergerState, received: Nanos): MergerState {
    MergerState(FinishInput(c, m.stdout, received), FinishInput(c, m.stderr, received))
  }

  /** The stream whose front line may be written now. */
  function Next(m: MergerState, now: Nanos, ended: bool): Option<OutputStream> {
    var (a, b) := (m.stdout.lines, m.stderr.lines);
    if a != [] && b != [] then Some(if Le(a[0].time, b[0].time) then Stdout else Stderr)
    else if a != [] && (ended || now >= a[0].received + MERGE_WINDOW) then Some(Stdout)
    else if b != [] && (ended || now >= b[0].received + MERGE_WINDOW) then Some(Stderr)
    else None
  }

  function Pop(m: MergerState, kind: OutputStream): MergerState
    requires m.Input(kind).lines != []
  {
    m.With(kind, m.Input(kind).(lines := m.Input(kind).lines[1..]))
  }

  /** The front line of `kind`, with the newline it lacks if another line waits behind it. */
  function Release(m: MergerState, kind: OutputStream): Released
    requires m.Input(kind).lines != []
  {
    var entry := m.Input(kind).lines[0];
    Released(kind, entry, if Pop(m, kind).Waiting() > 0 then Terminate(entry.line) else entry.line)
  }

  function Ready(m: MergerState, now: Nanos, ended: bool): (r: (seq<Released>, MergerState))
    decreases m.Waiting()
  {
    match Next(m, now, ended)
    case None => ([], m)
    case Some(kind) =>
      var (released, rest) := Ready(Pop(m, kind), now, ended);
      ([Release(m, kind)] + released, rest)
  }

  /** The earliest moment at which a waiting front line has to be written. */
  function Deadline(m: MergerState): Option<Nanos> {
    var (a, b) := (m.stdout.lines, m.stderr.lines);
    if a != [] && b != [] then
      Some((if a[0].received <= b[0].received then a[0].received else b[0].received) + MERGE_WINDOW)
    else if a != [] then Some(a[0].received + MERGE_WINDOW)
    else if b != [] then Some(b[0].received + MERGE_WINDOW)
    else None
  }

  // Whole runs.

  datatype Call =
    | PushCall(kind: OutputStream, data: bytes, at: Nanos)
    | FinishCall(at: Nanos)
    | ReadyCall(at: Nanos, ended: bool)

  function Step(c: Clock, m: MergerState, call: Call): (seq<Released>, MergerState) {
    match call
    case PushCall(kind, data, at) => ([], Push(c, m, kind, data, at))
    case FinishCall(at) => ([], Finish(c, m, at))
    case ReadyCall(at, ended) => Ready(m, at, ended)
  }

  function Run(c: Clock, m: MergerState, calls: seq<Call>): (seq<Released>, MergerState)
    decreases |calls|
  {
    if calls == [] then ([], m)
    else
      var (released, next) := Step(c, m, calls[0]);
      var (more, last) := Run(c, next, calls[1..]);
      (released + more, last)
  }

  lemma {:induction false} RunAppend(c: Clock, m: MergerState, a: seq<Call>, b: seq<Call>)
    ensures Run(c, m, a + b).0 == Run(c, m, a).0 + Run(c, Run(c, m, a).1, b).0
    decreases |a|
  {
    if a == [] {
      assert a + b == b;
    } else {
      assert (a + b)[1..] == a[1..] + b;
      var (released, next) := Step(c, m, a[0]);
      RunAppend(c, next, a[1..], b);
      Assoc(released, Run(c, next, a[1..]).0, Run(c, Run(c, next, a[1..]).1, b).0);
    }
  }

  /** The lines of one stream among those released. */
  function From(kind: OutputStream, released: seq<Released>): seq<PendingLine> {
    if released == [] then []
    else (if released[0].kind == kind then [released[0].entry] else []) + From(kind, released[1..])
  }

  lemma {:induction false} FromAppend(kind: OutputStream, a: seq<Released>, b: seq<Released>)
    ensures From(kind, a + b) == From(kind, a) + From(kind, b)
  {
    if a == [] {
      assert a + b == b;
    } else {
      assert (a + b)[1..] == a[1..] + b;
      FromAppend(kind, a[1..], b);
    }
  }

  function LineTexts(lines: seq<PendingLine>): (r: seq<bytes>)
    ensures |r| == |lines|
  {
    Map((p: PendingLine) => p.line, lines)
  }

  function Tags(lines: seq<PendingLine>): (r: seq<Tagged>)
    ensures |r| == |lines|
  {
    Map((p: PendingLine) => Tagged(p.time, p.line), lines)
  }

  lemma {:induction false} PushLinesAdds(c: Clock, input: InputState, lines: seq<bytes>, received: Nanos)
    ensures var r := PushLines(c, input, lines, received);
      && r.partial == input.partial
      && r.lastTime == LastTime(c, lines, input.lastTime)
      && Tags(r.lines) == Tags(input.lines) + Tag(c, lines, input.lastTime)
      && LineTexts(r.lines) == LineTexts(input.lines) + lines
      && |r.lines| == |input.lines| + |lines|
      && r.lines[..|input.lines|] == input.lines
      && forall i :: |input.lines| <= i < |r.lines| ==> r.lines[i].received == received
    decreases |lines|
  {
    if lines != [] {
      var next := PushLine(c, input, lines[0], received);
      PushLinesAdds(c, next, lines[1..], received);
      MapAppend((p: PendingLine) => Tagged(p.time, p.line), input.lines, [next.lines[|input.lines|]]);
      MapAppend((p: PendingLine) => p.line, input.lines, [next.lines[|input.lines|]]);
      Assoc(Tags(input.lines), [Tagged(next.lastTime, lines[0])], Tag(c, lines[1..], next.lastTime));
      Assoc(LineTexts(input.lines), [lines[0]], lines[1..]);
      assert [lines[0]] + lines[1..] == lines;
      var r := PushLines(c, input, lines, received);
      assert r.lines[..|input.lines|] == r.lines[..|next.lines|][..|input.lines|] == input.lines;
    }
  }
}

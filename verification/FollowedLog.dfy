/** `apply_stream`: filtering and merging a log while it is being written (src/api/log_filter.rs). */
module FollowedLog {
  import opened Wrappers
  import opened Seqs
  import opened LogLines
  import opened StableSort
  import opened MergerModel
  import opened MergerRuns
  import opened LiveMerge
  import LogFilter
  import StreamMerger

  /** One turn of the loop: what arrived (`at`), and the time at which ready lines are then taken. */
  datatype Event =
    | Chunk(kind: OutputStream, data: bytes, at: Nanos, readyAt: Nanos)
    | Timeout(readyAt: Nanos)
    | End(at: Nanos, readyAt: Nanos)

  function CallsOf(e: Event): seq<Call> {
    match e
    case Chunk(kind, data, at, readyAt) => [PushCall(kind, data, at), ReadyCall(readyAt, false)]
    case Timeout(readyAt) => [ReadyCall(readyAt, false)]
    case End(at, readyAt) => [FinishCall(at), ReadyCall(readyAt, true)]
  }

  function Calls(events: seq<Event>): seq<Call> {
    if events == [] then [] else CallsOf(events[0]) + Calls(events[1..])
  }

  /** What one turn writes, before `limitBytes`. */
  function Emit(f: LogFilter.LogFilter, c: Clock, m: MergerState, e: Event): bytes {
    if f.inputHasTimestamps then Concat(f.Lines(c, Texts(Written(Run(c, m, CallsOf(e)).0))))
    else if e.Chunk? then e.data
    else []
  }

  function After(f: LogFilter.LogFilter, c: Clock, m: MergerState, e: Event): MergerState {
    if f.inputHasTimestamps then Run(c, m, CallsOf(e)).1 else m
  }

  /** What is written until the end of the stream, before `limitBytes`. */
  function Emitted(f: LogFilter.LogFilter, c: Clock, m: MergerState, events: seq<Event>): bytes
    decreases |events|
  {
    if events == [] then []
    else if events[0].End? then Emit(f, c, m, events[0])
    else Emit(f, c, m, events[0]) + Emitted(f, c, After(f, c, m, events[0]), events[1..])
  }

  lemma RunEvent(c: Clock, m: MergerState, e: Event)
    ensures var m' := if e.Chunk? then MergerModel.Push(c, m, e.kind, e.data, e.at)
                      else if e.End? then MergerModel.Finish(c, m, e.at) else m;
      Run(c, m, CallsOf(e)) == MergerModel.Ready(m', e.readyAt, e.End?)
  {
    match e
    case Chunk(kind, data, at, readyAt) =>
      RunOne(c, Push(c, m, kind, data, at), ReadyCall(readyAt, false));
      RunTwo(c, m, PushCall(kind, data, at), ReadyCall(readyAt, false));
    case Timeout(readyAt) =>
      RunOne(c, m, ReadyCall(readyAt, false));
    case End(at, readyAt) =>
      RunOne(c, Finish(c, m, at), ReadyCall(readyAt, true));
      RunTwo(c, m, FinishCall(at), ReadyCall(readyAt, true));
  }

  lemma RunOne(c: Clock, m: MergerState, call: Call)
    ensures Run(c, m, [call]) == Step(c, m, call)
  {
    var (released, next) := Step(c, m, call);
    assert [call][1..] == [];
    assert released + [] == released;
  }

  lemma RunTwo(c: Clock, m: MergerState, first: Call, second: Call)
    requires !first.ReadyCall?
    ensures Run(c, m, [first, second]) == Run(c, Step(c, m, first).1, [second])
  {
    assert [first, second][1..] == [second];
    var released := Run(c, Step(c, m, first).1, [second]).0;
    assert [] + released == released;
  }

  /** One turn's bytes from the merger, whose state it advances. */
  method Turn(f: LogFilter.LogFilter, c: Clock, merger: StreamMerger.StreamMerger, e: Event) returns (out: bytes)
    requires merger.Valid()
    modifies merger.stdout, merger.stderr
    ensures out == Emit(f, c, old(merger.View()), e)
    ensures merger.View() == After(f, c, old(merger.View()), e)
  {
    out := [];
    if f.inputHasTimestamps {
      RunEvent(c, merger.View(), e);
      match e {
        case Chunk(kind, data, at, _) => merger.Push(c, kind, data, at);
        case Timeout(_) =>
        case End(at, _) => merger.Finish(c, at);
      }
      var lines := merger.Ready(e.readyAt, e.End?);
      out := f.FilterLines(c, lines);
    } else if e.Chunk? {
      out := e.data;
    }
  }

  /** Cutting off at the limit once the rest of it is used up cuts the whole output off there. */
  lemma TruncateAfter(sent: bytes, next: bytes, rest: bytes, left: Option<nat>, limit: Option<nat>)
    requires left.Some? <==> limit.Some?
    requires left.Some? ==> left.value + |sent| == limit.value
    ensures left.Some? && |next| >= left.value ==>
      Truncate(sent + (next + rest), limit) == sent + next[..left.value]
    ensures rest == [] && (left.None? || |next| < left.value) ==> Truncate(sent + (next + rest), limit) == sent + next
  {
  }

  lemma EmittedStep(f: LogFilter.LogFilter, c: Clock, m: MergerState, events: seq<Event>, i: nat)
    requires i < |events|
    ensures Emitted(f, c, m, events[i..]) ==
      Emit(f, c, m, events[i]) + if events[i].End? then [] else Emitted(f, c, After(f, c, m, events[i]), events[i + 1..])
  {
    assert events[i..][1..] == events[i + 1..];
  }

  ghost predicate NoneEmpty(chunks: seq<bytes>) {
    forall i :: 0 <= i < |chunks| ==> chunks[i] != []
  }

  /** Sends what still fits. */
  method Send(out: bytes, remaining: Option<nat>, chunks: seq<bytes>) returns (sent: seq<bytes>, left: Option<nat>, full: bool)
    requires NoneEmpty(chunks)
    ensures full <==> remaining.Some? && remaining.value <= |out|
    ensures Concat(sent) == Concat(chunks) + if full then out[..remaining.value] else out
    ensures NoneEmpty(sent)
    ensures left.Some? <==> remaining.Some?
    ensures left.Some? && !full ==> left.value + |out| == remaining.value
  {
    var part := out;
    left := remaining;
    full := false;
    if remaining.Some? {
      if |out| >= remaining.value {
        part := out[..remaining.value];
        full := true;
      }
      left := Some(remaining.value - |part|);
    }
    sent := chunks;
    if part != [] {
      ConcatPush(chunks, part);
      sent := chunks + [part];
    }
  }

  /** The chunks sent to the client, none of them empty, up to the end of the stream or `limitBytes`. */
  method ApplyStream(f: LogFilter.LogFilter, c: Clock, events: seq<Event>) returns (chunks: seq<bytes>)
    ensures Concat(chunks) == Truncate(Emitted(f, c, EMPTY_MERGER, events), f.limitBytes)
    ensures forall i :: 0 <= i < |chunks| ==> chunks[i] != []
  {
    var merger := new StreamMerger.StreamMerger();
    var remaining: Option<nat> := f.limitBytes;
    ghost var total := Emitted(f, c, EMPTY_MERGER, events);
    chunks := [];
    for i := 0 to |events|
      invariant merger.Valid() && fresh(merger.stdout) && fresh(merger.stderr)
      invariant NoneEmpty(chunks)
      invariant total == Concat(chunks) + Emitted(f, c, merger.View(), events[i..])
      invariant remaining.Some? <==> f.limitBytes.Some?
      invariant remaining.Some? ==> remaining.value + |Concat(chunks)| == f.limitBytes.value
    {
      EmittedStep(f, c, merger.View(), events, i);
      var out := Turn(f, c, merger, events[i]);
      ghost var rest := if events[i].End? then [] else Emitted(f, c, merger.View(), events[i + 1..]);
      TruncateAfter(Concat(chunks), out, rest, remaining, f.limitBytes);
      Assoc(Concat(chunks), out, rest);
      var full: bool;
      chunks, remaining, full := Send(out, remaining, chunks);
      if full || events[i].End? {
        return;
      }
    }
    assert events[|events|..] == [];
    TruncateAfter(Concat(chunks), [], [], remaining, f.limitBytes);
  }

  // The followed log and the one-shot log.

  lemma {:induction false} EmittedIsRun(f: LogFilter.LogFilter, c: Clock, m: MergerState, events: seq<Event>)
    requires f.inputHasTimestamps
    requires forall i :: 0 <= i < |events| - 1 ==> !events[i].End?
    ensures Emitted(f, c, m, events) == Concat(f.Lines(c, Texts(Written(Run(c, m, Calls(events)).0))))
    decreases |events|
  {
    if events != [] {
      var calls, rest := CallsOf(events[0]), Calls(events[1..]);
      var (released, next) := Run(c, m, calls);
      var more := Run(c, next, rest).0;
      RunAppend(c, m, calls, rest);
      EmittedIsRun(f, c, next, events[1..]);
      assert Texts(Written(released + more)) == Texts(Written(released)) + Texts(Written(more));
      MapAppend((line: bytes) => f.Line(c, line), Texts(Written(released)), Texts(Written(more)));
      ConcatAppend(f.Lines(c, Texts(Written(released))), f.Lines(c, Texts(Written(more))));
      if events[0].End? {
        assert |events| == 1 && more == [];
        assert released + [] == released;
      }
    }
  }

  lemma {:induction false} CallsAppend(a: seq<Event>, b: seq<Event>)
    ensures Calls(a + b) == Calls(a) + Calls(b)
  {
    if a == [] {
      assert a + b == b;
    } else {
      assert (a + b)[1..] == a[1..] + b;
      CallsAppend(a[1..], b);
      Assoc(CallsOf(a[0]), Calls(a[1..]), Calls(b));
    }
  }

  /**
   * Following a log and fetching it afterwards give the same bytes, for every chunking and interleaving,
   * filter and byte limit, if each stream's carried times never decrease and no line is released by
   * window expiry: `body` is what happened before the streams ended.
   */
  lemma FollowIsFetch(f: LogFilter.LogFilter, c: Clock, body: seq<Event>, end: Event)
    requires f.inputHasTimestamps && end.End? && forall i :: 0 <= i < |body| ==> !body[i].End?
    requires Punctual(c, EMPTY_MERGER, Calls(body))
    requires Sorted(StreamLines(c, Pushed(Stdout, Calls(body)))) && Sorted(StreamLines(c, Pushed(Stderr, Calls(body))))
    ensures Truncate(Emitted(f, c, EMPTY_MERGER, body + [end]), f.limitBytes) ==
      f.Applied(c, LogFilter.MergedLog(c, [Pushed(Stdout, Calls(body)), Pushed(Stderr, Calls(body))]), None)
  {
    var streams := [Pushed(Stdout, Calls(body)), Pushed(Stderr, Calls(body))];
    EmittedIsRun(f, c, EMPTY_MERGER, body + [end]);
    CallsAppend(body, [end]);
    assert Calls([end]) == CallsOf(end) + Calls([]) == CallsOf(end);
    LiveIsOneShot(c, Calls(body), end.at, end.readyAt);
    LogFilter.MergeIdempotent(c, streams);
    LogFilter.MergedLogReadsBack(c, streams);
  }

  /** Without timestamps, the chunks of both streams go through as they arrive. */
  lemma {:induction false} UntimestampedPassesThrough(f: LogFilter.LogFilter, c: Clock, m: MergerState, body: seq<Event>, end: Event)
    requires !f.inputHasTimestamps && end.End? && forall i :: 0 <= i < |body| ==> !body[i].End?
    ensures Emitted(f, c, m, body + [end]) == Concat(Map((e: Event) => if e.Chunk? then e.data else [], body))
    decreases |body|
  {
    var all := body + [end];
    if body != [] {
      assert all[1..] == body[1..] + [end];
      UntimestampedPassesThrough(f, c, m, body[1..], end);
      var data := Map((e: Event) => if e.Chunk? then e.data else [], body);
      assert data[1..] == Map((e: Event) => if e.Chunk? then e.data else [], body[1..]);
    }
  }
}

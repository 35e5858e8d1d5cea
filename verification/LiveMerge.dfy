/** A followed log that loses no race against the merge window is the one-shot merge of its streams. */
module LiveMerge {
  import opened Wrappers
  import opened Seqs
  import opened Ascii
  import opened LogLines
  import opened StableSort
  import opened MergerModel
  import opened MergerRuns
  import LogFilter

  /** Whether `ready(now, false)` releases a line only because it has waited the window. */
  predicate ReleasesByExpiry(m: MergerState, now: Nanos)
    decreases m.Waiting()
  {
    if m.stdout.lines != [] && m.stderr.lines != [] then
      ReleasesByExpiry(Pop(m, Next(m, now, false).value), now)
    else Waited(m.stdout.lines, now) || Waited(m.stderr.lines, now)
  }

  /** Chunks and `ready` calls before the end, none of them releasing a line by expiry. */
  predicate Punctual(c: Clock, m: MergerState, calls: seq<Call>)
    decreases |calls|
  {
    calls == [] || (
      && (match calls[0]
          case PushCall(_, _, _) => true
          case FinishCall(_) => false
          case ReadyCall(at, ended) => !ended && !ReleasesByExpiry(m, at))
      && Punctual(c, Step(c, m, calls[0]).1, calls[1..]))
  }

  /** What is written for each released line, with its carried time. */
  function Written(released: seq<Released>): (r: seq<Tagged>)
    ensures |r| == |released|
  {
    Map((r: Released) => Tagged(r.entry.time, r.text), released)
  }

  /** Every line of one stream: those queued and those still to come. */
  function AllLinesOf(c: Clock, input: InputState, more: bytes): seq<Tagged> {
    Tags(input.lines) + Tag(c, SplitInclusive(input.partial + more), input.lastTime)
  }

  ghost predicate FullLines(lines: seq<PendingLine>) {
    forall i :: 0 <= i < |lines| ==> IsFullLine(lines[i].line)
  }

  /** Before the end, only complete lines wait. */
  ghost predicate Live(m: MergerState) {
    && FullLines(m.stdout.lines) && FullLines(m.stderr.lines)
    && Without(m.stdout.partial, NL) && Without(m.stderr.partial, NL)
  }

  lemma PickFirst(h: Tagged, a: seq<Tagged>, b: seq<Tagged>)
    requires b == [] || Le(h.time, b[0].time)
    ensures Merge([h] + a, b) == [h] + Merge(a, b)
  {
    assert ([h] + a)[1..] == a;
    assert b == [] && a == [] ==> Merge(a, b) == [];
  }

  lemma PickSecond(a: seq<Tagged>, h: Tagged, b: seq<Tagged>)
    requires a == [] || !Le(a[0].time, h.time)
    ensures Merge(a, [h] + b) == [h] + Merge(a, b)
  {
    assert ([h] + b)[1..] == b;
  }

  lemma PopTags(m: MergerState, kind: OutputStream)
    requires m.Input(kind).lines != []
    ensures var entry := m.Input(kind).lines[0];
      Tags(m.Input(kind).lines) == [Tagged(entry.time, entry.line)] + Tags(Pop(m, kind).Input(kind).lines)
  {
  }

  /** The line `ready` takes next is the next one of the merge, whatever follows the queues. */
  lemma NextMerges(m: MergerState, now: Nanos, ended: bool, x: seq<Tagged>, y: seq<Tagged>)
    requires Next(m, now, ended).Some?
    requires (m.stdout.lines == [] ==> x == []) && (m.stderr.lines == [] ==> y == [])
    ensures var kind := Next(m, now, ended).value;
      var entry := m.Input(kind).lines[0];
      var pop := Pop(m, kind);
      Merge(Tags(m.stdout.lines) + x, Tags(m.stderr.lines) + y)
        == [Tagged(entry.time, entry.line)] + Merge(Tags(pop.stdout.lines) + x, Tags(pop.stderr.lines) + y)
  {
    var kind := Next(m, now, ended).value;
    var entry := m.Input(kind).lines[0];
    var h, pop := Tagged(entry.time, entry.line), Pop(m, kind);
    PopTags(m, kind);
    match kind
    case Stdout =>
      Assoc([h], Tags(pop.stdout.lines), x);
      PickFirst(h, Tags(pop.stdout.lines) + x, Tags(m.stderr.lines) + y);
    case Stderr =>
      Assoc([h], Tags(pop.stderr.lines), y);
      PickSecond(Tags(m.stdout.lines) + x, h, Tags(pop.stderr.lines) + y);
  }

  lemma WrittenFirst(release: Released, released: seq<Released>)
    ensures Written([release] + released) == [Tagged(release.entry.time, release.text)] + Written(released)
  {
  }

  /** Without expiries, `ready` does the first steps of the merge of everything to come. */
  lemma {:induction false} ReadyMerges(m: MergerState, now: Nanos, x: seq<Tagged>, y: seq<Tagged>)
    requires Live(m) && !ReleasesByExpiry(m, now)
    ensures var (released, last) := Ready(m, now, false);
      && Merge(Tags(m.stdout.lines) + x, Tags(m.stderr.lines) + y)
         == Written(released) + Merge(Tags(last.stdout.lines) + x, Tags(last.stderr.lines) + y)
      && (forall i :: 0 <= i < |released| ==> IsTerminated(Written(released)[i].text))
      && Live(last)
    decreases m.Waiting()
  {
    var next := Next(m, now, false);
    if next.None? {
      var merged := Merge(Tags(m.stdout.lines) + x, Tags(m.stderr.lines) + y);
      assert Written([]) + merged == merged;
    } else {
      var pop := Pop(m, next.value);
      ReadyMerges(pop, now, x, y);
      NextMerges(m, now, false, x, y);
      var (released, last) := Ready(pop, now, false);
      var release := Release(m, next.value);
      WrittenFirst(release, released);
      Assoc([Tagged(release.entry.time, release.text)], Written(released),
            Merge(Tags(last.stdout.lines) + x, Tags(last.stderr.lines) + y));
    }
  }

  /** Once the streams have ended, `ready` writes the merge of what waits. */
  lemma {:induction false} ReadyMergesAll(m: MergerState, now: Nanos)
    ensures Written(Ready(m, now, true).0) == Close(Merge(Tags(m.stdout.lines), Tags(m.stderr.lines)))
    decreases m.Waiting()
  {
    var next := Next(m, now, true);
    if next.Some? {
      var pop, release := Pop(m, next.value), Release(m, next.value);
      ReadyMergesAll(pop, now);
      NextMerges(m, now, true, [], []);
      WrittenFirst(release, Ready(pop, now, true).0);
      assert Tags(m.stdout.lines) + [] == Tags(m.stdout.lines) && Tags(m.stderr.lines) + [] == Tags(m.stderr.lines);
      assert Tags(pop.stdout.lines) + [] == Tags(pop.stdout.lines) && Tags(pop.stderr.lines) + [] == Tags(pop.stderr.lines);
      var rest := Merge(Tags(pop.stdout.lines), Tags(pop.stderr.lines));
      MergeLength(Tags(pop.stdout.lines), Tags(pop.stderr.lines));
      CloseFirst(Tagged(release.entry.time, release.entry.line), rest);
    }
  }

  lemma CloseFirst(h: Tagged, rest: seq<Tagged>)
    ensures Close([h] + rest) == [if rest == [] then h else Tagged(h.time, Terminate(h.text))] + Close(rest)
  {
    assert ([h] + rest)[1..] == rest;
  }

  lemma {:induction false} MergeLength(a: seq<Tagged>, b: seq<Tagged>)
    ensures |Merge(a, b)| == |a| + |b|
    decreases |a| + |b|
  {
    if a != [] && b != [] {
      if Le(a[0].time, b[0].time) {
        MergeLength(a[1..], b);
      } else {
        MergeLength(a, b[1..]);
      }
    }
  }

  /** A chunk moves lines from those to come into the queue. */
  lemma PushAdvances(c: Clock, input: InputState, data: bytes, more: bytes, at: Nanos)
    requires FullLines(input.lines)
    ensures AllLinesOf(c, PushInput(c, input, data, at), more) == AllLinesOf(c, input, data + more)
    ensures FullLines(PushInput(c, input, data, at).lines)
    ensures Without(PushInput(c, input, data, at).partial, NL)
  {
    var text := input.partial + data;
    var lines := Complete(text);
    var next := PushInput(c, input, data, at);
    PushLinesAdds(c, input.(partial := Rest(text)), lines, at);
    SplitParts(text);
    SplitLines(text);
    assert Tags(next.lines) == Tags(input.lines) + Tag(c, lines, input.lastTime);
    Assoc(input.partial, data, more);
    SplitContinues(text, more);
    TagAppend(c, lines, SplitInclusive(Rest(text) + more), input.lastTime);
    Assoc(Tags(input.lines), Tag(c, lines, input.lastTime), Tag(c, SplitInclusive(Rest(text) + more), next.lastTime));
    forall i | 0 <= i < |next.lines| ensures IsFullLine(next.lines[i].line) {
      if i < |input.lines| {
        assert next.lines[..|input.lines|][i] == next.lines[i];
      } else {
        assert next.lines[i].line == LineTexts(next.lines)[i] == lines[i - |input.lines|];
      }
    }
  }

  lemma SplitContinues(s: bytes, more: bytes)
    ensures SplitInclusive(s + more) == Complete(s) + SplitInclusive(Rest(s) + more)
  {
    SplitParts(s + more);
    CompleteAppend(s, more);
    SplitParts(Rest(s) + more);
    Assoc(Complete(s), Complete(Rest(s) + more), Tail(s + more));
  }

  lemma FinishAdvances(c: Clock, input: InputState, at: Nanos)
    requires Without(input.partial, NL)
    ensures Tags(FinishInput(c, input, at).lines) == AllLinesOf(c, input, [])
  {
    assert input.partial + [] == input.partial;
    IndexOfSpec(input.partial, NL);
    if input.partial != [] {
      var next := FinishInput(c, input, at);
      MapAppend((p: PendingLine) => Tagged(p.time, p.line), input.lines, [next.lines[|input.lines|]]);
      assert Tag(c, [input.partial], input.lastTime) == [Tagged(next.lastTime, input.partial)];
    }
  }

  /** The followed log is the merge of both whole streams, head by head. */
  lemma {:induction false} LiveIsMerge(c: Clock, m: MergerState, calls: seq<Call>, finish: Nanos, last: Nanos)
    requires Live(m) && Punctual(c, m, calls)
    ensures Written(Run(c, m, calls + [FinishCall(finish), ReadyCall(last, true)]).0) ==
      Close(Merge(AllLinesOf(c, m.stdout, Pushed(Stdout, calls)), AllLinesOf(c, m.stderr, Pushed(Stderr, calls))))
    decreases |calls|
  {
    var end := [FinishCall(finish), ReadyCall(last, true)];
    var all := calls + end;
    if calls == [] {
      FinishAdvances(c, m.stdout, finish);
      FinishAdvances(c, m.stderr, finish);
      ReadyMergesAll(Finish(c, m, finish), last);
      RunEnd(c, m, finish, last);
      assert all == end;
    } else {
      assert all[0] == calls[0] && all[1..] == calls[1..] + end;
      var out, err := Pushed(Stdout, calls[1..]), Pushed(Stderr, calls[1..]);
      var (released, next) := Step(c, m, calls[0]);
      var more := Run(c, next, all[1..]).0;
      MapAppend((r: Released) => Tagged(r.entry.time, r.text), released, more);
      match calls[0]
      case PushCall(kind, data, at) =>
        PushAdvances(c, m.Input(kind), data, if kind.Stdout? then out else err, at);
        assert [] + out == out && [] + err == err;
        LiveIsMerge(c, next, calls[1..], finish, last);
      case ReadyCall(at, ended) =>
        assert [] + out == out && [] + err == err;
        ReadyMoves(m, at, false, Stdout);
        ReadyMoves(m, at, false, Stderr);
        ReadyMerges(m, at, Tag(c, SplitInclusive(m.stdout.partial + out), m.stdout.lastTime),
                    Tag(c, SplitInclusive(m.stderr.partial + err), m.stderr.lastTime));
        LiveIsMerge(c, next, calls[1..], finish, last);
        CloseAppend(Written(released),
                    Merge(AllLinesOf(c, next.stdout, out), AllLinesOf(c, next.stderr, err)));
  }
  }

  lemma RunEnd(c: Clock, m: MergerState, finish: Nanos, last: Nanos)
    ensures Run(c, m, [FinishCall(finish), ReadyCall(last, true)]).0 == Ready(Finish(c, m, finish), last, true).0
  {
    var next := Finish(c, m, finish);
    var end := [FinishCall(finish), ReadyCall(last, true)];
    assert end[1..] == [ReadyCall(last, true)] && [ReadyCall(last, true)][1..] == [];
    var released := Ready(next, last, true).0;
    assert Run(c, next, end[1..]).0 == released + [];
  }

  /** The lines of a stream, with the times they carry. */
  function StreamLines(c: Clock, stream: bytes): seq<Tagged> {
    Tag(c, SplitInclusive(stream), None)
  }

  /** Closing changes no time, so no order. */
  lemma CloseSortedOnly(s: seq<Tagged>)
    requires Sorted(Close(s))
    ensures Sorted(s)
  {
    forall i, j | 0 <= i < j < |s| ensures Le(s[i].time, s[j].time) {
      CloseAt(s, i);
      CloseAt(s, j);
    }
  }

  /** The written lines are the merge of both streams' lines. */
  lemma LiveLines(c: Clock, calls: seq<Call>, finish: Nanos, last: Nanos)
    requires Punctual(c, EMPTY_MERGER, calls)
    ensures Written(Run(c, EMPTY_MERGER, calls + [FinishCall(finish), ReadyCall(last, true)]).0)
      == Close(Merge(StreamLines(c, Pushed(Stdout, calls)), StreamLines(c, Pushed(Stderr, calls))))
  {
    var out, err := Pushed(Stdout, calls), Pushed(Stderr, calls);
    LiveIsMerge(c, EMPTY_MERGER, calls, finish, last);
    assert [] + out == out && [] + err == err;
    var a, b := StreamLines(c, out), StreamLines(c, err);
    assert AllLinesOf(c, EMPTY_INPUT, out) == [] + a == a;
    assert AllLinesOf(c, EMPTY_INPUT, err) == [] + b == b;
  }

  /**
   * If no line is released by window expiry, then for every chunking and interleaving the lines written are
   * those of `merge_by_timestamp` if and only if neither stream's carried times ever decrease.
   */
  lemma LiveIsOneShot(c: Clock, calls: seq<Call>, finish: Nanos, last: Nanos)
    requires Punctual(c, EMPTY_MERGER, calls)
    ensures var live := Written(Run(c, EMPTY_MERGER, calls + [FinishCall(finish), ReadyCall(last, true)]).0);
      var oneShot := LogFilter.MergedLines(c, [Pushed(Stdout, calls), Pushed(Stderr, calls)]);
      live == oneShot <==>
      Sorted(StreamLines(c, Pushed(Stdout, calls))) && Sorted(StreamLines(c, Pushed(Stderr, calls)))
  {
    var out, err := Pushed(Stdout, calls), Pushed(Stderr, calls);
    var a, b := StreamLines(c, out), StreamLines(c, err);
    LiveLines(c, calls, finish, last);
    if Sorted(a) && Sorted(b) {
      SortOfSorted(a);
      SortOfSorted(b);
      MergeOfSorts(a, b);
      LogFilter.TagAllOne(c, err);
      assert [out, err][1..] == [err];
    } else {
      LogFilter.MergedLogReadsBack(c, [out, err]);
      if Sorted(Close(Merge(a, b))) {
        CloseSortedOnly(Merge(a, b));
        MergeSortedOnly(a, b);
        assert false;
      }
    }
  }
}

/** What `StreamMerger` keeps over every run of its operations. */
module MergerRuns {
  import opened Wrappers
  import opened Seqs
  import opened LogLines
  import opened MergerModel

  /** What `calls` feed one stream: the texts closed by a `finish`, and the text still open. */
  function Fed(kind: OutputStream, calls: seq<Call>, closed: seq<bytes>, open: bytes): (seq<bytes>, bytes) {
    if calls == [] then (closed, open)
    else
      match calls[0]
      case PushCall(k, data, _) => Fed(kind, calls[1..], closed, if k == kind then open + data else open)
      case FinishCall(_) => Fed(kind, calls[1..], closed + SplitInclusive(open), [])
      case ReadyCall(_, _) => Fed(kind, calls[1..], closed, open)
  }

  lemma FromFirst(kind: OutputStream, first: Released, released: seq<Released>)
    ensures From(kind, [first] + released) == if first.kind == kind then [first.entry] + From(kind, released) else From(kind, released)
  {
    assert ([first] + released)[1..] == released;
    assert [] + From(kind, released) == From(kind, released);
  }

  lemma PopMoves(m: MergerState, k: OutputStream, kind: OutputStream)
    requires m.Input(k).lines != []
    ensures Release(m, k).kind == k
    ensures m.Input(kind).lines ==
      if k == kind then [Release(m, k).entry] + Pop(m, k).Input(kind).lines else Pop(m, k).Input(kind).lines
    ensures Pop(m, k).Input(kind).partial == m.Input(kind).partial
    ensures Pop(m, k).Input(kind).lastTime == m.Input(kind).lastTime
  {
  }

  lemma ReadyFirst(m: MergerState, now: Nanos, ended: bool, k: OutputStream)
    requires Next(m, now, ended) == Some(k)
    ensures m.Input(k).lines != []
    ensures Ready(m, now, ended).0 == [Release(m, k)] + Ready(Pop(m, k), now, ended).0
    ensures Ready(m, now, ended).1 == Ready(Pop(m, k), now, ended).1
  {
  }

  /** Taking ready lines moves the front of each queue out, in order, and touches nothing else. */
  lemma {:induction false} ReadyMoves(m: MergerState, now: Nanos, ended: bool, kind: OutputStream)
    ensures From(kind, Ready(m, now, ended).0) + Ready(m, now, ended).1.Input(kind).lines == m.Input(kind).lines
    ensures Ready(m, now, ended).1.Input(kind).partial == m.Input(kind).partial
    ensures Ready(m, now, ended).1.Input(kind).lastTime == m.Input(kind).lastTime
    decreases m.Waiting()
  {
    var next := Next(m, now, ended);
    if next.None? {
      assert [] + m.Input(kind).lines == m.Input(kind).lines;
    } else {
      var k := next.value;
      ReadyFirst(m, now, ended, k);
      PopMoves(m, k, kind);
      ReadyMoves(Pop(m, k), now, ended, kind);
      var (released, last) := Ready(Pop(m, k), now, ended);
      FromFirst(kind, Release(m, k), released);
      Assoc([Release(m, k).entry], From(kind, released), last.Input(kind).lines);
    }
  }

  /** `sent` and the queue together hold exactly the lines fed so far, and `partial` the open one. */
  ghost predicate Holds(input: InputState, sent: seq<PendingLine>, closed: seq<bytes>, open: bytes) {
    && LineTexts(sent) + LineTexts(input.lines) == closed + Complete(open)
    && input.partial == Rest(open)
  }

  lemma PushHolds(c: Clock, input: InputState, sent: seq<PendingLine>, closed: seq<bytes>, open: bytes,
                  data: bytes, at: Nanos)
    requires Holds(input, sent, closed, open)
    ensures Holds(PushInput(c, input, data, at), sent, closed, open + data)
  {
    var text := input.partial + data;
    var lines := Complete(text);
    PushLinesAdds(c, input.(partial := Rest(text)), lines, at);
    CompleteAppend(open, data);
    Assoc(LineTexts(sent), LineTexts(input.lines), lines);
    Assoc(closed, Complete(open), lines);
  }

  lemma FinishHolds(c: Clock, input: InputState, sent: seq<PendingLine>, closed: seq<bytes>, open: bytes, at: Nanos)
    requires Holds(input, sent, closed, open)
    ensures Holds(FinishInput(c, input, at), sent, closed + SplitInclusive(open), [])
  {
    SplitParts(open);
    Assoc(closed, Complete(open), Tail(open));
    var next := FinishInput(c, input, at);
    assert LineTexts(next.lines) == LineTexts(input.lines) + Tail(open);
    Assoc(LineTexts(sent), LineTexts(input.lines), Tail(open));
    assert closed + SplitInclusive(open) + Complete([]) == closed + SplitInclusive(open);
  }

  lemma ReadyHolds(m: MergerState, now: Nanos, ended: bool, kind: OutputStream, sent: seq<PendingLine>,
                   closed: seq<bytes>, open: bytes)
    requires Holds(m.Input(kind), sent, closed, open)
    ensures Holds(Ready(m, now, ended).1.Input(kind), sent + From(kind, Ready(m, now, ended).0), closed, open)
  {
    var (released, last) := Ready(m, now, ended);
    ReadyMoves(m, now, ended, kind);
    var f := (p: PendingLine) => p.line;
    MapAppend(f, sent, From(kind, released));
    MapAppend(f, From(kind, released), last.Input(kind).lines);
    Assoc(LineTexts(sent), LineTexts(From(kind, released)), LineTexts(last.Input(kind).lines));
  }

  lemma {:induction false} RunHolds(c: Clock, m: MergerState, calls: seq<Call>, kind: OutputStream,
                                    sent: seq<PendingLine>, closed: seq<bytes>, open: bytes)
    requires Holds(m.Input(kind), sent, closed, open)
    ensures var (released, last) := Run(c, m, calls);
      var (closed', open') := Fed(kind, calls, closed, open);
      Holds(last.Input(kind), sent + From(kind, released), closed', open')
    decreases |calls|
  {
    if calls == [] {
      assert sent + From(kind, []) == sent;
    } else {
      var (released, next) := Step(c, m, calls[0]);
      var more := Run(c, next, calls[1..]).0;
      FromAppend(kind, released, more);
      Assoc(sent, From(kind, released), From(kind, more));
      match calls[0]
      case PushCall(k, data, at) =>
        assert sent + From(kind, released) == sent;
        if k == kind {
          PushHolds(c, m.Input(kind), sent, closed, open, data, at);
          RunHolds(c, next, calls[1..], kind, sent, closed, open + data);
        } else {
          RunHolds(c, next, calls[1..], kind, sent, closed, open);
        }
      case FinishCall(at) =>
        assert sent + From(kind, released) == sent;
        FinishHolds(c, m.Input(kind), sent, closed, open, at);
        RunHolds(c, next, calls[1..], kind, sent, closed + SplitInclusive(open), []);
      case ReadyCall(at, ended) =>
        ReadyHolds(m, at, ended, kind, sent, closed, open);
        RunHolds(c, next, calls[1..], kind, sent + From(kind, released), closed, open);
    }
  }

  /**
   * Conservation over every run, window expiries and unordered timestamps included: each stream's
   * released lines and then its queued ones are exactly the lines of the bytes pushed, whatever the
   * chunks, and `partial` is the start of the next line.
   */
  lemma RunConserves(c: Clock, calls: seq<Call>, kind: OutputStream)
    ensures var (released, last) := Run(c, EMPTY_MERGER, calls);
      var (closed, open) := Fed(kind, calls, [], []);
      && LineTexts(From(kind, released) + last.Input(kind).lines) == closed + Complete(open)
      && last.Input(kind).partial == Rest(open)
  {
    var (released, last) := Run(c, EMPTY_MERGER, calls);
    var (closed, open) := Fed(kind, calls, [], []);
    EmptyHolds(kind);
    RunHolds(c, EMPTY_MERGER, calls, kind, [], [], []);
    assert [] + From(kind, released) == From(kind, released);
    HeldTexts(last.Input(kind), From(kind, released), closed, open);
  }

  lemma EmptyHolds(kind: OutputStream)
    ensures Holds(EMPTY_MERGER.Input(kind), [], [], [])
  {
    assert Complete([]) == [] && Rest([]) == [];
  }

  lemma HeldTexts(input: InputState, sent: seq<PendingLine>, closed: seq<bytes>, open: bytes)
    requires Holds(input, sent, closed, open)
    ensures LineTexts(sent + input.lines) == closed + Complete(open)
  {
    MapAppend((p: PendingLine) => p.line, sent, input.lines);
  }

  /** All the bytes pushed to one stream. */
  function Pushed(kind: OutputStream, calls: seq<Call>): bytes {
    if calls == [] then []
    else (if calls[0].PushCall? && calls[0].kind == kind then calls[0].data else []) + Pushed(kind, calls[1..])
  }

  lemma {:induction false} FedIsPushed(kind: OutputStream, calls: seq<Call>, closed: seq<bytes>, open: bytes)
    ensures var (closed', open') := Fed(kind, calls, closed, open);
      Concat(closed') + open' == Concat(closed) + open + Pushed(kind, calls)
    decreases |calls|
  {
    if calls == [] {
      assert open + [] == open;
    } else {
      var more := Pushed(kind, calls[1..]);
      match calls[0]
      case PushCall(k, data, _) =>
        FedIsPushed(kind, calls[1..], closed, if k == kind then open + data else open);
        Assoc(Concat(closed), open, data);
        Assoc(Concat(closed) + open, data, more);
        assert [] + more == more;
      case FinishCall(_) =>
        FedIsPushed(kind, calls[1..], closed + SplitInclusive(open), []);
        ConcatAppend(closed, SplitInclusive(open));
        SplitWhole(open);
        assert [] + more == more;
        assert Concat(closed) + open + [] == Concat(closed) + open;
      case ReadyCall(_, _) =>
        FedIsPushed(kind, calls[1..], closed, open);
        assert [] + more == more;
    }
  }

  lemma SplitWhole(s: bytes)
    ensures Concat(SplitInclusive(s)) == s
  {
    SplitParts(s);
    SplitText(s);
    ConcatAppend(Complete(s), Tail(s));
    ConcatCons(Rest(s), []);
    assert Rest(s) + [] == Rest(s);
  }

  /** The same, byte for byte: nothing pushed is lost, repeated or reordered within its stream. */
  lemma RunKeepsBytes(c: Clock, calls: seq<Call>, kind: OutputStream)
    ensures var (released, last) := Run(c, EMPTY_MERGER, calls);
      Concat(LineTexts(From(kind, released) + last.Input(kind).lines)) + last.Input(kind).partial
        == Pushed(kind, calls)
  {
    var (closed, open) := Fed(kind, calls, [], []);
    RunConserves(c, calls, kind);
    FedIsPushed(kind, calls, [], []);
    ConcatAppend(closed, Complete(open));
    SplitText(open);
    Assoc(Concat(closed), Concat(Complete(open)), Rest(open));
    assert [] + [] + Pushed(kind, calls) == Pushed(kind, calls);
  }

  /** The only change to a released line is a newline at its end, where it had none. */
  lemma {:induction false} ReadyTexts(m: MergerState, now: Nanos, ended: bool)
    ensures forall r <- Ready(m, now, ended).0 :: r.text == r.entry.line || r.text == Terminate(r.entry.line)
    decreases m.Waiting()
  {
    var next := Next(m, now, ended);
    if next.Some? {
      ReadyTexts(Pop(m, next.value), now, ended);
    }
  }

  // Waiting.

  predicate Waited(lines: seq<PendingLine>, now: Nanos) {
    lines != [] && now >= lines[0].received + MERGE_WINDOW
  }

  /** Once the streams have ended, `ready` empties both queues; before, it leaves lines of one at most, none due. */
  lemma {:induction false} ReadyLeaves(m: MergerState, now: Nanos, ended: bool)
    ensures var last := Ready(m, now, ended).1;
      && (last.stdout.lines == [] || last.stderr.lines == [])
      && (ended ==> last.Waiting() == 0)
      && !Waited(last.stdout.lines, now) && !Waited(last.stderr.lines, now)
    decreases m.Waiting()
  {
    var next := Next(m, now, ended);
    if next.Some? {
      ReadyLeaves(Pop(m, next.value), now, ended);
    }
  }

  /** The deadline is exact: `ready` releases something at `now` if and only if it has passed, a front line having waited 200 ms. */
  lemma DeadlineExact(m: MergerState, now: Nanos)
    requires m.stdout.lines == [] || m.stderr.lines == []
    ensures Ready(m, now, false).0 != [] <==> Deadline(m).Some? && now >= Deadline(m).value
    ensures Ready(m, now, false).0 != [] <==>
      || (m.stdout.lines != [] && now - m.stdout.lines[0].received >= 200_000_000)
      || (m.stderr.lines != [] && now - m.stderr.lines[0].received >= 200_000_000)
  {
  }

  /** Queued lines were received in order, none after `now`. */
  ghost predicate InOrder(lines: seq<PendingLine>, now: Nanos) {
    && (forall i, j :: 0 <= i < j < |lines| ==> lines[i].received <= lines[j].received)
    && (forall i :: 0 <= i < |lines| ==> lines[i].received <= now)
  }

  ghost predicate Ordered(m: MergerState, now: Nanos) {
    InOrder(m.stdout.lines, now) && InOrder(m.stderr.lines, now)
  }

  /** The clock does not run backwards over `calls`, which start at `now` or later. */
  ghost predicate Monotonic(calls: seq<Call>, now: Nanos) {
    calls == [] || (now <= calls[0].at && Monotonic(calls[1..], calls[0].at))
  }

  lemma {:induction false} ReadyOrdered(m: MergerState, now: Nanos, at: Nanos, ended: bool)
    requires Ordered(m, now)
    ensures Ordered(Ready(m, at, ended).1, now)
    decreases m.Waiting()
  {
    var next := Next(m, at, ended);
    if next.Some? {
      ReadyOrdered(Pop(m, next.value), now, at, ended);
    }
  }

  lemma PushOrdered(c: Clock, input: InputState, lines: seq<bytes>, at: Nanos)
    requires InOrder(input.lines, at)
    ensures InOrder(PushLines(c, input, lines, at).lines, at)
  {
    PushLinesAdds(c, input, lines, at);
    var r := PushLines(c, input, lines, at).lines;
    forall i | 0 <= i < |r| ensures i < |input.lines| ==> r[i] == input.lines[i] {
      if i < |input.lines| {
        assert r[..|input.lines|][i] == r[i];
      }
    }
  }

  lemma StepOrdered(c: Clock, m: MergerState, call: Call, start: Nanos)
    requires Ordered(m, start) && start <= call.at
    ensures Ordered(Step(c, m, call).1, call.at)
  {
    match call {
      case PushCall(kind, data, at) =>
        var input := m.Input(kind);
        PushOrdered(c, input.(partial := Rest(input.partial + data)), Complete(input.partial + data), at);
      case FinishCall(at) =>
        PushOrdered(c, m.stdout.(partial := []), [m.stdout.partial], at);
        PushOrdered(c, m.stderr.(partial := []), [m.stderr.partial], at);
      case ReadyCall(at, ended) =>
        ReadyOrdered(m, at, at, ended);
    }
  }

  /** After any run on a monotonic clock that ends with `ready(now, false)`, no queued line has waited the window. */
  lemma {:induction false} NoLineOverdue(c: Clock, m: MergerState, calls: seq<Call>, start: Nanos, now: Nanos)
    requires Ordered(m, start) && Monotonic(calls + [ReadyCall(now, false)], start)
    ensures var last := Run(c, m, calls + [ReadyCall(now, false)]).1;
      forall kind, i :: 0 <= i < |last.Input(kind).lines| ==> now < last.Input(kind).lines[i].received + 200_000_000
    decreases |calls|
  {
    var all := calls + [ReadyCall(now, false)];
    if calls == [] {
      ReadyLeaves(m, now, false);
      ReadyOrdered(m, start, now, false);
      assert all[1..] == [];
    } else {
      assert all[1..] == calls[1..] + [ReadyCall(now, false)] && all[0] == calls[0];
      var next := Step(c, m, calls[0]).1;
      StepOrdered(c, m, calls[0], start);
      NoLineOverdue(c, next, calls[1..], calls[0].at, now);
      assert Run(c, m, all).1 == Run(c, next, all[1..]).1;
    }
  }
}

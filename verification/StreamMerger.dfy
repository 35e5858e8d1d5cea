/** The merger of a followed log, updated in place (src/api/log_filter.rs). */
module StreamMerger {
  import opened Wrappers
  import opened Seqs
  import opened Ascii
  import opened LogLines
  import opened StableSort
  import opened MergerModel
  import opened LiveMerge

  /** One stream's state. */
  class MergerInput {
    var partial: bytes
    var lastTime: Option<Time>
    var lines: seq<PendingLine>

    constructor ()
      ensures View() == EMPTY_INPUT
    {
      partial, lastTime, lines := [], None, [];
    }

    ghost function View(): InputState
      reads this
    {
      InputState(partial, lastTime, lines)
    }

    method PushLine(c: Clock, line: bytes, received: Nanos)
      modifies this
      ensures View() == MergerModel.PushLine(c, old(View()), line, received)
    {
      var stamp := SplitTimestamp(c, line);
      if stamp.Some? {
        lastTime := Some(stamp.value.0);
      }
      lines := lines + [PendingLine(lastTime, received, line)];
    }
  }

  class StreamMerger {
    const stdout: MergerInput
    const stderr: MergerInput

    constructor ()
      ensures Valid() && fresh(stdout) && fresh(stderr)
      ensures View() == EMPTY_MERGER
    {
      stdout := new MergerInput();
      stderr := new MergerInput();
    }

    ghost predicate Valid() {
      stdout != stderr
    }

    ghost function View(): MergerState
      reads stdout, stderr
    {
      MergerState(stdout.View(), stderr.View())
    }

    /** Queues the lines that the chunk completes. */
    method Push(c: Clock, kind: OutputStream, data: bytes, received: Nanos)
      requires Valid()
      modifies stdout, stderr
      ensures View() == MergerModel.Push(c, old(View()), kind, data, received)
    {
      var input := if kind.Stdout? then stdout else stderr;
      ghost var start := input.View();
      var text := input.partial + data;
      // The end of the last line whose newline has arrived.
      var complete := |text|;
      while complete > 0 && text[complete - 1] != NL
        invariant 0 <= complete <= |text|
        invariant Without(text[complete..], NL)
      {
        assert text[complete - 1..] == [text[complete - 1]] + text[complete..];
        complete := complete - 1;
      }
      CompletePrefix(text, complete);
      input.partial := text[complete..];
      var split := SplitInclusive(text[..complete]);
      for i := 0 to |split|
        invariant PushLines(c, input.View(), split[i..], received) == PushInput(c, start, data, received)
        invariant (if kind.Stdout? then stderr else stdout).View() == old((if kind.Stdout? then stderr else stdout).View())
      {
        input.PushLine(c, split[i], received);
        assert split[i..][1..] == split[i + 1..];
      }
      assert split[|split|..] == [];
    }

    /** Queues what is left of each stream as its last line. */
    method Finish(c: Clock, received: Nanos)
      requires Valid()
      modifies stdout, stderr
      ensures View() == MergerModel.Finish(c, old(View()), received)
    {
      FinishOne(c, stdout, received);
      FinishOne(c, stderr, received);
    }

    static method FinishOne(c: Clock, input: MergerInput, received: Nanos)
      modifies input
      ensures input.View() == FinishInput(c, old(input.View()), received)
    {
      if input.partial != [] {
        var line := input.partial;
        input.partial := [];
        input.PushLine(c, line, received);
      }
    }

    /** The end of the window of the line that came in first among the two front lines. */
    method Deadline() returns (deadline: Option<Nanos>)
      ensures deadline == MergerModel.Deadline(View())
    {
      deadline := None;
      if stdout.lines != [] {
        deadline := Some(stdout.lines[0].received + MERGE_WINDOW);
      }
      if stderr.lines != [] {
        var other := stderr.lines[0].received + MERGE_WINDOW;
        if deadline.None? || other < deadline.value {
          deadline := Some(other);
        }
      }
    }

    /** The stream whose front line can be written now, if any. */
    method NextReady(now: Nanos, ended: bool) returns (next: Option<OutputStream>)
      ensures next == Next(View(), now, ended)
    {
      next := None;
      if stdout.lines != [] && stderr.lines != [] {
        next := Some(if Le(stdout.lines[0].time, stderr.lines[0].time) then Stdout else Stderr);
      } else if stdout.lines != [] && (ended || now >= stdout.lines[0].received + MERGE_WINDOW) {
        next := Some(Stdout);
      } else if stderr.lines != [] && (ended || now >= stderr.lines[0].received + MERGE_WINDOW) {
        next := Some(Stderr);
      }
    }

    /** Takes the front line of `kind`, adding the newline it lacks if another line waits. */
    method TakeFront(kind: OutputStream) returns (line: bytes)
      requires Valid() && View().Input(kind).lines != []
      modifies stdout, stderr
      ensures View() == Pop(old(View()), kind)
      ensures line == Release(old(View()), kind).text
    {
      var input := if kind.Stdout? then stdout else stderr;
      line := input.lines[0].line;
      input.lines := input.lines[1..];
      if (stdout.lines != [] || stderr.lines != []) && !IsTerminated(line) {
        line := line + [NL];
      }
    }

    /** Empties the queues from the front as far as the order of the two streams is settled. */
    method Ready(now: Nanos, ended: bool) returns (ready: seq<bytes>)
      requires Valid()
      modifies stdout, stderr
      ensures ready == ReadyTexts(old(View()), now, ended)
      ensures View() == MergerModel.Ready(old(View()), now, ended).1
    {
      ready := [];
      var next := NextReady(now, ended);
      while next.Some?
        invariant next == Next(View(), now, ended)
        invariant MergerModel.Ready(View(), now, ended).1 == MergerModel.Ready(old(View()), now, ended).1
        invariant ready + ReadyTexts(View(), now, ended) == ReadyTexts(old(View()), now, ended)
        decreases View().Waiting()
      {
        ReadyTextsStep(View(), now, ended);
        var line := TakeFront(next.value);
        Assoc(ready, [line], ReadyTexts(View(), now, ended));
        ready := ready + [line];
        next := NextReady(now, ended);
      }
      assert ReadyTexts(View(), now, ended) == [];
    }
  }

  /** The lines written when `ready` is called in state `m`. */
  ghost function ReadyTexts(m: MergerState, now: Nanos, ended: bool): seq<bytes> {
    Texts(Written(MergerModel.Ready(m, now, ended).0))
  }

  lemma ReadyTextsStep(m: MergerState, now: Nanos, ended: bool)
    requires Next(m, now, ended).Some?
    ensures var kind := Next(m, now, ended).value;
      ReadyTexts(m, now, ended) == [Release(m, kind).text] + ReadyTexts(Pop(m, kind), now, ended)
  {
    var kind := Next(m, now, ended).value;
    WrittenFirst(Release(m, kind), MergerModel.Ready(Pop(m, kind), now, ended).0);
  }
}

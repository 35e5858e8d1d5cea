/** What each part of a log request does to the output (src/api/log_filter.rs). */
module LogFilterLaws {
  import opened Wrappers
  import opened Seqs
  import opened Ascii
  import opened LogLines
  import opened StableSort
  import opened LogFilter

  /** Lines that can be applied as they are: each but the last terminated, and in order if they have times. */
  ghost predicate InOrder(f: LogFilter, c: Clock, lines: seq<bytes>) {
    AreLines(lines) && (f.inputHasTimestamps ==> Sorted(Tag(c, lines, None)))
  }

  lemma AppliedToLines(f: LogFilter, c: Clock, lines: seq<bytes>)
    requires InOrder(f, c, lines)
    ensures f.Applied(c, Concat(lines), None) == Truncate(Concat(f.Lines(c, lines)), f.limitBytes)
  {
    SplitOfConcat(lines);
    if f.inputHasTimestamps {
      MergedAlready(c, lines);
    }
  }

  lemma MergedAlready(c: Clock, lines: seq<bytes>)
    requires AreLines(lines) && Sorted(Tag(c, lines, None))
    ensures MergedLog(c, [Concat(lines)]) == Concat(lines)
  {
    var tagged := Tag(c, lines, None);
    SplitOfConcat(lines);
    TagAllOne(c, Concat(lines));
    SortOfSorted(tagged);
    TextsTag(c, lines, None);
    assert forall i :: 0 <= i < |lines| ==> tagged[i].text == Texts(tagged)[i];
    CloseOfClosed(tagged);
  }

  /** The lines of the input, in the order of their times if they have them. */
  function InputLines(f: LogFilter, c: Clock, input: bytes): seq<bytes> {
    SplitInclusive(if f.inputHasTimestamps then MergedLog(c, [input]) else input)
  }

  lemma InputInOrder(f: LogFilter, c: Clock, input: bytes)
    ensures InOrder(f, c, InputLines(f, c, input))
  {
    if f.inputHasTimestamps {
      MergedLogReadsBack(c, [input]);
    } else {
      SplitParts(input);
      SplitLines(input);
    }
  }

  // since

  predicate Early(c: Clock, line: bytes, since: Time) {
    TimeOf(c, line).Some? && TimeOf(c, line).value < since
  }

  /** The lines without a time, or not before `since`. */
  function Late(c: Clock, lines: seq<bytes>, since: Time): (r: seq<bytes>) {
    if lines == [] then []
    else (if Early(c, lines[0], since) then [] else [lines[0]]) + Late(c, lines[1..], since)
  }

  lemma LateFirst(c: Clock, lines: seq<bytes>, since: Time)
    requires lines != []
    ensures Late(c, lines, since) ==
      if Early(c, lines[0], since) then Late(c, lines[1..], since) else [lines[0]] + Late(c, lines[1..], since)
  {
    assert [] + Late(c, lines[1..], since) == Late(c, lines[1..], since);
  }

  lemma WrittenFirst(f: LogFilter, c: Clock, lines: seq<bytes>)
    requires lines != []
    ensures Concat(f.Lines(c, lines)) == f.Line(c, lines[0]) + Concat(f.Lines(c, lines[1..]))
  {
    assert f.Lines(c, lines) == [f.Line(c, lines[0])] + f.Lines(c, lines[1..]);
    ConcatCons(f.Line(c, lines[0]), f.Lines(c, lines[1..]));
  }

  lemma WrittenCons(f: LogFilter, c: Clock, line: bytes, lines: seq<bytes>)
    ensures Concat(f.Lines(c, [line] + lines)) == f.Line(c, line) + Concat(f.Lines(c, lines))
  {
    WrittenFirst(f, c, [line] + lines);
    assert ([line] + lines)[1..] == lines;
  }

  /** The filter writes nothing of an early line, and of another line what it writes without `since`. */
  lemma LineLate(f: LogFilter, c: Clock, line: bytes, since: Time, rest: bytes)
    requires f.inputHasTimestamps && f.since == Some(since)
    ensures f.Line(c, line) + rest == if Early(c, line, since) then rest else f.(since := None).Line(c, line) + rest
  {
  }

  /** The filter writes what it writes of the late lines alone. */
  lemma {:induction false} LinesLate(f: LogFilter, c: Clock, lines: seq<bytes>, since: Time)
    requires f.inputHasTimestamps && f.since == Some(since)
    ensures Concat(f.Lines(c, lines)) == Concat(f.(since := None).Lines(c, Late(c, lines, since)))
  {
    if lines != [] {
      var g := f.(since := None);
      var late := Late(c, lines[1..], since);
      LinesLate(f, c, lines[1..], since);
      LateFirst(c, lines, since);
      WrittenFirst(f, c, lines);
      LineLate(f, c, lines[0], since, Concat(g.Lines(c, late)));
      WrittenCons(g, c, lines[0], late);
    }
  }

  lemma {:induction false} LateLines(c: Clock, lines: seq<bytes>, since: Time)
    requires AreLines(lines)
    ensures AreLines(Late(c, lines, since))
  {
    if lines != [] {
      LateLines(c, lines[1..], since);
      LateFirst(c, lines, since);
    }
  }

  /** Without the early lines, the others are still in order, though some carry an earlier time. */
  lemma {:induction false} LateSorted(c: Clock, lines: seq<bytes>, since: Time, lastA: Option<Time>, lastB: Option<Time>)
    requires Le(lastB, lastA) && Sorted(Tag(c, lines, lastA)) && NoEarlier(lastA, Tag(c, lines, lastA))
    ensures Sorted(Tag(c, Late(c, lines, since), lastB)) && NoEarlier(lastB, Tag(c, Late(c, lines, since), lastB))
  {
    if lines != [] {
      var x := Tag(c, lines, lastA);
      var timeA := x[0].time;
      assert x[1..] == Tag(c, lines[1..], timeA);
      SortedFirst(x);
      LateFirst(c, lines, since);
      if Early(c, lines[0], since) {
        LateSorted(c, lines[1..], since, timeA, lastB);
      } else {
        var timeB := Carry(c, lines[0], lastB);
        var rest := Late(c, lines[1..], since);
        LateSorted(c, lines[1..], since, timeA, timeB);
        var y := Tag(c, [lines[0]] + rest, lastB);
        assert ([lines[0]] + rest)[1..] == rest;
        assert y[1..] == Tag(c, rest, timeB);
        SortedFirst(y);
        NoEarlierFirst(lastB, y);
      }
    }
  }

  /** `since` is the log without its earlier lines: lines without a time of their own stay. */
  lemma SinceFilters(f: LogFilter, c: Clock, input: bytes, since: Time)
    requires f.inputHasTimestamps && f.since == Some(since)
    ensures f.Applied(c, input, None) == f.(since := None).Applied(c, Concat(Late(c, InputLines(f, c, input), since)), None)
  {
    var lines := InputLines(f, c, input);
    InputInOrder(f, c, input);
    LinesLate(f, c, lines, since);
    LateLines(c, lines, since);
    LateSorted(c, lines, since, None, None);
    AppliedToLines(f.(since := None), c, Late(c, lines, since));
  }

  // timestamps

  /** What follows the first space. */
  function AfterSpace(line: bytes): bytes {
    match IndexOf(line, SPACE)
    case None => line
    case Some(i) => line[i + 1..]
  }

  function Bare(c: Clock, line: bytes): bytes {
    if TimeOf(c, line).None? then line else AfterSpace(line)
  }

  function Stamped(c: Clock, line: bytes): bytes {
    if TimeOf(c, line).None? then line else c.format(TimeOf(c, line).value) + [SPACE] + AfterSpace(line)
  }

  /** With `timestamps` each timed line gets its time in the kubelet's form, without it loses its own. */
  lemma TimestampsStrip(f: LogFilter, c: Clock, input: bytes)
    requires f.inputHasTimestamps && f.since == None
    ensures var lines := InputLines(f, c, input);
      f.Applied(c, input, None) ==
      Truncate(Concat(Map((line: bytes) => if f.timestamps then Stamped(c, line) else Bare(c, line), lines)), f.limitBytes)
  {
    var lines := InputLines(f, c, input);
    forall line: bytes
      ensures f.Line(c, line) == if f.timestamps then Stamped(c, line) else Bare(c, line)
    {
      assert [] + AfterSpace(line) == AfterSpace(line);
    }
    assert f.Lines(c, lines) == Map((line: bytes) => if f.timestamps then Stamped(c, line) else Bare(c, line), lines);
  }

  /** So a stamped line without its stamp is the bare one. */
  lemma StampStripped(c: Clock, line: bytes)
    requires c.Valid() && TimeOf(c, line).Some?
    ensures AfterSpace(Stamped(c, line)) == Bare(c, line)
  {
    var stamp := c.format(TimeOf(c, line).value);
    var out := Stamped(c, line);
    assert c.WritesField(TimeOf(c, line).value);
    assert out[..|stamp|] == stamp && out[|stamp| + 1..] == AfterSpace(line);
    IndexOfIs(out, SPACE, |stamp|);
  }

  // tailLines, limitBytes, and input without timestamps

  lemma LastInOrder(f: LogFilter, c: Clock, lines: seq<bytes>, k: nat)
    requires InOrder(f, c, lines) && k <= |lines|
    ensures InOrder(f, c, lines[k..])
  {
    if f.inputHasTimestamps {
      var (first, last) := (lines[..k], lines[k..]);
      assert lines == first + last;
      TagAppend(c, first, last, None);
      var carried := LastTime(c, first, None);
      var tags := Tag(c, lines, None);
      assert tags[k..] == Tag(c, last, carried);
      CarriedIsEarlier(c, first, last, None);
      SortedWithFewerTimes(c, last, last, carried, None);
    }
  }

  lemma {:induction false} CarriedIsEarlier(c: Clock, first: seq<bytes>, last: seq<bytes>, time: Option<Time>)
    requires Sorted(Tag(c, first + last, time)) && NoEarlier(time, Tag(c, first + last, time))
    ensures Sorted(Tag(c, last, LastTime(c, first, time))) && NoEarlier(LastTime(c, first, time), Tag(c, last, LastTime(c, first, time)))
  {
    var tags := Tag(c, first + last, time);
    if first == [] {
      assert first + last == last;
    } else {
      assert (first + last)[1..] == first[1..] + last;
      SortedFirst(tags);
      CarriedIsEarlier(c, first[1..], last, Carry(c, first[0], time));
    }
  }

  /** `tailLines` is the log of its last lines. */
  lemma TailCounts(f: LogFilter, c: Clock, input: bytes, n: nat)
    ensures var lines := InputLines(f, c, input);
      f.Applied(c, input, Some(n)) == f.Applied(c, Concat(if n < |lines| then lines[|lines| - n..] else lines), None)
  {
    var lines := InputLines(f, c, input);
    var last := if n < |lines| then lines[|lines| - n..] else lines;
    InputInOrder(f, c, input);
    if n < |lines| {
      LastInOrder(f, c, lines, |lines| - n);
    }
    assert LogFilter.Kept(lines, Some(n)) == last;
    AppliedToLines(f, c, last);
  }

  /** `limitBytes` is the beginning of the output without it. */
  lemma LimitCuts(f: LogFilter, c: Clock, input: bytes, tailLines: Option<nat>, limit: nat)
    requires f.limitBytes == Some(limit)
    ensures var whole := f.(limitBytes := None).Applied(c, input, tailLines);
      f.Applied(c, input, tailLines) == if limit < |whole| then whole[..limit] else whole
  {
    assert f.Lines(c, LogFilter.Kept(InputLines(f, c, input), tailLines))
      == f.(limitBytes := None).Lines(c, LogFilter.Kept(InputLines(f, c, input), tailLines));
  }

  /** Input without timestamps passes through. */
  lemma UntimestampedUnchanged(f: LogFilter, c: Clock, input: bytes)
    requires !f.inputHasTimestamps && f.limitBytes == None
    ensures f.Applied(c, input, None) == input
  {
    var lines := SplitInclusive(input);
    assert f.Lines(c, lines) == lines;
    SplitText(input);
    SplitParts(input);
    ConcatAppend(Complete(input), Tail(input));
    if Rest(input) != [] {
      ConcatCons(Rest(input), []);
      assert Rest(input) + [] == Rest(input) && [Rest(input)] + [] == Tail(input);
    }
  }
}

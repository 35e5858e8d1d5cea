/** Filtering and merging complete logs (src/api/log_filter.rs). */
module LogFilter {
  import opened Wrappers
  import opened Seqs
  import opened Ascii
  import opened LogLines
  import opened StableSort

  datatype LogFilter = LogFilter(
    inputHasTimestamps: bool,
    timestamps: bool,
    since: Option<Time>,
    limitBytes: Option<nat>)
  {
    /** What one line, terminator included, adds to the output. */
    function Line(c: Clock, line: bytes): bytes {
      if !inputHasTimestamps then line
      else
        match SplitTimestamp(c, line)
        case None => line
        case Some((time, rest)) =>
          if since.Some? && time < since.value then []
          else (if timestamps then c.format(time) + [SPACE] else []) + rest
    }

    function Lines(c: Clock, lines: seq<bytes>): seq<bytes> {
      Map((line: bytes) => Line(c, line), lines)
    }

    /** The lines kept by `tailLines`. */
    static function Kept(lines: seq<bytes>, tailLines: Option<nat>): seq<bytes> {
      match tailLines
      case None => lines
      case Some(n) => if n <= |lines| then lines[|lines| - n..] else lines
    }

    /** What `Apply` returns. */
    function Applied(c: Clock, input: bytes, tailLines: Option<nat>): bytes {
      var sorted := if inputHasTimestamps then MergedLog(c, [input]) else input;
      Truncate(Concat(Lines(c, Kept(SplitInclusive(sorted), tailLines))), limitBytes)
    }

    static lemma KeptFrom(lines: seq<bytes>, tailLines: Option<nat>, start: nat)
      requires start == if tailLines.Some? && tailLines.value <= |lines| then |lines| - tailLines.value else 0
      ensures lines[start..] == Kept(lines, tailLines)
    {
    }

    method FilterLines(c: Clock, lines: seq<bytes>) returns (out: bytes)
      ensures out == Concat(Lines(c, lines))
    {
      ghost var filtered := Lines(c, lines);
      out := [];
      for i := 0 to |lines|
        invariant out == Concat(filtered[..i])
      {
        ConcatSnoc(filtered, i);
        out := out + Line(c, lines[i]);
      }
      assert filtered[..|lines|] == filtered;
    }

    method Apply(c: Clock, input: bytes, tailLines: Option<nat>) returns (out: bytes)
      ensures out == Applied(c, input, tailLines)
    {
      var sorted := input;
      if inputHasTimestamps {
        sorted := MergeByTimestamp(c, [input]);
      }
      var lines := SplitInclusive(sorted);
      var start := if tailLines.Some? && tailLines.value <= |lines| then |lines| - tailLines.value else 0;
      KeptFrom(lines, tailLines, start);
      out := FilterLines(c, lines[start..]);
      if limitBytes.Some? && limitBytes.value < |out| {
        out := out[..limitBytes.value];
      }
    }
  }

  const NORMALIZE := LogFilter(true, true, None, None)

  /** Every stream's lines with the times they carry, stream after stream. */
  function TagAll(c: Clock, streams: seq<bytes>): seq<Tagged> {
    if streams == [] then []
    else Tag(c, SplitInclusive(streams[0]), None) + TagAll(c, streams[1..])
  }

  function MergedLines(c: Clock, streams: seq<bytes>): seq<Tagged> {
    Close(Sort(TagAll(c, streams)))
  }

  /** What `MergeByTimestamp` returns. */
  function MergedLog(c: Clock, streams: seq<bytes>): bytes {
    Concat(Texts(MergedLines(c, streams)))
  }

  lemma {:induction false} TagAllSnoc(c: Clock, streams: seq<bytes>, stream: bytes)
    ensures TagAll(c, streams + [stream]) == TagAll(c, streams) + Tag(c, SplitInclusive(stream), None)
  {
    if streams == [] {
      assert [stream][1..] == [];
    } else {
      assert (streams + [stream])[1..] == streams[1..] + [stream];
      TagAllSnoc(c, streams[1..], stream);
      Assoc(Tag(c, SplitInclusive(streams[0]), None), TagAll(c, streams[1..]), Tag(c, SplitInclusive(stream), None));
    }
  }

  lemma TagAllOne(c: Clock, stream: bytes)
    ensures TagAll(c, [stream]) == Tag(c, SplitInclusive(stream), None)
  {
    assert TagAll(c, [stream][1..]) == [];
  }

  /** One stream's lines with the times they carry. */
  method TagStream(c: Clock, stream: bytes) returns (lines: seq<Tagged>)
    ensures lines == Tag(c, SplitInclusive(stream), None)
  {
    var split := SplitInclusive(stream);
    var last: Option<Time> := None;
    lines := [];
    for j := 0 to |split|
      invariant lines == Tag(c, split[..j], None)
      invariant last == LastTime(c, split[..j], None)
    {
      var stamp := SplitTimestamp(c, split[j]);
      if stamp.Some? {
        last := Some(stamp.value.0);
      }
      assert split[..j + 1] == split[..j] + [split[j]];
      TagAppend(c, split[..j], [split[j]], None);
      lines := lines + [Tagged(last, split[j])];
    }
    assert split[..|split|] == split;
  }

  /** Writes lines in order; one that lacks its newline gets it if another line follows. */
  method WriteLines(lines: seq<Tagged>) returns (out: bytes)
    ensures out == Concat(Texts(Close(lines)))
  {
    ghost var texts := Texts(Close(lines));
    out := [];
    for i := 0 to |lines|
      invariant out == Concat(texts[..i])
    {
      CloseAt(lines, i);
      ConcatSnoc(texts, i);
      Assoc(out, lines[i].text, [NL]);
      out := out + lines[i].text;
      if i + 1 < |lines| && !IsTerminated(lines[i].text) {
        out := out + [NL];
      }
    }
    assert texts[..|lines|] == texts;
  }

  method MergeByTimestamp(c: Clock, streams: seq<bytes>) returns (out: bytes)
    ensures out == MergedLog(c, streams)
  {
    var lines: seq<Tagged> := [];
    for i := 0 to |streams|
      invariant lines == TagAll(c, streams[..i])
    {
      var more := TagStream(c, streams[i]);
      lines := lines + more;
      assert streams[..i + 1] == streams[..i] + [streams[i]];
      TagAllSnoc(c, streams[..i], streams[i]);
    }
    assert streams[..|streams|] == streams;
    out := WriteLines(Sort(lines));
  }

  method NormalizeTimestamps(c: Clock, logs: bytes) returns (out: bytes)
    ensures out == NORMALIZE.Applied(c, logs, None)
  {
    out := NORMALIZE.Apply(c, logs, None);
  }

  // A merged log reads back as the lines and times it was merged from.

  lemma {:induction false} TagAllFacts(c: Clock, streams: seq<bytes>)
    ensures OwnTimes(c, TagAll(c, streams))
    ensures Anchored(c, TagAll(c, streams), None)
    ensures All((t: Tagged) => IsLine(t.text), TagAll(c, streams))
  {
    if streams != [] {
      var lines := SplitInclusive(streams[0]);
      TagAllFacts(c, streams[1..]);
      TagAnchored(c, lines, None);
      AnchoredAppend(c, Tag(c, lines, None), TagAll(c, streams[1..]), None);
      SplitLines(streams[0]);
      TextsTag(c, lines, None);
      assert forall i :: 0 <= i < |lines| ==> Tag(c, lines, None)[i].text == Texts(Tag(c, lines, None))[i];
    }
  }

  lemma MergedAreLines(c: Clock, streams: seq<bytes>)
    ensures AreLines(Texts(MergedLines(c, streams)))
  {
    TagAllFacts(c, streams);
    SortAll((t: Tagged) => IsLine(t.text), TagAll(c, streams));
    CloseLines(Sort(TagAll(c, streams)));
  }

  lemma SortedKeepTimes(c: Clock, streams: seq<bytes>)
    ensures Tag(c, Texts(Sort(TagAll(c, streams))), None) == Sort(TagAll(c, streams))
  {
    var tagged := TagAll(c, streams);
    TagAllFacts(c, streams);
    SortSpec(tagged);
    SortAll((t: Tagged) => TimeOf(c, t.text).Some? ==> t.time == TimeOf(c, t.text), tagged);
    SortedCarries(c, Sort(tagged), None);
  }

  lemma CloseSorted(s: seq<Tagged>)
    requires Sorted(s)
    ensures Sorted(Close(s))
  {
    forall i, j | 0 <= i < j < |s| ensures Le(Close(s)[i].time, Close(s)[j].time) {
      CloseAt(s, i);
      CloseAt(s, j);
    }
  }

  /** Splitting a merged log gives back the merged lines, each carrying its time, still in order. */
  lemma MergedLogReadsBack(c: Clock, streams: seq<bytes>)
    ensures AreLines(Texts(MergedLines(c, streams)))
    ensures SplitInclusive(MergedLog(c, streams)) == Texts(MergedLines(c, streams))
    ensures Tag(c, SplitInclusive(MergedLog(c, streams)), None) == MergedLines(c, streams)
    ensures Sorted(MergedLines(c, streams))
  {
    var sorted := Sort(TagAll(c, streams));
    SortSpec(TagAll(c, streams));
    CloseSorted(sorted);
    SortedKeepTimes(c, streams);
    TagClose(c, sorted, None);
    MergedAreLines(c, streams);
    SplitOfConcat(Texts(Close(sorted)));
  }

  /** Merging a merged log again changes nothing, whatever streams it came from. */
  lemma MergeIdempotent(c: Clock, streams: seq<bytes>)
    ensures MergedLog(c, [MergedLog(c, streams)]) == MergedLog(c, streams)
    ensures MergedLines(c, [MergedLog(c, streams)]) == MergedLines(c, streams)
  {
    var merged := MergedLog(c, streams);
    MergedLogReadsBack(c, streams);
    TagAllOne(c, merged);
    SortOfSorted(MergedLines(c, streams));
    CloseTwice(Sort(TagAll(c, streams)));
  }

  /** A normalised line keeps its time, or is no longer read as having one, and is a fixpoint of normalising. */
  lemma NormalizedLine(c: Clock, line: bytes)
    requires c.Valid() && IsLine(line)
    ensures TimeOf(c, NORMALIZE.Line(c, line)) in {TimeOf(c, line), None}
    ensures NORMALIZE.Line(c, NORMALIZE.Line(c, line)) == NORMALIZE.Line(c, line)
    ensures IsLine(NORMALIZE.Line(c, line))
    ensures IsTerminated(line) ==> IsTerminated(NORMALIZE.Line(c, line))
  {
    if TimeOf(c, line).Some? {
      var (time, rest) := SplitTimestamp(c, line).value;
      var stamp := c.format(time);
      var out := NORMALIZE.Line(c, line);
      assert c.WritesField(time);
      assert out == stamp + [SPACE] + rest;
      IndexOfSpec(line, SPACE);
      assert rest == line[IndexOf(line, SPACE).value + 1..];
      assert IsTerminated(line) ==> rest != [] && out[|out| - 1] == rest[|rest| - 1] == line[|line| - 1];
      assert out[..|stamp|] == stamp && out[|stamp|] == SPACE && out[|stamp| + 1..] == rest;
      IndexOfIs(out, SPACE, |stamp|);
    }
  }

  /** Normalising keeps the lines of a log apart, in order, and is done with them. */
  lemma NormalizedLines(c: Clock, lines: seq<bytes>)
    requires c.Valid() && AreLines(lines)
    ensures AreLines(NORMALIZE.Lines(c, lines))
    ensures NORMALIZE.Lines(c, NORMALIZE.Lines(c, lines)) == NORMALIZE.Lines(c, lines)
    ensures forall i :: 0 <= i < |lines| ==> TimeOf(c, NORMALIZE.Lines(c, lines)[i]) in {TimeOf(c, lines[i]), None}
  {
    var out := NORMALIZE.Lines(c, lines);
    forall i | 0 <= i < |lines|
      ensures TimeOf(c, out[i]) in {TimeOf(c, lines[i]), None} && IsLine(out[i])
      ensures NORMALIZE.Line(c, out[i]) == out[i]
      ensures i < |lines| - 1 ==> IsTerminated(out[i])
    {
      NormalizedLine(c, lines[i]);
    }
  }

  /** Sorted lines that normalising leaves alone are a fixpoint of the whole pass. */
  lemma NormalizedFixpoint(c: Clock, lines: seq<bytes>)
    requires AreLines(lines) && Sorted(Tag(c, lines, None)) && NORMALIZE.Lines(c, lines) == lines
    ensures NORMALIZE.Applied(c, Concat(lines), None) == Concat(lines)
  {
    var tagged := Tag(c, lines, None);
    SplitOfConcat(lines);
    TagAllOne(c, Concat(lines));
    SortOfSorted(tagged);
    TextsTag(c, lines, None);
    assert forall i :: 0 <= i < |lines| ==> tagged[i].text == Texts(tagged)[i];
    CloseOfClosed(tagged);
  }

  /** `normalize_timestamps` is idempotent on all bytes. */
  lemma NormalizeIdempotent(c: Clock, logs: bytes)
    requires c.Valid()
    ensures NORMALIZE.Applied(c, NORMALIZE.Applied(c, logs, None), None) == NORMALIZE.Applied(c, logs, None)
  {
    var lines := Texts(MergedLines(c, [logs]));
    var out := NORMALIZE.Lines(c, lines);
    MergedLogReadsBack(c, [logs]);
    NormalizedLines(c, lines);
    SortedWithFewerTimes(c, lines, out, None, None);
    NormalizedFixpoint(c, out);
  }

  /** Sorted lines stay sorted when some of them lose their own time and carry the one before instead. */
  lemma {:induction false} SortedWithFewerTimes(c: Clock, a: seq<bytes>, b: seq<bytes>, lastA: Option<Time>, lastB: Option<Time>)
    requires |a| == |b| && forall i :: 0 <= i < |a| ==> TimeOf(c, b[i]) in {TimeOf(c, a[i]), None}
    requires Le(lastB, lastA) && Sorted(Tag(c, a, lastA)) && NoEarlier(lastA, Tag(c, a, lastA))
    ensures Sorted(Tag(c, b, lastB)) && NoEarlier(lastB, Tag(c, b, lastB))
  {
    if a != [] {
      var (x, y) := (Tag(c, a, lastA), Tag(c, b, lastB));
      var (timeA, timeB) := (x[0].time, y[0].time);
      assert x[1..] == Tag(c, a[1..], timeA) && y[1..] == Tag(c, b[1..], timeB);
      SortedFirst(x);
      SortedWithFewerTimes(c, a[1..], b[1..], timeA, timeB);
      SortedFirst(y);
      NoEarlierFirst(lastB, y);
    }
  }

  lemma {:induction false} CloseOfClosed(s: seq<Tagged>)
    requires forall i :: 0 <= i < |s| - 1 ==> IsTerminated(s[i].text)
    ensures Close(s) == s
  {
    if |s| > 1 {
      CloseOfClosed(s[1..]);
      assert [s[0]] + s[1..] == s;
    }
  }
}

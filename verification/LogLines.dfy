/** Lines of a container log and the podman timestamps in front of them (src/api/log_filter.rs). */
module LogLines {
  import opened Wrappers
  import opened Seqs
  import opened Ascii

  /** An instant in nanoseconds. */
  type Time = int

  /** chrono's RFC 3339 reader and the kubelet's nine-digit writer, both taken as given. */
  datatype Clock = Clock(parse: bytes -> Option<Time>, format: Time -> bytes) {

    /** What is written for a time is one field of a line, and reads back as that time or, beyond four-digit years, not at all. */
    ghost predicate Valid() {
      forall t :: WritesField(t)
    }

    ghost predicate WritesField(t: Time) {
      && parse(format(t)) in {Some(t), None}
      && Without(format(t), SPACE)
      && Without(format(t), NL)
    }
  }

  /** `split_inclusive(NL)`: an unterminated tail is a line of its own. */
  function SplitInclusive(s: bytes): seq<bytes>
    decreases |s|
  {
    if s == [] then []
    else
      match IndexOf(s, NL)
      case None => [s]
      case Some(i) => [s[..i + 1]] + SplitInclusive(s[i + 1..])
  }

  /** The lines of `s` whose newline has arrived. */
  function Complete(s: bytes): seq<bytes>
    decreases |s|
  {
    match IndexOf(s, NL)
    case None => []
    case Some(i) => [s[..i + 1]] + Complete(s[i + 1..])
  }

  /** What follows the last newline of `s`. */
  function Rest(s: bytes): bytes
    decreases |s|
  {
    match IndexOf(s, NL)
    case None => s
    case Some(i) => Rest(s[i + 1..])
  }

  /** Nonempty, with no newline before the end. */
  ghost predicate IsLine(line: bytes) {
    line != [] && forall i :: 0 <= i < |line| - 1 ==> line[i] != NL
  }

  ghost predicate AllLines(lines: seq<bytes>) {
    forall i :: 0 <= i < |lines| ==> IsLine(lines[i])
  }

  predicate IsTerminated(line: bytes) {
    line != [] && line[|line| - 1] == NL
  }

  function Terminate(line: bytes): bytes {
    if IsTerminated(line) then line else line + [NL]
  }

  function Tail(s: bytes): seq<bytes> {
    if Rest(s) == [] then [] else [Rest(s)]
  }

  ghost predicate IsFullLine(line: bytes) {
    IsLine(line) && IsTerminated(line)
  }

  /** How splitting starts: a text is one open line, or a full line and the rest. */
  lemma FirstLine(s: bytes) returns (line: bytes, rest: bytes)
    ensures IndexOf(s, NL).None? <==> Without(s, NL)
    ensures IndexOf(s, NL).Some? ==> s == line + rest && IsFullLine(line) && |rest| < |s|
  {
    IndexOfSpec(s, NL);
    line, rest := s, [];
    if IndexOf(s, NL).Some? {
      var i := IndexOf(s, NL).value;
      line, rest := s[..i + 1], s[i + 1..];
      forall j | 0 <= j < i ensures line[j] != NL {
        assert line[j] == s[..i][j];
      }
    }
  }

  lemma SplitFirst(line: bytes, rest: bytes)
    requires IsFullLine(line)
    ensures IndexOf(line + rest, NL).Some?
    ensures Complete(line + rest) == [line] + Complete(rest)
    ensures Rest(line + rest) == Rest(rest)
    ensures SplitInclusive(line + rest) == [line] + SplitInclusive(rest)
  {
    var s, i := line + rest, |line| - 1;
    assert s[..i] == line[..i];
    IndexOfIs(s, NL, i);
    assert s[..i + 1] == line && s[i + 1..] == rest;
  }

  lemma {:induction false} SplitParts(s: bytes)
    ensures SplitInclusive(s) == Complete(s) + Tail(s)
    ensures Without(Rest(s), NL)
    decreases |s|
  {
    var line, rest := FirstLine(s);
    if IndexOf(s, NL).Some? {
      SplitParts(rest);
      SplitFirst(line, rest);
      Assoc([line], Complete(rest), Tail(rest));
    }
  }

  /** Splitting loses nothing. */
  lemma {:induction false} SplitText(s: bytes)
    ensures Concat(Complete(s)) + Rest(s) == s
    decreases |s|
  {
    var line, rest := FirstLine(s);
    if IndexOf(s, NL).Some? {
      SplitText(rest);
      SplitFirst(line, rest);
      ConcatCons(line, Complete(rest));
      Assoc(line, Concat(Complete(rest)), Rest(rest));
    }
  }

  lemma {:induction false} SplitLines(s: bytes)
    ensures AllLines(SplitInclusive(s))
    ensures forall i :: 0 <= i < |Complete(s)| ==> IsFullLine(Complete(s)[i])
    decreases |s|
  {
    var line, rest := FirstLine(s);
    if IndexOf(s, NL).Some? {
      SplitLines(rest);
      SplitFirst(line, rest);
    }
  }

  /** A chunk only ever completes the line the previous chunks left open. */
  lemma {:induction false} CompleteAppend(a: bytes, b: bytes)
    ensures Complete(a + b) == Complete(a) + Complete(Rest(a) + b)
    ensures Rest(a + b) == Rest(Rest(a) + b)
    decreases |a|
  {
    var line, rest := FirstLine(a);
    if IndexOf(a, NL).Some? {
      CompleteAppend(rest, b);
      SplitFirst(line, rest);
      SplitFirst(line, rest + b);
      Assoc(line, rest, b);
      Assoc([line], Complete(rest), Complete(Rest(rest) + b));
    }
  }

  /** The last newline splits off exactly the complete lines. */
  lemma CompletePrefix(s: bytes, n: nat)
    requires n <= |s| && (n == 0 || s[n - 1] == NL) && Without(s[n..], NL)
    ensures SplitInclusive(s[..n]) == Complete(s) && Rest(s) == s[n..]
  {
    assert s == s[..n] + s[n..];
    CompleteThenOpen(s[..n], s[n..]);
  }

  lemma CompleteThenOpen(lines: bytes, open: bytes)
    requires (lines == [] || IsTerminated(lines)) && Without(open, NL)
    ensures SplitInclusive(lines) == Complete(lines)
    ensures Complete(lines + open) == Complete(lines) && Rest(lines + open) == open
  {
    RestOfTerminated(lines);
    SplitParts(lines);
    OpenLine(open);
    assert [] + open == open;
    CompleteAppend(lines, open);
  }

  lemma OpenLine(s: bytes)
    requires Without(s, NL)
    ensures Complete(s) == [] && Rest(s) == s
  {
    IndexOfSpec(s, NL);
  }

  lemma {:induction false} RestOfTerminated(s: bytes)
    requires s == [] || IsTerminated(s)
    ensures Rest(s) == []
    decreases |s|
  {
    if s != [] {
      IndexOfLeast(s, NL, |s| - 1);
      RestOfTerminated(s[IndexOf(s, NL).value + 1..]);
    }
  }

  /** Lines that are all terminated, except perhaps the last, read back from their text. */
  ghost predicate AreLines(lines: seq<bytes>) {
    && AllLines(lines)
    && (forall i :: 0 <= i < |lines| - 1 ==> IsTerminated(lines[i]))
  }

  lemma {:induction false} SplitOfConcat(lines: seq<bytes>)
    requires AreLines(lines)
    ensures SplitInclusive(Concat(lines)) == lines
  {
    if lines != [] {
      if IsTerminated(lines[0]) {
        SplitOfConcat(lines[1..]);
        SplitFirst(lines[0], Concat(lines[1..]));
      } else {
        assert Concat(lines) == lines[0] && lines == [lines[0]];
        IndexOfSpec(lines[0], NL);
      }
    }
  }

  /** `split_timestamp`: the leading timestamp and the text after its space. */
  function SplitTimestamp(c: Clock, line: bytes): Option<(Time, bytes)> {
    match IndexOf(line, SPACE)
    case None => None
    case Some(i) =>
      match c.parse(line[..i])
      case None => None
      case Some(t) => Some((t, line[i + 1..]))
  }

  /** A line has the time that its text up to the first space says, if it says one, and else no time. */
  lemma TimestampRead(c: Clock, stamp: bytes, rest: bytes)
    requires Without(stamp, SPACE)
    ensures SplitTimestamp(c, stamp) == None
    ensures SplitTimestamp(c, stamp + [SPACE] + rest) ==
      if c.parse(stamp).Some? then Some((c.parse(stamp).value, rest)) else None
  {
    var line := stamp + [SPACE] + rest;
    IndexOfSpec(stamp, SPACE);
    assert line[..|stamp|] == stamp && line[|stamp| + 1..] == rest;
    IndexOfIs(line, SPACE, |stamp|);
  }

  function TimeOf(c: Clock, line: bytes): Option<Time> {
    match SplitTimestamp(c, line)
    case None => None
    case Some((t, _)) => Some(t)
  }

  /** Adding the missing newline leaves a line's timestamp alone. */
  lemma TimeOfTerminated(c: Clock, line: bytes)
    ensures TimeOf(c, Terminate(line)) == TimeOf(c, line)
  {
    IndexOfAppend(line, [NL], SPACE);
    IndexOfSpec([NL], SPACE);
    if IndexOf(line, SPACE).Some? {
      var i := IndexOf(line, SPACE).value;
      assert (line + [NL])[..i] == line[..i];
    }
  }

  /** A line with the time it is sorted by. */
  datatype Tagged = Tagged(time: Option<Time>, text: bytes)

  /** The time a line carries: its own, or else that of the line before it. */
  function Carry(c: Clock, line: bytes, last: Option<Time>): Option<Time> {
    if TimeOf(c, line).Some? then TimeOf(c, line) else last
  }

  function Tag(c: Clock, lines: seq<bytes>, last: Option<Time>): (r: seq<Tagged>)
    ensures |r| == |lines|
  {
    if lines == [] then []
    else
      var time := Carry(c, lines[0], last);
      [Tagged(time, lines[0])] + Tag(c, lines[1..], time)
  }

  /** Each line is tagged with its own time, or else with the tag of the line before it. */
  lemma {:induction false} TagAt(c: Clock, lines: seq<bytes>, last: Option<Time>, i: nat)
    requires i < |lines|
    ensures var tags := Tag(c, lines, last);
      && tags[i].text == lines[i]
      && tags[i].time == if TimeOf(c, lines[i]).Some? then TimeOf(c, lines[i]) else if i == 0 then last else tags[i - 1].time
  {
    if i > 0 {
      TagAt(c, lines[1..], Carry(c, lines[0], last), i - 1);
    }
  }

  /** The time carried past the last of `lines`. */
  function LastTime(c: Clock, lines: seq<bytes>, last: Option<Time>): Option<Time> {
    if lines == [] then last else LastTime(c, lines[1..], Carry(c, lines[0], last))
  }

  lemma {:induction false} TagAppend(c: Clock, a: seq<bytes>, b: seq<bytes>, last: Option<Time>)
    ensures Tag(c, a + b, last) == Tag(c, a, last) + Tag(c, b, LastTime(c, a, last))
    ensures LastTime(c, a + b, last) == LastTime(c, b, LastTime(c, a, last))
  {
    if a == [] {
      assert a + b == b;
    } else {
      assert (a + b)[1..] == a[1..] + b;
      TagAppend(c, a[1..], b, Carry(c, a[0], last));
    }
  }

  function Texts(s: seq<Tagged>): (r: seq<bytes>)
    ensures |r| == |s|
  {
    Map((t: Tagged) => t.text, s)
  }

  lemma {:induction false} TextsTag(c: Clock, lines: seq<bytes>, last: Option<Time>)
    ensures Texts(Tag(c, lines, last)) == lines
  {
    if lines != [] {
      TextsTag(c, lines[1..], Carry(c, lines[0], last));
      var t := Tag(c, lines, last);
      assert Texts(t)[1..] == Texts(t[1..]);
    }
  }

  /** Every line but the last ends in a newline: what both mergers write. */
  function Close(s: seq<Tagged>): (r: seq<Tagged>)
    ensures |r| == |s|
  {
    if |s| <= 1 then s
    else [Tagged(s[0].time, Terminate(s[0].text))] + Close(s[1..])
  }

  lemma {:induction false} CloseAt(s: seq<Tagged>, i: nat)
    requires i < |s|
    ensures Close(s)[i] == if i < |s| - 1 then Tagged(s[i].time, Terminate(s[i].text)) else s[i]
  {
    if i > 0 {
      CloseAt(s[1..], i - 1);
    }
  }

  lemma {:induction false} CloseAppend(a: seq<Tagged>, b: seq<Tagged>)
    requires forall i :: 0 <= i < |a| ==> IsTerminated(a[i].text)
    ensures Close(a + b) == a + Close(b)
  {
    if a == [] {
      assert a + b == b;
    } else {
      assert (a + b)[1..] == a[1..] + b;
      CloseAppend(a[1..], b);
      assert b == [] && |a| == 1 ==> a + Close(b) == a;
      assert a == [a[0]] + a[1..];
      Assoc([a[0]], a[1..], Close(b));
    }
  }

  /** Closing changes no carried time. */
  lemma {:induction false} TagClose(c: Clock, s: seq<Tagged>, last: Option<Time>)
    requires Tag(c, Texts(s), last) == s
    ensures Tag(c, Texts(Close(s)), last) == Close(s)
  {
    if |s| > 1 {
      var time := Carry(c, s[0].text, last);
      assert Texts(s)[1..] == Texts(s[1..]);
      TagClose(c, s[1..], time);
      TimeOfTerminated(c, s[0].text);
      TextsFirst(Tagged(time, Terminate(s[0].text)), Close(s[1..]));
    }
  }

  lemma TextsFirst(h: Tagged, s: seq<Tagged>)
    ensures Texts([h] + s) == [h.text] + Texts(s)
  {
  }

  lemma TerminateLine(line: bytes)
    requires IsLine(line)
    ensures IsFullLine(Terminate(line))
    ensures Terminate(line) == if line[|line| - 1] == NL then line else line + [NL]
  {
  }

  lemma {:induction false} CloseLines(s: seq<Tagged>)
    requires forall i :: 0 <= i < |s| ==> IsLine(s[i].text)
    ensures AreLines(Texts(Close(s)))
  {
    var r := Texts(Close(s));
    forall i | 0 <= i < |s| ensures IsLine(r[i]) && (i < |s| - 1 ==> IsTerminated(r[i])) {
      TerminateLine(s[i].text);
      CloseAt(s, i);
    }
  }

  lemma CloseTwice(s: seq<Tagged>)
    ensures Close(Close(s)) == Close(s)
  {
    var r := Close(s);
    forall i | 0 <= i < |s| ensures Close(r)[i] == r[i] {
      CloseAt(s, i);
      CloseAt(r, i);
    }
  }
}

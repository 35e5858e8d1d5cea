/** Result types shared by all modules. */
module Wrappers {

  datatype Option<+T> = None | Some(value: T)

  datatype Result<+T, +E> = Ok(value: T) | Err(error: E) {
    predicate IsFailure() { Err? }

    function PropagateFailure<U>(): Result<U, E>
      requires Err?
    {
      Err(error)
    }

    function Extract(): T
      requires Ok?
    {
      value
    }
  }
}

/** Larger and smaller numbers. */
module Numbers {

  function Max(a: int, b: int): int {
    if a < b then b else a
  }

  function MaxReal(a: real, b: real): real {
    if a < b then b else a
  }

  function MinReal(a: real, b: real): real {
    if a < b then a else b
  }
}

/** Searching, flattening, splitting and joining sequences, the way Rust's slice and str methods do. */
module Seqs {
  import opened Wrappers

  newtype byte = x: int | 0 <= x < 256
  type bytes = seq<byte>

  /** `position`/`find`: the index of the first `c`; see `IndexOfSpec`. */
  function IndexOf<T(==)>(s: seq<T>, c: T): (r: Option<nat>)
    ensures r.Some? ==> r.value < |s|
  {
    if s == [] then None
    else if s[0] == c then Some(0)
    else
      match IndexOf(s[1..], c)
      case None => None
      case Some(i) => Some(i + 1)
  }

  predicate Without<T(==)>(s: seq<T>, c: T) {
    forall i :: 0 <= i < |s| ==> s[i] != c
  }

  lemma {:induction false} IndexOfSpec<T>(s: seq<T>, c: T)
    ensures IndexOf(s, c).None? <==> Without(s, c)
    ensures IndexOf(s, c).Some? ==> s[IndexOf(s, c).value] == c && Without(s[..IndexOf(s, c).value], c)
  {
    if s != [] && s[0] != c {
      IndexOfSpec(s[1..], c);
      assert forall i :: 1 <= i < |s| ==> s[i] == s[1..][i - 1];
    }
  }

  lemma {:induction false} IndexOfIs<T>(s: seq<T>, c: T, i: nat)
    requires i < |s| && s[i] == c && Without(s[..i], c)
    ensures IndexOf(s, c) == Some(i)
  {
    if i > 0 {
      assert s[0] == s[..i][0];
      assert s[1..][..i - 1] == s[..i][1..];
      IndexOfIs(s[1..], c, i - 1);
    }
  }

  /** The first occurrence in `a` is the first one in `a + b`. */
  lemma IndexOfAppend<T>(a: seq<T>, b: seq<T>, c: T)
    ensures IndexOf(a, c).Some? ==> IndexOf(a + b, c) == IndexOf(a, c)
    ensures IndexOf(a, c).None? && IndexOf(b, c).None? ==> IndexOf(a + b, c).None?
  {
    IndexOfSpec(a, c);
    match IndexOf(a, c)
    case Some(i) =>
      assert (a + b)[..i] == a[..i];
      IndexOfIs(a + b, c, i);
    case None =>
      IndexOfSpec(b, c);
      IndexOfSpec(a + b, c);
  }

  lemma {:induction false} IndexOfLeast<T>(s: seq<T>, c: T, j: nat)
    requires j < |s| && s[j] == c
    ensures IndexOf(s, c).Some? && IndexOf(s, c).value <= j
  {
    if s[0] != c {
      IndexOfLeast(s[1..], c, j - 1);
    }
  }

  /** `concat`: the pieces one after another. */
  function Concat<T>(pieces: seq<seq<T>>): seq<T> {
    if pieces == [] then [] else pieces[0] + Concat(pieces[1..])
  }

  lemma Assoc<T>(a: seq<T>, b: seq<T>, c: seq<T>)
    ensures (a + b) + c == a + (b + c)
  {
  }

  lemma ConcatCons<T>(head: seq<T>, tail: seq<seq<T>>)
    ensures Concat([head] + tail) == head + Concat(tail)
  {
    assert ([head] + tail)[1..] == tail;
  }

  lemma {:induction false} ConcatAppend<T>(a: seq<seq<T>>, b: seq<seq<T>>)
    ensures Concat(a + b) == Concat(a) + Concat(b)
  {
    if a == [] {
      assert a + b == b;
    } else {
      assert (a + b)[1..] == a[1..] + b;
      ConcatAppend(a[1..], b);
    }
  }

  lemma ConcatPush<T>(s: seq<seq<T>>, last: seq<T>)
    ensures Concat(s + [last]) == Concat(s) + last
  {
    ConcatAppend(s, [last]);
    ConcatCons(last, []);
    assert last + [] == last && [last] + [] == [last];
  }

  lemma ConcatSnoc<T>(s: seq<seq<T>>, i: nat)
    requires i < |s|
    ensures Concat(s[..i + 1]) == Concat(s[..i]) + s[i]
  {
    assert s[..i + 1] == s[..i] + [s[i]];
    ConcatPush(s[..i], s[i]);
  }

  function Map<A, B>(f: A -> B, s: seq<A>): (r: seq<B>)
    ensures |r| == |s|
    ensures forall i {:trigger r[i]} :: 0 <= i < |s| ==> r[i] == f(s[i])
  {
    seq(|s|, i requires 0 <= i < |s| => f(s[i]))
  }

  lemma MapAppend<A, B>(f: A -> B, a: seq<A>, b: seq<A>)
    ensures Map(f, a + b) == Map(f, a) + Map(f, b)
  {
  }

  /** `truncate`. */
  function Truncate<T>(s: seq<T>, limit: Option<nat>): seq<T> {
    if limit.Some? && limit.value < |s| then s[..limit.value] else s
  }

  /** `split(sep)`: always at least one piece, separators removed. */
  function Split<T(==)>(s: seq<T>, sep: T): (r: seq<seq<T>>)
    ensures |r| > 0
    decreases |s|
  {
    match IndexOf(s, sep)
    case None => [s]
    case Some(i) => [s[..i]] + Split(s[i + 1..], sep)
  }

  /** No piece contains the separator. */
  lemma {:induction false} SplitWithout<T>(s: seq<T>, sep: T)
    ensures forall i :: 0 <= i < |Split(s, sep)| ==> Without(Split(s, sep)[i], sep)
    decreases |s|
  {
    IndexOfSpec(s, sep);
    if IndexOf(s, sep).Some? {
      SplitWithout(s[IndexOf(s, sep).value + 1..], sep);
    }
  }

  /** `join(sep)`. */
  function Join<T>(pieces: seq<seq<T>>, sep: T): seq<T> {
    if pieces == [] then []
    else if |pieces| == 1 then pieces[0]
    else pieces[0] + [sep] + Join(pieces[1..], sep)
  }

  /** Splitting undoes joining when no piece contains the separator. */
  lemma {:induction false} SplitJoin<T>(pieces: seq<seq<T>>, sep: T)
    requires |pieces| > 0
    requires forall i :: 0 <= i < |pieces| ==> Without(pieces[i], sep)
    ensures Split(Join(pieces, sep), sep) == pieces
  {
    var s := Join(pieces, sep);
    if |pieces| == 1 {
      IndexOfSpec(s, sep);
    } else {
      var i := |pieces[0]|;
      assert s[..i] == pieces[0];
      IndexOfIs(s, sep, i);
      assert s[i + 1..] == Join(pieces[1..], sep);
      assert Split(s, sep) == [pieces[0]] + Split(Join(pieces[1..], sep), sep);
      SplitJoin(pieces[1..], sep);
    }
  }

  /** Every piece followed by the terminator. */
  function Terminated<T>(pieces: seq<seq<T>>, end: T): seq<T> {
    if pieces == [] then [] else pieces[0] + [end] + Terminated(pieces[1..], end)
  }

  lemma {:induction false} TerminatedAppend<T>(a: seq<seq<T>>, b: seq<seq<T>>, end: T)
    ensures Terminated(a + b, end) == Terminated(a, end) + Terminated(b, end)
  {
    if a == [] {
      assert a + b == b;
    } else {
      assert (a + b)[1..] == a[1..] + b;
      TerminatedAppend(a[1..], b, end);
    }
  }

  /** The pieces before each terminator; what is left behind the last one is a piece if it is not empty. */
  function ReadTerminated<T(==)>(s: seq<T>, end: T): seq<seq<T>>
    decreases |s|
  {
    match IndexOf(s, end)
    case None => if s == [] then [] else [s]
    case Some(i) => [s[..i]] + ReadTerminated(s[i + 1..], end)
  }

  lemma {:induction false} ReadTerminatedUndoes<T>(pieces: seq<seq<T>>, end: T)
    requires forall i :: 0 <= i < |pieces| ==> Without(pieces[i], end)
    ensures ReadTerminated(Terminated(pieces, end), end) == pieces
  {
    if pieces != [] {
      var s := Terminated(pieces, end);
      var i := |pieces[0]|;
      assert s[..i] == pieces[0];
      IndexOfIs(s, end, i);
      assert s[i + 1..] == Terminated(pieces[1..], end);
      ReadTerminatedUndoes(pieces[1..], end);
    }
  }
}

/** The ASCII characters that the formats give a meaning to. */
module Ascii {
  import opened Seqs

  const NUL: byte := 0
  const NL: byte := 10
  const CR: byte := 13
  const SPACE: byte := 32
  const HASH: byte := 35
  const DOLLAR: byte := 36
  const OPEN: byte := 40
  const CLOSE: byte := 41
  const COMMA: byte := 44
  const EQUALS: byte := 61
}

/** Kubernetes' `$(VAR)` expansion (src/container_env.rs). Text is UTF-8 bytes. */
module Expansion {
  import opened Wrappers
  import opened Seqs
  import opened Ascii

  datatype Var = Var(name: bytes, value: bytes)

  /** `find`: the value of the first variable of that name. */
  function Find(env: seq<Var>, name: bytes): Option<bytes> {
    if env == [] then None
    else if env[0].name == name then Some(env[0].value)
    else Find(env[1..], name)
  }

  /** What an input is made of, whatever the environment. */
  datatype Piece =
    | Text(text: bytes)
    | Escaped
    | Reference(name: bytes)
    | Unclosed
    | Lone
  {
    /** How the piece stands in the input. */
    function Source(): bytes {
      match this
      case Text(text) => text
      case Escaped => [DOLLAR, DOLLAR]
      case Reference(name) => [DOLLAR, OPEN] + name + [CLOSE]
      case Unclosed => [DOLLAR, OPEN]
      case Lone => [DOLLAR]
    }

    /** What it expands to. */
    function Value(env: seq<Var>): bytes {
      match this
      case Text(text) => text
      case Escaped => [DOLLAR]
      case Reference(name) =>
        (match Find(env, name)
         case Some(value) => value
         case None => Source())
      case Unclosed => Source()
      case Lone => Source()
    }
  }

  /** The piece behind a `$`, and what follows it. */
  function AfterDollar(after: bytes): (r: (Piece, bytes))
    ensures |r.1| <= |after| && !r.0.Text?
  {
    if after != [] && after[0] == DOLLAR then (Escaped, after[1..])
    else if after != [] && after[0] == OPEN then
      var inner := after[1..];
      match IndexOf(inner, CLOSE)
      case Some(end) => (Reference(inner[..end]), inner[end + 1..])
      case None => (Unclosed, inner)
    else (Lone, after)
  }

  /** The input at its first `$`: the text before it, the piece there, and what follows. */
  datatype Cut = Cut(before: bytes, piece: Piece, rest: bytes)

  function FirstCut(input: bytes): (r: Option<Cut>)
    ensures r.Some? ==> |r.value.rest| < |input|
  {
    match IndexOf(input, DOLLAR)
    case None => None
    case Some(pos) =>
      var (piece, rest) := AfterDollar(input[pos + 1..]);
      Some(Cut(input[..pos], piece, rest))
  }

  /** One scan of the input. */
  function Pieces(input: bytes): seq<Piece>
    decreases |input|
  {
    match FirstCut(input)
    case None => [Text(input)]
    case Some(cut) => [Text(cut.before)] + ([cut.piece] + Pieces(cut.rest))
  }

  function SourceOf(pieces: seq<Piece>): bytes {
    if pieces == [] then [] else pieces[0].Source() + SourceOf(pieces[1..])
  }

  function ValueOf(pieces: seq<Piece>, env: seq<Var>): bytes {
    if pieces == [] then [] else pieces[0].Value(env) + ValueOf(pieces[1..], env)
  }

  /** The expansion of `input`: each piece of the one scan by its value, so no value is scanned again. */
  function Expanded(input: bytes, env: seq<Var>): bytes {
    ValueOf(Pieces(input), env)
  }

  lemma ValueOfFirst(piece: Piece, pieces: seq<Piece>, env: seq<Var>)
    ensures ValueOf([piece] + pieces, env) == piece.Value(env) + ValueOf(pieces, env)
    ensures SourceOf([piece] + pieces) == piece.Source() + SourceOf(pieces)
  {
    assert ([piece] + pieces)[1..] == pieces;
  }

  lemma AfterDollarSource(after: bytes)
    ensures AfterDollar(after).0.Source() + AfterDollar(after).1 == [DOLLAR] + after
  {
    if after != [] && after[0] == OPEN {
      IndexOfSpec(after[1..], CLOSE);
    }
  }

  lemma SourceFirst(input: bytes, cut: Cut)
    requires FirstCut(input) == Some(cut)
    ensures SourceOf(Pieces(input)) == cut.before + (cut.piece.Source() + SourceOf(Pieces(cut.rest)))
  {
    ValueOfFirst(Text(cut.before), [cut.piece] + Pieces(cut.rest), []);
    ValueOfFirst(cut.piece, Pieces(cut.rest), []);
  }

  lemma CutCovers(input: bytes, cut: Cut)
    requires FirstCut(input) == Some(cut)
    ensures input == cut.before + (cut.piece.Source() + cut.rest)
    ensures Without(cut.before, DOLLAR)
  {
    IndexOfSpec(input, DOLLAR);
    AfterDollarSource(input[|cut.before| + 1..]);
    SplitAtDollar(input, |cut.before|);
  }

  lemma SplitAtDollar(input: bytes, pos: nat)
    requires pos < |input| && input[pos] == DOLLAR
    ensures input == input[..pos] + ([DOLLAR] + input[pos + 1..])
  {
  }

  /** The pieces are the whole input, in order. */
  lemma {:induction false} PiecesCoverInput(input: bytes)
    ensures SourceOf(Pieces(input)) == input
    decreases |input|
  {
    match FirstCut(input)
    case None =>
      ValueOfFirst(Text(input), [], []);
      assert [Text(input)] + [] == [Text(input)] && input + [] == input;
    case Some(cut) =>
      PiecesCoverInput(cut.rest);
      SourceFirst(input, cut);
      CutCovers(input, cut);
  }

  lemma ExpandedFirst(input: bytes, cut: Cut, env: seq<Var>)
    requires FirstCut(input) == Some(cut)
    ensures Expanded(input, env) == cut.before + (cut.piece.Value(env) + Expanded(cut.rest, env))
  {
    ValueOfFirst(Text(cut.before), [cut.piece] + Pieces(cut.rest), env);
    ValueOfFirst(cut.piece, Pieces(cut.rest), env);
  }

  lemma ExpandedPlain(input: bytes, env: seq<Var>)
    requires FirstCut(input).None?
    ensures Expanded(input, env) == input
  {
    assert Pieces(input) == [Text(input)] + [];
    ValueOfFirst(Text(input), [], env);
    assert input + [] == input;
  }

  /** The value of the piece behind a `$`, and what is left to expand. */
  method ExpandOne(after: bytes, env: seq<Var>) returns (value: bytes, rest: bytes)
    ensures value == AfterDollar(after).0.Value(env) && rest == AfterDollar(after).1
  {
    if after != [] && after[0] == DOLLAR {
      return [DOLLAR], after[1..];
    }
    if after == [] || after[0] != OPEN {
      return [DOLLAR], after;
    }
    var inner := after[1..];
    var end := IndexOf(inner, CLOSE);
    if end.None? {
      return [DOLLAR, OPEN], inner;
    }
    var name := inner[..end.value];
    var found := Find(env, name);
    value := if found.Some? then found.value else [DOLLAR, OPEN] + name + [CLOSE];
    rest := inner[end.value + 1..];
  }

  method Expand(input: bytes, env: seq<Var>) returns (out: bytes)
    ensures out == Expanded(input, env)
  {
    out := [];
    var rest := input;
    var dollar := IndexOf(rest, DOLLAR);
    while dollar.Some?
      invariant dollar == IndexOf(rest, DOLLAR)
      invariant out + Expanded(rest, env) == Expanded(input, env)
      decreases |rest|
    {
      ghost var cut := FirstCut(rest).value;
      ExpandedFirst(rest, cut, env);
      var text := rest[..dollar.value];
      var value, left := ExpandOne(rest[dollar.value + 1..], env);
      Regroup(out, text, value, Expanded(left, env));
      out := out + text + value;
      rest := left;
      dollar := IndexOf(rest, DOLLAR);
    }
    ExpandedPlain(rest, env);
    out := out + rest;
  }

  lemma Regroup(a: bytes, b: bytes, c: bytes, d: bytes)
    ensures a + (b + (c + d)) == a + b + c + d
  {
  }

  lemma IndexOfAfter(p: bytes, s: bytes, c: byte)
    requires Without(p, c)
    ensures IndexOf(p + s, c) == match IndexOf(s, c) case None => None case Some(i) => Some(|p| + i)
  {
    IndexOfSpec(s, c);
    if IndexOf(s, c).Some? {
      var i := IndexOf(s, c).value;
      assert (p + s)[..|p| + i] == p + s[..i];
      IndexOfIs(p + s, c, |p| + i);
    } else {
      IndexOfSpec(p + s, c);
    }
  }

  lemma CutPrefix(p: bytes, s: bytes)
    requires Without(p, DOLLAR)
    ensures FirstCut(s).None? ==> FirstCut(p + s).None?
    ensures FirstCut(s).Some? ==> FirstCut(p + s) == Some(FirstCut(s).value.(before := p + FirstCut(s).value.before))
  {
    IndexOfAfter(p, s, DOLLAR);
    if IndexOf(s, DOLLAR).Some? {
      var i := IndexOf(s, DOLLAR).value;
      assert (p + s)[..|p| + i] == p + s[..i];
      assert (p + s)[|p| + i + 1..] == s[i + 1..];
    }
  }

  /** Text without `$` is passed through: expanding starts over behind it. */
  lemma ExpandedPrefix(p: bytes, s: bytes, env: seq<Var>)
    requires Without(p, DOLLAR)
    ensures Expanded(p + s, env) == p + Expanded(s, env)
  {
    CutPrefix(p, s);
    if FirstCut(s).None? {
      ExpandedPlain(s, env);
      ExpandedPlain(p + s, env);
    } else {
      var cut := FirstCut(s).value;
      ExpandedFirst(s, cut, env);
      ExpandedFirst(p + s, cut.(before := p + cut.before), env);
      Assoc(p, cut.before, cut.piece.Value(env) + Expanded(cut.rest, env));
    }
  }

  /** Doubling every `$`. */
  function Escape(s: bytes): bytes {
    if s == [] then []
    else (if s[0] == DOLLAR then [DOLLAR, DOLLAR] else [s[0]]) + Escape(s[1..])
  }

  /** Escaping undoes expansion: the escaped text expands to the text itself under any environment. */
  lemma {:induction false} EscapeRoundTrip(s: bytes, env: seq<Var>)
    ensures Expanded(Escape(s), env) == s
  {
    if s == [] {
      ExpandedPlain([], env);
    } else {
      EscapeRoundTrip(s[1..], env);
      if s[0] == DOLLAR {
        ExpandedEscape(Escape(s[1..]), env);
      } else {
        ExpandedPrefix([s[0]], Escape(s[1..]), env);
      }
      assert s == [s[0]] + s[1..];
    }
  }

  lemma ExpandedEscape(rest: bytes, env: seq<Var>)
    ensures Expanded([DOLLAR, DOLLAR] + rest, env) == [DOLLAR] + Expanded(rest, env)
  {
    var input := [DOLLAR, DOLLAR] + rest;
    assert input[..0] == [] && input[1..] == [DOLLAR] + rest && input[1..][1..] == rest;
    ExpandedFirst(input, Cut([], Escaped, rest), env);
  }

  /** Expansion brings in no byte that neither input nor values have, `$`, `(` and `)` aside. */
  lemma {:induction false} ExpandedWithout(input: bytes, env: seq<Var>, c: byte)
    requires c !in {DOLLAR, OPEN, CLOSE} && Without(input, c)
    requires forall i :: 0 <= i < |env| ==> Without(env[i].value, c)
    ensures Without(Expanded(input, env), c)
    decreases |input|
  {
    match FirstCut(input)
    case None => ExpandedPlain(input, env);
    case Some(cut) =>
      ExpandedFirst(input, cut, env);
      PieceWithout(input[|cut.before| + 1..], env, c);
      ExpandedWithout(cut.rest, env, c);
      AppendWithout(cut.piece.Value(env), Expanded(cut.rest, env), c);
      AppendWithout(cut.before, cut.piece.Value(env) + Expanded(cut.rest, env), c);
  }

  lemma AppendWithout(a: bytes, b: bytes, c: byte)
    requires Without(a, c) && Without(b, c)
    ensures Without(a + b, c)
  {
  }

  lemma PieceWithout(after: bytes, env: seq<Var>, c: byte)
    requires c !in {DOLLAR, OPEN, CLOSE} && Without(after, c)
    requires forall i :: 0 <= i < |env| ==> Without(env[i].value, c)
    ensures Without(AfterDollar(after).0.Value(env), c) && Without(AfterDollar(after).1, c)
  {
    var (piece, rest) := AfterDollar(after);
    if piece.Reference? {
      FoundWithout(env, piece.name, c);
      assert forall i :: 0 <= i < |piece.name| ==> piece.name[i] == after[i + 1];
    }
  }

  lemma {:induction false} FoundWithout(env: seq<Var>, name: bytes, c: byte)
    requires forall i :: 0 <= i < |env| ==> Without(env[i].value, c)
    ensures Find(env, name).Some? ==> Without(Find(env, name).value, c)
  {
    if env != [] && env[0].name != name {
      FoundWithout(env[1..], name, c);
    }
  }
}

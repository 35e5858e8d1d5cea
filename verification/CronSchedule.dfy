/** `spec.schedule` as the instants at which a run is scheduled (src/reconcile/schedule.rs). */
module CronSchedule {
  import opened Wrappers
  import opened Numbers
  import opened Seqs
  import DayOfWeek

  /** Whole seconds since the epoch. */
  type Instant = int

  const SPACES: set<char> := {
    ' ', '\t', '\n', '\U{0B}', '\U{0C}', '\r', '\U{85}', '\U{A0}', '\U{1680}',
    '\U{2000}', '\U{2001}', '\U{2002}', '\U{2003}', '\U{2004}', '\U{2005}', '\U{2006}', '\U{2007}',
    '\U{2008}', '\U{2009}', '\U{200A}', '\U{2028}', '\U{2029}', '\U{202F}', '\U{205F}', '\U{3000}'}

  predicate IsToken(s: string) {
    s != "" && forall i :: 0 <= i < |s| ==> s[i] !in SPACES
  }

  function TrimStart(s: string): string {
    if s != "" && s[0] in SPACES then TrimStart(s[1..]) else s
  }

  function TrimEnd(s: string): string {
    if s != "" && s[|s| - 1] in SPACES then TrimEnd(s[..|s| - 1]) else s
  }

  function Trim(s: string): string {
    TrimEnd(TrimStart(s))
  }

  /** The length of the token `s` starts with. */
  function TokenLength(s: string): (n: nat)
    ensures n <= |s|
    ensures s != "" && s[0] !in SPACES ==> n > 0
  {
    if s == "" || s[0] in SPACES then 0 else 1 + TokenLength(s[1..])
  }

  /** `split_whitespace`. */
  function Tokens(s: string): seq<string>
    decreases |s|
  {
    if s == "" then []
    else if s[0] in SPACES then Tokens(s[1..])
    else [s[..TokenLength(s)]] + Tokens(s[TokenLength(s)..])
  }

  /** The parts of a field that say how often, and whether it restricts the days at all. */
  predicate IsRestricted(field: string) {
    !HasAny(Split(field, ','))
  }

  predicate HasAny(items: seq<string>) {
    exists i :: 0 <= i < |items| && IsAny(items[i])
  }

  predicate IsAny(item: string) {
    var split := DayOfWeek.SplitOnce(item, '/');
    var (base, step) := if split.Some? then split.value else (item, "1");
    (base == "*" || base == "?") && step == "1"
  }

  /** Standard cron fields as the `cron` crate wants them: seconds first, days by name. */
  ghost function ToSixField(schedule: string): string {
    var trimmed := Trim(schedule);
    if trimmed != "" && trimmed[0] == '@' then trimmed
    else
      var fields := Tokens(trimmed);
      if |fields| != 5 then "0 " + trimmed
      else "0 " + Join(fields[4 := DayOfWeek.Rewritten(fields[4])], ' ')
  }

  /** One or two schedules that together fire when `schedule` should. */
  ghost function Parts(schedule: string): seq<string> {
    var trimmed := Trim(schedule);
    var f := Tokens(trimmed);
    if |f| == 5 && !(trimmed != "" && trimmed[0] == '@') && IsRestricted(f[2]) && IsRestricted(f[4]) then
      [ToSixField(Join(AnyWeekday(f), ' ')), ToSixField(Join(AnyMonthday(f), ' '))]
    else [ToSixField(trimmed)]
  }

  /** The `cron` crate: which texts it takes, when they fire, and the next firing after an instant. */
  datatype Crate = Crate(
    accepts: string -> bool,
    fires: (string, Instant) -> bool,
    next: (string, Instant) -> Option<Instant>,
    matches: (nat, string, Instant) -> bool,
    covers: Instant -> bool)
  {
    /** Six fields, the seconds being 0, fire when every field matches, in the years that the crate covers. */
    ghost predicate ReadsFields(f: seq<string>, t: Instant) {
      |f| == 5 && AreTokens(f) ==>
        (fires("0 " + Join(f, ' '), t) <==>
           covers(t) && t % 60 == 0 && matches(0, f[0], t) && matches(1, f[1], t) && matches(2, f[2], t)
           && matches(3, f[3], t) && matches(4, f[4], t))
    }

    /** `r` is the first instant after `t` at which `text` fires, if there is one. */
    ghost predicate IsNext(text: string, t: Instant, r: Option<Instant>) {
      match r
      case None => forall u :: u > t ==> !fires(text, u)
      case Some(v) => v > t && fires(text, v) && forall u :: t < u < v ==> !fires(text, u)
    }

    /** The crate's own contract: it reads six fields, `*` always matches, and `next` is the least. */
    ghost predicate Valid() {
      && (forall f, t :: ReadsFields(f, t))
      && (forall t :: matches(2, "*", t))
      && (forall t :: matches(4, "*", t))
      && (forall text, t :: IsNext(text, t, next(text, t)))
    }

    /** A list of day names matches on those days. */
    ghost predicate NamesDays() {
      forall days: DayOfWeek.Days, t :: days != {} && (forall d <- days :: d < 7) ==>
        (matches(4, Join(DayOfWeek.NamesFrom(days, 0), ','), t) <==> Weekday(t) in days)
    }
  }

  /** The day of the week in UTC, 0 being Sunday: the epoch began on a Thursday. */
  function Weekday(t: Instant): nat {
    (t / 86400 + 4) % 7
  }

  predicate AreTokens(f: seq<string>) {
    forall i :: 0 <= i < |f| ==> IsToken(f[i])
  }

  /** Whether any of the parts fires. */
  predicate Fires(c: Crate, parts: seq<string>, t: Instant) {
    exists i :: 0 <= i < |parts| && c.fires(parts[i], t)
  }

  function Earliest(a: Option<Instant>, b: Option<Instant>): Option<Instant> {
    if a.None? then b else if b.None? then a else if a.value <= b.value then a else b
  }

  function NextAfter(c: Crate, parts: seq<string>, t: Instant): Option<Instant> {
    if parts == [] then None else Earliest(c.next(parts[0], t), NextAfter(c, parts[1..], t))
  }

  /** `next_after` is the least instant of the union. */
  lemma {:induction false} NextIsLeast(c: Crate, parts: seq<string>, t: Instant)
    requires c.Valid()
    ensures var next := NextAfter(c, parts, t);
      && (next.None? ==> forall u :: u > t ==> !Fires(c, parts, u))
      && (next.Some? ==> next.value > t && Fires(c, parts, next.value) && forall u :: t < u < next.value ==> !Fires(c, parts, u))
  {
    if parts != [] {
      NextIsLeast(c, parts[1..], t);
      assert c.IsNext(parts[0], t, c.next(parts[0], t));
      forall u ensures Fires(c, parts, u) <==> c.fires(parts[0], u) || Fires(c, parts[1..], u) {
        FiresSplit(c, parts, u);
      }
    }
  }

  lemma FiresSplit(c: Crate, parts: seq<string>, u: Instant)
    requires parts != []
    ensures Fires(c, parts, u) <==> c.fires(parts[0], u) || Fires(c, parts[1..], u)
  {
    if Fires(c, parts, u) {
      var i :| 0 <= i < |parts| && c.fires(parts[i], u);
      assert i > 0 ==> parts[1..][i - 1] == parts[i];
    }
    if Fires(c, parts[1..], u) {
      var i :| 0 <= i < |parts[1..]| && c.fires(parts[1..][i], u);
      assert parts[1..][i] == parts[i + 1];
    }
  }

  /** Whether a run is due, as the scheduler decides it. */
  function IsDue(c: Crate, parts: seq<string>, last: Instant, now: Instant, deadline: Option<int>): bool {
    var start := if deadline.Some? then Max(last, now - (deadline.value + 1)) else last;
    var next := NextAfter(c, parts, start);
    next.Some? && next.value <= now
  }

  /** Due means some instant fired since the last run that is at most `deadline` seconds old. */
  lemma DueMeansMissed(c: Crate, parts: seq<string>, last: Instant, now: Instant, deadline: Option<int>)
    requires c.Valid()
    ensures IsDue(c, parts, last, now, deadline) <==>
      exists t :: last < t <= now && (deadline.Some? ==> now - t <= deadline.value) && Fires(c, parts, t)
  {
    var start := if deadline.Some? then Max(last, now - (deadline.value + 1)) else last;
    NextIsLeast(c, parts, start);
    if IsDue(c, parts, last, now, deadline) {
      var t := NextAfter(c, parts, start).value;
      assert last < t <= now && (deadline.Some? ==> now - t <= deadline.value) && Fires(c, parts, t);
    }
  }

  // Day-of-month and day-of-week.

  lemma {:induction false} TokenLengthOf(token: string, rest: string)
    requires forall i :: 0 <= i < |token| ==> token[i] !in SPACES
    requires rest == "" || rest[0] in SPACES
    ensures TokenLength(token + rest) == |token|
  {
    if token != "" {
      assert (token + rest)[1..] == token[1..] + rest;
      TokenLengthOf(token[1..], rest);
    } else {
      assert token + rest == rest;
    }
  }

  /** Fields written with single spaces between them are read back. */
  lemma {:induction false} TokensJoin(fields: seq<string>)
    requires AreTokens(fields)
    ensures Tokens(Join(fields, ' ')) == fields
  {
    if fields != [] {
      var (token, rest) := (fields[0], if |fields| == 1 then "" else [' '] + Join(fields[1..], ' '));
      var s := token + rest;
      assert Join(fields, ' ') == s by {
        if |fields| > 1 {
          Assoc(token, [' '], Join(fields[1..], ' '));
        }
      }
      TokenLengthOf(token, rest);
      assert s[..|token|] == token && s[|token|..] == rest;
      assert s[0] == token[0];
      TokensJoin(fields[1..]);
      if |fields| > 1 {
        assert rest[1..] == Join(fields[1..], ' ');
        assert Tokens(rest) == Tokens(rest[1..]);
      }
      assert [fields[0]] + fields[1..] == fields;
    }
  }

  lemma {:induction false} TokensAreTokens(s: string)
    ensures AreTokens(Tokens(s))
    decreases |s|
  {
    if s != "" {
      if s[0] in SPACES {
        TokensAreTokens(s[1..]);
      } else {
        TokensAreTokens(s[TokenLength(s)..]);
        TokenIsToken(s);
      }
    }
  }

  lemma {:induction false} TokenIsToken(s: string)
    requires s != "" && s[0] !in SPACES
    ensures IsToken(s[..TokenLength(s)])
  {
    if |s| > 1 && s[1] !in SPACES {
      TokenIsToken(s[1..]);
      assert s[..TokenLength(s)] == [s[0]] + s[1..][..TokenLength(s[1..])];
    } else {
      assert TokenLength(s[1..]) == 0;
    }
  }

  /** A text that begins and ends outside the spaces is trimmed. */
  lemma TrimOfTrimmed(s: string)
    requires s != "" ==> s[0] !in SPACES && s[|s| - 1] !in SPACES
    ensures Trim(s) == s
  {
  }

  lemma {:induction false} JoinEnds(fields: seq<string>)
    requires fields != [] && AreTokens(fields)
    ensures var s := Join(fields, ' ');
      s != "" && IsToken(fields[0]) && s[0] == fields[0][0] && s[|s| - 1] !in SPACES
  {
    assert IsToken(fields[0]);
    if |fields| > 1 {
      JoinEnds(fields[1..]);
    }
  }

  lemma {:induction false} TrimEndSpec(s: string)
    ensures var r := TrimEnd(s);
      |r| <= |s| && r == s[..|r|] && (r != "" ==> r[|r| - 1] !in SPACES)
  {
    if s != "" && s[|s| - 1] in SPACES {
      TrimEndSpec(s[..|s| - 1]);
    }
  }

  lemma {:induction false} TrimStartSpec(s: string)
    ensures TrimStart(s) != "" ==> TrimStart(s)[0] !in SPACES
  {
    if s != "" && s[0] in SPACES {
      TrimStartSpec(s[1..]);
    }
  }

  lemma TrimTwice(s: string)
    ensures Trim(Trim(s)) == Trim(s)
    ensures Trim(s) != "" ==> Trim(s)[0] !in SPACES
  {
    TrimStartSpec(s);
    TrimEndSpec(TrimStart(s));
    TrimOfTrimmed(Trim(s));
  }

  /** The text of five fields becomes the crate's six, with the days named. */
  lemma SixFieldOf(f: seq<string>)
    requires |f| == 5 && AreTokens(f) && f[0][..1] != "@"
    ensures ToSixField(Join(f, ' ')) == "0 " + Join(f[4 := DayOfWeek.Rewritten(f[4])], ' ')
  {
    JoinEnds(f);
    TrimOfTrimmed(Join(f, ' '));
    TokensJoin(f);
  }

  /** The instants a schedule names, day fields aside. */
  predicate TimeMatches(c: Crate, f: seq<string>, t: Instant)
    requires |f| == 5
  {
    c.covers(t) && t % 60 == 0 && c.matches(0, f[0], t) && c.matches(1, f[1], t) && c.matches(3, f[3], t)
  }

  lemma PartFires(c: Crate, f: seq<string>, t: Instant)
    requires c.Valid() && |f| == 5 && AreTokens(f) && f[0][..1] != "@"
    requires IsToken(DayOfWeek.Rewritten(f[4]))
    ensures c.fires(ToSixField(Join(f, ' ')), t) <==>
      TimeMatches(c, f, t) && c.matches(2, f[2], t) && c.matches(4, DayOfWeek.Rewritten(f[4]), t)
  {
    var g := f[4 := DayOfWeek.Rewritten(f[4])];
    SixFieldOf(f);
    assert c.ReadsFields(g, t);
    assert AreTokens(g);
  }

  lemma {:induction false} JoinIsToken(names: seq<string>)
    requires names != [] && AreTokens(names)
    ensures IsToken(Join(names, ','))
  {
    assert IsToken(names[0]);
    if |names| > 1 {
      JoinIsToken(names[1..]);
    }
  }

  lemma NameIsToken(d: nat)
    requires d < 7
    ensures IsToken(DayOfWeek.DAY_NAMES[d])
  {
    var name := DayOfWeek.DAY_NAMES[d];
    forall i | 0 <= i < |name| ensures name[i] !in SPACES {
      assert 'A' <= name[i] <= 'Z';
    }
  }

  lemma {:induction false} NamesAreTokens(days: DayOfWeek.Days, from: nat)
    requires from <= 7
    ensures AreTokens(DayOfWeek.NamesFrom(days, from))
    decreases 7 - from
  {
    if from < 7 {
      NamesAreTokens(days, from + 1);
      NameIsToken(from);
    }
  }

  lemma RewrittenToken(field: string)
    requires IsToken(field)
    ensures IsToken(DayOfWeek.Rewritten(field))
  {
    var parsed := DayOfWeek.ParseItems(Split(field, ','));
    if field != "*" && field != "?" && parsed.Some? {
      var days := DayOfWeek.AllDays(parsed.value);
      DayOfWeek.RewrittenIsNames(field, parsed.value);
      var d :| d in days;
      DayOfWeek.NamesNotEmpty(days, 0, d);
      NamesAreTokens(days, 0);
      JoinIsToken(DayOfWeek.NamesFrom(days, 0));
    }
  }

  lemma FirstToken(s: string)
    requires s != "" && s[0] !in SPACES
    ensures Tokens(s) != [] && Tokens(s)[0][..1] == s[..1]
  {
    assert Tokens(s)[0] == s[..TokenLength(s)];
  }

  /**
   * A standard schedule fires at an instant if and only if minute, hour and month match and, when both day
   * fields restrict the days, either of them matches, else both do; with the days of the week as POSIX
   * numbers them.
   */
  lemma EitherDayRule(c: Crate, schedule: string, t: Instant)
    requires c.Valid() && Trim(schedule) != ""
    requires Trim(schedule)[..1] != "@" && |Tokens(Trim(schedule))| == 5
    ensures var f := Tokens(Trim(schedule));
      var dayOfMonth := c.matches(2, f[2], t);
      var dayOfWeek := c.matches(4, DayOfWeek.Rewritten(f[4]), t);
      Fires(c, Parts(schedule), t) <==>
        TimeMatches(c, f, t)
        && if IsRestricted(f[2]) && IsRestricted(f[4]) then dayOfMonth || dayOfWeek else dayOfMonth && dayOfWeek
  {
    var trimmed := Trim(schedule);
    var f := Tokens(trimmed);
    TrimTwice(schedule);
    FirstToken(trimmed);
    TokensAreTokens(trimmed);
    assert IsToken(f[4]);
    RewrittenToken(f[4]);
    if IsRestricted(f[2]) && IsRestricted(f[4]) {
      PartsSplit(schedule);
      EitherDay(c, f, t);
    } else {
      BothDays(c, schedule, t);
    }
  }

  /** The days of the week are the union of what the items of their field name. */
  lemma WeekdayMatches(c: Crate, field: string, items: seq<DayOfWeek.Item>, t: Instant)
    requires c.NamesDays() && field != "*" && field != "?" && DayOfWeek.ParseItems(Split(field, ',')) == Some(items)
    ensures c.matches(4, DayOfWeek.Rewritten(field), t) <==> DayOfWeek.InSome(items, Weekday(t))
  {
    DayOfWeek.RewrittenIsNames(field, items);
    DayOfWeek.AllDaysAre(items, Weekday(t));
  }

  /** A standard schedule with numbered or named days of the week, on any instant: what its items say, by the either-day rule. */
  lemma WeekdayRule(c: Crate, schedule: string, t: Instant, items: seq<DayOfWeek.Item>)
    requires c.Valid() && c.NamesDays() && Trim(schedule) != ""
    requires Trim(schedule)[..1] != "@" && |Tokens(Trim(schedule))| == 5
    requires var days := Tokens(Trim(schedule))[4];
      days != "*" && days != "?" && DayOfWeek.ParseItems(Split(days, ',')) == Some(items)
    ensures var f := Tokens(Trim(schedule));
      var dayOfMonth := c.matches(2, f[2], t);
      var dayOfWeek := DayOfWeek.InSome(items, Weekday(t));
      Fires(c, Parts(schedule), t) <==>
        TimeMatches(c, f, t)
        && if IsRestricted(f[2]) && IsRestricted(f[4]) then dayOfMonth || dayOfWeek else dayOfMonth && dayOfWeek
  {
    EitherDayRule(c, schedule, t);
    WeekdayMatches(c, Tokens(Trim(schedule))[4], items, t);
  }

  function AnyWeekday(f: seq<string>): seq<string>
    requires |f| == 5
  {
    [f[0], f[1], f[2], f[3], "*"]
  }

  function AnyMonthday(f: seq<string>): seq<string>
    requires |f| == 5
  {
    [f[0], f[1], "*", f[3], f[4]]
  }

  lemma StarsAreTokens(f: seq<string>)
    requires |f| == 5 && AreTokens(f)
    ensures AreTokens(AnyWeekday(f)) && AreTokens(AnyMonthday(f)) && IsToken("*")
  {
    assert IsToken("*");
    forall i | 0 <= i < 5 ensures IsToken(AnyWeekday(f)[i]) && IsToken(AnyMonthday(f)[i]) {
      assert IsToken(f[i]);
    }
  }

  lemma AnyWeekdayFires(c: Crate, f: seq<string>, t: Instant)
    requires c.Valid() && |f| == 5 && AreTokens(AnyWeekday(f)) && IsToken(f[0]) && f[0][..1] != "@" && IsToken("*")
    ensures c.fires(ToSixField(Join(AnyWeekday(f), ' ')), t) <==> TimeMatches(c, f, t) && c.matches(2, f[2], t)
  {
    PartFires(c, AnyWeekday(f), t);
  }

  lemma AnyMonthdayFires(c: Crate, f: seq<string>, t: Instant)
    requires c.Valid() && |f| == 5 && AreTokens(AnyMonthday(f)) && IsToken(f[0]) && f[0][..1] != "@" && IsToken(DayOfWeek.Rewritten(f[4]))
    ensures c.fires(ToSixField(Join(AnyMonthday(f), ' ')), t) <==>
      TimeMatches(c, f, t) && c.matches(4, DayOfWeek.Rewritten(f[4]), t)
  {
    PartFires(c, AnyMonthday(f), t);
  }

  /** The two schedules of five fields whose day fields both restrict the days. */
  lemma EitherDay(c: Crate, f: seq<string>, t: Instant)
    requires c.Valid() && |f| == 5 && AreTokens(f) && f[0][..1] != "@" && IsToken(DayOfWeek.Rewritten(f[4]))
    ensures Fires(c, [ToSixField(Join(AnyWeekday(f), ' ')), ToSixField(Join(AnyMonthday(f), ' '))], t) <==>
      TimeMatches(c, f, t) && (c.matches(2, f[2], t) || c.matches(4, DayOfWeek.Rewritten(f[4]), t))
  {
    StarsAreTokens(f);
    AnyWeekdayFires(c, f, t);
    AnyMonthdayFires(c, f, t);
    TwoParts(c, ToSixField(Join(AnyWeekday(f), ' ')), ToSixField(Join(AnyMonthday(f), ' ')), t);
  }

  lemma BothDays(c: Crate, schedule: string, t: Instant)
    requires c.Valid() && Trim(schedule) != "" && Trim(schedule)[..1] != "@"
    requires Trim(Trim(schedule)) == Trim(schedule)
    requires var f := Tokens(Trim(schedule));
      && |f| == 5 && AreTokens(f)
      && !(IsRestricted(f[2]) && IsRestricted(f[4])) && IsToken(DayOfWeek.Rewritten(f[4]))
    ensures var f := Tokens(Trim(schedule));
      Fires(c, Parts(schedule), t) <==>
        TimeMatches(c, f, t) && c.matches(2, f[2], t) && c.matches(4, DayOfWeek.Rewritten(f[4]), t)
  {
    var f := Tokens(Trim(schedule));
    var g := f[4 := DayOfWeek.Rewritten(f[4])];
    assert AreTokens(g) && c.ReadsFields(g, t);
    OnePart(c, Parts(schedule), t);
  }

  lemma PartsSplit(schedule: string)
    requires Trim(schedule) != "" && Trim(schedule)[..1] != "@"
    requires var f := Tokens(Trim(schedule)); |f| == 5 && IsRestricted(f[2]) && IsRestricted(f[4])
    ensures var f := Tokens(Trim(schedule));
      Parts(schedule) ==
        [ToSixField(Join(AnyWeekday(f), ' ')), ToSixField(Join(AnyMonthday(f), ' '))]
  {
  }

  lemma TwoParts(c: Crate, p: string, q: string, t: Instant)
    ensures Fires(c, [p, q], t) <==> c.fires(p, t) || c.fires(q, t)
  {
    var parts := [p, q];
    assert parts[0] == p && parts[1] == q;
  }

  lemma OnePart(c: Crate, parts: seq<string>, t: Instant)
    requires |parts| == 1
    ensures Fires(c, parts, t) <==> c.fires(parts[0], t)
  {
  }
}

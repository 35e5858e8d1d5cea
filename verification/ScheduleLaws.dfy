/** What the items of a day-of-week field are read as, and which schedules are rewritten how (src/reconcile/schedule.rs). */
module ScheduleLaws {
  import opened Wrappers
  import opened Seqs
  import opened DayOfWeek
  import opened CronSchedule

  // Numbers and days.

  function Digit(d: nat): char
    requires d < 10
  {
    '0' + d as char
  }

  function Decimal(n: nat): string {
    if n < 10 then [Digit(n)] else Decimal(n / 10) + [Digit(n % 10)]
  }

  lemma {:induction false} DigitsSnoc(s: string, d: nat, n: nat)
    requires d < 10 && DigitsFrom(s, n).Some?
    ensures DigitsFrom(s + [Digit(d)], n) == Some(DigitsFrom(s, n).value * 10 + d)
  {
    if s == "" {
      assert (s + [Digit(d)])[1..] == "" && s + [Digit(d)] == [Digit(d)];
    } else {
      assert (s + [Digit(d)])[1..] == s[1..] + [Digit(d)];
      DigitsSnoc(s[1..], d, n * 10 + (s[0] - '0') as nat);
    }
  }

  lemma {:induction false} DecimalDigits(n: nat)
    ensures DigitsFrom(Decimal(n), 0) == Some(n) && Decimal(n) != "" && '0' <= Decimal(n)[0] <= '9'
  {
    if n < 10 {
      assert [Digit(n)][1..] == "";
    } else {
      DecimalDigits(n / 10);
      DigitsSnoc(Decimal(n / 10), n % 10, 0);
    }
  }

  /** Numbers are read in decimal. */
  lemma NumberRead(n: nat)
    ensures ParseUsize(Decimal(n)) == if n < 0x1_0000_0000_0000_0000 then Some(n) else None
  {
    DecimalDigits(n);
  }

  /** Days are numbered from 0, which is Sunday, to 7, which is Sunday again. */
  lemma DayNumbered(n: nat)
    requires n <= 7
    ensures Day(Decimal(n)) == Some(if n == 7 then 0 else n)
  {
    NumberRead(n);
  }

  /** `s` is the name in capitals, small letters or a mixture. */
  predicate Spells(s: string, name: string) {
    |s| == |name| && forall i :: 0 <= i < |s| ==> s[i] == name[i] || s[i] as int == name[i] as int + 32
  }

  lemma Spelled(s: string, d: nat)
    requires d < 7 && Spells(s, DAY_NAMES[d])
    ensures EqIgnoreAsciiCase(DAY_NAMES[d], s)
  {
    var name := DAY_NAMES[d];
    assert |name| == 3 && 'A' <= name[0] <= 'Z' && 'A' <= name[1] <= 'Z' && 'A' <= name[2] <= 'Z';
    forall i | 0 <= i < |name| ensures Upper(name[i]) == Upper(s[i]) {
      assert 'A' <= name[i] <= 'Z';
    }
  }

  lemma SameSpelling(a: string, b: string, s: string)
    requires EqIgnoreAsciiCase(a, s) && EqIgnoreAsciiCase(b, s)
    ensures EqIgnoreAsciiCase(a, b)
  {
  }

  lemma {:induction false} NameFound(s: string, d: nat, from: nat)
    requires from <= d < 7 && EqIgnoreAsciiCase(DAY_NAMES[d], s)
    ensures NamedDay(s, from) == Some(d)
    decreases d - from
  {
    if from < d {
      NamesDiffer(from, d);
      if EqIgnoreAsciiCase(DAY_NAMES[from], s) {
        SameSpelling(DAY_NAMES[from], DAY_NAMES[d], s);
        assert false;
      }
      NameFound(s, d, from + 1);
    }
  }

  lemma {:induction false} NoMoreNames(d: nat, from: nat)
    requires d < from <= 7
    ensures NamesFrom({d}, from) == []
    decreases 7 - from
  {
    if from < 7 {
      NoMoreNames(d, from + 1);
    }
  }

  function Abbreviation(d: nat): string
    requires d < 7
  {
    if d == 0 then "SUN" else if d == 1 then "MON" else if d == 2 then "TUE" else if d == 3 then "WED"
    else if d == 4 then "THU" else if d == 5 then "FRI" else "SAT"
  }

  /** Or go by their names, which are the names they are written with. */
  lemma DayNamed(s: string, d: nat)
    requires d < 7 && Spells(s, Abbreviation(d))
    ensures Day(s) == Some(d)
    ensures NamesFrom({d}, d) == [Abbreviation(d)]
  {
    assert DAY_NAMES[d] == Abbreviation(d);
    NoMoreNames(d, d + 1);
    Spelled(s, d);
    NameFound(s, d, 0);
    assert DAY_NAMES[d][0] in {'S', 'M', 'T', 'W', 'F'};
    assert !('0' <= s[0] <= '9') && s[0] != '+';
    assert DigitsFrom(s, 0) == None;
  }

  // Items.

  lemma SplitNone(s: string, c: char)
    requires Without(s, c)
    ensures SplitOnce(s, c) == None
  {
    IndexOfSpec(s, c);
  }

  lemma SplitAt(a: string, c: char, b: string)
    requires Without(a, c)
    ensures SplitOnce(a + [c] + b, c) == Some((a, b))
  {
    var s := a + [c] + b;
    assert s[..|a|] == a && s[|a| + 1..] == b;
    IndexOfIs(s, c, |a|);
  }

  /** What the part of an item before a step says: the first and the last day; `open` if a single day runs on to Saturday. */
  function Range(base: string, open: bool): Option<(nat, nat)> {
    if base == "*" then Some((0, 6))
    else
      match Day(base)
      case None => None
      case Some(n) => Some((n, if open then 6 else n))
  }

  /** A range runs from the day before the dash to the day behind it. */
  lemma RangeRead(a: string, b: string)
    requires Without(a, '-') && Without(a, '/') && Without(b, '/')
    ensures ParseItem(a + ['-'] + b) ==
      if Day(a).Some? && Day(b).Some? then Some(Item(Day(a).value, Day(b).value, 1)) else None
  {
    var item := a + ['-'] + b;
    SplitNone(item, '/');
    SplitAt(a, '-', b);
    assert item[|a|] == '-';
  }

  /** Without a dash, an item is every day, or the one day it says. */
  lemma SingleRead(base: string)
    requires Without(base, '-') && Without(base, '/')
    ensures ParseItem(base) == if Range(base, false).Some? then Some(Item(Range(base, false).value.0, Range(base, false).value.1, 1)) else None
  {
    SplitNone(base, '/');
    SplitNone(base, '-');
  }

  /** With a step, it is every so manieth of them, and a single day is the first of those up to Saturday. */
  lemma SteppedRead(base: string, n: nat)
    requires Without(base, '-') && Without(base, '/')
    ensures ParseItem(base + ['/'] + Decimal(n)) ==
      if 0 < n < 0x1_0000_0000_0000_0000 && Range(base, true).Some?
      then Some(Item(Range(base, true).value.0, Range(base, true).value.1, n)) else None
  {
    NumberRead(n);
    SplitAt(base, '/', Decimal(n));
    SplitNone(base, '-');
  }

  lemma SteppedRangeRead(a: string, b: string, n: nat)
    requires Without(a, '-') && Without(a, '/') && Without(b, '/')
    ensures ParseItem(a + ['-'] + b + ['/'] + Decimal(n)) ==
      if 0 < n < 0x1_0000_0000_0000_0000 && Day(a).Some? && Day(b).Some? then Some(Item(Day(a).value, Day(b).value, n)) else None
  {
    var base := a + ['-'] + b;
    NumberRead(n);
    SplitAt(base, '/', Decimal(n));
    SplitAt(a, '-', b);
    assert base[|a|] == '-';
  }

  lemma {:induction false} ItemRead(items: seq<string>, i: nat)
    requires i < |items|
    ensures ParseItems(items).Some? ==>
      |ParseItems(items).value| == |items| && ParseItem(items[i]) == Some(ParseItems(items).value[i])
  {
    if i > 0 {
      ItemRead(items[1..], i - 1);
    } else if |items| > 1 {
      ItemRead(items[1..], 0);
    }
  }

  lemma {:induction false} ItemRefused(items: seq<string>) returns (i: nat)
    requires ParseItems(items).None?
    ensures i < |items| && ParseItem(items[i]).None?
  {
    i := 0;
    if ParseItem(items[0]).Some? {
      var rest := ItemRefused(items[1..]);
      i := rest + 1;
    }
  }

  /** The items of a field are read one by one, or not at all. */
  lemma ItemsRead(items: seq<string>)
    ensures ParseItems(items).Some? <==> forall i :: 0 <= i < |items| ==> ParseItem(items[i]).Some?
    ensures ParseItems(items).Some? ==>
      |ParseItems(items).value| == |items| && forall i :: 0 <= i < |items| ==> ParseItem(items[i]) == Some(ParseItems(items).value[i])
  {
    if ParseItems(items).None? {
      var i := ItemRefused(items);
    } else {
      forall i | 0 <= i < |items|
        ensures |ParseItems(items).value| == |items| && ParseItem(items[i]) == Some(ParseItems(items).value[i])
      {
        ItemRead(items, i);
      }
    }
  }

  /** A field with an item that is not understood stays as it is; so do `*` and `?`. */
  lemma NotUnderstood(field: string, i: nat)
    requires field in {"*", "?"} || (i < |Split(field, ',')| && ParseItem(Split(field, ',')[i]).None?)
    ensures Rewritten(field) == field
  {
    ItemsRead(Split(field, ','));
  }

  // Schedules.

  predicate IsOpen(item: string) {
    item == "*" || item == "?" || item == "*/1" || item == "?/1"
  }

  predicate HasOpen(items: seq<string>) {
    exists i :: 0 <= i < |items| && IsOpen(items[i])
  }

  /** A day field leaves the days open exactly if an item of it is `*` or `?`, alone or with a step of 1. */
  lemma RestrictedExactly(field: string)
    ensures IsRestricted(field) <==> !HasOpen(Split(field, ','))
  {
    var items := Split(field, ',');
    forall i | 0 <= i < |items| ensures IsAny(items[i]) <==> IsOpen(items[i]) {
      AnyExactly(items[i]);
    }
  }

  lemma AnyExactly(item: string)
    ensures IsAny(item) <==> IsOpen(item)
  {
    IndexOfSpec(item, '/');
    if IndexOf(item, '/').Some? {
      var i := IndexOf(item, '/').value;
      assert item == item[..i] + ['/'] + item[i + 1..];
    }
    assert "*/1" == "*" + ['/'] + "1" && "?/1" == "?" + ['/'] + "1";
    SplitAt("*", '/', "1");
    SplitAt("?", '/', "1");
    SplitNone("*", '/');
    SplitNone("?", '/');
  }

  /** Trimming takes away the spaces at both ends, and nothing else. */
  lemma TrimmedExactly(s: string) returns (i: nat, j: nat)
    ensures i <= j <= |s| && Trim(s) == s[i..j]
    ensures forall k :: 0 <= k < |s| && !(i <= k < j) ==> s[k] in SPACES
    ensures i < j ==> s[i] !in SPACES && s[j - 1] !in SPACES
  {
    i := StartOf(s);
    var rest := s[i..];
    var n := EndOf(rest);
    j := i + n;
    assert Trim(s) == rest[..n] == s[i..j];
    forall k | 0 <= k < |s| && !(i <= k < j) ensures s[k] in SPACES {
      if k >= j {
        assert s[k] == rest[k - i];
      }
    }
    if i < j {
      assert s[i] == rest[0] && s[j - 1] == rest[n - 1];
    }
  }

  lemma {:induction false} StartOf(s: string) returns (i: nat)
    ensures i <= |s| && TrimStart(s) == s[i..]
    ensures (forall k :: 0 <= k < i ==> s[k] in SPACES) && (i < |s| ==> s[i] !in SPACES)
  {
    i := 0;
    if s != "" && s[0] in SPACES {
      i := StartOf(s[1..]);
      forall k | 1 <= k <= i ensures s[k] in SPACES {
        assert s[k] == s[1..][k - 1];
      }
      i := i + 1;
    }
  }

  lemma {:induction false} EndOf(s: string) returns (j: nat)
    ensures j <= |s| && TrimEnd(s) == s[..j]
    ensures (forall k :: j <= k < |s| ==> s[k] in SPACES) && (j > 0 ==> s[j - 1] !in SPACES)
  {
    j := |s|;
    if s != "" && s[|s| - 1] in SPACES {
      j := EndOf(s[..|s| - 1]);
    }
  }

  /** Descriptors pass unchanged; anything else that has not five fields is left to the parser with seconds in front. */
  lemma OthersPass(schedule: string)
    requires var s := Trim(schedule); (s != "" && s[0] == '@') || |Tokens(s)| != 5
    ensures var s := Trim(schedule);
      Parts(schedule) == [if s != "" && s[0] == '@' then s else "0 " + s]
  {
    TrimTwice(schedule);
  }
}

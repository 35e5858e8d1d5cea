/** POSIX day-of-week fields as lists of day names (src/reconcile/schedule.rs). */
module DayOfWeek {
  import opened Wrappers
  import opened Seqs

  const DAY_NAMES := ["SUN", "MON", "TUE", "WED", "THU", "FRI", "SAT"]

  /** Some days of the week, 0 being Sunday. */
  type Days = set<nat>

  // Reading a field.

  function DigitsFrom(s: string, n: nat): Option<nat> {
    if s == "" then Some(n)
    else if '0' <= s[0] <= '9' then DigitsFrom(s[1..], n * 10 + (s[0] - '0') as nat)
    else None
  }

  /** Rust's `parse::<usize>`: digits, perhaps after a `+`, below 2^64. */
  function ParseUsize(s: string): Option<nat> {
    var digits := if s != "" && s[0] == '+' then s[1..] else s;
    if digits == "" then None
    else
      match DigitsFrom(digits, 0)
      case Some(n) => if n < 0x1_0000_0000_0000_0000 then Some(n) else None
      case None => None
  }

  function Upper(c: char): char {
    if 'a' <= c <= 'z' then c - 'a' + 'A' else c
  }

  predicate EqIgnoreAsciiCase(a: string, b: string) {
    |a| == |b| && forall i :: 0 <= i < |a| ==> Upper(a[i]) == Upper(b[i])
  }

  function NamedDay(s: string, from: nat): (r: Option<nat>)
    requires from <= 7
    ensures r.Some? ==> r.value < 7
    decreases 7 - from
  {
    if from == 7 then None
    else if EqIgnoreAsciiCase(DAY_NAMES[from], s) then Some(from)
    else NamedDay(s, from + 1)
  }

  /** A day by number, 7 being Sunday too, or by name. */
  function Day(s: string): (r: Option<nat>)
    ensures r.Some? ==> r.value < 7
  {
    match ParseUsize(s)
    case Some(n) => if n <= 7 then Some(n % 7) else None
    case None => NamedDay(s, 0)
  }

  function SplitOnce(s: string, c: char): Option<(string, string)> {
    match IndexOf(s, c)
    case None => None
    case Some(i) => Some((s[..i], s[i + 1..]))
  }

  /** Every `step`-th day from `first` to `last`, perhaps past Saturday. */
  datatype Item = Item(first: nat, last: nat, step: nat)

  function ParseItem(item: string): (r: Option<Item>)
    ensures r.Some? ==> r.value.first < 7 && r.value.last < 7 && r.value.step > 0
  {
    var split := SplitOnce(item, '/');
    var base := if split.Some? then split.value.0 else item;
    var parsed := if split.Some? then ParseUsize(split.value.1) else Some(1);
    if parsed.None? || parsed.value == 0 then None
    else
      var step := parsed.value;
      if base == "*" then Some(Item(0, 6, step))
      else
        match SplitOnce(base, '-')
        case Some((a, b)) =>
          if Day(a).Some? && Day(b).Some? then Some(Item(Day(a).value, Day(b).value, step)) else None
        case None =>
          match Day(base)
          case None => None
          case Some(n) => Some(Item(n, if split.Some? then 6 else n, step))
  }

  function ParseItems(items: seq<string>): Option<seq<Item>> {
    if items == [] then Some([])
    else
      var item := ParseItem(items[0]);
      var rest := ParseItems(items[1..]);
      if item.None? || rest.None? then None else Some([item.value] + rest.value)
  }

  // What a field means.

  /** How many days the range spans after its first. */
  function Span(item: Item): nat {
    (item.last - item.first) % 7
  }

  /** Day `d` is `k` steps after the first, within the range. */
  predicate AtStep(item: Item, k: nat, d: nat) {
    k * item.step <= Span(item) && d == (item.first + k * item.step) % 7
  }

  ghost predicate InItem(item: Item, d: nat) {
    exists k: nat :: AtStep(item, k, d)
  }

  ghost function ItemDays(item: Item): Days {
    set d: nat | d < 7 && InItem(item, d)
  }

  ghost function AllDays(items: seq<Item>): Days {
    if items == [] then {} else ItemDays(items[0]) + AllDays(items[1..])
  }

  /** Some item names day `d`. */
  ghost predicate InSome(items: seq<Item>, d: nat) {
    exists i :: 0 <= i < |items| && InItem(items[i], d)
  }

  /** The names of the days, in order from day `from`. */
  function NamesFrom(days: Days, from: nat): seq<string>
    requires from <= 7
    decreases 7 - from
  {
    if from == 7 then [] else (if from in days then [DAY_NAMES[from]] else []) + NamesFrom(days, from + 1)
  }

  /** What a field is rewritten to; what is not understood stays as it is. */
  ghost function Rewritten(field: string): string {
    if field == "*" || field == "?" then field
    else
      match ParseItems(Split(field, ','))
      case None => field
      case Some(items) => Join(NamesFrom(AllDays(items), 0), ',')
  }

  function DaysOf(days: seq<bool>): Days
    requires |days| == 7
  {
    set d: nat | d < 7 && days[d]
  }

  lemma {:induction false} AllDaysAre(items: seq<Item>, d: nat)
    requires d < 7
    ensures d in AllDays(items) <==> InSome(items, d)
  {
    if items != [] {
      AllDaysAre(items[1..], d);
      if InSome(items[1..], d) {
        var i :| 0 <= i < |items[1..]| && InItem(items[1..][i], d);
        assert InItem(items[i + 1], d);
      }
      if InSome(items, d) && !InItem(items[0], d) {
        var i :| 0 <= i < |items| && InItem(items[i], d);
        assert InItem(items[1..][i - 1], d);
      }
    }
  }

  lemma {:induction false} AllDaysSnoc(items: seq<Item>, item: Item)
    ensures AllDays(items + [item]) == AllDays(items) + ItemDays(item)
  {
    if items == [] {
      assert [item][1..] == [];
    } else {
      assert (items + [item])[1..] == items[1..] + [item];
      AllDaysSnoc(items[1..], item);
    }
  }

  lemma {:induction false} ParsePrefix(items: seq<string>, i: nat)
    requires i < |items| && ParseItems(items[..i]).Some?
    ensures ParseItem(items[i]).None? ==> ParseItems(items).None?
    ensures ParseItem(items[i]).Some? ==>
      ParseItems(items[..i + 1]) == Some(ParseItems(items[..i]).value + [ParseItem(items[i]).value])
  {
    if i > 0 {
      assert items[..i][1..] == items[1..][..i - 1] && items[..i + 1][1..] == items[1..][..i];
      ParsePrefix(items[1..], i - 1);
      if ParseItem(items[i]).Some? {
        Assoc([ParseItem(items[0]).value], ParseItems(items[1..][..i - 1]).value, [ParseItem(items[i]).value]);
      }
    } else {
      assert items[..1] == [items[0]] && [items[0]][1..] == [];
      if ParseItem(items[0]).Some? {
        var item := ParseItem(items[0]).value;
        assert ParseItems([items[0]]) == Some([item] + []);
        assert [item] + [] == [] + [item];
      }
    }
  }

  /** The days from `offset` on, one `step` at a time. */
  ghost function StepsFrom(item: Item, offset: nat): Days
    requires item.step > 0
    decreases Span(item) + item.step - offset
  {
    if offset > Span(item) then {} else {(item.first + offset) % 7} + StepsFrom(item, offset + item.step)
  }

  lemma MultiplesGrow(k: nat, j: nat, step: nat)
    requires k <= j
    ensures k * step <= j * step
  {
  }

  lemma NextMultiple(k: nat, step: nat)
    ensures (k + 1) * step == k * step + step
  {
  }

  /** A day that is stepped on is some number of steps away. */
  lemma {:induction false} SteppedOn(item: Item, k: nat, d: nat)
    requires item.step > 0 && d in StepsFrom(item, k * item.step)
    ensures exists j: nat :: AtStep(item, j, d)
    decreases Span(item) + item.step - k * item.step
  {
    NextMultiple(k, item.step);
    if d == (item.first + k * item.step) % 7 {
      assert AtStep(item, k, d);
    } else {
      SteppedOn(item, k + 1, d);
    }
  }

  /** A day some number of steps away is stepped on. */
  lemma {:induction false} StepsReach(item: Item, k: nat, j: nat, d: nat)
    requires item.step > 0 && k <= j && AtStep(item, j, d)
    ensures d in StepsFrom(item, k * item.step)
    decreases j - k
  {
    MultiplesGrow(k, j, item.step);
    NextMultiple(k, item.step);
    if k < j {
      StepsReach(item, k + 1, j, d);
    }
  }

  lemma StepsAreItemDays(item: Item)
    requires item.step > 0
    ensures StepsFrom(item, 0) == ItemDays(item)
  {
    assert 0 * item.step == 0;
    forall d: nat ensures d in StepsFrom(item, 0) <==> d in ItemDays(item) {
      if d in StepsFrom(item, 0) {
        SteppedOn(item, 0, d);
      }
      if InItem(item, d) {
        var j: nat :| AtStep(item, j, d);
        StepsReach(item, 0, j, d);
      }
    }
  }

  lemma DaysOfUpdate(days: seq<bool>, d: nat)
    requires |days| == 7 && d < 7
    ensures DaysOf(days[d := true]) == DaysOf(days) + {d}
  {
  }

  /** Sets the days of one item. */
  method MarkDays(item: Item, days: array<bool>)
    requires days.Length == 7 && item.first < 7 && item.last < 7 && item.step > 0
    modifies days
    ensures DaysOf(days[..]) == old(DaysOf(days[..])) + ItemDays(item)
  {
    var length := (item.last + 7 - item.first) % 7;
    var offset: nat := 0;
    ghost var marks, goal := days[..], DaysOf(days[..]) + ItemDays(item);
    MarksStart(marks, item);
    SpanWraps(item);
    while offset <= length
      invariant length == Span(item)
      invariant marks == days[..] && Marks(marks, item, offset, goal)
      decreases length + item.step - offset
    {
      var day := (item.first + offset) % 7;
      MarkOne(marks, item, offset, day, goal);
      days[day] := true;
      offset := offset + item.step;
      marks := marks[day := true];
    }
    MarksDone(marks, item, offset, goal);
  }

  /** Adding a week before taking the rest does not change it. */
  lemma SpanWraps(item: Item)
    requires item.first < 7 && item.last < 7
    ensures (item.last + 7 - item.first) % 7 == Span(item)
  {
    var difference := item.last - item.first;
    if difference >= 0 {
      assert (difference + 7) % 7 == difference;
    } else {
      assert difference % 7 == difference + 7;
    }
  }

  /** With the days from `offset` on, the marked ones make up `goal`. */
  ghost predicate Marks(days: seq<bool>, item: Item, offset: nat, goal: Days)
    requires item.step > 0
  {
    |days| == 7 && DaysOf(days) + StepsFrom(item, offset) == goal
  }

  lemma MarksStart(days: seq<bool>, item: Item)
    requires |days| == 7 && item.step > 0
    ensures Marks(days, item, 0, DaysOf(days) + ItemDays(item))
  {
    StepsAreItemDays(item);
  }

  lemma MarkOne(days: seq<bool>, item: Item, offset: nat, day: nat, goal: Days)
    requires item.step > 0 && offset <= Span(item) && Marks(days, item, offset, goal)
    requires day == (item.first + offset) % 7
    ensures Marks(days[day := true], item, offset + item.step, goal)
  {
    DaysOfUpdate(days, day);
    var (marked, rest) := (DaysOf(days), StepsFrom(item, offset + item.step));
    assert StepsFrom(item, offset) == {day} + rest;
    assert (marked + {day}) + rest == marked + ({day} + rest);
  }

  lemma MarksDone(days: seq<bool>, item: Item, offset: nat, goal: Days)
    requires item.step > 0 && offset > Span(item) && Marks(days, item, offset, goal)
    ensures DaysOf(days) == goal
  {
    assert DaysOf(days) + {} == DaysOf(days);
  }

  lemma NoneMarked(days: seq<bool>)
    requires |days| == 7 && forall d :: 0 <= d < 7 ==> !days[d]
    ensures DaysOf(days) == AllDays([])
  {
  }

  lemma RewrittenAs(field: string, items: seq<Item>)
    requires field != "*" && field != "?" && ParseItems(Split(field, ',')) == Some(items)
    ensures Rewritten(field) == Join(NamesFrom(AllDays(items), 0), ',')
  {
  }

  method DayOfWeekToNames(field: string) returns (r: string)
    ensures r == Rewritten(field)
  {
    if field == "*" || field == "?" {
      return field;
    }
    var days := new bool[7](_ => false);
    var items := Split(field, ',');
    ghost var parsed: seq<Item> := [];
    NoneMarked(days[..]);
    for i := 0 to |items|
      invariant ParseItems(items[..i]) == Some(parsed)
      invariant DaysOf(days[..]) == AllDays(parsed)
    {
      ParsePrefix(items, i);
      var item := ParseItem(items[i]);
      if item.None? {
        return field;
      }
      MarkDays(item.value, days);
      AllDaysSnoc(parsed, item.value);
      parsed := parsed + [item.value];
    }
    assert items[..|items|] == items;
    RewrittenAs(field, parsed);
    r := Join(NamesFrom(DaysOf(days[..]), 0), ',');
  }

  // Rewriting a rewritten field changes nothing.

  lemma NameParses(d: nat)
    requires d < 7
    ensures ParseItem(DAY_NAMES[d]) == Some(Item(d, d, 1))
    ensures Without(DAY_NAMES[d], ',') && DAY_NAMES[d] != "*" && DAY_NAMES[d] != "?"
  {
    var s := DAY_NAMES[d];
    IndexOfSpec(s, '/');
    IndexOfSpec(s, '-');
    assert ParseUsize(s) == None;
    assert s[0] == DAY_NAMES[d][0];
    NamedDayIs(d, 0);
  }

  lemma {:induction false} NamedDayIs(d: nat, from: nat)
    requires from <= d < 7
    ensures NamedDay(DAY_NAMES[d], from) == Some(d)
    decreases d - from
  {
    if from < d {
      NamesDiffer(from, d);
      NamedDayIs(d, from + 1);
    }
  }

  lemma NamesDiffer(a: nat, b: nat)
    requires a < b < 7
    ensures !EqIgnoreAsciiCase(DAY_NAMES[a], DAY_NAMES[b])
  {
    var (x, y) := (DAY_NAMES[a], DAY_NAMES[b]);
    assert Upper(x[0]) != Upper(y[0]) || Upper(x[1]) != Upper(y[1]);
  }

  lemma SingleDay(d: nat)
    requires d < 7
    ensures ItemDays(Item(d, d, 1)) == {d}
  {
    assert AtStep(Item(d, d, 1), 0, d);
  }

  lemma {:induction false} NamesWithoutComma(days: Days, from: nat)
    requires from <= 7
    ensures forall i :: 0 <= i < |NamesFrom(days, from)| ==> Without(NamesFrom(days, from)[i], ',')
    decreases 7 - from
  {
    if from < 7 {
      NamesWithoutComma(days, from + 1);
      NameParses(from);
    }
  }

  /** The names of days `from` and later, read back one by one. */
  function ItemsFrom(days: Days, from: nat): seq<Item>
    requires from <= 7
    decreases 7 - from
  {
    if from == 7 then [] else (if from in days then [Item(from, from, 1)] else []) + ItemsFrom(days, from + 1)
  }

  lemma {:induction false} NamesParse(days: Days, from: nat)
    requires from <= 7
    ensures ParseItems(NamesFrom(days, from)) == Some(ItemsFrom(days, from))
    decreases 7 - from
  {
    if from < 7 {
      NamesParse(days, from + 1);
      var rest := NamesFrom(days, from + 1);
      if from in days {
        NameParses(from);
        var names := [DAY_NAMES[from]] + rest;
        assert names[0] == DAY_NAMES[from] && names[1..] == rest;
      } else {
        assert [] + rest == rest;
        assert [] + ItemsFrom(days, from + 1) == ItemsFrom(days, from + 1);
      }
    }
  }

  lemma {:induction false} ItemsFromDays(days: Days, from: nat)
    requires from <= 7
    ensures AllDays(ItemsFrom(days, from)) == set d | d in days && from <= d < 7
    decreases 7 - from
  {
    if from < 7 {
      ItemsFromDays(days, from + 1);
      var rest := ItemsFrom(days, from + 1);
      if from in days {
        SingleDay(from);
        var items := [Item(from, from, 1)] + rest;
        assert items[0] == Item(from, from, 1) && items[1..] == rest;
      } else {
        assert [] + rest == rest;
      }
    }
  }

  lemma {:induction false} NamesNotEmpty(days: Days, from: nat, d: nat)
    requires from <= d < 7 && d in days
    ensures NamesFrom(days, from) != []
    decreases d - from
  {
    if from < d && from !in days {
      NamesNotEmpty(days, from + 1, d);
    }
  }

  lemma RewrittenNames(days: Days)
    requires days != {} && forall d <- days :: d < 7
    ensures Rewritten(Join(NamesFrom(days, 0), ',')) == Join(NamesFrom(days, 0), ',')
  {
    var names := NamesFrom(days, 0);
    var d :| d in days;
    NamesNotEmpty(days, 0, d);
    NamesWithoutComma(days, 0);
    SplitJoin(names, ',');
    NamesParse(days, 0);
    ItemsFromDays(days, 0);
    assert (set d | d in days && 0 <= d < 7) == days;
  }

  lemma {:induction false} AllDaysOfWeek(items: seq<Item>)
    ensures forall d <- AllDays(items) :: d < 7
  {
    if items != [] {
      AllDaysOfWeek(items[1..]);
    }
  }

  lemma FirstDayCounts(items: seq<Item>)
    requires items != [] && items[0].first < 7
    ensures items[0].first in AllDays(items)
  {
    assert AtStep(items[0], 0, items[0].first);
    assert items[0].first in ItemDays(items[0]);
  }

  /** A field that is understood becomes a list of at least one day. */
  lemma RewrittenIsNames(field: string, items: seq<Item>)
    requires field != "*" && field != "?" && ParseItems(Split(field, ',')) == Some(items)
    ensures AllDays(items) != {} && forall d <- AllDays(items) :: d < 7
    ensures Rewritten(field) == Join(NamesFrom(AllDays(items), 0), ',')
  {
    ParsedFirst(Split(field, ','), items);
    FirstDayCounts(items);
    AllDaysOfWeek(items);
  }

  lemma ParsedFirst(texts: seq<string>, items: seq<Item>)
    requires texts != [] && ParseItems(texts) == Some(items)
    ensures items != [] && items[0].first < 7
  {
  }

  /** Rewriting is idempotent on every string. */
  lemma RewrittenTwice(field: string)
    ensures Rewritten(Rewritten(field)) == Rewritten(field)
  {
    if field != "*" && field != "?" {
      match ParseItems(Split(field, ','))
      case None =>
      case Some(items) =>
        RewrittenIsNames(field, items);
        RewrittenNames(AllDays(items));
    }
  }

  /** The whole week as `0-7` is not: both ends are Sunday. */
  lemma ZeroToSevenIsSunday()
    ensures ParseItem("0-7") == Some(Item(0, 0, 1)) && ItemDays(Item(0, 0, 1)) == {0}
  {
    IndexOfSpec("0-7", '/');
    assert "0-7"[..1] == "0" && "0-7"[2..] == "7";
    IndexOfIs("0-7", '-', 1);
    assert DigitsFrom("0", 0) == DigitsFrom("", 0);
    assert DigitsFrom("7", 0) == DigitsFrom("", 7);
    SingleDay(0);
  }
}

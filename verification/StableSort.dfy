/** The order of a merged log: a stable sort by carried time, earlier streams first on ties. */
module StableSort {
  import opened Wrappers
  import opened LogLines

  /** A line with no time yet sorts before every time. */
  predicate Le(a: Option<Time>, b: Option<Time>) {
    a.None? || (b.Some? && a.value <= b.value)
  }

  predicate Sorted(s: seq<Tagged>) {
    forall i, j :: 0 <= i < j < |s| ==> Le(s[i].time, s[j].time)
  }

  /** The lines carrying one time, in order: what stability is about. */
  function Group(s: seq<Tagged>, time: Option<Time>): seq<Tagged> {
    if s == [] then []
    else (if s[0].time == time then [s[0]] else []) + Group(s[1..], time)
  }

  /** `x` goes before the first line that is not earlier. */
  function Insert(x: Tagged, s: seq<Tagged>): seq<Tagged> {
    if s == [] || Le(x.time, s[0].time) then [x] + s else [s[0]] + Insert(x, s[1..])
  }

  /** `sort_by_key` on the carried time. */
  function Sort(s: seq<Tagged>): seq<Tagged> {
    if s == [] then [] else Insert(s[0], Sort(s[1..]))
  }

  /** What two queues yield if the earlier head goes first, `a` winning ties. */
  function Merge(a: seq<Tagged>, b: seq<Tagged>): seq<Tagged> {
    if a == [] then b
    else if b == [] then a
    else if Le(a[0].time, b[0].time) then [a[0]] + Merge(a[1..], b)
    else [b[0]] + Merge(a, b[1..])
  }

  // What Sort promises, and that nothing else keeps the promise.

  lemma {:induction false} InsertSorted(x: Tagged, s: seq<Tagged>)
    requires Sorted(s)
    ensures Sorted(Insert(x, s))
    ensures |Insert(x, s)| == |s| + 1
    ensures Insert(x, s)[0] == x || (s != [] && Insert(x, s)[0] == s[0])
  {
    if s != [] && !Le(x.time, s[0].time) {
      InsertSorted(x, s[1..]);
      var t := Insert(x, s[1..]);
      assert Le(s[0].time, t[0].time);
      forall i | 0 <= i < |t| ensures Le(s[0].time, t[i].time) {
        assert i == 0 || Le(t[0].time, t[i].time);
      }
    }
  }

  lemma {:induction false} InsertGroup(x: Tagged, s: seq<Tagged>, time: Option<Time>)
    requires Sorted(s)
    ensures Group(Insert(x, s), time) == (if x.time == time then [x] else []) + Group(s, time)
  {
    if s != [] && !Le(x.time, s[0].time) {
      InsertGroup(x, s[1..], time);
      assert Insert(x, s)[1..] == Insert(x, s[1..]);
    } else {
      assert ([x] + s)[1..] == s;
    }
  }

  lemma {:induction false} GroupAppend(a: seq<Tagged>, b: seq<Tagged>, time: Option<Time>)
    ensures Group(a + b, time) == Group(a, time) + Group(b, time)
  {
    if a == [] {
      assert a + b == b;
    } else {
      assert (a + b)[1..] == a[1..] + b;
      GroupAppend(a[1..], b, time);
      Seqs.Assoc(if a[0].time == time then [a[0]] else [], Group(a[1..], time), Group(b, time));
    }
  }

  /** No line comes after a later one, or, untimed, after a timed one. */
  ghost predicate Ascending(s: seq<Tagged>) {
    forall i, j :: 0 <= i < j < |s| && s[i].time.Some? ==> s[j].time.Some? && s[i].time.value <= s[j].time.value
  }

  /** Sorting orders the lines and keeps lines of equal time in their order. */
  lemma {:induction false} SortSpec(s: seq<Tagged>)
    ensures Sorted(Sort(s)) && Ascending(Sort(s))
    ensures |Sort(s)| == |s|
    ensures forall time :: Group(Sort(s), time) == Group(s, time)
  {
    if s != [] {
      SortSpec(s[1..]);
      InsertSorted(s[0], Sort(s[1..]));
      forall time ensures Group(Sort(s), time) == Group(s, time) {
        InsertGroup(s[0], Sort(s[1..]), time);
      }
    }
  }

  lemma {:induction false} InsertFirst(x: Tagged, s: seq<Tagged>)
    requires Sorted([x] + s)
    ensures Insert(x, s) == [x] + s
  {
    if s != [] {
      assert ([x] + s)[0] == x && ([x] + s)[1] == s[0];
    }
  }

  lemma {:induction false} SortOfSorted(s: seq<Tagged>)
    requires Sorted(s)
    ensures Sort(s) == s
  {
    if s != [] {
      SortOfSorted(s[1..]);
      assert [s[0]] + s[1..] == s;
      InsertFirst(s[0], s[1..]);
    }
  }

  /** Two sorted sequences with the same groups are equal, so `SortSpec` leaves no freedom. */
  lemma {:induction false} SortedUnique(a: seq<Tagged>, b: seq<Tagged>)
    requires Sorted(a) && Sorted(b)
    requires forall time :: Group(a, time) == Group(b, time)
    ensures a == b
  {
    if a == [] {
      assert b != [] ==> Group(b, b[0].time) != Group(a, b[0].time);
    } else {
      assert Group(a, a[0].time) == Group(b, a[0].time);
      GroupHead(b, a[0].time);
      GroupHead(a, b[0].time);
      assert Group(a, b[0].time) == Group(b, b[0].time);
      assert a[0].time == b[0].time;
      assert a[0] == Group(a, a[0].time)[0] == Group(b, a[0].time)[0] == b[0];
      forall time ensures Group(a[1..], time) == Group(b[1..], time) {
        assert Group(a, time) == Group(b, time);
        if a[0].time == time {
          assert Group(a[1..], time) == Group(a, time)[1..];
          assert Group(b[1..], time) == Group(b, time)[1..];
        } else {
          assert Group(a[1..], time) == Group(a, time);
          assert Group(b[1..], time) == Group(b, time);
        }
      }
      SortedUnique(a[1..], b[1..]);
    }
  }

  /** The head of a sorted sequence is no later than any time that occurs in it. */
  lemma {:induction false} GroupHead(s: seq<Tagged>, time: Option<Time>)
    requires Sorted(s) && Group(s, time) != []
    ensures s != [] && Le(s[0].time, time)
  {
    if s[0].time != time {
      GroupHead(s[1..], time);
      assert Le(s[0].time, s[1].time);
    }
  }

  ghost predicate All(p: Tagged -> bool, s: seq<Tagged>) {
    forall i :: 0 <= i < |s| ==> p(s[i])
  }

  lemma {:induction false} InsertAll(p: Tagged -> bool, x: Tagged, s: seq<Tagged>)
    requires p(x) && All(p, s)
    ensures All(p, Insert(x, s))
  {
    if s != [] && !Le(x.time, s[0].time) {
      InsertAll(p, x, s[1..]);
    }
  }

  /** Sorting brings in no new line. */
  lemma {:induction false} SortAll(p: Tagged -> bool, s: seq<Tagged>)
    requires All(p, s)
    ensures All(p, Sort(s))
  {
    if s != [] {
      SortAll(p, s[1..]);
      InsertAll(p, s[0], Sort(s[1..]));
    }
  }

  // Merging two sorted streams is sorting them together.

  lemma {:induction false} MergeInsert(x: Tagged, a: seq<Tagged>, b: seq<Tagged>)
    requires Sorted(a) && Sorted(b)
    ensures Insert(x, Merge(a, b)) == Merge(Insert(x, a), b)
    decreases |a| + |b|
  {
    if a == [] {
      InsertIsMerge(x, b);
      assert Insert(x, a) == [x];
    } else if b != [] {
      var ia := Insert(x, a);
      if Le(x.time, a[0].time) {
        assert ia[1..] == a;
      } else {
        assert ia[1..] == Insert(x, a[1..]);
      }
      var m := Merge(a, b);
      if Le(a[0].time, b[0].time) {
        assert m[1..] == Merge(a[1..], b);
        if !Le(x.time, a[0].time) {
          MergeInsert(x, a[1..], b);
          assert Insert(x, m) == [a[0]] + Insert(x, m[1..]);
          assert Merge(ia, b) == [a[0]] + Merge(ia[1..], b);
        } else {
          assert Merge(ia, b) == [x] + Merge(a, b);
        }
      } else {
        assert m[1..] == Merge(a, b[1..]);
        if !Le(x.time, b[0].time) {
          MergeInsert(x, a, b[1..]);
          assert Insert(x, m) == [b[0]] + Insert(x, m[1..]);
          assert Merge(ia, b) == [b[0]] + Merge(ia, b[1..]);
        } else {
          assert Merge(ia, b) == [x] + Merge(a, b);
        }
      }
    }
  }

  lemma {:induction false} InsertIsMerge(x: Tagged, b: seq<Tagged>)
    ensures Insert(x, b) == Merge([x], b)
  {
    if b != [] {
      InsertIsMerge(x, b[1..]);
      assert [x][1..] == [];
    }
  }

  lemma {:induction false} MergeOfSorts(a: seq<Tagged>, b: seq<Tagged>)
    ensures Sort(a + b) == Merge(Sort(a), Sort(b))
  {
    if a == [] {
      assert a + b == b;
    } else {
      assert (a + b)[1..] == a[1..] + b;
      MergeOfSorts(a[1..], b);
      SortSpec(a[1..]);
      SortSpec(b);
      MergeInsert(a[0], Sort(a[1..]), Sort(b));
    }
  }

  ghost predicate NoEarlier(time: Option<Time>, s: seq<Tagged>) {
    forall i :: 0 <= i < |s| ==> Le(time, s[i].time)
  }

  lemma SortedFirst(s: seq<Tagged>)
    requires s != []
    ensures Sorted(s) <==> Sorted(s[1..]) && NoEarlier(s[0].time, s[1..])
  {
    if Sorted(s[1..]) && NoEarlier(s[0].time, s[1..]) {
      forall i, j | 0 <= i < j < |s| ensures Le(s[i].time, s[j].time) {
        assert s[j] == s[1..][j - 1];
        assert i > 0 ==> s[i] == s[1..][i - 1];
      }
    }
  }

  lemma NoEarlierFirst(time: Option<Time>, s: seq<Tagged>)
    requires s != []
    ensures NoEarlier(time, s) <==> Le(time, s[0].time) && NoEarlier(time, s[1..])
  {
    if NoEarlier(time, s[1..]) {
      assert forall i :: 1 <= i < |s| ==> s[i] == s[1..][i - 1];
    }
  }

  lemma {:induction false} MergeNoEarlier(time: Option<Time>, a: seq<Tagged>, b: seq<Tagged>)
    requires NoEarlier(time, Merge(a, b))
    ensures NoEarlier(time, a) && NoEarlier(time, b)
  {
    var m := Merge(a, b);
    if a != [] && b != [] {
      NoEarlierFirst(time, m);
      if Le(a[0].time, b[0].time) {
        assert m[1..] == Merge(a[1..], b);
        MergeNoEarlier(time, a[1..], b);
        NoEarlierFirst(time, a);
      } else {
        assert m[1..] == Merge(a, b[1..]);
        MergeNoEarlier(time, a, b[1..]);
        NoEarlierFirst(time, b);
      }
    }
  }

  /** A merge head by head is sorted only if both of its inputs are. */
  lemma {:induction false} MergeSortedOnly(a: seq<Tagged>, b: seq<Tagged>)
    requires Sorted(Merge(a, b))
    ensures Sorted(a) && Sorted(b)
  {
    var m := Merge(a, b);
    if a != [] && b != [] {
      SortedFirst(m);
      if Le(a[0].time, b[0].time) {
        assert m[1..] == Merge(a[1..], b);
        MergeSortedOnly(a[1..], b);
        MergeNoEarlier(m[0].time, a[1..], b);
        SortedFirst(a);
      } else {
        assert m[1..] == Merge(a, b[1..]);
        MergeSortedOnly(a, b[1..]);
        MergeNoEarlier(m[0].time, a, b[1..]);
        SortedFirst(b);
      }
    }
  }

  // Carried times survive sorting: read back line by line, a sorted log yields the same times.

  /** A line with a timestamp of its own carries that one. */
  ghost predicate OwnTimes(c: Clock, s: seq<Tagged>) {
    All((t: Tagged) => TimeOf(c, t.text).Some? ==> t.time == TimeOf(c, t.text), s)
  }

  /** The first line carrying a time other than `last` has it as its own timestamp. */
  ghost predicate Anchored(c: Clock, s: seq<Tagged>, last: Option<Time>) {
    forall time: Option<Time> :: time != last && time.Some? && Group(s, time) != [] ==>
      TimeOf(c, Group(s, time)[0].text) == time
  }

  lemma {:induction false} TagAnchored(c: Clock, lines: seq<seq<Seqs.byte>>, last: Option<Time>)
    ensures OwnTimes(c, Tag(c, lines, last))
    ensures Anchored(c, Tag(c, lines, last), last)
  {
    if lines != [] {
      TagAnchored(c, lines[1..], Carry(c, lines[0], last));
    }
  }

  lemma {:induction false} AnchoredAppend(c: Clock, a: seq<Tagged>, b: seq<Tagged>, last: Option<Time>)
    requires Anchored(c, a, last) && Anchored(c, b, last)
    ensures Anchored(c, a + b, last)
  {
    forall time: Option<Time> | time != last && time.Some? && Group(a + b, time) != []
      ensures TimeOf(c, Group(a + b, time)[0].text) == time
    {
      GroupAppend(a, b, time);
    }
  }

  lemma {:induction false} SortedCarries(c: Clock, s: seq<Tagged>, last: Option<Time>)
    requires Sorted(s) && OwnTimes(c, s) && Anchored(c, s, last)
    requires s != [] ==> Le(last, s[0].time)
    ensures Tag(c, Texts(s), last) == s
  {
    if s != [] {
      var time := s[0].time;
      assert Group(s, time)[0] == s[0];
      assert Carry(c, s[0].text, last) == time;
      forall later: Option<Time> | later != time && later.Some? && Group(s[1..], later) != []
        ensures TimeOf(c, Group(s[1..], later)[0].text) == later
      {
        assert Group(s, later) == Group(s[1..], later);
        GroupHead(s[1..], later);
        assert later != last;
      }
      SortedCarries(c, s[1..], time);
      assert Texts(s)[1..] == Texts(s[1..]);
    }
  }
}

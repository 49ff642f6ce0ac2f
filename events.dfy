/** The event list of a match record: every event ordered by the key
    `(minute is None, minute)`, events with a minute first in increasing
    minute, events without one last, and events with equal keys left in
    their original order. */
module Events {

  import opened Wrappers
  import opened Cards

  /** The order of the sort key: a minute before no minute, minutes by
      value, and two absent minutes equal. */
  predicate MinuteLe(a: Option<nat>, b: Option<nat>) {
    match a
    case None => b.None?
    case Some(x) => b.None? || x <= b.value
  }

  lemma MinuteLeTotalOrder(a: Option<nat>, b: Option<nat>, c: Option<nat>)
    ensures MinuteLe(a, a)
    ensures MinuteLe(a, b) || MinuteLe(b, a)
    ensures MinuteLe(a, b) && MinuteLe(b, a) ==> a == b
    ensures MinuteLe(a, b) && MinuteLe(b, c) ==> MinuteLe(a, c)
  {
  }

  /** Every event's key is at most the key of every later event. */
  predicate Sorted(s: seq<Event>) {
    forall i, j :: 0 <= i < j < |s| ==> MinuteLe(s[i].minute, s[j].minute)
  }

  /** Sortedness spelled out: no event with a minute comes after one
      without, and minutes do not decrease. */
  lemma SortedMeaning(s: seq<Event>)
    ensures Sorted(s) <==>
      && (forall i, j :: 0 <= i < j < |s| && s[i].minute.None? ==> s[j].minute.None?)
      && (forall i, j :: 0 <= i < j < |s| && s[i].minute.Some? && s[j].minute.Some? ==>
            s[i].minute.value <= s[j].minute.value)
  {
  }

  /** The events whose minute is `m`, in their order. */
  function WithMinute(s: seq<Event>, m: Option<nat>): seq<Event>
    decreases |s|
  {
    if s == [] then []
    else
      var rest := WithMinute(s[1..], m);
      if s[0].minute == m then [s[0]] + rest else rest
  }

  /** The filter keeps exactly the events with minute `m`. */
  lemma {:induction false} WithMinuteMember(s: seq<Event>, m: Option<nat>, e: Event)
    ensures e in WithMinute(s, m) <==> e in s && e.minute == m
    decreases |s|
  {
    if s != [] {
      WithMinuteMember(s[1..], m, e);
      assert e in s <==> e == s[0] || e in s[1..] by {
        assert s == [s[0]] + s[1..];
      }
    }
  }

  /** Inserting `e` in front of the first event whose key is not smaller:
      `e` goes before the events with the same key. */
  function Insert(e: Event, s: seq<Event>): (r: seq<Event>)
    ensures multiset(r) == multiset(s) + multiset{e}
    decreases |s|
  {
    if s == [] || MinuteLe(e.minute, s[0].minute) then [e] + s
    else
      assert s == [s[0]] + s[1..];
      [s[0]] + Insert(e, s[1..])
  }

  /** Insertion keeps a sequence sorted. */
  lemma {:induction false} InsertSorted(e: Event, s: seq<Event>)
    requires Sorted(s)
    ensures Sorted(Insert(e, s))
    decreases |s|
  {
    if s == [] || MinuteLe(e.minute, s[0].minute) {
      MinuteLeBelow(e, s);
    } else {
      var tail := s[1..];
      assert Sorted(tail) by {
        forall i, j | 0 <= i < j < |tail| ensures MinuteLe(tail[i].minute, tail[j].minute) {
          assert tail[i] == s[i + 1] && tail[j] == s[j + 1];
        }
      }
      InsertSorted(e, tail);
      var rest := Insert(e, tail);
      MinuteLeTotalOrder(s[0].minute, e.minute, e.minute);
      forall k | 0 <= k < |rest| ensures MinuteLe(s[0].minute, rest[k].minute) {
        assert rest[k] in multiset(tail) + multiset{e};
        if rest[k] != e {
          assert rest[k] in tail;
          var j :| 0 <= j < |tail| && tail[j] == rest[k];
          assert tail[j] == s[j + 1];
        }
      }
      forall i, j | 0 <= i < j < |rest| + 1
        ensures MinuteLe(([s[0]] + rest)[i].minute, ([s[0]] + rest)[j].minute)
      {
        if i > 0 {
          assert ([s[0]] + rest)[i] == rest[i - 1];
        }
        assert ([s[0]] + rest)[j] == rest[j - 1];
      }
    }
  }

  /** An event whose key is at most the first key of a sorted sequence may
      go in front of it. */
  lemma MinuteLeBelow(e: Event, s: seq<Event>)
    requires s == [] || MinuteLe(e.minute, s[0].minute)
    ensures Sorted(s) ==> Sorted([e] + s)
  {
    if s != [] && Sorted(s) {
      forall j | 0 < j < |s| ensures MinuteLe(e.minute, s[j].minute) {
        MinuteLeTotalOrder(e.minute, s[0].minute, s[j].minute);
      }
    }
  }

  /** `sorted(events, key=lambda e: (e["minute"] is None, e["minute"]))`,
      as a stable insertion sort: sorted, and a rearrangement of its
      input. */
  function SortEvents(s: seq<Event>): (r: seq<Event>)
    ensures Sorted(r)
    ensures multiset(r) == multiset(s)
    decreases |s|
  {
    if s == [] then []
    else
      assert s == [s[0]] + s[1..];
      InsertSorted(s[0], SortEvents(s[1..]));
      Insert(s[0], SortEvents(s[1..]))
  }

  lemma WithMinuteCons(e: Event, s: seq<Event>, m: Option<nat>)
    ensures WithMinute([e] + s, m) == if e.minute == m then [e] + WithMinute(s, m) else WithMinute(s, m)
  {
    assert ([e] + s)[1..] == s;
  }

  /** Insertion puts `e` in front of every event with its minute. */
  lemma {:induction false} InsertWithMinute(e: Event, s: seq<Event>, m: Option<nat>)
    ensures WithMinute(Insert(e, s), m) ==
      if e.minute == m then [e] + WithMinute(s, m) else WithMinute(s, m)
    decreases |s|
  {
    if s == [] || MinuteLe(e.minute, s[0].minute) {
      WithMinuteCons(e, s, m);
    } else {
      InsertWithMinute(e, s[1..], m);
      WithMinuteCons(s[0], Insert(e, s[1..]), m);
      WithMinuteCons(s[0], s[1..], m);
      assert s == [s[0]] + s[1..];
      if e.minute == m {
        assert s[0].minute != m;
      }
    }
  }

  /** The sort is stable: the events of every minute keep their order. */
  lemma {:induction false} SortStable(s: seq<Event>, m: Option<nat>)
    ensures WithMinute(SortEvents(s), m) == WithMinute(s, m)
    decreases |s|
  {
    if s != [] {
      SortStable(s[1..], m);
      InsertWithMinute(s[0], SortEvents(s[1..]), m);
      WithMinuteCons(s[0], s[1..], m);
      assert s == [s[0]] + s[1..];
    }
  }

  /** The first event of a sorted sequence has the smallest key. */
  lemma SortedFirst(t: seq<Event>, e: Event)
    requires Sorted(t) && e in t
    ensures MinuteLe(t[0].minute, e.minute)
  {
    var j :| 0 <= j < |t| && t[j] == e;
    if j == 0 {
      MinuteLeTotalOrder(e.minute, e.minute, e.minute);
    }
  }

  /** Two sorted sequences that agree minute by minute are equal. */
  lemma {:induction false} SortedUnique(t: seq<Event>, u: seq<Event>)
    requires Sorted(t) && Sorted(u)
    requires forall m :: WithMinute(t, m) == WithMinute(u, m)
    ensures t == u
    decreases |t|
  {
    if t != [] && u == [] {
      WithMinuteMember(t, t[0].minute, t[0]);
    } else if t == [] && u != [] {
      WithMinuteMember(u, u[0].minute, u[0]);
    } else if t != [] {
      var a, b := t[0], u[0];
      WithMinuteMember(t, a.minute, a);
      WithMinuteMember(u, a.minute, a);
      WithMinuteMember(u, b.minute, b);
      WithMinuteMember(t, b.minute, b);
      SortedFirst(u, a);
      SortedFirst(t, b);
      MinuteLeTotalOrder(a.minute, b.minute, b.minute);
      WithMinuteCons(a, t[1..], a.minute);
      WithMinuteCons(b, u[1..], a.minute);
      assert t == [a] + t[1..] && u == [b] + u[1..];
      assert a == WithMinute(t, a.minute)[0] == WithMinute(u, a.minute)[0] == b;
      forall m ensures WithMinute(t[1..], m) == WithMinute(u[1..], m) {
        WithMinuteCons(a, t[1..], m);
        WithMinuteCons(b, u[1..], m);
        if a.minute == m {
          assert [a] + WithMinute(t[1..], m) == [a] + WithMinute(u[1..], m);
          assert WithMinute(t[1..], m) == ([a] + WithMinute(t[1..], m))[1..];
          assert WithMinute(u[1..], m) == ([a] + WithMinute(u[1..], m))[1..];
        }
      }
      assert Sorted(t[1..]) by {
        forall i, j | 0 <= i < j < |t| - 1 ensures MinuteLe(t[1..][i].minute, t[1..][j].minute) {
          assert t[1..][i] == t[i + 1] && t[1..][j] == t[j + 1];
        }
      }
      assert Sorted(u[1..]) by {
        forall i, j | 0 <= i < j < |u| - 1 ensures MinuteLe(u[1..][i].minute, u[1..][j].minute) {
          assert u[1..][i] == u[i + 1] && u[1..][j] == u[j + 1];
        }
      }
      SortedUnique(t[1..], u[1..]);
    }
  }

  /** `t` lists the events of `s` minute by minute in the same order. */
  ghost predicate SameOrderPerMinute(t: seq<Event>, s: seq<Event>) {
    forall m :: WithMinute(t, m) == WithMinute(s, m)
  }

  /** Any sorted rearrangement that keeps the order within every minute is
      the sort's result, and the sort's result is one: the sort is
      determined by being stable, so any stable sort, Python's included,
      gives this sequence. */
  lemma SortCharacterized(s: seq<Event>, t: seq<Event>)
    ensures Sorted(t) && SameOrderPerMinute(t, s) <==> t == SortEvents(s)
  {
    var sorted := SortEvents(s);
    forall m ensures WithMinute(sorted, m) == WithMinute(s, m) {
      SortStable(s, m);
    }
    assert SameOrderPerMinute(sorted, s);
    if Sorted(t) && SameOrderPerMinute(t, s) {
      SortedUnique(t, sorted);
    }
  }
}

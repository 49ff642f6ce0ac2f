/** The Python string operations the parser relies on, over a fixed ASCII
    digit class and a fixed whitespace set. */
module Text {

  import opened Wrappers

  predicate IsDigit(c: char) {
    '0' <= c <= '9'
  }

  /** The whitespace `str.strip()` removes, restricted to a fixed set:
      space, tab, line feed, carriage return, vertical tab, form feed,
      no-break space and ideographic space. */
  predicate IsSpace(c: char) {
    c == ' ' || c == '\t' || c == '\n' || c == '\r' ||
    c == '\U{B}' || c == '\U{C}' || c == '\U{A0}' || c == '\U{3000}'
  }

  predicate AllDigits(s: string) {
    forall k :: 0 <= k < |s| ==> IsDigit(s[k])
  }

  predicate NoDigit(s: string) {
    forall k :: 0 <= k < |s| ==> !IsDigit(s[k])
  }

  predicate AllSpace(s: string) {
    forall k :: 0 <= k < |s| ==> IsSpace(s[k])
  }

  /** Decimal value of a run of digits (leading zeros allowed, "" is 0). */
  function DigitsValue(s: string): nat
    requires AllDigits(s)
    decreases |s|
  {
    if s == [] then 0
    else 10 * DigitsValue(s[..|s| - 1]) + (s[|s| - 1] as int - '0' as int)
  }

  /** Decimal rendering of a natural number, without leading zeros. */
  function NatToString(n: nat): (s: string)
    ensures s != [] && AllDigits(s) && DigitsValue(s) == n
    ensures s[0] != '0' || n == 0
    decreases n
  {
    var last := [((n % 10) + '0' as int) as char];
    if n < 10 then last
    else
      var front := NatToString(n / 10);
      assert (front + last)[..|front + last| - 1] == front;
      front + last
  }

  // ---------------------------------------------------------------- strip

  function StripStart(s: string): (r: string)
    decreases |s|
  {
    if s != [] && IsSpace(s[0]) then StripStart(s[1..]) else s
  }

  /** `StripStart` drops a whitespace prefix, and only that. */
  lemma {:induction false} StripStartShape(s: string)
    ensures var r := StripStart(s);
      && |r| <= |s| && r == s[|s| - |r|..]
      && AllSpace(s[..|s| - |r|])
      && (r == [] || !IsSpace(r[0]))
    decreases |s|
  {
    if s != [] && IsSpace(s[0]) {
      StripStartShape(s[1..]);
      var r := StripStart(s);
      assert s[1..][|s[1..]| - |r|..] == s[|s| - |r|..];
    }
  }

  function StripEnd(s: string): (r: string)
    decreases |s|
  {
    if s != [] && IsSpace(s[|s| - 1]) then StripEnd(s[..|s| - 1]) else s
  }

  /** `StripEnd` drops a whitespace suffix, and only that. */
  lemma {:induction false} StripEndShape(s: string)
    ensures var r := StripEnd(s);
      && |r| <= |s| && r == s[..|r|]
      && AllSpace(s[|r|..])
      && (r == [] || !IsSpace(r[|r| - 1]))
    decreases |s|
  {
    if s != [] && IsSpace(s[|s| - 1]) {
      var front := s[..|s| - 1];
      StripEndShape(front);
      var r := StripEnd(s);
      assert front[..|r|] == s[..|r|];
      assert forall k :: |r| <= k < |s| ==> k == |s| - 1 || s[k] == front[k];
    }
  }

  /** `s[i..j]` is what stripping `s` leaves: everything outside is
      whitespace and, unless nothing is left, both ends are not. */
  ghost predicate IsStripSlice(s: string, i: int, j: int) {
    && 0 <= i <= j <= |s|
    && AllSpace(s[..i]) && AllSpace(s[j..])
    && (i == j || (!IsSpace(s[i]) && !IsSpace(s[j - 1])))
  }

  /** Python's `str.strip()`. */
  function Strip(s: string): (r: string)
    ensures r == [] <==> AllSpace(s)
  {
    StripStartShape(s);
    StripEndShape(StripStart(s));
    var r := StripEnd(StripStart(s));
    assert r != [] ==> r[0] == s[|s| - |StripStart(s)|];
    r
  }

  /** What `Strip` leaves is a slice of its input with only whitespace
      around it. */
  lemma StripSlice(s: string)
    ensures exists i, j :: IsStripSlice(s, i, j) && Strip(s) == s[i..j]
  {
    var t := StripStart(s);
    var r := StripEnd(t);
    StripStartShape(s);
    StripEndShape(t);
    var i := |s| - |t|;
    assert t == s[i..];
    assert r == s[i..i + |r|];
    assert s[..i + |r|][..i] == s[..i];
    assert s[i + |r|..] == t[|r|..];
    assert IsStripSlice(s, i, i + |r|);
  }

  /** Stripping has only one possible result. */
  lemma StripSliceUnique(s: string, i: int, j: int, i': int, j': int)
    requires IsStripSlice(s, i, j) && IsStripSlice(s, i', j')
    ensures s[i..j] == s[i'..j']
  {
  }

  /** Stripping a text padded with whitespace on both sides gives back the
      text, whenever the text itself has no whitespace at either end. */
  lemma {:induction false} StripPadded(a: string, t: string, b: string)
    requires AllSpace(a) && AllSpace(b)
    requires t == [] || (!IsSpace(t[0]) && !IsSpace(t[|t| - 1]))
    ensures Strip(a + t + b) == t
  {
    var s := a + t + b;
    var r := Strip(s);
    StripSlice(s);
    var i, j :| IsStripSlice(s, i, j) && r == s[i..j];
    assert s[..|a|] == a && s[|a| + |t|..] == b && s[|a|..|a| + |t|] == t;
    assert IsStripSlice(s, |a|, |a| + |t|);
    StripSliceUnique(s, i, j, |a|, |a| + |t|);
  }

  /** `s.strip().strip() == s.strip()`. */
  lemma StripIdempotent(s: string)
    ensures Strip(Strip(s)) == Strip(s)
  {
    var r := Strip(s);
    StripSlice(s);
    var i, j :| IsStripSlice(s, i, j) && r == s[i..j];
    assert r == [] || (!IsSpace(r[0]) && !IsSpace(r[|r| - 1]));
    StripPadded([], r, []);
    assert [] + r + [] == r;
  }

  // ---------------------------------------------------------------- split

  /** Python's `s.split(sep)` for a one-character separator: at least one
      part. */
  function Split(s: string, sep: char): (parts: seq<string>)
    ensures |parts| >= 1
    decreases |s|
  {
    if s == [] then [[]]
    else
      var rest := Split(s[1..], sep);
      if s[0] == sep then [[]] + rest
      else [[s[0]] + rest[0]] + rest[1..]
  }

  /** No part of a split holds the separator. */
  lemma {:induction false} SplitParts(s: string, sep: char)
    ensures forall k :: 0 <= k < |Split(s, sep)| ==> sep !in Split(s, sep)[k]
    decreases |s|
  {
    if s != [] {
      SplitParts(s[1..], sep);
      var rest := Split(s[1..], sep);
      if s[0] != sep {
        assert forall k :: 1 <= k < |rest| ==> Split(s, sep)[k] == rest[k];
      } else {
        assert forall k :: 1 <= k < |Split(s, sep)| ==> Split(s, sep)[k] == rest[k - 1];
      }
    }
  }

  /** Python's `sep.join(parts)`. */
  function Join(parts: seq<string>, sep: char): string
    requires |parts| >= 1
    decreases |parts|
  {
    if |parts| == 1 then parts[0] else parts[0] + [sep] + Join(parts[1..], sep)
  }

  /** Joining the parts of a split gives back the text. */
  lemma {:induction false} JoinSplit(s: string, sep: char)
    ensures Join(Split(s, sep), sep) == s
    decreases |s|
  {
    if s != [] {
      JoinSplit(s[1..], sep);
      var rest := Split(s[1..], sep);
      if s[0] != sep {
        var parts := [[s[0]] + rest[0]] + rest[1..];
        assert parts[1..] == rest[1..];
        if |rest| == 1 {
          assert Join(parts, sep) == [s[0]] + rest[0];
        } else {
          assert Join(rest, sep) == rest[0] + [sep] + Join(rest[1..], sep);
        }
        assert s == [s[0]] + s[1..];
      } else {
        assert ([[]] + rest)[1..] == rest;
      }
    }
  }

  /** How `Split` treats the first character. */
  lemma SplitCons(c: char, t: string, sep: char)
    ensures Split([c] + t, sep) ==
      if c == sep then [[]] + Split(t, sep)
      else [[c] + Split(t, sep)[0]] + Split(t, sep)[1..]
  {
    assert ([c] + t)[1..] == t;
  }

  /** The first separator ends the first part; the rest of the text
      splits on its own. */
  lemma {:induction false} SplitFirst(a: string, sep: char, b: string)
    requires sep !in a
    ensures Split(a + [sep] + b, sep) == [a] + Split(b, sep)
    decreases |a|
  {
    if a == [] {
      assert a + [sep] + b == [sep] + b;
      SplitCons(sep, b, sep);
    } else {
      var t := a[1..] + [sep] + b;
      SplitFirst(a[1..], sep, b);
      assert a + [sep] + b == [a[0]] + t;
      SplitCons(a[0], t, sep);
      var rest := [a[1..]] + Split(b, sep);
      assert rest[0] == a[1..] && rest[1..] == Split(b, sep);
      assert [a[0]] + a[1..] == a;
    }
  }

  lemma SplitNoSeparator(s: string, sep: char)
    requires sep !in s
    ensures Split(s, sep) == [s]
  {
    JoinSplit(s, sep);
  }

  /** A text splits into more than one part exactly when it holds the
      separator. */
  lemma SplitHasSeparator(s: string, sep: char)
    ensures |Split(s, sep)| > 1 <==> sep in s
  {
    JoinSplit(s, sep);
    var parts := Split(s, sep);
    if |parts| > 1 {
      assert Join(parts, sep) == parts[0] + [sep] + Join(parts[1..], sep);
      assert Join(parts, sep)[|parts[0]|] == sep;
    } else {
      assert Join(parts, sep) == parts[0];
    }
  }

  /** A text with exactly one separator splits into two parts. */
  lemma SplitPair(a: string, sep: char, b: string)
    requires sep !in a && sep !in b
    ensures Split(a + [sep] + b, sep) == [a, b]
  {
    SplitFirst(a, sep, b);
    SplitNoSeparator(b, sep);
  }

  /** Splitting joined parts gives back the parts, when none holds the
      separator. */
  lemma {:induction false} SplitJoin(parts: seq<string>, sep: char)
    requires |parts| >= 1
    requires forall k :: 0 <= k < |parts| ==> sep !in parts[k]
    ensures Split(Join(parts, sep), sep) == parts
    decreases |parts|
  {
    SplitNoSeparator(parts[0], sep);
    if |parts| > 1 {
      SplitJoin(parts[1..], sep);
      SplitFirst(parts[0], sep, Join(parts[1..], sep));
    }
  }

  // ------------------------------------------------------------ digit runs

  /** Index of the first digit of `s`, if any. */
  function FirstDigitIndex(s: string): (r: Option<nat>)
    ensures r.None? <==> NoDigit(s)
    ensures r.Some? ==> r.value < |s| && IsDigit(s[r.value]) && NoDigit(s[..r.value])
    decreases |s|
  {
    if s == [] then None
    else if IsDigit(s[0]) then Some(0)
    else
      match FirstDigitIndex(s[1..])
      case None =>
        assert forall k :: 1 <= k < |s| ==> s[k] == s[1..][k - 1];
        None
      case Some(i) =>
        var front := s[..i + 1];
        assert NoDigit(front) by {
          forall k | 0 <= k < i + 1 ensures !IsDigit(front[k]) {
            if k > 0 { assert front[k] == s[1..][..i][k - 1]; }
          }
        }
        Some(i + 1)
  }

  /** Length of the maximal run of digits at the start of `s`. */
  function DigitRunLength(s: string): (n: nat)
    ensures n <= |s| && AllDigits(s[..n])
    ensures n == |s| || !IsDigit(s[n])
    decreases |s|
  {
    if s != [] && IsDigit(s[0]) then
      var n := DigitRunLength(s[1..]) + 1;
      assert forall k :: 1 <= k < n ==> s[..n][k] == s[1..][..n - 1][k - 1];
      n
    else 0
  }
}

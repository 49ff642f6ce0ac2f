/** The primitive extractors of the result page: minutes, team and player
    links, the score, the attendance and the referee line. Each takes what
    a CSS selection would have returned. */
module Fields {

  import opened Wrappers
  import opened Text

  /** Why an extraction aborts. Each stands for the Python exception the
      parser lets propagate, which aborts the whole record. */
  datatype Error =
    | MissingNode   // `.text` or `["href"]` on a selection that found nothing
    | MissingPart   // IndexError: a split with too few parts
    | NotAnInteger  // ValueError raised by int()
    | NotText       // TypeError: re.search on a missing next sibling
    | NoPlayer      // TypeError: `**None` for a lineup anchor with blank text

  type Parsed<T> = Result<T, Error>

  /** The two sides of a match. */
  datatype Side = Home | Away {
    /** The enum member's name, which the card events carry. */
    function Name(): string {
      if Home? then "HOME" else "AWAY"
    }

    /** Lineup rows are mirrored: the home side has the shirt number in its
        first cell and the name in its second, the away side the reverse
        (0-based cell positions). */
    function NumberCell(): nat {
      if Home? then 0 else 1
    }

    function NameCell(): nat {
      if Home? then 1 else 0
    }
  }

  /** A selection made once per side (`td:nth-child(1)` for home,
      `td:nth-child(2)` for away). */
  datatype PerSide<T> = PerSide(home: T, away: T)

  /** An `<a>` element: its `href`, its text, and the text node that
      follows it (None when there is no text sibling). */
  datatype Anchor = Anchor(href: string, text: string, nextSibling: Option<string>)

  datatype Team = Team(id: int, name: string)

  datatype Player = Player(id: int, name: string)

  datatype Score = Score(home: int, away: int)

  const FullWidthColon: char := '\U{FF1A}'

  // ------------------------------------------------------------- integers

  /** What int() accepts once the whitespace is stripped: an optional sign
      and at least one digit. */
  predicate IsIntLiteral(t: string) {
    if |t| > 0 && (t[0] == '+' || t[0] == '-') then |t| > 1 && AllDigits(t[1..])
    else |t| > 0 && AllDigits(t)
  }

  function LiteralValue(t: string): int
    requires IsIntLiteral(t)
  {
    if t[0] == '-' then 0 - DigitsValue(t[1..])
    else if t[0] == '+' then DigitsValue(t[1..])
    else DigitsValue(t)
  }

  /** Python's `int(s)` on a text. */
  function ToInt(s: string): (r: Parsed<int>)
    ensures r.Success? <==> IsIntLiteral(Strip(s))
    ensures r.Failure? ==> r.error == NotAnInteger
  {
    var t := Strip(s);
    if IsIntLiteral(t) then Success(LiteralValue(t)) else Failure(NotAnInteger)
  }

  /** Python's `str(n)`. */
  function IntToString(n: int): string {
    if n < 0 then "-" + NatToString(-n) else NatToString(n)
  }

  lemma IntToStringShape(n: int)
    ensures var t := IntToString(n);
      && t != [] && !IsSpace(t[0]) && !IsSpace(t[|t| - 1])
      && '/' !in t && '=' !in t && ':' !in t && FullWidthColon !in t && '\n' !in t
  {
    var d := NatToString(if n < 0 then -n else n);
    assert forall c :: c in d ==> IsDigit(c);
  }

  /** int() reads back what str() writes, whatever whitespace surrounds it. */
  lemma ToIntPadded(a: string, n: int, b: string)
    requires AllSpace(a) && AllSpace(b)
    ensures ToInt(a + IntToString(n) + b) == Success(n)
  {
    var t := IntToString(n);
    IntToStringShape(n);
    StripPadded(a, t, b);
    if n < 0 {
      assert t[1..] == NatToString(-n);
    }
  }

  lemma ToIntRoundTrip(n: int)
    ensures ToInt(IntToString(n)) == Success(n)
  {
    ToIntPadded([], n, []);
    assert [] + IntToString(n) + [] == IntToString(n);
  }

  // -------------------------------------------------------------- minutes

  /** `s[i..j]` is the leftmost maximal run of digits of `s`. */
  ghost predicate IsFirstDigitRun(s: string, i: int, j: int) {
    && 0 <= i < j <= |s|
    && NoDigit(s[..i]) && AllDigits(s[i..j])
    && (j == |s| || !IsDigit(s[j]))
  }

  /** There is at most one leftmost maximal digit run. */
  lemma FirstDigitRunUnique(s: string, i: int, j: int, i': int, j': int)
    requires IsFirstDigitRun(s, i, j) && IsFirstDigitRun(s, i', j')
    ensures i == i' && j == j'
  {
    assert forall k :: 0 <= k < i ==> !IsDigit(s[..i][k]);
    assert forall k :: 0 <= k < i' ==> !IsDigit(s[..i'][k]);
    assert IsDigit(s[i..j][0]) && IsDigit(s[i'..j'][0]);
    forall k | i <= k < j ensures IsDigit(s[k]) { assert s[i..j][k - i] == s[k]; }
    forall k | i' <= k < j' ensures IsDigit(s[k]) { assert s[i'..j'][k - i'] == s[k]; }
  }

  /** `parse_minute`: `re.search(r"(\d+)", s)` read with int(), absent when
      the text has no digit. */
  function ParseMinute(s: string): (r: Option<nat>)
    ensures r.None? <==> NoDigit(s)
    ensures r.Some? ==> exists i, j :: IsFirstDigitRun(s, i, j) && r.value == DigitsValue(s[i..j])
  {
    match FirstDigitIndex(s)
    case None => None
    case Some(i) =>
      var n := DigitRunLength(s[i..]);
      assert s[i..][0] == s[i];
      assert s[i..][..n] == s[i..i + n];
      assert i + n == |s| || s[i..][n] == s[i + n];
      assert IsFirstDigitRun(s, i, i + n);
      Some(DigitsValue(s[i..i + n]))
  }

  /** A minute marker such as "34'" reads as the number it shows. */
  lemma MinuteOfMarker(prefix: string, n: nat, suffix: string)
    requires NoDigit(prefix)
    requires suffix == [] || !IsDigit(suffix[0])
    ensures ParseMinute(prefix + NatToString(n) + suffix) == Some(n)
  {
    var d := NatToString(n);
    var s := prefix + d + suffix;
    assert s[..|prefix|] == prefix && s[|prefix|..|prefix| + |d|] == d;
    assert |prefix| + |d| < |s| ==> s[|prefix| + |d|] == suffix[0];
    assert IsFirstDigitRun(s, |prefix|, |prefix| + |d|);
    var r := ParseMinute(s);
    assert d[0] == s[|prefix|];
    var i, j :| IsFirstDigitRun(s, i, j) && r.value == DigitsValue(s[i..j]);
    FirstDigitRunUnique(s, i, j, |prefix|, |prefix| + |d|);
  }

  // ---------------------------------------------------------------- links

  /** `parse_team`: the id is the `/`-separated segment at index 2 of the
      link, the name is the anchor's text as it stands. */
  function ParseTeam(a: Anchor): (r: Parsed<Team>)
    ensures |Split(a.href, '/')| < 3 ==> r == Failure(MissingPart)
    ensures |Split(a.href, '/')| >= 3 ==>
      (r.Success? <==> ToInt(Split(a.href, '/')[2]).Success?)
    ensures r.Success? ==>
      ToInt(Split(a.href, '/')[2]) == Success(r.value.id) && r.value.name == a.text
  {
    var parts := Split(a.href, '/');
    if |parts| < 3 then Failure(MissingPart)
    else
      var id :- ToInt(parts[2]);
      Success(Team(id, a.text))
  }

  /** A link whose third `/`-separated segment is a number, such as
      "../team/5", names the team with that id. */
  lemma TeamFromLink(segments: seq<string>, n: int, text: string, sibling: Option<string>)
    requires |segments| >= 3 && segments[2] == IntToString(n)
    requires forall k :: 0 <= k < |segments| ==> '/' !in segments[k]
    ensures ParseTeam(Anchor(Join(segments, '/'), text, sibling)) == Success(Team(n, text))
  {
    SplitJoin(segments, '/');
    ToIntRoundTrip(n);
  }

  /** The last element of a non-empty sequence. */
  function Last<T>(s: seq<T>): T
    requires |s| > 0
  {
    s[|s| - 1]
  }

  /** `parse_player`: absent when the anchor's stripped text is empty;
      otherwise the stripped text is the name and the last `=`-separated
      segment of the link is the id. */
  function ParsePlayer(a: Anchor): (r: Parsed<Option<Player>>)
    ensures r == Success(None) <==> AllSpace(a.text)
    ensures !AllSpace(a.text) ==> (r.Success? <==> ToInt(Last(Split(a.href, '='))).Success?)
    ensures r.Success? && r.value.Some? ==>
      && !AllSpace(a.text)
      && r.value.value.name == Strip(a.text) && r.value.value.name != []
      && ToInt(Last(Split(a.href, '='))) == Success(r.value.value.id)
  {
    var name := Strip(a.text);
    if name == [] then Success(None)
    else
      var id :- ToInt(Last(Split(a.href, '=')));
      Success(Some(Player(id, name)))
  }

  /** A link whose last `=`-separated segment is a number, such as
      "player.php?id=123", names the player with that id. */
  lemma PlayerFromLink(segments: seq<string>, n: int, text: string, sibling: Option<string>)
    requires |segments| >= 1 && Last(segments) == IntToString(n)
    requires forall k :: 0 <= k < |segments| ==> '=' !in segments[k]
    requires !AllSpace(text)
    ensures ParsePlayer(Anchor(Join(segments, '='), text, sibling))
         == Success(Some(Player(n, Strip(text))))
  {
    SplitJoin(segments, '=');
    ToIntRoundTrip(n);
  }

  // ---------------------------------------------------------------- score

  /** `parse_scores`: the text split at `:`; the placeholder `["-", "-"]`
      means no score, anything else must be two integers. */
  function ParseScores(node: Option<string>): (r: Parsed<Option<Score>>)
    ensures node.None? ==> r == Failure(MissingNode)
    ensures node.Some? ==>
      var parts := Split(node.value, ':');
      (r.Success? <==>
        parts == ["-", "-"] || (|parts| >= 2 && ToInt(parts[0]).Success? && ToInt(parts[1]).Success?))
    ensures r.Success? && r.value.Some? ==>
      var parts := Split(node.value, ':');
      && |parts| >= 2
      && ToInt(parts[0]) == Success(r.value.value.home)
      && ToInt(parts[1]) == Success(r.value.value.away)
  {
    match node
    case None => Failure(MissingNode)
    case Some(text) =>
      var parts := Split(text, ':');
      if parts == ["-", "-"] then Success(None)
      else
        var home :- ToInt(parts[0]);
        if |parts| < 2 then Failure(MissingPart)
        else
          var away :- ToInt(parts[1]);
          Success(Some(Score(home, away)))
  }

  /** The text splits into the placeholder parts exactly when it is "-:-". */
  lemma PlaceholderSplit(text: string)
    ensures Split(text, ':') == ["-", "-"] <==> text == "-:-"
  {
    assert Join(["-", "-"], ':') == "-:-";
    SplitJoin(["-", "-"], ':');
    JoinSplit(text, ':');
  }

  /** The score is absent exactly for the placeholder "-:-". */
  lemma ScoresPlaceholder(node: Option<string>)
    ensures ParseScores(node) == Success(None) <==> node == Some("-:-")
  {
    if node.Some? {
      PlaceholderSplit(node.value);
    }
  }

  /** A score "H:A" reads back as home H and away A. */
  lemma ScoresRoundTrip(home: int, away: int)
    ensures ParseScores(Some(IntToString(home) + ":" + IntToString(away)))
         == Success(Some(Score(home, away)))
  {
    IntToStringShape(home);
    IntToStringShape(away);
    var text := IntToString(home) + ":" + IntToString(away);
    assert text == Join([IntToString(home), IntToString(away)], ':');
    SplitJoin([IntToString(home), IntToString(away)], ':');
    ToIntRoundTrip(home);
    ToIntRoundTrip(away);
  }

  // ----------------------------------------------------------- attendance

  /** `parse_attendance`: the part between the first and the second `:`,
      stripped; a number only when it is a non-empty run of digits. */
  function ParseAttendance(node: Option<string>): (r: Parsed<Option<nat>>)
    ensures node.None? ==> r == Failure(MissingNode)
    ensures node.Some? ==> (r.Success? <==> ':' in node.value)
    ensures r.Success? ==> |Split(node.value, ':')| > 1
    ensures r.Success? ==>
      var t := Strip(Split(node.value, ':')[1]);
      && (r.value.Some? <==> t != [] && AllDigits(t))
      && (r.value.Some? ==> r.value.value == DigitsValue(t))
  {
    match node
    case None => Failure(MissingNode)
    case Some(text) =>
      var parts := Split(text, ':');
      SplitHasSeparator(text, ':');
      if |parts| < 2 then Failure(MissingPart)
      else
        var t := Strip(parts[1]);
        if t != [] && AllDigits(t) then Success(Some(DigitsValue(t))) else Success(None)
  }

  /** "Attendance: 1234" reads as 1234, spaces around the number allowed. */
  lemma AttendanceOfLabel(heading: string, a: string, n: nat, b: string)
    requires ':' !in heading
    requires AllSpace(a) && AllSpace(b)
    ensures ParseAttendance(Some(heading + ":" + a + NatToString(n) + b)) == Success(Some(n))
  {
    var d := NatToString(n);
    IntToStringShape(n);
    assert ':' !in a && ':' !in b;
    var value := a + d + b;
    assert ':' !in value;
    assert heading + ":" + a + d + b == heading + [':'] + value;
    SplitPair(heading, ':', value);
    StripPadded(a, d, b);
  }

  // -------------------------------------------------------------- referee

  /** The value of a "heading: value" line: the stripped text's first line,
      split at `sep`, second part stripped. */
  function LabelValue(text: string, sep: char): (r: Parsed<string>)
    ensures r.Success? <==> sep in Split(Strip(text), '\n')[0]
    ensures r.Failure? ==> r.error == MissingPart
  {
    var line := Split(Strip(text), '\n')[0];
    var parts := Split(line, sep);
    SplitHasSeparator(line, sep);
    if |parts| < 2 then Failure(MissingPart) else Success(Strip(parts[1]))
  }

  /** `parse_referee`: absent when the row is missing or has no colon of
      either kind; an ASCII colon anywhere in the text takes precedence over
      the full-width one. */
  function ParseReferee(node: Option<string>): (r: Parsed<Option<string>>)
    ensures r == Success(None) <==>
      node.None? || (':' !in node.value && FullWidthColon !in node.value)
    ensures node.Some? && ':' in node.value ==>
      match LabelValue(node.value, ':')
      case Success(v) => r == Success(Some(v))
      case Failure(e) => r == Failure(e)
    ensures node.Some? && ':' !in node.value && FullWidthColon in node.value ==>
      match LabelValue(node.value, FullWidthColon)
      case Success(v) => r == Success(Some(v))
      case Failure(e) => r == Failure(e)
  {
    match node
    case None => Success(None)
    case Some(text) =>
      if ':' in text then
        var v :- LabelValue(text, ':');
        Success(Some(v))
      else if FullWidthColon in text then
        var v :- LabelValue(text, FullWidthColon);
        Success(Some(v))
      else Success(None)
  }

  /** The value is read from the first line of a stripped text. */
  lemma LabelValueOfParts(text: string, lines: seq<string>, sep: char, heading: string, value: string)
    requires |lines| >= 1 && Strip(text) == text && Split(text, '\n') == lines
    requires Split(lines[0], sep) == [heading, value]
    ensures LabelValue(text, sep) == Success(Strip(value))
  {
  }

  /** The value of a line "heading<sep>value" heading an already stripped
      text is the stripped value. */
  lemma LabelValueOfLine(text: string, heading: string, sep: char, value: string, more: seq<string>)
    requires sep != '\n'
    requires sep !in heading && sep !in value && '\n' !in heading && '\n' !in value
    requires forall k :: 0 <= k < |more| ==> '\n' !in more[k]
    requires text == Join([heading + [sep] + value] + more, '\n') && Strip(text) == text
    ensures LabelValue(text, sep) == Success(Strip(value))
  {
    var line := heading + [sep] + value;
    var lines := [line] + more;
    assert forall k :: 0 <= k < |lines| ==> '\n' !in lines[k] by {
      forall k | 0 <= k < |lines| ensures '\n' !in lines[k] {
        if k > 0 { assert lines[k] == more[k - 1]; }
      }
    }
    SplitJoin(lines, '\n');
    SplitPair(heading, sep, value);
    LabelValueOfParts(text, lines, sep, heading, value);
  }

  /** A joined text starts with its first part. */
  lemma JoinStart(parts: seq<string>, sep: char)
    requires |parts| >= 1
    ensures |Join(parts, sep)| >= |parts[0]| && Join(parts, sep)[..|parts[0]|] == parts[0]
  {
    if |parts| > 1 {
      assert Join(parts, sep) == parts[0] + ([sep] + Join(parts[1..], sep));
    }
  }

  /** A referee row whose first line is "heading<sep>value" gives the
      stripped value, whatever lines follow and whatever whitespace pads
      the row. */
  lemma RefereeLine(a: string, text: string, b: string, heading: string, sep: char, value: string,
                    more: seq<string>)
    requires AllSpace(a) && AllSpace(b)
    requires sep == ':' || sep == FullWidthColon
    requires sep !in heading && sep !in value
    requires sep == FullWidthColon ==>
      ':' !in heading && ':' !in value && forall k :: 0 <= k < |more| ==> ':' !in more[k]
    requires '\n' !in heading && '\n' !in value
    requires forall k :: 0 <= k < |more| ==> '\n' !in more[k]
    requires text == Join([heading + [sep] + value] + more, '\n')
    requires heading != [] && !IsSpace(heading[0]) && !IsSpace(text[|text| - 1])
    ensures ParseReferee(Some(a + text + b)) == Success(Some(Strip(value)))
  {
    var line := heading + [sep] + value;
    var lines := [line] + more;
    JoinStart(lines, '\n');
    assert text[0] == line[0] && text[|heading|] == line[|heading|] == sep;
    var padded := a + text + b;
    StripPadded(a, text, b);
    assert Strip(text) == text by {
      StripPadded([], text, []);
      assert [] + text + [] == text;
    }
    LabelValueOfLine(text, heading, sep, value, more);
    assert LabelValue(padded, sep) == LabelValue(text, sep);
    assert padded[|a| + |heading|] == sep;
    if sep == FullWidthColon {
      assert ':' !in text by {
        assert ':' !in line;
        assert forall k :: 0 <= k < |lines| ==> ':' !in lines[k] by {
          forall k | 0 <= k < |lines| ensures ':' !in lines[k] {
            if k > 0 { assert lines[k] == more[k - 1]; }
          }
        }
        NoCharInJoin(lines, '\n', ':');
      }
      assert ':' !in a && ':' !in b;
      assert ':' !in padded;
    }
  }

  /** A character that is in none of the parts and is not the separator is
      not in their join. */
  lemma {:induction false} NoCharInJoin(parts: seq<string>, sep: char, c: char)
    requires |parts| >= 1 && c != sep
    requires forall k :: 0 <= k < |parts| ==> c !in parts[k]
    ensures c !in Join(parts, sep)
    decreases |parts|
  {
    if |parts| > 1 {
      NoCharInJoin(parts[1..], sep, c);
    }
  }
}

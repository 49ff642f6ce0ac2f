/** Concrete pages and the values the parser reads from them. */
module Scenarios {

  import opened Wrappers
  import opened Text
  import opened Fields
  import opened Lineups
  import opened Cards
  import opened Substitutions
  import opened Events
  import opened Match

  lemma StripJohnDoe(v: string)
    requires v == " John Doe"
    ensures Strip(v) == "John Doe"
  {
    StripPadded(" ", "John Doe", []);
    assert " " + "John Doe" + [] == " John Doe";
  }

  lemma StripZhangSan(v: string)
    requires v == "張三"
    ensures Strip(v) == "張三"
  {
    StripPadded([], v, []);
    assert [] + v + [] == v;
  }

  /** An English referee row. */
  lemma RefereeEnglish()
    ensures ParseReferee(Some("Referee: John Doe")) == Success(Some("John Doe"))
  {
    var text := "Referee: John Doe";
    assert text == Join(["Referee" + [':'] + " John Doe"], '\n');
    RefereeLine([], text, [], "Referee", ':', " John Doe", []);
    assert [] + text + [] == text;
    StripJohnDoe(" John Doe");
  }

  /** A Chinese referee row, with the full-width colon. */
  lemma RefereeChinese()
    ensures ParseReferee(Some("裁判：張三")) == Success(Some("張三"))
  {
    var text := "裁判：張三";
    assert text == Join(["裁判" + [FullWidthColon] + "張三"], '\n');
    RefereeLine([], text, [], "裁判", FullWidthColon, "張三", []);
    assert [] + text + [] == text;
    StripZhangSan("張三");
  }

  /** A page with teams 5 and 9, the score "2:1", an attendance of 1000,
      empty lineups, one home yellow card in minute 34 and no referee row. */
  function ExamplePage(): Document {
    Document(
      Some("League"), Some("2024-01-01"), Some("Attendance: 1000"),
      Some(Anchor("/team/5", "Home", None)), Some(Anchor("/team/9", "Away", None)),
      Some("2:1"),
      PerSide([], []), PerSide([], []),
      PerSide([Anchor("?id=7", "Tom", Some("34'"))], []), PerSide([], []),
      PerSide([], []),
      None)
  }

  /** The booking on the example page. */
  function ExampleCard(): Event {
    Event(YellowCard, Home, Some(Player(7, "Tom")), Some(34))
  }

  lemma ExampleTeams()
    ensures ParseTeam(Anchor("/team/5", "Home", None)) == Success(Team(5, "Home"))
    ensures ParseTeam(Anchor("/team/9", "Away", None)) == Success(Team(9, "Away"))
  {
    assert Join(["", "team", "5"], '/') == "/team/5";
    assert Join(["", "team", "9"], '/') == "/team/9";
    assert IntToString(5) == "5" && IntToString(9) == "9";
    TeamFromLink(["", "team", "5"], 5, "Home", None);
    TeamFromLink(["", "team", "9"], 9, "Away", None);
  }

  lemma ExampleScore()
    ensures ParseScores(Some("2:1")) == Success(Some(Score(2, 1)))
  {
    assert IntToString(2) + ":" + IntToString(1) == "2:1";
    ScoresRoundTrip(2, 1);
  }

  lemma ExampleAttendance()
    ensures ParseAttendance(Some("Attendance: 1000")) == Success(Some(1000))
  {
    assert NatToString(1000) == "1000";
    assert "Attendance" + ":" + " " + NatToString(1000) + [] == "Attendance: 1000";
    AttendanceOfLabel("Attendance", " ", 1000, []);
  }

  lemma ExampleHeader()
    ensures ParseHeader(ExamplePage())
         == Success(Header("League", "2024-01-01", Team(5, "Home"), Team(9, "Away"), Some(Score(2, 1)), Some(1000)))
  {
    ExampleTeams();
    ExampleScore();
    ExampleAttendance();
  }

  lemma ExamplePlayer()
    ensures ParsePlayer(Anchor("?id=7", "Tom", Some("34'"))) == Success(Some(Player(7, "Tom")))
  {
    SplitPair("?id", '=', "7");
    assert "?id" + ['='] + "7" == "?id=7";
    ToIntRoundTrip(7);
    assert IntToString(7) == "7";
    StripPadded([], "Tom", []);
    assert [] + "Tom" + [] == "Tom";
    assert !IsSpace("Tom"[0]);
  }

  lemma ExampleMinute()
    ensures ParseMinute("34'") == Some(34)
  {
    var s := "34'";
    assert FirstDigitIndex(s) == Some(0);
    assert DigitRunLength(s[0..]) == 2 by {
      assert s[0..] == s && s[1..] == "4'" && s[2..] == "'";
    }
    assert s[0..2] == "34" && "34"[..1] == "3";
    assert DigitsValue("34") == 34;
  }

  lemma ExampleBooking()
    ensures ParseCard(Anchor("?id=7", "Tom", Some("34'")), YellowCard, Home) == Success(ExampleCard())
  {
    ExamplePlayer();
    ExampleMinute();
  }

  lemma ExampleEvents()
    ensures EventList(ExamplePage()) == Success([ExampleCard()])
  {
    var doc := ExamplePage();
    var booking := Anchor("?id=7", "Tom", Some("34'"));
    ExampleBooking();
    assert doc.yellowCards.home == [booking];
    var cards := ParseCards([booking], YellowCard, Home);
    assert cards.Success? && |cards.value| == 1 && cards.value[0] == ExampleCard();
    assert cards.value == [ExampleCard()];
    assert ParseCards([], YellowCard, Away) == Success([]);
    assert ParseCards([], RedCard, Home) == Success([]);
    assert ParseCards([], RedCard, Away) == Success([]);
    EventListOfCards(doc, [ExampleCard()], [], [], []);
    assert [ExampleCard()] + [] + [] + [] == [ExampleCard()];
  }

  /** The example page gives that record: the teams, the score and the
      attendance read, the one booking as the only event, and no referee
      and no shoot-out. */
  lemma ExampleRecord()
    ensures Parse(ExamplePage()).Success?
    ensures var rec := Parse(ExamplePage()).value;
      && rec.league == "League" && rec.date == "2024-01-01"
      && rec.home == Team(5, "Home") && rec.away == Team(9, "Away")
      && rec.scores == Some(Score(2, 1)) && rec.attendance == Some(1000)
      && rec.events == [ExampleCard()]
      && rec.substitutions == PerSide([], [])
      && rec.referee == None && rec.shootout == map[]
  {
    var doc := ExamplePage();
    ExampleHeader();
    ExampleEvents();
    assert ParseLineup([], Home).Success? && ParseLineup([], Away).Success?;
    assert PairSubstitutions([]) == Success([]);
    var rec := Parse(doc).value;
    assert multiset(rec.events) == multiset{ExampleCard()};
    assert |rec.events| == |multiset(rec.events)| == 1;
    assert rec.events[0] in multiset(rec.events);
    assert rec.events == [rec.events[0]];
  }
}

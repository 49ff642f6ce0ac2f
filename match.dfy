/** The whole match record: `ResultParser.parse` reads every part of the
    result page in a fixed order, and the first part that fails aborts the
    record. */
module Match {

  import opened Wrappers
  import opened Text
  import opened Fields
  import opened Lineups
  import opened Cards
  import opened Substitutions
  import opened Events

  /** What the CSS selections of a result page return: a single node's text
      or anchor (None when the selector matches nothing), and per side the
      rows or anchors of a table cell. */
  datatype Document = Document(
    leagueName: Option<string>,
    date: Option<string>,
    attendance: Option<string>,
    homeTeam: Option<Anchor>,
    awayTeam: Option<Anchor>,
    score: Option<string>,
    startings: PerSide<seq<Row>>,
    substitutes: PerSide<seq<Row>>,
    yellowCards: PerSide<seq<Anchor>>,
    redCards: PerSide<seq<Anchor>>,
    substitutions: PerSide<seq<Anchor>>,
    referee: Option<string>)

  datatype Lineup = Lineup(starting: seq<LineupPlayer>, substitute: seq<LineupPlayer>)

  datatype MatchRecord = MatchRecord(
    league: string,
    date: string,
    home: Team,
    away: Team,
    scores: Option<Score>,
    attendance: Option<nat>,
    lineup: PerSide<Lineup>,
    events: seq<Event>,
    substitutions: PerSide<seq<Substitution>>,
    referee: Option<string>,
    shootout: map<string, int>)

  /** `.text` of a selection: an error when the selector found nothing. */
  function Required<T>(node: Option<T>): (r: Parsed<T>)
    ensures r.Success? <==> node.Some?
    ensures r.Success? ==> r.value == node.value
    ensures r.Failure? ==> r.error == MissingNode
  {
    match node
    case None => Failure(MissingNode)
    case Some(v) => Success(v)
  }

  /** `parse_goals`: no goal events are read. */
  function ParseGoals(side: Side): seq<Event> {
    []
  }

  /** The events before sorting: the goals of both sides, then the yellow
      cards of home and away, then their red cards. */
  function EventList(doc: Document): (r: Parsed<seq<Event>>)
    ensures r.Success? <==>
      && ParseCards(doc.yellowCards.home, YellowCard, Home).Success?
      && ParseCards(doc.yellowCards.away, YellowCard, Away).Success?
      && ParseCards(doc.redCards.home, RedCard, Home).Success?
      && ParseCards(doc.redCards.away, RedCard, Away).Success?
    ensures r.Success? ==>
      |r.value| == |doc.yellowCards.home| + |doc.yellowCards.away| + |doc.redCards.home| + |doc.redCards.away|
  {
    var yellowHome :- ParseCards(doc.yellowCards.home, YellowCard, Home);
    var yellowAway :- ParseCards(doc.yellowCards.away, YellowCard, Away);
    var redHome :- ParseCards(doc.redCards.home, RedCard, Home);
    var redAway :- ParseCards(doc.redCards.away, RedCard, Away);
    Success(ParseGoals(Home) + ParseGoals(Away) + yellowHome + yellowAway + redHome + redAway)
  }

  /** The parts read before the lineups, in the record's key order. */
  datatype Header = Header(league: string, date: string, home: Team, away: Team,
                           scores: Option<Score>, attendance: Option<nat>)

  /** League, date, home team, away team, score and attendance, the first
      that fails aborting. */
  function ParseHeader(doc: Document): (r: Parsed<Header>)
    ensures r.Success? <==>
      && doc.leagueName.Some? && doc.date.Some?
      && doc.homeTeam.Some? && ParseTeam(doc.homeTeam.value).Success?
      && doc.awayTeam.Some? && ParseTeam(doc.awayTeam.value).Success?
      && ParseScores(doc.score).Success? && ParseAttendance(doc.attendance).Success?
    ensures r.Success? ==>
      && r.value.league == doc.leagueName.value && r.value.date == doc.date.value
      && ParseTeam(doc.homeTeam.value) == Success(r.value.home)
      && ParseTeam(doc.awayTeam.value) == Success(r.value.away)
      && ParseScores(doc.score) == Success(r.value.scores)
      && ParseAttendance(doc.attendance) == Success(r.value.attendance)
  {
    var league :- Required(doc.leagueName);
    var date :- Required(doc.date);
    var homeAnchor :- Required(doc.homeTeam);
    var home :- ParseTeam(homeAnchor);
    var awayAnchor :- Required(doc.awayTeam);
    var away :- ParseTeam(awayAnchor);
    var scores :- ParseScores(doc.score);
    var attendance :- ParseAttendance(doc.attendance);
    Success(Header(league, date, home, away, scores, attendance))
  }

  /** The starting and substitute lineups, home before away. */
  function ParseLineups(doc: Document): (r: Parsed<PerSide<Lineup>>)
    ensures r.Success? <==>
      && ParseLineup(doc.startings.home, Home).Success?
      && ParseLineup(doc.substitutes.home, Home).Success?
      && ParseLineup(doc.startings.away, Away).Success?
      && ParseLineup(doc.substitutes.away, Away).Success?
    ensures r.Success? ==>
      && ParseLineup(doc.startings.home, Home) == Success(r.value.home.starting)
      && ParseLineup(doc.substitutes.home, Home) == Success(r.value.home.substitute)
      && ParseLineup(doc.startings.away, Away) == Success(r.value.away.starting)
      && ParseLineup(doc.substitutes.away, Away) == Success(r.value.away.substitute)
  {
    var homeStarting :- ParseLineup(doc.startings.home, Home);
    var homeSubstitute :- ParseLineup(doc.substitutes.home, Home);
    var awayStarting :- ParseLineup(doc.startings.away, Away);
    var awaySubstitute :- ParseLineup(doc.substitutes.away, Away);
    Success(PerSide(Lineup(homeStarting, homeSubstitute), Lineup(awayStarting, awaySubstitute)))
  }

  /** Both sides' substitutions, home first; one per complete pair of
      anchors. */
  function ParseSubstitutionLists(doc: Document): (r: Parsed<PerSide<seq<Substitution>>>)
    ensures r.Success? <==>
      PairSubstitutions(doc.substitutions.home).Success? && PairSubstitutions(doc.substitutions.away).Success?
    ensures r.Success? ==>
      && PairSubstitutions(doc.substitutions.home) == Success(r.value.home)
      && PairSubstitutions(doc.substitutions.away) == Success(r.value.away)
      && |r.value.home| == |doc.substitutions.home| / 2
      && |r.value.away| == |doc.substitutions.away| / 2
  {
    PairCount(doc.substitutions.home);
    PairCount(doc.substitutions.away);
    var home :- PairSubstitutions(doc.substitutions.home);
    var away :- PairSubstitutions(doc.substitutions.away);
    Success(PerSide(home, away))
  }

  /** The unsorted events are the home yellow cards, the away yellow
      cards, the home red cards and the away red cards, in that order. */
  lemma EventListOfCards(doc: Document, yellowHome: seq<Event>, yellowAway: seq<Event>,
                         redHome: seq<Event>, redAway: seq<Event>)
    requires ParseCards(doc.yellowCards.home, YellowCard, Home) == Success(yellowHome)
    requires ParseCards(doc.yellowCards.away, YellowCard, Away) == Success(yellowAway)
    requires ParseCards(doc.redCards.home, RedCard, Home) == Success(redHome)
    requires ParseCards(doc.redCards.away, RedCard, Away) == Success(redAway)
    ensures EventList(doc) == Success(yellowHome + yellowAway + redHome + redAway)
  {
    assert ParseGoals(Home) + ParseGoals(Away) + yellowHome == yellowHome;
  }

  /** `parse`: every part in the order of the record's keys, the first
      part that fails aborting. The events of a record are the cards in key
      order: sorted, a rearrangement of the unsorted list, and in that
      list's order within each minute; no shoot-out is ever recorded. */
  function Parse(doc: Document): (r: Parsed<MatchRecord>)
    ensures r.Success? <==>
      && ParseHeader(doc).Success? && ParseLineups(doc).Success? && EventList(doc).Success?
      && ParseSubstitutionLists(doc).Success? && ParseReferee(doc.referee).Success?
    ensures r.Success? ==>
      var h := ParseHeader(doc).value;
      && r.value.league == h.league && r.value.date == h.date
      && r.value.home == h.home && r.value.away == h.away
      && r.value.scores == h.scores && r.value.attendance == h.attendance
    ensures r.Success? ==>
      && r.value.lineup == ParseLineups(doc).value
      && r.value.substitutions == ParseSubstitutionLists(doc).value
      && ParseReferee(doc.referee) == Success(r.value.referee)
    ensures r.Success? ==>
      && Sorted(r.value.events)
      && multiset(r.value.events) == multiset(EventList(doc).value)
      && SameOrderPerMinute(r.value.events, EventList(doc).value)
    ensures r.Success? ==> r.value.shootout == map[]
  {
    var header :- ParseHeader(doc);
    var lineup :- ParseLineups(doc);
    var events :- EventList(doc);
    var substitutions :- ParseSubstitutionLists(doc);
    var referee :- ParseReferee(doc.referee);
    SortCharacterized(events, SortEvents(events));
    Success(MatchRecord(
      header.league, header.date, header.home, header.away, header.scores, header.attendance,
      lineup, SortEvents(events), substitutions, referee, map[]))
  }

  /** The record exists exactly when every part can be read. */
  lemma ParseSucceeds(doc: Document)
    ensures Parse(doc).Success? <==>
      && doc.leagueName.Some? && doc.date.Some?
      && doc.homeTeam.Some? && ParseTeam(doc.homeTeam.value).Success?
      && doc.awayTeam.Some? && ParseTeam(doc.awayTeam.value).Success?
      && ParseScores(doc.score).Success?
      && ParseAttendance(doc.attendance).Success?
      && ParseLineup(doc.startings.home, Home).Success?
      && ParseLineup(doc.substitutes.home, Home).Success?
      && ParseLineup(doc.startings.away, Away).Success?
      && ParseLineup(doc.substitutes.away, Away).Success?
      && EventList(doc).Success?
      && PairSubstitutions(doc.substitutions.home).Success?
      && PairSubstitutions(doc.substitutions.away).Success?
      && ParseReferee(doc.referee).Success?
  {
  }
}

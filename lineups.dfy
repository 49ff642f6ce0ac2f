/** Starting and substitute lineups: one player per non-blank table row,
    with the number and name cells mirrored between the sides. */
module Lineups {

  import opened Wrappers
  import opened Text
  import opened Fields

  /** A `<td>` of a lineup row: its text and its first `<a>` child. */
  datatype Cell = Cell(text: string, anchor: Option<Anchor>)

  /** A `<tr>` of a lineup table: its whole text and its cells in order. */
  datatype Row = Row(text: string, cells: seq<Cell>)

  datatype LineupPlayer = LineupPlayer(number: int, id: int, name: string)

  /** A spacer row: its stripped text is empty, that is, it holds
      nothing but whitespace. */
  predicate IsBlank(row: Row) {
    AllSpace(row.text)
  }

  /** `parse_player_with_number`: the shirt number from one cell, the
      player from the anchor of the other, as the side dictates. A missing
      cell or anchor, a number int() rejects, or an anchor without a name
      aborts the lineup. */
  function ParsePlayerWithNumber(row: Row, side: Side): (r: Parsed<LineupPlayer>)
    ensures r.Failure? ==> r.error == MissingNode || r.error == NotAnInteger || r.error == NoPlayer
    ensures r.Success? ==> r.value.name != []
  {
    var numberCell, nameCell := side.NumberCell(), side.NameCell();
    if |row.cells| <= numberCell then Failure(MissingNode)
    else
      var number :- ToInt(row.cells[numberCell].text);
      if |row.cells| <= nameCell || row.cells[nameCell].anchor.None? then Failure(MissingNode)
      else
        var player :- ParsePlayer(row.cells[nameCell].anchor.value);
        if player.None? then Failure(NoPlayer)
        else Success(LineupPlayer(number, player.value.id, player.value.name))
  }

  /** What a row that parses holds: the number int() reads from the number
      cell and the player the name cell's anchor gives. */
  lemma PlayerWithNumberReads(row: Row, side: Side)
    requires ParsePlayerWithNumber(row, side).Success?
    ensures var p := ParsePlayerWithNumber(row, side).value;
      && side.NumberCell() < |row.cells| && side.NameCell() < |row.cells|
      && row.cells[side.NameCell()].anchor.Some?
      && ToInt(row.cells[side.NumberCell()].text) == Success(p.number)
      && ParsePlayer(row.cells[side.NameCell()].anchor.value) == Success(Some(Player(p.id, p.name)))
  {
  }

  /** Conversely, a row whose number cell int() reads and whose name cell
      holds a player's anchor parses as that player. */
  lemma PlayerWithNumberOfParts(row: Row, side: Side, number: int, player: Player)
    requires side.NumberCell() < |row.cells| && side.NameCell() < |row.cells|
    requires row.cells[side.NameCell()].anchor.Some?
    requires ToInt(row.cells[side.NumberCell()].text) == Success(number)
    requires ParsePlayer(row.cells[side.NameCell()].anchor.value) == Success(Some(player))
    ensures ParsePlayerWithNumber(row, side) == Success(LineupPlayer(number, player.id, player.name))
  {
  }

  /** A row fails exactly when a cell or the anchor is missing, int()
      rejects the number, or the anchor gives no player. */
  lemma PlayerWithNumberFails(row: Row, side: Side)
    ensures ParsePlayerWithNumber(row, side).Failure? <==>
      || |row.cells| <= side.NumberCell() || ToInt(row.cells[side.NumberCell()].text).Failure?
      || |row.cells| <= side.NameCell() || row.cells[side.NameCell()].anchor.None?
      || ParsePlayer(row.cells[side.NameCell()].anchor.value).Failure?
      || ParsePlayer(row.cells[side.NameCell()].anchor.value).value.None?
  {
  }

  /** The away side reads a row as the home side reads the same row with
      its first two cells swapped. */
  lemma SidesMirror(text: string, text': string, first: Cell, second: Cell, rest: seq<Cell>)
    ensures ParsePlayerWithNumber(Row(text, [first, second] + rest), Home)
         == ParsePlayerWithNumber(Row(text', [second, first] + rest), Away)
  {
    assert ([first, second] + rest)[0] == first && ([first, second] + rest)[1] == second;
    assert ([second, first] + rest)[0] == second && ([second, first] + rest)[1] == first;
  }

  /** A home row "<number> | <linked name>" reads as that player. */
  lemma HomeRow(text: string, number: int, segments: seq<string>, id: int, name: string,
                sibling: Option<string>, rest: seq<Cell>, numberAnchor: Option<Anchor>, nameText: string)
    requires |segments| >= 1 && Last(segments) == IntToString(id)
    requires forall k :: 0 <= k < |segments| ==> '=' !in segments[k]
    requires !AllSpace(name)
    ensures
      var numberCell := Cell(IntToString(number), numberAnchor);
      var nameCell := Cell(nameText, Some(Anchor(Join(segments, '='), name, sibling)));
      ParsePlayerWithNumber(Row(text, [numberCell, nameCell] + rest), Home)
      == Success(LineupPlayer(number, id, Strip(name)))
  {
    var numberCell := Cell(IntToString(number), numberAnchor);
    var nameCell := Cell(nameText, Some(Anchor(Join(segments, '='), name, sibling)));
    var cells := [numberCell, nameCell] + rest;
    assert cells[0] == numberCell && cells[1] == nameCell;
    ToIntRoundTrip(number);
    PlayerFromLink(segments, id, name, sibling);
    PlayerWithNumberOfParts(Row(text, cells), Home, number, Player(id, Strip(name)));
  }

  /** The rows whose stripped text is not empty, in their order. */
  function NonBlank(rows: seq<Row>): (r: seq<Row>)
    ensures |r| <= |rows|
    ensures forall k :: 0 <= k < |r| ==> !IsBlank(r[k]) && r[k] in rows
    ensures forall row :: row in rows && !IsBlank(row) ==> row in r
    decreases |rows|
  {
    if rows == [] then []
    else
      var rest := NonBlank(rows[1..]);
      assert forall row :: row in rows[1..] ==> row in rows;
      assert forall row :: row in rows ==> row == rows[0] || row in rows[1..];
      if IsBlank(rows[0]) then rest else [rows[0]] + rest
  }

  /** Filtering keeps the order: rows of the first part come before rows of
      the second. */
  lemma {:induction false} NonBlankAppend(a: seq<Row>, b: seq<Row>)
    ensures NonBlank(a + b) == NonBlank(a) + NonBlank(b)
    decreases |a|
  {
    if a == [] {
      assert a + b == b;
    } else {
      assert (a + b)[0] == a[0] && (a + b)[1..] == a[1..] + b;
      NonBlankAppend(a[1..], b);
    }
  }

  /** Blank rows contribute nothing, non-blank rows exactly themselves. */
  lemma NonBlankSingle(row: Row)
    ensures NonBlank([row]) == if IsBlank(row) then [] else [row]
  {
    assert [row][1..] == [];
  }

  /** One lineup entry per row, in order; the first row that fails
      aborts with its error. */
  function ParseRows(rows: seq<Row>, side: Side): (r: Parsed<seq<LineupPlayer>>)
    ensures r.Success? <==> forall k :: 0 <= k < |rows| ==> ParsePlayerWithNumber(rows[k], side).Success?
    ensures r.Success? ==> |r.value| == |rows|
    ensures r.Success? ==>
      forall k :: 0 <= k < |rows| ==> ParsePlayerWithNumber(rows[k], side) == Success(r.value[k])
    ensures r.Failure? ==>
      exists k :: 0 <= k < |rows| && ParsePlayerWithNumber(rows[k], side) == Failure(r.error)
        && forall j :: 0 <= j < k ==> ParsePlayerWithNumber(rows[j], side).Success?
  {
    var results := seq(|rows|, k requires 0 <= k < |rows| => ParsePlayerWithNumber(rows[k], side));
    assert forall k :: 0 <= k < |rows| ==> results[k] == ParsePlayerWithNumber(rows[k], side);
    Collect(results)
  }

  /** `parse_startings` and `parse_substitutes`: the lineup reads the
      non-blank rows in order, and succeeds exactly when every non-blank
      row holds a player. */
  function ParseLineup(rows: seq<Row>, side: Side): (r: Parsed<seq<LineupPlayer>>)
    ensures r.Success? <==>
      forall row :: row in rows && !IsBlank(row) ==> ParsePlayerWithNumber(row, side).Success?
    ensures r.Success? ==> |r.value| == |NonBlank(rows)| <= |rows|
    ensures r.Success? ==>
      forall k :: 0 <= k < |r.value| ==> ParsePlayerWithNumber(NonBlank(rows)[k], side) == Success(r.value[k])
  {
    ParseRows(NonBlank(rows), side)
  }
}

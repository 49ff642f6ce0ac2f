# Match result parser model

A Dafny model of `ResultParser` from `result.py`. The parser reads the
result page of one football match and returns a record with these parts:

- the league name and the date;
- both teams;
- the full-time score and the attendance;
- the starting and substitute lineups of each side;
- the yellow-card and red-card events, sorted by minute;
- both sides' substitutions;
- the referee;
- an always-empty shoot-out entry.

The HTML document is not modelled. A `Match.Document` holds what each CSS selection would return:

- a single selection is an `Option` of a text or an `Anchor`: an anchor has its `href`, its text and the text node that follows it, and `None` stands for a selector that matched nothing;
- a list selection is a sequence of table rows or anchors per side.

Every Python exception the parser lets escape is an `Error` value (`Fields.Error`), so no partial record is built:

- `AttributeError` on `.text` of a missing node;
- `IndexError` from a split with too few parts;
- `ValueError` from `int()`;
- `TypeError` from `re.search` on a missing sibling or from `**None`.

Modules, in dependency order:

- `Wrappers`: `Option` and `Result`, and `Collect`, which evaluates a list of results in order and stops at the first failure (a comprehension or a loop that raises).
- `Text`: the Python string operations used, `strip()` and `split(sep)`, and decimal digits. It also defines `join` and the decimal rendering `NatToString`, which the source does not call; they exist to state the round-trip lemmas.
- `Fields`: `int()`, `parse_minute`, `parse_team`, `parse_player`, `parse_scores`, `parse_attendance`, `parse_referee`.
- `Lineups`: `parse_player_with_number`, with the number and name cells mirrored between home and away; `parse_startings` and `parse_substitutes`, which skip blank rows.
- `Cards`: `parse_card`, `parse_yellow_cards`, `parse_red_cards`.
- `Substitutions`: `parse_substitutions`, both as a function and as the source's loop over anchor pairs (a method proved equal to the function).
- `Events`: the stable sort by the key `(minute is None, minute)`, proved sorted, a permutation, stable, and the only sequence with those properties.
- `Match`: `parse`, which reads the record in its key order, and `parse_goals`, which returns no events.
- `Scenarios`: concrete pages worked out: an English and a Chinese referee line, and a whole page with teams 5 and 9, the score "2:1", an attendance of 1000 and one home yellow card at "34'".

Points where the code's behaviour is easy to mistake:

- There are no goal events and no shoot-out: `parse_goals` (result.py:84-85) returns `[]`, the shoot-out readers (result.py:70-74) are empty, and `shootout` is always `{}` (result.py:201). `Match.Parse` proves the empty shoot-out, and `Match.EventList` proves that the events are the cards only.
- Attendance is not optional in every case: a missing node or a text without `:` raises (result.py:34-38), so `Fields.ParseAttendance` fails in those cases. Only a value that is not all digits gives `None`. The value read is `split(":")[1]`, the text between the first and the second colon.
- Ids may be negative: they are read with `int()` (result.py:46, 80), which accepts a sign, so ids are `int`.

## Model

| member | source | states |
|---|---|---|
| Wrappers.Collect | result.py:102-106 | the list succeeds iff every element does; its values are the elements' values in order; otherwise the error is that of the first failing element |
| Wrappers.CollectStep | result.py:148-157 | evaluating one more element after a successful prefix appends its value or fails with its error |
| Wrappers.CollectFailureSticks | result.py:148-157 | once a prefix has failed, the whole list fails with the same error |
| Text.Strip | result.py:78 | `strip()` gives the empty text exactly when the text is all whitespace |
| Text.StripPadded | result.py:78 | stripping whitespace padding gives back a text that has no whitespace at either end |
| Text.StripIdempotent | result.py:165 | stripping twice is stripping once |
| Text.Split | result.py:46 | `split` always yields at least one part |
| Text.SplitParts | result.py:46 | no part of a split contains the separator |
| Text.JoinSplit | result.py:46 | joining the parts of a split gives back the text |
| Text.SplitJoin | result.py:46 | splitting joined parts that hold no separator gives back the parts |
| Text.SplitHasSeparator | result.py:38 | a split has a second part exactly when the text holds the separator |
| Text.SplitPair | result.py:38 | a text with a single separator splits into the two sides |
| Text.NatToString | result.py:42 | a helper for the round-trip lemmas, not called by the source: the decimal rendering of n is a non-empty digit run without leading zeros whose value is n, the digits `int()` reads back |
| Fields.ToInt | result.py:90 | `int()` succeeds exactly when the stripped text is an optionally signed run of digits, and otherwise raises `ValueError` |
| Fields.ToIntRoundTrip | result.py:90 | `int(str(n)) == n` for every integer n |
| Fields.ToIntPadded | result.py:90 | `int()` ignores surrounding whitespace |
| Fields.ParseMinute | result.py:118-121 | no minute exactly when the text has no digit; otherwise the value of the leftmost maximal digit run |
| Fields.MinuteOfMarker | result.py:118-121 | a marker such as "34'" reads as 34 whatever non-digit text precedes it |
| Fields.FirstDigitRunUnique | result.py:120 | the leftmost maximal digit run of a text is unique |
| Fields.ParseTeam | result.py:44-46 | fails when the link has fewer than three `/` segments; succeeds iff segment 2 is an integer; the id is that integer and the name is the anchor text unchanged |
| Fields.TeamFromLink | result.py:44-46 | a link whose third segment is `str(n)` names team n |
| Fields.ParsePlayer | result.py:76-82 | the result is "no player" iff the stripped text is empty; otherwise succeeds iff the last `=` segment is an integer; the name is the stripped text and the id is that integer |
| Fields.PlayerFromLink | result.py:76-82 | a link ending in `=str(n)` with a non-blank text is player n with the stripped name |
| Fields.ParseScores | result.py:60-68 | a missing node fails; a present node succeeds iff its parts are the placeholder `["-", "-"]` or there are two parts that `int()` accepts; a score holds the integers of the first two `:` parts |
| Fields.PlaceholderSplit | result.py:63-64 | the parts are `["-", "-"]` exactly when the text is "-:-" |
| Fields.ScoresPlaceholder | result.py:64 | the score is absent exactly when the text is "-:-" |
| Fields.ScoresRoundTrip | result.py:60-68 | the text "H:A" written by `str` reads back as home H and away A |
| Fields.ParseAttendance | result.py:33-42 | a missing node fails; succeeds iff the text holds `:`; a number exactly when the stripped second part is a non-empty digit run, with that run's value |
| Fields.AttendanceOfLabel | result.py:33-42 | "heading: n" with whitespace around n reads as n |
| Fields.ParseReferee | result.py:160-167 | absent iff the row is missing or has no colon of either kind; an ASCII colon anywhere wins over the full-width colon; otherwise the value of the first line, or the error of reading it |
| Fields.LabelValue | result.py:165 | reading "heading<sep>value" succeeds iff the first line of the stripped text holds the separator, and otherwise raises `IndexError` |
| Fields.LabelValueOfLine | result.py:165 | the first line "heading:value" of a stripped text gives the stripped value, whatever lines follow |
| Fields.RefereeLine | result.py:160-167 | a referee row whose first line is "heading:value" or "heading：value" gives the stripped value, whatever whitespace pads the row and whatever lines follow |
| Scenarios.RefereeEnglish | result.py:164-165 | "Referee: John Doe" gives "John Doe" |
| Scenarios.RefereeChinese | result.py:166-167 | "裁判：張三" gives "張三" |
| Scenarios.ExampleTeams | result.py:44-46 | the links "/team/5" and "/team/9" give teams 5 and 9 |
| Scenarios.ExampleScore | result.py:60-68 | "2:1" gives home 2, away 1 |
| Scenarios.ExampleAttendance | result.py:33-42 | "Attendance: 1000" gives 1000 |
| Scenarios.ExamplePlayer | result.py:76-82 | the link "?id=7" with text "Tom" gives player 7 named "Tom" |
| Scenarios.ExampleMinute | result.py:118-121 | "34'" gives minute 34 |
| Scenarios.ExampleBooking | result.py:123-129 | that link followed by "34'" is a home yellow card for player 7 in minute 34 |
| Scenarios.ExampleHeader | result.py:171-176 | the example page's league, date, teams, score and attendance |
| Scenarios.ExampleEvents | result.py:187-193 | the example page's unsorted events are its one booking |
| Scenarios.ExampleRecord | result.py:169-202 | the example page gives a record with those teams, score and attendance, the booking as its only event, no substitutions, no referee and no shoot-out |
| Lineups.ParsePlayerWithNumber | result.py:87-96 | a row fails only for a missing node, a rejected integer or a blank name, and a parsed player has a non-empty name; the full account is in `PlayerWithNumberReads`, `PlayerWithNumberOfParts`, `PlayerWithNumberFails` and `SidesMirror` |
| Lineups.PlayerWithNumberReads | result.py:87-96 | a row that parses has both cells and the anchor; its number is int() of the number cell and its player is the name anchor's player |
| Lineups.PlayerWithNumberOfParts | result.py:87-96 | conversely, such cells parse as that number and player |
| Lineups.PlayerWithNumberFails | result.py:87-96 | a row fails exactly when a cell or the anchor is missing, int() rejects the number, the anchor's id is not an integer, or the anchor has no name |
| Lineups.SidesMirror | result.py:88-96 | the away side reads a row as the home side reads it with the first two cells swapped |
| Lineups.HomeRow | result.py:88-92 | a home row "number, linked name" reads as that number and player |
| Lineups.NonBlank | result.py:102-106 | the rows kept are non-blank rows of the input, and every non-blank row is kept |
| Lineups.NonBlankAppend | result.py:102-106 | the filter keeps the rows in order |
| Lineups.NonBlankSingle | result.py:105 | a blank row is dropped, a non-blank row kept |
| Lineups.ParseRows | result.py:102-104 | one entry per row, in order, iff every row parses; otherwise the first failing row's error |
| Lineups.ParseLineup | result.py:98-116 | succeeds iff every non-blank row parses; one entry per non-blank row, in order, each the row's player |
| Cards.ParseCard | result.py:123-129 | succeeds iff the player parses and a sibling text exists; kind and side as given; player from the anchor; minute from the sibling; a player error propagates |
| Cards.LabelsIdentify | result.py:125-126 | the record's `event` strings ("Yellow Card", "Red Card") and `team` strings ("HOME", "AWAY") identify the kind and the side one-to-one |
| Cards.CardFromMarker | result.py:123-129 | a player link followed by a marker such as "34'" is a booking of that player in that minute |
| Cards.ParseCards | result.py:131-141 | one event per anchor, in order, all of the given kind and side, iff every anchor parses; otherwise the first failing anchor's error |
| Substitutions.ParsePair | result.py:149-156 | one pair succeeds iff both players parse and the second anchor has a sibling; the in-player's error comes first, then the out-player's; the minute is read after the second anchor |
| Substitutions.PairResults | result.py:148-150 | one outcome per complete pair, pair i being anchors 2i and 2i+1; an odd last anchor is ignored |
| Substitutions.PairSubstitutions | result.py:143-158 | the side's substitutions succeed iff every complete pair does, with one substitution per pair |
| Substitutions.PairCount | result.py:143-158 | on success, one substitution per pair with the in-player from anchor 2i, the out-player from anchor 2i+1 and the minute after anchor 2i+1; on failure, the error is that of the first failing pair |
| Substitutions.ParseSubstitutions | result.py:143-158 | the loop over pairs returns exactly `PairSubstitutions`: the pairs in order, or the first failing pair's error |
| Events.MinuteLeTotalOrder | result.py:194 | the key order is reflexive, total, antisymmetric and transitive |
| Events.SortedMeaning | result.py:194 | sorted means no event with a minute after one without, and minutes non-decreasing |
| Events.SortEvents | result.py:187-195 | the result is sorted by the key and is a permutation of the input |
| Events.InsertWithMinute | result.py:187-195 | insertion puts the new event before every event with the same minute |
| Events.SortStable | result.py:187-195 | for every minute, the events with that minute keep their input order |
| Events.SortedUnique | result.py:187-195 | two sorted sequences that agree minute by minute are equal |
| Events.SortCharacterized | result.py:187-195 | a sequence is sorted and keeps each minute's order iff it is the sort's result, so any stable sort gives it |
| Match.Required | result.py:24-26 | `.text` of a selection succeeds iff the node exists, with its value; otherwise a missing-node error |
| Match.EventList | result.py:188-193 | the unsorted events exist iff all four card lists parse, and number exactly the card anchors, goals adding none |
| Match.EventListOfCards | result.py:188-193 | the unsorted events are the home yellow, away yellow, home red and away red cards, in that order |
| Match.ParseHeader | result.py:171-176 | league and date are the nodes' texts; teams, score and attendance are their parsers' results; succeeds iff all exist and parse |
| Match.ParseLineups | result.py:177-186 | the four lineups are the lineup parser's results; succeeds iff all four do |
| Match.ParseSubstitutionLists | result.py:196-199 | both sides' substitutions, one per complete anchor pair; succeeds iff both sides do |
| Match.Parse | result.py:169-202 | succeeds iff every part does; fields are the parts' results; the events are sorted, a permutation of the concatenated cards, in their order within each minute; the shoot-out is empty |
| Match.ParseSucceeds | result.py:169-202 | the record exists exactly when every node exists and every extractor succeeds |

## Left out

- Fetching the page (`get_result`, result.py:205-208) and parsing HTML with BeautifulSoup are not modelled. The CSS selectors become the fields of `Match.Document`.
- The shoot-out methods (result.py:70-74) are `pass` in the source. They are not modelled; the record's `shootout` is the empty map.
- `parse_goals` returns `[]`. It is modelled as `Match.ParseGoals`, which needs no contract.
- Unicode is not modelled. `\d`, `isnumeric()` and `int()` accept ASCII digits only, and `strip()`/`int()` remove a fixed whitespace set; Python accepts every Unicode digit and space. So the model does not show that `isnumeric()` accepts characters such as "三" or "²" that `int()` then rejects.
- `int()` accepting underscores between digits is not modelled.
- A missing `href` attribute (`KeyError`) is not modelled: every anchor has an `href`.
- A `next_sibling` that is an element rather than a text node is not modelled. `Anchor.nextSibling` is the sibling's text, or `None` when there is none.
- Python's Timsort is modelled by a stable insertion sort. `Events.SortCharacterized` shows that every stable sort by the same key gives the same sequence.
- Match.Parse: states which parts must succeed and what the record then holds, not which error a failing record reports. The body evaluates the parts in the source's order, so the first failure is the one returned.

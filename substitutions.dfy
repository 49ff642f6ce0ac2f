/** Substitutions: a side's substitution cell lists its anchors in pairs,
    the player coming on followed by the player going off, the minute
    written after the second anchor. */
module Substitutions {

  import opened Wrappers
  import opened Text
  import opened Fields

  datatype Substitution = Substitution(playerIn: Option<Player>, playerOut: Option<Player>, minute: Option<nat>)

  /** One substitution from the anchors `first` and `second`: the player
      coming on, then the player going off, then the minute after `second`;
      the first of those that fails aborts. */
  function ParsePair(first: Anchor, second: Anchor): (r: Parsed<Substitution>)
    ensures r.Success? <==>
      ParsePlayer(first).Success? && ParsePlayer(second).Success? && second.nextSibling.Some?
    ensures ParsePlayer(first).Failure? ==> r == Failure(ParsePlayer(first).error)
    ensures ParsePlayer(first).Success? && ParsePlayer(second).Failure? ==> r == Failure(ParsePlayer(second).error)
    ensures r.Success? ==>
      && ParsePlayer(first) == Success(r.value.playerIn)
      && ParsePlayer(second) == Success(r.value.playerOut)
      && r.value.minute == ParseMinute(second.nextSibling.value)
  {
    var playerIn :- ParsePlayer(first);
    var playerOut :- ParsePlayer(second);
    if second.nextSibling.None? then Failure(NotText)
    else Success(Substitution(playerIn, playerOut, ParseMinute(second.nextSibling.value)))
  }

  /** One outcome per complete pair of anchors, in order: pair `i` is
      anchors `2 * i` and `2 * i + 1`, and an odd last anchor is ignored. */
  function PairResults(players: seq<Anchor>): (r: seq<Parsed<Substitution>>)
    ensures |r| == |players| / 2
    ensures forall i :: 0 <= i < |r| ==> r[i] == ParsePair(players[2 * i], players[2 * i + 1])
  {
    seq(|players| / 2, i requires 0 <= i < |players| / 2 => ParsePair(players[2 * i], players[2 * i + 1]))
  }

  /** `parse_substitutions` as a value: the pairs evaluated in order, the
      first that fails aborting. */
  function PairSubstitutions(players: seq<Anchor>): (r: Parsed<seq<Substitution>>)
    ensures r.Success? <==>
      forall i :: 0 <= i < |players| / 2 ==> ParsePair(players[2 * i], players[2 * i + 1]).Success?
    ensures r.Success? ==> |r.value| == |players| / 2
  {
    Collect(PairResults(players))
  }

  /** A cell whose pairs all parse gives one substitution per pair, the
      `i`-th with the players of anchors `2 * i` and `2 * i + 1`; otherwise
      the first pair that fails gives the error. */
  lemma PairCount(players: seq<Anchor>)
    ensures PairSubstitutions(players).Success? ==> |PairSubstitutions(players).value| == |players| / 2
    ensures PairSubstitutions(players).Success? ==> forall i :: 0 <= i < |players| / 2 ==>
      var s := PairSubstitutions(players).value[i];
      && ParsePlayer(players[2 * i]) == Success(s.playerIn)
      && ParsePlayer(players[2 * i + 1]) == Success(s.playerOut)
      && players[2 * i + 1].nextSibling.Some?
      && s.minute == ParseMinute(players[2 * i + 1].nextSibling.value)
    ensures PairSubstitutions(players).Failure? ==>
      exists i :: 0 <= i < |players| / 2
        && ParsePair(players[2 * i], players[2 * i + 1]) == Failure(PairSubstitutions(players).error)
        && forall j :: 0 <= j < i ==> ParsePair(players[2 * j], players[2 * j + 1]).Success?
  {
    var results := PairResults(players);
    if PairSubstitutions(players).Success? {
      var subs := PairSubstitutions(players).value;
      forall i | 0 <= i < |players| / 2
        ensures ParsePlayer(players[2 * i]) == Success(subs[i].playerIn)
        ensures ParsePlayer(players[2 * i + 1]) == Success(subs[i].playerOut)
        ensures players[2 * i + 1].nextSibling.Some?
        ensures subs[i].minute == ParseMinute(players[2 * i + 1].nextSibling.value)
      {
        assert results[i] == Success(subs[i]);
      }
    }
  }

  /** `parse_substitutions`: walks the pairs, appending one substitution
      per pair and stopping at the first pair that fails. */
  method ParseSubstitutions(players: seq<Anchor>) returns (r: Parsed<seq<Substitution>>)
    ensures r == PairSubstitutions(players)
  {
    ghost var results := PairResults(players);
    var subs: seq<Substitution> := [];
    var i := 0;
    while i < |players| / 2
      invariant 0 <= i <= |players| / 2
      invariant Collect(results[..i]) == Success(subs)
    {
      var first, second := players[2 * i], players[2 * i + 1];
      CollectStep(results, i, subs);
      var playerIn := ParsePlayer(first);
      if playerIn.Failure? {
        CollectFailureSticks(results, i + 1);
        return Failure(playerIn.error);
      }
      var playerOut := ParsePlayer(second);
      if playerOut.Failure? {
        CollectFailureSticks(results, i + 1);
        return Failure(playerOut.error);
      }
      if second.nextSibling.None? {
        CollectFailureSticks(results, i + 1);
        return Failure(NotText);
      }
      var minute := ParseMinute(second.nextSibling.value);
      subs := subs + [Substitution(playerIn.value, playerOut.value, minute)];
      i := i + 1;
    }
    assert results[..i] == results;
    return Success(subs);
  }
}

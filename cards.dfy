/** Booking events: one per `<a>` in a side's yellow-card or red-card cell,
    the minute read from the text that follows the anchor. */
module Cards {

  import opened Wrappers
  import opened Text
  import opened Fields

  datatype Kind = YellowCard | RedCard {
    /** The value of the record's `event` key. */
    function Label(): string {
      match this
      case YellowCard => "Yellow Card"
      case RedCard => "Red Card"
    }
  }

  /** The strings the record's `event` and `team` keys carry name the kind
      and the side one-to-one, so the typed fields lose nothing. */
  lemma LabelsIdentify(k: Kind, k': Kind, s: Side, s': Side)
    ensures k.Label() == k'.Label() <==> k == k'
    ensures s.Name() == s'.Name() <==> s == s'
  {
    assert "Yellow Card"[0] != "Red Card"[0];
    assert "HOME"[0] != "AWAY"[0];
  }

  /** A match event: which card, the side's name, the player (absent when
      the anchor has no name) and the minute (absent when no digits follow
      the anchor). */
  datatype Event = Event(kind: Kind, team: Side, player: Option<Player>, minute: Option<nat>)

  /** `parse_card`: the player first, then the minute from the anchor's
      next sibling; an anchor with nothing after it aborts. */
  function ParseCard(a: Anchor, kind: Kind, side: Side): (r: Parsed<Event>)
    ensures r.Success? <==> ParsePlayer(a).Success? && a.nextSibling.Some?
    ensures ParsePlayer(a).Failure? ==> r == Failure(ParsePlayer(a).error)
    ensures ParsePlayer(a).Success? && a.nextSibling.None? ==> r == Failure(NotText)
    ensures r.Success? ==>
      && r.value.kind == kind && r.value.team == side
      && ParsePlayer(a) == Success(r.value.player)
      && r.value.minute == ParseMinute(a.nextSibling.value)
  {
    var player :- ParsePlayer(a);
    if a.nextSibling.None? then Failure(NotText)
    else Success(Event(kind, side, player, ParseMinute(a.nextSibling.value)))
  }

  /** A booking link followed by a minute marker such as "34'" reads as that
      player booked in that minute. */
  lemma CardFromMarker(segments: seq<string>, id: int, name: string, kind: Kind, side: Side,
                       prefix: string, minute: nat, suffix: string)
    requires |segments| >= 1 && Last(segments) == IntToString(id)
    requires forall k :: 0 <= k < |segments| ==> '=' !in segments[k]
    requires !AllSpace(name)
    requires NoDigit(prefix) && (suffix == [] || !IsDigit(suffix[0]))
    ensures
      var a := Anchor(Join(segments, '='), name, Some(prefix + NatToString(minute) + suffix));
      ParseCard(a, kind, side) == Success(Event(kind, side, Some(Player(id, Strip(name))), Some(minute)))
  {
    var sibling := prefix + NatToString(minute) + suffix;
    PlayerFromLink(segments, id, name, Some(sibling));
    MinuteOfMarker(prefix, minute, suffix);
  }

  /** `parse_yellow_cards` and `parse_red_cards`: one event per anchor, in
      order, all of the given kind and side; the first anchor that fails
      aborts with its error. */
  function ParseCards(anchors: seq<Anchor>, kind: Kind, side: Side): (r: Parsed<seq<Event>>)
    ensures r.Success? <==> forall k :: 0 <= k < |anchors| ==> ParseCard(anchors[k], kind, side).Success?
    ensures r.Success? ==> |r.value| == |anchors|
    ensures r.Success? ==>
      forall k :: 0 <= k < |anchors| ==> ParseCard(anchors[k], kind, side) == Success(r.value[k])
    ensures r.Success? ==> forall k :: 0 <= k < |r.value| ==> r.value[k].kind == kind && r.value[k].team == side
    ensures r.Failure? ==>
      exists k :: 0 <= k < |anchors| && ParseCard(anchors[k], kind, side) == Failure(r.error)
        && forall j :: 0 <= j < k ==> ParseCard(anchors[j], kind, side).Success?
  {
    var results := seq(|anchors|, k requires 0 <= k < |anchors| => ParseCard(anchors[k], kind, side));
    assert forall k :: 0 <= k < |anchors| ==> results[k] == ParseCard(anchors[k], kind, side);
    Collect(results)
  }
}

/** The decision policy of a computer-controlled seat (src/ai/AiPlayer.js). */
module AiPlayers {
  import opened Constants
  import opened Cards
  import opened Players
  import opened Rounds

  /** Below or at this hand penalty the policy quits rather than draws. */
  const QUIT_PENALTY_THRESHOLD: nat := 5

  /** What the policy asks the seat to do; `card` is null unless the action is PLAY_CARD. */
  datatype Decision = Decision(action: TurnAction, card: Card?)

  /**
   * Position `i` holds a card of the highest penalty in `cs`, and every card before it
   * costs strictly less: the first maximum in sequence order.
   */
  predicate FirstMaxAt(cs: seq<Card>, i: nat)
  {
    && i < |cs|
    && (forall k :: 0 <= k < |cs| ==> cs[k].PenaltyPoints() <= cs[i].PenaltyPoints())
    && (forall k :: 0 <= k < i ==> cs[k].PenaltyPoints() < cs[i].PenaltyPoints())
  }

  /** At most one position is the first maximum, so the choice below is determined by its input. */
  lemma FirstMaxUnique(cs: seq<Card>, i: nat, j: nat)
    requires FirstMaxAt(cs, i) && FirstMaxAt(cs, j)
    ensures i == j
  {
    assert cs[j].PenaltyPoints() <= cs[i].PenaltyPoints();
    assert cs[i].PenaltyPoints() <= cs[j].PenaltyPoints();
  }

  /** The cards of the hand that may go on the round's top card, in hand order. */
  method FindPlayableCards(player: Player, round: Round) returns (playable: seq<Card>)
    ensures playable == PlayableIn(player.hand, round.top)
  {
    var top := round.top;
    var hand := player.hand;
    playable := [];
    var i := 0;
    while i < |hand|
      invariant 0 <= i <= |hand|
      invariant playable == PlayableIn(hand[..i], top)
    {
      PlayableInSnoc(hand[..i], hand[i], top);
      assert hand[..i + 1] == hand[..i] + [hand[i]];
      if hand[i].CanPlayOn(top) {
        playable := playable + [hand[i]];
      }
      i := i + 1;
    }
    assert hand[..i] == hand;
  }

  /**
   * Plays the card with the highest penalty, to shed expensive cards first; a later card
   * replaces the current choice only when it costs strictly more, so the earliest one wins ties.
   */
  method ChooseCardToPlay(playable: seq<Card>) returns (d: Decision)
    requires playable != []
    ensures d.action == PlayCard
    ensures exists i: nat :: FirstMaxAt(playable, i) && d.card == playable[i]
  {
    var best := playable[0];
    ghost var bi := 0;
    var i := 1;
    while i < |playable|
      invariant 1 <= i <= |playable| && bi < i && best == playable[bi]
      invariant forall k :: 0 <= k < i ==> playable[k].PenaltyPoints() <= best.PenaltyPoints()
      invariant forall k :: 0 <= k < bi ==> playable[k].PenaltyPoints() < best.PenaltyPoints()
    {
      if playable[i].PenaltyPoints() > best.PenaltyPoints() {
        best := playable[i];
        bi := i;
      }
      i := i + 1;
    }
    assert FirstMaxAt(playable, bi);
    d := Decision(PlayCard, best);
  }

  /** Draw only when drawing is allowed and the hand already costs more than the threshold. */
  method ShouldDraw(player: Player, round: Round) returns (b: bool)
    requires round.Valid()
    ensures b <==> round.DrawAllowed(player) && HandPenalty(player.hand) > QUIT_PENALTY_THRESHOLD
  {
    var allowed := round.CanDraw(player);
    if !allowed {
      return false;
    }
    var penalty := player.GetHandPenalty();
    return penalty > QUIT_PENALTY_THRESHOLD;
  }

  /**
   * The turn the policy takes: play the costliest playable card if there is one; otherwise
   * draw when `ShouldDraw` says so, else quit. Nothing is changed.
   */
  method DecideAction(player: Player, round: Round) returns (d: Decision)
    requires round.Valid()
    ensures d.action in ActionList(PlayableIn(player.hand, round.top) != [], round.DrawAllowed(player))
    ensures d.action == PlayCard <==> PlayableIn(player.hand, round.top) != []
    ensures d.action == PlayCard ==>
      && d.card != null && d.card in player.hand && d.card.CanPlayOn(round.top)
      && (forall c :: c in player.hand && c.CanPlayOn(round.top) ==> c.PenaltyPoints() <= d.card.PenaltyPoints())
      && exists i: nat :: FirstMaxAt(PlayableIn(player.hand, round.top), i) && d.card == PlayableIn(player.hand, round.top)[i]
    ensures d.action != PlayCard ==> d.card == null
    ensures d.action == DrawCard <==>
      && PlayableIn(player.hand, round.top) == []
      && round.DrawAllowed(player)
      && HandPenalty(player.hand) > QUIT_PENALTY_THRESHOLD
  {
    var playable := FindPlayableCards(player, round);
    if playable != [] {
      d := ChooseCardToPlay(playable);
      ghost var i: nat :| FirstMaxAt(playable, i) && d.card == playable[i];
      forall c | c in player.hand && c.CanPlayOn(round.top)
        ensures c.PenaltyPoints() <= playable[i].PenaltyPoints()
      {
        var k :| 0 <= k < |playable| && playable[k] == c;
      }
      return;
    }
    var draw := ShouldDraw(player, round);
    if draw {
      d := Decision(DrawCard, null);
    } else {
      d := Decision(TurnAction.Quit, null);
    }
  }
}

/**
 * One round: the initial deal, the three player actions, end-of-round detection and
 * turn advance over the four seats (src/game/Round.js).
 */
module Rounds {
  import opened Constants
  import opened Cards
  import opened Decks
  import opened Players

  /**
   * Where a round stands. The source keeps this in three fields (`_roundOver`,
   * `_roundEndReason`, `_handEmptyPlayer`); one value keeps them consistent.
   */
  datatype RoundState = InProgress | EndedHandEmpty(emptied: Player) | EndedAllQuit

  /** The hands of the players, in seat order. */
  function Hands(ps: seq<Player>): (hs: seq<seq<Card>>)
    reads ps
    ensures |hs| == |ps| && forall k :: 0 <= k < |ps| ==> hs[k] == ps[k].hand
  {
    seq(|ps|, k requires 0 <= k < |ps| reads ps => ps[k].hand)
  }

  /** The statuses of the players, in seat order. */
  function Statuses(ps: seq<Player>): (ss: seq<PlayerStatus>)
    reads ps
    ensures |ss| == |ps| && forall k :: 0 <= k < |ps| ==> ss[k] == ps[k].status
  {
    seq(|ps|, k requires 0 <= k < |ps| reads ps => ps[k].status)
  }

  /** Number of active entries. */
  function CountActive(ss: seq<PlayerStatus>): nat
  {
    if ss == [] then 0 else (if ss[0] == Active then 1 else 0) + CountActive(ss[1..])
  }

  /** No one is active exactly when the count of active players is zero. */
  lemma {:induction false} CountActiveZero(ss: seq<PlayerStatus>)
    ensures CountActive(ss) == 0 <==> forall k :: 0 <= k < |ss| ==> ss[k] != Active
  {
    if ss != [] {
      CountActiveZero(ss[1..]);
      assert forall k :: 1 <= k < |ss| ==> ss[k] == ss[1..][k - 1];
    }
  }

  /** Quitting an active player lowers the active count by exactly one. */
  lemma {:induction false} CountActiveQuit(ss: seq<PlayerStatus>, k: nat)
    requires k < |ss| && ss[k] == Active
    ensures CountActive(ss[k := PlayerStatus.Quit]) == CountActive(ss) - 1
  {
    if k > 0 {
      assert ss[k := PlayerStatus.Quit][1..] == ss[1..][k - 1 := PlayerStatus.Quit];
      CountActiveQuit(ss[1..], k - 1);
    }
  }

  /** Seat of the first empty hand, or the number of seats when every hand holds a card. */
  function FirstEmpty(hands: seq<seq<Card>>): (k: nat)
    ensures k <= |hands|
    ensures k < |hands| ==> hands[k] == []
    ensures forall j :: 0 <= j < k ==> hands[j] != []
  {
    if hands == [] then 0
    else if hands[0] == [] then 0
    else 1 + FirstEmpty(hands[1..])
  }

  /**
   * The end check `_checkRoundEnd`: an ended round stays as it is; otherwise the
   * lowest seat with an empty hand ends it HAND_EMPTY, and failing that a table
   * with no active player ends it ALL_QUIT.
   */
  function Checked(e: RoundState, ps: seq<Player>, hands: seq<seq<Card>>, statuses: seq<PlayerStatus>): (r: RoundState)
    requires |hands| == |ps| == |statuses|
  {
    if !e.InProgress? then e
    else
      var k := FirstEmpty(hands);
      if k < |hands| then EndedHandEmpty(ps[k])
      else if CountActive(statuses) == 0 then EndedAllQuit
      else InProgress
  }

  /**
   * What the end check decides: an ended round stays as it is; otherwise the round ends
   * HAND_EMPTY exactly when some hand is empty, recording the lowest such seat, and
   * ALL_QUIT exactly when no hand is empty and no player is active.
   */
  lemma CheckedSpec(e: RoundState, ps: seq<Player>, hands: seq<seq<Card>>, statuses: seq<PlayerStatus>)
    requires |hands| == |ps| == |statuses|
    ensures var r := Checked(e, ps, hands, statuses);
      && (!e.InProgress? ==> r == e)
      && (e.InProgress? ==> (r.EndedHandEmpty? <==> exists k :: 0 <= k < |hands| && hands[k] == []))
      && (e.InProgress? && r.EndedHandEmpty? ==>
            exists k :: 0 <= k < |ps| && r.emptied == ps[k] && hands[k] == [] && forall j :: 0 <= j < k ==> hands[j] != [])
      && (e.InProgress? ==>
            (r.EndedAllQuit? <==> (forall k :: 0 <= k < |hands| ==> hands[k] != []) && forall k :: 0 <= k < |statuses| ==> statuses[k] != Active))
  {
    CountActiveZero(statuses);
  }

  /** The actions offered to a player: PLAY_CARD, DRAW_CARD when allowed, and QUIT always, in that order. */
  function ActionList(canPlay: bool, canDraw: bool): (r: seq<TurnAction>)
    ensures TurnAction.Quit in r && r[|r| - 1] == TurnAction.Quit
    ensures PlayCard in r <==> canPlay
    ensures DrawCard in r <==> canDraw
    ensures canPlay ==> r[0] == PlayCard
    ensures forall i, j :: 0 <= i < j < |r| ==> r[i] != r[j]
  {
    (if canPlay then [PlayCard] else []) + (if canDraw then [DrawCard] else []) + [TurnAction.Quit]
  }

  /** The seat `m` places after `start`, wrapping modulo the number of seats. */
  function Seat(start: nat, m: nat): (i: nat)
    ensures i < PLAYER_COUNT
  {
    (start + m) % PLAYER_COUNT
  }

  /** Number of steps `advanceTurn` takes from `start`: up to the first active seat after it, or all the way round. */
  function Steps(start: nat, statuses: seq<PlayerStatus>, k: nat): (n: nat)
    requires |statuses| == PLAYER_COUNT && start < PLAYER_COUNT && 1 <= k <= PLAYER_COUNT
    ensures k <= n <= PLAYER_COUNT
    ensures n == PLAYER_COUNT || statuses[Seat(start, n)] == Active
    ensures forall m :: k <= m < n ==> statuses[Seat(start, m)] != Active
    decreases PLAYER_COUNT - k
  {
    if k == PLAYER_COUNT || statuses[Seat(start, k)] == Active then k
    else Steps(start, statuses, k + 1)
  }

  /** The seat `advanceTurn` moves to from `start`. */
  function NextActive(start: nat, statuses: seq<PlayerStatus>): (i: nat)
    requires |statuses| == PLAYER_COUNT && start < PLAYER_COUNT
    ensures i < PLAYER_COUNT
  {
    Seat(start, Steps(start, statuses, 1))
  }

  /**
   * The turn moves to the first active seat after `start` in cyclic order; a seat that has
   * quit is never chosen unless no other seat is active, in which case the turn comes back
   * to `start` itself.
   */
  lemma NextActiveSpec(start: nat, statuses: seq<PlayerStatus>)
    requires |statuses| == PLAYER_COUNT && start < PLAYER_COUNT
    ensures var i := NextActive(start, statuses);
      (i == start <==> forall m :: 1 <= m < PLAYER_COUNT ==> statuses[Seat(start, m)] != Active)
      && (i != start ==> statuses[i] == Active)
    ensures forall m :: 1 <= m < PLAYER_COUNT && statuses[Seat(start, m)] == Active ==>
      exists n :: 1 <= n <= m && NextActive(start, statuses) == Seat(start, n)
  {
    var n := Steps(start, statuses, 1);
    assert Seat(start, n) == start <==> n == PLAYER_COUNT;
  }

  /** With every seat active the turn passes to the next seat, wrapping from 3 to 0; quit seats are skipped. */
  lemma NextActiveExamples()
    ensures NextActive(0, [Active, Active, Active, Active]) == 1
    ensures NextActive(3, [Active, Active, Active, Active]) == 0
    ensures NextActive(1, [Active, Active, PlayerStatus.Quit, Active]) == 3
    ensures NextActive(2, [PlayerStatus.Quit, PlayerStatus.Quit, Active, PlayerStatus.Quit]) == 2
  {
    assert Steps(1, [Active, Active, PlayerStatus.Quit, Active], 1) == 2;
    assert Steps(2, [PlayerStatus.Quit, PlayerStatus.Quit, Active, PlayerStatus.Quit], 1) == 4;
  }

  class Round {
    const players: seq<Player>
    const deck: Deck
    var current: nat
    var top: Card?
    var state: RoundState

    ghost predicate Valid()
      reads this, deck
    {
      && |players| == PLAYER_COUNT
      && (forall i, j :: 0 <= i < j < |players| ==> players[i] != players[j])
      && deck.Valid()
      && current < PLAYER_COUNT
      && (state.EndedHandEmpty? ==> state.emptied in players)
    }

    /**
     * Deals six cards to each seat in seat order, each seat taking the next six from the
     * top of the pile, then turns up the next card as the top of the discard pile
     * (none if the pile ran out exactly).
     */
    constructor (ps: seq<Player>, d: Deck, start: nat)
      requires |ps| == PLAYER_COUNT && forall i, j :: 0 <= i < j < |ps| ==> ps[i] != ps[j]
      requires d.Valid() && |d.Cards()| >= PLAYER_COUNT * HAND_SIZE_INITIAL
      requires start < PLAYER_COUNT
      modifies ps`hand, d`size
      ensures Valid() && players == ps && deck == d && current == start && state == InProgress
      ensures d.cards == old(d.cards)
      ensures var n := old(|d.Cards()|);
        forall i :: 0 <= i < PLAYER_COUNT ==>
          ps[i].hand == old(ps[i].hand) + old(d.Cards())[n - HAND_SIZE_INITIAL * (i + 1)..n - HAND_SIZE_INITIAL * i]
      ensures var rest := old(d.Cards())[..old(|d.Cards()|) - PLAYER_COUNT * HAND_SIZE_INITIAL];
        top == Top(rest) && d.Cards() == (if rest == [] then [] else rest[..|rest| - 1])
    {
      players := ps;
      deck := d;
      current := start;
      state := InProgress;
      top := null;
      new;
      DealInitialHands();
      top := deck.Draw();
    }

    /** `_dealInitialHands`: each seat in turn takes the next six cards from the top of the pile. */
    method DealInitialHands()
      requires |players| == PLAYER_COUNT && forall i, j :: 0 <= i < j < |players| ==> players[i] != players[j]
      requires deck.Valid() && |deck.Cards()| >= PLAYER_COUNT * HAND_SIZE_INITIAL
      modifies players`hand, deck`size
      ensures deck.Valid() && deck.cards == old(deck.cards)
      ensures deck.Cards() == old(deck.Cards())[..old(|deck.Cards()|) - PLAYER_COUNT * HAND_SIZE_INITIAL]
      ensures var n := old(|deck.Cards()|);
        forall i :: 0 <= i < PLAYER_COUNT ==>
          players[i].hand == old(players[i].hand) + old(deck.Cards())[n - HAND_SIZE_INITIAL * (i + 1)..n - HAND_SIZE_INITIAL * i]
    {
      ghost var n := |deck.Cards()|;
      var i := 0;
      while i < |players|
        invariant 0 <= i <= PLAYER_COUNT
        invariant deck.Valid() && deck.cards == old(deck.cards) && deck.Cards() == old(deck.Cards())[..n - HAND_SIZE_INITIAL * i]
        invariant forall k :: 0 <= k < i ==>
          players[k].hand == old(players[k].hand) + old(deck.Cards())[n - HAND_SIZE_INITIAL * (k + 1)..n - HAND_SIZE_INITIAL * k]
        invariant forall k :: i <= k < PLAYER_COUNT ==> players[k].hand == old(players[k].hand)
      {
        var dealt := deck.Deal(HAND_SIZE_INITIAL);
        if dealt.Ok? {
          players[i].AddCards(dealt.value);
        }
        i := i + 1;
      }
    }

    /** `_validateCurrentPlayer`: the acting player must hold the turn and still be active. */
    function TurnCheck(player: Player): (f: Option<Failure>)
      reads this, player
      requires current < |players|
      ensures f == None <==> player == players[current] && player.status == Active
      ensures player != players[current] ==> f == Some(NotPlayersTurn)
      ensures player == players[current] && player.status != Active ==> f == Some(PlayerNotActive)
    {
      if player != players[current] then Some(NotPlayersTurn)
      else if !player.IsActive() then Some(PlayerNotActive)
      else None
    }

    /** `canDraw` as a condition on the state: cards remain, and the player is not the last one still active. */
    ghost predicate DrawAllowed(player: Player)
      reads this, deck, deck.cards, players, player
      requires Valid()
    {
      deck.Remaining() > 0 && !(CountActive(Statuses(players)) == 1 && player.status == Active)
    }

    function IsRoundOver(): (b: bool)
      reads this
      ensures b <==> !state.InProgress?
    {
      state != InProgress
    }

    function GetRoundEndReason(): (r: Option<RoundEndReason>)
      reads this
      ensures r == None <==> state.InProgress?
      ensures r == Some(HandEmpty) <==> state.EndedHandEmpty?
    {
      match state
      case InProgress => None
      case EndedHandEmpty(_) => Some(HandEmpty)
      case EndedAllQuit => Some(RoundEndReason.AllQuit)
    }

    function GetHandEmptyPlayer(): (p: Player?)
      reads this
      ensures p != null <==> state.EndedHandEmpty?
      ensures state.EndedHandEmpty? ==> p == state.emptied
    {
      if state.EndedHandEmpty? then state.emptied else null
    }

    function GetCurrentPlayer(): (p: Player)
      reads this, deck
      requires Valid()
      ensures p in players
      ensures p == players[current]
    {
      players[current]
    }

    /**
     * Plays `card` from `player`'s hand onto the discard pile. Fails, changing nothing,
     * when it is not the player's turn, the player has quit, the card cannot go on the
     * top card, or the hand does not hold that card. On success the card leaves the
     * hand, becomes the top card, and the end check runs.
     */
    method PlayCard(player: Player, card: Card) returns (r: Result<Card>)
      requires Valid()
      modifies this`top, this`state, player`hand
      ensures Valid()
      ensures TurnCheck(player).Some? ==> r == Err(TurnCheck(player).value)
      ensures TurnCheck(player).None? && !card.CanPlayOn(old(top)) ==> r == Err(IllegalPlay)
      ensures TurnCheck(player).None? && card.CanPlayOn(old(top)) && card !in old(player.hand) ==> r == Err(CardNotInHand)
      ensures r.Err? ==> top == old(top) && state == old(state) && player.hand == old(player.hand)
      ensures r.Ok? <==> TurnCheck(player).None? && card.CanPlayOn(old(top)) && card in old(player.hand)
      ensures r.Ok? ==>
        && r.value == card && top == card
        && player.hand == Without(old(player.hand), IndexOf(old(player.hand), card))
        && state == Checked(old(state), players, Hands(players), Statuses(players))
    {
      var check := TurnCheck(player);
      if check.Some? {
        return Err(check.value);
      }
      if !card.CanPlayOn(top) {
        return Err(IllegalPlay);
      }
      var removed := player.RemoveCard(card);
      if removed.Err? {
        return Err(removed.failure);
      }
      top := card;
      CheckRoundEnd();
      r := Ok(card);
    }

    /**
     * Moves the top card of the pile into `player`'s hand. Fails, changing nothing, when
     * it is not the player's turn, the player has quit, or drawing is not allowed. No
     * end check runs after a draw.
     */
    method DrawCard(player: Player) returns (r: Result<Card>)
      requires Valid()
      modifies deck`size, player`hand
      ensures Valid()
      ensures TurnCheck(player).Some? ==> r == Err(TurnCheck(player).value)
      ensures TurnCheck(player).None? && !old(DrawAllowed(player)) ==> r == Err(IllegalDraw)
      ensures r.Err? ==> deck.Cards() == old(deck.Cards()) && player.hand == old(player.hand)
      ensures r.Ok? <==> TurnCheck(player).None? && old(DrawAllowed(player))
      ensures r.Ok? ==>
        && r.value == Top(old(deck.Cards()))
        && player.hand == old(player.hand) + [r.value]
        && deck.Cards() == old(deck.Cards())[..|old(deck.Cards())| - 1]
      ensures deck.cards == old(deck.cards)
    {
      var check := TurnCheck(player);
      if check.Some? {
        return Err(check.value);
      }
      var allowed := CanDraw(player);
      if !allowed {
        return Err(IllegalDraw);
      }
      var card := deck.Draw();
      player.AddCard(card);
      r := Ok(card);
    }

    /** `player` leaves the round, keeping the hand; then the end check runs. */
    method QuitRound(player: Player) returns (r: Result<()>)
      requires Valid()
      modifies this`state, player`status
      ensures Valid()
      ensures r.Ok? <==> old(TurnCheck(player)).None?
      ensures r.Err? ==> r == Err(old(TurnCheck(player)).value) && state == old(state) && player.status == old(player.status)
      ensures r.Ok? ==>
        && player.status == PlayerStatus.Quit
        && Statuses(players) == old(Statuses(players))[old(current) := PlayerStatus.Quit]
        && CountActive(Statuses(players)) == old(CountActive(Statuses(players))) - 1
        && state == Checked(old(state), players, Hands(players), Statuses(players))
    {
      var check := TurnCheck(player);
      if check.Some? {
        return Err(check.value);
      }
      ghost var before := Statuses(players);
      player.Quit();
      assert Statuses(players) == before[current := PlayerStatus.Quit];
      CountActiveQuit(before, current);
      CheckRoundEnd();
      r := Ok(());
    }

    /** True when the player may draw: the pile is not empty and the player is not the last one active. */
    method CanDraw(player: Player) returns (b: bool)
      requires Valid()
      ensures b <==> deck.Remaining() > 0 && !(CountActive(Statuses(players)) == 1 && player.status == Active)
      ensures b == DrawAllowed(player)
    {
      if deck.IsEmpty() {
        return false;
      }
      var last := IsLastActivePlayer(player);
      return !last;
    }

    method IsLastActivePlayer(player: Player) returns (b: bool)
      requires Valid()
      ensures b <==> CountActive(Statuses(players)) == 1 && player.status == Active
    {
      var count := GetActivePlayerCount();
      return count == 1 && player.IsActive();
    }

    /** Number of players who have not quit. */
    method GetActivePlayerCount() returns (count: nat)
      requires Valid()
      ensures count == CountActive(Statuses(players))
      ensures count <= PLAYER_COUNT
    {
      count := 0;
      var i := 0;
      while i < |players|
        invariant 0 <= i <= |players|
        invariant count == CountActive(Statuses(players)[..i])
        invariant count <= i
      {
        CountActiveSnoc(Statuses(players)[..i], players[i].status);
        assert Statuses(players)[..i + 1] == Statuses(players)[..i] + [players[i].status];
        if players[i].IsActive() {
          count := count + 1;
        }
        i := i + 1;
      }
      assert Statuses(players)[..i] == Statuses(players);
    }

    /** The actions `player` may take now. */
    method GetValidActions(player: Player) returns (actions: seq<TurnAction>)
      requires Valid()
      ensures actions == ActionList(PlayableIn(player.hand, top) != [], DrawAllowed(player))
    {
      actions := [];
      var canPlay := player.HasPlayableCard(top);
      if canPlay {
        actions := actions + [TurnAction.PlayCard];
      }
      var canDraw := CanDraw(player);
      if canDraw {
        actions := actions + [TurnAction.DrawCard];
      }
      actions := actions + [TurnAction.Quit];
    }

    /**
     * Passes the turn to the next active seat, skipping seats that have quit, wrapping
     * modulo four; an ended round keeps its current seat.
     */
    method AdvanceTurn() returns (index: nat)
      requires Valid()
      modifies this`current
      ensures Valid() && index == current
      ensures !old(state).InProgress? ==> current == old(current)
      ensures old(state).InProgress? ==> current == NextActive(old(current), Statuses(players))
    {
      if state != InProgress {
        return current;
      }
      current := NextActiveSeat(current);
      return current;
    }

    /** The loop of `advanceTurn`: step round the table from `start` until an active seat, or back to `start`. */
    method NextActiveSeat(start: nat) returns (seat: nat)
      requires |players| == PLAYER_COUNT && start < PLAYER_COUNT
      ensures seat == NextActive(start, Statuses(players))
    {
      ghost var ss := Statuses(players);
      SeatStep(start, 0);
      seat := (start + 1) % PLAYER_COUNT;
      ghost var k := 1;
      while !players[seat].IsActive() && seat != start
        invariant 1 <= k <= PLAYER_COUNT && seat == Seat(start, k)
        invariant forall m :: 1 <= m < k ==> ss[Seat(start, m)] != Active
        decreases PLAYER_COUNT - k
      {
        assert ss[seat] == players[seat].status;
        SeatStep(start, k);
        seat := (seat + 1) % PLAYER_COUNT;
        k := k + 1;
      }
      SeatStep(start, k);
      StepsFirst(start, ss, 1, k);
    }

    /** `_checkRoundEnd`. */
    method CheckRoundEnd()
      requires Valid()
      modifies this`state
      ensures Valid()
      ensures state == Checked(old(state), players, Hands(players), Statuses(players))
    {
      ghost var hs, ss := Hands(players), Statuses(players);
      if state != InProgress {
        return;
      }
      var emptyPlayer := FindEmptyHandPlayer();
      if emptyPlayer != null {
        state := EndedHandEmpty(emptyPlayer);
        assert state == Checked(InProgress, players, hs, ss);
        return;
      }
      var count := GetActivePlayerCount();
      if count == 0 {
        state := EndedAllQuit;
      }
      assert state == Checked(InProgress, players, hs, ss);
    }

    /** The first player, in seat order, whose hand is empty; null if there is none. */
    method FindEmptyHandPlayer() returns (p: Player?)
      requires Valid()
      ensures p == (if FirstEmpty(Hands(players)) < |players| then players[FirstEmpty(Hands(players))] else null)
    {
      var i := 0;
      while i < |players|
        invariant 0 <= i <= |players|
        invariant forall k :: 0 <= k < i ==> players[k].hand != []
      {
        if players[i].HasEmptyHand() {
          FirstEmptyAt(Hands(players), i);
          return players[i];
        }
        i := i + 1;
      }
      FirstEmptyAt(Hands(players), i);
      return null;
    }
  }

  /** Counting active entries of a list grown by one. */
  lemma {:induction false} CountActiveSnoc(ss: seq<PlayerStatus>, s: PlayerStatus)
    ensures CountActive(ss + [s]) == CountActive(ss) + (if s == Active then 1 else 0)
  {
    if ss != [] {
      assert (ss + [s])[1..] == ss[1..] + [s];
      CountActiveSnoc(ss[1..], s);
    } else {
      assert ss + [s] == [s];
    }
  }

  /** A seat whose hand is empty, with no empty hand before it, is what FirstEmpty finds; no empty hand gives the seat count. */
  lemma {:induction false} FirstEmptyAt(hands: seq<seq<Card>>, i: nat)
    requires i <= |hands|
    requires forall k :: 0 <= k < i ==> hands[k] != []
    requires i < |hands| ==> hands[i] == []
    ensures FirstEmpty(hands) == i
  {
    if hands != [] && i > 0 {
      FirstEmptyAt(hands[1..], i - 1);
    }
  }

  /** One more step moves one seat on; within one lap only the fourth step returns to the start. */
  lemma SeatStep(start: nat, k: nat)
    requires start < PLAYER_COUNT && k <= PLAYER_COUNT
    ensures Seat(start, k + 1) == (Seat(start, k) + 1) % PLAYER_COUNT
    ensures 1 <= k ==> (Seat(start, k) == start <==> k == PLAYER_COUNT)
  {
  }

  /** The step count found by the turn loop is the one Steps describes. */
  lemma {:induction false} StepsFirst(start: nat, statuses: seq<PlayerStatus>, k: nat, n: nat)
    requires |statuses| == PLAYER_COUNT && start < PLAYER_COUNT && 1 <= k <= n <= PLAYER_COUNT
    requires n == PLAYER_COUNT || statuses[Seat(start, n)] == Active
    requires forall m :: k <= m < n ==> statuses[Seat(start, m)] != Active
    ensures Steps(start, statuses, k) == n
    decreases PLAYER_COUNT - k
  {
    if k < n {
      StepsFirst(start, statuses, k + 1, n);
    }
  }
}

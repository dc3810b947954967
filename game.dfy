/**
 * The multi-round game: four players, one token bank, a round at a time; scoring at the
 * end of each round, the empty-hand bonus, game over at 40 points, winners and standings
 * (src/game/Game.js).
 */
module Games {
  import opened Constants
  import opened Cards
  import opened Decks
  import opened Players
  import opened Tokens
  import opened Rounds

  /** One player's line of the round summary. */
  datatype PlayerScore = PlayerScore(index: nat, penalty: nat, tokensGiven: Given, totalPoints: int)

  /** What `scoreRound` reports: a line per player in seat order and the empty-hand bonus, if any. */
  datatype Summary = Summary(players: seq<PlayerScore>, handEmptyPlayer: Option<nat>, tokenReturned: Option<TokenType>)

  function Sum(xs: seq<int>): int
  {
    if xs == [] then 0 else Sum(xs[..|xs| - 1]) + xs[|xs| - 1]
  }

  /** Penalties never sum to less than any prefix of them. */
  lemma {:induction false} SumPrefix(xs: seq<nat>, i: nat)
    requires i <= |xs|
    ensures Sum(xs[..i]) <= Sum(xs)
  {
    if i < |xs| {
      assert xs[..|xs| - 1][..i] == xs[..i];
      SumPrefix(xs[..|xs| - 1], i);
    } else {
      assert xs[..i] == xs;
    }
  }

  /** The total points of each player, in seat order. */
  function PointsOf(ps: seq<Player>): (pts: seq<int>)
    reads ps
    ensures |pts| == |ps| && forall k :: 0 <= k < |ps| ==> pts[k] == ps[k].TotalPoints()
  {
    seq(|ps|, k requires 0 <= k < |ps| reads ps => ps[k].TotalPoints())
  }

  /** The hand penalty of each player, in seat order (written out: the game always has four seats). */
  function Penalties(ps: seq<Player>): (pens: seq<nat>)
    reads ps`hand
    requires |ps| == PLAYER_COUNT
    ensures |pens| == |ps| && forall k :: 0 <= k < |ps| ==> pens[k] == HandPenalty(ps[k].hand)
  {
    [HandPenalty(ps[0].hand), HandPenalty(ps[1].hand), HandPenalty(ps[2].hand), HandPenalty(ps[3].hand)]
  }

  /**
   * The state the scoring loop carries from seat to seat: the summary lines so far, the
   * bank's white and black supplies, and every seat's (white, black) holding.
   */
  datatype Payroll = Payroll(lines: seq<PlayerScore>, white: int, black: int, held: seq<(int, int)>)

  /** The points a (white, black) holding is worth. */
  function HeldPoints(h: (int, int)): int
  {
    TokenPoints(h.0, h.1)
  }

  /**
   * Seat `n` pays penalty `pen`: Allocate splits it against the current supplies, the
   * tokens move from the bank to the seat, and the seat's line records the penalty,
   * the tokens and the points the seat then holds.
   */
  function PayStep(run: Payroll, n: nat, pen: nat): (r: Payroll)
    requires n < |run.held| && run.white >= 0 && run.black >= 0
    ensures |r.lines| == |run.lines| + 1 && |r.held| == |run.held| && 0 <= r.white <= run.white && 0 <= r.black <= run.black
  {
    var g := Allocate(pen, run.white, run.black);
    var h := (run.held[n].0 + g.white, run.held[n].1 + g.black);
    Payroll(run.lines + [PlayerScore(n, pen, g, HeldPoints(h))], run.white - g.white, run.black - g.black, run.held[n := h])
  }

  /**
   * The scoring loop as a fold: seats 0, 1, ... pay `pens` in order, starting from the
   * holdings `H0` and the supplies `white` and `black`.
   */
  function PayRun(pens: seq<nat>, H0: seq<(int, int)>, white: int, black: int): (r: Payroll)
    requires |pens| <= |H0| && white >= 0 && black >= 0
    ensures |r.lines| == |pens| && |r.held| == |H0| && 0 <= r.white <= white && 0 <= r.black <= black
  {
    if pens == [] then Payroll([], white, black, H0)
    else PayStep(PayRun(pens[..|pens| - 1], H0, white, black), |pens| - 1, pens[|pens| - 1])
  }

  /** Seats that have not paid yet still hold what they held. */
  lemma {:induction false} PayRunUntouched(pens: seq<nat>, H0: seq<(int, int)>, white: int, black: int, k: nat)
    requires |pens| <= k < |H0| && white >= 0 && black >= 0
    ensures PayRun(pens, H0, white, black).held[k] == H0[k]
  {
    if pens != [] {
      PayRunUntouched(pens[..|pens| - 1], H0, white, black, k);
    }
  }

  /**
   * Seat `k`'s line: index `k`, its own penalty, the split of that penalty against the
   * supplies the seats before it left, and the points it holds after being paid; its
   * holding grows by exactly the tokens on the line.
   */
  lemma {:induction false} PayRunAt(pens: seq<nat>, H0: seq<(int, int)>, white: int, black: int, k: nat)
    requires k < |pens| <= |H0| && white >= 0 && black >= 0
    ensures var before := PayRun(pens[..k], H0, white, black);
      var g := Allocate(pens[k], before.white, before.black);
      var r := PayRun(pens, H0, white, black);
      && r.held[k] == (H0[k].0 + g.white, H0[k].1 + g.black)
      && r.lines[k] == PlayerScore(k, pens[k], g, HeldPoints(r.held[k]))
  {
    var n := |pens| - 1;
    if k == n {
      assert pens[..n] == pens[..k];
      PayRunUntouched(pens[..k], H0, white, black, k);
    } else {
      assert pens[..n][..k] == pens[..k];
      PayRunAt(pens[..n], H0, white, black, k);
    }
  }

  /** The white and black tokens held over all seats. */
  function HeldTotals(h: seq<(int, int)>): (t: (int, int))
  {
    if h == [] then (0, 0)
    else
      var t := HeldTotals(h[..|h| - 1]);
      (t.0 + h[|h| - 1].0, t.1 + h[|h| - 1].1)
  }

  /** The seat whose hand emptied, when that is how the round ended. */
  function EmptiedSeat(st: RoundState): Option<nat>
  {
    if st.EndedHandEmpty? then Some(st.emptied.index) else None
  }

  /**
   * The empty-hand bonus on the state the payout left: seat `j` hands back its best token
   * (BestReturned against the bank's supplies), and its summary line shows the points it
   * holds afterwards; every other seat and line is as it was.
   */
  function BonusPaid(run: Payroll, j: nat): (r: (Payroll, Option<TokenType>))
    requires j < |run.held| && j < |run.lines|
  {
    var (l, t) := BestReturned(Ledger(run.white, run.black, run.held[j].0, run.held[j].1));
    (Payroll(run.lines[j := run.lines[j].(totalPoints := Points(l))], l.bankWhite, l.bankBlack, run.held[j := (l.white, l.black)]), t)
  }

  /**
   * The outcome of scoring, given the payout `run` of the hand penalties: with no emptied
   * hand the summary and the tokens are the payout's; otherwise they are the payout with
   * the bonus of seat `j` applied, and the summary names that seat and the token returned.
   */
  predicate SettledAs(s: Summary, after: Payroll, run: Payroll, emptied: Option<nat>)
  {
    match emptied
    case None => after == run && s.handEmptyPlayer == None && s.tokenReturned == None
    case Some(j) =>
      && j < |run.held| && j < |run.lines| && s.handEmptyPlayer == Some(j)
      && (after, s.tokenReturned) == BonusPaid(run, j)
  }

  /** No seat holds a negative number of tokens. */
  predicate HoldingsSound(h: seq<(int, int)>)
  {
    forall k :: 0 <= k < |h| ==> h[k].0 >= 0 && h[k].1 >= 0
  }

  /** Changing one seat's holding changes the totals by the difference. */
  lemma {:induction false} HeldTotalsUpdate(h: seq<(int, int)>, n: nat, x: (int, int))
    requires n < |h|
    ensures HeldTotals(h[n := x]) == (HeldTotals(h).0 - h[n].0 + x.0, HeldTotals(h).1 - h[n].1 + x.1)
  {
    var m := |h| - 1;
    if n < m {
      assert h[n := x][..m] == h[..m][n := x];
      HeldTotalsUpdate(h[..m], n, x);
    } else {
      assert h[n := x][..m] == h[..m];
    }
  }

  /**
   * The bonus touches seat `j` alone: one token goes back to the bank (after an exchange,
   * if that is what makes a black one available), totals are conserved, no count goes
   * negative, and the seat loses exactly the value of the token named.
   */
  lemma BonusPaidEffect(run: Payroll, j: nat)
    requires j < |run.held| && j < |run.lines|
    ensures var r := BonusPaid(run, j).0;
      && |r.lines| == |run.lines| && |r.held| == |run.held|
      && r.white + HeldTotals(r.held).0 == run.white + HeldTotals(run.held).0
      && r.black + HeldTotals(r.held).1 == run.black + HeldTotals(run.held).1
      && (run.white >= 0 && run.black >= 0 && HoldingsSound(run.held) ==> r.white >= 0 && r.black >= 0 && HoldingsSound(r.held))
      && (forall k :: 0 <= k < |run.held| && k != j ==> r.held[k] == run.held[k])
      && (forall k :: 0 <= k < |run.lines| && k != j ==> r.lines[k] == run.lines[k])
      && r.lines[j].totalPoints == HeldPoints(r.held[j])
      && (BonusPaid(run, j).1 == Some(White) ==> HeldPoints(r.held[j]) == HeldPoints(run.held[j]) - WHITE_TOKEN_VALUE)
      && (run.held[j].0 >= 0 && run.held[j].1 >= 0 && BonusPaid(run, j).1 == Some(Black) ==>
            HeldPoints(r.held[j]) == HeldPoints(run.held[j]) - BLACK_TOKEN_VALUE)
      && (BonusPaid(run, j).1 == None ==> r == run.(lines := r.lines))
  {
    var l := Ledger(run.white, run.black, run.held[j].0, run.held[j].1);
    var after := BestReturned(l).0;
    HeldTotalsUpdate(run.held, j, (after.white, after.black));
  }


  /** Paying out conserves tokens: supply plus holdings stays the same, for each colour. */
  lemma {:induction false} PayRunConserves(pens: seq<nat>, H0: seq<(int, int)>, white: int, black: int)
    requires |pens| <= |H0| && white >= 0 && black >= 0
    ensures var r := PayRun(pens, H0, white, black);
      && r.white + HeldTotals(r.held).0 == white + HeldTotals(H0).0
      && r.black + HeldTotals(r.held).1 == black + HeldTotals(H0).1
  {
    if pens != [] {
      var n := |pens| - 1;
      var prev := PayRun(pens[..n], H0, white, black);
      PayRunConserves(pens[..n], H0, white, black);
      var g := Allocate(pens[n], prev.white, prev.black);
      var h := (prev.held[n].0 + g.white, prev.held[n].1 + g.black);
      var r := PayRun(pens, H0, white, black);
      assert r == PayStep(prev, n, pens[n]);
      assert r.white == prev.white - g.white && r.black == prev.black - g.black && r.held == prev.held[n := h];
      HeldTotalsUpdate(prev.held, n, h);
    }
  }

  /** No seat's holding goes negative. */
  lemma {:induction false} PayRunSound(pens: seq<nat>, H0: seq<(int, int)>, white: int, black: int)
    requires |pens| <= |H0| && white >= 0 && black >= 0 && HoldingsSound(H0)
    ensures HoldingsSound(PayRun(pens, H0, white, black).held)
  {
    if pens != [] {
      var n := |pens| - 1;
      var prev := PayRun(pens[..n], H0, white, black);
      PayRunSound(pens[..n], H0, white, black);
      var g := Allocate(pens[n], prev.white, prev.black);
      assert PayRun(pens, H0, white, black) == PayStep(prev, n, pens[n]);
      assert prev.held[n].0 >= 0 && prev.held[n].1 >= 0 && g.white >= 0 && g.black >= 0;
    }
  }

  /** Paying out never takes more white tokens than the points paid. */
  lemma {:induction false} PayRunWhiteBound(pens: seq<nat>, H0: seq<(int, int)>, white: int, black: int)
    requires |pens| <= |H0| && white >= 0 && black >= 0
    ensures PayRun(pens, H0, white, black).white >= white - Sum(pens)
  {
    if pens != [] {
      PayRunWhiteBound(pens[..|pens| - 1], H0, white, black);
    }
  }

  /**
   * When the white supply covers the sum of all penalties, every seat receives tokens
   * worth exactly its penalty, whatever happens to the black supply.
   */
  lemma PayoutExact(pens: seq<nat>, H0: seq<(int, int)>, white: int, black: int, k: nat)
    requires k < |pens| <= |H0| && white >= 0 && black >= 0 && Sum(pens) <= white
    ensures var g := PayRun(pens, H0, white, black).lines[k].tokensGiven;
      BLACK_TOKEN_VALUE * g.black + WHITE_TOKEN_VALUE * g.white == pens[k]
    ensures HeldPoints(PayRun(pens, H0, white, black).held[k]) == HeldPoints(H0[k]) + pens[k]
  {
    PayRunAt(pens, H0, white, black, k);
    PayRunWhiteBound(pens[..k], H0, white, black);
    SumPrefix(pens, k + 1);
    assert pens[..k + 1][..k] == pens[..k];
    var before := PayRun(pens[..k], H0, white, black);
    AllocateShortfallInWhite(pens[k], before.white, before.black);
  }

  /** The smallest entry. */
  function MinOf(xs: seq<int>): (m: int)
    requires xs != []
    ensures m in xs && forall k :: 0 <= k < |xs| ==> m <= xs[k]
  {
    if |xs| == 1 then xs[0]
    else
      var m := MinOf(xs[..|xs| - 1]);
      assert forall k :: 0 <= k < |xs| - 1 ==> xs[k] == xs[..|xs| - 1][k];
      if xs[|xs| - 1] < m then xs[|xs| - 1] else m
  }

  /** The players holding exactly `m` points, in seat order. */
  function AtPoints(ps: seq<Player>, m: int): (r: seq<Player>)
    reads ps
    ensures |r| <= |ps|
    ensures forall k :: 0 <= k < |r| ==> r[k] in ps && r[k].TotalPoints() == m
    ensures forall k :: 0 <= k < |ps| && ps[k].TotalPoints() == m ==> ps[k] in r
  {
    if ps == [] then []
    else
      var rest := AtPoints(ps[..|ps| - 1], m);
      assert forall k :: 0 <= k < |ps| - 1 ==> ps[k] == ps[..|ps| - 1][k];
      rest + (if ps[|ps| - 1].TotalPoints() == m then [ps[|ps| - 1]] else [])
  }

  /** Someone always holds the lowest total, and nobody holds less than the players on it. */
  lemma WinnersOnMinimum(ps: seq<Player>)
    requires ps != []
    ensures var w := AtPoints(ps, MinOf(PointsOf(ps)));
      && w != []
      && forall i, k :: 0 <= i < |w| && 0 <= k < |ps| ==> w[i].TotalPoints() <= ps[k].TotalPoints()
  {
    var m := MinOf(PointsOf(ps));
    var k :| 0 <= k < |ps| && PointsOf(ps)[k] == m;
    assert ps[k] in AtPoints(ps, m);
  }

  /** Players in ascending order of total points. */
  ghost predicate SortedByPoints(s: seq<Player>)
    reads s
  {
    forall i, j :: 0 <= i < j < |s| ==> s[i].TotalPoints() <= s[j].TotalPoints()
  }

  /** Inserts `p` after every player with no more points than it. */
  function InsertByPoints(p: Player, s: seq<Player>): (r: seq<Player>)
    reads p, s
    ensures multiset(r) == multiset(s) + multiset{p}
    ensures |r| == |s| + 1
    ensures forall k :: 0 <= k < |r| ==> r[k] == p || r[k] in s
  {
    if s == [] then [p]
    else if p.TotalPoints() < s[0].TotalPoints() then [p] + s
    else
      assert s == [s[0]] + s[1..];
      [s[0]] + InsertByPoints(p, s[1..])
  }

  /** Inserting into a sorted sequence keeps it sorted. */
  lemma {:induction false} InsertByPointsSorted(p: Player, s: seq<Player>)
    requires SortedByPoints(s)
    ensures SortedByPoints(InsertByPoints(p, s))
  {
    if s != [] && p.TotalPoints() >= s[0].TotalPoints() {
      InsertByPointsSorted(p, s[1..]);
      var rest := InsertByPoints(p, s[1..]);
      forall k | 0 <= k < |rest|
        ensures s[0].TotalPoints() <= rest[k].TotalPoints()
      {
        if rest[k] != p {
          var j :| 0 <= j < |s[1..]| && s[1..][j] == rest[k];
          assert s[j + 1] == rest[k];
        }
      }
    }
  }

  /** The players sorted ascending by total points, as `getStandings`' sorted copy. */
  function SortByPoints(ps: seq<Player>): (r: seq<Player>)
    reads ps
    ensures multiset(r) == multiset(ps) && |r| == |ps|
    ensures forall k :: 0 <= k < |r| ==> r[k] in ps
    ensures SortedByPoints(r)
  {
    if ps == [] then []
    else
      assert ps == ps[..|ps| - 1] + [ps[|ps| - 1]];
      InsertByPointsSorted(ps[|ps| - 1], SortByPoints(ps[..|ps| - 1]));
      InsertByPoints(ps[|ps| - 1], SortByPoints(ps[..|ps| - 1]))
  }

  class Game {
    const mode: GameMode
    const players: seq<Player>
    const bank: TokenBank
    var roundNumber: nat
    var startingIndex: nat
    var currentRound: Round?

    /**
     * Four players in seat order, a sound bank, a starting seat, and a current round
     * over the same players. Token grants made outside the bank keep this.
     */
    ghost predicate Seated()
      reads this, bank
    {
      && |players| == PLAYER_COUNT
      && (forall i :: 0 <= i < |players| ==> players[i].index == i)
      && bank.Valid()
      && startingIndex < PLAYER_COUNT
      && (currentRound != null ==> currentRound.players == players)
    }

    /**
     * A seated game in which every token is either in the bank or held by a player:
     * the bank's opening 50 white and 20 black are conserved, and no count is negative.
     */
    ghost predicate Valid()
      reads this, bank, players
    {
      && Seated()
      && HoldingsSound(Holdings())
      && Conserved()
    }

    /** The bank's supply plus the four players' holdings is the opening supply, for each colour. */
    ghost predicate Conserved()
      reads bank, players`whiteTokens, players`blackTokens
      requires |players| == PLAYER_COUNT
    {
      && bank.white + HeldTotals(Holdings()).0 == WHITE_TOKEN_COUNT
      && bank.black + HeldTotals(Holdings()).1 == BLACK_TOKEN_COUNT
    }

    /** A new game: players 0 to 3 with no tokens, a full bank, round 0, no round yet. */
    constructor (gameMode: GameMode, start: nat)
      requires start < PLAYER_COUNT
      ensures Valid() && mode == gameMode && fresh(bank)
      ensures roundNumber == 0 && startingIndex == start && currentRound == null
      ensures bank.white == WHITE_TOKEN_COUNT && bank.black == BLACK_TOKEN_COUNT
      ensures forall i :: 0 <= i < |players| ==>
        fresh(players[i]) && players[i].hand == [] && players[i].status == Active && players[i].TotalPoints() == 0
    {
      var ps: seq<Player> := [];
      var i := 0;
      while i < PLAYER_COUNT
        invariant 0 <= i <= PLAYER_COUNT && |ps| == i
        invariant forall k :: 0 <= k < i ==>
          && fresh(ps[k]) && ps[k].index == k && ps[k].hand == [] && ps[k].status == Active
          && ps[k].whiteTokens == 0 && ps[k].blackTokens == 0
      {
        var p := new Player(i);
        ps := ps + [p];
        i := i + 1;
      }
      mode := gameMode;
      players := ps;
      bank := new TokenBank();
      roundNumber := 0;
      startingIndex := start;
      currentRound := null;
      new;
      HoldingsLink();
    }

    /** Two seats never hold the same player. */
    lemma PlayersDistinct()
      requires |players| == PLAYER_COUNT && forall i :: 0 <= i < |players| ==> players[i].index == i
      ensures forall i, j :: 0 <= i < j < |players| ==> players[i] != players[j]
    {
    }

    /**
     * Starts the next round: the round number goes up by one, every player gets an empty
     * hand and becomes active (tokens kept), and a shuffled fresh deck is dealt at the
     * current starting seat, which does not move.
     */
    method StartNewRound() returns (r: Round)
      requires Seated()
      modifies this`roundNumber, this`currentRound, players`hand, players`status
      ensures Seated() && (old(Valid()) ==> Valid())
      ensures fresh(r) && fresh(r.deck) && currentRound == r
      ensures roundNumber == old(roundNumber) + 1 && startingIndex == old(startingIndex)
      ensures r.Valid() && r.players == players && r.current == startingIndex && r.state == InProgress
      ensures forall i :: 0 <= i < |players| ==>
        && |players[i].hand| == HAND_SIZE_INITIAL && players[i].status == Active
        && players[i].whiteTokens == old(players[i].whiteTokens) && players[i].blackTokens == old(players[i].blackTokens)
      ensures r.top != null && |r.deck.Cards()| == TOTAL_CARDS - PLAYER_COUNT * HAND_SIZE_INITIAL - 1
    {
      roundNumber := roundNumber + 1;
      ResetPlayersForRound();
      PlayersDistinct();
      r := DealRound();
      currentRound := r;
    }

    /** A shuffled fresh deck dealt to the emptied hands, starting at the current starting seat. */
    method DealRound() returns (r: Round)
      requires |players| == PLAYER_COUNT && startingIndex < PLAYER_COUNT
      requires forall i, j :: 0 <= i < j < |players| ==> players[i] != players[j]
      requires forall i :: 0 <= i < |players| ==> players[i].hand == []
      modifies players`hand
      ensures fresh(r) && fresh(r.deck) && r.Valid() && r.state == InProgress
      ensures r.players == players && r.current == startingIndex
      ensures forall i :: 0 <= i < |players| ==> |players[i].hand| == HAND_SIZE_INITIAL
      ensures r.top != null && |r.deck.Cards()| == TOTAL_CARDS - PLAYER_COUNT * HAND_SIZE_INITIAL - 1
    {
      var deck := new Deck();
      var _ := deck.Shuffle();
      r := new Round(players, deck, startingIndex);
    }

    /** Every player gets an empty hand and becomes active; tokens are kept. */
    method ResetPlayersForRound()
      requires |players| == PLAYER_COUNT
      modifies players`hand, players`status
      ensures forall i :: 0 <= i < |players| ==> players[i].hand == [] && players[i].status == Active
    {
      var i := 0;
      while i < |players|
        invariant 0 <= i <= |players|
        invariant forall k :: 0 <= k < i ==> players[k].hand == [] && players[k].status == Active
      {
        players[i].ResetForRound();
        i := i + 1;
      }
    }

    /** The starting seat moves on by one, wrapping from 3 to 0. */
    method AdvanceStartingPlayer()
      requires startingIndex < PLAYER_COUNT
      modifies this`startingIndex
      ensures startingIndex < PLAYER_COUNT
      ensures startingIndex == (old(startingIndex) + 1) % PLAYER_COUNT
    {
      startingIndex := (startingIndex + 1) % PLAYER_COUNT;
    }

    /** Every seat's (white, black) holding, in seat order (written out: the game always has four seats). */
    ghost function Holdings(): (h: seq<(int, int)>)
      reads players`whiteTokens, players`blackTokens
      requires |players| == PLAYER_COUNT
      ensures |h| == PLAYER_COUNT
    {
      [(players[0].whiteTokens, players[0].blackTokens), (players[1].whiteTokens, players[1].blackTokens),
       (players[2].whiteTokens, players[2].blackTokens), (players[3].whiteTokens, players[3].blackTokens)]
    }

    /** Conservation and soundness spelled out seat by seat. */
    lemma HoldingsLink()
      requires |players| == PLAYER_COUNT
      ensures Conserved() <==>
        && bank.white + players[0].whiteTokens + players[1].whiteTokens + players[2].whiteTokens + players[3].whiteTokens == WHITE_TOKEN_COUNT
        && bank.black + players[0].blackTokens + players[1].blackTokens + players[2].blackTokens + players[3].blackTokens == BLACK_TOKEN_COUNT
      ensures HoldingsSound(Holdings()) <==>
        forall k :: 0 <= k < PLAYER_COUNT ==> players[k].whiteTokens >= 0 && players[k].blackTokens >= 0
    {
      var h := Holdings();
      assert h[..3][..2][..1][..0] == [];
      assert HeldTotals(h[..1]) == (players[0].whiteTokens, players[0].blackTokens);
      assert HeldTotals(h[..2]) == (players[0].whiteTokens + players[1].whiteTokens, players[0].blackTokens + players[1].blackTokens);
      assert h[..3][..2] == h[..2] && h[..2][..1] == h[..1];
      assert HeldTotals(h) == (players[0].whiteTokens + players[1].whiteTokens + players[2].whiteTokens + players[3].whiteTokens,
                               players[0].blackTokens + players[1].blackTokens + players[2].blackTokens + players[3].blackTokens);
    }

    /**
     * The scoring loop of `scoreRound`: in seat order, each player's hand penalty is paid
     * out of the bank as tokens, and a summary line is recorded; the lines, the supplies
     * and the holdings are those of PayRun over the hand penalties.
     */
    method PayPenalties() returns (scores: seq<PlayerScore>)
      requires |players| == PLAYER_COUNT && (forall k :: 0 <= k < PLAYER_COUNT ==> players[k].index == k) && bank.Valid()
      modifies bank, players`whiteTokens, players`blackTokens
      ensures bank.Valid()
      ensures Payroll(scores, bank.white, bank.black, Holdings()) ==
        PayRun(Penalties(players), old(Holdings()), old(bank.white), old(bank.black))
      ensures bank.white + HeldTotals(Holdings()).0 == old(bank.white + HeldTotals(Holdings()).0)
      ensures bank.black + HeldTotals(Holdings()).1 == old(bank.black + HeldTotals(Holdings()).1)
      ensures old(HoldingsSound(Holdings())) ==> HoldingsSound(Holdings())
    {
      ghost var w0, b0 := bank.white, bank.black;
      ghost var pens := Penalties(players);
      ghost var H0 := Holdings();
      scores := [];
      var i := 0;
      while i < |players|
        invariant 0 <= i <= PLAYER_COUNT
        invariant bank.Valid()
        invariant Payroll(scores, bank.white, bank.black, Holdings()) == PayRun(pens[..i], H0, w0, b0)
      {
        assert pens[..i + 1][..i] == pens[..i];
        var line := PayPlayer(i, Payroll(scores, bank.white, bank.black, Holdings()));
        scores := scores + [line];
        i := i + 1;
      }
      assert pens[..i] == pens;
      assert Penalties(players) == pens;
      PayRunConserves(pens, H0, w0, b0);
      if HoldingsSound(H0) {
        PayRunSound(pens, H0, w0, b0);
      }
    }

    /** One step of the scoring loop: seat `k` is paid its hand penalty in tokens, as PayStep describes. */
    method PayPlayer(k: nat, ghost run: Payroll) returns (line: PlayerScore)
      requires |players| == PLAYER_COUNT && (forall j :: 0 <= j < PLAYER_COUNT ==> players[j].index == j) && bank.Valid()
      requires k < PLAYER_COUNT && run.white == bank.white && run.black == bank.black && run.held == Holdings()
      modifies bank, players`whiteTokens, players`blackTokens
      ensures bank.Valid()
      ensures Payroll(run.lines + [line], bank.white, bank.black, Holdings()) == PayStep(run, k, HandPenalty(players[k].hand))
    {
      PlayersDistinct();
      var player := players[k];
      var penalty := player.GetHandPenalty();
      var tokens := bank.DistributeTokens(player, penalty);
      line := PlayerScore(player.index, penalty, tokens, player.TotalPoints());
    }

    /**
     * `_handleEmptyHandBonus`: if the round ended because a hand emptied, that player hands
     * back the best token it can, the summary names it and the token, and its line shows
     * the points after the return; otherwise nothing changes.
     */
    method HandleEmptyHandBonus(round: Round, summary: Summary) returns (s: Summary)
      requires |players| == PLAYER_COUNT && (forall k :: 0 <= k < PLAYER_COUNT ==> players[k].index == k) && bank.Valid()
      requires round.Valid() && round.players == players && |summary.players| == PLAYER_COUNT
      modifies bank, players`whiteTokens, players`blackTokens
      ensures bank.Valid()
      ensures var before := Payroll(summary.players, old(bank.white), old(bank.black), old(Holdings()));
        var after := Payroll(s.players, bank.white, bank.black, Holdings());
        match EmptiedSeat(round.state)
        case None => s == summary && after == before
        case Some(j) => j < PLAYER_COUNT && s.handEmptyPlayer == Some(j) && (after, s.tokenReturned) == BonusPaid(before, j)
    {
      PlayersDistinct();
      s := summary;
      var reason := round.GetRoundEndReason();
      if reason != Some(HandEmpty) {
        return;
      }
      var emptyPlayer := round.GetHandEmptyPlayer();
      if emptyPlayer == null {
        return;
      }
      var j := emptyPlayer.index;
      ghost var before := Payroll(s.players, bank.white, bank.black, Holdings());
      assert players[j] == emptyPlayer && before.held[j] == (emptyPlayer.whiteTokens, emptyPlayer.blackTokens);
      var returned := bank.ReturnBestToken(emptyPlayer);
      s := Summary(s.players[j := s.players[j].(totalPoints := emptyPlayer.TotalPoints())], Some(j), returned);
      assert Holdings() == before.held[j := (emptyPlayer.whiteTokens, emptyPlayer.blackTokens)];
    }

    /**
     * Scores the current round: every player pays the hand penalty in tokens (seat order,
     * as PayRun), then the empty-hand bonus, then the starting seat moves on by one,
     * whatever the reason the round ended. Every token stays either in the bank or with a player.
     */
    method ScoreRound() returns (s: Summary)
      requires Seated() && currentRound != null && currentRound.Valid()
      modifies this`startingIndex, bank, players`whiteTokens, players`blackTokens
      ensures Seated() && (old(Valid()) ==> Valid())
      ensures bank.white + HeldTotals(Holdings()).0 == old(bank.white + HeldTotals(Holdings()).0)
      ensures bank.black + HeldTotals(Holdings()).1 == old(bank.black + HeldTotals(Holdings()).1)
      ensures startingIndex == (old(startingIndex) + 1) % PLAYER_COUNT
      ensures SettledAs(s, Payroll(s.players, bank.white, bank.black, Holdings()),
        PayRun(Penalties(players), old(Holdings()), old(bank.white), old(bank.black)), EmptiedSeat(currentRound.state))
    {
      s := Settle(currentRound);
      AdvanceStartingPlayer();
    }

    /** The payments of `scoreRound`: the hand penalties in seat order, then the empty-hand bonus. */
    method Settle(round: Round) returns (s: Summary)
      requires |players| == PLAYER_COUNT && (forall k :: 0 <= k < PLAYER_COUNT ==> players[k].index == k) && bank.Valid()
      requires round.Valid() && round.players == players
      modifies bank, players`whiteTokens, players`blackTokens
      ensures bank.Valid()
      ensures SettledAs(s, Payroll(s.players, bank.white, bank.black, Holdings()),
        PayRun(Penalties(players), old(Holdings()), old(bank.white), old(bank.black)), EmptiedSeat(round.state))
      ensures bank.white + HeldTotals(Holdings()).0 == old(bank.white + HeldTotals(Holdings()).0)
      ensures bank.black + HeldTotals(Holdings()).1 == old(bank.black + HeldTotals(Holdings()).1)
      ensures old(HoldingsSound(Holdings())) ==> HoldingsSound(Holdings())
    {
      ghost var pens, H0, w0, b0 := Penalties(players), Holdings(), bank.white, bank.black;
      var scores := PayPenalties();
      ghost var run := PayRun(pens, H0, w0, b0);
      assert run == Payroll(scores, bank.white, bank.black, Holdings());
      s := HandleEmptyHandBonus(round, Summary(scores, None, None));
      if round.state.EndedHandEmpty? {
        BonusPaidEffect(run, round.state.emptied.index);
      }
      assert Penalties(players) == pens;
    }

    /** True exactly when some player holds at least 40 points. */
    method IsGameOver() returns (over: bool)
      ensures over <==> exists k :: 0 <= k < |players| && players[k].TotalPoints() >= GAME_OVER_THRESHOLD
    {
      var i := 0;
      while i < |players|
        invariant 0 <= i <= |players|
        invariant forall k :: 0 <= k < i ==> players[k].TotalPoints() < GAME_OVER_THRESHOLD
      {
        if players[i].TotalPoints() >= GAME_OVER_THRESHOLD {
          return true;
        }
        i := i + 1;
      }
      return false;
    }

    /**
     * The players with the fewest points, in seat order: the minimum is found first
     * (starting from "infinity", here None), then the players at it are collected.
     */
    method GetWinners() returns (winners: seq<Player>)
      requires |players| == PLAYER_COUNT
      ensures winners == AtPoints(players, MinOf(PointsOf(players)))
      ensures winners != []
      ensures forall w, k :: 0 <= w < |winners| && 0 <= k < |players| ==> winners[w].TotalPoints() <= players[k].TotalPoints()
    {
      var m := LowestPoints();
      winners := PlayersWithPoints(m);
      WinnersOnMinimum(players);
    }

    /** The first pass of `getWinners`: the lowest total among the seats. */
    method LowestPoints() returns (m: int)
      requires players != []
      ensures m == MinOf(PointsOf(players))
    {
      var minPoints: Option<int> := None;
      var i := 0;
      while i < |players|
        invariant 0 <= i <= |players|
        invariant i == 0 <==> minPoints == None
        invariant i > 0 ==> minPoints == Some(MinOf(PointsOf(players)[..i]))
      {
        var pts := players[i].TotalPoints();
        assert PointsOf(players)[..i + 1][..i] == PointsOf(players)[..i];
        if minPoints == None || pts < minPoints.value {
          minPoints := Some(pts);
        }
        i := i + 1;
      }
      assert PointsOf(players)[..i] == PointsOf(players);
      m := minPoints.value;
    }

    /** The second pass of `getWinners`: every seat holding exactly `m` points, in seat order. */
    method PlayersWithPoints(m: int) returns (r: seq<Player>)
      ensures r == AtPoints(players, m)
    {
      r := [];
      var j := 0;
      while j < |players|
        invariant 0 <= j <= |players|
        invariant r == AtPoints(players[..j], m)
      {
        assert players[..j + 1][..j] == players[..j];
        if players[j].TotalPoints() == m {
          r := r + [players[j]];
        }
        j := j + 1;
      }
      assert players[..j] == players;
    }

    /** All players sorted ascending by total points; the game's own order is untouched. */
    method GetStandings() returns (standings: seq<Player>)
      requires |players| == PLAYER_COUNT
      ensures multiset(standings) == multiset(players) && |standings| == PLAYER_COUNT
      ensures SortedByPoints(standings)
    {
      standings := SortByPoints(players);
    }
  }
}
